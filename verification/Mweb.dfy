/**
 * The MWEB data that the swap protocol handles, and the library facts it relies on. Constants
 * without a value stand for library code that is not part of this model: nothing is known about
 * them beyond their type.
 */
module Mweb {
  import opened Wrappers
  import opened Bytes
  import opened Curve

  /** 32 bytes as the number they encode. */
  type Bytes32 = x: nat | x < Pow256(32)
    witness (WidthPositive(32); 0)

  type uint64 = x: int | 0 <= x < U64

  datatype MwebOutput = MwebOutput(
    commitment: Point,
    senderPubKey: Point,
    receiverPubKey: Point,
    message: seq<byte>,
    rangeProof: Option<seq<byte>>,
    signature: seq<byte>)

  datatype MwebKernel = MwebKernel(excess: Point, stealthExcess: Point, fee: nat)

  datatype MwebInput = MwebInput(
    outputId: seq<byte>,
    commitment: Point,
    inputPubKey: Point,
    outputPubKey: Point,
    signature: seq<byte>)

  datatype MwebTx = MwebTx(inputs: seq<MwebInput>, outputs: seq<MwebOutput>, kernels: seq<MwebKernel>)

  type StealthAddress = seq<byte>

  const SerializeOutput: MwebOutput -> seq<byte>
  const DeserializeOutput: seq<byte> -> Option<MwebOutput>
  const OutputHash: MwebOutput -> nat
  const RangeProofVerifies: (seq<byte>, Point, seq<byte>) -> bool
  const OutputSigVerifies: MwebOutput -> bool

  /** The switch commitment's blind: a scalar that depends on the blind and the value. */
  const BlindSwitch: (int, nat) -> Scalar

  /** The mask blind that `CreateOutput` derives, and the rest of the output it builds. */
  const MaskBlind: (nat, StealthAddress, Bytes32) -> Scalar
  const OutputRest: (nat, StealthAddress, Bytes32) -> MwebOutput

  /** `mweb.CreateOutput` followed by `mweb.SignOutput`; the blind comes with the output. */
  function CreateOutput(value: nat, address: StealthAddress, senderKey: Bytes32): (MwebOutput, Scalar) {
    var blind := MaskBlind(value, address, senderKey);
    (OutputRest(value, address, senderKey).(
       commitment := NewCommitment(BlindSwitch(blind, value), value),
       senderPubKey := PubKey(senderKey)),
     blind)
  }

  function CreateKernel(blind: int, stealthBlind: int, fee: nat): MwebKernel {
    MwebKernel(NewCommitment(blind, 0), PubKey(stealthBlind), fee)
  }

  /** Weights and fee rate of the chain; only their signs matter here. */
  const StandardOutputWeight: nat
  const KernelWithStealthWeight: Positive
  const BaseMwebFee: Positive

  /** Does serialising an output and reading it back return it? */
  predicate Serializable(o: MwebOutput) {
    DeserializeOutput(SerializeOutput(o)) == Some(o)
  }
}
