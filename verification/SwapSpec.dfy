/**
 * What each step of the CoinSwap round does, as relations on values. The methods of `SwapService`
 * satisfy these relations; the whole-round theorems are about them.
 */
module SwapSpec {
  import opened Wrappers
  import opened Bytes
  import opened Curve
  import opened Sums
  import opened Mweb
  import opened OnionCodec

  /** An onion in flight and the stealth keys summed so far. */
  datatype OnionEtc = OnionEtc(onion: Onion, stealthSum: Point)

  type Held = map<Point, OnionEtc>

  /** Taking a layer off with a fixed server key. */
  type Peeler = Onion -> Result<Peeled, OnionError>

  /**
   * This server's peeling, its own fee as a function of the number of outputs (see `FeeShare`), and
   * its place in the swap topology.
   */
  datatype Node = Node(peel: Peeler, share: nat -> nat, index: nat, count: nat) {
    predicate Placed() { index < count }
    predicate Last() { index + 1 == count }
  }

  /** `small` holds some of the onions of `big`. */
  ghost predicate Part(small: Held, big: Held) {
    forall c :: c in small ==> c in big && small[c] == big[c]
  }

  /* Peeling one layer */

  predicate Peels(peel: Peeler, o: OnionEtc) { peel(o.onion).Ok? }

  function HopOf(peel: Peeler, o: OnionEtc): Hop
    requires Peels(peel, o)
  {
    peel(o.onion).value.hop
  }

  /** The commitment after this hop: its kernel blind added, its fee taken off. */
  function Next(peel: Peeler, commit: Point, o: OnionEtc): Point
    requires Peels(peel, o)
  {
    var hop := HopOf(peel, o);
    Sub(Add(commit, NewCommitment(hop.kernelBlind, 0)), NewCommitment(0, hop.fee))
  }

  function NextStealth(peel: Peeler, o: OnionEtc): Point
    requires Peels(peel, o)
  {
    Add(o.stealthSum, PubKey(HopOf(peel, o).stealthBlind))
  }

  function NextOnion(peel: Peeler, o: OnionEtc): OnionEtc
    requires Peels(peel, o)
  {
    OnionEtc(peel(o.onion).value.onion, NextStealth(peel, o))
  }

  /** The last node's checks on the destination output. */
  predicate OutputAccepted(output: MwebOutput, commit: Point, stealthSum: Point) {
    && commit == output.commitment
    && stealthSum == output.senderPubKey
    && output.rangeProof.Some?
    && RangeProofVerifies(output.rangeProof.value, commit, output.message)
    && OutputSigVerifies(output)
  }

  /** Peel, position and output checks: everything except the collision check. */
  predicate Passes(node: Node, commit: Point, o: OnionEtc) {
    && Peels(node.peel, o)
    && var output := HopOf(node.peel, o).output;
       && node.Last() == output.Some?
       && (output.Some? ==> OutputAccepted(output.value, Next(node.peel, commit, o), NextStealth(node.peel, o)))
  }

  ghost predicate AllPeel(peel: Peeler, held: Held) {
    forall c :: c in held ==> Peels(peel, held[c])
  }

  /** No two held commitments go to the same one. */
  ghost predicate OneToOne(peel: Peeler, held: Held)
    requires AllPeel(peel, held)
  {
    forall c, d {:trigger Next(peel, c, held[c]), Next(peel, d, held[d])} ::
      c in held && d in held && Next(peel, c, held[c]) == Next(peel, d, held[d]) ==> c == d
  }

  /** Where the held commitments go at this hop. */
  ghost function NextKeys(peel: Peeler, held: Held): set<Point>
    requires AllPeel(peel, held)
  {
    set c | c in held :: Next(peel, c, held[c])
  }

  /** The batch `next` is `held` one hop further, one entry per held onion. */
  ghost predicate Linked(peel: Peeler, held: Held, next: Held)
    requires AllPeel(peel, held)
  {
    && OneToOne(peel, held)
    && next.Keys == NextKeys(peel, held)
    && forall c :: c in held ==>
      Next(peel, c, held[c]) in next && next[Next(peel, c, held[c])] == NextOnion(peel, held[c])
  }

  ghost predicate Survive(node: Node, all: Held, held: Held) {
    forall c :: c in held ==> c in all && held[c] == all[c] && Passes(node, c, held[c])
  }

  /** Every onion that passes finds its next commitment taken, by itself or by one it collides with. */
  ghost predicate Covered(node: Node, all: Held, out: Held) {
    forall c :: c in all && Passes(node, c, all[c]) ==> Next(node.peel, c, all[c]) in out
  }

  /** The destination outputs of the onions visited in `order`. */
  ghost predicate Outputs(peel: Peeler, held: Held, order: seq<Point>, outputs: seq<MwebOutput>) {
    && |outputs| == |order|
    && forall i :: 0 <= i < |order| ==>
         order[i] in held && Peels(peel, held[order[i]]) && HopOf(peel, held[order[i]]).output == Some(outputs[i])
  }

  /**
   * What `peelOnions` leaves: the survivors `held` among `all`, the batch `out` for the next node,
   * the destination outputs in the order in which the survivors were visited.
   */
  ghost predicate PeelOutcome(
    node: Node, all: Held, held: Held, out: Held, outputs: seq<MwebOutput>, order: seq<Point>)
  {
    && Survive(node, all, held)
    && AllPeel(node.peel, held)
    && Linked(node.peel, held, out)
    && Covered(node, all, out)
    && Visits(order, held.Keys)
    && if node.Last() then Outputs(node.peel, held, order, outputs) else outputs == []
  }

  /* Messages: the items of a gob stream, read with a cursor */

  datatype Item =
    | Commits(commits: seq<Point>)
    | OnionItem(onion: OnionEtc)
    | Count(count: int)
    | OutputItem(output: MwebOutput)
    | KernelItem(kernel: MwebKernel)

  type Message = seq<Item>

  function OnionItems(onions: seq<OnionEtc>): Message {
    seq(|onions|, i requires 0 <= i < |onions| => OnionItem(onions[i]))
  }

  function OutputItems(outputs: seq<MwebOutput>): Message {
    seq(|outputs|, i requires 0 <= i < |outputs| => OutputItem(outputs[i]))
  }

  function KernelItems(kernels: seq<MwebKernel>): Message {
    seq(|kernels|, i requires 0 <= i < |kernels| => KernelItem(kernels[i]))
  }

  function ForwardMessage(commits: seq<Point>, onions: seq<OnionEtc>): Message {
    [Commits(commits)] + OnionItems(onions)
  }

  function BackwardMessage(commits: seq<Point>, outputs: seq<MwebOutput>, kernels: seq<MwebKernel>): Message {
    [Commits(commits), Count(|outputs|)] + OutputItems(outputs) + KernelItems(kernels)
  }

  /* The backward pass */

  function OutputVec(o: MwebOutput): Vec { Open(o.commitment) }
  function SenderVec(o: MwebOutput): Vec { Open(o.senderPubKey) }
  function KernelVec(k: MwebKernel): Vec { Open(k.excess).Minus(Vec(0, k.fee)) }
  function StealthExcessVec(k: MwebKernel): Vec { Open(k.stealthExcess) }

  /** What this node's hop adds to a held commitment: its kernel blind, less its fee. */
  function HopVec(peel: Peeler, held: Held): Point -> Vec {
    (c: Point) => if c in held && Peels(peel, held[c])
         then Vec(HopOf(peel, held[c]).kernelBlind, 0 - HopOf(peel, held[c]).fee) else Zero
  }

  function StealthBlindVec(peel: Peeler, held: Held): Point -> Vec {
    (c: Point) => if c in held && Peels(peel, held[c]) then Vec(HopOf(peel, held[c]).stealthBlind, 0) else Zero
  }

  function CommitVec(c: Point): Vec { Open(c) }

  function StealthVec(held: Held): Point -> Vec {
    (c: Point) => if c in held then Open(held[c].stealthSum) else Zero
  }

  function NextVec(peel: Peeler, held: Held): Point -> Vec {
    (c: Point) => if c in held && Peels(peel, held[c]) then Open(Next(peel, c, held[c])) else Zero
  }

  function NextStealthVec(peel: Peeler, held: Held): Point -> Vec {
    (c: Point) => if c in held && Peels(peel, held[c]) then Open(NextStealth(peel, held[c])) else Zero
  }

  /** Unbounded sum of the fees that the held onions pay this node. */
  ghost function FeeTotal(peel: Peeler, held: Held): int {
    -SumSet(held.Keys, HopVec(peel, held)).v
  }

  /** What is lost when these fees are summed in 64 bits: a multiple of 2^64, zero if the sum fits. */
  ghost function Lost(peel: Peeler, held: Held): int {
    FeeTotal(peel, held) - FeeTotal(peel, held) % U64
  }

  /** Sum of outputs = sum of held commitments + sum of kernel excesses less kernel fees. */
  ghost predicate Balanced(held: Held, outputs: seq<MwebOutput>, kernels: seq<MwebKernel>) {
    Same(SumSeq(outputs, OutputVec), SumSet(held.Keys, CommitVec).Plus(SumSeq(kernels, KernelVec)))
  }

  /** Sum of sender keys = sum of held stealth sums + sum of stealth excesses. */
  ghost predicate StealthBalanced(held: Held, outputs: seq<MwebOutput>, kernels: seq<MwebKernel>) {
    Same(SumSeq(outputs, SenderVec), SumSet(held.Keys, StealthVec(held)).Plus(SumSeq(kernels, StealthExcessVec)))
  }

  /** The first equality that `Backward` checks: the same, for the commitments after this hop. */
  ghost predicate CommitCheck(peel: Peeler, held: Held, outputs: seq<MwebOutput>, kernels: seq<MwebKernel>) {
    Same(SumSeq(outputs, OutputVec).Minus(SumSet(held.Keys, NextVec(peel, held))), SumSeq(kernels, KernelVec))
  }

  /** The second equality that `Backward` checks. */
  ghost predicate StealthCheck(peel: Peeler, held: Held, outputs: seq<MwebOutput>, kernels: seq<MwebKernel>) {
    Same(SumSeq(outputs, SenderVec).Minus(SumSet(held.Keys, NextStealthVec(peel, held))),
      SumSeq(kernels, StealthExcessVec))
  }

  /** Rounded-up share of the output fee plus the fee of the node's own kernel. */
  function FeeShare(nOutputs: nat, nNodes: nat): nat
    requires nNodes > 0
  {
    (nOutputs * StandardOutputWeight * BaseMwebFee + nNodes - 1) / nNodes + KernelWithStealthWeight * BaseMwebFee
  }

  /** The fee of a node among `nNodes` as a function of the number of outputs. */
  function ShareAmong(nNodes: nat): nat -> nat {
    (nOutputs: nat) => if nNodes > 0 then FeeShare(nOutputs, nNodes) else 0
  }

  datatype Failure =
    | Undecodable
    | CommitInvariant
    | StealthInvariant
    | InsufficientHopFees
    | NoValidOnion
    | MixedDenominations
    | StorageFailed
    | Unreachable

  /**
   * What a call comes to. The peer that is to be called may be `Unreachable`: its key is refused or it
   * cannot be dialed. A finished transaction was `accepted` by the network or not; `cleaned` says that
   * the onions it spends have then left the queue. Without that the call returns an error.
   */
  datatype Outcome =
    | Ignored
    | Panicked
    | Failed(failure: Failure)
    | SendForward(message: Message)
    | SendBackward(message: Message)
    | Finalized(tx: MwebTx, accepted: bool, cleaned: bool)

  const feeAddress: StealthAddress

  /** The node's own output, worth what its onions paid it beyond its fee share. */
  function OwnOutput(value: nat, senderKey: Bytes32): (MwebOutput, Scalar) {
    CreateOutput(value, feeAddress, senderKey)
  }

  /** The node's own kernel: its hops' summed blinds together with those of its output. */
  function OwnKernel(hopBlind: int, stealthBlind: int, value: nat, fee: nat, senderKey: Bytes32): MwebKernel {
    CreateKernel(hopBlind + BlindSwitch(OwnOutput(value, senderKey).1, value), stealthBlind + senderKey, fee)
  }

  ghost predicate SortedByHash(outputs: seq<MwebOutput>) {
    forall i, j :: 0 <= i < j < |outputs| ==> OutputHash(outputs[i]) <= OutputHash(outputs[j])
  }

  /** The outputs and kernels that leave a node which keeps `value` and whose own fee is `fee`. */
  ghost predicate Appended(
    hopBlind: int, stealthBlind: int, value: nat, fee: nat, senderKey: Bytes32,
    outputs: seq<MwebOutput>, kernels: seq<MwebKernel>, outputs': seq<MwebOutput>, kernels': seq<MwebKernel>)
  {
    && multiset(outputs') == multiset(outputs + [OwnOutput(value, senderKey).0])
    && SortedByHash(outputs')
    && kernels' == kernels + [OwnKernel(hopBlind, stealthBlind, value, fee, senderKey)]
  }

  ghost predicate SpendsInOrder(held: Held, inputs: seq<MwebInput>, order: seq<Point>) {
    && Visits(order, held.Keys)
    && |inputs| == |order|
    && forall i :: 0 <= i < |order| ==> order[i] in held && InputFromOnion(held[order[i]].onion) == Some(inputs[i])
  }

  /** The transaction spends exactly the inputs of the held onions. */
  ghost predicate Spends(held: Held, inputs: seq<MwebInput>) {
    exists order :: SpendsInOrder(held, inputs, order)
  }

  /**
   * What leaves a node: the finished transaction at node 0, a message to the previous node elsewhere if
   * that can be reached.
   */
  ghost predicate Delivers(
    node: Node, held: Held, outputs: seq<MwebOutput>, kernels: seq<MwebKernel>, outcome: Outcome)
  {
    if node.index == 0 then
      outcome.Finalized? && outcome.tx.outputs == outputs && outcome.tx.kernels == kernels
      && Spends(held, outcome.tx.inputs)
    else
      outcome == Failed(Unreachable) || SendsBack(held, outputs, kernels, outcome)
  }

  ghost predicate SendsBack(held: Held, outputs: seq<MwebOutput>, kernels: seq<MwebKernel>, outcome: Outcome) {
    exists commits :: Visits(commits, held.Keys)
      && outcome == SendBackward(BackwardMessage(commits, outputs, kernels))
  }

  /** `Appended` with the sums over the onions that the node holds. */
  ghost predicate Leaves(
    peel: Peeler, held: Held, value: nat, fee: nat, senderKey: Bytes32,
    outputs: seq<MwebOutput>, kernels: seq<MwebKernel>, outputs': seq<MwebOutput>, kernels': seq<MwebKernel>)
  {
    Appended(SumSet(held.Keys, HopVec(peel, held)).g, SumSet(held.Keys, StealthBlindVec(peel, held)).g,
             value, fee, senderKey, outputs, kernels, outputs', kernels')
  }

  /** A node whose onions paid it `earned` and whose own fee is `fee`. */
  ghost predicate Settled(
    node: Node, held: Held, earned: int, fee: nat, outputs: seq<MwebOutput>, kernels: seq<MwebKernel>,
    outcome: Outcome)
  {
    if earned < fee then
      outcome == Failed(InsufficientHopFees)
    else
      var value := earned - fee;
      exists senderKey, outputs', kernels' ::
        && Leaves(node.peel, held, value, fee, senderKey, outputs, kernels, outputs', kernels')
        && Delivers(node, held, outputs', kernels', outcome)
  }

  /** What the lower-case `backward` may do with the onions it holds: it adds up fees in 64 bits. */
  ghost predicate BackwardOutcome(
    node: Node, held: Held, outputs: seq<MwebOutput>, kernels: seq<MwebKernel>, outcome: Outcome)
    requires node.Placed()
  {
    Settled(node, held, FeeTotal(node.peel, held) % U64, node.share(|outputs| + node.index + 1),
            outputs, kernels, outcome)
  }

  /* Inputs */

  /** Points as 33 bytes on the wire. */
  datatype PointBytes = PointBytes(encode: Point -> seq<byte>, decode: seq<byte> -> Point)

  ghost predicate ReadsBack(c: PointBytes, p: Point) {
    |c.encode(p)| == 33 && c.decode(c.encode(p)) == p
  }

  ghost predicate IsPointBytes(c: PointBytes) {
    forall p: Point :: ReadsBack(c, p)
  }

  function BigEndianPoints(): (c: PointBytes)
    ensures IsPointBytes(c)
  {
    var c := PointBytes((p: Point) => BigEndian(p, 33), (s: seq<byte>) => Number(s) % N);
    BigEndianReadsBack(c);
    c
  }

  lemma BigEndianReadsBack(c: PointBytes)
    requires forall p: Point :: c.encode(p) == BigEndian(p, 33)
    requires forall s :: c.decode(s) == Number(s) % N
    ensures IsPointBytes(c)
  {
    forall p: Point ensures ReadsBack(c, p) {
      ScalarFits(p);
      assert Pow256(33) == 256 * Pow256(32);
      BigEndianNumber(p, 33);
      Residue(N, p, 0, p);
    }
  }

  type LawfulPointBytes = c: PointBytes | IsPointBytes(c) witness BigEndianPoints()

  const points: LawfulPointBytes

  function EncodePoint(p: Point): seq<byte> { points.encode(p) }

  function DecodePoint(s: seq<byte>): Point { points.decode(s) }

  lemma PointReadsBack(p: Point)
    ensures |EncodePoint(p)| == 33 && DecodePoint(EncodePoint(p)) == p
  {
    assert ReadsBack(points, p);
  }

  /** Slice-to-array conversions: a longer slice is cut, a shorter one panics (recovered to an error). */
  function InputFromOnion(onion: Onion): Option<MwebInput> {
    var i := onion.input;
    if |i.outputId| < 32 || |i.commitment| < 33 || |i.inputPubKey| < 33 || |i.outputPubKey| < 33 || |i.signature| < 64
    then None
    else Some(MwebInput(i.outputId[..32], DecodePoint(i.commitment[..33]), DecodePoint(i.inputPubKey[..33]),
                        DecodePoint(i.outputPubKey[..33]), i.signature[..64]))
  }

  const InputSigVerifies: MwebInput -> bool
  const OwnerSigVerifies: Onion -> bool

  /** `validateOnion` against the coins the chain knows. */
  predicate ValidOnion(coins: map<seq<byte>, MwebOutput>, onion: Onion) {
    match InputFromOnion(onion)
    case None => false
    case Some(input) =>
      && input.outputId in coins
      && input.commitment == coins[input.outputId].commitment
      && input.outputPubKey == coins[input.outputId].receiverPubKey
      && InputSigVerifies(input)
      && OwnerSigVerifies(onion)
  }

  /** At node 0 every onion is held under the commitment that its own input spends. */
  ghost predicate KeyedByInput(held: Held) {
    forall c :: c in held ==>
      && InputFromOnion(held[c].onion).Some?
      && var input := InputFromOnion(held[c].onion).value;
         && input.commitment == c
         && held[c].stealthSum == Sub(input.outputPubKey, input.inputPubKey)
  }

  /* The remote calls */

  /** Commitments in the order of their encodings. */
  ghost predicate Ascending(commits: seq<Point>, keys: set<Point>) {
    && Visits(commits, keys)
    && (forall c :: c in commits ==> c in keys)
    && forall i, j :: 0 <= i < j < |commits| ==> commits[i] < commits[j]
  }

  function Pick(batch: Held, commits: seq<Point>): seq<OnionEtc>
    requires forall c :: c in commits ==> c in batch
  {
    seq(|commits|, i requires 0 <= i < |commits| => batch[commits[i]])
  }

  /** The batch is passed on, sorted by commitment. */
  ghost predicate SendsOn(out: Held, outcome: Outcome) {
    exists commits ::
      && Ascending(commits, out.Keys)
      && outcome == SendForward(ForwardMessage(commits, Pick(out, commits)))
  }

  /**
   * What the lower-case `forward` does with the onions `all`: peel, then turn round at the last node,
   * else pass on if the next node can be reached.
   */
  ghost predicate ForwardOutcome(node: Node, all: Held, held: Held, outcome: Outcome)
    requires node.Placed()
  {
    exists out, outputs, order ::
      && PeelOutcome(node, all, held, out, outputs, order)
      && if node.Last() then BackwardOutcome(node, held, outputs, [], outcome)
         else outcome == Failed(Unreachable) || SendsOn(out, outcome)
  }

  /** The onions of a forward message under their commitments; None if the stream breaks off. */
  function ReadForward(message: Message): Option<Held> {
    if message == [] || !message[0].Commits? then None
    else ReadOnions(message[0].commits, message[1..])
  }

  function ReadOnions(commits: seq<Point>, items: Message): Option<Held> {
    if commits == [] then Some(map[])
    else if |items| < |commits| || !items[|commits| - 1].OnionItem? then None
    else
      match ReadOnions(commits[..|commits| - 1], items)
      case None => None
      case Some(batch) => Some(batch[commits[|commits| - 1] := items[|commits| - 1].onion])
  }

  /** The onions read before the stream breaks off, added to `batch` one by one. */
  function ReadUpTo(batch: Held, commits: seq<Point>, items: Message): Held
    decreases |commits|
  {
    if commits == [] || items == [] || !items[0].OnionItem? then batch
    else ReadUpTo(batch[commits[0] := items[0].onion], commits[1..], items[1..])
  }

  /** What a node holds after a forward message that cannot be read to the end. */
  function PartlyRead(before: Held, message: Message): Held {
    if message == [] || !message[0].Commits? then before
    else ReadUpTo(map[], message[0].commits, message[1..])
  }

  /** The call `swap_forward`. */
  ghost predicate ForwardStep(node: Node, before: Held, message: Message, held: Held, outcome: Outcome)
    requires node.Placed()
  {
    if node.index == 0 then outcome == Ignored && held == before
    else
      match ReadForward(message)
      case None => outcome == Failed(Undecodable) && held == PartlyRead(before, message)
      case Some(all) => ForwardOutcome(node, all, held, outcome)
  }

  predicate AllOutputs(items: Message) {
    forall i :: 0 <= i < |items| ==> items[i].OutputItem?
  }

  predicate AllKernels(items: Message) {
    forall i :: 0 <= i < |items| ==> items[i].KernelItem?
  }

  function OutputsIn(items: Message): seq<MwebOutput>
    requires AllOutputs(items)
  {
    seq(|items|, i requires 0 <= i < |items| => items[i].output)
  }

  function KernelsIn(items: Message): seq<MwebKernel>
    requires AllKernels(items)
  {
    seq(|items|, i requires 0 <= i < |items| => items[i].kernel)
  }

  /** Commitments, outputs as counted, and one kernel for every later node; the rest is not read. */
  function ReadBackward(node: Node, message: Message): Option<(seq<Point>, seq<MwebOutput>, seq<MwebKernel>)>
    requires node.Placed()
  {
    if |message| < 2 || !message[0].Commits? || !message[1].Count? then None
    else
      var m := if message[1].count < 0 then 0 else message[1].count;
      var k := node.count - 1 - node.index;
      if |message| < 2 + m + k || !AllOutputs(message[2..2 + m]) || !AllKernels(message[2 + m..2 + m + k]) then None
      else Some((message[0].commits, OutputsIn(message[2..2 + m]), KernelsIn(message[2 + m..2 + m + k])))
  }

  /** The onions whose next commitment the next node still holds. */
  ghost function Kept(peel: Peeler, all: Held, commits: seq<Point>): Held
    requires AllPeel(peel, all)
  {
    map c | c in all && Next(peel, c, all[c]) in commits :: all[c]
  }

  /** The call `swap_backward`. Dereferencing a missing sum or hop panics. */
  ghost predicate BackwardStep(node: Node, all: Held, message: Message, held: Held, outcome: Outcome)
    requires node.Placed()
  {
    if node.Last() then outcome == Ignored && held == all
    else
      match ReadBackward(node, message)
      case None => outcome == Failed(Undecodable) && held == all
      case Some((commits, outputs, kernels)) =>
        if outputs == [] || !AllPeel(node.peel, all) then outcome == Panicked && Part(held, all)
        else
          && held == Kept(node.peel, all, commits)
          && if !CommitCheck(node.peel, held, outputs, kernels) then outcome == Failed(CommitInvariant)
             else if !StealthCheck(node.peel, held, outputs, kernels) then outcome == Failed(StealthInvariant)
             else BackwardOutcome(node, held, outputs, kernels, outcome)
  }
}
