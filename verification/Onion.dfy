/** The layered onion: `onion.New` wraps one payload per hop, `Peel` takes one layer off. */
module OnionCodec {
  import opened Wrappers
  import opened Bytes
  import opened Mweb
  import opened Curve

  /* Keys and the stream cipher */

  datatype PrivKey = PrivKey(seed: seq<byte>)

  type Secret = seq<byte>

  /**
   * X25519 together with the HMAC that turns the shared secret into a cipher key. `cipherKey` is
   * None where ECDH refuses the peer's key (section 6.1 of RFC 7748: an all-zero shared secret).
   */
  datatype Exchange = Exchange(publicKey: PrivKey -> seq<byte>, cipherKey: (PrivKey, seq<byte>) -> Option<Secret>)

  ghost predicate Agrees(x: Exchange, a: PrivKey, b: PrivKey) {
    && |x.publicKey(a)| == 32
    && x.cipherKey(a, x.publicKey(b)) == x.cipherKey(b, x.publicKey(a))
  }

  ghost predicate IsExchange(x: Exchange) {
    forall a, b :: Agrees(x, a, b)
  }

  function TrivialExchange(): (x: Exchange)
    ensures IsExchange(x)
  {
    Exchange(_ => Zeros(32), (_, _) => Some([]))
  }

  type KeyExchange = x: Exchange | IsExchange(x) witness TrivialExchange()

  const x25519: KeyExchange

  /** The ChaCha20 keystream of section 2.4 of RFC 8439: the byte at an offset. */
  const Keystream: (Secret, nat) -> byte

  /** `data` as the cipher returns it when `offset` bytes went through it before. */
  function Stream(key: Secret, offset: nat, data: seq<byte>): (s: seq<byte>)
    ensures |s| == |data|
  {
    seq(|data|, i requires 0 <= i < |data| => Xor(data[i], Keystream(key, offset + i)))
  }

  /** A list of buffers run through one cipher, one after the other. */
  function StreamAll(key: Secret, offset: nat, buffers: seq<seq<byte>>): (s: seq<seq<byte>>)
    ensures |s| == |buffers|
    decreases |buffers|
  {
    if buffers == [] then []
    else [Stream(key, offset, buffers[0])] + StreamAll(key, offset + |buffers[0]|, buffers[1..])
  }

  function Total(buffers: seq<seq<byte>>): nat {
    if buffers == [] then 0 else |buffers[0]| + Total(buffers[1..])
  }

  lemma StreamTwice(key: Secret, offset: nat, data: seq<byte>)
    ensures Stream(key, offset, Stream(key, offset, data)) == data
  {
    var once := Stream(key, offset, data);
    forall i | 0 <= i < |data| ensures Stream(key, offset, once)[i] == data[i] {
      XorTwice(data[i], Keystream(key, offset + i));
    }
  }

  lemma {:induction false} StreamAllTwice(key: Secret, offset: nat, buffers: seq<seq<byte>>)
    ensures StreamAll(key, offset, StreamAll(key, offset, buffers)) == buffers
    decreases |buffers|
  {
    if buffers != [] {
      StreamTwice(key, offset, buffers[0]);
      StreamAllTwice(key, offset + |buffers[0]|, buffers[1..]);
      var once := StreamAll(key, offset, buffers);
      assert once[1..] == StreamAll(key, offset + |buffers[0]|, buffers[1..]);
    }
  }

  /** Where the keystream stands when the cipher reaches the k-th buffer. */
  lemma {:induction false} StreamAllAt(key: Secret, offset: nat, buffers: seq<seq<byte>>, k: nat)
    requires k < |buffers|
    ensures StreamAll(key, offset, buffers)[k] == Stream(key, offset + Total(buffers[..k]), buffers[k])
    decreases |buffers|
  {
    if k > 0 {
      StreamAllAt(key, offset + |buffers[0]|, buffers[1..], k - 1);
      assert buffers[..k][1..] == buffers[1..][..k - 1];
    }
  }

  lemma {:induction false} TotalSnoc(buffers: seq<seq<byte>>, last: seq<byte>)
    ensures Total(buffers + [last]) == Total(buffers) + |last|
  {
    if buffers != [] {
      TotalSnoc(buffers[1..], last);
      assert (buffers + [last])[1..] == buffers[1..] + [last];
    }
  }

  lemma {:induction false} StreamAllSnoc(key: Secret, offset: nat, buffers: seq<seq<byte>>, last: seq<byte>)
    ensures StreamAll(key, offset, buffers + [last])
         == StreamAll(key, offset, buffers) + [Stream(key, offset + Total(buffers), last)]
    decreases |buffers|
  {
    if buffers != [] {
      StreamAllSnoc(key, offset + |buffers[0]|, buffers[1..], last);
      assert (buffers + [last])[1..] == buffers[1..] + [last];
    }
  }

  /* Payloads */

  /** What one hop learns: blinds as the 32 bytes they arrive in, its fee, the last hop's output. */
  datatype Hop = Hop(kernelBlind: Bytes32, stealthBlind: Bytes32, fee: uint64, output: Option<MwebOutput>)

  datatype OnionInput = OnionInput(
    outputId: seq<byte>,
    commitment: seq<byte>,
    outputPubKey: seq<byte>,
    inputPubKey: seq<byte>,
    signature: seq<byte>)

  const EmptyInput: OnionInput := OnionInput([], [], [], [], [])

  datatype Onion = Onion(input: OnionInput, payloads: seq<byte>, pubKey: seq<byte>, ownerProof: seq<byte>)

  datatype OnionError =
    | BadPublicKey
    | KeyRefused
    | EndOfData
    | WrongVersion
    | KernelBlindOverflow
    | StealthBlindOverflow
    | BadOutput

  datatype Peeled = Peeled(hop: Hop, onion: Onion)

  /** One hop's payload before encryption; `next` is the key for the next layer. */
  function Payload(next: seq<byte>, hop: Hop): seq<byte> {
    [0] + next + Scalars(hop)
  }

  function Scalars(hop: Hop): seq<byte> {
    BigEndian(hop.kernelBlind, 32) + BigEndian(hop.stealthBlind, 32) + BigEndian(hop.fee, 8) + OutputFlag(hop.output)
  }

  function OutputFlag(output: Option<MwebOutput>): seq<byte> {
    match output
    case Some(o) => [1] + SerializeOutput(o)
    case None => [0]
  }

  /** The payloads of all hops: each names the next ephemeral key, the last names 32 zero bytes. */
  function Payloads(ephemeral: seq<PrivKey>, hops: seq<Hop>): (s: seq<seq<byte>>)
    requires |ephemeral| > |hops|
    ensures |s| == |hops|
  {
    if hops == [] then []
    else
      [Payload(if |hops| > 1 then x25519.publicKey(ephemeral[1]) else Zeros(32), hops[0])]
      + Payloads(ephemeral[1..], hops[1..])
  }

  /** The layers: each hop's cipher runs over its own payload and everything inside it. */
  function Layers(keys: seq<Secret>, payloads: seq<seq<byte>>): (s: seq<seq<byte>>)
    requires |keys| == |payloads|
    ensures |s| == |payloads|
  {
    if payloads == [] then []
    else StreamAll(keys[0], 0, [payloads[0]] + Layers(keys[1..], payloads[1..]))
  }

  function Entries(buffers: seq<seq<byte>>): seq<byte> {
    if buffers == [] then [] else BigEndian(|buffers[0]|, 8) + buffers[0] + Entries(buffers[1..])
  }

  /** The count, then every buffer after its length. */
  function Encode(buffers: seq<seq<byte>>): seq<byte> {
    BigEndian(|buffers|, 8) + Entries(buffers)
  }

  /** `NewCipher` for every hop: None if one of the keys is refused. */
  function CipherKeys(ephemeral: seq<PrivKey>, pubKeys: seq<seq<byte>>): (k: Option<seq<Secret>>)
    requires |ephemeral| >= |pubKeys|
    ensures k.Some? ==> |k.value| == |pubKeys|
  {
    if pubKeys == [] then Some([])
    else
      match (x25519.cipherKey(ephemeral[0], pubKeys[0]), CipherKeys(ephemeral[1..], pubKeys[1..]))
      case (Some(key), Some(keys)) => Some([key] + keys)
      case _ => None
  }

  /** The onion that `New` builds from the ephemeral keys it draws. */
  function Wrapped(ephemeral: seq<PrivKey>, keys: seq<Secret>, hops: seq<Hop>): Onion
    requires |ephemeral| > |hops| == |keys|
  {
    Onion(EmptyInput, Encode(Layers(keys, Payloads(ephemeral, hops))), x25519.publicKey(ephemeral[0]), [])
  }

  /* Reading */

  /** `bytes.Reader.Read` into `n` zero bytes: a short read succeeds unless nothing is left. */
  function Read(r: seq<byte>, n: nat): (res: Result<(seq<byte>, seq<byte>), OnionError>)
    ensures res.Ok? ==> |res.value.0| == n && |res.value.1| <= |r|
  {
    if r == [] then Err(EndOfData)
    else if n <= |r| then Ok((r[..n], r[n..]))
    else Ok((r + Zeros(n - |r|), []))
  }

  /** `binary.Read`: all `n` bytes or an error. */
  function ReadFull(r: seq<byte>, n: nat): (res: Result<(seq<byte>, seq<byte>), OnionError>)
    ensures res.Ok? ==> |res.value.0| == n
  {
    if n <= |r| then Ok((r[..n], r[n..])) else Err(EndOfData)
  }

  function ReadEntries(r: seq<byte>, count: nat): (res: Result<seq<seq<byte>>, OnionError>)
    ensures res.Ok? ==> |res.value| == count
    decreases count
  {
    if count == 0 then Ok([])
    else
      match ReadFull(r, 8)
      case Err(e) => Err(e)
      case Ok((size, r1)) =>
        match Read(r1, Number(size))
        case Err(e) => Err(e)
        case Ok((buf, r2)) =>
          match ReadEntries(r2, count - 1)
          case Err(e) => Err(e)
          case Ok(rest) => Ok([buf] + rest)
  }

  /** The decrypted payload read field by field: the next layer's key and the hop. */
  function ReadHop(payload: seq<byte>): Result<(seq<byte>, Hop), OnionError> {
    if payload == [] then Err(EndOfData)
    else if payload[0] != 0 then Err(WrongVersion)
    else
      match Read(payload[1..], 32)
      case Err(e) => Err(e)
      case Ok((pubKey, r)) =>
        match ReadScalars(r)
        case Err(e) => Err(e)
        case Ok(hop) => Ok((pubKey, hop))
  }

  function ReadScalars(r1: seq<byte>): Result<Hop, OnionError> {
    match Read(r1, 32)
    case Err(e) => Err(e)
    case Ok((kernelBlind, r2)) =>
      match Read(r2, 32)
      case Err(e) => Err(e)
      case Ok((stealthBlind, r3)) =>
        match ReadFull(r3, 8)
        case Err(e) => Err(e)
        case Ok((fee, r4)) => CheckHop(kernelBlind, stealthBlind, fee, r4)
  }

  function CheckHop(kernelBlind: seq<byte>, stealthBlind: seq<byte>, fee: seq<byte>, r: seq<byte>)
    : Result<Hop, OnionError>
    requires |kernelBlind| == |stealthBlind| == 32 && |fee| == 8
  {
    if Number(kernelBlind) >= N then Err(KernelBlindOverflow)
    else if Number(stealthBlind) >= N then Err(StealthBlindOverflow)
    else if r == [] then Err(EndOfData)
    else
      NumberBound(kernelBlind, 32);
      NumberBound(stealthBlind, 32);
      NumberBound(fee, 8);
      U64Width();
      var hop := Hop(Number(kernelBlind), Number(stealthBlind), Number(fee), None);
      if r[0] != 1 then Ok(hop)
      else
        match DeserializeOutput(r[1..])
        case None => Err(BadOutput)
        case Some(output) => Ok(hop.(output := Some(output)))
  }

  lemma NumberBound(s: seq<byte>, width: nat)
    requires |s| == width
    ensures Number(s) < Pow256(width)
  {
    NumberBigEndian(s);
  }

  /** The key shared with the layer's ephemeral key. */
  function LayerKey(priv: PrivKey, pubKey: seq<byte>): Result<Secret, OnionError> {
    if |pubKey| != 32 then Err(BadPublicKey)
    else
      match x25519.cipherKey(priv, pubKey)
      case None => Err(KeyRefused)
      case Some(key) => Ok(key)
  }

  /** What `Peel` returns. */
  function Peeling(priv: PrivKey, onion: Onion): Result<Peeled, OnionError> {
    match LayerKey(priv, onion.pubKey)
    case Err(e) => Err(e)
    case Ok(key) =>
      match ReadFull(onion.payloads, 8)
      case Err(e) => Err(e)
      case Ok((countBytes, r)) =>
        match ReadEntries(r, Number(countBytes))
        case Err(e) => Err(e)
        case Ok(entries) =>
          var plain := StreamAll(key, 0, entries);
          match ReadHop(if plain == [] then [] else plain[0])
          case Err(e) => Err(e)
          case Ok((pubKey, hop)) =>
            Ok(Peeled(hop, Onion(EmptyInput, Encode(if plain == [] then [] else plain[1..]), pubKey, [])))
  }

  /* The round trip */

  /** Lengths that a machine word can hold. */
  predicate Sized(buffers: seq<seq<byte>>) {
    |buffers| < U64 && forall k :: 0 <= k < |buffers| ==> 0 < |buffers[k]| < U64
  }

  lemma {:induction false} ReadEntriesBack(buffers: seq<seq<byte>>)
    requires forall k :: 0 <= k < |buffers| ==> 0 < |buffers[k]| < U64
    ensures ReadEntries(Entries(buffers), |buffers|) == Ok(buffers)
  {
    if buffers != [] {
      ReadEntriesBack(buffers[1..]);
      ReadEntryBack(buffers[0], Entries(buffers[1..]), |buffers| - 1);
      assert Entries(buffers) == BigEndian(|buffers[0]|, 8) + buffers[0] + Entries(buffers[1..]);
      assert [buffers[0]] + buffers[1..] == buffers;
    }
  }

  lemma ReadEntryBack(buf: seq<byte>, rest: seq<byte>, count: nat)
    requires 0 < |buf| < U64 && ReadEntries(rest, count).Ok?
    ensures ReadEntries(BigEndian(|buf|, 8) + buf + rest, count + 1) == Ok([buf] + ReadEntries(rest, count).value)
  {
    hide Pow256, BigEndian, Number;
    U64Width();
    BigEndianNumber(|buf|, 8);
    var size := BigEndian(|buf|, 8);
    var r := size + buf + rest;
    assert ReadFull(r, 8) == Ok((size, buf + rest)) by {
      assert r[..8] == size && r[8..] == buf + rest;
    }
    ReadPrefix(buf, rest);
  }

  /** What a hop must satisfy to survive the trip: scalars below N and a serialisable output. */
  predicate ValidHop(hop: Hop) {
    hop.kernelBlind < N && hop.stealthBlind < N && (hop.output.Some? ==> Serializable(hop.output.value))
  }

  lemma ReadHopBack(next: seq<byte>, hop: Hop)
    requires |next| == 32 && ValidHop(hop)
    ensures ReadHop(Payload(next, hop)) == Ok((next, hop))
  {
    hide ReadScalars, Scalars, ValidHop, Read;
    ReadScalarsBack(hop);
    ReadPrefix(next, Scalars(hop));
    assert Payload(next, hop)[1..] == next + Scalars(hop);
  }

  lemma ReadScalarsBack(hop: Hop)
    requires ValidHop(hop)
    ensures ReadScalars(Scalars(hop)) == Ok(hop)
  {
    hide BigEndian, OutputFlag, CheckHop, ValidHop;
    var kernel, stealth := BigEndian(hop.kernelBlind, 32), BigEndian(hop.stealthBlind, 32);
    var fee := BigEndian(hop.fee, 8);
    var flag := OutputFlag(hop.output);
    ReadPrefix(kernel, stealth + (fee + flag));
    ReadPrefix(stealth, fee + flag);
    assert Scalars(hop) == kernel + (stealth + (fee + flag));
    assert (fee + flag)[..8] == fee && (fee + flag)[8..] == flag;
    CheckHopBack(hop);
  }

  lemma CheckHopBack(hop: Hop)
    requires ValidHop(hop)
    ensures CheckHop(BigEndian(hop.kernelBlind, 32), BigEndian(hop.stealthBlind, 32), BigEndian(hop.fee, 8),
      OutputFlag(hop.output))
         == Ok(hop)
  {
    U64Width();
    BigEndianNumber(hop.kernelBlind, 32);
    BigEndianNumber(hop.stealthBlind, 32);
    BigEndianNumber(hop.fee, 8);
    if hop.output.Some? {
      assert OutputFlag(hop.output)[1..] == SerializeOutput(hop.output.value);
    }
  }

  lemma ReadPrefix(a: seq<byte>, b: seq<byte>)
    requires a != []
    ensures Read(a + b, |a|) == Ok((a, b))
  {
  }

  /** Lengths that a machine word can hold, as Go's slices always have. */
  predicate FitsWord(hops: seq<Hop>) {
    && |hops| < U64
    && forall h :: h in hops && h.output.Some? ==> |SerializeOutput(h.output.value)| + 106 < U64
  }

  lemma {:induction false} PayloadsSized(ephemeral: seq<PrivKey>, hops: seq<Hop>)
    requires |ephemeral| > |hops| && FitsWord(hops)
    ensures Sized(Payloads(ephemeral, hops))
  {
    if hops != [] {
      PayloadsSized(ephemeral[1..], hops[1..]);
      assert |hops| > 1 ==> Agrees(x25519, ephemeral[1], ephemeral[1]);
      var next := if |hops| > 1 then x25519.publicKey(ephemeral[1]) else Zeros(32);
      assert hops[0] in hops;
      assert |Payload(next, hops[0])| == 105 + |OutputFlag(hops[0].output)|;
      assert Payloads(ephemeral, hops)[1..] == Payloads(ephemeral[1..], hops[1..]);
      assert Payloads(ephemeral, hops)[0] == Payload(next, hops[0]);
    }
  }

  lemma {:induction false} StreamAllSizes(key: Secret, offset: nat, buffers: seq<seq<byte>>, k: nat)
    requires k < |buffers|
    ensures |StreamAll(key, offset, buffers)[k]| == |buffers[k]|
  {
    StreamAllAt(key, offset, buffers, k);
  }

  lemma {:induction false} LayersSizes(keys: seq<Secret>, payloads: seq<seq<byte>>, k: nat)
    requires |keys| == |payloads| && k < |payloads|
    ensures |Layers(keys, payloads)[k]| == |payloads[k]|
  {
    StreamAllSizes(keys[0], 0, [payloads[0]] + Layers(keys[1..], payloads[1..]), k);
    if k > 0 {
      LayersSizes(keys[1..], payloads[1..], k - 1);
    }
  }

  lemma LayersSized(ephemeral: seq<PrivKey>, keys: seq<Secret>, hops: seq<Hop>)
    requires |ephemeral| > |hops| == |keys| && FitsWord(hops)
    ensures Sized(Layers(keys, Payloads(ephemeral, hops)))
  {
    var payloads := Payloads(ephemeral, hops);
    PayloadsSized(ephemeral, hops);
    forall k | 0 <= k < |payloads| ensures 0 < |Layers(keys, payloads)[k]| < U64 {
      LayersSizes(keys, payloads, k);
    }
  }

  /** The onion that is left when every layer is off. */
  const Bare: Onion := Onion(EmptyInput, Encode([]), Zeros(32), [])

  /** The onion of the hops from the k-th on, with the keys `New` drew for them. */
  function Inner(ephemeral: seq<PrivKey>, keys: seq<Secret>, hops: seq<Hop>, k: nat): Onion
    requires |ephemeral| > |hops| == |keys| && k <= |hops|
  {
    if k == |hops| then Bare else Wrapped(ephemeral[k..], keys[k..], hops[k..])
  }

  /** Peeling looks at the payloads and the key only, not at the input or the owner's proof. */
  lemma PeelingIgnoresInput(priv: PrivKey, a: Onion, b: Onion)
    requires a.payloads == b.payloads && a.pubKey == b.pubKey
    ensures Peeling(priv, a) == Peeling(priv, b)
  {
  }

  lemma EncodeBack(buffers: seq<seq<byte>>)
    requires Sized(buffers)
    ensures ReadFull(Encode(buffers), 8) == Ok((BigEndian(|buffers|, 8), Entries(buffers)))
    ensures Number(BigEndian(|buffers|, 8)) == |buffers|
    ensures ReadEntries(Entries(buffers), |buffers|) == Ok(buffers)
  {
    U64Width();
    BigEndianNumber(|buffers|, 8);
    ReadEntriesBack(buffers);
    assert Encode(buffers)[..8] == BigEndian(|buffers|, 8) && Encode(buffers)[8..] == Entries(buffers);
  }

  /** One peel with the first hop's key returns that hop and the onion of the others. */
  lemma PeelOutermost(privs: seq<PrivKey>, ephemeral: seq<PrivKey>, pubKeys: seq<seq<byte>>, hops: seq<Hop>)
    requires |ephemeral| > |hops| == |pubKeys| == |privs| > 0
    requires pubKeys[0] == x25519.publicKey(privs[0])
    requires FitsWord(hops) && ValidHop(hops[0])
    requires CipherKeys(ephemeral, pubKeys).Some?
    ensures var keys := CipherKeys(ephemeral, pubKeys).value;
            Peeling(privs[0], Wrapped(ephemeral, keys, hops)) == Ok(Peeled(hops[0], Inner(ephemeral, keys, hops, 1)))
  {
    var keys := CipherKeys(ephemeral, pubKeys).value;
    var payloads := Payloads(ephemeral, hops);
    var layers := Layers(keys, payloads);
    assert Agrees(x25519, ephemeral[0], privs[0]);
    LayersSized(ephemeral, keys, hops);
    EncodeBack(layers);
    var inside := [payloads[0]] + Layers(keys[1..], payloads[1..]);
    StreamAllTwice(keys[0], 0, inside);
    assert inside[1..] == Layers(keys[1..], payloads[1..]);
    assert payloads[1..] == Payloads(ephemeral[1..], hops[1..]);
    assert |x25519.publicKey(ephemeral[0])| == 32;
    var next := if |hops| > 1 then x25519.publicKey(ephemeral[1]) else Zeros(32);
    assert |hops| > 1 ==> Agrees(x25519, ephemeral[1], ephemeral[1]);
    ReadHopBack(next, hops[0]);
  }

  /** The keys of the inner layers are the tail of the keys. */
  lemma {:induction false} CipherKeysTail(ephemeral: seq<PrivKey>, pubKeys: seq<seq<byte>>, k: nat)
    requires |ephemeral| >= |pubKeys| >= k && CipherKeys(ephemeral, pubKeys).Some?
    ensures CipherKeys(ephemeral[k..], pubKeys[k..]) == Some(CipherKeys(ephemeral, pubKeys).value[k..])
  {
    if k > 0 {
      CipherKeysTail(ephemeral[1..], pubKeys[1..], k - 1);
      assert ephemeral[1..][k - 1..] == ephemeral[k..] && pubKeys[1..][k - 1..] == pubKeys[k..];
      var keys := CipherKeys(ephemeral, pubKeys).value;
      assert keys[1..][k - 1..] == keys[k..];
    } else {
      assert ephemeral[0..] == ephemeral && pubKeys[0..] == pubKeys;
    }
  }

  /**
   * The k-th peel of an onion with the k-th hop's key returns that hop's blinds, fee and output
   * exactly and leaves the onion of the remaining hops: the keystream offsets line up.
   */
  lemma PeelLayer(privs: seq<PrivKey>, ephemeral: seq<PrivKey>, pubKeys: seq<seq<byte>>, hops: seq<Hop>, k: nat)
    requires |ephemeral| > |hops| == |pubKeys| == |privs| > k
    requires pubKeys[k] == x25519.publicKey(privs[k])
    requires FitsWord(hops) && ValidHop(hops[k])
    requires CipherKeys(ephemeral, pubKeys).Some?
    ensures var keys := CipherKeys(ephemeral, pubKeys).value;
            Peeling(privs[k], Inner(ephemeral, keys, hops, k)) ==
              Ok(Peeled(hops[k], Inner(ephemeral, keys, hops, k + 1)))
  {
    var keys := CipherKeys(ephemeral, pubKeys).value;
    CipherKeysTail(ephemeral, pubKeys, k);
    assert forall h :: h in hops[k..] ==> h in hops;
    PeelOutermost(privs[k..], ephemeral[k..], pubKeys[k..], hops[k..]);
    assert ephemeral[k..][1..] == ephemeral[k + 1..];
    assert keys[k..][1..] == keys[k + 1..];
    assert hops[k..][1..] == hops[k + 1..];
  }

  /** Peel an onion with a list of keys, collecting the hops. */
  function PeelAll(privs: seq<PrivKey>, onion: Onion): Result<(seq<Hop>, Onion), OnionError> {
    if privs == [] then Ok(([], onion))
    else
      match Peeling(privs[0], onion)
      case Err(e) => Err(e)
      case Ok(p) =>
        match PeelAll(privs[1..], p.onion)
        case Err(e) => Err(e)
        case Ok((hops, rest)) => Ok(([p.hop] + hops, rest))
  }

  lemma {:induction false} PeelAllFrom(
    privs: seq<PrivKey>, ephemeral: seq<PrivKey>, pubKeys: seq<seq<byte>>, hops: seq<Hop>, k: nat)
    requires |ephemeral| > |hops| == |pubKeys| == |privs| >= k
    requires forall i :: 0 <= i < |privs| ==> pubKeys[i] == x25519.publicKey(privs[i]) && ValidHop(hops[i])
    requires FitsWord(hops) && CipherKeys(ephemeral, pubKeys).Some?
    ensures PeelAll(privs[k..], Inner(ephemeral, CipherKeys(ephemeral, pubKeys).value, hops, k)) ==
      Ok((hops[k..], Bare))
    decreases |hops| - k
  {
    if k < |hops| {
      PeelLayer(privs, ephemeral, pubKeys, hops, k);
      PeelAllFrom(privs, ephemeral, pubKeys, hops, k + 1);
      assert privs[k..][1..] == privs[k + 1..];
      assert hops[k..] == [hops[k]] + hops[k + 1..];
    }
  }

  /** No key peels an onion without payloads. */
  lemma BareDoesNotPeel(priv: PrivKey, onion: Onion)
    requires onion.payloads == Encode([])
    ensures Peeling(priv, onion).Err?
  {
    U64Width();
    BigEndianNumber(0, 8);
    EncodeBack([]);
  }

  /**
   * The n-layer round trip: peeling `New(hops)` with the matching keys in order returns the hops,
   * whatever input and owner's proof were attached, and one more peel fails.
   */
  lemma OnionRoundTrip(
    onion: Onion, privs: seq<PrivKey>, ephemeral: seq<PrivKey>, pubKeys: seq<seq<byte>>, hops: seq<Hop>,
    extra: PrivKey)
    requires |ephemeral| > |hops| == |pubKeys| == |privs| > 0
    requires forall i :: 0 <= i < |privs| ==> pubKeys[i] == x25519.publicKey(privs[i]) && ValidHop(hops[i])
    requires FitsWord(hops) && CipherKeys(ephemeral, pubKeys).Some?
    requires var w := Wrapped(ephemeral, CipherKeys(ephemeral, pubKeys).value, hops);
             onion.payloads == w.payloads && onion.pubKey == w.pubKey
    ensures PeelAll(privs, onion) == Ok((hops, Bare))
    ensures PeelAll(privs + [extra], onion).Err?
  {
    var keys := CipherKeys(ephemeral, pubKeys).value;
    PeelAllFrom(privs, ephemeral, pubKeys, hops, 0);
    assert ephemeral[0..] == ephemeral && keys[0..] == keys && hops[0..] == hops && privs[0..] == privs;
    PeelingIgnoresInput(privs[0], onion, Wrapped(ephemeral, keys, hops));
    BareDoesNotPeel(extra, Bare);
    PeelAllAppend(privs, extra, onion);
  }

  lemma {:induction false} PeelAllAppend(privs: seq<PrivKey>, extra: PrivKey, onion: Onion)
    requires PeelAll(privs, onion).Ok? && Peeling(extra, PeelAll(privs, onion).value.1).Err?
    ensures PeelAll(privs + [extra], onion).Err?
  {
    if privs != [] {
      PeelAllAppend(privs[1..], extra, Peeling(privs[0], onion).value.onion);
      assert (privs + [extra])[1..] == privs[1..] + [extra];
    }
  }
}
