/**
 * What an onion looks like byte by byte: where every field lies, and by which keystream bytes each of
 * them is covered.
 */
module OnionBytes {
  import opened Wrappers
  import opened Bytes
  import opened Curve
  import opened Mweb
  import opened OnionCodec
  import opened OnionMachine

  /* Numbers and bits */

  /** What is left of a number without its last bytes, or bits. */
  function DropBytes(n: nat, places: nat): nat {
    if places == 0 then n else DropBytes(n / 256, places - 1)
  }

  function DropBits(n: nat, places: nat): nat {
    if places == 0 then n else DropBits(n / 2, places - 1)
  }

  /** Byte i of `width` bytes is the digit with `width - 1 - i` digits after it. */
  lemma {:induction false} BigEndianDigit(n: nat, width: nat, i: nat)
    requires i < width
    ensures BigEndian(n, width)[i] == DropBytes(n, width - 1 - i) % 256
  {
    if i < width - 1 {
      BigEndianDigit(n / 256, width - 1, i);
    }
  }

  /** Bit k of an exclusive or is set exactly where the bits differ. */
  lemma {:induction false} XorBitsAt(a: nat, b: nat, bits: nat, k: nat)
    requires k < bits
    ensures DropBits(XorBits(a, b, bits), k) % 2 == 1 <==> DropBits(a, k) % 2 != DropBits(b, k) % 2
  {
    if k > 0 {
      XorBitsAt(a / 2, b / 2, bits - 1, k - 1);
      assert XorBits(a, b, bits) / 2 == XorBits(a / 2, b / 2, bits - 1);
    }
  }

  lemma XorAt(a: byte, b: byte, k: nat)
    requires k < 8
    ensures DropBits(Xor(a, b), k) % 2 == 1 <==> DropBits(a, k) % 2 != DropBits(b, k) % 2
  {
    XorBitsAt(a, b, 8, k);
  }

  /* Fields */

  /** Where the fields of a payload lie. */
  lemma PayloadFields(next: seq<byte>, hop: Hop)
    requires |next| == 32
    ensures var p := Payload(next, hop);
            && |p| >= 106
            && p[0] == 0
            && p[1..33] == next
            && p[33..65] == BigEndian(hop.kernelBlind, 32)
            && p[65..97] == BigEndian(hop.stealthBlind, 32)
            && p[97..105] == BigEndian(hop.fee, 8)
            && p[105] == (if hop.output.Some? then 1 else 0)
            && p[106..] == if hop.output.Some? then SerializeOutput(hop.output.value) else []
  {
    hide BigEndian;
  }

  /** Where the k-th of some buffers begins when each is written after its length. */
  function Offset(buffers: seq<seq<byte>>, k: nat): nat
    requires k < |buffers|
  {
    8 * (k + 1) + Total(buffers[..k])
  }

  lemma {:induction false} EntryAt(buffers: seq<seq<byte>>, k: nat)
    requires k < |buffers|
    ensures var off := Offset(buffers, k);
            && 8 <= off && off + |buffers[k]| <= |Entries(buffers)|
            && Entries(buffers)[off - 8..off] == BigEndian(|buffers[k]|, 8)
            && Entries(buffers)[off..off + |buffers[k]|] == buffers[k]
    decreases |buffers|
  {
    hide BigEndian;
    if k > 0 {
      var rest := buffers[1..];
      EntryAt(rest, k - 1);
      assert buffers[..k][1..] == rest[..k - 1];
      var skip := 8 + |buffers[0]|;
      assert Offset(buffers, k) == skip + Offset(rest, k - 1);
      Shifted(BigEndian(|buffers[0]|, 8) + buffers[0], Entries(rest), Offset(rest, k - 1) - 8, Offset(rest, k - 1));
      Shifted(BigEndian(|buffers[0]|, 8) + buffers[0], Entries(rest), Offset(rest, k - 1),
              Offset(rest, k - 1) + |buffers[k]|);
    }
  }

  lemma Shifted(a: seq<byte>, b: seq<byte>, i: nat, j: nat)
    requires i <= j <= |b|
    ensures (a + b)[|a| + i..|a| + j] == b[i..j]
  {
  }

  /* What covers a byte */

  /** Byte b of buffer j under the ciphers i, ..., j: each is as far as the buffers i, ..., j - 1 took it. */
  function Covered(keys: seq<Secret>, plain: seq<seq<byte>>, i: nat, j: nat, b: nat): byte
    requires |keys| == |plain| > j && b < |plain[j]| && i <= j + 1
    decreases j + 1 - i
  {
    if i > j then plain[j][b]
    else Xor(Covered(keys, plain, i + 1, j, b), Keystream(keys[i], Total(plain[i..j]) + b))
  }

  lemma {:induction false} CoveredTail(keys: seq<Secret>, plain: seq<seq<byte>>, i: nat, j: nat, b: nat)
    requires |keys| == |plain| > j > 0 && 1 <= i <= j + 1 && b < |plain[j]|
    ensures Covered(keys[1..], plain[1..], i - 1, j - 1, b) == Covered(keys, plain, i, j, b)
    decreases j + 1 - i
  {
    if i <= j {
      CoveredTail(keys, plain, i + 1, j, b);
      assert plain[1..][i - 1..j - 1] == plain[i..j];
    }
  }

  /** Byte b of buffer j is the plain byte under the keystreams of all ciphers up to the j-th. */
  lemma {:induction false} LayerAt(keys: seq<Secret>, plain: seq<seq<byte>>, j: nat, b: nat)
    requires |keys| == |plain| > j && b < |plain[j]|
    ensures |Layers(keys, plain)[j]| == |plain[j]|
    ensures Layers(keys, plain)[j][b] == Covered(keys, plain, 0, j, b)
    decreases |plain|, 1
  {
    var inside := [plain[0]] + Layers(keys[1..], plain[1..]);
    LayersSizes(keys, plain, j);
    StreamAllAt(keys[0], 0, inside, j);
    TotalInside(keys, plain, j);
    assert Layers(keys, plain)[j] == Stream(keys[0], Total(plain[..j]), inside[j]);
    InsideAt(keys, plain, j, b);
    assert plain[0..j] == plain[..j];
  }

  /** What the outermost cipher finds there. */
  lemma {:induction false} InsideAt(keys: seq<Secret>, plain: seq<seq<byte>>, j: nat, b: nat)
    requires |keys| == |plain| > j && b < |plain[j]|
    ensures var inside := [plain[0]] + Layers(keys[1..], plain[1..]);
            |inside[j]| == |plain[j]| && inside[j][b] == Covered(keys, plain, 1, j, b)
    decreases |plain|, 0
  {
    hide Layers;
    if j > 0 {
      LayerAt(keys[1..], plain[1..], j - 1, b);
      CoveredTail(keys, plain, 1, j, b);
    }
  }

  /** Encrypting changes no sizes. */
  lemma {:induction false} TotalInside(keys: seq<Secret>, plain: seq<seq<byte>>, j: nat)
    requires |keys| == |plain| > j
    ensures Total(([plain[0]] + Layers(keys[1..], plain[1..]))[..j]) == Total(plain[..j])
  {
    var inside := [plain[0]] + Layers(keys[1..], plain[1..]);
    forall k | 0 <= k < j ensures |inside[k]| == |plain[k]| {
      if k > 0 {
        LayersSizes(keys[1..], plain[1..], k - 1);
      }
    }
    SameTotal(inside[..j], plain[..j]);
  }

  lemma {:induction false} SameTotal(a: seq<seq<byte>>, b: seq<seq<byte>>)
    requires |a| == |b| && forall k :: 0 <= k < |a| ==> |a[k]| == |b[k]|
    ensures Total(a) == Total(b)
  {
    if a != [] {
      SameTotal(a[1..], b[1..]);
    }
  }

  /**
   * Every byte of an onion as `New` makes it: the count of hops, then for each hop the length of its
   * payload and the payload, each byte of which is covered by its own cipher and all outer ones, whose
   * keystreams go on from buffer to buffer.
   */
  lemma {:induction false} OnionBytesAt(ephemeral: seq<PrivKey>, keys: seq<Secret>, hops: seq<Hop>, j: nat, b: nat)
    requires |ephemeral| > |hops| == |keys| > j
    requires b < |Payload(NextKey(ephemeral, hops, j), hops[j])|
    ensures var onion := Wrapped(ephemeral, keys, hops);
            var plain := Payloads(ephemeral, hops);
            var at := 8 + Offset(plain, j);
            && onion.pubKey == x25519.publicKey(ephemeral[0])
            && plain[j] == Payload(NextKey(ephemeral, hops, j), hops[j])
            && |onion.payloads| > at + b
            && onion.payloads[..8] == BigEndian(|hops|, 8)
            && onion.payloads[at - 8..at] == BigEndian(|plain[j]|, 8)
            && onion.payloads[at + b] == Covered(keys, plain, 0, j, b)
  {
    hide BigEndian, Payload, Covered, Encode, Entries, Layers, Payloads, Total;
    var plain := Payloads(ephemeral, hops);
    var layers := Layers(keys, plain);
    PayloadsAt(ephemeral, hops, j);
    LayerAt(keys, plain, j, b);
    WrittenAt(layers, j, b);
    forall k | 0 <= k < j ensures |layers[k]| == |plain[k]| {
      LayersSizes(keys, plain, k);
    }
    SameTotal(layers[..j], plain[..j]);
  }

  /** Where byte b of buffer j is written. */
  lemma WrittenAt(buffers: seq<seq<byte>>, j: nat, b: nat)
    requires j < |buffers| && b < |buffers[j]|
    ensures var data := Encode(buffers);
            var at := 8 + Offset(buffers, j);
            && at + b < |data|
            && data[..8] == BigEndian(|buffers|, 8)
            && data[at - 8..at] == BigEndian(|buffers[j]|, 8)
            && data[at + b] == buffers[j][b]
  {
    hide BigEndian, Entries, Total;
    EntryAt(buffers, j);
    var off := Offset(buffers, j);
    var count, entries := BigEndian(|buffers|, 8), Entries(buffers);
    Shifted(count, entries, off - 8, off);
    assert entries[off + b] == entries[off..off + |buffers[j]|][b];
  }

  /* What is refused */

  /** What comes off an onion: a key that is accepted, scalars below the group order. */
  lemma PeelsOnlySound(priv: PrivKey, onion: Onion)
    requires Peeling(priv, onion).Ok?
    ensures |onion.pubKey| == 32 && x25519.cipherKey(priv, onion.pubKey).Some?
    ensures var peeled := Peeling(priv, onion).value;
            peeled.hop.kernelBlind < N && peeled.hop.stealthBlind < N && |peeled.onion.pubKey| == 32
  {
    hide Number, StreamAll, ReadEntries;
  }

  /** A payload is refused, whatever else it says, for a wrong version or a scalar that is too large. */
  lemma RefusesPayload(next: seq<byte>, hop: Hop, version: byte)
    requires |next| == 32
    ensures version != 0 ==> ReadHop([version] + Payload(next, hop)[1..]) == Err(WrongVersion)
    ensures hop.kernelBlind >= N ==> ReadHop(Payload(next, hop)) == Err(KernelBlindOverflow)
    ensures hop.kernelBlind < N <= hop.stealthBlind ==> ReadHop(Payload(next, hop)) == Err(StealthBlindOverflow)
  {
    hide BigEndian, Number;
    var kernel, stealth := BigEndian(hop.kernelBlind, 32), BigEndian(hop.stealthBlind, 32);
    var fee, flag := BigEndian(hop.fee, 8), OutputFlag(hop.output);
    BigEndianNumber(hop.kernelBlind, 32);
    BigEndianNumber(hop.stealthBlind, 32);
    var p := Payload(next, hop);
    assert p[1..] == next + (kernel + (stealth + (fee + flag)));
    ReadPrefix(next, kernel + (stealth + (fee + flag)));
    ReadPrefix(kernel, stealth + (fee + flag));
    ReadPrefix(stealth, fee + flag);
    assert (fee + flag)[..8] == fee && (fee + flag)[8..] == flag;
  }

  /** Any flag but 1 says that there is no output; what follows is not read. */
  lemma OtherFlags(next: seq<byte>, hop: Hop, flag: byte, rest: seq<byte>)
    requires |next| == 32 && ValidHop(hop) && flag != 1
    ensures ReadHop(Payload(next, hop)[..105] + [flag] + rest) == Ok((next, hop.(output := None)))
  {
    hide BigEndian, Number;
    var kernel, stealth := BigEndian(hop.kernelBlind, 32), BigEndian(hop.stealthBlind, 32);
    var fee, tail := BigEndian(hop.fee, 8), [flag] + rest;
    U64Width();
    BigEndianNumber(hop.kernelBlind, 32);
    BigEndianNumber(hop.stealthBlind, 32);
    BigEndianNumber(hop.fee, 8);
    var p := Payload(next, hop)[..105] + [flag] + rest;
    assert p[1..] == next + (kernel + (stealth + (fee + tail)));
    ReadPrefix(next, kernel + (stealth + (fee + tail)));
    ReadPrefix(kernel, stealth + (fee + tail));
    ReadPrefix(stealth, fee + tail);
    assert (fee + tail)[..8] == fee && (fee + tail)[8..] == tail;
  }

  /** A last buffer that is cut short is filled up with zero bytes; one of which nothing is left is an error. */
  lemma CutShort(data: seq<byte>, size: nat)
    requires |data| < size < U64
    ensures ReadEntries(BigEndian(size, 8) + data, 1)
         == if data == [] then Err(EndOfData) else Ok([data + Zeros(size - |data|)])
  {
    hide BigEndian, Number;
    U64Width();
    BigEndianNumber(size, 8);
    var r := BigEndian(size, 8) + data;
    assert r[..8] == BigEndian(size, 8) && r[8..] == data;
    assert ReadFull(r, 8) == Ok((BigEndian(size, 8), data));
    if data != [] {
      assert Read(data, size) == Ok((data + Zeros(size - |data|), []));
      assert ReadEntries([], 0) == Ok([]);
      assert [data + Zeros(size - |data|)] + [] == [data + Zeros(size - |data|)];
    }
  }
}
