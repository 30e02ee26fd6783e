/** `onion.New` and `Onion.Peel` as they run: stateful ciphers over buffers changed in place. */
module OnionMachine {
  import opened Wrappers
  import opened Bytes
  import opened OnionCodec

  /** A ChaCha20 cipher: a key and the number of keystream bytes used so far. */
  class Cipher {
    const key: Secret
    var pos: nat

    constructor (key: Secret)
      ensures this.key == key && pos == 0
    {
      this.key := key;
      pos := 0;
    }

    method XORKeyStream(buf: array<byte>)
      modifies this, buf
      ensures forall i :: 0 <= i < buf.Length ==> buf[i] == Xor(old(buf[i]), Keystream(key, old(pos) + i))
      ensures buf[..] == Stream(key, old(pos), old(buf[..]))
      ensures pos == old(pos) + buf.Length
    {
      var start := pos;
      for i := 0 to buf.Length
        invariant forall k :: 0 <= k < i ==> buf[k] == Xor(old(buf[k]), Keystream(key, start + k))
        invariant forall k :: i <= k < buf.Length ==> buf[k] == old(buf[k])
        invariant pos == start
      {
        buf[i] := Xor(buf[i], Keystream(key, start + i));
      }
      pos := start + buf.Length;
    }
  }

  /** The key that hop k's payload names for the layer inside it. */
  function NextKey(ephemeral: seq<PrivKey>, hops: seq<Hop>, k: nat): seq<byte>
    requires |ephemeral| > |hops| > k
  {
    if k < |hops| - 1 then x25519.publicKey(ephemeral[k + 1]) else Zeros(32)
  }

  lemma {:induction false} PayloadsAt(ephemeral: seq<PrivKey>, hops: seq<Hop>, k: nat)
    requires |ephemeral| > |hops| > k
    ensures Payloads(ephemeral, hops)[k] == Payload(NextKey(ephemeral, hops, k), hops[k])
  {
    if k > 0 {
      PayloadsAt(ephemeral[1..], hops[1..], k - 1);
    }
  }

  /** `CipherKeys` succeeds with `keys` exactly when every hop's cipher does. */
  lemma {:induction false} CipherKeysAt(ephemeral: seq<PrivKey>, pubKeys: seq<seq<byte>>, keys: seq<Secret>)
    requires |ephemeral| >= |pubKeys| == |keys|
    requires forall k :: 0 <= k < |keys| ==> x25519.cipherKey(ephemeral[k], pubKeys[k]) == Some(keys[k])
    ensures CipherKeys(ephemeral, pubKeys) == Some(keys)
  {
    if keys != [] {
      CipherKeysAt(ephemeral[1..], pubKeys[1..], keys[1..]);
      assert [keys[0]] + keys[1..] == keys;
    }
  }

  lemma {:induction false} CipherKeysRefused(ephemeral: seq<PrivKey>, pubKeys: seq<seq<byte>>, k: nat)
    requires |ephemeral| >= |pubKeys| > k && x25519.cipherKey(ephemeral[k], pubKeys[k]) == None
    ensures CipherKeys(ephemeral, pubKeys) == None
  {
    if k > 0 {
      CipherKeysRefused(ephemeral[1..], pubKeys[1..], k - 1);
    }
  }

  lemma {:induction false} EntriesSnoc(buffers: seq<seq<byte>>, last: seq<byte>)
    ensures Entries(buffers + [last]) == Entries(buffers) + BigEndian(|last|, 8) + last
  {
    if buffers != [] {
      EntriesSnoc(buffers[1..], last);
      assert (buffers + [last])[1..] == buffers[1..] + [last];
    }
  }

  ghost predicate Distinct<T>(s: seq<T>) {
    forall i, j :: 0 <= i < j < |s| ==> s[i] != s[j]
  }

  /** Build an onion for `hops` with the ephemeral keys drawn for it. */
  method New(pubKeys: seq<seq<byte>>, hops: seq<Hop>, ephemeral: seq<PrivKey>) returns (r: Result<Onion, OnionError>)
    requires |ephemeral| > |hops| == |pubKeys|
    ensures r == match CipherKeys(ephemeral, pubKeys)
                 case None => Err(KeyRefused)
                 case Some(keys) => Ok(Wrapped(ephemeral, keys, hops))
  {
    ghost var keys;
    var ciphers, plain;
    ciphers, plain, keys := Prepare(pubKeys, hops, ephemeral);
    if |ciphers| < |hops| {
      return Err(KeyRefused);
    }
    var payloads := Buffers(plain);
    Encrypt(ciphers, payloads, keys, plain);
    var data := Write(payloads, Layers(keys, plain));
    r := Ok(Onion(EmptyInput, data, x25519.publicKey(ephemeral[0]), []));
  }

  /** The first loop: a cipher and a plain payload per hop, stopping at the first refused key. */
  method Prepare(pubKeys: seq<seq<byte>>, hops: seq<Hop>, ephemeral: seq<PrivKey>)
    returns (ciphers: seq<Cipher>, plain: seq<seq<byte>>, ghost keys: seq<Secret>)
    requires |ephemeral| > |hops| == |pubKeys|
    ensures |ciphers| == |keys| <= |hops|
    ensures |ciphers| < |hops| <==> CipherKeys(ephemeral, pubKeys) == None
    ensures |ciphers| == |hops| ==> plain == Payloads(ephemeral, hops) && CipherKeys(ephemeral, pubKeys) == Some(keys)
    ensures Distinct(ciphers)
    ensures forall k :: 0 <= k < |ciphers| ==> fresh(ciphers[k]) && ciphers[k].key == keys[k] && ciphers[k].pos == 0
  {
    hide Payload, Payloads, CipherKeys, NextKey;
    ciphers, plain, keys := [], [], [];
    for i := 0 to |hops|
      invariant |ciphers| == |keys| == |plain| == i
      invariant forall k :: 0 <= k < i ==> x25519.cipherKey(ephemeral[k], pubKeys[k]) == Some(keys[k])
      invariant forall k :: 0 <= k < i ==> plain[k] == Payload(NextKey(ephemeral, hops, k), hops[k])
      invariant forall k :: 0 <= k < i ==> fresh(ciphers[k]) && ciphers[k].key == keys[k] && ciphers[k].pos == 0
      invariant Distinct(ciphers)
    {
      var key := x25519.cipherKey(ephemeral[i], pubKeys[i]);
      if key.None? {
        CipherKeysRefused(ephemeral, pubKeys, i);
        return;
      }
      var cipher := new Cipher(key.value);
      ciphers := ciphers + [cipher];
      keys := keys + [key.value];
      plain := plain + [Payload(NextKey(ephemeral, hops, i), hops[i])];
    }
    CipherKeysAt(ephemeral, pubKeys, keys);
    forall k | 0 <= k < |plain| ensures plain[k] == Payloads(ephemeral, hops)[k] {
      PayloadsAt(ephemeral, hops, k);
    }
  }

  /** The last loop: the count, then every buffer after its length. */
  method Write(payloads: seq<array<byte>>, ghost layers: seq<seq<byte>>) returns (data: seq<byte>)
    requires |payloads| == |layers| && forall k :: 0 <= k < |layers| ==> payloads[k][..] == layers[k]
    ensures data == Encode(layers)
  {
    data := BigEndian(|payloads|, 8);
    for i := 0 to |payloads|
      invariant data == BigEndian(|payloads|, 8) + Entries(layers[..i])
    {
      data := data + BigEndian(payloads[i].Length, 8) + payloads[i][..];
      EntriesSnoc(layers[..i], layers[i]);
      assert layers[..i + 1] == layers[..i] + [layers[i]];
    }
    assert layers[..|payloads|] == layers;
  }

  /** One fresh buffer per payload. */
  method Buffers(plain: seq<seq<byte>>) returns (payloads: seq<array<byte>>)
    ensures |payloads| == |plain| && Distinct(payloads)
    ensures forall k :: 0 <= k < |plain| ==> fresh(payloads[k]) && payloads[k][..] == plain[k]
  {
    payloads := [];
    for i := 0 to |plain|
      invariant |payloads| == i
      invariant forall k :: 0 <= k < i ==> fresh(payloads[k]) && payloads[k][..] == plain[k]
      invariant forall j, k :: 0 <= j < k < i ==> payloads[j] != payloads[k]
    {
      var buf := new byte[|plain[i]|](k requires 0 <= k < |plain[i]| => plain[i][k]);
      assert buf[..] == plain[i];
      payloads := payloads + [buf];
    }
  }

  /** The nested loops: cipher i runs over the buffers i, i+1, ..., innermost layer first. */
  method Encrypt(
    ciphers: seq<Cipher>, payloads: seq<array<byte>>, ghost keys: seq<Secret>, ghost plain: seq<seq<byte>>)
    requires |ciphers| == |payloads| == |keys| == |plain|
    requires Distinct(ciphers) && Distinct(payloads)
    requires forall k :: 0 <= k < |keys| ==> ciphers[k].key == keys[k] && ciphers[k].pos == 0
    requires forall k :: 0 <= k < |plain| ==> payloads[k][..] == plain[k]
    modifies ciphers, payloads
    ensures forall k :: 0 <= k < |plain| ==> payloads[k][..] == Layers(keys, plain)[k]
  {
    var n := |payloads|;
    var i := n;
    while i > 0
      invariant 0 <= i <= n
      invariant forall k :: 0 <= k < i ==> ciphers[k].pos == 0 && payloads[k][..] == plain[k]
      invariant forall k :: i <= k < n ==> payloads[k][..] == Layers(keys[i..], plain[i..])[k - i]
    {
      i := i - 1;
      ghost var inside := [plain[i]] + Layers(keys[i + 1..], plain[i + 1..]);
      assert keys[i..][1..] == keys[i + 1..] && plain[i..][1..] == plain[i + 1..];
      assert Layers(keys[i..], plain[i..]) == StreamAll(keys[i], 0, inside);
      Run(ciphers[i], payloads[i..], inside);
    }
    assert keys[0..] == keys && plain[0..] == plain;
  }

  /** The inner loop: one cipher over a list of buffers. */
  method Run(cipher: Cipher, buffers: seq<array<byte>>, ghost inside: seq<seq<byte>>)
    requires |buffers| == |inside| && Distinct(buffers) && cipher.pos == 0
    requires forall k :: 0 <= k < |inside| ==> buffers[k][..] == inside[k]
    modifies cipher, buffers
    ensures forall k :: 0 <= k < |inside| ==> buffers[k][..] == StreamAll(cipher.key, 0, inside)[k]
  {
    for j := 0 to |buffers|
      invariant cipher.pos == Total(inside[..j])
      invariant forall k :: 0 <= k < j ==> buffers[k][..] == StreamAll(cipher.key, 0, inside)[k]
      invariant forall k :: j <= k < |inside| ==> buffers[k][..] == inside[k]
    {
      StreamAllAt(cipher.key, 0, inside, j);
      TotalSnoc(inside[..j], inside[j]);
      assert inside[..j + 1] == inside[..j] + [inside[j]];
      cipher.XORKeyStream(buffers[j]);
    }
  }

  function Prepend(done: seq<seq<byte>>, rest: Result<seq<seq<byte>>, OnionError>)
    : Result<seq<seq<byte>>, OnionError>
  {
    match rest
    case Err(e) => Err(e)
    case Ok(more) => Ok(done + more)
  }

  lemma PrependSnoc(done: seq<seq<byte>>, raw: seq<byte>, rest: Result<seq<seq<byte>>, OnionError>)
    ensures Prepend(done, Prepend([raw], rest)) == Prepend(done + [raw], rest)
  {
    if rest.Ok? {
      assert done + ([raw] + rest.value) == done + [raw] + rest.value;
    }
  }

  /** The first buffer, and the others written out after their lengths. */
  function Split(plain: seq<seq<byte>>): (seq<byte>, seq<byte>) {
    if plain == [] then ([], []) else (plain[0], Entries(plain[1..]))
  }

  lemma SplitSnoc(plain: seq<seq<byte>>, last: seq<byte>)
    ensures plain == [] ==> Split(plain + [last]) == (last, [])
    ensures plain != [] ==> Split(plain + [last]) == (plain[0], Split(plain).1 + (BigEndian(|last|, 8) + last))
  {
    if plain != [] {
      EntriesSnoc(plain[1..], last);
      assert (plain + [last])[1..] == plain[1..] + [last];
      ConcatAssoc(Entries(plain[1..]), BigEndian(|last|, 8), last);
    } else {
      assert (plain + [last])[1..] == [];
    }
  }

  lemma ConcatAssoc(a: seq<byte>, b: seq<byte>, c: seq<byte>)
    ensures a + b + c == a + (b + c)
  {
  }

  lemma SplitEncode(plain: seq<seq<byte>>)
    requires 0 < |plain| < U64
    ensures BigEndian((|plain| + U64 - 1) % U64, 8) + Split(plain).1 == Encode(plain[1..])
  {
    hide BigEndian, Entries;
    CountDown(|plain|);
    assert |plain[1..]| == |plain| - 1;
  }

  lemma CountDown(count: nat)
    requires 0 < count < U64
    ensures (count + U64 - 1) % U64 == count - 1
  {
  }

  /** The loop of `Peel`: read `count` buffers, decrypt each, keep the first, write out the others. */
  method Unwrap(cipher: Cipher, start: seq<byte>, count: nat) returns (r: Result<(seq<byte>, seq<byte>), OnionError>)
    requires cipher.pos == 0
    modifies cipher
    ensures r == match ReadEntries(start, count)
                 case Err(e) => Err(e)
                 case Ok(entries) => Ok(Split(StreamAll(cipher.key, 0, entries)))
  {
    var payload, payloads: seq<byte> := [], [];
    var cursor := start;
    ghost var done: seq<seq<byte>> := [];
    var i := 0;
    assert forall more: seq<seq<byte>> :: [] + more == more;
    while i < count
      invariant 0 <= i <= count && |done| == i
      invariant ReadEntries(start, count) == Prepend(done, ReadEntries(cursor, count - i))
      invariant cipher.pos == Total(done)
      invariant (payload, payloads) == Split(StreamAll(cipher.key, 0, done))
    {
      var size := ReadFull(cursor, 8);
      if size.Err? {
        return Err(size.error);
      }
      var read := Read(size.value.1, Number(size.value.0));
      if read.Err? {
        return Err(read.error);
      }
      CountBack(size.value.0);
      var raw := read.value.0;
      var buf := new byte[|raw|](k requires 0 <= k < |raw| => raw[k]);
      assert buf[..] == raw;
      PrependSnoc(done, raw, ReadEntries(read.value.1, count - i - 1));
      assert ReadEntries(cursor, count - i) == Prepend([raw], ReadEntries(read.value.1, count - i - 1));
      StreamAllSnoc(cipher.key, 0, done, raw);
      TotalSnoc(done, raw);
      SplitSnoc(StreamAll(cipher.key, 0, done), Stream(cipher.key, Total(done), raw));
      cipher.XORKeyStream(buf);
      if i == 0 {
        payload := buf[..];
      } else {
        payloads := payloads + (BigEndian(Number(size.value.0), 8) + buf[..]);
      }
      done, cursor, i := done + [raw], read.value.1, i + 1;
    }
    assert done + [] == done;
    r := Ok((payload, payloads));
  }

  /** Take one layer off: a cursor over the payloads, one cipher over all of them. */
  method Peel(privKey: PrivKey, onion: Onion) returns (r: Result<Peeled, OnionError>)
    ensures r == Peeling(privKey, onion)
  {
    if |onion.pubKey| != 32 {
      return Err(BadPublicKey);
    }
    var secret := x25519.cipherKey(privKey, onion.pubKey);
    if secret.None? {
      return Err(KeyRefused);
    }
    var cipher := new Cipher(secret.value);
    var first := ReadFull(onion.payloads, 8);
    if first.Err? {
      return Err(first.error);
    }
    var count := Number(first.value.0);
    CountBack(first.value.0);
    var buffers := Unwrap(cipher, first.value.1, count);
    if buffers.Err? {
      return Err(buffers.error);
    }
    var hop := ReadHop(buffers.value.0);
    if hop.Err? {
      return Err(hop.error);
    }
    // With no payload at all the count below would wrap, but then there was no hop to read.
    var payloads := BigEndian((count + U64 - 1) % U64, 8) + buffers.value.1;
    ghost var plain := StreamAll(secret.value, 0, ReadEntries(first.value.1, count).value);
    SplitEncode(plain);
    r := Ok(Peeled(hop.value.1, Onion(EmptyInput, payloads, hop.value.0, [])));
  }

  lemma CountBack(s: seq<byte>)
    requires |s| == 8
    ensures Number(s) < U64
  {
    NumberBound(s, 8);
    U64Width();
  }
}
