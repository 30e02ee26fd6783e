/** Grievance evidence: the fixed-width packings, the event on chain, and what an event pins down. */
module Evidence {
  import opened Wrappers
  import opened Bytes

  /** The hash function; nothing is known about it but the length of its results. */
  const Keccak: seq<byte> -> Hash32

  datatype Preimage = Preimage(
    epoch: Option<int>, accuser: Address, accused: Address, hopIndex: byte, peeled: Hash32, forward: Hash32)

  /** A missing epoch counts as zero. */
  function Epoch(p: Preimage): int { if p.epoch.Some? then p.epoch.value else 0 }

  function Abs(x: int): nat { if x < 0 then 0 - x else x }

  /** `big.Int.Bytes`: the magnitude without leading zero bytes. */
  function Magnitude(n: nat): seq<byte> {
    if n == 0 then [] else Magnitude(n / 256) + [n % 256]
  }

  /** `common.LeftPadBytes(epoch.Bytes(), 32)`: longer magnitudes are not cut. */
  function EpochBytes(epoch: int): seq<byte> {
    var m := Magnitude(Abs(epoch));
    if |m| >= 32 then m else Zeros(32 - |m|) + m
  }

  function PackEvidence(p: Preimage): seq<byte> {
    EpochBytes(Epoch(p)) + (p.accuser + p.accused + [p.hopIndex] + p.peeled + p.forward)
  }

  function EvidenceHash(p: Preimage): Hash32 { Keccak(PackEvidence(p)) }

  function PackGrievance(accuser: Address, accused: Address, epoch: int, evidence: Hash32): seq<byte> {
    accuser + accused + (EpochBytes(epoch) + evidence)
  }

  function GrievanceId(accuser: Address, accused: Address, epoch: int, evidence: Hash32): Hash32 {
    Keccak(PackGrievance(accuser, accused, epoch, evidence))
  }

  lemma {:induction false} MagnitudeNumber(n: nat)
    ensures Number(Magnitude(n)) == n
  {
    if n > 0 {
      MagnitudeNumber(n / 256);
      var s := Magnitude(n);
      assert s[..|s| - 1] == Magnitude(n / 256);
    }
  }

  lemma {:induction false} ZerosNumber(k: nat, s: seq<byte>)
    ensures Number(Zeros(k) + s) == Number(s)
  {
    if s != [] {
      ZerosNumber(k, s[..|s| - 1]);
      var t := Zeros(k) + s;
      assert t[..|t| - 1] == Zeros(k) + s[..|s| - 1];
    } else if k > 0 {
      ZerosNumber(k - 1, []);
      var t := Zeros(k) + s;
      assert t[..|t| - 1] == Zeros(k - 1) + [];
    } else {
      assert Zeros(k) + s == [];
    }
  }

  lemma EpochNumber(epoch: int)
    ensures Number(EpochBytes(epoch)) == Abs(epoch)
  {
    MagnitudeNumber(Abs(epoch));
    var m := Magnitude(Abs(epoch));
    if |m| < 32 {
      ZerosNumber(32 - |m|, m);
    }
  }

  lemma {:induction false} MagnitudeSize(n: nat, width: nat)
    requires n < Pow256(width)
    ensures |Magnitude(n)| <= width
  {
    if n > 0 {
      MagnitudeSize(n / 256, width - 1);
    }
  }

  /** The epoch takes 32 bytes exactly when it fits 256 bits. */
  lemma EpochSize(epoch: int)
    ensures |EpochBytes(epoch)| >= 32
    ensures |EpochBytes(epoch)| == 32 <==> Abs(epoch) < Pow256(32)
  {
    EpochNumber(epoch);
    NumberBigEndian(EpochBytes(epoch));
    if Abs(epoch) < Pow256(32) {
      MagnitudeSize(Abs(epoch), 32);
    }
  }

  /** Below 2^256 the packing is the plain 32-byte number, as the event carries it. */
  lemma EpochPlain(epoch: nat)
    requires epoch < Pow256(32)
    ensures EpochBytes(epoch) == BigEndian(epoch, 32)
  {
    EpochSize(epoch);
    EpochNumber(epoch);
    NumberBigEndian(EpochBytes(epoch));
  }

  lemma SameEpochBytes(a: int, b: int)
    ensures EpochBytes(a) == EpochBytes(b) <==> Abs(a) == Abs(b)
  {
    EpochNumber(a);
    EpochNumber(b);
  }

  /** Two concatenations whose second parts have equal lengths. */
  lemma SplitBack(a: seq<byte>, b: seq<byte>, c: seq<byte>, d: seq<byte>)
    requires |b| == |d|
    ensures a + b == c + d <==> a == c && b == d
  {
    if a + b == c + d {
      assert |a| == |c|;
      assert (a + b)[..|a|] == a && (c + d)[..|c|] == c;
      assert (a + b)[|a|..] == b && (c + d)[|c|..] == d;
    }
  }

  /** Everything but the sign of the epoch; a missing epoch is zero. */
  predicate SameFields(p: Preimage, q: Preimage) {
    && Abs(Epoch(p)) == Abs(Epoch(q))
    && p.accuser == q.accuser && p.accused == q.accused && p.hopIndex == q.hopIndex
    && p.peeled == q.peeled && p.forward == q.forward
  }

  lemma TailBack(p: Preimage, q: Preimage)
    ensures p.accuser + p.accused + [p.hopIndex] + p.peeled + p.forward
         == q.accuser + q.accused + [q.hopIndex] + q.peeled + q.forward
       <==> p.accuser == q.accuser && p.accused == q.accused && p.hopIndex == q.hopIndex
            && p.peeled == q.peeled && p.forward == q.forward
  {
    SplitBack(p.accuser + p.accused + [p.hopIndex] + p.peeled, p.forward,
              q.accuser + q.accused + [q.hopIndex] + q.peeled, q.forward);
    SplitBack(p.accuser + p.accused + [p.hopIndex], p.peeled, q.accuser + q.accused + [q.hopIndex], q.peeled);
    SplitBack(p.accuser + p.accused, [p.hopIndex], q.accuser + q.accused, [q.hopIndex]);
    SplitBack(p.accuser, p.accused, q.accuser, q.accused);
  }

  /**
   * The evidence packing tells preimages apart, whatever the size of the epoch, except for its sign;
   * it has 137 bytes exactly when the epoch fits 256 bits.
   */
  lemma EvidencePacksApart(p: Preimage, q: Preimage)
    ensures PackEvidence(p) == PackEvidence(q) <==> SameFields(p, q)
    ensures |PackEvidence(p)| == 137 <==> Abs(Epoch(p)) < Pow256(32)
  {
    hide EpochBytes;
    SplitBack(EpochBytes(Epoch(p)), p.accuser + p.accused + [p.hopIndex] + p.peeled + p.forward,
              EpochBytes(Epoch(q)), q.accuser + q.accused + [q.hopIndex] + q.peeled + q.forward);
    TailBack(p, q);
    SameEpochBytes(Epoch(p), Epoch(q));
    EpochSize(Epoch(p));
  }

  /** Where the fields lie in what is hashed as evidence, for an epoch that fits 256 bits. */
  lemma EvidenceFields(p: Preimage)
    requires Abs(Epoch(p)) < Pow256(32)
    ensures var s := PackEvidence(p);
            && |s| == 137
            && s[..32] == BigEndian(Abs(Epoch(p)), 32)
            && s[32..52] == p.accuser
            && s[52..72] == p.accused
            && s[72] == p.hopIndex
            && s[73..105] == p.peeled
            && s[105..] == p.forward
            && EvidenceHash(p) == Keccak(s)
  {
    hide BigEndian, EpochBytes;
    SameEpochBytes(Epoch(p), Abs(Epoch(p)));
    EpochSize(Epoch(p));
    EpochPlain(Abs(Epoch(p)));
    Places(EpochBytes(Epoch(p)), p.accuser, p.accused, [p.hopIndex], p.peeled, p.forward);
    assert PackEvidence(p)[72] == PackEvidence(p)[72..73][0];
  }

  lemma Places(epoch: seq<byte>, a: seq<byte>, b: seq<byte>, hop: seq<byte>, c: seq<byte>, d: seq<byte>)
    requires |epoch| == |c| == |d| == 32 && |a| == |b| == 20 && |hop| == 1
    ensures var s := epoch + (a + b + hop + c + d);
            && |s| == 137 && s[..32] == epoch && s[32..52] == a && s[52..72] == b
            && s[72..73] == hop && s[73..105] == c && s[105..] == d
  {
  }

  /** And in what is hashed as the grievance id. */
  lemma GrievanceFields(accuser: Address, accused: Address, epoch: int, evidence: Hash32)
    requires Abs(epoch) < Pow256(32)
    ensures var s := PackGrievance(accuser, accused, epoch, evidence);
            && |s| == 104
            && s[..20] == accuser
            && s[20..40] == accused
            && s[40..72] == BigEndian(Abs(epoch), 32)
            && s[72..] == evidence
            && GrievanceId(accuser, accused, epoch, evidence) == Keccak(s)
  {
    hide BigEndian, EpochBytes;
    SameEpochBytes(epoch, Abs(epoch));
    EpochSize(epoch);
    EpochPlain(Abs(epoch));
  }

  /** The same for the grievance id. */
  lemma GrievancePacksApart(a: Address, b: Address, e: int, h: Hash32, a': Address, b': Address, e': int, h': Hash32)
    ensures PackGrievance(a, b, e, h) == PackGrievance(a', b', e', h')
       <==> a == a' && b == b' && Abs(e) == Abs(e') && h == h'
    ensures |PackGrievance(a, b, e, h)| == 104 <==> Abs(e) < Pow256(32)
  {
    hide EpochBytes;
    EpochSize(e);
    SameEpochBytes(e, e');
    SplitBack(EpochBytes(e), h, EpochBytes(e'), h');
    SplitBack(a, b, a', b');
    var l, r := PackGrievance(a, b, e, h), PackGrievance(a', b', e', h');
    if l == r {
      assert l[..40] == a + b && r[..40] == a' + b';
      assert l[40..] == EpochBytes(e) + h && r[40..] == EpochBytes(e') + h';
    }
  }

  /* The event */

  /** A receipt as it is loaded for a defence. */
  datatype Receipt = Receipt(pre: Preimage, nextHopPubkey: string, signature: string)

  datatype GrievanceOpened = GrievanceOpened(
    grievanceId: Hash32, accuser: Address, accused: Address, epoch: int, evidenceHash: Hash32, deadline: nat)

  datatype Log = Log(topics: seq<Hash32>, data: seq<byte>)

  /** The signature of the event. */
  const OpenedTopic: Hash32

  function PadAddress(a: Address): Hash32 { Zeros(12) + a }

  /**
   * The log of a grievance that the accuser of `r` opens: `RunFile` computes the evidence hash, the
   * court emits it with the grievance id, the parties and a deadline.
   */
  function LogOf(r: Receipt, deadline: nat): Log
    requires r.pre.epoch.Some?
  {
    var hash := EvidenceHash(r.pre);
    Log([OpenedTopic, GrievanceId(r.pre.accuser, r.pre.accused, Epoch(r.pre), hash),
         PadAddress(r.pre.accuser), PadAddress(r.pre.accused)],
        BigEndian(Abs(Epoch(r.pre)), 32) + hash + BigEndian(deadline, 32))
  }

  /** `ParseGrievanceLog`: four topics and at least 96 bytes. */
  function ParseLog(log: Log): Option<GrievanceOpened> {
    if |log.topics| != 4 || |log.data| < 96 then None
    else
      Some(GrievanceOpened(log.topics[1], log.topics[2][12..], log.topics[3][12..],
                           Number(log.data[..32]), log.data[32..64], Number(log.data[64..96])))
  }

  datatype Mismatch = NotOperator | WrongAccuser | NoEpoch | WrongEpoch | WrongEvidence | WrongGrievance

  /** `ValidateReceiptForGrievance`. */
  function ValidateReceipt(ev: GrievanceOpened, r: Receipt, operator: Address): Option<Mismatch> {
    if r.pre.accused != operator || ev.accused != operator then Some(NotOperator)
    else if ev.accuser != r.pre.accuser then Some(WrongAccuser)
    else if r.pre.epoch.None? then Some(NoEpoch)
    else if ev.epoch != r.pre.epoch.value then Some(WrongEpoch)
    else if EvidenceHash(r.pre) != ev.evidenceHash then Some(WrongEvidence)
    else if GrievanceId(r.pre.accuser, r.pre.accused, Epoch(r.pre), EvidenceHash(r.pre)) != ev.grievanceId
      then Some(WrongGrievance)
    else None
  }

  /** Two different byte strings with one hash. */
  ghost predicate Collides(a: seq<byte>, b: seq<byte>) { a != b && Keccak(a) == Keccak(b) }

  /** The epochs that a uint256 can carry. */
  predicate OnChain(r: Receipt) { r.pre.epoch.Some? && 0 <= Epoch(r.pre) < Pow256(32) }

  /** The log reads back as the event that was emitted, and carries the epoch as it was hashed. */
  lemma LogReadsBack(r: Receipt, deadline: nat)
    requires OnChain(r) && deadline < Pow256(32)
    ensures var hash := EvidenceHash(r.pre);
            ParseLog(LogOf(r, deadline)) == Some(GrievanceOpened(
              GrievanceId(r.pre.accuser, r.pre.accused, Epoch(r.pre), hash), r.pre.accuser, r.pre.accused,
              Epoch(r.pre), hash, deadline))
    ensures var log := LogOf(r, deadline);
            && log.topics[1] == GrievanceId(r.pre.accuser, r.pre.accused, Epoch(r.pre), EvidenceHash(r.pre))
            && log.topics[2][12..] == r.pre.accuser && log.topics[3][12..] == r.pre.accused
            && log.data[32..64] == EvidenceHash(r.pre) && log.data[64..96] == BigEndian(deadline, 32)
    ensures LogOf(r, deadline).data[..32] == EpochBytes(Epoch(r.pre)) == PackEvidence(r.pre)[..32]
  {
    var log := LogOf(r, deadline);
    EpochPlain(Epoch(r.pre));
    BigEndianNumber(Epoch(r.pre), 32);
    BigEndianNumber(deadline, 32);
    assert log.data[..32] == BigEndian(Epoch(r.pre), 32);
    assert log.data[32..64] == EvidenceHash(r.pre);
    assert log.data[64..96] == BigEndian(deadline, 32);
    assert PadAddress(r.pre.accuser)[12..] == r.pre.accuser && PadAddress(r.pre.accused)[12..] == r.pre.accused;
  }

  /**
   * Evidence binds both ways. An event opened from a receipt is answered by that receipt at the accused
   * operator; and a receipt that answers it agrees with it on all six fields, or the two preimages are
   * a collision of the hash function.
   */
  lemma EvidenceBinds(r: Receipt, deadline: nat, r': Receipt, operator: Address)
    requires OnChain(r) && deadline < Pow256(32)
    ensures var ev := ParseLog(LogOf(r, deadline)).value;
            && (r'.pre == r.pre && operator == r.pre.accused ==> ValidateReceipt(ev, r', operator) == None)
            && (ValidateReceipt(ev, r', operator) == None ==>
                  operator == r.pre.accused
                    && (r'.pre == r.pre || Collides(PackEvidence(r'.pre), PackEvidence(r.pre))))
  {
    hide PackEvidence, GrievanceId;
    LogReadsBack(r, deadline);
    EvidencePacksApart(r'.pre, r.pre);
  }

  /** Any two receipts accepted for one event agree on all six fields, or collide. */
  lemma EventPins(ev: GrievanceOpened, r: Receipt, operator: Address, r': Receipt, operator': Address)
    requires ValidateReceipt(ev, r, operator) == None && ValidateReceipt(ev, r', operator') == None
    ensures operator == operator'
    ensures r.pre == r'.pre || Collides(PackEvidence(r.pre), PackEvidence(r'.pre))
  {
    hide PackEvidence, GrievanceId;
    EvidencePacksApart(r.pre, r'.pre);
  }
}
