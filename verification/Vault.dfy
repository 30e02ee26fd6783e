/** The evidence vault: a table of receipts with two uniqueness constraints, and the file tailer feeding it. */
module Vault {
  import opened Wrappers
  import opened Bytes
  import opened Text
  import opened MlnRoute
  import opened Evidence
  import opened Receipts

  /** A row as stored: everything but the hop index is text. */
  datatype Row = Row(
    evidenceHash: string, epochId: string, accuser: string, accused: string, hopIndex: int,
    peeled: string, forward: string, nextHop: string, signature: string, swapId: Option<string>)

  datatype SaveError = EpochMissing | SwapIdTaken

  datatype LookupError = NotFound | Malformed | EmptySwapId

  /** `big.Int.String`. */
  function IntText(x: int): string {
    if x < 0 then "-" + Decimal(0 - x) else Decimal(x)
  }

  lemma IntReadsBack(x: int)
    ensures ParseDecimal(IntText(x)) == Some(x)
  {
    if x < 0 {
      var s := IntText(x);
      DigitsReadBack(0 - x);
      assert s[1..] == Decimal(0 - x);
    } else {
      DecimalReadsBack(x);
    }
  }

  /** A blank swap id is stored as NULL. */
  function SwapIdOf(r: Record): Option<string> {
    var id := TrimSpace(r.swapId);
    if id == [] then None else Some(id)
  }

  function RowOf(r: Record): Row
    requires r.receipt.pre.epoch.Some?
  {
    var p := r.receipt.pre;
    Row(HashText(EvidenceHash(p)), IntText(Epoch(p)), AddressText(p.accuser), AddressText(p.accused), p.hopIndex,
        HashText(p.peeled), HashText(p.forward), r.receipt.nextHopPubkey, r.receipt.signature, SwapIdOf(r))
  }

  /** What a row says when it is loaded for a defence. */
  function ReadRow(row: Row): Result<Receipt, LookupError> {
    var epoch := ParseDecimal(row.epochId);
    if epoch.None? || row.hopIndex < 0 || row.hopIndex > 255 then Err(Malformed)
    else if AddressOf(row.accuser).None? || AddressOf(row.accused).None? then Err(Malformed)
    else if ParseBytes32(row.peeled).None? || ParseBytes32(row.forward).None? then Err(Malformed)
    else
      Ok(Receipt(Preimage(epoch, AddressOf(row.accuser).value, AddressOf(row.accused).value, row.hopIndex,
                          ParseBytes32(row.peeled).value, ParseBytes32(row.forward).value),
                 row.nextHop, row.signature))
  }

  /** The text of a row reads back field for field. */
  lemma RowReadsBack(r: Record)
    requires r.receipt.pre.epoch.Some?
    ensures ReadRow(RowOf(r)) == Ok(r.receipt)
  {
    hide HashText, AddressText, IntText, ParseBytes32, ParseDecimal, AddressOf, TrimSpace;
    var p := r.receipt.pre;
    IntReadsBack(Epoch(p));
    ChecksumParses(p.accuser);
    ChecksumParses(p.accused);
    HashTextParses(p.peeled);
    HashTextParses(p.forward);
  }

  lemma HashTextInjective(g: Hash32, h: Hash32)
    ensures HashText(g) == HashText(h) <==> g == h
  {
    HashTextParses(g);
    HashTextParses(h);
  }

  /* The table */

  function FindHash(rows: seq<Row>, hash: string): Option<Row> {
    if rows == [] then None
    else if rows[0].evidenceHash == hash then Some(rows[0])
    else FindHash(rows[1..], hash)
  }

  function FindSwapId(rows: seq<Row>, id: string): Option<Row> {
    if rows == [] then None
    else if rows[0].swapId == Some(id) then Some(rows[0])
    else FindSwapId(rows[1..], id)
  }

  /** A row's key is the hash of its own fields; keys and swap ids are unique. */
  ghost predicate Table(rows: seq<Row>) {
    && (forall i :: 0 <= i < |rows| ==> Keyed(rows[i]))
    && (forall i, j :: 0 <= i < j < |rows| ==> rows[i].evidenceHash != rows[j].evidenceHash)
    && (forall i, j :: 0 <= i < j < |rows| ==> rows[i].swapId == None || rows[i].swapId != rows[j].swapId)
  }

  ghost predicate Keyed(row: Row) {
    && ReadRow(row).Ok?
    && row.evidenceHash == HashText(EvidenceHash(ReadRow(row).value.pre))
    && (row.swapId.Some? ==> row.swapId.value != [] && TrimSpace(row.swapId.value) == row.swapId.value)
  }

  /**
   * `SaveReceipt`: a receipt whose hash is known is ignored, and that is tested first; one whose swap
   * id belongs to another receipt is refused; any other is added.
   */
  function Saved(rows: seq<Row>, r: Record): (seq<Row>, Result<bool, SaveError>) {
    if r.receipt.pre.epoch.None? then (rows, Err(EpochMissing))
    else if FindHash(rows, RowOf(r).evidenceHash).Some? then (rows, Ok(false))
    else if SwapIdOf(r).Some? && FindSwapId(rows, SwapIdOf(r).value).Some? then (rows, Err(SwapIdTaken))
    else (rows + [RowOf(r)], Ok(true))
  }

  function SaveAll(rows: seq<Row>, records: seq<Record>): seq<Row>
    decreases |records|
  {
    if records == [] then rows else SaveAll(Saved(rows, records[0]).0, records[1..])
  }

  /** `GetByEvidenceHash`. */
  function Lookup(rows: seq<Row>, hash: Hash32): Result<Receipt, LookupError> {
    match FindHash(rows, HashText(hash))
    case None => Err(NotFound)
    case Some(row) => ReadRow(row)
  }

  /** `GetBySwapID`. */
  function LookupSwap(rows: seq<Row>, swapId: string): Result<Receipt, LookupError> {
    var id := TrimSpace(swapId);
    if id == [] then Err(EmptySwapId)
    else
      match FindSwapId(rows, id)
      case None => Err(NotFound)
      case Some(row) => ReadRow(row)
  }

  lemma {:induction false} FindHashSome(rows: seq<Row>, hash: string)
    ensures FindHash(rows, hash).Some? <==> exists i :: 0 <= i < |rows| && rows[i].evidenceHash == hash
    ensures FindHash(rows, hash).Some? ==>
      FindHash(rows, hash).value in rows && FindHash(rows, hash).value.evidenceHash == hash
  {
    if rows != [] && rows[0].evidenceHash != hash {
      FindHashSome(rows[1..], hash);
      if FindHash(rows, hash).None? {
        forall i | 0 <= i < |rows| ensures rows[i].evidenceHash != hash {
          assert i > 0 ==> rows[i] == rows[1..][i - 1];
        }
      }
    }
  }

  lemma {:induction false} FindSwapIdSome(rows: seq<Row>, id: string)
    ensures FindSwapId(rows, id).Some? <==> exists i :: 0 <= i < |rows| && rows[i].swapId == Some(id)
    ensures FindSwapId(rows, id).Some? ==>
      FindSwapId(rows, id).value in rows && FindSwapId(rows, id).value.swapId == Some(id)
  {
    if rows != [] && rows[0].swapId != Some(id) {
      FindSwapIdSome(rows[1..], id);
      if FindSwapId(rows, id).None? {
        forall i | 0 <= i < |rows| ensures rows[i].swapId != Some(id) {
          assert i > 0 ==> rows[i] == rows[1..][i - 1];
        }
      }
    }
  }

  /** What is found stays found when rows are added. */
  lemma {:induction false} FindsStill(rows: seq<Row>, row: Row, hash: string, id: string)
    ensures FindHash(rows, hash).Some? ==> FindHash(rows + [row], hash) == FindHash(rows, hash)
    ensures FindHash(rows, hash).None? ==>
      FindHash(rows + [row], hash) == if row.evidenceHash == hash then Some(row) else None
    ensures FindSwapId(rows, id).Some? ==> FindSwapId(rows + [row], id) == FindSwapId(rows, id)
    ensures FindSwapId(rows, id).None? ==>
      FindSwapId(rows + [row], id) == if row.swapId == Some(id) then Some(row) else None
  {
    if rows != [] {
      FindsStill(rows[1..], row, hash, id);
      assert (rows + [row])[1..] == rows[1..] + [row];
    } else {
      assert (rows + [row])[1..] == [];
    }
  }

  /** Saving keeps the table's invariant. */
  lemma SaveKeepsTable(rows: seq<Row>, r: Record)
    requires Table(rows)
    ensures Table(Saved(rows, r).0)
  {
    hide HashText, ReadRow, TrimSpace, EvidenceHash, AddressText, IntText;
    if Saved(rows, r).1 == Ok(true) {
      RowKeyed(r);
      FindHashSome(rows, RowOf(r).evidenceHash);
      if SwapIdOf(r).Some? {
        FindSwapIdSome(rows, SwapIdOf(r).value);
      }
    }
  }

  lemma RowKeyed(r: Record)
    requires r.receipt.pre.epoch.Some?
    ensures Keyed(RowOf(r))
  {
    hide HashText, ReadRow, TrimSpace, EvidenceHash, AddressText, IntText;
    RowReadsBack(r);
    TrimTwice(r.swapId);
  }

  /** Every vault that any history of saves leads to is a table. */
  lemma {:induction false} HistoryKeepsTable(rows: seq<Row>, records: seq<Record>)
    requires Table(rows)
    ensures Table(SaveAll(rows, records))
    decreases |records|
  {
    hide Table, Saved;
    if records != [] {
      SaveKeepsTable(rows, records[0]);
      HistoryKeepsTable(Saved(rows, records[0]).0, records[1..]);
    }
  }

  lemma {:induction false} SaveAllAppend(rows: seq<Row>, first: seq<Record>, more: seq<Record>)
    ensures SaveAll(rows, first + more) == SaveAll(SaveAll(rows, first), more)
    decreases |first|
  {
    hide Saved;
    if first == [] {
      assert first + more == more;
    } else {
      assert (first + more)[1..] == first[1..] + more;
      SaveAllAppend(Saved(rows, first[0]).0, first[1..], more);
    }
  }

  /** Whatever is saved later, what a lookup found it finds again. */
  lemma {:induction false} LookupStays(rows: seq<Row>, records: seq<Record>, hash: string, id: string)
    ensures FindHash(rows, hash).Some? ==> FindHash(SaveAll(rows, records), hash) == FindHash(rows, hash)
    ensures FindSwapId(rows, id).Some? ==> FindSwapId(SaveAll(rows, records), id) == FindSwapId(rows, id)
    decreases |records|
  {
    hide FindHash, FindSwapId;
    if records != [] {
      if Saved(rows, records[0]).1 == Ok(true) {
        FindsStill(rows, RowOf(records[0]), hash, id);
      }
      LookupStays(Saved(rows, records[0]).0, records[1..], hash, id);
    }
  }

  /**
   * A lookup by hash returns the first receipt that was saved under it, field for field, whatever came
   * before and after; so does a lookup by swap id.
   */
  lemma FirstSavedIsFound(before: seq<Record>, r: Record, after: seq<Record>)
    requires Saved(SaveAll([], before), r).1 == Ok(true)
    ensures Lookup(SaveAll([], before + [r] + after), EvidenceHash(r.receipt.pre)) == Ok(r.receipt)
    ensures TrimSpace(r.swapId) != [] ==> LookupSwap(SaveAll([], before + [r] + after), r.swapId) == Ok(r.receipt)
  {
    hide HashText, ReadRow, TrimSpace, EvidenceHash, AddressText, IntText, FindHash, FindSwapId;
    var rows := SaveAll([], before);
    var hash := RowOf(r).evidenceHash;
    var id := if SwapIdOf(r).Some? then SwapIdOf(r).value else [];
    SaveAllAppend([], before, [r]);
    SaveAllAppend([], before + [r], after);
    FindsStill(rows, RowOf(r), hash, id);
    LookupStays(rows + [RowOf(r)], after, hash, id);
    RowReadsBack(r);
    assert SaveAll(rows, [r]) == rows + [RowOf(r)];
  }

  /** The k-th receipt of the history was the one that a row was added for. */
  ghost predicate StoredAt(records: seq<Record>, k: nat) {
    k < |records| && Saved(SaveAll([], records[..k]), records[k]).1 == Ok(true)
  }

  /** The receipt found is the k-th of the history, stored then, under this hash. */
  ghost predicate FoundAt(records: seq<Record>, hash: Hash32, k: nat, found: Receipt) {
    StoredAt(records, k) && records[k].receipt == found && EvidenceHash(found.pre) == hash
  }

  /** What a lookup finds was stored: it comes from the history, and its hash is the one asked for. */
  lemma {:induction false} FoundWasSaved(records: seq<Record>, hash: Hash32)
    ensures var found := Lookup(SaveAll([], records), hash);
            if found.Ok? then exists k: nat :: FoundAt(records, hash, k, found.value) else found == Err(NotFound)
    decreases |records|
  {
    hide HashText, ReadRow, EvidenceHash, RowOf, Saved, FindHash;
    if records == [] {
      assert FindHash([], HashText(hash)) == None by {
        FindHashSome([], HashText(hash));
      }
    } else {
      var last := |records| - 1;
      var rows := SaveAll([], records[..last]);
      assert records == records[..last] + [records[last]];
      SaveAllAppend([], records[..last], [records[last]]);
      assert SaveAll(rows, [records[last]]) == Saved(rows, records[last]).0;
      FoundWasSaved(records[..last], hash);
      LastFound(rows, records[last], hash);
      if Lookup(rows, hash).Ok? {
        var found := Lookup(rows, hash).value;
        var k: nat :| FoundAt(records[..last], hash, k, found);
        assert records[..last][..k] == records[..k];
        assert FoundAt(records, hash, k, found);
      } else if Lookup(SaveAll([], records), hash).Ok? {
        assert FoundAt(records, hash, last, records[last].receipt);
      }
    }
  }

  lemma LastFound(rows: seq<Row>, r: Record, hash: Hash32)
    ensures Lookup(rows, hash).Ok? ==> Lookup(Saved(rows, r).0, hash) == Lookup(rows, hash)
    ensures Lookup(rows, hash) == Err(NotFound) ==>
      Lookup(Saved(rows, r).0, hash) == Err(NotFound)
      || (Saved(rows, r).1 == Ok(true) && Lookup(Saved(rows, r).0, hash) == Ok(r.receipt)
          && EvidenceHash(r.receipt.pre) == hash)
  {
    hide HashText, ReadRow, EvidenceHash, FindHash, FindSwapId, SwapIdOf;
    if Saved(rows, r).1 == Ok(true) {
      FindsStill(rows, RowOf(r), HashText(hash), []);
      RowReadsBack(r);
      HashTextInjective(EvidenceHash(r.receipt.pre), hash);
    }
  }

  lemma FoundReads(rows: seq<Row>, hash: Hash32)
    requires FindHash(rows, HashText(hash)).Some?
    ensures Lookup(rows, hash) != Err(NotFound)
  {
  }

  /** What was refused or ignored once is refused or ignored again: the vault only grows. */
  lemma {:induction false} AlreadySeen(rows: seq<Row>, r: Record, more: seq<Record>)
    ensures var later := SaveAll(Saved(rows, r).0, more);
            Saved(later, r).0 == later
  {
    hide HashText, FindHash, FindSwapId;
    var now := Saved(rows, r).0;
    if r.receipt.pre.epoch.Some? {
      var hash := RowOf(r).evidenceHash;
      var id := if SwapIdOf(r).Some? then SwapIdOf(r).value else [];
      if Saved(rows, r).1 == Ok(true) {
        FindsStill(rows, RowOf(r), hash, id);
      }
      LookupStays(now, more, hash, id);
    }
  }

  lemma {:induction false} SeenAll(rows: seq<Row>, records: seq<Record>, more: seq<Record>)
    ensures var later := SaveAll(SaveAll(rows, records), more);
            SaveAll(later, records) == later
    decreases |records|
  {
    hide Saved;
    if records != [] {
      var now := Saved(rows, records[0]).0;
      var later := SaveAll(SaveAll(rows, records), more);
      SaveAllAppend(now, records[1..], more);
      AlreadySeen(rows, records[0], records[1..] + more);
      SeenAll(now, records[1..], more);
    }
  }

  /** Reading everything once more changes nothing. */
  lemma {:induction false} ReprocessingIsIdle(rows: seq<Row>, records: seq<Record>)
    ensures SaveAll(SaveAll(rows, records), records) == SaveAll(rows, records)
  {
    SeenAll(rows, records, []);
  }

  /* The vault answers grievances */

  /** The event opened from `r` is answered by what the vault finds under its hash, or hashes collide. */
  ghost predicate Answered(records: seq<Record>, r: Record, deadline: nat)
    requires OnChain(r.receipt) && deadline < Pow256(32)
  {
    LogReadsBack(r.receipt, deadline);
    var ev := ParseLog(LogOf(r.receipt, deadline)).value;
    var found := Lookup(SaveAll([], records), ev.evidenceHash);
    found.Ok? && (ValidateReceipt(ev, found.value, r.receipt.pre.accused) == None
                  || Collides(PackEvidence(found.value.pre), PackEvidence(r.receipt.pre)))
  }

  /** Every receipt stored that agrees with `r` up to the sign of the epoch has no epoch below zero. */
  ghost predicate SignsAgree(records: seq<Record>, r: Record) {
    forall k: nat :: StoredAt(records, k) && SameFields(records[k].receipt.pre, r.receipt.pre) ==>
      Epoch(records[k].receipt.pre) >= 0
  }

  /**
   * Which events a vault answers, for an arbitrary history in which the hash of `r` is known: exactly
   * those for which the stored receipt that agrees up to the sign of the epoch has no negative epoch.
   */
  lemma AnsweredExactly(records: seq<Record>, r: Record, deadline: nat)
    requires OnChain(r.receipt) && deadline < Pow256(32)
    requires Saved(SaveAll([], records), r).1 == Ok(false)
    ensures Answered(records, r, deadline) <==> SignsAgree(records, r)
  {
    hide HashText, ReadRow, PackEvidence, GrievanceId, FindHash, FindSwapId, SwapIdOf, SaveAll, AddressText,
      IntText, SameFields, EvidenceHash;
    LogReadsBack(r.receipt, deadline);
    var rows, hash := SaveAll([], records), EvidenceHash(r.receipt.pre);
    FoundReads(rows, hash);
    FoundWasSaved(records, hash);
    var found := Lookup(rows, hash).value;
    var k: nat :| FoundAt(records, hash, k, found);
    AnswersBySign(r, deadline, found);
    forall j: nat | StoredAt(records, j) && SameFields(records[j].receipt.pre, r.receipt.pre)
      ensures records[j].receipt == found
    {
      StoredIsFound(records, j, r);
    }
  }

  /** A receipt under the hash of `r` answers unless it differs in the sign of the epoch only. */
  lemma AnswersBySign(r: Record, deadline: nat, found: Receipt)
    requires OnChain(r.receipt) && deadline < Pow256(32) && found.pre.epoch.Some?
    requires EvidenceHash(found.pre) == EvidenceHash(r.receipt.pre)
    ensures var ev := ParseLog(LogOf(r.receipt, deadline)).value;
            (ValidateReceipt(ev, found, r.receipt.pre.accused) == None
             || Collides(PackEvidence(found.pre), PackEvidence(r.receipt.pre)))
            <==> (SameFields(found.pre, r.receipt.pre) ==> Epoch(found.pre) >= 0)
  {
    hide PackEvidence, GrievanceId;
    LogReadsBack(r.receipt, deadline);
    EvidencePacksApart(found.pre, r.receipt.pre);
  }

  lemma StoredIsFound(records: seq<Record>, k: nat, r: Record)
    requires StoredAt(records, k) && SameFields(records[k].receipt.pre, r.receipt.pre)
    ensures Lookup(SaveAll([], records), EvidenceHash(r.receipt.pre)) == Ok(records[k].receipt)
  {
    hide PackEvidence, SaveAll, Lookup, Saved;
    EvidencePacksApart(records[k].receipt.pre, r.receipt.pre);
    assert records == records[..k] + [records[k]] + records[k + 1..];
    FirstSavedIsFound(records[..k], records[k], records[k + 1..]);
  }

  /** Receipts as the parser makes them. */
  predicate Parsed(records: seq<Record>) {
    forall k :: 0 <= k < |records| ==> records[k].receipt.pre.epoch.Some? && Epoch(records[k].receipt.pre) >= 0
  }

  /**
   * A vault fed by the parser, as it always is, answers every event opened from a receipt that it knows:
   * the parser refuses negative epochs.
   */
  lemma VaultAnswers(records: seq<Record>, r: Record, deadline: nat)
    requires Parsed(records) && OnChain(r.receipt) && deadline < Pow256(32)
    requires Saved(SaveAll([], records), r).1 == Ok(false)
    ensures Answered(records, r, deadline)
  {
    hide Answered, Saved, SaveAll, SameFields;
    AnsweredExactly(records, r, deadline);
    assert forall k: nat :: StoredAt(records, k) ==> k < |records|;
  }

  /**
   * Why the parser's test of the sign is needed: a receipt with the negated epoch, saved first, takes
   * the place of the genuine one, and the event opened from it is not answered.
   */
  lemma NegatedEpochShadows(r: Record, deadline: nat)
    requires OnChain(r.receipt) && Epoch(r.receipt.pre) > 0 && deadline < Pow256(32)
    ensures var shadow := r.(receipt := r.receipt.(pre := r.receipt.pre.(epoch := Some(0 - Epoch(r.receipt.pre)))));
            && Saved(SaveAll([], [shadow]), r).1 == Ok(false)
            && !Answered([shadow], r, deadline)
  {
    hide HashText, ReadRow, PackEvidence, GrievanceId, SwapIdOf, AddressText, IntText, Answered, EvidenceHash;
    var shadow := r.(receipt := r.receipt.(pre := r.receipt.pre.(epoch := Some(0 - Epoch(r.receipt.pre)))));
    EvidencePacksApart(shadow.receipt.pre, r.receipt.pre);
    SameHash(shadow, r);
    assert [] + [RowOf(shadow)] == [RowOf(shadow)];
    assert Saved([], shadow) == ([RowOf(shadow)], Ok(true));
    assert SaveAll([], [shadow]) == SaveAll([RowOf(shadow)], []);
    assert [shadow][..0] == [];
    assert StoredAt([shadow], 0);
    AnsweredExactly([shadow], r, deadline);
  }

  lemma SameHash(a: Record, b: Record)
    requires SameFields(a.receipt.pre, b.receipt.pre)
    ensures EvidenceHash(a.receipt.pre) == EvidenceHash(b.receipt.pre)
  {
    hide PackEvidence;
    EvidencePacksApart(a.receipt.pre, b.receipt.pre);
  }

  class Store {
    var rows: seq<Row>

    ghost predicate Valid()
      reads this
    {
      Table(rows)
    }

    constructor ()
      ensures rows == [] && Valid()
    {
      rows := [];
    }

    method SaveReceipt(r: Record) returns (inserted: Result<bool, SaveError>)
      requires Valid()
      modifies this
      ensures Valid() && (rows, inserted) == Saved(old(rows), r)
    {
      hide Table, HashText;
      if r.receipt.pre.epoch.None? {
        return Err(EpochMissing);
      }
      var row := RowOf(r);
      SaveKeepsTable(rows, r);
      if FindHash(rows, row.evidenceHash).Some? {
        return Ok(false);
      }
      if row.swapId.Some? && FindSwapId(rows, row.swapId.value).Some? {
        return Err(SwapIdTaken);
      }
      rows := rows + [row];
      inserted := Ok(true);
    }

    /** The stored row under a hash, read back. */
    method GetByEvidenceHash(hash: Hash32) returns (r: Result<Receipt, LookupError>)
      requires Valid()
      ensures r == Lookup(rows, hash)
      ensures r.Ok? ==> EvidenceHash(r.value.pre) == hash
      ensures r.Err? ==> r == Err(NotFound)
    {
      hide HashText, ReadRow;
      FindHashSome(rows, HashText(hash));
      var row := FindHash(rows, HashText(hash));
      if row.None? {
        return Err(NotFound);
      }
      assert Keyed(row.value);
      r := ReadRow(row.value);
      HashTextInjective(EvidenceHash(r.value.pre), hash);
    }
  }

  /* The tailer */

  /** The complete lines of a byte string, and what follows the last newline. */
  function Lines(s: seq<byte>): (seq<seq<byte>>, seq<byte>)
    decreases |s|
  {
    if s == [] then ([], [])
    else if s[|s| - 1] == 10 then (Lines(s[..|s| - 1]).0 + [Lines(s[..|s| - 1]).1], [])
    else (Lines(s[..|s| - 1]).0, Lines(s[..|s| - 1]).1 + [s[|s| - 1]])
  }

  const BlankLine: seq<byte> -> bool
  const DecodeJson: seq<byte> -> Option<NdjsonReceipt>

  /** `ParseReceiptLine`: the JSON object, then the field checks. */
  function ParseLine(line: seq<byte>): Option<Record> {
    match DecodeJson(line)
    case None => None
    case Some(j) =>
      match ToRecord(j)
      case Ok(r) => Some(r)
      case Err(_) => None
  }

  function NonBlank(lines: seq<seq<byte>>): seq<seq<byte>> {
    if lines == [] then []
    else
      var last := lines[|lines| - 1];
      NonBlank(lines[..|lines| - 1]) + if BlankLine(last) then [] else [last]
  }

  /** The records of the lines that parse. */
  function RecordsOf(lines: seq<seq<byte>>): seq<Record> {
    if lines == [] then []
    else
      var last := ParseLine(lines[|lines| - 1]);
      RecordsOf(lines[..|lines| - 1]) + if last.Some? then [last.value] else []
  }

  /** What comes out of the parser has an epoch, and none below zero. */
  lemma {:induction false} RecordsAreParsed(lines: seq<seq<byte>>)
    ensures Parsed(RecordsOf(lines))
    decreases |lines|
  {
    hide ToRecord;
    if lines != [] {
      var j := DecodeJson(lines[|lines| - 1]);
      if j.Some? {
        RecordIsParsed(j.value);
      }
      RecordsAreParsed(lines[..|lines| - 1]);
    }
  }

  lemma RecordIsParsed(j: NdjsonReceipt)
    ensures ToRecord(j).Ok? ==> Parsed([ToRecord(j).value])
  {
    hide ParseDecimal, AddressOf, ParseBytes32, TrimSpace;
  }

  /** What the tailer remembers of a file. */
  datatype TailState = TailState(off: nat, partial: seq<byte>)

  const Fresh: TailState := TailState(0, [])

  /** One scan: the new state and the lines handed to the parser. A shrunken file is read again. */
  function Scan(st: TailState, content: seq<byte>): (TailState, seq<seq<byte>>) {
    var from := if |content| < st.off then Fresh else st;
    var chunk := content[from.off..];
    if chunk == [] then (from, [])
    else
      var (lines, rest) := Lines(from.partial + chunk);
      (TailState(from.off + |chunk|, rest), NonBlank(lines))
  }

  /** The tailer has read `content` up to its offset. */
  ghost predicate Caught(st: TailState, content: seq<byte>) {
    st.off <= |content| && st.partial == Lines(content[..st.off]).1
  }

  lemma {:induction false} LinesAppend(a: seq<byte>, b: seq<byte>)
    ensures var (done, rest) := Lines(a);
            var (more, last) := Lines(rest + b);
            Lines(a + b) == (done + more, last)
    decreases |b|
  {
    if b == [] {
      assert a + b == a && Lines(a).1 + b == Lines(a).1 && Lines(a).0 + [] == Lines(a).0;
      RestHasNoLine(a);
    } else {
      var front := b[..|b| - 1];
      LinesAppend(a, front);
      assert (a + b)[..|a + b| - 1] == a + front;
      var t := Lines(a).1 + b;
      assert t[..|t| - 1] == Lines(a).1 + front;
      var (more, last) := Lines(Lines(a).1 + front);
      assert Lines(a).0 + (more + [last]) == Lines(a).0 + more + [last];
    }
  }

  lemma {:induction false} RestHasNoLine(s: seq<byte>)
    ensures Lines(Lines(s).1) == ([], Lines(s).1)
    decreases |s|
  {
    if s != [] {
      RestHasNoLine(s[..|s| - 1]);
      if s[|s| - 1] != 10 {
        var rest := Lines(s).1;
        assert rest[..|rest| - 1] == Lines(s[..|s| - 1]).1;
      }
    }
  }

  lemma {:induction false} NonBlankAppend(a: seq<seq<byte>>, b: seq<seq<byte>>)
    ensures NonBlank(a + b) == NonBlank(a) + NonBlank(b)
    decreases |b|
  {
    if b == [] {
      assert a + b == a;
    } else {
      assert (a + b)[..|a + b| - 1] == a + b[..|b| - 1];
      NonBlankAppend(a, b[..|b| - 1]);
    }
  }

  /** One scan of a file that only grew hands over exactly the new complete lines. */
  lemma ScanCatchesUp(st: TailState, content: seq<byte>)
    requires Caught(st, content)
    ensures Caught(Scan(st, content).0, content) && Scan(st, content).0.off == |content|
    ensures NonBlank(Lines(content).0) == NonBlank(Lines(content[..st.off]).0) + Scan(st, content).1
  {
    hide Lines, NonBlank;
    var chunk := content[st.off..];
    assert content[..st.off] + chunk == content;
    assert content[..|content|] == content;
    LinesAppend(content[..st.off], chunk);
    if chunk == [] {
      assert content[..st.off] == content;
    } else {
      NonBlankAppend(Lines(content[..st.off]).0, Lines(st.partial + chunk).0);
    }
  }

  /** All scans of a schedule: the file's content at each of them. */
  function ScanAll(st: TailState, contents: seq<seq<byte>>): (TailState, seq<seq<byte>>)
    decreases |contents|
  {
    if contents == [] then (st, [])
    else
      var (st1, lines) := Scan(st, contents[0]);
      var (st2, more) := ScanAll(st1, contents[1..]);
      (st2, lines + more)
  }

  /** The file grows from scan to scan. */
  predicate Grows(contents: seq<seq<byte>>) {
    |contents| < 2 || (contents[0] <= contents[1] && Grows(contents[1..]))
  }

  lemma {:induction false} ScanAllFrom(st: TailState, before: seq<byte>, contents: seq<seq<byte>>)
    requires Caught(st, before) && st.off == |before|
    requires contents != [] && before <= contents[0] && Grows(contents)
    ensures NonBlank(Lines(contents[|contents| - 1]).0) == NonBlank(Lines(before).0) + ScanAll(st, contents).1
    decreases |contents|
  {
    hide Lines, NonBlank, Scan;
    var next := Scan(st, contents[0]).0;
    assert contents[0][..st.off] == before && before[..st.off] == before;
    ScanCatchesUp(st, contents[0]);
    if |contents| == 1 {
      assert ScanAll(next, contents[1..]).1 == [];
    } else {
      assert contents[1..][0] == contents[1];
      ScanAllFrom(next, contents[0], contents[1..]);
    }
  }

  /**
   * Tailing equals batch parsing: for a growing file and any schedule of scans, the lines handed over
   * by all scans are exactly the non-blank complete lines of the last content, once each, in order.
   */
  lemma {:induction false} TailingIsBatch(contents: seq<seq<byte>>)
    requires contents != [] && Grows(contents)
    ensures ScanAll(Fresh, contents).1 == NonBlank(Lines(contents[|contents| - 1]).0)
  {
    hide Scan, ScanAll, Grows;
    ScanAllFrom(Fresh, [], contents);
  }

  lemma NoLine(rows: seq<Row>)
    ensures Lines([]) == ([], []) && NonBlank([]) == [] && SaveAll(rows, RecordsOf([])) == rows
  {
  }

  /** One byte further. */
  lemma LinesNext(buf: seq<byte>, i: nat)
    requires i < |buf|
    ensures var (done, rest) := Lines(buf[..i]);
            Lines(buf[..i + 1]) == if buf[i] == 10 then (done + [rest], []) else (done, rest + [buf[i]])
  {
    assert buf[..i + 1][..i] == buf[..i];
  }

  class FileTail {
    var off: nat
    var partial: seq<byte>

    constructor ()
      ensures State() == Fresh
    {
      off, partial := 0, [];
    }

    function State(): TailState
      reads this
    {
      TailState(off, partial)
    }

    /** One poll of a file: read what is new, split it into lines, save what parses. */
    method TailFile(content: seq<byte>, store: Store)
      requires store.Valid()
      modifies this, store
      ensures store.Valid()
      ensures State() == Scan(old(State()), content).0
      ensures store.rows == SaveAll(old(store.rows), RecordsOf(Scan(old(State()), content).1))
    {
      hide Saved, Table, SaveAll, NonBlank, RecordsOf, ParseLine, Lines;
      NoLine(store.rows);
      if |content| < off {
        off, partial := 0, [];
      }
      var chunk := content[off..];
      if chunk == [] {
        return;
      }
      var buf := partial + chunk;
      off := off + |chunk|;
      var lineStart := 0;
      for i := 0 to |buf|
        invariant 0 <= lineStart <= i
        invariant store.Valid()
        invariant buf[lineStart..i] == Lines(buf[..i]).1
        invariant store.rows == SaveAll(old(store.rows), RecordsOf(NonBlank(Lines(buf[..i]).0)))
        invariant off == (if |content| < old(off) then 0 else old(off)) + |chunk|
      {
        LinesNext(buf, i);
        if buf[i] != 10 {
          assert buf[lineStart..i + 1] == buf[lineStart..i] + [buf[i]];
          continue;
        }
        var line := buf[lineStart..i];
        lineStart := i + 1;
        assert buf[lineStart..i + 1] == [];
        NextLine(Lines(buf[..i]).0, line, old(store.rows));
        if BlankLine(line) {
          continue;
        }
        var rec := ParseLine(line);
        if rec.None? {
          continue;
        }
        var _ := store.SaveReceipt(rec.value);
      }
      assert buf[..|buf|] == buf;
      partial := buf[lineStart..];
    }
  }

  /** One more line in the books. */
  lemma {:induction false} NextLine(lines: seq<seq<byte>>, line: seq<byte>, rows: seq<Row>)
    ensures var so, now := SaveAll(rows, RecordsOf(NonBlank(lines))),
      SaveAll(rows, RecordsOf(NonBlank(lines + [line])));
            if BlankLine(line) || ParseLine(line).None? then now == so else now == Saved(so, ParseLine(line).value).0
  {
    hide Saved;
    assert (lines + [line])[..|lines|] == lines;
    if !BlankLine(line) {
      var shown := NonBlank(lines);
      assert (shown + [line])[..|shown|] == shown;
      if ParseLine(line).Some? {
        var r := ParseLine(line).value;
        SaveAllAppend(rows, RecordsOf(shown), [r]);
        assert SaveAll(SaveAll(rows, RecordsOf(shown)), [r]) == Saved(SaveAll(rows, RecordsOf(shown)), r).0;
      } else {
        assert RecordsOf(shown) + [] == RecordsOf(shown);
      }
    } else {
      assert NonBlank(lines) + [] == NonBlank(lines);
    }
  }

  /**
   * A reset is harmless: when a file whose lines were all processed is read again from the start, the
   * vault stays as it is.
   */
  lemma ResetIsHarmless(rows: seq<Row>, content: seq<byte>)
    ensures var processed := SaveAll(rows, RecordsOf(NonBlank(Lines(content).0)));
            SaveAll(processed, RecordsOf(Scan(Fresh, content).1)) == processed
  {
    hide SaveAll, RecordsOf, NonBlank;
    assert content[0..] == content && [] + content == content;
    ReprocessingIsIdle(rows, RecordsOf(NonBlank(Lines(content).0)));
    if content == [] {
      ReprocessingIsIdle(rows, RecordsOf(NonBlank([])));
      EmptyLines();
    }
  }

  lemma EmptyLines()
    ensures NonBlank([]) == []
  {
  }

  /**
   * From the file to the court: after any schedule of scans of a growing file, the vault answers every
   * event opened from a receipt it knows, or exhibits a collision.
   */
  lemma TailedVaultAnswers(contents: seq<seq<byte>>, r: Record, deadline: nat)
    requires contents != [] && Grows(contents) && OnChain(r.receipt) && deadline < Pow256(32)
    requires Saved(SaveAll([], RecordsOf(ScanAll(Fresh, contents).1)), r).1 == Ok(false)
    ensures Answered(RecordsOf(NonBlank(Lines(contents[|contents| - 1]).0)), r, deadline)
  {
    hide *;
    RecordsAreParsed(ScanAll(Fresh, contents).1);
    TailingIsBatch(contents);
    VaultAnswers(RecordsOf(ScanAll(Fresh, contents).1), r, deadline);
  }
}
