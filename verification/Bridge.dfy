/**
 * From a line in the receipts file to an answer in court: what is written completely is stored, unless
 * another receipt has its swap id, and what a mix node emits is answered.
 */
module Bridge {
  import opened Wrappers
  import opened Bytes
  import opened Text
  import opened MlnRoute
  import opened Evidence
  import opened Receipts
  import opened Vault

  /* Lines */

  predicate OneLine(line: seq<byte>) { forall i :: 0 <= i < |line| ==> line[i] != 10 }

  /** The content holds this complete line, after whole lines. */
  predicate HoldsLine(content: seq<byte>, before: seq<byte>, line: seq<byte>, after: seq<byte>) {
    && content == before + line + [10] + after
    && OneLine(line)
    && (before == [] || before[|before| - 1] == 10)
  }

  lemma {:induction false} NoBreak(line: seq<byte>)
    requires OneLine(line)
    ensures Lines(line) == ([], line)
    decreases |line|
  {
    hide Lines;
    NoLine([]);
    if line != [] {
      var last := |line| - 1;
      NoBreak(line[..last]);
      LinesNext(line, last);
      assert line[..last + 1] == line == line[..last] + [line[last]];
    }
  }

  lemma LineListed(content: seq<byte>, before: seq<byte>, line: seq<byte>, after: seq<byte>)
    requires HoldsLine(content, before, line, after)
    ensures line in Lines(content).0
  {
    assert Lines(before).1 == [];
    NoBreak(line);
    LinesAppend(before, line);
    assert [] + line == line;
    var start := before + line;
    assert (start + [10])[..|start + [10]| - 1] == start;
    assert Lines(start + [10]).0 == Lines(start).0 + [line];
    LinesAppend(start + [10], after);
  }

  lemma {:induction false} ShownIfNotBlank(lines: seq<seq<byte>>, line: seq<byte>)
    requires line in lines && !BlankLine(line)
    ensures line in NonBlank(lines)
  {
    var front := lines[..|lines| - 1];
    if line in front {
      ShownIfNotBlank(front, line);
    }
  }

  lemma {:induction false} RecordedIfParsed(lines: seq<seq<byte>>, line: seq<byte>, j: NdjsonReceipt, r: Record)
    requires line in lines && DecodeJson(line) == Some(j) && ToRecord(j) == Ok(r)
    ensures r in RecordsOf(lines)
  {
    hide ToRecord;
    var front := lines[..|lines| - 1];
    if line in front {
      RecordedIfParsed(front, line, j, r);
    }
  }

  /* The table */

  /** A lookup by the receipt's hash finds a receipt with that hash. */
  ghost predicate Known(rows: seq<Row>, r: Record) {
    var hash := EvidenceHash(r.receipt.pre);
    Lookup(rows, hash).Ok? && EvidenceHash(Lookup(rows, hash).value.pre) == hash
  }

  /** A lookup by the receipt's swap id finds a receipt with another hash. */
  ghost predicate Taken(rows: seq<Row>, r: Record) {
    var found := LookupSwap(rows, r.swapId);
    found.Ok? && EvidenceHash(found.value.pre) != EvidenceHash(r.receipt.pre)
  }

  /** Whatever was saved is known afterwards, unless its swap id belongs to another receipt. */
  lemma SavedIsKnown(records: seq<Record>, r: Record)
    requires r in records && r.receipt.pre.epoch.Some?
    ensures Known(SaveAll([], records), r) || Taken(SaveAll([], records), r)
  {
    hide HashText, ReadRow, EvidenceHash, FindHash, FindSwapId, TrimSpace, IntText, AddressText;
    var k :| 0 <= k < |records| && records[k] == r;
    var rows, rest := SaveAll([], records[..k]), records[k + 1..];
    assert records == records[..k] + ([r] + rest);
    SaveAllAppend([], records[..k], [r] + rest);
    assert ([r] + rest)[1..] == rest;
    var now := Saved(rows, r).0;
    assert SaveAll([], records) == SaveAll(now, rest);
    TableEmpty();
    HistoryKeepsTable([], records[..k]);
    SaveKeepsTable(rows, r);
    HistoryKeepsTable(now, rest);
    if Saved(rows, r).1 == Err(SwapIdTaken) {
      TakenNow(rows, r);
      LookupStays(now, rest, [], SwapIdOf(r).value);
    } else {
      FoundNow(rows, r);
      LookupStays(now, rest, RowOf(r).evidenceHash, []);
      KeyedReads(SaveAll(now, rest), RowOf(r).evidenceHash, r);
    }
  }

  lemma TableEmpty()
    ensures Table([])
  {
  }

  lemma FoundNow(rows: seq<Row>, r: Record)
    requires r.receipt.pre.epoch.Some? && Saved(rows, r).1 != Err(SwapIdTaken)
    ensures FindHash(Saved(rows, r).0, RowOf(r).evidenceHash).Some?
  {
    hide HashText, EvidenceHash, FindHash, FindSwapId;
    FindsStill(rows, RowOf(r), RowOf(r).evidenceHash, []);
  }

  /** A row found by its key reads as a receipt with that hash. */
  lemma KeyedReads(rows: seq<Row>, hash: string, r: Record)
    requires Table(rows) && hash == HashText(EvidenceHash(r.receipt.pre)) && FindHash(rows, hash).Some?
    ensures Known(rows, r)
  {
    hide HashText, ReadRow, EvidenceHash, FindHash;
    FindHashSome(rows, hash);
    var row := FindHash(rows, hash).value;
    var i :| 0 <= i < |rows| && rows[i] == row;
    assert Keyed(rows[i]);
    HashTextInjective(EvidenceHash(ReadRow(row).value.pre), EvidenceHash(r.receipt.pre));
  }

  lemma TakenNow(rows: seq<Row>, r: Record)
    requires Table(rows) && Saved(rows, r).1 == Err(SwapIdTaken)
    ensures SwapIdOf(r).Some? && Taken(rows, r)
  {
    hide HashText, ReadRow, EvidenceHash, FindHash, FindSwapId, TrimSpace;
    var id, hash := SwapIdOf(r).value, RowOf(r).evidenceHash;
    FindSwapIdSome(rows, id);
    FindHashSome(rows, hash);
    var row := FindSwapId(rows, id).value;
    var i :| 0 <= i < |rows| && rows[i] == row;
    assert Keyed(rows[i]) && row.evidenceHash != hash;
    HashTextInjective(EvidenceHash(ReadRow(row).value.pre), EvidenceHash(r.receipt.pre));
  }

  /** What is known is ignored when it comes again. */
  lemma KnownIsIgnored(rows: seq<Row>, r: Record)
    requires Known(rows, r) && r.receipt.pre.epoch.Some?
    ensures Saved(rows, r).1 == Ok(false)
  {
    hide HashText, ReadRow, EvidenceHash, FindHash;
  }

  /* The file */

  lemma {:induction false} RecordsAppend(a: seq<seq<byte>>, b: seq<seq<byte>>)
    ensures RecordsOf(a + b) == RecordsOf(a) + RecordsOf(b)
    decreases |b|
  {
    hide ParseLine;
    if b == [] {
      assert a + b == a;
    } else {
      assert (a + b)[..|a + b| - 1] == a + b[..|b| - 1];
      RecordsAppend(a, b[..|b| - 1]);
    }
  }

  /** Saving scan by scan is saving what all scans hand over. */
  lemma ScanByScan(st: TailState, contents: seq<seq<byte>>, rows: seq<Row>)
    requires contents != []
    ensures var (next, lines) := Scan(st, contents[0]);
            SaveAll(rows, RecordsOf(ScanAll(st, contents).1))
            == SaveAll(SaveAll(rows, RecordsOf(lines)), RecordsOf(ScanAll(next, contents[1..]).1))
  {
    hide Scan, RecordsOf, SaveAll;
    var (next, lines) := Scan(st, contents[0]);
    var more := ScanAll(next, contents[1..]).1;
    RecordsAppend(lines, more);
    SaveAllAppend(rows, RecordsOf(lines), RecordsOf(more));
  }

  /**
   * After any schedule of scans of a growing file: the receipt of every complete line that is not blank
   * and parses is known to the vault, unless its swap id belongs to another receipt.
   */
  lemma WrittenIsKnown(
    contents: seq<seq<byte>>, before: seq<byte>, line: seq<byte>, after: seq<byte>, j: NdjsonReceipt, r: Record)
    requires contents != [] && Grows(contents) && HoldsLine(contents[|contents| - 1], before, line, after)
    requires !BlankLine(line) && DecodeJson(line) == Some(j) && ToRecord(j) == Ok(r)
    ensures var rows := SaveAll([], RecordsOf(ScanAll(Fresh, contents).1));
            Known(rows, r) || Taken(rows, r)
  {
    hide ToRecord, Known, Taken, SaveAll, ScanAll, RecordsOf, NonBlank, Lines, Grows, HoldsLine, Fresh;
    var lines := Lines(contents[|contents| - 1]).0;
    LineListed(contents[|contents| - 1], before, line, after);
    ShownIfNotBlank(lines, line);
    TailingIsBatch(contents);
    RecordedIfParsed(NonBlank(lines), line, j, r);
    RecordIsParsed(j);
    assert [r][0].receipt.pre.epoch.Some?;
    SavedIsKnown(RecordsOf(NonBlank(lines)), r);
  }

  /**
   * From the mix node to the court: a receipt emitted for a failed forward and written to the file is
   * answered, whatever the schedule of scans, or hashes collide, or its swap id belongs to another one.
   */
  lemma EmittedIsAnswered(
    contents: seq<seq<byte>>, before: seq<byte>, line: seq<byte>, after: seq<byte>, req: Request, accused: Address,
    hopIndex: int, peeled: Hash32, forward: Hash32, nextHop: Hash32, deadline: nat)
    returns (r: Record)
    requires contents != [] && Grows(contents) && HoldsLine(contents[|contents| - 1], before, line, after)
    requires Coordinated(req) && !Blank(req.epochId) && 0 <= hopIndex <= 255
    requires !BlankLine(line)
    requires DecodeJson(line)
          == Some(Emit(req.epochId, req.accuser, req.swapId, accused, hopIndex, peeled, forward, nextHop))
    requires 0 <= EpochOf(req).value < Pow256(32) && deadline < Pow256(32)
    ensures r.receipt.pre == Preimage(EpochOf(req), AddressOf(req.accuser).value, accused, hopIndex, peeled, forward)
    ensures r.swapId == TrimSpace(req.swapId) && OnChain(r.receipt)
    ensures var records := RecordsOf(ScanAll(Fresh, contents).1);
            Answered(records, r, deadline) || Taken(SaveAll([], records), r)
  {
    hide ToRecord, Known, Taken, SaveAll, ScanAll, RecordsOf, Grows, HoldsLine, Fresh, Emit, AddressOf, TrimSpace,
      Answered, Parsed, Saved, EpochOf, Coordinated;
    CoordinatedEpoch(req);
    EmittedParses(req, accused, hopIndex, peeled, forward, nextHop);
    var j := Emit(req.epochId, req.accuser, req.swapId, accused, hopIndex, peeled, forward, nextHop);
    r := ToRecord(j).value;
    WrittenIsKnown(contents, before, line, after, j, r);
    var records := RecordsOf(ScanAll(Fresh, contents).1);
    if Known(SaveAll([], records), r) {
      KnownIsIgnored(SaveAll([], records), r);
      RecordsAreParsed(ScanAll(Fresh, contents).1);
      VaultAnswers(records, r, deadline);
    }
  }

  lemma CoordinatedEpoch(req: Request)
    requires Coordinated(req) && !Blank(req.epochId)
    ensures EpochOf(req).Some? && AddressOf(req.accuser).Some?
  {
  }
}
