/** Hop receipts as text: what a mix node writes when forwarding fails, and what the bridge reads. */
module Receipts {
  import opened Wrappers
  import opened Bytes
  import opened Text
  import opened MlnRoute
  import opened Evidence

  /** A receipt to be kept, with the swap it belongs to, if known. */
  datatype Record = Record(receipt: Receipt, swapId: string)

  datatype NdjsonReceipt = NdjsonReceipt(
    epochId: string, accuser: string, accusedMaker: string, hopIndex: int,
    peeledCommitment: string, forwardCiphertextHash: string, nextHopPubkey: string, signature: string, swapId: string)

  datatype FieldError = BadEpoch | BadHopIndex | BadAddress | BadHash | MissingField

  function LowerChar(c: char): char {
    if 'A' <= c <= 'Z' then (c as int - 'A' as int + 'a' as int) as char else c
  }

  /** `strings.ToLower` on ASCII; no other letter turns into a hexadecimal digit. */
  function ToLower(s: string): (t: string)
    ensures |t| == |s| && forall i :: 0 <= i < |s| ==> t[i] == LowerChar(s[i])
  {
    seq(|s|, i requires 0 <= i < |s| => LowerChar(s[i]))
  }

  function StripPrefix(s: string): string {
    if |s| >= 2 && s[0] == '0' && s[1] == 'x' then s[2..] else s
  }

  /** `parseBytes32Field`. */
  function ParseBytes32(s: string): Option<Hash32> {
    var t := StripPrefix(TrimSpace(ToLower(s)));
    if |t| == 64 && AllHex(t) then Some(HexDecode(t).value) else None
  }

  /** `toRecord`: the checks in their order. */
  function ToRecord(j: NdjsonReceipt): Result<Record, FieldError> {
    var epoch := ParseDecimal(TrimSpace(j.epochId));
    if epoch.None? || epoch.value < 0 then Err(BadEpoch)
    else if j.hopIndex < 0 || j.hopIndex > 255 then Err(BadHopIndex)
    else if AddressOf(j.accuser).None? || AddressOf(j.accusedMaker).None? then Err(BadAddress)
    else if ParseBytes32(j.peeledCommitment).None? || ParseBytes32(j.forwardCiphertextHash).None? then Err(BadHash)
    else if TrimSpace(j.nextHopPubkey) == [] || TrimSpace(j.signature) == [] then Err(MissingField)
    else
      Ok(Record(
           Receipt(Preimage(epoch, AddressOf(j.accuser).value, AddressOf(j.accusedMaker).value, j.hopIndex,
                            ParseBytes32(j.peeledCommitment).value, ParseBytes32(j.forwardCiphertextHash).value),
                   TrimSpace(j.nextHopPubkey), TrimSpace(j.signature)),
           TrimSpace(j.swapId)))
  }

  /** The address with its mixed-case checksum: hexadecimal in which some letters are upper case. */
  ghost predicate Checksums(f: Address -> string, a: Address) {
    SameHex(f(a), HexEncode(a))
  }

  type AddressWriter = f: Address -> string | forall a :: Checksums(f, a)
    witness ((a: Address) => HexEncode(a))

  const checksum: AddressWriter

  /** `Address.Hex`. */
  function AddressText(a: Address): string { "0x" + checksum(a) }

  /** `Hash.Hex`. */
  function HashText(h: Hash32): string { "0x" + HexEncode(h) }

  lemma AddressTextParses(a: Address, digits: string)
    requires SameHex(digits, HexEncode(a))
    ensures AddressOf("0x" + digits) == Some(a)
  {
    CaseIgnored(digits, HexEncode(a));
    HexReadsBack(a);
    var s := "0x" + digits;
    assert !IsSpace(s[0]) && IsHex(s[|s| - 1]);
    assert s[2..] == digits;
  }

  lemma ChecksumParses(a: Address)
    ensures AddressOf(AddressText(a)) == Some(a)
    ensures AddressOf(ToLower(AddressText(a))) == Some(a)
  {
    hide AddressOf, SameHex, HexEncode;
    assert Checksums(checksum, a);
    AddressTextParses(a, checksum(a));
    LowerSame(checksum(a), HexEncode(a));
    LowerPrefix(checksum(a));
    AddressTextParses(a, ToLower(checksum(a)));
  }

  lemma LowerPrefix(s: string)
    ensures ToLower("0x" + s) == "0x" + ToLower(s)
  {
  }

  lemma LowerSame(mixed: string, lower: string)
    requires SameHex(mixed, lower)
    ensures SameHex(ToLower(mixed), lower)
  {
  }

  lemma HashTextParses(h: Hash32)
    ensures ParseBytes32(HashText(h)) == Some(h)
  {
    HexReadsBack(h);
    var s := HashText(h);
    LowerStays(HexEncode(h));
    assert ToLower(s) == s;
    assert !IsSpace(s[0]) && IsHex(s[|s| - 1]);
    assert s[2..] == HexEncode(h);
  }

  /** The prefix may be missing. */
  lemma PlainHashParses(h: Hash32)
    ensures ParseBytes32(HexEncode(h)) == Some(h)
  {
    hide HexEncode, HexDecode, TrimSpace;
    HexReadsBack(h);
    var s := HexEncode(h);
    LowerStays(s);
    assert IsLowerHex(s[0]) && IsLowerHex(s[1]) && IsLowerHex(s[63]);
    PlainStays(s);
  }

  lemma LowerStays(s: string)
    requires AllLowerHex(s)
    ensures ToLower(s) == s
  {
  }

  /* The writer */

  const Sentinel: string := "unsigned-swap-forward-failure-v1"

  /** `MarshalSwapForwardFailureReceipt`, before the JSON encoding. */
  function Emit(
    epochId: string, accuser: string, swapId: string, accused: Address, hopIndex: int,
    peeled: Hash32, forward: Hash32, nextHop: Hash32): NdjsonReceipt
  {
    var acc := TrimSpace(accuser);
    NdjsonReceipt(
      TrimSpace(epochId), if Prefixed(acc) then acc else "0x" + acc, ToLower(AddressText(accused)), hopIndex,
      HashText(peeled), HashText(forward), HexEncode(nextHop), Sentinel, TrimSpace(swapId))
  }

  predicate Prefixed(s: string) { |s| >= 2 && s[0] == '0' && (s[1] == 'x' || s[1] == 'X') }

  lemma PrefixDoesNotMatter(accuser: string)
    requires AddressOf(accuser).Some?
    ensures var acc := TrimSpace(accuser);
            AddressOf(if Prefixed(acc) then acc else "0x" + acc) == AddressOf(accuser)
  {
    var acc := TrimSpace(accuser);
    TrimTwice(accuser);
    if !Prefixed(acc) {
      var s := "0x" + acc;
      assert !IsSpace(s[0]) && IsHex(acc[|acc| - 1]);
      assert s[2..] == acc;
    }
  }

  lemma PlainStays(s: string)
    requires s != [] && !IsSpace(s[0]) && !IsSpace(s[|s| - 1])
    ensures TrimSpace(s) == s
  {
  }

  /**
   * What the node writes, the bridge reads: for every route with coordination data that the request
   * validator accepts, the receipt of a failed forward at any hop parses, with the epoch and accuser
   * that the route named, the accused operator, both hashes and the trimmed swap id.
   */
  lemma EmittedParses(req: Request, accused: Address, hopIndex: int, peeled: Hash32, forward: Hash32, nextHop: Hash32)
    requires Coordinated(req) && !Blank(req.epochId) && 0 <= hopIndex <= 255
    ensures var j := Emit(req.epochId, req.accuser, req.swapId, accused, hopIndex, peeled, forward, nextHop);
            && j.peeledCommitment == HashText(peeled) && j.forwardCiphertextHash == HashText(forward)
            && j.accusedMaker == ToLower(AddressText(accused)) && j.hopIndex == hopIndex
            && j.nextHopPubkey == HexEncode(nextHop) && j.signature == Sentinel
            && ToRecord(j) == Ok(Record(
              Receipt(Preimage(EpochOf(req), AddressOf(req.accuser).value, accused, hopIndex, peeled, forward),
                      HexEncode(nextHop), Sentinel),
              TrimSpace(req.swapId)))
  {
    hide TrimSpace, AddressOf, ParseBytes32, ParseDecimal, HashText, AddressText, ToLower, UniformKeys, HasTor,
      Fees, HasOperator;
    TrimTwice(req.epochId);
    TrimTwice(req.swapId);
    PrefixDoesNotMatter(req.accuser);
    ChecksumParses(accused);
    HashTextParses(peeled);
    HashTextParses(forward);
    assert IsLowerHex(HexEncode(nextHop)[0]) && IsLowerHex(HexEncode(nextHop)[63]);
    PlainStays(HexEncode(nextHop));
    PlainStays(Sentinel);
  }
}
