/** Text as the validators and the vault read and write it: trimming, hexadecimal, decimal. */
module Text {
  import opened Wrappers
  import opened Bytes

  /** `unicode.IsSpace`. */
  predicate IsSpace(c: char) {
    || '\t' <= c <= '\r' || c == ' '
    || c == '\U{0085}' || c == '\U{00A0}' || c == '\U{1680}' || '\U{2000}' <= c <= '\U{200A}'
    || c == '\U{2028}' || c == '\U{2029}' || c == '\U{202F}' || c == '\U{205F}' || c == '\U{3000}'
  }

  /** `strings.TrimSpace`. */
  function TrimSpace(s: string): (t: string)
    ensures t == [] || (!IsSpace(t[0]) && !IsSpace(t[|t| - 1]))
    ensures |t| <= |s|
  {
    if s == [] then []
    else if IsSpace(s[0]) then TrimSpace(s[1..])
    else if IsSpace(s[|s| - 1]) then TrimSpace(s[..|s| - 1])
    else s
  }

  /** What is trimmed stays as it is when trimmed again. */
  lemma TrimTwice(s: string)
    ensures TrimSpace(TrimSpace(s)) == TrimSpace(s)
  {
    var t := TrimSpace(s);
    assert t == [] || (!IsSpace(t[0]) && !IsSpace(t[|t| - 1]));
  }

  /* Hexadecimal */

  predicate IsLowerHex(c: char) { '0' <= c <= '9' || 'a' <= c <= 'f' }

  predicate IsHex(c: char) { IsLowerHex(c) || 'A' <= c <= 'F' }

  predicate AllHex(s: string) { forall i :: 0 <= i < |s| ==> IsHex(s[i]) }

  predicate AllLowerHex(s: string) { forall i :: 0 <= i < |s| ==> IsLowerHex(s[i]) }

  type Nibble = x: int | 0 <= x < 16

  function NibbleOf(c: char): Nibble
    requires IsHex(c)
  {
    if '0' <= c <= '9' then c as int - '0' as int
    else if 'a' <= c <= 'f' then c as int - 'a' as int + 10
    else c as int - 'A' as int + 10
  }

  function LowerDigit(d: Nibble): (c: char)
    ensures IsLowerHex(c) && NibbleOf(c) == d
  {
    if d < 10 then ('0' as int + d) as char else ('a' as int + d - 10) as char
  }

  /** `hex.EncodeToString`. */
  function HexEncode(s: seq<byte>): (t: string)
    ensures |t| == 2 * |s| && AllLowerHex(t)
  {
    if s == [] then []
    else [LowerDigit(s[0] / 16), LowerDigit(s[0] % 16)] + HexEncode(s[1..])
  }

  /** Byte i is written as its two digits, the upper one first. */
  lemma {:induction false} HexAt(s: seq<byte>, i: nat)
    requires i < |s|
    ensures NibbleOf(HexEncode(s)[2 * i]) == s[i] / 16 && NibbleOf(HexEncode(s)[2 * i + 1]) == s[i] % 16
  {
    if i > 0 {
      HexAt(s[1..], i - 1);
    }
  }

  /** `hex.DecodeString`. */
  function HexDecode(t: string): (r: Option<seq<byte>>)
    ensures r.Some? <==> |t| % 2 == 0 && AllHex(t)
    ensures r.Some? ==> 2 * |r.value| == |t|
  {
    if t == [] then Some([])
    else if |t| == 1 || !IsHex(t[0]) || !IsHex(t[1]) then None
    else
      var rest := HexDecode(t[2..]);
      assert AllHex(t) ==> AllHex(t[2..]);
      assert AllHex(t[2..]) ==> AllHex(t) by {
        assert forall i :: 2 <= i < |t| ==> t[i] == t[2..][i - 2];
      }
      if rest.None? then None else Some([NibbleOf(t[0]) * 16 + NibbleOf(t[1])] + rest.value)
  }

  /** Bytes written as hexadecimal read back. */
  lemma {:induction false} HexReadsBack(s: seq<byte>)
    ensures HexDecode(HexEncode(s)) == Some(s)
  {
    if s != [] {
      HexReadsBack(s[1..]);
      var t := HexEncode(s);
      assert t[2..] == HexEncode(s[1..]);
      assert NibbleOf(t[0]) == s[0] / 16 && NibbleOf(t[1]) == s[0] % 16;
      assert [s[0]] + s[1..] == s;
    }
  }

  /** `upper` is `lower` with some of the letters in upper case, as the address checksum writes them. */
  predicate SameHex(mixed: string, lower: string) {
    && |mixed| == |lower|
    && AllLowerHex(lower)
    && forall i :: 0 <= i < |mixed| ==> IsHex(mixed[i]) && NibbleOf(mixed[i]) == NibbleOf(lower[i])
  }

  /** The case of the letters does not matter when hexadecimal is read. */
  lemma {:induction false} CaseIgnored(mixed: string, lower: string)
    requires SameHex(mixed, lower)
    ensures HexDecode(mixed) == HexDecode(lower)
  {
    if |mixed| >= 2 {
      CaseIgnored(mixed[2..], lower[2..]);
    }
  }

  lemma SameNibble(c: char, d: char)
    requires IsLowerHex(c) && IsLowerHex(d) && NibbleOf(c) == NibbleOf(d)
    ensures c == d
  {
  }

  /** Lower-case hexadecimal is written again as it was read. */
  lemma {:induction false} HexWritesBack(t: string)
    requires AllLowerHex(t) && |t| % 2 == 0
    ensures HexDecode(t).Some? && HexEncode(HexDecode(t).value) == t
  {
    if t != [] {
      HexWritesBack(t[2..]);
      var b := HexDecode(t).value;
      assert b[1..] == HexDecode(t[2..]).value;
      SameNibble(t[0], LowerDigit(b[0] / 16));
      SameNibble(t[1], LowerDigit(b[0] % 16));
      assert t == [t[0], t[1]] + t[2..];
    }
  }

  /* Decimal */

  predicate IsDigit(c: char) { '0' <= c <= '9' }

  predicate AllDigits(s: string) { forall i :: 0 <= i < |s| ==> IsDigit(s[i]) }

  /** `big.Int.String` of a number that is not negative. */
  function Decimal(n: nat): (s: string)
    ensures s != [] && AllDigits(s)
  {
    if n < 10 then [('0' as int + n) as char] else Decimal(n / 10) + [('0' as int + n % 10) as char]
  }

  function DigitsValue(s: string): nat
    requires AllDigits(s)
  {
    if s == [] then 0 else DigitsValue(s[..|s| - 1]) * 10 + (s[|s| - 1] as int - '0' as int)
  }

  /** `big.Int.SetString` with base 10: an optional sign and at least one digit. */
  function ParseDecimal(s: string): Option<int> {
    if s == [] then None
    else
      var digits := if s[0] == '+' || s[0] == '-' then s[1..] else s;
      if digits == [] || !AllDigits(digits) then None
      else
        var value: int := DigitsValue(digits);
        Some(if s[0] == '-' then 0 - value else value)
  }

  lemma {:induction false} DigitsReadBack(n: nat)
    ensures DigitsValue(Decimal(n)) == n
  {
    if n >= 10 {
      DigitsReadBack(n / 10);
      var s := Decimal(n);
      assert s[..|s| - 1] == Decimal(n / 10);
    }
  }

  /** A number written in decimal reads back. */
  lemma DecimalReadsBack(n: nat)
    ensures ParseDecimal(Decimal(n)) == Some(n)
  {
    DigitsReadBack(n);
    assert IsDigit(Decimal(n)[0]);
  }
}
