/** String rules shared by the scripts: lower-casing, keyword search in a
    column name, file-name sanitisation, and decimal rendering and parsing of
    numbers. */
module Text {
  import opened Wrappers

  // ---------------------------------------------------------------------
  // Lower-casing and keyword search
  // ---------------------------------------------------------------------

  function LowerChar(c: char): char {
    if 'A' <= c <= 'Z' then (c as int + 32) as char else c
  }

  /** `str.lower()` on the ASCII letters. */
  function Lower(s: string): (r: string)
    ensures |r| == |s|
    ensures forall i :: 0 <= i < |r| ==> !('A' <= r[i] <= 'Z')
  {
    seq(|s|, i requires 0 <= i < |s| => LowerChar(s[i]))
  }

  /** Lower-casing leaves no upper-case ASCII letter and is idempotent. */
  lemma LowerIsLower(s: string)
    ensures |Lower(s)| == |s|
    ensures forall i :: 0 <= i < |s| ==> !('A' <= Lower(s)[i] <= 'Z')
    ensures Lower(Lower(s)) == Lower(s)
  {
  }

  /** `k in s` for strings: `k` occurs in `s` as a contiguous substring. */
  predicate ContainsSub(s: string, k: string)
    decreases |s|
  {
    if |k| > |s| then false
    else s[..|k|] == k || (|s| > 0 && ContainsSub(s[1..], k))
  }

  /** `k` occurs in `s` starting at position `i`. */
  predicate OccursAt(s: string, k: string, i: int) {
    0 <= i <= |s| - |k| && s[i..i + |k|] == k
  }

  /** The recursive search agrees with the definition by positions, in both
      directions. */
  lemma {:induction false} ContainsSubAt(s: string, k: string)
    ensures ContainsSub(s, k) <==> exists i :: OccursAt(s, k, i)
    decreases |s|
  {
    if |k| > |s| {
    } else if s[..|k|] == k {
      assert OccursAt(s, k, 0);
    } else {
      assert |k| > 0;
      ContainsSubAt(s[1..], k);
      if ContainsSub(s, k) {
        var i :| OccursAt(s[1..], k, i);
        assert s[i + 1..i + 1 + |k|] == s[1..][i..i + |k|];
        assert OccursAt(s, k, i + 1);
      }
      if exists i :: OccursAt(s, k, i) {
        var i :| OccursAt(s, k, i);
        assert i != 0;
        assert s[1..][i - 1..i - 1 + |k|] == s[i..i + |k|];
        assert OccursAt(s[1..], k, i - 1);
      }
    }
  }

  /** A pattern holding a character the text lacks does not occur in it. */
  lemma AbsentCharNotContained(s: string, k: string, c: char)
    requires c in k && c !in s
    ensures !ContainsSub(s, k)
  {
    ContainsSubAt(s, k);
  }

  /** `any(k in name.lower() for k in keys)`. */
  predicate NameHasKeyword(name: string, keys: seq<string>) {
    exists k :: k in keys && ContainsSub(Lower(name), k)
  }

  // ---------------------------------------------------------------------
  // File-name sanitisation: name.replace(" ", "_").replace("/", "-")
  // ---------------------------------------------------------------------

  function ReplaceChar(s: string, a: char, b: char): string {
    seq(|s|, i requires 0 <= i < |s| => if s[i] == a then b else s[i])
  }

  /** The file-name stem written by the plot and HTML savers. */
  function SafeName(name: string): (r: string)
    ensures |r| == |name|
    ensures ' ' !in r && '/' !in r
  {
    ReplaceChar(ReplaceChar(name, ' ', '_'), '/', '-')
  }

  /** A sanitised name has the input's length, contains no space and no
      slash, and differs from the input only where those two characters were. */
  lemma SafeNameShape(name: string)
    ensures |SafeName(name)| == |name|
    ensures ' ' !in SafeName(name) && '/' !in SafeName(name)
    ensures forall i :: 0 <= i < |name| ==>
      SafeName(name)[i] == (if name[i] == ' ' then '_' else if name[i] == '/' then '-' else name[i])
  {
  }

  /** Sanitising twice is the same as sanitising once. */
  lemma SafeNameIdempotent(name: string)
    ensures SafeName(SafeName(name)) == SafeName(name)
  {
    SafeNameShape(name);
    SafeNameShape(SafeName(name));
  }

  // ---------------------------------------------------------------------
  // Decimal numbers
  // ---------------------------------------------------------------------

  predicate IsDigit(c: char) {
    '0' <= c <= '9'
  }

  predicate AllDigits(s: string) {
    forall i :: 0 <= i < |s| ==> IsDigit(s[i])
  }

  function DigitChar(d: nat): char
    requires d < 10
  {
    ('0' as int + d) as char
  }

  /** Value of a string of decimal digits, most significant first. */
  function DigitsValue(s: string): nat
    requires AllDigits(s)
    decreases |s|
  {
    if s == [] then 0
    else 10 * DigitsValue(s[..|s| - 1]) + (s[|s| - 1] as int - '0' as int)
  }

  function Pow10(n: nat): (p: nat)
    ensures p >= 1
  {
    if n == 0 then 1 else 10 * Pow10(n - 1)
  }

  /** Decimal rendering of a natural number (Python `str(n)`). */
  function NatToString(n: nat): (s: string)
    ensures |s| > 0 && AllDigits(s)
    decreases n
  {
    if n < 10 then [DigitChar(n)] else NatToString(n / 10) + [DigitChar(n % 10)]
  }

  /** Decimal rendering of an integer, with a leading minus when negative. */
  function IntToString(n: int): (s: string)
    ensures |s| > 0
  {
    if n < 0 then "-" + NatToString(-n) else NatToString(n)
  }

  /** Reading back the digits of `n` gives `n`. */
  lemma {:induction false} NatToStringValue(n: nat)
    ensures DigitsValue(NatToString(n)) == n
    decreases n
  {
    if n >= 10 {
      NatToStringValue(n / 10);
      var s := NatToString(n);
      assert s[..|s| - 1] == NatToString(n / 10);
    }
  }

  function IndexOf(s: string, c: char): (i: nat)
    requires c in s
    ensures i < |s| && s[i] == c && c !in s[..i]
  {
    if s[0] == c then 0 else 1 + IndexOf(s[1..], c)
  }

  /** An unsigned decimal: digits, optionally one `.` followed by digits, with
      at least one digit in all. */
  function ParseUnsigned(s: string): (r: Option<real>)
    ensures r.Some? ==> |s| > 0 && forall i :: 0 <= i < |s| ==> IsDigit(s[i]) || s[i] == '.'
    ensures r.Some? ==> r.value >= 0.0
  {
    if '.' in s then
      var i := IndexOf(s, '.');
      var whole, frac := s[..i], s[i + 1..];
      if AllDigits(whole) && AllDigits(frac) && |whole| + |frac| > 0 then
        assert forall j :: 0 <= j < |s| && j != i ==> IsDigit(s[j]) by {
          forall j | 0 <= j < |s| && j != i ensures IsDigit(s[j]) {
            if j < i { assert s[j] == whole[j]; } else { assert s[j] == frac[j - i - 1]; }
          }
        }
        Some(DigitsValue(whole) as real + DigitsValue(frac) as real / Pow10(|frac|) as real)
      else None
    else if |s| > 0 && AllDigits(s) then Some(DigitsValue(s) as real)
    else None
  }

  /** `pd.to_numeric(s, errors="coerce")` on a string made of digits, `.`
      and `-`: an optional leading minus and an unsigned decimal; anything
      else (including the empty string) is missing. */
  function ParseNumber(s: string): (r: Option<real>)
    ensures r.Some? ==> |s| > 0
    ensures r.Some? ==> forall i :: 0 <= i < |s| ==> IsDigit(s[i]) || s[i] == '.' || (i == 0 && s[i] == '-')
    ensures r.Some? && r.value < 0.0 ==> s[0] == '-'
  {
    if |s| > 0 && s[0] == '-' then
      match ParseUnsigned(s[1..])
      case Some(v) =>
        assert forall i :: 1 <= i < |s| ==> s[i] == s[1..][i - 1];
        Some(-v)
      case None => None
    else ParseUnsigned(s)
  }

  /** A string that `to_numeric` reads as an integer (no decimal point). */
  predicate IsIntegerLiteral(s: string) {
    ParseNumber(s).Some? && '.' !in s
  }

  /** A string that parses as a number and has no decimal point denotes an
      integer. */
  lemma IntegerLiteralIntegral(s: string)
    requires IsIntegerLiteral(s)
    ensures ParseNumber(s).value.Floor as real == ParseNumber(s).value
  {
    var k := IntegerLiteralValue(s);
    assert (k as real).Floor == k;
  }

  /** The integer an integer literal denotes. */
  function IntegerLiteralValue(s: string): (k: int)
    requires IsIntegerLiteral(s)
    ensures ParseNumber(s) == Some(k as real)
  {
    if |s| > 0 && s[0] == '-' then
      var t := s[1..];
      assert '.' !in t by {
        forall i | 0 <= i < |t| ensures t[i] != '.' {
          assert t[i] == s[i + 1];
        }
      }
      -(DigitsValue(t) as int)
    else
      DigitsValue(s)
  }

  lemma NatToStringNoDot(n: nat)
    ensures '.' !in NatToString(n) && NatToString(n)[0] != '-'
  {
    var s := NatToString(n);
    assert IsDigit(s[0]);
  }

  /** Parsing the decimal rendering of an integer gives the integer back,
      and the rendering is an integer literal. */
  lemma IntToStringRoundTrip(n: int)
    ensures ParseNumber(IntToString(n)) == Some(n as real)
    ensures IsIntegerLiteral(IntToString(n))
  {
    if n < 0 {
      NatToStringValue(-n);
      NatToStringNoDot(-n);
      var s := IntToString(n);
      assert s[1..] == NatToString(-n);
      assert '.' !in s;
    } else {
      NatToStringValue(n);
      NatToStringNoDot(n);
    }
  }
}
