/** Text helpers shared by the relay: Python's notion of whitespace,
    `str.strip()`, the `in` operator on strings and the decimal rendering
    of integers used inside f-strings. */
module Strings {

  datatype Option<+T> = None | Some(value: T)

  /** The characters Python's `str.isspace()` accepts. `str.strip()` with no
      argument and the regular-expression class `\s` on a `str` pattern use
      the same set. */
  predicate IsSpace(c: char) {
    var n := c as int;
    (0x09 <= n <= 0x0D) || (0x1C <= n <= 0x20) || n == 0x85 || n == 0xA0
    || n == 0x1680 || (0x2000 <= n <= 0x200A) || n == 0x2028 || n == 0x2029
    || n == 0x202F || n == 0x205F || n == 0x3000
  }

  /** `s` neither starts nor ends with whitespace. */
  predicate Trimmed(s: string) {
    |s| > 0 ==> !IsSpace(s[0]) && !IsSpace(s[|s| - 1])
  }

  /** `s.lstrip()`: the longest suffix of `s` that does not start with whitespace. */
  function TrimLeft(s: string): (r: string)
    ensures |r| <= |s| && r == s[|s| - |r|..]
    ensures forall k :: 0 <= k < |s| - |r| ==> IsSpace(s[k])
    ensures |r| > 0 ==> !IsSpace(r[0])
  {
    if |s| > 0 && IsSpace(s[0]) then TrimLeft(s[1..]) else s
  }

  /** `s.rstrip()`: the longest prefix of `s` that does not end with whitespace. */
  function TrimRight(s: string): (r: string)
    ensures |r| <= |s| && r == s[..|r|]
    ensures forall k :: |r| <= k < |s| ==> IsSpace(s[k])
    ensures |r| > 0 ==> !IsSpace(r[|r| - 1])
  {
    if |s| > 0 && IsSpace(s[|s| - 1]) then TrimRight(s[..|s| - 1]) else s
  }

  /** Every character of `s` is whitespace. */
  predicate AllSpace(s: string) {
    forall k :: 0 <= k < |s| ==> IsSpace(s[k])
  }

  /** `r` is the slice of `s` starting at `i`, and everything of `s` outside
      that slice is whitespace. */
  predicate StrippedAt(s: string, r: string, i: int) {
    0 <= i <= |s| - |r| && r == s[i..i + |r|]
    && AllSpace(s[..i]) && AllSpace(s[i + |r|..])
  }

  /** Where the slice kept by `Strip` starts: after the leading whitespace. */
  function StripStart(s: string): nat {
    |s| - |TrimLeft(s)|
  }

  /** `s.strip()`: the slice of `s` starting at `StripStart(s)` left after
      removing the whitespace at both ends; everything removed is whitespace. */
  function Strip(s: string): (r: string)
    ensures Trimmed(r)
    ensures StrippedAt(s, r, StripStart(s))
  {
    var t := TrimLeft(s);
    var r := TrimRight(t);
    LeadingSpace(s);
    TrailingSpace(t);
    StripSlice(s, t, r, |s| - |t|);
    r
  }

  /** Removing whitespace from the front and then from the back of `s`
      leaves a slice of `s` with only whitespace around it. */
  lemma StripSlice(s: string, t: string, r: string, i: nat)
    requires i <= |s| && t == s[i..] && AllSpace(s[..i])
    requires |r| <= |t| && r == t[..|r|] && AllSpace(t[|r|..])
    ensures StrippedAt(s, r, i)
  {
    assert s[i..][..|r|] == s[i..i + |r|];
    assert s[i..][|r|..] == s[i + |r|..];
  }

  lemma LeadingSpace(s: string)
    ensures AllSpace(s[..|s| - |TrimLeft(s)|])
  {
    var head := s[..|s| - |TrimLeft(s)|];
    assert forall k :: 0 <= k < |head| ==> head[k] == s[k];
  }

  lemma TrailingSpace(t: string)
    ensures AllSpace(t[|TrimRight(t)|..])
  {
    var n := |TrimRight(t)|;
    var tail := t[n..];
    assert forall k :: 0 <= k < |tail| ==> tail[k] == t[n + k];
  }

  /** `Strip` only removes characters. */
  lemma StripKeepsChars(s: string)
    ensures forall c :: c in Strip(s) ==> c in s
  {
    var r := Strip(s);
    var i := StripStart(s);
    assert StrippedAt(s, r, i);
    SliceKeepsChars(s, i, i + |r|);
  }

  /** A slice holds no character its string does not. */
  lemma SliceKeepsChars(s: string, i: nat, j: nat)
    requires i <= j <= |s|
    ensures forall c :: c in s[i..j] ==> c in s
  {
    forall c | c in s[i..j] ensures c in s {
      var k :| 0 <= k < j - i && s[i..j][k] == c;
      assert s[i + k] == c;
    }
  }

  /** Stripping a string that has no whitespace at either end changes nothing. */
  lemma {:induction false} StripTrimmed(s: string)
    requires Trimmed(s)
    ensures Strip(s) == s
  {
    assert TrimLeft(s) == s;
    assert TrimRight(s) == s;
  }

  /** Python's `pat in s` on strings. */
  predicate Contains(s: string, pat: string) {
    exists i | 0 <= i <= |s| - |pat| :: MatchesAt(s, pat, i)
  }

  /** `pat` occurs in `s` starting at index `i`. */
  predicate MatchesAt(s: string, pat: string, i: int) {
    0 <= i <= |s| - |pat| && s[i..i + |pat|] == pat
  }

  /** Whatever stands around an occurrence of `pat`, the string contains it. */
  lemma ContainsInfix(a: string, pat: string, b: string)
    ensures Contains(a + pat + b, pat)
  {
    var s := a + pat + b;
    assert s[|a|..|a| + |pat|] == pat;
    assert MatchesAt(s, pat, |a|);
  }

  /** A string without the digit 3 does not contain "503". */
  lemma NoThreeNo503(s: string)
    requires '3' !in s
    ensures !Contains(s, "503")
  {
    forall i | 0 <= i <= |s| - 3 ensures !MatchesAt(s, "503", i) {
      assert s[i..i + 3][2] == s[i + 2] && s[i + 2] in s;
    }
  }

  function Digit(d: nat): (c: char)
    requires d < 10
  {
    "0123456789"[d]
  }

  /** Decimal digits of `n`, as `str(n)` gives them. */
  function NatToString(n: nat): (r: string)
    ensures |r| > 0
    ensures forall k :: 0 <= k < |r| ==> '0' <= r[k] <= '9'
    ensures |r| > 1 ==> r[0] != '0'
  {
    if n < 10 then [Digit(n)] else NatToString(n / 10) + [Digit(n % 10)]
  }

  /** The value a string of decimal digits denotes. */
  function DecimalValue(s: string): nat
    requires forall k :: 0 <= k < |s| ==> '0' <= s[k] <= '9'
  {
    if s == [] then 0
    else DecimalValue(s[..|s| - 1]) * 10 + (s[|s| - 1] as int - '0' as int)
  }

  /** Reading back the digits of `n` gives `n`. */
  lemma {:induction false} NatToStringRoundTrip(n: nat)
    ensures DecimalValue(NatToString(n)) == n
  {
    var r := NatToString(n);
    if n >= 10 {
      NatToStringRoundTrip(n / 10);
      assert r[..|r| - 1] == NatToString(n / 10);
    }
  }

  /** `str(i)` for any integer, with a leading minus sign when negative. */
  function IntToString(i: int): (r: string)
    ensures |r| > 0
    ensures (r[0] == '-') <==> i < 0
    ensures var digits := if i < 0 then r[1..] else r;
            |digits| > 0
            && (forall k :: 0 <= k < |digits| ==> '0' <= digits[k] <= '9')
            && (|digits| > 1 ==> digits[0] != '0')
            && DecimalValue(digits) == if i < 0 then -i else i
  {
    var n := if i < 0 then -i else i;
    NatToStringRoundTrip(n);
    if i < 0 then
      assert ("-" + NatToString(n))[1..] == NatToString(n);
      "-" + NatToString(n)
    else NatToString(n)
  }
}
