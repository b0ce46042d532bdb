/**
 * The few Python `str` operations the extractors rely on: `lower`, `strip`,
 * `startswith`, the `in` substring test, `isdigit` filtering, decimal
 * rendering of integers, and the leftmost match of the pattern `20\d{2}`.
 */
module Strings {
  import opened Wrappers

  /** Python's `str.isspace()`: every code point it accepts. */
  predicate IsSpace(ch: char) {
    || ch == ' '
    || ('\t' <= ch <= '\r')
    || ('\U{1C}' <= ch <= '\U{1F}')
    || ch == '\U{85}' || ch == '\U{A0}' || ch == '\U{1680}'
    || ('\U{2000}' <= ch <= '\U{200A}')
    || ch == '\U{2028}' || ch == '\U{2029}' || ch == '\U{202F}'
    || ch == '\U{205F}' || ch == '\U{3000}'
  }

  /** The characters the regular expression class `\d` is taken to match. */
  predicate IsAsciiDigit(ch: char) {
    '0' <= ch <= '9'
  }

  /**
   * Python's `str.isdigit()` on ASCII digits, the superscript and subscript
   * digits, the circled digits 1-9, the fullwidth digits and the decimal
   * digits of the Arabic, Devanagari, Bengali and Thai scripts.
   */
  predicate IsDigitChar(ch: char) {
    || IsAsciiDigit(ch)
    || ch == '\U{B2}' || ch == '\U{B3}' || ch == '\U{B9}' || ch == '\U{2070}'
    || ('\U{2074}' <= ch <= '\U{2079}')
    || ('\U{2080}' <= ch <= '\U{2089}')
    || ('\U{2460}' <= ch <= '\U{2468}')
    || ('\U{FF10}' <= ch <= '\U{FF19}')
    || ('\U{0660}' <= ch <= '\U{0669}')
    || ('\U{06F0}' <= ch <= '\U{06F9}')
    || ('\U{0966}' <= ch <= '\U{096F}')
    || ('\U{09E6}' <= ch <= '\U{09EF}')
    || ('\U{0E50}' <= ch <= '\U{0E59}')
  }

  function LowerChar(ch: char): char {
    if 'A' <= ch <= 'Z' then (ch as int + 32) as char else ch
  }

  /** `str.lower()` on ASCII letters. */
  function Lower(s: string): string {
    seq(|s|, i requires 0 <= i < |s| => LowerChar(s[i]))
  }

  function StripLeft(s: string): string {
    if |s| > 0 && IsSpace(s[0]) then StripLeft(s[1..]) else s
  }

  function StripRight(s: string): string {
    if |s| > 0 && IsSpace(s[|s| - 1]) then StripRight(s[..|s| - 1]) else s
  }

  /** `str.strip()` with no argument. */
  function Strip(s: string): string {
    StripRight(StripLeft(s))
  }

  /** `str.startswith(p)`. */
  predicate StartsWith(s: string, p: string) {
    |p| <= |s| && s[..|p|] == p
  }

  /** The pattern `p` sits in `s` at offset `i`. */
  predicate OccursAt(s: string, p: string, i: nat) {
    i + |p| <= |s| && s[i..i + |p|] == p
  }

  /** Python's `p in s`. */
  predicate Contains(s: string, p: string) {
    StartsWith(s, p) || (|s| > 0 && Contains(s[1..], p))
  }

  /** The leftmost offset at or after `i` where `p` occurs in `s` (`s.find(p, i)`). */
  function FindFrom(s: string, p: string, i: nat): (r: Option<nat>)
    decreases |s| - i
    ensures r.Some? ==> i <= r.value && OccursAt(s, p, r.value)
    ensures r.Some? ==> forall j: nat :: i <= j < r.value ==> !OccursAt(s, p, j)
    ensures r.None? ==> forall j: nat :: i <= j ==> !OccursAt(s, p, j)
  {
    if i + |p| > |s| then None
    else if OccursAt(s, p, i) then Some(i)
    else FindFrom(s, p, i + 1)
  }

  /** The characters of `s` that are not digits, in order (`"".join(ch for ch in s if not ch.isdigit())`). */
  function StripDigits(s: string): string {
    if |s| == 0 then ""
    else (if IsDigitChar(s[0]) then "" else [s[0]]) + StripDigits(s[1..])
  }

  /** Removing digits works character by character: text split in two is stripped part by part. */
  lemma {:induction false} StripDigitsAppend(a: string, b: string)
    ensures StripDigits(a + b) == StripDigits(a) + StripDigits(b)
    decreases |a|
  {
    if |a| == 0 {
      assert a + b == b;
    } else {
      assert (a + b)[0] == a[0];
      assert (a + b)[1..] == a[1..] + b;
      StripDigitsAppend(a[1..], b);
    }
  }

  /** A single character is dropped exactly when it is a digit and is kept otherwise. */
  lemma StripDigitsChar(ch: char)
    ensures StripDigits([ch]) == if IsDigitChar(ch) then "" else [ch]
  {
    assert [ch][1..] == "";
  }

  /** Removing digits leaves no digit behind, never lengthens the text and leaves digit-free text alone. */
  lemma {:induction false} StripDigitsSpec(s: string)
    ensures |StripDigits(s)| <= |s|
    ensures forall i :: 0 <= i < |StripDigits(s)| ==> !IsDigitChar(StripDigits(s)[i])
    ensures (forall i :: 0 <= i < |s| ==> !IsDigitChar(s[i])) ==> StripDigits(s) == s
  {
    if |s| > 0 {
      StripDigitsSpec(s[1..]);
      var head := if IsDigitChar(s[0]) then "" else [s[0]];
      var r := StripDigits(s);
      assert r == head + StripDigits(s[1..]);
      forall i | 0 <= i < |r| ensures !IsDigitChar(r[i]) {
        if i >= |head| {
          assert r[i] == StripDigits(s[1..])[i - |head|];
        }
      }
      if forall i :: 0 <= i < |s| ==> !IsDigitChar(s[i]) {
        assert forall i :: 0 <= i < |s[1..]| ==> !IsDigitChar(s[1..][i]) by {
          forall i | 0 <= i < |s[1..]| ensures !IsDigitChar(s[1..][i]) {
            assert s[1..][i] == s[i + 1];
          }
        }
        assert s == [s[0]] + s[1..];
      }
    }
  }

  /** A match of `20\d{2}` starts at offset `i` of `s`. */
  predicate YearAt(s: string, i: nat) {
    i + 4 <= |s| && s[i] == '2' && s[i + 1] == '0' && IsAsciiDigit(s[i + 2]) && IsAsciiDigit(s[i + 3])
  }

  function YearValueAt(s: string, i: nat): int
    requires YearAt(s, i)
  {
    2000 + 10 * (s[i + 2] as int - '0' as int) + (s[i + 3] as int - '0' as int)
  }

  /** The leftmost offset at or after `i` where `20\d{2}` matches. */
  function FirstYearFrom(s: string, i: nat): (r: Option<nat>)
    decreases |s| - i
    ensures r.Some? ==> i <= r.value && YearAt(s, r.value)
    ensures r.Some? ==> forall j: nat :: i <= j < r.value ==> !YearAt(s, j)
    ensures r.None? ==> forall j: nat :: i <= j ==> !YearAt(s, j)
  {
    if i + 4 > |s| then None
    else if YearAt(s, i) then Some(i)
    else FirstYearFrom(s, i + 1)
  }

  /**
   * The year named by the leftmost `20\d{2}` token of `s` (what
   * `re.search(r'(20\d{2})', s)` followed by `int(...)` yields), or None.
   */
  function YearToken(s: string): (r: Option<int>)
    ensures r.Some? <==> exists j: nat :: YearAt(s, j)
    ensures r.Some? ==> 2000 <= r.value <= 2099
    ensures r.Some? ==> exists j: nat :: YearAt(s, j) && r.value == YearValueAt(s, j)
                                         && forall k: nat :: k < j ==> !YearAt(s, k)
  {
    match FirstYearFrom(s, 0)
    case None => None
    case Some(j) => Some(YearValueAt(s, j))
  }

  function DigitChar(d: nat): char
    requires d < 10
  {
    ('0' as int + d) as char
  }

  function DigitValue(ch: char): nat
    requires IsAsciiDigit(ch)
  {
    ch as int - '0' as int
  }

  /** The decimal digits of `n`, most significant first. */
  function NatText(n: nat): (r: string)
    ensures |r| > 0
    ensures forall i :: 0 <= i < |r| ==> IsAsciiDigit(r[i])
  {
    if n < 10 then [DigitChar(n)] else NatText(n / 10) + [DigitChar(n % 10)]
  }

  /** `str(n)` for a Python int. */
  function IntText(n: int): string {
    if n < 0 then "-" + NatText(-n) else NatText(n)
  }

  // ---------------------------------------------------------------------
  // Lemmas about the helpers
  // ---------------------------------------------------------------------

  lemma {:induction false} OccursImpliesContains(s: string, p: string, i: nat)
    requires OccursAt(s, p, i)
    ensures Contains(s, p)
  {
    if i > 0 {
      assert s[1..][i - 1..i - 1 + |p|] == s[i..i + |p|];
      OccursImpliesContains(s[1..], p, i - 1);
    }
  }

  lemma {:induction false} ContainsImpliesOccurs(s: string, p: string)
    requires Contains(s, p)
    ensures exists i: nat :: OccursAt(s, p, i)
  {
    if StartsWith(s, p) {
      assert OccursAt(s, p, 0);
    } else {
      ContainsImpliesOccurs(s[1..], p);
      var i: nat :| OccursAt(s[1..], p, i);
      assert s[i + 1..i + 1 + |p|] == s[1..][i..i + |p|];
      assert OccursAt(s, p, i + 1);
    }
  }

  /** The recursive `in` test is the textbook "occurs at some offset". */
  lemma ContainsIffOccurs(s: string, p: string)
    ensures Contains(s, p) <==> exists i: nat :: OccursAt(s, p, i)
  {
    if Contains(s, p) {
      ContainsImpliesOccurs(s, p);
    }
    forall i: nat | OccursAt(s, p, i) ensures Contains(s, p) {
      OccursImpliesContains(s, p, i);
    }
  }

  lemma {:induction false} StripLeftKeepsOccurrence(s: string, p: string, i: nat)
    requires OccursAt(s, p, i) && |p| > 0 && !IsSpace(p[0])
    ensures exists j: nat :: OccursAt(StripLeft(s), p, j)
  {
    if |s| > 0 && IsSpace(s[0]) {
      assert s[i] == p[0];
      assert i > 0;
      assert s[1..][i - 1..i - 1 + |p|] == s[i..i + |p|];
      StripLeftKeepsOccurrence(s[1..], p, i - 1);
      assert StripLeft(s) == StripLeft(s[1..]);
    } else {
      assert OccursAt(StripLeft(s), p, i);
    }
  }

  lemma {:induction false} StripRightKeepsOccurrence(s: string, p: string, i: nat)
    requires OccursAt(s, p, i) && |p| > 0 && !IsSpace(p[|p| - 1])
    ensures exists j: nat :: OccursAt(StripRight(s), p, j)
  {
    if |s| > 0 && IsSpace(s[|s| - 1]) {
      assert s[i + |p| - 1] == p[|p| - 1];
      assert i + |p| < |s|;
      assert s[..|s| - 1][i..i + |p|] == s[i..i + |p|];
      StripRightKeepsOccurrence(s[..|s| - 1], p, i);
      assert StripRight(s) == StripRight(s[..|s| - 1]);
    } else {
      assert OccursAt(StripRight(s), p, i);
    }
  }

  /** Stripping never removes an occurrence of a word that neither starts nor ends with a space. */
  lemma StripKeepsContains(s: string, p: string)
    requires Contains(s, p) && |p| > 0 && !IsSpace(p[0]) && !IsSpace(p[|p| - 1])
    ensures Contains(Strip(s), p)
  {
    ContainsIffOccurs(s, p);
    var i: nat :| OccursAt(s, p, i);
    StripLeftKeepsOccurrence(s, p, i);
    var j: nat :| OccursAt(StripLeft(s), p, j);
    StripRightKeepsOccurrence(StripLeft(s), p, j);
    ContainsIffOccurs(Strip(s), p);
  }

  lemma {:induction false} LowerStripLeft(s: string)
    ensures Lower(StripLeft(s)) == StripLeft(Lower(s))
  {
    if |s| > 0 && IsSpace(s[0]) {
      assert Lower(s)[1..] == Lower(s[1..]);
      LowerStripLeft(s[1..]);
    }
  }

  lemma {:induction false} LowerStripRight(s: string)
    ensures Lower(StripRight(s)) == StripRight(Lower(s))
  {
    if |s| > 0 && IsSpace(s[|s| - 1]) {
      assert Lower(s)[..|s| - 1] == Lower(s[..|s| - 1]);
      LowerStripRight(s[..|s| - 1]);
    }
  }

  /** Lower-casing and stripping commute (`s.strip().lower() == s.lower().strip()`). */
  lemma LowerStripCommute(s: string)
    ensures Lower(Strip(s)) == Strip(Lower(s))
  {
    LowerStripLeft(s);
    LowerStripRight(StripLeft(s));
  }
}
