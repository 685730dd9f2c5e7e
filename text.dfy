/**
 * The Kotlin string operations the app's logic relies on: `Char.isWhitespace`,
 * `String.trim()`, `String.isBlank()`, `String.contains(other, ignoreCase = true)`
 * and the decimal digits that `Int.toString()` writes and `toIntOrNull()` reads.
 */
module Text {

  /** Kotlin's `Char.isWhitespace()` on the JVM: `Character.isWhitespace(c) || Character.isSpaceChar(c)`. */
  predicate IsWhitespace(c: char): (b: bool)
    ensures b ==> !IsDigit(c) && c != '+' && c != '-'
  {
    || ('\t' <= c <= '\r')             // tab, line feed, vertical tab, form feed, carriage return
    || ('\U{1C}' <= c <= '\U{1F}')     // file, group, record and unit separators
    || c == ' '
    || c == '\U{A0}' || c == '\U{1680}'
    || ('\U{2000}' <= c <= '\U{200A}')
    || c == '\U{2028}' || c == '\U{2029}'
    || c == '\U{202F}' || c == '\U{205F}' || c == '\U{3000}'
  }

  /** `CharSequence.isBlank()`: every character is whitespace (the empty string included). */
  predicate IsBlank(s: string): (b: bool)
    ensures b <==> StartIndex(s, 0) == |s|
  {
    forall i :: 0 <= i < |s| ==> IsWhitespace(s[i])
  }

  /** The first index from `i` on that does not hold whitespace, or `|s|` when there is none. */
  function StartIndex(s: string, i: nat): (k: nat)
    requires i <= |s|
    ensures i <= k <= |s| && (k == |s| || !IsWhitespace(s[k]))
    ensures forall j :: i <= j < k ==> IsWhitespace(s[j])
    decreases |s| - i
  {
    if i < |s| && IsWhitespace(s[i]) then StartIndex(s, i + 1) else i
  }

  /** The start index is the one place past a run of whitespace that holds none. */
  lemma StartIndexAt(s: string, i: nat, k: nat)
    requires i <= k <= |s| && (k == |s| || !IsWhitespace(s[k]))
    requires forall j :: i <= j < k ==> IsWhitespace(s[j])
    ensures StartIndex(s, i) == k
  {
  }

  /** Moving back from `e`, no further than `lo`: the end of the last character that is not whitespace. */
  function EndIndex(s: string, lo: nat, e: nat): (k: nat)
    requires lo <= e <= |s|
    ensures lo <= k <= e && (k == lo || !IsWhitespace(s[k - 1]))
    ensures forall j :: k <= j < e ==> IsWhitespace(s[j])
    decreases e
  {
    if e > lo && IsWhitespace(s[e - 1]) then EndIndex(s, lo, e - 1) else e
  }

  /** The end index is the one place before a run of whitespace that follows no whitespace. */
  lemma EndIndexAt(s: string, lo: nat, e: nat, k: nat)
    requires lo <= k <= e <= |s| && (k == lo || !IsWhitespace(s[k - 1]))
    requires forall j :: k <= j < e ==> IsWhitespace(s[j])
    ensures EndIndex(s, lo, e) == k
  {
  }

  /**
   * `String.trim()`: Kotlin advances a start index past whitespace, then moves an end
   * index back past whitespace, and returns what lies between.
   */
  function Trim(s: string): (r: string)
    ensures r == [] || (!IsWhitespace(r[0]) && !IsWhitespace(r[|r| - 1]))
  {
    var lo := StartIndex(s, 0);
    s[lo..EndIndex(s, lo, |s|)]
  }

  /** What `Trim` removes is whitespace on both sides, and what it keeps is the middle of `s`, unchanged. */
  lemma TrimBounds(s: string) returns (lo: nat, hi: nat)
    ensures lo <= hi <= |s| && Trim(s) == s[lo..hi]
    ensures IsBlank(s[..lo]) && IsBlank(s[hi..])
  {
    lo := StartIndex(s, 0);
    hi := EndIndex(s, lo, |s|);
    assert forall j :: 0 <= j < lo ==> s[..lo][j] == s[j];
    assert forall j :: 0 <= j < |s| - hi ==> s[hi..][j] == s[hi + j];
  }

  /** Trimming twice is trimming once. */
  lemma TrimIdempotent(s: string)
    ensures Trim(Trim(s)) == Trim(s)
  {
    var t := Trim(s);
    if t != [] {
      StartIndexAt(t, 0, 0);
      EndIndexAt(t, 0, |t|, |t|);
      assert t[0..|t|] == t;
    }
  }

  /** A string is blank exactly when trimming leaves nothing. */
  lemma BlankIffTrimEmpty(s: string)
    ensures IsBlank(s) <==> Trim(s) == []
  {
    var lo, hi := TrimBounds(s);
    if Trim(s) == [] {
      forall i | 0 <= i < |s| ensures IsWhitespace(s[i]) {
        if i < lo { assert s[..lo][i] == s[i]; } else { assert s[hi..][i - hi] == s[i]; }
      }
    } else {
      assert s[lo] == Trim(s)[0];
    }
  }

  /** Trimming a string padded with whitespace gives back the unpadded string, if that one has no padding of its own. */
  lemma TrimPadded(pre: string, s: string, post: string)
    requires IsBlank(pre) && IsBlank(post)
    requires s != [] && !IsWhitespace(s[0]) && !IsWhitespace(s[|s| - 1])
    ensures Trim(pre + s + post) == s
  {
    var x := pre + s + post;
    var lo, hi := |pre|, |pre| + |s|;
    assert forall j :: 0 <= j < |x| ==> x[j] == if j < lo then pre[j] else if j < hi then s[j - lo] else post[j - hi];
    StartIndexAt(x, 0, lo);
    EndIndexAt(x, lo, |x|, hi);
    assert x[lo..hi] == s;
  }

  /** ASCII case folding: `A`..`Z` become `a`..`z`, every other character is left alone. */
  function LowerAscii(c: char): (r: char)
    ensures 'A' <= c <= 'Z' ==> 'a' <= r <= 'z' && r as int - c as int == 32
    ensures !('A' <= c <= 'Z') ==> r == c
  {
    if 'A' <= c <= 'Z' then (c as int + 32) as char else c
  }

  /** Two strings of equal length that agree character by character up to ASCII case. */
  predicate EqualsIgnoreCase(a: string, b: string) {
    |a| == |b| && forall i :: 0 <= i < |a| ==> LowerAscii(a[i]) == LowerAscii(b[i])
  }

  /** `q` occurs in `text` at position `k`, ignoring case. */
  predicate OccursAt(text: string, q: string, k: int) {
    0 <= k <= |text| - |q| && EqualsIgnoreCase(text[k..k + |q|], q)
  }

  /**
   * `text.contains(q, ignoreCase = true)`: Kotlin tries every start index from the
   * left with `regionMatches`; the empty `q` is found at index 0.
   */
  function ContainsIgnoreCase(text: string, q: string): (r: bool)
    ensures r ==> |q| <= |text|
    ensures q == [] ==> r
    decreases |text|
  {
    if |text| < |q| then false
    else if EqualsIgnoreCase(text[..|q|], q) then true
    else ContainsIgnoreCase(text[1..], q)
  }

  /** The scan finds `q` exactly when `q` occurs somewhere in `text`, ignoring case. */
  lemma {:induction false} ContainsIgnoreCaseMeaning(text: string, q: string)
    ensures ContainsIgnoreCase(text, q) <==> exists k :: OccursAt(text, q, k)
    decreases |text|
  {
    if |text| < |q| {
    } else if EqualsIgnoreCase(text[..|q|], q) {
      assert OccursAt(text, q, 0);
    } else {
      ContainsIgnoreCaseMeaning(text[1..], q);
      forall k | OccursAt(text[1..], q, k) ensures OccursAt(text, q, k + 1) {
        assert text[1..][k..k + |q|] == text[k + 1..k + 1 + |q|];
      }
      forall k | OccursAt(text, q, k) && k > 0 ensures OccursAt(text[1..], q, k - 1) {
        assert text[1..][k - 1..k - 1 + |q|] == text[k..k + |q|];
      }
    }
  }

  /** Matching ignores case on both sides: a string equal up to case contains the same queries. */
  lemma ContainsIgnoresCase(text: string, text': string, q: string)
    requires EqualsIgnoreCase(text, text')
    ensures ContainsIgnoreCase(text, q) == ContainsIgnoreCase(text', q)
  {
    ContainsIgnoreCaseMeaning(text, q);
    ContainsIgnoreCaseMeaning(text', q);
    forall k | 0 <= k <= |text| - |q|
      ensures OccursAt(text, q, k) <==> OccursAt(text', q, k)
    {
      var a, a' := text[k..k + |q|], text'[k..k + |q|];
      assert forall i :: 0 <= i < |a| ==> a[i] == text[k + i] && a'[i] == text'[k + i];
    }
  }

  // ----- decimal digits -----

  predicate IsDigit(c: char) {
    '0' <= c <= '9'
  }

  predicate AllDigits(s: string) {
    forall i :: 0 <= i < |s| ==> IsDigit(s[i])
  }

  function DigitValue(c: char): (d: nat)
    requires IsDigit(c)
    ensures d < 10
  {
    c as int - '0' as int
  }

  function DigitChar(d: nat): (c: char)
    requires d < 10
    ensures IsDigit(c) && DigitValue(c) == d
  {
    ('0' as int + d) as char
  }

  function Pow10(n: nat): (p: nat)
    ensures p >= 1
  {
    if n == 0 then 1 else 10 * Pow10(n - 1)
  }

  /** The number a string of decimal digits denotes, read most significant digit first. */
  function Value(s: string): nat
    requires AllDigits(s)
  {
    if s == [] then 0 else Value(s[..|s| - 1]) * 10 + DigitValue(s[|s| - 1])
  }

  /** Reading the digits from the front: the first digit weighs `10^(|s|-1)`. */
  lemma {:induction false} ValueFront(s: string)
    requires AllDigits(s) && s != []
    ensures Value(s) == DigitValue(s[0]) * Pow10(|s| - 1) + Value(s[1..])
  {
    var n := |s|;
    if n == 1 {
      assert s[..0] == [] && s[1..] == [];
    } else {
      var init, rest := s[..n - 1], s[1..];
      ValueFront(init);
      assert init[0] == s[0];
      assert init[1..] == rest[..|rest| - 1];
      assert rest[|rest| - 1] == s[n - 1];
      Regroup(DigitValue(s[0]), Pow10(n - 2), Value(init[1..]), DigitValue(s[n - 1]));
    }
  }

  /** Shifting a number with a leading digit one place left, then adding a digit. */
  lemma Regroup(a: int, p: int, v: int, d: int)
    ensures (a * p + v) * 10 + d == a * (10 * p) + (v * 10 + d)
  {
  }

  /** Zeros in front do not change the value. */
  lemma {:induction false} ValueLeadingZeros(z: string, s: string)
    requires forall i :: 0 <= i < |z| ==> z[i] == '0'
    requires AllDigits(s)
    ensures AllDigits(z + s) && Value(z + s) == Value(s)
  {
    if z != [] {
      ValueLeadingZeros(z[1..], s);
      assert (z + s)[1..] == z[1..] + s;
      assert AllDigits(z + s) by {
        assert forall i :: 0 <= i < |z + s| ==> (z + s)[i] == if i < |z| then z[i] else s[i - |z|];
      }
      assert (z + s)[0] == '0';
      ValueFront(z + s);
      assert Value(z + s) == 0 * Pow10(|z + s| - 1) + Value(z[1..] + s);
    } else {
      assert z + s == s;
    }
  }

  /** `Int.toString()` for a non-negative value: its decimal digits, without leading zeros. */
  function Decimal(n: nat): (r: string)
    ensures r != [] && AllDigits(r) && Value(r) == n
    ensures r[0] == '0' ==> n == 0
    ensures |r| <= 1 <==> n < 10
    ensures |r| <= 2 <==> n < 100
    decreases n
  {
    if n < 10 then [DigitChar(n)]
    else
      var r := Decimal(n / 10) + [DigitChar(n % 10)];
      assert r[..|r| - 1] == Decimal(n / 10);
      r
  }

  /** The decimal digits of a number are unique: `Decimal` is the only digit string without leading zeros that denotes `n`. */
  lemma {:induction false} DecimalCanonical(s: string, n: nat)
    requires AllDigits(s) && s != [] && (s[0] == '0' ==> |s| == 1)
    requires Value(s) == n
    ensures s == Decimal(n)
    decreases |s|
  {
    if |s| == 1 {
      assert Value(s) == DigitValue(s[0]);
    } else {
      var init := s[..|s| - 1];
      assert init[0] == s[0];
      DecimalCanonical(init, Value(init));
      LeadingDigitPositive(init);
      DigitSplit(Value(init), DigitValue(s[|s| - 1]));
      assert s == init + [s[|s| - 1]];
    }
  }

  /** Digits that do not start with a zero denote a positive number. */
  lemma LeadingDigitPositive(s: string)
    requires AllDigits(s) && s != [] && s[0] != '0'
    ensures Value(s) >= 1
  {
    ValueFront(s);
    AtLeastOne(DigitValue(s[0]), Pow10(|s| - 1));
  }

  lemma AtLeastOne(a: int, p: int)
    requires a >= 1 && p >= 1
    ensures a * p >= 1
  {
  }

  /** Appending a digit `d` to `v`: division by ten gives back `v`, the remainder is `d`. */
  lemma DigitSplit(v: nat, d: nat)
    requires d < 10
    ensures (v * 10 + d) / 10 == v && (v * 10 + d) % 10 == d
  {
  }
}
