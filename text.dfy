/**
 * Character classes and string helpers shared by the parsers and the display layer.
 * Characters are compared by code point, as Python compares `str` values; only the
 * ASCII part of Python's Unicode-aware classes (`\d`, `\s`, `str.upper`) is modelled.
 */
module Text {

  predicate IsDigit(c: char) { '0' <= c <= '9' }

  predicate IsLetter(c: char) { 'A' <= c <= 'Z' || 'a' <= c <= 'z' }

  /** ASCII whitespace as `str.isspace` and the regex class `\s` see it. */
  predicate IsSpace(c: char) {
    var n := c as int;
    n == 32 || 9 <= n <= 13 || 28 <= n <= 31
  }

  predicate AllDigits(s: string) { forall i :: 0 <= i < |s| ==> IsDigit(s[i]) }

  function DigitValue(c: char): (n: nat)
    requires IsDigit(c)
    ensures n < 10
  {
    (c as int) - ('0' as int)
  }

  function Pow10(k: nat): (p: nat)
    ensures p >= 1
  {
    if k == 0 then 1 else 10 * Pow10(k - 1)
  }

  /** The number a string of decimal digits denotes (leading zeros allowed). */
  function DigitsValue(s: string): (n: nat)
    requires AllDigits(s)
    ensures n < Pow10(|s|)
  {
    if s == [] then 0 else 10 * DigitsValue(s[..|s| - 1]) + DigitValue(s[|s| - 1])
  }

  /** The value of a two-digit string, digit by digit. */
  lemma TwoDigitsValue(s: string)
    requires |s| == 2 && AllDigits(s)
    ensures DigitsValue(s) == 10 * DigitValue(s[0]) + DigitValue(s[1])
  {
    assert s[..1][..0] == [];
  }

  /** The value of a four-digit string, digit by digit. */
  lemma FourDigitsValue(s: string)
    requires |s| == 4 && AllDigits(s)
    ensures DigitsValue(s) == 1000 * DigitValue(s[0]) + 100 * DigitValue(s[1]) + 10 * DigitValue(s[2]) + DigitValue(s[3])
  {
    var one, two, three := s[..1], s[..2], s[..3];
    assert one[..0] == [];
    assert DigitsValue(one) == DigitValue(s[0]);
    assert two[..1] == one;
    assert DigitsValue(two) == 10 * DigitValue(s[0]) + DigitValue(s[1]);
    assert three[..2] == two;
    assert DigitsValue(three) == 100 * DigitValue(s[0]) + 10 * DigitValue(s[1]) + DigitValue(s[2]);
  }

  function Digit(n: nat): (c: char)
    requires n < 10
    ensures IsDigit(c) && DigitValue(c) == n
  {
    ('0' as int + n) as char
  }

  /** Two-digit zero-padded rendering, as `strftime` writes `%d` and `%m`. */
  function Pad2(n: nat): (s: string)
    requires n < 100
    ensures |s| == 2 && AllDigits(s) && DigitsValue(s) == n
  {
    var s := [Digit(n / 10), Digit(n % 10)];
    assert s[..1] == [Digit(n / 10)];
    assert DigitsValue(s[..1]) == n / 10 by { assert s[..1][..0] == []; }
    s
  }

  /** Four-digit zero-padded rendering, as `strftime` writes `%Y`. */
  function Pad4(n: nat): (s: string)
    requires n < 10000
    ensures |s| == 4 && AllDigits(s) && DigitsValue(s) == n
  {
    var hi := Pad2(n / 100);
    var lo := Pad2(n % 100);
    var s := hi + lo;
    assert s[..3][..2] == hi;
    assert s[..3] == hi + [lo[0]];
    assert s[..|s| - 1] == s[..3];
    assert DigitsValue(s[..3]) == 10 * DigitsValue(hi) + DigitValue(lo[0]) by { assert s[..3][..2] == hi; }
    assert DigitsValue(lo) == 10 * DigitsValue(lo[..1]) + DigitValue(lo[1]);
    assert lo[..1][..0] == [];
    s
  }

  /** The character classes the parsers scan runs of: `\d`, `[A-Za-z]` and `\s`. */
  datatype CharClass = Digits | Letters | Spaces

  predicate InClass(c: char, k: CharClass) {
    match k
    case Digits => IsDigit(c)
    case Letters => IsLetter(c)
    case Spaces => IsSpace(c)
  }

  /** The length of the longest run of characters of class `p` that starts at `i`. */
  function RunLength(s: string, i: nat, p: CharClass): (n: nat)
    requires i <= |s|
    ensures i + n <= |s|
    decreases |s| - i
  {
    if i == |s| || !InClass(s[i], p) then 0 else 1 + RunLength(s, i + 1, p)
  }

  /** The run is maximal: every character in it is of class `p`, and the next one is not. */
  lemma {:induction false} RunLengthIsMaximal(s: string, i: nat, p: CharClass)
    requires i <= |s|
    ensures forall k :: i <= k < i + RunLength(s, i, p) ==> InClass(s[k], p)
    ensures i + RunLength(s, i, p) == |s| || !InClass(s[i + RunLength(s, i, p)], p)
    decreases |s| - i
  {
    if i < |s| && InClass(s[i], p) {
      RunLengthIsMaximal(s, i + 1, p);
    }
  }

  /** Conversely, `n` characters of class `p` at `i` followed by one that is not make a run of `n`. */
  lemma {:induction false} RunLengthOf(s: string, i: nat, n: nat, p: CharClass)
    requires i + n < |s| && (forall k :: i <= k < i + n ==> InClass(s[k], p)) && !InClass(s[i + n], p)
    ensures RunLength(s, i, p) == n
    decreases n
  {
    if n > 0 {
      RunLengthOf(s, i + 1, n - 1, p);
    }
  }

  /** At least `n` characters of class `p` at `i` make a run of at least `n`. */
  lemma {:induction false} RunLengthAtLeast(s: string, i: nat, n: nat, p: CharClass)
    requires i + n <= |s| && forall k :: i <= k < i + n ==> InClass(s[k], p)
    ensures RunLength(s, i, p) >= n
    decreases n
  {
    if n > 0 {
      RunLengthAtLeast(s, i + 1, n - 1, p);
    }
  }

  /** `s` without its leading whitespace. */
  function DropLeadingSpace(s: string): (r: string)
    ensures |r| <= |s| && r == s[|s| - |r|..]
    ensures r == [] || !IsSpace(r[0])
    ensures forall k :: 0 <= k < |s| - |r| ==> IsSpace(s[k])
  {
    if s != [] && IsSpace(s[0]) then DropLeadingSpace(s[1..]) else s
  }

  /** `s` without its trailing whitespace. */
  function DropTrailingSpace(s: string): (r: string)
    ensures |r| <= |s| && r == s[..|r|]
    ensures r == [] || !IsSpace(r[|r| - 1])
    ensures forall k :: |r| <= k < |s| ==> IsSpace(s[k])
  {
    if s != [] && IsSpace(s[|s| - 1]) then DropTrailingSpace(s[..|s| - 1]) else s
  }

  /** Python's `str.strip()`: both ends' whitespace removed. */
  function Strip(s: string): (r: string)
  {
    DropTrailingSpace(DropLeadingSpace(s))
  }

  /** `r` sits in `s` at offset `a` with only whitespace around it. */
  predicate SpacePaddedAt(s: string, r: string, a: nat) {
    a + |r| <= |s| && s[a..a + |r|] == r
    && (forall k :: 0 <= k < a ==> IsSpace(s[k]))
    && (forall k :: a + |r| <= k < |s| ==> IsSpace(s[k]))
  }

  /** Stripping keeps a contiguous slice of `s` and drops only whitespace around it. */
  lemma StripSlice(s: string)
    ensures exists a: nat :: SpacePaddedAt(s, Strip(s), a)
  {
    var l := DropLeadingSpace(s);
    var r := DropTrailingSpace(l);
    var a: nat := |s| - |l|;
    assert Strip(s) == r;
    assert s[a..a + |r|] == l[..|r|];
    assert forall k :: a + |r| <= k < |s| ==> s[k] == l[k - a];
    assert SpacePaddedAt(s, r, a);
  }

  /** Neither end is whitespace: what `str.strip()` leaves. */
  predicate IsStripped(s: string) {
    s == [] || (!IsSpace(s[0]) && !IsSpace(s[|s| - 1]))
  }

  /** The stripped string neither starts nor ends with whitespace. */
  lemma StripEnds(s: string)
    ensures IsStripped(Strip(s))
  {
    var l := DropLeadingSpace(s);
    var r := DropTrailingSpace(l);
    if r != [] {
      assert r[0] == l[0];
    }
  }

  /** A string with no whitespace at either end is its own strip. */
  lemma StrippedIsFixed(r: string)
    requires IsStripped(r)
    ensures Strip(r) == r
  {
    assert DropLeadingSpace(r) == r;
    assert DropTrailingSpace(r) == r;
  }

  /** Stripping twice is stripping once. */
  lemma StripIdempotent(s: string)
    ensures Strip(Strip(s)) == Strip(s)
  {
    StripEnds(s);
    StrippedIsFixed(Strip(s));
  }

  function UpperChar(c: char): char {
    if 'a' <= c <= 'z' then (c as int - 32) as char else c
  }

  function LowerChar(c: char): char {
    if 'A' <= c <= 'Z' then (c as int + 32) as char else c
  }

  /** Python's `str.upper()` on ASCII letters; other characters are kept. */
  function Upper(s: string): (r: string)
    ensures |r| == |s| && forall i :: 0 <= i < |s| ==> r[i] == UpperChar(s[i])
  {
    seq(|s|, i requires 0 <= i < |s| => UpperChar(s[i]))
  }

  /** ASCII lower-casing, used for case-insensitive matching. */
  function Lower(s: string): (r: string)
    ensures |r| == |s| && forall i :: 0 <= i < |s| ==> r[i] == LowerChar(s[i])
  {
    seq(|s|, i requires 0 <= i < |s| => LowerChar(s[i]))
  }

  /** `t` occurs in `s` starting at position `k`. */
  predicate OccursAt(s: string, t: string, k: nat) {
    k + |t| <= |s| && s[k..k + |t|] == t
  }

  lemma OccursInTail(s: string, t: string, k: nat)
    requires s != []
    ensures OccursAt(s, t, k + 1) <==> OccursAt(s[1..], t, k)
  {
    if k + 1 + |t| <= |s| { assert s[k + 1..k + 1 + |t|] == s[1..][k..k + |t|]; }
  }

  /** Python's `t in s` for strings: `t` occurs as a contiguous slice of `s`. */
  function Contains(s: string, t: string): (r: bool)
    ensures r <==> exists k: nat :: OccursAt(s, t, k)
  {
    if |t| <= |s| && s[..|t|] == t then
      assert OccursAt(s, t, 0);
      true
    else if |s| <= |t| then
      assert forall k: nat :: !OccursAt(s, t, k);
      false
    else
      var r := Contains(s[1..], t);
      assert forall k: nat :: OccursAt(s, t, k + 1) <==> OccursAt(s[1..], t, k) by {
        forall k: nat ensures OccursAt(s, t, k + 1) <==> OccursAt(s[1..], t, k) { OccursInTail(s, t, k); }
      }
      assert !OccursAt(s, t, 0);
      assert forall k: nat :: OccursAt(s, t, k) ==> k > 0 && OccursAt(s[1..], t, k - 1);
      r
  }

  /** Python's `s.endswith(suffix)`. */
  predicate EndsWith(s: string, suffix: string) {
    |suffix| <= |s| && s[|s| - |suffix|..] == suffix
  }

  /** Python's `a <= b` on strings: lexicographic by code point, a proper prefix first. */
  predicate StrLe(a: string, b: string) {
    if a == [] then true
    else if b == [] then false
    else if a[0] != b[0] then a[0] < b[0]
    else StrLe(a[1..], b[1..])
  }

  lemma {:induction false} StrLeTotal(a: string, b: string)
    ensures StrLe(a, b) || StrLe(b, a)
  {
    if a != [] && b != [] && a[0] == b[0] {
      StrLeTotal(a[1..], b[1..]);
    }
  }

  lemma {:induction false} StrLeAntisymmetric(a: string, b: string)
    requires StrLe(a, b) && StrLe(b, a)
    ensures a == b
  {
    if a != [] && b != [] {
      StrLeAntisymmetric(a[1..], b[1..]);
      assert a == [a[0]] + a[1..] && b == [b[0]] + b[1..];
    }
  }

  lemma {:induction false} StrLeTransitive(a: string, b: string, c: string)
    requires StrLe(a, b) && StrLe(b, c)
    ensures StrLe(a, c)
  {
    if a != [] && b != [] && c != [] && a[0] == b[0] && b[0] == c[0] {
      StrLeTransitive(a[1..], b[1..], c[1..]);
    }
  }

  /** The first position of `x` in `s`, as Python's `list.index`. */
  function IndexOf<T(==)>(s: seq<T>, x: T): (i: nat)
    requires x in s
    ensures i < |s| && s[i] == x && forall k :: 0 <= k < i ==> s[k] != x
  {
    if s[0] == x then 0 else 1 + IndexOf(s[1..], x)
  }

  /** No element occurs twice. */
  predicate NoDuplicates<T(==)>(s: seq<T>) {
    forall i, j :: 0 <= i < j < |s| ==> s[i] != s[j]
  }
}
