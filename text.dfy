/**
 * String primitives of the Python runtime that the pipeline leans on:
 * `str.strip`, `str.split()` and `str.split(sep)`, `sep.join`, `str.lower`
 * (ASCII letters only), the `in` substring test, `str(int)` and `int(str)`.
 */
module Text {
  import opened Wrappers

  // ---------------------------------------------------------------------
  // Whitespace, as `str.isspace` defines it
  // ---------------------------------------------------------------------

  /** The characters Python's `str.isspace` accepts (and so `strip()` and `split()` remove). */
  predicate IsSpace(c: char) {
    c == ' ' || c == '\t' || c == '\n' || c == '\r' || c == '\U{B}' || c == '\U{C}'
    || ('\U{1C}' <= c <= '\U{1F}') || c == '\U{85}' || c == '\U{A0}' || c == '\U{1680}'
    || ('\U{2000}' <= c <= '\U{200A}') || c == '\U{2028}' || c == '\U{2029}'
    || c == '\U{202F}' || c == '\U{205F}' || c == '\U{3000}'
  }

  predicate AllSpace(s: string) {
    forall k :: 0 <= k < |s| ==> IsSpace(s[k])
  }

  /** Neither end of `s` is whitespace: what `strip()` returns. */
  predicate IsStripped(s: string) {
    s == [] || (!IsSpace(s[0]) && !IsSpace(s[|s| - 1]))
  }

  /** Index of the first non-whitespace character at or after `i`, or `|s|`. */
  function SkipLeft(s: string, i: nat): (j: nat)
    requires i <= |s|
    ensures i <= j <= |s|
    ensures j < |s| ==> !IsSpace(s[j])
    decreases |s| - i
  {
    if i < |s| && IsSpace(s[i]) then SkipLeft(s, i + 1) else i
  }

  /** End of `s[lo..j]` once its trailing whitespace is removed. */
  function SkipRight(s: string, lo: nat, j: nat): (e: nat)
    requires lo <= j <= |s|
    ensures lo <= e <= j
    ensures e > lo ==> !IsSpace(s[e - 1])
    decreases j
  {
    if j > lo && IsSpace(s[j - 1]) then SkipRight(s, lo, j - 1) else j
  }

  /** `s.rstrip()`. */
  function TrimRight(s: string): (r: string)
    ensures r == [] || !IsSpace(r[|r| - 1])
  {
    s[..SkipRight(s, 0, |s|)]
  }

  /** Python's `s.strip()`. */
  function Strip(s: string): (r: string)
    ensures IsStripped(r)
  {
    var a := SkipLeft(s, 0);
    s[a..SkipRight(s, a, |s|)]
  }

  lemma {:induction false} SkipLeftSpaces(s: string, i: nat)
    requires i <= |s|
    ensures forall k :: i <= k < SkipLeft(s, i) ==> IsSpace(s[k])
    decreases |s| - i
  {
    if i < |s| && IsSpace(s[i]) {
      SkipLeftSpaces(s, i + 1);
    }
  }

  lemma {:induction false} SkipRightSpaces(s: string, lo: nat, j: nat)
    requires lo <= j <= |s|
    ensures forall k :: SkipRight(s, lo, j) <= k < j ==> IsSpace(s[k])
    decreases j
  {
    if j > lo && IsSpace(s[j - 1]) {
      SkipRightSpaces(s, lo, j - 1);
    }
  }

  /** `s.strip()` is empty exactly when `s` is all whitespace. */
  lemma StripBlank(s: string)
    ensures Strip(s) == [] <==> AllSpace(s)
  {
    var a := SkipLeft(s, 0);
    SkipLeftSpaces(s, 0);
    SkipRightSpaces(s, a, |s|);
  }

  /** Stripping what is already stripped changes nothing. */
  lemma StripStripped(s: string)
    requires IsStripped(s)
    ensures Strip(s) == s
  {
    assert SkipLeft(s, 0) == 0;
    assert SkipRight(s, 0, |s|) == |s|;
  }

  /** Trimming the right end stops at a non-space character. */
  lemma {:induction false} SkipRightAfterText(a: string, b: string, j: nat)
    requires a != [] && !IsSpace(a[|a| - 1])
    requires j <= |b|
    ensures SkipRight(a + b, 0, |a| + j) == |a| + SkipRight(b, 0, j)
    decreases j
  {
    if j > 0 {
      assert (a + b)[|a| + j - 1] == b[j - 1];
      SkipRightAfterText(a, b, j - 1);
    } else {
      assert (a + b)[|a| - 1] == a[|a| - 1];
    }
  }

  /** Stripping a string that starts with a non-space only trims its right end. */
  lemma StripAfterText(a: string, b: string)
    requires a != [] && !IsSpace(a[0]) && !IsSpace(a[|a| - 1])
    ensures Strip(a + b) == a + TrimRight(b)
  {
    var s := a + b;
    assert s[0] == a[0];
    assert SkipLeft(s, 0) == 0;
    SkipRightAfterText(a, b, |b|);
    var e := SkipRight(b, 0, |b|);
    assert s[..|a| + e] == a + b[..e];
  }

  // ---------------------------------------------------------------------
  // Lowercasing (ASCII) and substring containment
  // ---------------------------------------------------------------------

  function LowerChar(c: char): char {
    if 'A' <= c <= 'Z' then (c as int + 32) as char else c
  }

  /** `s.lower()`, restricted to the ASCII letters. */
  function Lower(s: string): (r: string)
    ensures |r| == |s|
    ensures forall k :: 0 <= k < |s| ==> r[k] == LowerChar(s[k])
  {
    seq(|s|, k requires 0 <= k < |s| => LowerChar(s[k]))
  }

  predicate IsLower(s: string) {
    forall k :: 0 <= k < |s| ==> !('A' <= s[k] <= 'Z')
  }

  /** `needle` occurs in `hay` at position `k`. */
  predicate OccursAt(hay: string, needle: string, k: nat) {
    k + |needle| <= |hay| && hay[k..k + |needle|] == needle
  }

  /** Python's `needle in hay` on strings; the empty needle occurs everywhere. */
  predicate Contains(hay: string, needle: string) {
    exists k :: 0 <= k <= |hay| && OccursAt(hay, needle, k)
  }

  /** A slice of an occurrence is an occurrence of the slice. */
  lemma SubSlice(s: string, i: nat, t: string, a: nat, b: nat)
    requires i + |t| <= |s| && s[i..i + |t|] == t
    requires a <= b <= |t|
    ensures s[i + a..i + b] == t[a..b]
  {
    forall k | 0 <= k < b - a ensures s[i + a..i + b][k] == t[a..b][k] {
      assert s[i + a + k] == s[i..i + |t|][a + k];
    }
  }

  lemma ContainsAt(hay: string, needle: string, k: nat)
    requires OccursAt(hay, needle, k)
    ensures Contains(hay, needle)
  {
  }

  // ---------------------------------------------------------------------
  // `str.split()` into words and `" ".join(words)`
  // ---------------------------------------------------------------------

  /** A word produced by `str.split()`: non-empty, no whitespace inside. */
  predicate IsWord(w: string) {
    w != [] && forall k :: 0 <= k < |w| ==> !IsSpace(w[k])
  }

  /** Index of the first whitespace at or after `i`, or `|s|`. */
  function WordEnd(s: string, i: nat): (r: nat)
    requires i <= |s|
    ensures i <= r <= |s|
    ensures forall k :: i <= k < r ==> !IsSpace(s[k])
    ensures r < |s| ==> IsSpace(s[r])
    decreases |s| - i
  {
    if i == |s| || IsSpace(s[i]) then i else WordEnd(s, i + 1)
  }

  /** Python's `s.split()` with no separator: the maximal runs of non-whitespace. */
  function Words(s: string): (ws: seq<string>)
    ensures forall k :: 0 <= k < |ws| ==> IsWord(ws[k])
    decreases |s|
  {
    if s == [] then []
    else if IsSpace(s[0]) then Words(s[1..])
    else
      var n := WordEnd(s, 0);
      [s[..n]] + Words(s[n..])
  }

  /** Text has no words exactly when it is all whitespace. */
  lemma {:induction false} WordsEmpty(s: string)
    ensures Words(s) == [] <==> AllSpace(s)
    decreases |s|
  {
    if s != [] && IsSpace(s[0]) {
      WordsEmpty(s[1..]);
      forall k | 0 < k < |s| ensures s[k] == s[1..][k - 1] {
      }
    }
  }

  /** `sep.join(xs)`. */
  function Join(sep: string, xs: seq<string>): string
    decreases |xs|
  {
    if |xs| == 0 then ""
    else if |xs| == 1 then xs[0]
    else xs[0] + sep + Join(sep, xs[1..])
  }

  lemma WordsSkipSpace(c: char, t: string)
    requires IsSpace(c)
    ensures Words([c] + t) == Words(t)
  {
    assert ([c] + t)[1..] == t;
  }

  lemma {:induction false} WordEndAt(s: string, i: nat, e: nat)
    requires i <= e <= |s|
    requires forall k :: i <= k < e ==> !IsSpace(s[k])
    requires e == |s| || IsSpace(s[e])
    ensures WordEnd(s, i) == e
    decreases e - i
  {
    if i < e {
      WordEndAt(s, i + 1, e);
    }
  }

  lemma WordsOfWordAndRest(w: string, t: string)
    requires IsWord(w)
    requires t == [] || IsSpace(t[0])
    ensures Words(w + t) == [w] + Words(t)
  {
    var s := w + t;
    assert s[0] == w[0];
    WordEndAt(s, 0, |w|);
    assert s[..|w|] == w && s[|w|..] == t;
  }

  /** Splitting words joined by single spaces gives the words back. */
  lemma {:induction false} WordsOfJoin(ws: seq<string>)
    requires forall k :: 0 <= k < |ws| ==> IsWord(ws[k])
    ensures Words(Join(" ", ws)) == ws
    decreases |ws|
  {
    if |ws| == 0 {
    } else if |ws| == 1 {
      WordsOfWordAndRest(ws[0], "");
      assert ws[0] + "" == ws[0];
    } else {
      var rest := Join(" ", ws[1..]);
      assert Join(" ", ws) == ws[0] + (" " + rest);
      WordsOfWordAndRest(ws[0], " " + rest);
      WordsSkipSpace(' ', rest);
      WordsOfJoin(ws[1..]);
      assert ws == [ws[0]] + ws[1..];
    }
  }

  /** Words of a slice of words are that slice: helper for windows of words. */
  lemma WordsOfJoinSlice(ws: seq<string>, a: nat, b: nat)
    requires a <= b <= |ws|
    requires forall k :: 0 <= k < |ws| ==> IsWord(ws[k])
    ensures Words(Join(" ", ws[a..b])) == ws[a..b]
  {
    WordsOfJoin(ws[a..b]);
  }

  // ---------------------------------------------------------------------
  // `str.split(sep)` with a one-character separator
  // ---------------------------------------------------------------------

  function IndexOf(s: string, c: char): (r: nat)
    ensures r <= |s|
    ensures forall k :: 0 <= k < r ==> s[k] != c
    ensures r < |s| ==> s[r] == c
  {
    if s == [] || s[0] == c then 0 else 1 + IndexOf(s[1..], c)
  }

  /** Python's `s.split(c)`: the pieces between separators, empty pieces kept; `"".split(c) == [""]`. */
  function SplitOn(s: string, c: char): (ps: seq<string>)
    ensures |ps| >= 1
    ensures forall k :: 0 <= k < |ps| ==> c !in ps[k]
    decreases |s|
  {
    var i := IndexOf(s, c);
    if i == |s| then
      assert forall k :: 0 <= k < |s| ==> s[k] != c;
      [s]
    else
      var rest := SplitOn(s[i + 1..], c);
      assert forall k :: 0 <= k < |s[..i]| ==> s[..i][k] != c;
      [s[..i]] + rest
  }

  /** Joining the pieces of `s.split(c)` with `c` rebuilds `s`. */
  lemma {:induction false} JoinSplitOn(s: string, c: char)
    ensures Join([c], SplitOn(s, c)) == s
    decreases |s|
  {
    var i := IndexOf(s, c);
    if i < |s| {
      JoinSplitOn(s[i + 1..], c);
      var rest := SplitOn(s[i + 1..], c);
      assert SplitOn(s, c) == [s[..i]] + rest;
      assert s == s[..i] + [c] + s[i + 1..];
    }
  }

  /** A piece without the separator splits to itself. */
  lemma SplitOnNoSep(s: string, c: char)
    requires c !in s
    ensures SplitOn(s, c) == [s]
  {
    assert IndexOf(s, c) == |s|;
  }

  /** The first separator ends the first piece. */
  lemma SplitOnConcat(a: string, c: char, b: string)
    requires c !in a
    ensures SplitOn(a + [c] + b, c) == [a] + SplitOn(b, c)
  {
    var s := a + [c] + b;
    IndexOfConcat(a, c, b);
    assert s[..|a|] == a && s[|a| + 1..] == b;
  }

  lemma {:induction false} IndexOfConcat(a: string, c: char, b: string)
    requires c !in a
    ensures IndexOf(a + [c] + b, c) == |a|
    decreases |a|
  {
    if a != [] {
      assert (a + [c] + b)[1..] == a[1..] + [c] + b;
      IndexOfConcat(a[1..], c, b);
    }
  }

  /** Splitting pieces joined by the separator gives the pieces back, when none contains it. */
  lemma {:induction false} SplitOnJoin(ps: seq<string>, c: char)
    requires |ps| >= 1
    requires forall k :: 0 <= k < |ps| ==> c !in ps[k]
    ensures SplitOn(Join([c], ps), c) == ps
    decreases |ps|
  {
    if |ps| == 1 {
      SplitOnNoSep(ps[0], c);
    } else {
      SplitOnConcat(ps[0], c, Join([c], ps[1..]));
      SplitOnJoin(ps[1..], c);
      assert ps == [ps[0]] + ps[1..];
    }
  }

  // ---------------------------------------------------------------------
  // Decimal integers: `str(n)` and `int(s)`
  // ---------------------------------------------------------------------

  predicate IsDigit(c: char) {
    '0' <= c <= '9'
  }

  predicate AllDigits(s: string) {
    forall k :: 0 <= k < |s| ==> IsDigit(s[k])
  }

  function DigitValue(c: char): nat
    requires IsDigit(c)
  {
    c as int - '0' as int
  }

  function DigitChar(d: nat): (c: char)
    requires d < 10
    ensures IsDigit(c) && DigitValue(c) == d
  {
    ('0' as int + d) as char
  }

  /** The value of a string of decimal digits, most significant first. */
  function DigitsValue(s: string): nat
    requires AllDigits(s)
    decreases |s|
  {
    if s == [] then 0 else 10 * DigitsValue(s[..|s| - 1]) + DigitValue(s[|s| - 1])
  }

  /** `str(n)` for a non-negative integer. */
  function NatToString(n: nat): (s: string)
    ensures s != [] && AllDigits(s)
    ensures DigitsValue(s) == n
    decreases n
  {
    if n < 10 then [DigitChar(n)]
    else
      var s := NatToString(n / 10) + [DigitChar(n % 10)];
      assert s[..|s| - 1] == NatToString(n / 10);
      s
  }

  /** `str(i)` for any integer. */
  function IntToString(i: int): (s: string)
    ensures s != [] && !IsSpace(s[0]) && !IsSpace(s[|s| - 1])
    ensures forall k :: 0 <= k < |s| ==> IsDigit(s[k]) || (k == 0 && s[k] == '-')
  {
    if i < 0 then "-" + NatToString(-i) else NatToString(i)
  }

  lemma NatToStringInjective(a: nat, b: nat)
    requires NatToString(a) == NatToString(b)
    ensures a == b
  {
  }

  /**
   * The body of a decimal literal that `int()` accepts: digits, with single
   * underscores allowed between two digits.
   */
  predicate IsUnderscoredDigits(s: string) {
    && s != []
    && IsDigit(s[0]) && IsDigit(s[|s| - 1])
    && (forall k :: 0 <= k < |s| ==> IsDigit(s[k]) || s[k] == '_')
    && (forall k :: 0 <= k < |s| - 1 ==> !(s[k] == '_' && s[k + 1] == '_'))
  }

  function DropUnderscores(s: string): (r: string)
    requires forall k :: 0 <= k < |s| ==> IsDigit(s[k]) || s[k] == '_'
    ensures AllDigits(r)
    ensures AllDigits(s) ==> r == s
  {
    if s == [] then []
    else if s[0] == '_' then DropUnderscores(s[1..])
    else [s[0]] + DropUnderscores(s[1..])
  }

  /**
   * Python's `int(s)` on a string: surrounding whitespace is ignored, one
   * optional sign, then decimal digits with optional single underscores
   * between them. Anything else raises, which the model reports as `None`.
   */
  function ParseInt(s: string): Option<int> {
    ParseSigned(Strip(s))
  }

  /** `int()` on an already stripped string. */
  function ParseSigned(t: string): Option<int> {
    if t == [] then None
    else if t[0] == '-' then
      match ParseUnsigned(t[1..]) case Some(v) => Some(-v) case None => None
    else if t[0] == '+' then ParseUnsigned(t[1..])
    else ParseUnsigned(t)
  }

  function ParseUnsigned(body: string): Option<int> {
    if IsUnderscoredDigits(body) then Some(DigitsValue(DropUnderscores(body))) else None
  }

  lemma ParseUnsignedOfNatToString(n: nat)
    ensures ParseUnsigned(NatToString(n)) == Some(n)
  {
    var body := NatToString(n);
    assert IsUnderscoredDigits(body);
    assert DropUnderscores(body) == body;
  }

  /** `int(str(i)) == i`. */
  lemma ParseIntOfIntToString(i: int)
    ensures ParseInt(IntToString(i)) == Some(i)
  {
    var s := IntToString(i);
    StripStripped(s);
    if i < 0 {
      ParseUnsignedOfNatToString(-i);
      assert s[1..] == NatToString(-i);
    } else {
      ParseUnsignedOfNatToString(i);
    }
  }

  // ---------------------------------------------------------------------
  // Python slices
  // ---------------------------------------------------------------------

  /**
   * Where the slice `xs[i:j]` stops on a sequence of length `n`: a negative
   * `j` counts from the end, and the result is clamped to `0..n`.
   */
  function SliceStop(n: nat, j: int): (e: nat)
    ensures e <= n
    ensures 0 <= j <= n ==> e == j
    ensures j > n ==> e == n
    ensures j < 0 ==> e == if j + n < 0 then 0 else j + n
  {
    if j < 0 then (if j + n < 0 then 0 else j + n) else if j > n then n else j
  }

  /** `xs[i:j]` for a start `i` within range. */
  function PySlice<T>(xs: seq<T>, i: nat, j: int): (r: seq<T>)
    requires i <= |xs|
    ensures |r| <= |xs| - i
    ensures i < SliceStop(|xs|, j) ==> r == xs[i..SliceStop(|xs|, j)]
    ensures SliceStop(|xs|, j) <= i ==> r == []
  {
    var e := SliceStop(|xs|, j);
    if i < e then xs[i..e] else []
  }
}
