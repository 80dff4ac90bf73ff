/**
 * A simplified `ast.literal_eval`, enough for the list cells of the recipes
 * CSV: a bracketed, comma-separated list of quoted strings (no escapes),
 * integers, `None`, `True` and `False`, or one such scalar on its own. Each
 * list element is delivered as its `str()`, which is all `as_list` uses.
 *
 * The reader works on the remaining input: each step returns what it read
 * and the text left after it.
 */
module ListLiteral {
  import opened Wrappers
  import opened Text

  /** What a successful evaluation produced: a list (its elements' `str()`) or a scalar. */
  datatype Literal = ListLit(items: seq<string>) | ScalarLit(str: string)

  /** Whitespace the Python tokenizer skips between tokens inside brackets. */
  predicate IsTokenSpace(c: char) {
    c == ' ' || c == '\t' || c == '\U{C}' || c == '\n' || c == '\r'
  }

  /** Characters that may continue a name or a number token. */
  predicate IsNameChar(c: char) {
    ('a' <= c <= 'z') || ('A' <= c <= 'Z') || IsDigit(c) || c == '_' || c == '.'
  }

  /** `t` without its leading token whitespace. */
  function SkipSpace(t: string): (r: string)
    ensures |r| <= |t| && r == t[|t| - |r|..]
    ensures r == [] || !IsTokenSpace(r[0])
  {
    if t != [] && IsTokenSpace(t[0]) then SkipSpace(t[1..]) else t
  }

  /** Length of the run of digits `t` starts with. */
  function DigitsLength(t: string): (n: nat)
    ensures n <= |t| && AllDigits(t[..n])
    ensures n < |t| ==> !IsDigit(t[n])
  {
    if t != [] && IsDigit(t[0]) then
      var n := DigitsLength(t[1..]);
      assert t[..n + 1] == [t[0]] + t[1..][..n];
      n + 1
    else 0
  }

  /** A character that ends the body of a string quoted with `q`: the quote, or an escape or newline, which the model does not read. */
  predicate EndsQuoted(c: char, q: char) {
    c == q || c == '\\' || c == '\n'
  }

  /** Index of the first character of `t` that ends a string body quoted with `q`, or `|t|`. */
  function QuoteEnd(t: string, q: char): (j: nat)
    ensures j <= |t|
    ensures forall k :: 0 <= k < j ==> !EndsQuoted(t[k], q)
    ensures j < |t| ==> EndsQuoted(t[j], q)
  {
    if t == [] || EndsQuoted(t[0], q) then 0 else 1 + QuoteEnd(t[1..], q)
  }

  /** A decimal integer token: `0`, `00`, ... or digits not starting with 0 (Python rejects `007`). */
  predicate IsIntToken(d: string) {
    d != [] && AllDigits(d) && (d[0] != '0' || forall k :: 0 <= k < |d| ==> d[k] == '0')
  }

  /** Nothing of a name or number token continues at the start of `t`. */
  predicate EndsToken(t: string) {
    t == [] || !IsNameChar(t[0])
  }

  /** `t` starts with the keyword `w` standing as a token of its own. */
  predicate KeywordAt(t: string, w: string) {
    |w| <= |t| && t[..|w|] == w && EndsToken(t[|w|..])
  }

  /**
   * One scalar token at the start of `t`: returns its `str()` and the rest.
   * Strings may not contain their own quote, a backslash or a newline.
   */
  function ParseScalar(t: string): (r: Option<(string, string)>)
    ensures r.Some? ==> |r.value.1| < |t|
  {
    if t == [] then None
    else if t[0] == '\'' || t[0] == '"' then
      var j := QuoteEnd(t[1..], t[0]);
      if j + 1 < |t| && t[j + 1] == t[0] then Some((t[1..j + 1], t[j + 2..])) else None
    else if IsDigit(t[0]) || ((t[0] == '-' || t[0] == '+') && 1 < |t| && IsDigit(t[1])) then
      var start := if IsDigit(t[0]) then 0 else 1;
      var n := DigitsLength(t[start..]);
      var d := t[start..start + n];
      if IsIntToken(d) && EndsToken(t[start + n..]) then
        var v: int := DigitsValue(d);
        Some((IntToString(if t[0] == '-' then -v else v), t[start + n..]))
      else None
    else if KeywordAt(t, "None") then Some(("None", t[4..]))
    else if KeywordAt(t, "True") then Some(("True", t[4..]))
    else if KeywordAt(t, "False") then Some(("False", t[5..]))
    else None
  }

  /**
   * The elements of a list, read from just after `[` and any whitespace up
   * to the closing `]`; a trailing comma is allowed. Returns the elements
   * and what follows the `]`.
   */
  function ParseElements(t: string): (r: Option<(seq<string>, string)>)
    ensures r.Some? ==> |r.value.1| < |t|
    decreases |t|, 1
  {
    if t != [] && t[0] == ']' then Some(([], t[1..])) else ElementsAfter(ParseScalar(t), |t|)
  }

  /**
   * The elements from a first scalar on, given what reading that scalar
   * returned: its `str()` and the text after it, which is shorter than
   * `bound`, the length of the text it was read from.
   */
  function ElementsAfter(first: Option<(string, string)>, bound: nat): (r: Option<(seq<string>, string)>)
    requires first.Some? ==> |first.value.1| < bound
    ensures r.Some? ==> |r.value.1| < bound
    decreases bound, 0
  {
    if first.None? then None
    else
      var k := SkipSpace(first.value.1);
      if k != [] && k[0] == ']' then Some(([first.value.0], k[1..]))
      else if k != [] && k[0] == ',' then
        var rest := ParseElements(SkipSpace(k[1..]));
        if rest.None? then None else Some(([first.value.0] + rest.value.0, rest.value.1))
      else None
  }

  /** `ast.literal_eval(s)` on a stripped string, `None` where Python raises. */
  function LiteralEval(s: string): (r: Option<Literal>)
    ensures r.Some? && r.value.ListLit? ==> s != [] && s[0] == '['
    ensures r.Some? && r.value.ScalarLit? ==> ParseScalar(s) == Some((r.value.str, []))
  {
    if s != [] && s[0] == '[' then
      var e := ParseElements(SkipSpace(s[1..]));
      if e.Some? && e.value.1 == [] then Some(ListLit(e.value.0)) else None
    else
      var v := ParseScalar(s);
      if v.Some? && v.value.1 == [] then Some(ScalarLit(v.value.0)) else None
  }

  // ---------------------------------------------------------------------
  // The list a Python program prints for a list of strings parses back
  // ---------------------------------------------------------------------

  /** A string that `repr` quotes as `'x'` and that the model's tokenizer reads back. */
  predicate Quotable(x: string) {
    '\'' !in x && '\\' !in x && '\n' !in x
  }

  function Quote(x: string): string {
    "'" + x + "'"
  }

  /** What follows `[` in `str(xs)`: the quoted elements, `, `-separated, and `]`. */
  function ListBody(xs: seq<string>): string
    decreases |xs|
  {
    if xs == [] then "]"
    else Quote(xs[0]) + (if |xs| == 1 then "]" else ", " + ListBody(xs[1..]))
  }

  /** `str(xs)` for a list of quotable strings: `['a', 'b']`. */
  function ListText(xs: seq<string>): string {
    "[" + ListBody(xs)
  }

  /** A quoted string, followed by anything, reads back as that string. */
  lemma ScalarOfQuote(x: string, rest: string)
    requires Quotable(x)
    ensures ParseScalar(Quote(x) + rest) == Some((x, rest))
  {
    var t := Quote(x) + rest;
    assert t[1..] == x + ("'" + rest);
    QuoteEndAt(x, "'" + rest, '\'');
    assert t[|x| + 1] == '\'';
    assert t[1..|x| + 1] == x;
    assert t[|x| + 2..] == rest;
  }

  lemma {:induction false} QuoteEndAt(x: string, rest: string, q: char)
    requires forall k :: 0 <= k < |x| ==> !EndsQuoted(x[k], q)
    requires rest != [] && rest[0] == q
    ensures QuoteEnd(x + rest, q) == |x|
    decreases |x|
  {
    if x != [] {
      assert (x + rest)[1..] == x[1..] + rest;
      QuoteEndAt(x[1..], rest, q);
    } else {
      assert x + rest == rest;
    }
  }

  /** `ListBody` always starts with the opening quote of its first element. */
  lemma ListBodyStart(xs: seq<string>, rest: string)
    requires xs != []
    ensures (ListBody(xs) + rest)[0] == '\''
  {
  }

  /** The elements after a last scalar followed by `]`. */
  lemma ElementsAtBracket(v: string, after: string, bound: nat)
    requires |after| < bound && after != [] && after[0] == ']'
    ensures ElementsAfter(Some((v, after)), bound) == Some(([v], after[1..]))
  {
  }

  /** The elements after a first scalar, the comma after it and the other elements. */
  lemma ElementsAfterComma(v: string, after: string, bound: nat, vs: seq<string>, rest: string)
    requires |after| < bound && after != [] && after[0] == ','
    requires ParseElements(SkipSpace(after[1..])) == Some((vs, rest))
    ensures ElementsAfter(Some((v, after)), bound) == Some(([v] + vs, rest))
  {
  }

  /** A list is its first element followed by the others, inside a parse result. */
  lemma SomeCons(xs: seq<string>, rest: string)
    requires xs != []
    ensures Some(([xs[0]] + xs[1..], rest)) == Some((xs, rest))
  {
    assert [xs[0]] + xs[1..] == xs;
  }

  /** `, ` before a quote: a comma, and after it the quote once the space is skipped. */
  lemma CommaBeforeQuote(tail: string)
    requires tail != [] && tail[0] == '\''
    ensures (", " + tail)[0] == ',' && SkipSpace((", " + tail)[1..]) == tail
  {
    assert (", " + tail)[1..] == [' '] + tail;
    assert ([' '] + tail)[1..] == tail;
  }

  /** The body of a one-element list. */
  lemma ElementsOfOne(xs: seq<string>, rest: string)
    requires |xs| == 1 && Quotable(xs[0])
    ensures ParseElements(ListBody(xs) + rest) == Some((xs, rest))
  {
    var t := ListBody(xs) + rest;
    ListBodyStart(xs, rest);
    var after := "]" + rest;
    assert t == Quote(xs[0]) + after;
    ScalarOfQuote(xs[0], after);
    ElementsAtBracket(xs[0], after, |t|);
    assert after[1..] == rest;
    assert [xs[0]] == xs;
  }

  /** A quoted first element, then a comma and the other elements. */
  lemma ElementsAfterQuote(xs: seq<string>, after: string, tail: string, rest: string)
    requires xs != [] && Quotable(xs[0]) && after != [] && after[0] == ','
    requires SkipSpace(after[1..]) == tail && ParseElements(tail) == Some((xs[1..], rest))
    ensures ParseElements(Quote(xs[0]) + after) == Some((xs, rest))
  {
    ScalarOfQuote(xs[0], after);
    ElementsAfterComma(xs[0], after, |Quote(xs[0]) + after|, xs[1..], rest);
    SomeCons(xs, rest);
  }

  /** `ListBody` of two or more elements: the first one quoted, `, ` and the body of the rest. */
  lemma ListBodyCons(xs: seq<string>, rest: string)
    requires |xs| >= 2
    ensures ParseElements(ListBody(xs) + rest) == ParseElements(Quote(xs[0]) + (", " + (ListBody(xs[1..]) + rest)))
  {
    assert ListBody(xs) + rest == Quote(xs[0]) + (", " + (ListBody(xs[1..]) + rest));
  }

  /** A quoted first element, `, ` and a tail that starts with a quote and holds the other elements. */
  lemma ElementsAfterSeparator(xs: seq<string>, tail: string, rest: string)
    requires xs != [] && Quotable(xs[0]) && tail != [] && tail[0] == '\''
    requires ParseElements(tail) == Some((xs[1..], rest))
    ensures ParseElements(Quote(xs[0]) + (", " + tail)) == Some((xs, rest))
  {
    CommaBeforeQuote(tail);
    ElementsAfterQuote(xs, ", " + tail, tail, rest);
  }

  /** The body of a longer list: its first element, `, ` and the body of the rest. */
  lemma ElementsOfCons(xs: seq<string>, rest: string)
    requires |xs| >= 2 && Quotable(xs[0])
    requires ParseElements(ListBody(xs[1..]) + rest) == Some((xs[1..], rest))
    ensures ParseElements(ListBody(xs) + rest) == Some((xs, rest))
  {
    ListBodyStart(xs[1..], rest);
    ListBodyCons(xs, rest);
    ElementsAfterSeparator(xs, ListBody(xs[1..]) + rest, rest);
  }

  /** The body of `str(xs)` after `[`, followed by anything, parses to `xs`. */
  lemma {:induction false} ElementsOfListBody(xs: seq<string>, rest: string)
    requires xs != []
    requires forall k :: 0 <= k < |xs| ==> Quotable(xs[k])
    ensures ParseElements(ListBody(xs) + rest) == Some((xs, rest))
    decreases |xs|
  {
    if |xs| == 1 {
      ElementsOfOne(xs, rest);
    } else {
      assert forall k :: 0 <= k < |xs[1..]| ==> xs[1..][k] == xs[k + 1];
      ElementsOfListBody(xs[1..], rest);
      ElementsOfCons(xs, rest);
    }
  }

  /** `ast.literal_eval(str(xs)) == xs` for a non-empty list of quotable strings. */
  lemma LiteralEvalOfListText(xs: seq<string>)
    requires xs != []
    requires forall k :: 0 <= k < |xs| ==> Quotable(xs[k])
    ensures LiteralEval(ListText(xs)) == Some(ListLit(xs))
  {
    var s := ListText(xs);
    var body := ListBody(xs);
    assert s[1..] == body;
    ListBodyStart(xs, []);
    assert body + [] == body;
    assert SkipSpace(body) == body;
    ElementsOfListBody(xs, []);
    assert ParseElements(SkipSpace(s[1..])) == Some((xs, []));
  }
}
