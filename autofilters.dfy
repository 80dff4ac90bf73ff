/**
 * Filters read off a free-text query (`auto_filters_from_query`) and the
 * rule that an explicit command-line value beats the one read off the query.
 *
 * The two time patterns are matched by hand-written scanners over the
 * lowercased query: `\d` is an ASCII digit, `\s` is `str.isspace`, and `\w`
 * (used by `\b`) is an ASCII letter, digit or underscore.
 */
module QueryFilters {
  import opened Wrappers
  import opened Text

  // ---------------------------------------------------------------------
  // Runs of characters
  // ---------------------------------------------------------------------

  /** A character `\w` matches. */
  predicate IsWordChar(c: char) {
    ('a' <= c <= 'z') || ('A' <= c <= 'Z') || IsDigit(c) || c == '_'
  }

  /** End of the run of whitespace that starts at `i`: where a greedy `\s*` stops. */
  function SpaceEnd(t: string, i: nat): (r: nat)
    requires i <= |t|
    ensures i <= r <= |t|
    ensures forall k :: i <= k < r ==> IsSpace(t[k])
    ensures r < |t| ==> !IsSpace(t[r])
    decreases |t| - i
  {
    if i < |t| && IsSpace(t[i]) then SpaceEnd(t, i + 1) else i
  }

  /** End of the run of digits that starts at `i`: where a greedy `\d+` stops. */
  function DigitEnd(t: string, i: nat): (r: nat)
    requires i <= |t|
    ensures i <= r <= |t|
    ensures forall k :: i <= k < r ==> IsDigit(t[k])
    ensures r < |t| ==> !IsDigit(t[r])
    decreases |t| - i
  {
    if i < |t| && IsDigit(t[i]) then DigitEnd(t, i + 1) else i
  }

  /** A run that ends where the next character leaves its class is where the scanner stops. */
  lemma {:induction false} SpaceEndAt(t: string, i: nat, r: nat)
    requires i <= r <= |t|
    requires forall k :: i <= k < r ==> IsSpace(t[k])
    requires r < |t| ==> !IsSpace(t[r])
    ensures SpaceEnd(t, i) == r
    decreases r - i
  {
    if i < r {
      SpaceEndAt(t, i + 1, r);
    }
  }

  lemma {:induction false} DigitEndAt(t: string, i: nat, r: nat)
    requires i <= r <= |t|
    requires forall k :: i <= k < r ==> IsDigit(t[k])
    requires r < |t| ==> !IsDigit(t[r])
    ensures DigitEnd(t, i) == r
    decreases r - i
  {
    if i < r {
      DigitEndAt(t, i + 1, r);
    }
  }

  // ---------------------------------------------------------------------
  // The two time patterns, matched at one position
  // ---------------------------------------------------------------------

  /** The first pattern, `(?:under|less than|<)\s*(\d+)\s*(?:min|minutes?)`, and the bare one, `\b(\d+)\s*(?:min|minutes?)\b`. */
  datatype Pattern = Bounded | Bare

  /** Length of the alternative of `(?:under|less than|<)` at `p`, or 0; the three start with different characters. */
  function LeadLength(t: string, p: nat): (a: nat)
    ensures a in {0, 1, 5, 9}
  {
    if OccursAt(t, "under", p) then 5
    else if OccursAt(t, "less than", p) then 9
    else if OccursAt(t, "<", p) then 1
    else 0
  }

  /** `\b` after a word character: the end of the text or a non-word character. */
  predicate BoundaryAt(t: string, e: nat) {
    e >= |t| || !IsWordChar(t[e])
  }

  /**
   * `(?:min|minutes?)\b` at `s`, with the alternatives in the regex's order:
   * "min", then "minutes", then "minute".
   */
  predicate UnitAt(t: string, s: nat) {
    (OccursAt(t, "min", s) && BoundaryAt(t, s + 3))
    || (OccursAt(t, "minutes", s) && BoundaryAt(t, s + 7))
    || (OccursAt(t, "minute", s) && BoundaryAt(t, s + 6))
  }

  /**
   * The digits of group 1 when the pattern matches starting at `p`. Neither
   * `\s*` nor `\d+` can give back characters to help the rest match, since
   * a space, a digit and `m` belong to different classes, so the greedy
   * runs decide the match.
   */
  function MatchAt(pat: Pattern, t: string, p: nat): (r: Option<string>)
    requires p <= |t|
    ensures r.Some? ==> r.value != [] && AllDigits(r.value)
  {
    match pat
    case Bounded =>
      var a := LeadLength(t, p);
      if a == 0 then None
      else
        var q := SpaceEnd(t, p + a);
        var e := DigitEnd(t, q);
        if q < e && OccursAt(t, "min", SpaceEnd(t, e)) then Some(t[q..e]) else None
    case Bare =>
      if p < |t| && IsDigit(t[p]) && (p == 0 || !IsWordChar(t[p - 1])) then
        var e := DigitEnd(t, p);
        if UnitAt(t, SpaceEnd(t, e)) then Some(t[p..e]) else None
      else None
  }

  /** The match of `pat` at each position of `t`, the end included. */
  function Matches(pat: Pattern, t: string): (ms: seq<Option<string>>)
    ensures |ms| == |t| + 1
    ensures forall i :: 0 <= i <= |t| ==> ms[i] == MatchAt(pat, t, i)
  {
    seq(|t| + 1, i requires 0 <= i <= |t| => MatchAt(pat, t, i))
  }

  /** The first entry of `ms` at or after `p` that holds a match. */
  function FirstFrom(ms: seq<Option<string>>, p: nat): Option<string>
    requires p <= |ms|
    decreases |ms| - p
  {
    if p == |ms| then None else if ms[p].Some? then ms[p] else FirstFrom(ms, p + 1)
  }

  /** `re.search`: the match that starts leftmost at or after `p`. */
  function Search(pat: Pattern, t: string, p: nat): (r: Option<string>)
    requires p <= |t|
    ensures r.Some? ==> r.value != [] && AllDigits(r.value)
  {
    var ms := Matches(pat, t);
    if FirstFrom(ms, p).Some? then FirstFromFound(ms, p); FirstFrom(ms, p) else None
  }

  /** The alternative of length `a` of `(?:under|less than|<)` occurs at `p`. */
  predicate LeadAt(t: string, p: nat, a: nat) {
    (a == 5 && OccursAt(t, "under", p)) || (a == 9 && OccursAt(t, "less than", p))
    || (a == 1 && OccursAt(t, "<", p))
  }

  /**
   * A way for the first pattern to match at `p` with group 1 at `q..e`:
   * the alternative, whitespace, digits, whitespace, then "min" at `s`.
   */
  predicate BoundedShape(t: string, p: nat, a: nat, q: nat, e: nat, s: nat) {
    && p + a <= q < e <= s <= |t|
    && LeadAt(t, p, a)
    && AllSpace(t[p + a..q]) && AllDigits(t[q..e]) && AllSpace(t[e..s])
    && OccursAt(t, "min", s)
  }

  /** A way for the bare pattern to match at `p` with group 1 at `p..e` and the unit at `s`. */
  predicate BareShape(t: string, p: nat, e: nat, s: nat) {
    && p < e <= s <= |t|
    && (p == 0 || !IsWordChar(t[p - 1]))
    && AllDigits(t[p..e]) && AllSpace(t[e..s])
    && UnitAt(t, s)
  }

  lemma DigitIsNotSpace(c: char)
    requires IsDigit(c)
    ensures !IsSpace(c)
  {
  }

  /** The alternative that occurs at `p` is the one the scanner picks. */
  lemma LeadLengthAt(t: string, p: nat, a: nat)
    requires LeadAt(t, p, a)
    ensures LeadLength(t, p) == a
  {
    FirstOfOccurrence(t, "under", p);
    FirstOfOccurrence(t, "less than", p);
    FirstOfOccurrence(t, "<", p);
  }

  /** An occurrence starts with the first character of what occurs. */
  lemma FirstOfOccurrence(t: string, w: string, p: nat)
    requires w != []
    ensures OccursAt(t, w, p) ==> p < |t| && t[p] == w[0]
  {
    if OccursAt(t, w, p) {
      assert t[p..p + |w|][0] == t[p];
    }
  }

  lemma SpacesOfSlice(t: string, i: nat, r: nat)
    requires i <= r <= |t| && AllSpace(t[i..r])
    ensures forall k :: i <= k < r ==> IsSpace(t[k])
  {
    forall k | i <= k < r ensures IsSpace(t[k]) {
      assert t[i..r][k - i] == t[k];
    }
  }

  lemma DigitsOfSlice(t: string, i: nat, r: nat)
    requires i <= r <= |t| && AllDigits(t[i..r])
    ensures forall k :: i <= k < r ==> IsDigit(t[k])
  {
    forall k | i <= k < r ensures IsDigit(t[k]) {
      assert t[i..r][k - i] == t[k];
    }
  }

  /** A digit run `i..e` followed by whitespace up to `s` and `m` at `s` ends at `e`. */
  lemma DigitsThenSpaces(t: string, i: nat, e: nat, s: nat)
    requires i <= e <= s < |t| && t[s] == 'm'
    requires AllDigits(t[i..e]) && AllSpace(t[e..s])
    ensures DigitEnd(t, i) == e && SpaceEnd(t, e) == s
  {
    DigitsOfSlice(t, i, e);
    SpacesOfSlice(t, e, s);
    if e < s {
      assert t[e..s][0] == t[e];
    }
    DigitEndAt(t, i, e);
    SpaceEndAt(t, e, s);
  }

  lemma MinStartsWithM(t: string, s: nat)
    requires OccursAt(t, "min", s)
    ensures s < |t| && t[s] == 'm'
  {
    assert t[s..s + 3][0] == t[s];
  }

  lemma UnitStartsWithM(t: string, s: nat)
    requires UnitAt(t, s)
    ensures s < |t| && t[s] == 'm'
  {
    if OccursAt(t, "min", s) {
      MinStartsWithM(t, s);
    } else if OccursAt(t, "minutes", s) {
      assert t[s..s + 7][0] == t[s];
    } else {
      assert t[s..s + 6][0] == t[s];
    }
  }

  /** Every way the first pattern can match at `p` is found by the scanner, with the same group. */
  lemma BoundedComplete(t: string, p: nat, a: nat, q: nat, e: nat, s: nat)
    requires BoundedShape(t, p, a, q, e, s)
    ensures MatchAt(Bounded, t, p) == Some(t[q..e])
  {
    LeadLengthAt(t, p, a);
    assert t[q..e][0] == t[q];
    DigitIsNotSpace(t[q]);
    SpacesOfSlice(t, p + a, q);
    SpaceEndAt(t, p + a, q);
    MinStartsWithM(t, s);
    DigitsThenSpaces(t, q, e, s);
  }

  /** What the scanner finds for the first pattern is one of its ways to match. */
  lemma BoundedSound(t: string, p: nat)
    requires p <= |t| && MatchAt(Bounded, t, p).Some?
    ensures var a := LeadLength(t, p);
      var q := SpaceEnd(t, p + a);
      var e := DigitEnd(t, q);
      && BoundedShape(t, p, a, q, e, SpaceEnd(t, e))
      && MatchAt(Bounded, t, p) == Some(t[q..e])
  {
  }

  /** Every way the bare pattern can match at `p` is found by the scanner, with the same group. */
  lemma BareComplete(t: string, p: nat, e: nat, s: nat)
    requires BareShape(t, p, e, s)
    ensures MatchAt(Bare, t, p) == Some(t[p..e])
  {
    assert t[p..e][0] == t[p];
    UnitStartsWithM(t, s);
    DigitsThenSpaces(t, p, e, s);
  }

  /** What the scanner finds for the bare pattern is one of its ways to match. */
  lemma BareSound(t: string, p: nat)
    requires p <= |t| && MatchAt(Bare, t, p).Some?
    ensures var e := DigitEnd(t, p);
      && BareShape(t, p, e, SpaceEnd(t, e))
      && MatchAt(Bare, t, p) == Some(t[p..e])
  {
  }

  // ---------------------------------------------------------------------
  // Leftmost search
  // ---------------------------------------------------------------------

  /** The first entry found is the one at the leftmost position that holds a match. */
  lemma {:induction false} FirstFromLeftmost(ms: seq<Option<string>>, p: nat, j: nat)
    requires p <= j < |ms| && ms[j].Some?
    requires forall i :: p <= i < j ==> ms[i].None?
    ensures FirstFrom(ms, p) == ms[j]
    decreases j - p
  {
    if p < j {
      FirstFromLeftmost(ms, p + 1, j);
    }
  }

  /** Nothing is found exactly when no entry at or after `p` holds a match. */
  lemma {:induction false} FirstFromNone(ms: seq<Option<string>>, p: nat)
    requires p <= |ms|
    ensures FirstFrom(ms, p).None? <==> forall i :: p <= i < |ms| ==> ms[i].None?
    decreases |ms| - p
  {
    if p < |ms| {
      FirstFromNone(ms, p + 1);
    }
  }

  /** What is found is the entry at some position at or after `p`. */
  lemma {:induction false} FirstFromFound(ms: seq<Option<string>>, p: nat)
    requires p <= |ms| && FirstFrom(ms, p).Some?
    ensures exists j :: p <= j < |ms| && ms[j] == FirstFrom(ms, p)
    decreases |ms| - p
  {
    if ms[p].None? {
      FirstFromFound(ms, p + 1);
    }
  }

  /** The search returns the match at the leftmost position where one starts. */
  lemma SearchLeftmost(pat: Pattern, t: string, p: nat, j: nat)
    requires p <= j <= |t| && MatchAt(pat, t, j).Some?
    requires forall i :: p <= i < j ==> MatchAt(pat, t, i).None?
    ensures Search(pat, t, p) == MatchAt(pat, t, j)
  {
    FirstFromLeftmost(Matches(pat, t), p, j);
  }

  /** The search fails exactly when the pattern matches nowhere at or after `p`. */
  lemma SearchNone(pat: Pattern, t: string, p: nat)
    requires p <= |t|
    ensures Search(pat, t, p).None? <==> forall i :: p <= i <= |t| ==> MatchAt(pat, t, i).None?
  {
    FirstFromNone(Matches(pat, t), p);
  }

  /** What the search returns is a match at some position at or after `p`. */
  lemma SearchFound(pat: Pattern, t: string, p: nat)
    requires p <= |t| && Search(pat, t, p).Some?
    ensures exists j :: p <= j <= |t| && MatchAt(pat, t, j) == Search(pat, t, p)
  {
    FirstFromFound(Matches(pat, t), p);
  }

  // ---------------------------------------------------------------------
  // The whole extraction
  // ---------------------------------------------------------------------

  /** The bound `int(m.group(1))`: the first pattern if it matches anywhere, else the bare one. */
  function TimeLimit(ql: string): (r: Option<int>)
    ensures r.Some? ==> r.value >= 0
  {
    var m := Search(Bounded, ql, 0);
    var m' := if m.Some? then m else Search(Bare, ql, 0);
    if m'.Some? then Some(DigitsValue(m'.value)) else None
  }

  /** The diet cues, in the order they are tried. */
  const DietKeywords: seq<string> :=
    ["vegan", "vegetarian", "gluten-free", "gluten free", "dairy-free", "dairy free", "keto", "paleo"]

  /** The meal cues, in the order they are tried. */
  const MealKeywords: seq<string> := ["breakfast", "brunch", "lunch", "dinner", "snack", "dessert"]

  /** `kw.replace(" ", "-")`. */
  function Hyphenate(s: string): (r: string)
    ensures |r| == |s| && ' ' !in r
    ensures forall k :: 0 <= k < |s| ==> r[k] == if s[k] == ' ' then '-' else s[k]
  {
    seq(|s|, k requires 0 <= k < |s| => if s[k] == ' ' then '-' else s[k])
  }

  /** A name without spaces is left as it is. */
  lemma HyphenateNoSpace(s: string)
    requires ' ' !in s
    ensures Hyphenate(s) == s
  {
  }

  /** Index of the first keyword of `kws`, from `i` on, that occurs in `t`. */
  function FirstKeyword(t: string, kws: seq<string>, i: nat): (r: Option<nat>)
    requires i <= |kws|
    ensures r.Some? ==> i <= r.value < |kws| && Contains(t, kws[r.value])
    ensures r.Some? ==> forall j :: i <= j < r.value ==> !Contains(t, kws[j])
    ensures r.None? ==> forall j :: i <= j < |kws| ==> !Contains(t, kws[j])
    decreases |kws| - i
  {
    if i == |kws| then None
    else if Contains(t, kws[i]) then Some(i)
    else FirstKeyword(t, kws, i + 1)
  }

  /** The keyword at `k` is the first one found when none before it occurs. */
  lemma FirstKeywordIs(t: string, kws: seq<string>, i: nat, k: nat)
    requires i <= k < |kws| && Contains(t, kws[k])
    requires forall j :: i <= j < k ==> !Contains(t, kws[j])
    ensures FirstKeyword(t, kws, i) == Some(k)
  {
  }

  /** The filters present in the returned dict; an absent key is `None`. */
  datatype AutoFilters = AutoFilters(maxMinutes: Option<int>, diet: Option<string>, meal: Option<string>)

  /** The filters of query `q`, as the three rules define them on `q.lower()`. */
  function QueryAutoFilters(q: string): AutoFilters {
    var ql := Lower(q);
    var d := FirstKeyword(ql, DietKeywords, 0);
    var m := FirstKeyword(ql, MealKeywords, 0);
    AutoFilters(
      TimeLimit(ql),
      if d.Some? then Some(Hyphenate(DietKeywords[d.value])) else None,
      if m.Some? then Some(MealKeywords[m.value]) else None)
  }

  /** `auto_filters_from_query`: the time rule, then the two keyword loops that stop at the first cue found. */
  method AutoFiltersFromQuery(q: string) returns (f: AutoFilters)
    ensures f == QueryAutoFilters(q)
  {
    var ql := Lower(q);
    var maxMinutes := TimeLimit(ql);
    var diet: Option<string> := None;
    for i := 0 to |DietKeywords|
      invariant diet.None?
      invariant forall j :: 0 <= j < i ==> !Contains(ql, DietKeywords[j])
    {
      if Contains(ql, DietKeywords[i]) {
        FirstKeywordIs(ql, DietKeywords, 0, i);
        diet := Some(Hyphenate(DietKeywords[i]));
        break;
      }
    }
    var meal: Option<string> := None;
    for i := 0 to |MealKeywords|
      invariant meal.None?
      invariant forall j :: 0 <= j < i ==> !Contains(ql, MealKeywords[j])
    {
      if Contains(ql, MealKeywords[i]) {
        FirstKeywordIs(ql, MealKeywords, 0, i);
        meal := Some(MealKeywords[i]);
        break;
      }
    }
    f := AutoFilters(maxMinutes, diet, meal);
  }

  /** The diet filter is always one of six canonical names, never one with a space. */
  lemma AutoDietCanonical(q: string)
    ensures var d := QueryAutoFilters(q).diet;
      d.Some? ==> d.value in ["vegan", "vegetarian", "gluten-free", "dairy-free", "keto", "paleo"]
  {
    assert Hyphenate("vegan") == "vegan";
    assert Hyphenate("vegetarian") == "vegetarian";
    assert Hyphenate("gluten-free") == "gluten-free";
    assert Hyphenate("gluten free") == "gluten-free";
    assert Hyphenate("dairy-free") == "dairy-free";
    assert Hyphenate("dairy free") == "dairy-free";
    assert Hyphenate("keto") == "keto";
    assert Hyphenate("paleo") == "paleo";
  }

  /** An auto filter is present exactly when some cue of its category occurs in the lowercased query. */
  lemma AutoFiltersPresent(q: string)
    ensures QueryAutoFilters(q).diet.Some? <==>
      exists j :: 0 <= j < |DietKeywords| && Contains(Lower(q), DietKeywords[j])
    ensures QueryAutoFilters(q).meal.Some? <==>
      exists j :: 0 <= j < |MealKeywords| && Contains(Lower(q), MealKeywords[j])
    ensures QueryAutoFilters(q).meal.Some? ==> Contains(Lower(q), QueryAutoFilters(q).meal.value)
  {
  }

  /** A match of the first pattern anywhere decides the bound, whatever the bare pattern would find. */
  lemma BoundedFirst(ql: string, j: nat)
    requires j <= |ql| && MatchAt(Bounded, ql, j).Some?
    requires forall i :: 0 <= i < j ==> MatchAt(Bounded, ql, i).None?
    ensures TimeLimit(ql) == Some(DigitsValue(MatchAt(Bounded, ql, j).value))
  {
    SearchLeftmost(Bounded, ql, 0, j);
  }

  /** Without a match of the first pattern, the leftmost bare match decides the bound. */
  lemma BareFallback(ql: string, j: nat)
    requires forall i :: 0 <= i <= |ql| ==> MatchAt(Bounded, ql, i).None?
    requires j <= |ql| && MatchAt(Bare, ql, j).Some?
    requires forall i :: 0 <= i < j ==> MatchAt(Bare, ql, i).None?
    ensures TimeLimit(ql) == Some(DigitsValue(MatchAt(Bare, ql, j).value))
  {
    SearchNone(Bounded, ql, 0);
    SearchLeftmost(Bare, ql, 0, j);
  }

  /** No time filter exactly when neither pattern matches anywhere. */
  lemma NoTimeLimit(ql: string)
    ensures TimeLimit(ql).None? <==>
      forall i :: 0 <= i <= |ql| ==> MatchAt(Bounded, ql, i).None? && MatchAt(Bare, ql, i).None?
  {
    SearchNone(Bounded, ql, 0);
    SearchNone(Bare, ql, 0);
  }

  // ---------------------------------------------------------------------
  // Explicit values override the query's
  // ---------------------------------------------------------------------

  /** The arguments that the time, diet and meal filters of the command line give. */
  datatype Explicit = Explicit(maxMinutes: Option<int>, diet: Option<string>, meal: Option<string>)

  /** `if key in auto and arg is None: arg = auto[key]`. */
  function OrAuto<T>(arg: Option<T>, auto: Option<T>): (r: Option<T>)
    ensures arg.Some? ==> r == arg
    ensures arg.None? ==> r == auto
  {
    if auto.Some? && arg.None? then auto else arg
  }

  /** The three filter arguments once the query's filters fill in the missing ones. */
  function Override(e: Explicit, auto: AutoFilters): (r: Explicit)
    ensures r.maxMinutes.Some? <==> e.maxMinutes.Some? || auto.maxMinutes.Some?
    ensures r.diet.Some? <==> e.diet.Some? || auto.diet.Some?
    ensures r.meal.Some? <==> e.meal.Some? || auto.meal.Some?
  {
    Explicit(OrAuto(e.maxMinutes, auto.maxMinutes), OrAuto(e.diet, auto.diet), OrAuto(e.meal, auto.meal))
  }

  /** A value given explicitly, even the empty string, is kept; only a missing one is filled in. */
  lemma OverrideKeepsExplicit(e: Explicit, auto: AutoFilters)
    ensures e.maxMinutes.Some? ==> Override(e, auto).maxMinutes == e.maxMinutes
    ensures e.diet.Some? ==> Override(e, auto).diet == e.diet
    ensures e.meal.Some? ==> Override(e, auto).meal == e.meal
    ensures e.maxMinutes.None? ==> Override(e, auto).maxMinutes == auto.maxMinutes
    ensures e.diet.None? ==> Override(e, auto).diet == auto.diet
    ensures e.meal.None? ==> Override(e, auto).meal == auto.meal
  {
  }

  /** Filling in twice changes nothing more, and a complete command line ignores the query. */
  lemma OverrideIdempotent(e: Explicit, auto: AutoFilters)
    ensures Override(Override(e, auto), auto) == Override(e, auto)
    ensures e.maxMinutes.Some? && e.diet.Some? && e.meal.Some? ==> Override(e, auto) == e
  {
  }

  // ---------------------------------------------------------------------
  // Worked queries
  // ---------------------------------------------------------------------

  /** Only `u`, `l` or `<` can start the first pattern. */
  lemma LeadStart(t: string, p: nat)
    requires LeadLength(t, p) != 0
    ensures p < |t| && t[p] in "ul<"
  {
    if OccursAt(t, "under", p) {
      assert t[p..p + 5][0] == t[p];
    } else if OccursAt(t, "less than", p) {
      assert t[p..p + 9][0] == t[p];
    } else {
      assert t[p..p + 1][0] == t[p];
    }
  }

  /** A keyword whose first letter is missing from `t` does not occur in it. */
  lemma AbsentFirstLetter(t: string, w: string)
    requires w != [] && w[0] !in t
    ensures !Contains(t, w)
  {
    forall k | 0 <= k <= |t| ensures !OccursAt(t, w, k) {
      if k + |w| <= |t| {
        assert t[k..k + |w|][0] == t[k];
      }
    }
  }

  /** A lowercase text is its own `lower()`. */
  lemma LowerOfLowercase(s: string)
    requires IsLower(s)
    ensures Lower(s) == s
  {
  }

  /** The first pattern matching at `p`, with no cue of it earlier, sets the bound from its digits. */
  lemma BoundFromShape(t: string, p: nat, a: nat, q: nat, e: nat, s: nat)
    requires BoundedShape(t, p, a, q, e, s)
    requires forall i :: 0 <= i < p ==> t[i] !in "ul<"
    ensures TimeLimit(t) == Some(DigitsValue(t[q..e]))
  {
    forall i | 0 <= i < p ensures MatchAt(Bounded, t, i).None? {
      if LeadLength(t, i) != 0 {
        LeadStart(t, i);
      }
    }
    BoundedComplete(t, p, a, q, e, s);
    BoundedFirst(t, p);
  }

  const ExampleText: string := "vegan dinner under 30 minutes"

  lemma ExampleShape()
    ensures BoundedShape(ExampleText, 13, 5, 19, 21, 22)
    ensures forall i :: 0 <= i < 13 ==> ExampleText[i] !in "ul<"
    ensures ExampleText[19..21] == "30"
  {
    var t := ExampleText;
    assert t[13..18] == "under";
    assert t[22..25] == "min";
  }

  lemma ExampleCues(t: string)
    requires t == ExampleText
    ensures OccursAt(t, "vegan", 0) && OccursAt(t, "dinner", 6)
  {
    assert t == "vegan" + " " + "dinner" + " under 30 minutes";
  }

  lemma ExampleLetters(t: string)
    requires t == ExampleText
    ensures 'b' !in t && 'l' !in t
  {
  }

  lemma ExampleLowercase(t: string)
    requires t == ExampleText
    ensures IsLower(t)
  {
  }

  lemma ExampleKeywords(t: string)
    requires t == ExampleText
    ensures FirstKeyword(t, DietKeywords, 0) == Some(0)
    ensures FirstKeyword(t, MealKeywords, 0) == Some(3)
  {
    ExampleCues(t);
    ExampleLetters(t);
    FirstKeywordIs(t, DietKeywords, 0, 0);
    AbsentFirstLetter(t, "breakfast");
    AbsentFirstLetter(t, "brunch");
    AbsentFirstLetter(t, "lunch");
    FirstKeywordIs(t, MealKeywords, 0, 3);
  }

  lemma ExampleTime(t: string)
    requires t == ExampleText
    ensures TimeLimit(t) == Some(30)
  {
    ExampleShape();
    BoundFromShape(t, 13, 5, 19, 21, 22);
    assert DigitsValue("30") == 30;
  }

  /** The three rules on an already lowercase query whose diet cue has no space. */
  lemma AutoFiltersOfLowercase(q: string, n: int, d: nat, m: nat, dn: string, mn: string)
    requires IsLower(q) && TimeLimit(q) == Some(n)
    requires FirstKeyword(q, DietKeywords, 0) == Some(d) && d < |DietKeywords| && DietKeywords[d] == dn && ' ' !in dn
    requires FirstKeyword(q, MealKeywords, 0) == Some(m) && m < |MealKeywords| && MealKeywords[m] == mn
    ensures QueryAutoFilters(q) == AutoFilters(Some(n), Some(dn), Some(mn))
  {
    LowerOfLowercase(q);
    HyphenateNoSpace(dn);
  }

  /** The example query of the search script's usage text: bound 30, diet vegan, meal dinner. */
  lemma ExampleQuery(q: string)
    requires q == ExampleText
    ensures QueryAutoFilters(q) == AutoFilters(Some(30), Some("vegan"), Some("dinner"))
  {
    ExampleTime(q);
    ExampleKeywords(q);
    ExampleLowercase(q);
    ExampleNames();
    AutoFiltersOfLowercase(q, 30, 0, 3, "vegan", "dinner");
  }

  lemma ExampleNames()
    ensures DietKeywords[0] == "vegan" && ' ' !in "vegan" && MealKeywords[3] == "dinner"
  {
  }

  /** "20mins" sets no bound: after "min" the bare pattern needs a word boundary, and `s` is a word character. */
  lemma GluedMinsHasNoBound()
    ensures TimeLimit("20mins").None?
  {
    var t := "20mins";
    forall i | 0 <= i <= |t| ensures MatchAt(Bounded, t, i).None? && MatchAt(Bare, t, i).None? {
      GluedMinsBounded(t, i);
      GluedMinsBare(t, i);
    }
    NoTimeLimit(t);
  }

  /** "20mins" holds no `u`, `l` or `<`, so the first pattern matches nowhere. */
  lemma GluedMinsBounded(t: string, i: nat)
    requires t == "20mins" && i <= |t|
    ensures MatchAt(Bounded, t, i).None?
  {
    if LeadLength(t, i) != 0 {
      LeadStart(t, i);
    }
  }

  /** The bare pattern can only start at the leading digits, and the unit there is not followed by a boundary. */
  lemma GluedMinsBare(t: string, i: nat)
    requires t == "20mins" && i <= |t|
    ensures MatchAt(Bare, t, i).None?
  {
    if i == 0 {
      DigitEndAt(t, 0, 2);
      assert SpaceEnd(t, 2) == 2;
    }
  }

  lemma ThunderShape()
    ensures BoundedShape("thunder 5 min", 2, 5, 8, 9, 10)
    ensures forall i :: 0 <= i < 2 ==> "thunder 5 min"[i] !in "ul<"
    ensures "thunder 5 min"[8..9] == "5"
  {
    var t := "thunder 5 min";
    assert t[2..7] == "under";
    assert t[10..13] == "min";
  }

  /** The first pattern has no boundary before its cue, so "under" inside "thunder" counts. */
  lemma UnderInsideWord(t: string)
    requires t == "thunder 5 min"
    ensures TimeLimit(t) == Some(5)
  {
    ThunderShape();
    BoundFromShape(t, 2, 5, 8, 9, 10);
    assert DigitsValue("5") == 5;
  }
}
