/**
 * `apply_filters`: the conjunctive post-retrieval filter over candidates.
 * A candidate is dropped when its numeric `minutes` exceed the bound, when a
 * wanted diet or meal is not a substring of any entry, when the excluded
 * allergen is a substring of some entry, or when a banned ingredient term
 * occurs in its joined ingredient text. Iterating a truthy number or `true`
 * raises a TypeError in Python; the model reports that as `None`.
 */
module Filtering {
  import opened Wrappers
  import opened Text
  import opened Values
  import opened Candidates

  /** The filter arguments of `apply_filters`, each `None` when not given. */
  datatype FilterArgs = FilterArgs(
    maxMinutes: Option<int>,
    diet: Option<string>,
    meal: Option<string>,
    excludeAllergen: Option<string>,
    excludeIngredients: Option<string>)

  /** The arguments after the opening lines of `apply_filters` have normalised them. */
  datatype Prepared = Prepared(
    maxMinutes: Option<int>,
    wantedDiet: string,
    wantedMeal: string,
    exclAllergen: string,
    banned: seq<string>)

  /** `(s or "").lower().strip()`. */
  function Wanted(s: Option<string>): string {
    match s case Some(v) => Strip(Lower(v)) case None => ""
  }

  /** `[w.strip().lower() for w in ps if w.strip()]`. */
  function Terms(ps: seq<string>): (r: seq<string>)
    ensures |r| <= |ps|
  {
    if ps == [] then []
    else
      var rest := Terms(ps[1..]);
      if Strip(ps[0]) == "" then rest else [Lower(Strip(ps[0]))] + rest
  }

  /** The banned ingredient terms: none unless the argument is a non-empty string, else its comma-separated terms. */
  function BannedTerms(e: Option<string>): seq<string> {
    if e.Some? && e.value != "" then Terms(SplitOn(e.value, ',')) else []
  }

  function Prepare(args: FilterArgs): Prepared {
    Prepared(args.maxMinutes, Wanted(args.diet), Wanted(args.meal), Wanted(args.excludeAllergen),
             BannedTerms(args.excludeIngredients))
  }

  // ---------------------------------------------------------------------
  // The checks
  // ---------------------------------------------------------------------

  /** `x or []`. */
  function OrEmpty(j: Json): Json {
    if Truthy(j) then j else JArr([])
  }

  /** The value of `minutes` when `isinstance(mins, (int, float))` holds; `True` and `False` are ints. */
  function Numeric(j: Json): Option<int> {
    match j
    case JNum(n) => Some(n)
    case JBool(b) => Some(if b then 1 else 0)
    case _ => None
  }

  /** `has_substr`: an empty needle is always found, an empty list never holds one. */
  function HasSubstr(lst: Json, needle: string): Option<bool> {
    if needle == "" then Some(true)
    else if !Truthy(lst) then Some(false)
    else if !Iterable(lst) then None
    else Some(exists x :: x in IterStrs(lst) && Contains(Lower(x), needle))
  }

  /** The entries lowercased, `[str(x).lower() for x in lst]`. */
  function Lowered(xs: seq<string>): (r: seq<string>)
    ensures |r| == |xs| && forall k :: 0 <= k < |xs| ==> r[k] == Lower(xs[k])
  {
    seq(|xs|, k requires 0 <= k < |xs| => Lower(xs[k]))
  }

  /** `none_contains`: no banned term occurs in the entries joined by spaces. */
  function NoneContains(lst: Json, bans: seq<string>): Option<bool> {
    if !Iterable(lst) then None
    else
      var txt := Join(" ", Lowered(IterStrs(lst)));
      Some(forall b :: b in bans ==> !Contains(txt, b))
  }

  /** A check that raised, failed, or passed and leaves the decision to the next one. */
  function AndThen(check: Option<bool>, rest: Option<bool>): Option<bool> {
    match check
    case None => None
    case Some(pass) => if pass then rest else Some(false)
  }

  function Negate(r: Option<bool>): Option<bool> {
    match r case None => None case Some(b) => Some(!b)
  }

  /** Whether the candidate's minutes keep it: only a numeric value above the bound drops it. */
  predicate TimePasses(c: Candidate, p: Prepared) {
    !(p.maxMinutes.Some? && Numeric(GetJson(c.fields, "minutes")).Some?
      && Numeric(GetJson(c.fields, "minutes")).value > p.maxMinutes.value)
  }

  function DietCheck(c: Candidate, p: Prepared): Option<bool> {
    if p.wantedDiet == "" then Some(true) else HasSubstr(OrEmpty(GetJson(c.fields, "diets")), p.wantedDiet)
  }

  function MealCheck(c: Candidate, p: Prepared): Option<bool> {
    if p.wantedMeal == "" then Some(true) else HasSubstr(OrEmpty(GetJson(c.fields, "meals")), p.wantedMeal)
  }

  function AllergenCheck(c: Candidate, p: Prepared): Option<bool> {
    if p.exclAllergen == "" then Some(true)
    else Negate(HasSubstr(OrEmpty(GetJson(c.fields, "allergens")), p.exclAllergen))
  }

  function IngredientCheck(c: Candidate, p: Prepared): Option<bool> {
    if p.banned == [] then Some(true) else NoneContains(OrEmpty(GetJson(c.fields, "ingredients")), p.banned)
  }

  /** The five checks in the order of the loop body: `Some(true)` keeps, `Some(false)` skips, `None` raises. */
  function Keep(c: Candidate, p: Prepared): Option<bool> {
    AndThen(Some(TimePasses(c, p)),
      AndThen(DietCheck(c, p),
        AndThen(MealCheck(c, p),
          AndThen(AllergenCheck(c, p), IngredientCheck(c, p)))))
  }

  /** `Keep` with the prepared arguments fixed. */
  function KeepWith(p: Prepared): Candidate -> Option<bool> {
    c => Keep(c, p)
  }

  /** The survivors among `rs[..n]` of the verdicts `keep`, in order; `None` once a verdict is an error. */
  function SelectBy(rs: seq<Candidate>, keep: Candidate -> Option<bool>, n: nat): Option<seq<Candidate>>
    requires n <= |rs|
  {
    if n == 0 then Some([])
    else
      var prev := SelectBy(rs, keep, n - 1);
      var k := keep(rs[n - 1]);
      if prev.None? || k.None? then None
      else if k.value then Some(prev.value + [rs[n - 1]])
      else prev
  }

  /** The survivors among `rs[..n]`, in order; `None` once a check has raised. */
  function Selected(rs: seq<Candidate>, p: Prepared, n: nat): Option<seq<Candidate>>
    requires n <= |rs|
  {
    SelectBy(rs, KeepWith(p), n)
  }

  lemma {:induction false} SelectByErrorPersists(rs: seq<Candidate>, keep: Candidate -> Option<bool>, n: nat, m: nat)
    requires n <= m <= |rs| && SelectBy(rs, keep, n).None?
    ensures SelectBy(rs, keep, m).None?
    decreases m - n
  {
    if n < m {
      SelectByErrorPersists(rs, keep, n + 1, m);
    }
  }

  /** Once a check has raised, the filter has failed. */
  lemma SelectedErrorPersists(rs: seq<Candidate>, p: Prepared, n: nat, m: nat)
    requires n <= m <= |rs| && Selected(rs, p, n).None?
    ensures Selected(rs, p, m).None?
  {
    SelectByErrorPersists(rs, KeepWith(p), n, m);
  }

  /**
   * The body of the filtering loop for one record: `Some(false)` where the
   * loop would `continue`, `None` where a check raises.
   */
  method CheckRecord(r: Candidate, p: Prepared) returns (keep: Option<bool>)
    ensures keep == Keep(r, p)
  {
    var mins := GetJson(r.fields, "minutes");
    var diets := OrEmpty(GetJson(r.fields, "diets"));
    var allergens := OrEmpty(GetJson(r.fields, "allergens"));
    var meals := OrEmpty(GetJson(r.fields, "meals"));
    var ingredients := OrEmpty(GetJson(r.fields, "ingredients"));
    if p.maxMinutes.Some? && Numeric(mins).Some? && Numeric(mins).value > p.maxMinutes.value {
      return Some(false);
    }
    if p.wantedDiet != "" {
      var h := HasSubstr(diets, p.wantedDiet);
      if h.None? || !h.value {
        return h;
      }
    }
    if p.wantedMeal != "" {
      var h := HasSubstr(meals, p.wantedMeal);
      if h.None? || !h.value {
        return h;
      }
    }
    if p.exclAllergen != "" {
      var h := HasSubstr(allergens, p.exclAllergen);
      if h.None? || h.value {
        return Negate(h);
      }
    }
    if p.banned != [] {
      var h := NoneContains(ingredients, p.banned);
      if h.None? || !h.value {
        return h;
      }
    }
    return Some(true);
  }

  /** The filtering loop: a record a check rejects is skipped, the others are appended in order. */
  method ApplyFilters(results: seq<Candidate>, args: FilterArgs) returns (out: Option<seq<Candidate>>)
    ensures out == Selected(results, Prepare(args), |results|)
  {
    var p := Prepare(args);
    var acc: seq<Candidate> := [];
    for i := 0 to |results|
      invariant Selected(results, p, i) == Some(acc)
    {
      var keep := CheckRecord(results[i], p);
      if keep.None? {
        SelectedErrorPersists(results, p, i + 1, |results|);
        return None;
      }
      if !keep.value {
        continue;
      }
      acc := acc + [results[i]];
    }
    out := Some(acc);
  }

  // ---------------------------------------------------------------------
  // What the filter keeps
  // ---------------------------------------------------------------------

  /** `xs` is `ys` with some elements left out, the rest in their order. */
  predicate IsSubsequence<T(==)>(xs: seq<T>, ys: seq<T>)
    decreases |ys|
  {
    if ys == [] then xs == []
    else
      || (xs != [] && xs[|xs| - 1] == ys[|ys| - 1] && IsSubsequence(xs[..|xs| - 1], ys[..|ys| - 1]))
      || IsSubsequence(xs, ys[..|ys| - 1])
  }

  /** The selection fails exactly when some verdict is an error. */
  lemma {:induction false} SelectByOk(rs: seq<Candidate>, keep: Candidate -> Option<bool>, n: nat)
    requires n <= |rs|
    ensures SelectBy(rs, keep, n).Some? <==> forall k :: 0 <= k < n ==> keep(rs[k]).Some?
    decreases n
  {
    if n > 0 {
      SelectByOk(rs, keep, n - 1);
      if SelectBy(rs, keep, n - 1).None? {
        SelectByErrorPersists(rs, keep, n - 1, n);
      }
    }
  }

  lemma {:induction false} SelectBySubsequence(rs: seq<Candidate>, keep: Candidate -> Option<bool>, n: nat)
    requires n <= |rs| && SelectBy(rs, keep, n).Some?
    ensures IsSubsequence(SelectBy(rs, keep, n).value, rs[..n])
    decreases n
  {
    if n > 0 {
      var prev := SelectBy(rs, keep, n - 1);
      assert rs[..n][..n - 1] == rs[..n - 1];
      SelectBySubsequence(rs, keep, n - 1);
      if keep(rs[n - 1]) == Some(true) {
        var out := prev.value + [rs[n - 1]];
        assert out[..|out| - 1] == prev.value;
      }
    }
  }

  lemma {:induction false} SelectByMembers(rs: seq<Candidate>, keep: Candidate -> Option<bool>, n: nat)
    requires n <= |rs| && SelectBy(rs, keep, n).Some?
    ensures forall x :: x in SelectBy(rs, keep, n).value ==> keep(x) == Some(true)
    ensures forall k :: 0 <= k < n && keep(rs[k]) == Some(true) ==> rs[k] in SelectBy(rs, keep, n).value
    decreases n
  {
    if n > 0 {
      SelectByMembers(rs, keep, n - 1);
    }
  }

  lemma {:induction false} SelectByFromInput(rs: seq<Candidate>, keep: Candidate -> Option<bool>, n: nat)
    requires n <= |rs| && SelectBy(rs, keep, n).Some?
    ensures forall x :: x in SelectBy(rs, keep, n).value ==> x in rs[..n]
    decreases n
  {
    if n > 0 {
      SelectByFromInput(rs, keep, n - 1);
      assert rs[..n] == rs[..n - 1] + [rs[n - 1]];
    }
  }

  lemma {:induction false} SelectByAll(rs: seq<Candidate>, keep: Candidate -> Option<bool>, n: nat)
    requires n <= |rs| && forall k :: 0 <= k < n ==> keep(rs[k]) == Some(true)
    ensures SelectBy(rs, keep, n) == Some(rs[..n])
    decreases n
  {
    if n > 0 {
      SelectByAll(rs, keep, n - 1);
      assert rs[..n] == rs[..n - 1] + [rs[n - 1]];
    }
  }

  /** The filter raises exactly when some record's checks raise. */
  lemma SelectedOk(rs: seq<Candidate>, p: Prepared, n: nat)
    requires n <= |rs|
    ensures Selected(rs, p, n).Some? <==> forall k :: 0 <= k < n ==> Keep(rs[k], p).Some?
  {
    SelectByOk(rs, KeepWith(p), n);
  }

  /** The output keeps the input's order: it is a subsequence of the input. */
  lemma SelectedSubsequence(rs: seq<Candidate>, p: Prepared, n: nat)
    requires n <= |rs| && Selected(rs, p, n).Some?
    ensures IsSubsequence(Selected(rs, p, n).value, rs[..n])
  {
    SelectBySubsequence(rs, KeepWith(p), n);
  }

  /** The output holds exactly the records that every check keeps. */
  lemma SelectedMembers(rs: seq<Candidate>, p: Prepared, n: nat)
    requires n <= |rs| && Selected(rs, p, n).Some?
    ensures forall x :: x in Selected(rs, p, n).value ==> Keep(x, p) == Some(true)
    ensures forall k :: 0 <= k < n && Keep(rs[k], p) == Some(true) ==> rs[k] in Selected(rs, p, n).value
  {
    SelectByMembers(rs, KeepWith(p), n);
  }

  /** Every record the filter keeps is one of its input records. */
  lemma SelectedFromInput(rs: seq<Candidate>, p: Prepared, n: nat)
    requires n <= |rs| && Selected(rs, p, n).Some?
    ensures forall x :: x in Selected(rs, p, n).value ==> x in rs[..n]
  {
    SelectByFromInput(rs, KeepWith(p), n);
  }

  /** A record of the whole input that passes every filter is among the survivors. */
  lemma SelectedHas(rs: seq<Candidate>, p: Prepared, x: Candidate)
    requires x in rs && Keep(x, p) == Some(true) && Selected(rs, p, |rs|).Some?
    ensures x in Selected(rs, p, |rs|).value
  {
    SelectedMembers(rs, p, |rs|);
    var k :| 0 <= k < |rs| && rs[k] == x;
  }

  /** No filter is active: no bound, and the wanted and excluded strings and the banned terms are all empty. */
  predicate Unset(p: Prepared) {
    p.maxMinutes.None? && p.wantedDiet == "" && p.wantedMeal == "" && p.exclAllergen == "" && p.banned == []
  }

  /** With no filter active, every record is kept and nothing raises. */
  lemma UnsetKeepsAll(rs: seq<Candidate>, p: Prepared, n: nat)
    requires n <= |rs| && Unset(p)
    ensures Selected(rs, p, n) == Some(rs[..n])
  {
    SelectByAll(rs, KeepWith(p), n);
  }

  /** Arguments that are all `None`, or blank strings (for the exclusions, only blank or comma pieces), activate no filter. */
  lemma BlankArgsUnset(args: FilterArgs)
    requires args.maxMinutes.None?
    requires args.diet.None? || AllSpace(Lower(args.diet.value))
    requires args.meal.None? || AllSpace(Lower(args.meal.value))
    requires args.excludeAllergen.None? || AllSpace(Lower(args.excludeAllergen.value))
    requires args.excludeIngredients.None? || Terms(SplitOn(args.excludeIngredients.value, ',')) == []
    ensures Unset(Prepare(args))
  {
    if args.diet.Some? {
      StripBlank(Lower(args.diet.value));
    }
    if args.meal.Some? {
      StripBlank(Lower(args.meal.value));
    }
    if args.excludeAllergen.Some? {
      StripBlank(Lower(args.excludeAllergen.value));
    }
  }

  /**
   * The time bound drops a record only when its `minutes` is a number above
   * the bound; otherwise the record fares as if no bound were given, so
   * absent or non-numeric minutes always pass.
   */
  lemma TimeRule(c: Candidate, p: Prepared)
    ensures var m := Numeric(GetJson(c.fields, "minutes"));
      Keep(c, p) == if p.maxMinutes.Some? && m.Some? && m.value > p.maxMinutes.value then Some(false)
                    else Keep(c, p.(maxMinutes := None))
  {
  }

  /** A wanted diet drops every record whose `diets` is missing or empty. */
  lemma WantedDietNeedsEntries(c: Candidate, p: Prepared)
    requires p.wantedDiet != "" && !Truthy(GetJson(c.fields, "diets"))
    ensures Keep(c, p) == Some(false)
  {
  }

  /** A wanted meal drops every record whose `meals` is missing or empty. */
  lemma WantedMealNeedsEntries(c: Candidate, p: Prepared)
    requires p.wantedMeal != "" && !Truthy(GetJson(c.fields, "meals"))
    ensures TimePasses(c, p) && DietCheck(c, p) == Some(true) ==> Keep(c, p) == Some(false)
    ensures MealCheck(c, p) == Some(false)
  {
  }

  /** On a list of strings, `x or []` iterates as the strings themselves. */
  lemma IterStrsOfList(xs: seq<string>)
    ensures IterStrs(OrEmpty(StrList(xs))) == xs
    ensures Iterable(OrEmpty(StrList(xs)))
    ensures Truthy(OrEmpty(StrList(xs))) <==> xs != []
  {
    IterStrsOfStrList(xs);
    if xs == [] {
      assert StrList(xs) == JArr([]);
    } else {
      assert StrList(xs).items[0] == JStr(xs[0]);
    }
  }

  /** `has_substr` on a list of strings: some entry, lowercased, holds the needle. */
  lemma HasSubstrOfList(xs: seq<string>, needle: string)
    requires needle != ""
    ensures HasSubstr(OrEmpty(StrList(xs)), needle) ==
      Some(exists k :: 0 <= k < |xs| && Contains(Lower(xs[k]), needle))
  {
    IterStrsOfList(xs);
  }

  /** `none_contains` on a list of strings: no banned term in the lowercased entries joined by spaces. */
  lemma NoneContainsOfList(xs: seq<string>, bans: seq<string>)
    ensures NoneContains(OrEmpty(StrList(xs)), bans) ==
      Some(forall b :: b in bans ==> !Contains(Join(" ", Lowered(xs)), b))
  {
    IterStrsOfList(xs);
  }

  /**
   * For a record whose list fields are lists of strings no check raises, and
   * the record is kept exactly when: its numeric minutes, if any, are within
   * the bound; some diet entry holds the wanted diet; some meal entry holds
   * the wanted meal; no allergen entry holds the excluded allergen; and no
   * banned term occurs in the joined ingredients, all compared lowercased.
   */
  lemma KeepOfStringLists(c: Candidate, p: Prepared, diets: seq<string>, meals: seq<string>,
                          allergens: seq<string>, ingredients: seq<string>)
    requires GetJson(c.fields, "diets") == StrList(diets)
    requires GetJson(c.fields, "meals") == StrList(meals)
    requires GetJson(c.fields, "allergens") == StrList(allergens)
    requires GetJson(c.fields, "ingredients") == StrList(ingredients)
    ensures Keep(c, p) == Some(
      && TimePasses(c, p)
      && (p.wantedDiet == "" || exists k :: 0 <= k < |diets| && Contains(Lower(diets[k]), p.wantedDiet))
      && (p.wantedMeal == "" || exists k :: 0 <= k < |meals| && Contains(Lower(meals[k]), p.wantedMeal))
      && (p.exclAllergen == "" || forall k :: 0 <= k < |allergens| ==> !Contains(Lower(allergens[k]), p.exclAllergen))
      && (forall b :: b in p.banned ==> !Contains(Join(" ", Lowered(ingredients)), b)))
  {
    if p.wantedDiet != "" {
      HasSubstrOfList(diets, p.wantedDiet);
    }
    if p.wantedMeal != "" {
      HasSubstrOfList(meals, p.wantedMeal);
    }
    if p.exclAllergen != "" {
      HasSubstrOfList(allergens, p.exclAllergen);
    }
    NoneContainsOfList(ingredients, p.banned);
  }

  // ---------------------------------------------------------------------
  // The normalised arguments
  // ---------------------------------------------------------------------

  lemma LowerKeepsSpace(s: string)
    ensures forall k :: 0 <= k < |s| ==> (IsSpace(Lower(s)[k]) <==> IsSpace(s[k]))
  {
  }

  /** Every slice of a lowercase string is lowercase. */
  lemma LowerSlice(s: string, a: nat, b: nat)
    requires a <= b <= |s| && IsLower(s)
    ensures IsLower(s[a..b])
  {
    assert forall k :: 0 <= k < b - a ==> s[a..b][k] == s[a + k];
  }

  /** `Lower(s)` has no upper-case ASCII letter. */
  lemma LowerIsLower(s: string)
    ensures IsLower(Lower(s))
  {
  }

  /** A stripped string, lowercased, is still stripped. */
  lemma LowerStripped(s: string)
    requires IsStripped(s)
    ensures IsStripped(Lower(s))
  {
    LowerKeepsSpace(s);
  }

  /** Stripping a lowercase string leaves it lowercase. */
  lemma StripLower(s: string)
    requires IsLower(s)
    ensures IsLower(Strip(s))
  {
    var a := SkipLeft(s, 0);
    LowerSlice(s, a, SkipRight(s, a, |s|));
  }

  /** The wanted diet, meal and allergen are lowercase and carry no surrounding whitespace. */
  lemma WantedNormal(s: Option<string>)
    ensures IsStripped(Wanted(s)) && IsLower(Wanted(s))
  {
    if s.Some? {
      LowerIsLower(s.value);
      StripLower(Lower(s.value));
    }
  }

  /** Every banned term is non-empty, stripped and lowercase. */
  lemma {:induction false} TermsNormal(ps: seq<string>)
    ensures forall t :: t in Terms(ps) ==> t != "" && IsStripped(t) && IsLower(t)
    decreases |ps|
  {
    if ps != [] {
      TermsNormal(ps[1..]);
      var x := Strip(ps[0]);
      if x != "" {
        LowerStripped(x);
        LowerIsLower(x);
      }
    }
  }

  /** Every non-blank piece gives a banned term. */
  lemma {:induction false} TermsComplete(ps: seq<string>)
    ensures forall k :: 0 <= k < |ps| && Strip(ps[k]) != "" ==> Lower(Strip(ps[k])) in Terms(ps)
    decreases |ps|
  {
    if ps != [] {
      TermsComplete(ps[1..]);
      forall k | 1 <= k < |ps| && Strip(ps[k]) != "" ensures Lower(Strip(ps[k])) in Terms(ps) {
        assert ps[1..][k - 1] == ps[k];
      }
    }
  }

  /** Every banned term comes from a non-blank piece. */
  lemma {:induction false} TermsSound(ps: seq<string>)
    ensures forall t :: t in Terms(ps) ==> exists k :: 0 <= k < |ps| && Strip(ps[k]) != "" && t == Lower(Strip(ps[k]))
    decreases |ps|
  {
    if ps != [] {
      TermsSound(ps[1..]);
      forall t | t in Terms(ps[1..])
        ensures exists k :: 0 <= k < |ps| && Strip(ps[k]) != "" && t == Lower(Strip(ps[k]))
      {
        var k :| 0 <= k < |ps[1..]| && Strip(ps[1..][k]) != "" && t == Lower(Strip(ps[1..][k]));
        assert ps[k + 1] == ps[1..][k];
      }
    }
  }

  /** The banned terms of a comma-separated argument, as `TermsMembers` describes them. */
  lemma BannedTermsOf(e: string)
    requires e != ""
    ensures BannedTerms(Some(e)) == Terms(SplitOn(e, ','))
    ensures forall t :: t in BannedTerms(Some(e)) ==> t != "" && IsStripped(t) && IsLower(t) && ',' !in t
  {
    var ps := SplitOn(e, ',');
    TermsNormal(ps);
    TermsSound(ps);
    forall t | t in Terms(ps) ensures ',' !in t {
      var k :| 0 <= k < |ps| && Strip(ps[k]) != "" && t == Lower(Strip(ps[k]));
      StripNoComma(ps[k]);
    }
  }

  lemma StripNoComma(s: string)
    requires ',' !in s
    ensures ',' !in Lower(Strip(s))
  {
    var a := SkipLeft(s, 0);
    var b := SkipRight(s, a, |s|);
    assert forall k :: 0 <= k < b - a ==> Strip(s)[k] == s[a + k];
  }
}
