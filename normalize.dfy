/**
 * Record normalisation: one CSV row becomes one recipe document with an id,
 * a title, the text to embed and structured metadata. Every field has a
 * fallback (blank, absent or empty list) instead of an error.
 */
module Normalize {
  import opened Wrappers
  import opened Text
  import opened Values
  import opened ListLiteral

  // ---------------------------------------------------------------------
  // List cells
  // ---------------------------------------------------------------------

  /** Every item is stripped and non-empty: the shape of every list field of a document. */
  predicate IsClean(xs: seq<string>) {
    forall k :: 0 <= k < |xs| ==> xs[k] != [] && IsStripped(xs[k])
  }

  /** The stripped items that are not blank, in order. */
  function CleanItems(xs: seq<string>): (r: seq<string>)
    ensures IsClean(r)
    ensures |r| <= |xs|
    decreases |xs|
  {
    if xs == [] then []
    else
      var h := Strip(xs[0]);
      (if h == [] then [] else [h]) + CleanItems(xs[1..])
  }

  /** An item is kept exactly when it is the non-blank stripped form of some input item. */
  lemma {:induction false} CleanItemsMembers(xs: seq<string>, x: string)
    ensures x in CleanItems(xs) <==> x != [] && exists j :: 0 <= j < |xs| && Strip(xs[j]) == x
    decreases |xs|
  {
    if xs != [] {
      CleanItemsMembers(xs[1..], x);
      var h := Strip(xs[0]);
      assert CleanItems(xs) == (if h == [] then [] else [h]) + CleanItems(xs[1..]);
      if exists j :: 0 <= j < |xs| && Strip(xs[j]) == x {
        var j :| 0 <= j < |xs| && Strip(xs[j]) == x;
        if j > 0 {
          assert Strip(xs[1..][j - 1]) == x;
        }
      }
      if exists j :: 0 <= j < |xs[1..]| && Strip(xs[1..][j]) == x {
        var j :| 0 <= j < |xs[1..]| && Strip(xs[1..][j]) == x;
        assert Strip(xs[j + 1]) == x;
      }
    }
  }

  /** A list that is already clean passes through unchanged, so cleaning is idempotent. */
  lemma {:induction false} CleanItemsOfClean(xs: seq<string>)
    requires IsClean(xs)
    ensures CleanItems(xs) == xs
    decreases |xs|
  {
    if xs != [] {
      StripStripped(xs[0]);
      CleanItemsOfClean(xs[1..]);
      assert xs == [xs[0]] + xs[1..];
    }
  }

  /**
   * `as_list`: None and NaN give `[]`; a list keeps its non-blank stripped
   * items; any other value is printed and stripped, and `AsListText` reads it.
   */
  function AsList(c: Cell): (r: seq<string>)
    ensures IsClean(r)
    ensures c.Null? || c.NaN? ==> r == []
    ensures c.TextCell? && Strip(c.s) == [] ==> r == []
  {
    match c
    case Null => []
    case NaN => []
    case ListCell(items) => CleanItems(items)
    case _ => AsListText(Strip(CellStr(c)))
  }

  /** A printed, stripped cell: blank gives `[]`, a list literal its items, anything else is split on commas. */
  function AsListText(s: string): (r: seq<string>)
    ensures IsClean(r)
    ensures s == [] ==> r == []
  {
    if s == [] then [] else LiteralOrSplit(s)
  }

  /** The list-literal reading when there is one, comma splitting otherwise. */
  function LiteralOrSplit(s: string): (r: seq<string>)
    ensures IsClean(r)
  {
    var lit := LiteralEval(s);
    if lit.Some? && lit.value.ListLit? then CleanItems(lit.value.items)
    else CleanItems(SplitOn(s, ','))
  }

  /** Any cell other than None, NaN or a list is read through its stripped printed form. */
  lemma AsListOfScalar(c: Cell)
    requires c.IntCell? || c.TextCell?
    ensures AsList(c) == AsListText(Strip(CellStr(c)))
  {
  }

  /** A text cell that is already stripped goes straight to `AsListText`. */
  lemma AsListOfStrippedText(s: string)
    requires IsStripped(s)
    ensures AsList(TextCell(s)) == AsListText(s)
  {
    AsListOfScalar(TextCell(s));
    StripStripped(s);
  }

  /** A successful list-literal parse wins over comma splitting. */
  lemma LiteralPreferred(s: string, xs: seq<string>)
    requires s != [] && LiteralEval(s) == Some(ListLit(xs))
    ensures AsListText(s) == CleanItems(xs)
  {
    assert AsListText(s) == LiteralOrSplit(s);
  }

  /** Comma splitting is reached only when the literal parse fails or gives a scalar. */
  lemma SplitOtherwise(s: string)
    requires s != [] && (LiteralEval(s).None? || LiteralEval(s).value.ScalarLit?)
    ensures AsListText(s) == CleanItems(SplitOn(s, ','))
  {
    assert AsListText(s) == LiteralOrSplit(s);
  }

  /** The printed form of a list of strings is read back as that list, not split on its commas. */
  lemma AsListOfListText(xs: seq<string>)
    requires xs != []
    requires forall k :: 0 <= k < |xs| ==> Quotable(xs[k])
    ensures AsList(TextCell(ListText(xs))) == CleanItems(xs)
  {
    var s := ListText(xs);
    ListTextStripped(xs);
    AsListOfStrippedText(s);
    LiteralEvalOfListText(xs);
    LiteralPreferred(s, xs);
  }

  /** `str(xs)` opens with `[` and closes with `]`, so stripping leaves it alone. */
  lemma ListTextStripped(xs: seq<string>)
    ensures ListText(xs) != [] && ListText(xs)[0] == '[' && IsStripped(ListText(xs))
  {
    var s := ListText(xs);
    ListBodyEnd(xs);
    assert s[|s| - 1] == ListBody(xs)[|ListBody(xs)| - 1];
  }

  lemma {:induction false} ListBodyEnd(xs: seq<string>)
    ensures |ListBody(xs)| >= 1 && ListBody(xs)[|ListBody(xs)| - 1] == ']'
    decreases |xs|
  {
    if |xs| > 1 {
      ListBodyEnd(xs[1..]);
    }
  }

  /** Text that does not open with `[` is never a list literal, so it is split on commas. */
  lemma CommaFallback(s: string)
    requires s != [] && s[0] != '['
    ensures AsListText(s) == CleanItems(SplitOn(s, ','))
  {
    assert !(LiteralEval(s).Some? && LiteralEval(s).value.ListLit?);
    SplitOtherwise(s);
  }

  // ---------------------------------------------------------------------
  // Integer fields
  // ---------------------------------------------------------------------

  /**
   * `int(v) if v == v else None` with any exception read as None: NaN is
   * the one value unequal to itself; `int(None)` and `int(list)` raise.
   */
  function CoerceInt(c: Cell): (r: Option<int>)
    ensures c.Null? || c.NaN? || c.ListCell? ==> r == None
    ensures c.IntCell? ==> r == Some(c.i)
    ensures c.TextCell? && Strip(c.s) == [] ==> r == None
  {
    match c
    case IntCell(i) => Some(i)
    case TextCell(s) => ParseInt(s)
    case _ => None
  }

  /** A text cell holding a printed integer is read as that integer. */
  lemma CoerceIntOfDecimalText(i: int)
    ensures CoerceInt(TextCell(IntToString(i))) == Some(i)
  {
    ParseIntOfIntToString(i);
  }

  // ---------------------------------------------------------------------
  // Diet flags
  // ---------------------------------------------------------------------

  datatype DietFlags = DietFlags(isVegan: bool, isVegetarian: bool, isGlutenFree: bool, isDairyFree: bool)

  /** `contains(lst, key)`: the lowercased key occurs in some lowercased item. */
  predicate Mentions(lst: seq<string>, key: string) {
    exists k :: 0 <= k < |lst| && Contains(Lower(lst[k]), Lower(key))
  }

  /** The four heuristics; dairy-free holds unless the allergens mention dairy and the diets do not say dairy-free. */
  function Flags(diets: seq<string>, tags: seq<string>, allergens: seq<string>): (f: DietFlags)
    ensures f.isDairyFree <==> Mentions(diets, "dairy-free") || !Mentions(allergens, "dairy")
    ensures f.isGlutenFree <==> Mentions(diets, "gluten") || Mentions(tags, "gluten-free")
  {
    DietFlags(
      Mentions(diets, "vegan"),
      Mentions(diets, "vegetarian"),
      Mentions(diets, "gluten") || Mentions(tags, "gluten-free"),
      Mentions(diets, "dairy-free") || !Mentions(allergens, "dairy"))
  }

  /** With no allergens listed, every recipe is flagged dairy-free. */
  lemma DairyFreeWithoutAllergens(diets: seq<string>, tags: seq<string>)
    ensures Flags(diets, tags, []).isDairyFree
  {
  }

  /** An item mentions a key it contains anywhere, whatever the letter case. */
  lemma MentionsInside(lst: seq<string>, i: nat, a: string, w: string, b: string, key: string)
    requires i < |lst| && lst[i] == a + w + b
    requires Lower(w) == Lower(key)
    ensures Mentions(lst, key)
  {
    var h := Lower(lst[i]);
    assert h[|a|..|a| + |w|] == Lower(w);
    ContainsAt(h, Lower(key), |a|);
  }

  /** No item mentions a key longer than itself. */
  lemma NoMentionOfLongerKey(lst: seq<string>, key: string)
    requires forall k :: 0 <= k < |lst| ==> |lst[k]| < |key|
    ensures !Mentions(lst, key)
  {
  }

  /** A diet labelled "Non-Vegan" is flagged vegan: the test is a substring match. */
  lemma NonVeganIsFlaggedVegan()
    ensures Flags(["Non-Vegan"], [], []).isVegan
  {
    assert "Non-Vegan" == "Non-" + "Vegan" + "";
    assert Lower("Vegan") == Lower("vegan");
    MentionsInside(["Non-Vegan"], 0, "Non-", "Vegan", "", "vegan");
  }

  /** "vegan" alone does not make a recipe vegetarian. */
  lemma VeganIsNotVegetarian()
    ensures !Flags(["vegan"], [], []).isVegetarian
  {
    NoMentionOfLongerKey(["vegan"], "vegetarian");
  }

  /** An allergen "Dairy" clears the dairy-free flag when no diet says dairy-free. */
  lemma DairyAllergenClearsDairyFree()
    ensures !Flags([], [], ["Dairy"]).isDairyFree
  {
    assert "Dairy" == "" + "Dairy" + "";
    assert Lower("Dairy") == Lower("dairy");
    MentionsInside(["Dairy"], 0, "", "Dairy", "", "dairy");
  }

  // ---------------------------------------------------------------------
  // The recipe document
  // ---------------------------------------------------------------------

  const Placeholder := "(Unnamed Recipe)"
  const Dataset := "updated_combined_data_categories_embedded.csv"

  datatype Metadata = Metadata(
    minutes: Option<int>,
    servings: Option<int>,
    servingSize: Option<string>,
    ingredients: seq<string>,
    steps: seq<string>,
    tags: seq<string>,
    diets: seq<string>,
    allergens: seq<string>,
    meals: seq<string>,
    cuisine: Option<string>,
    dietFlags: DietFlags,
    dataset: string,
    rowIndex: nat)

  datatype Recipe = Recipe(id: string, title: string, text: string, metadata: Metadata)

  /** `str(row.get(key, "")).strip()`. */
  function FieldText(row: Row, key: string): (r: string)
    ensures IsStripped(r)
  {
    Strip(CellStr(GetOr(row, key, TextCell(""))))
  }

  /** `str(...).strip() or None`. */
  function OptField(row: Row, key: string): (r: Option<string>)
    ensures r.Some? ==> r.value != [] && IsStripped(r.value)
    ensures r.None? <==> FieldText(row, key) == []
  {
    var s := FieldText(row, key);
    if s == [] then None else Some(s)
  }

  /** The id column is missing, None, or prints as blank. */
  predicate IdBlank(row: Row) {
    Get(row, "id").Null? || Strip(CellStr(Get(row, "id"))) == []
  }

  /** The stripped source id, or `freshId` (the generated UUID) when that is blank. */
  function RecipeId(row: Row, freshId: string): (id: string)
    ensures IdBlank(row) ==> id == freshId
    ensures !IdBlank(row) ==> id == Strip(CellStr(Get(row, "id"))) && id != [] && IsStripped(id)
  {
    var rid := Get(row, "id");
    var s := if rid.Null? then "" else Strip(CellStr(rid));
    if s == [] then freshId else s
  }

  /** The stripped name, or the placeholder when it is blank. */
  function RecipeTitle(row: Row): (t: string)
    ensures t != [] && IsStripped(t)
    ensures FieldText(row, "name") == [] ==> t == Placeholder
    ensures FieldText(row, "name") != [] ==> t == FieldText(row, "name")
  {
    var s := FieldText(row, "name");
    if s == [] then Placeholder else s
  }

  /** `str(row.get("combined_text") or "").strip()`. */
  function GivenText(row: Row): (r: string)
    ensures IsStripped(r)
  {
    var c := Get(row, "combined_text");
    if CellTruthy(c) then Strip(CellStr(c)) else ""
  }

  /** The numbered steps `Step 1. ...`, `Step 2. ...`. */
  function StepLines(steps: seq<string>): (r: seq<string>)
    ensures |r| == |steps|
  {
    seq(|steps|, i requires 0 <= i < |steps| => "Step " + NatToString(i + 1) + ". " + steps[i])
  }

  /** The items that are not empty strings, in order. */
  function NonEmpty(xs: seq<string>): (r: seq<string>)
    ensures forall k :: 0 <= k < |r| ==> r[k] != []
    ensures forall x :: x in r <==> x in xs && x != []
  {
    if xs == [] then []
    else (if xs[0] == [] then [] else [xs[0]]) + NonEmpty(xs[1..])
  }

  function OptItem(o: Option<string>): seq<string> {
    if o.Some? then [o.value] else []
  }

  /** The `Meta:` line: cuisine, diets and tags, blanks left out, comma-separated. */
  function MetaLine(cuisine: Option<string>, diets: seq<string>, tags: seq<string>): string {
    Join(", ", NonEmpty(OptItem(cuisine) + diets + tags))
  }

  /** The text written when the row carries none: title, ingredients, numbered steps and the meta line. */
  function SynthText(title: string, m: Metadata): string {
    Strip(title + SynthTail(m))
  }

  function SynthTail(m: Metadata): string {
    "\nIngredients: " + Join(", ", m.ingredients)
    + "\n" + Join(" ", StepLines(m.steps))
    + "\nMeta: " + MetaLine(m.cuisine, m.diets, m.tags)
  }

  /** The synthesised text starts with the title; only trailing whitespace is trimmed. */
  lemma SynthTextStartsWithTitle(title: string, m: Metadata)
    requires title != [] && IsStripped(title)
    ensures SynthText(title, m) == title + TrimRight(SynthTail(m))
  {
    StripAfterText(title, SynthTail(m));
  }

  /** The metadata of a row, before the text is chosen. */
  function RowMetadata(row: Row, rowIndex: nat): (m: Metadata)
    ensures IsClean(m.ingredients) && IsClean(m.steps) && IsClean(m.tags)
    ensures IsClean(m.diets) && IsClean(m.allergens) && IsClean(m.meals)
    ensures Get(row, "minutes").NaN? ==> m.minutes == None
    ensures Get(row, "servings").NaN? ==> m.servings == None
    ensures m.allergens == [] ==> m.dietFlags.isDairyFree
    ensures m.dataset == Dataset && m.rowIndex == rowIndex
    ensures m.minutes == CoerceInt(Get(row, "minutes")) && m.servings == CoerceInt(Get(row, "servings"))
    ensures m.servingSize == OptField(row, "serving_size") && m.cuisine == OptField(row, "cuisine")
    ensures m.ingredients == AsList(Get(row, "ingredients_raw_str")) && m.steps == AsList(Get(row, "steps"))
    ensures m.tags == AsList(Get(row, "tags")) && m.diets == AsList(Get(row, "diets"))
    ensures m.allergens == AsList(Get(row, "allergens")) && m.meals == AsList(Get(row, "meals"))
    ensures m.dietFlags == Flags(m.diets, m.tags, m.allergens)
  {
    var ingredients := AsList(Get(row, "ingredients_raw_str"));
    var steps := AsList(Get(row, "steps"));
    var tags := AsList(Get(row, "tags"));
    var diets := AsList(Get(row, "diets"));
    var allergens := AsList(Get(row, "allergens"));
    var meals := AsList(Get(row, "meals"));
    Metadata(
      CoerceInt(Get(row, "minutes")),
      CoerceInt(Get(row, "servings")),
      OptField(row, "serving_size"),
      ingredients, steps, tags, diets, allergens, meals,
      OptField(row, "cuisine"),
      Flags(diets, tags, allergens),
      Dataset,
      rowIndex)
  }

  /**
   * `normalize_row(row, row_index)`, with the UUID the source would generate
   * passed in as `freshId`.
   */
  function NormalizeRow(row: Row, rowIndex: nat, freshId: string): (r: Recipe)
    ensures r.id == RecipeId(row, freshId) && r.title == RecipeTitle(row)
    ensures r.metadata == RowMetadata(row, rowIndex)
    ensures GivenText(row) != [] ==> r.text == GivenText(row)
    ensures GivenText(row) == [] ==> r.text == SynthText(r.title, r.metadata)
    ensures GivenText(row) == [] ==> |r.title| <= |r.text| && r.text[..|r.title|] == r.title
  {
    var title := RecipeTitle(row);
    var m := RowMetadata(row, rowIndex);
    var given := GivenText(row);
    var text := if given != [] then given else (SynthTextStartsWithTitle(title, m); SynthText(title, m));
    Recipe(RecipeId(row, freshId), title, text, m)
  }

  lemma CleanItemsCons(x: string, xs: seq<string>)
    ensures CleanItems([x] + xs) == (if Strip(x) == [] then [] else [Strip(x)]) + CleanItems(xs)
  {
    assert ([x] + xs)[1..] == xs;
  }

  /** Three items that strip to non-blank values. */
  lemma CleanThree(x: string, y: string, z: string)
    requires Strip(x) != [] && Strip(y) != [] && Strip(z) != []
    ensures CleanItems([x, y, z]) == [Strip(x), Strip(y), Strip(z)]
  {
    CleanItemsCons(z, []);
    CleanItemsCons(y, [z]);
    CleanItemsCons(x, [y, z]);
    assert [x, y, z] == [x] + ([y] + [z]);
  }

  /** Three comma-separated pieces, the first not opening with `[`, read as the three stripped pieces. */
  lemma CommaThree(x: string, y: string, z: string)
    requires ',' !in x && ',' !in y && ',' !in z
    requires x != [] && x[0] != '['
    requires IsStripped(x + [','] + (y + [','] + z))
    requires Strip(x) != [] && Strip(y) != [] && Strip(z) != []
    ensures AsList(TextCell(x + [','] + (y + [','] + z))) == [Strip(x), Strip(y), Strip(z)]
  {
    var s := x + [','] + (y + [','] + z);
    assert SplitOn(s, ',') == [x, y, z] by {
      SplitOnNoSep(z, ',');
      SplitOnConcat(y, ',', z);
      SplitOnConcat(x, ',', y + [','] + z);
    }
    CleanThree(x, y, z);
    AsListOfStrippedText(s);
    CommaFallback(s);
  }

  /** `"a, b, c"` is split on its commas and the pieces are stripped. */
  lemma AsListCommaExample()
    ensures AsList(TextCell("a, b, c")) == ["a", "b", "c"]
  {
    var x, y, z := "a", " b", " c";
    assert Strip(x) == "a";
    assert Strip(y) == "b";
    assert Strip(z) == "c";
    assert x + [','] + (y + [','] + z) == "a, b, c";
    CommaThree(x, y, z);
  }

  /** A bare word is no scalar token unless it is one of the keywords, which start with capitals. */
  lemma ParseScalarOfLowerWord(t: string)
    requires t != [] && 'a' <= t[0] <= 'z'
    ensures ParseScalar(t) == None
  {
    KeywordStart(t, "None");
    KeywordStart(t, "True");
    KeywordStart(t, "False");
  }

  /** A keyword token starts with the keyword's first letter. */
  lemma KeywordStart(t: string, w: string)
    requires w != [] && t != []
    ensures KeywordAt(t, w) ==> t[0] == w[0]
  {
    if KeywordAt(t, w) {
      assert t[..|w|][0] == t[0];
    }
  }

  /** Brackets around an unquoted lower-case word are not a list literal. */
  lemma LiteralEvalOfBareWordList(s: string)
    requires |s| >= 2 && s[0] == '[' && 'a' <= s[1] <= 'z'
    ensures LiteralEval(s) == None
  {
    var t := s[1..];
    assert SkipSpace(t) == t;
    ParseScalarOfLowerWord(t);
    assert ParseElements(t) == ElementsAfter(None, |t|);
  }

  /** Two items that strip to non-blank values. */
  lemma CleanTwo(x: string, y: string)
    requires Strip(x) != [] && Strip(y) != []
    ensures CleanItems([x, y]) == [Strip(x), Strip(y)]
  {
    CleanItemsCons(y, []);
    CleanItemsCons(x, [y]);
    assert [x, y] == [x] + [y];
  }

  /** Two pieces around the one separator split back into the two pieces. */
  lemma SplitTwo(x: string, y: string)
    requires ',' !in x && ',' !in y
    ensures SplitOn(x + [','] + y, ',') == [x, y]
  {
    SplitOnNoSep(y, ',');
    SplitOnConcat(x, ',', y);
  }

  /** Two comma-separated pieces, read by comma splitting, give the two stripped pieces. */
  lemma CommaTwo(x: string, y: string)
    requires ',' !in x && ',' !in y
    requires IsStripped(x + [','] + y) && x + [','] + y != []
    requires LiteralEval(x + [','] + y).None?
    requires Strip(x) != [] && Strip(y) != []
    ensures AsList(TextCell(x + [','] + y)) == [Strip(x), Strip(y)]
  {
    var s := x + [','] + y;
    AsListOfStrippedText(s);
    SplitOtherwise(s);
    SplitTwo(x, y);
    CleanTwo(x, y);
  }

  /** The pieces of `"[a, b]"` around its comma. */
  lemma UnquotedBracketsPieces(s: string, x: string, y: string)
    requires s == "[a, b]" && x == "[a" && y == " b]"
    ensures s == x + [','] + y && ',' !in x && ',' !in y && IsStripped(s)
    ensures Strip(x) == "[a" && Strip(y) == "b]"
  {
    assert x + [','] + y == "[a, b]";
    assert SkipLeft(x, 0) == 0 && SkipRight(x, 0, 2) == 2 && x[0..2] == x;
    assert SkipLeft(y, 1) == 1 && SkipLeft(y, 0) == 1;
    assert SkipRight(y, 1, 3) == 3 && y[1..3] == "b]";
  }

  /** `"[a, b]"` is not a literal Python can evaluate, so it falls back to comma splitting. */
  lemma AsListUnquotedBrackets(s: string)
    requires s == "[a, b]"
    ensures AsList(TextCell(s)) == ["[a", "b]"]
  {
    var x, y := "[a", " b]";
    UnquotedBracketsPieces(s, x, y);
    LiteralEvalOfBareWordList(s);
    CommaTwo(x, y);
  }

  lemma ListTextTwo(x: string, y: string)
    ensures ListText([x, y]) == "['" + x + "', '" + y + "']"
  {
    assert [x, y][1..] == [y];
    assert ListBody([y]) == Quote(y) + "]";
    assert ListBody([x, y]) == Quote(x) + ", " + (Quote(y) + "]");
  }

  /** Two clean, quotable strings printed as a list read back as those two strings. */
  lemma QuotedTwo(x: string, y: string)
    requires Quotable(x) && Quotable(y) && IsClean([x, y])
    ensures AsList(TextCell(ListText([x, y]))) == [x, y]
  {
    AsListOfListText([x, y]);
    CleanItemsOfClean([x, y]);
  }

  /** `"['a, b', 'c']"` is a list literal: its quoted comma stays inside the first item. */
  lemma AsListQuotedComma()
    ensures AsList(TextCell("['a, b', 'c']")) == ["a, b", "c"]
  {
    var x, y := "a, b", "c";
    assert IsStripped(x) && IsStripped(y);
    ListTextTwo(x, y);
    assert "['" + x + "', '" + y + "']" == "['a, b', 'c']";
    QuotedTwo(x, y);
  }

  /** `int("NaN")` raises, so a text cell `"NaN"` gives no number. */
  lemma CoerceIntOfNaNText()
    ensures CoerceInt(TextCell("NaN")) == None
  {
    assert Strip("NaN") == "NaN";
    assert !IsUnderscoredDigits("NaN");
  }

  /** A row with no id, a blank name, minutes `"NaN"` and ingredients `"a, b, c"`. */
  lemma NormalizeBlankNameRow(row: Row, rowIndex: nat, freshId: string)
    requires "id" !in row
    requires "name" in row && row["name"] == TextCell("")
    requires Get(row, "minutes") == TextCell("NaN")
    requires Get(row, "ingredients_raw_str") == TextCell("a, b, c")
    ensures
      var r := NormalizeRow(row, rowIndex, freshId);
      && r.id == freshId
      && r.title == Placeholder
      && r.metadata.minutes == None
      && r.metadata.ingredients == ["a", "b", "c"]
  {
    assert FieldText(row, "name") == [];
    CoerceIntOfNaNText();
    AsListCommaExample();
  }

  lemma NormalizeExample(freshId: string)
    ensures
      var row := map["name" := TextCell(""), "minutes" := TextCell("NaN"), "ingredients_raw_str" := TextCell("a, b, c")];
      var r := NormalizeRow(row, 0, freshId);
      && r.id == freshId
      && r.title == Placeholder
      && r.metadata.minutes == None
      && r.metadata.ingredients == ["a", "b", "c"]
  {
    var row := map["name" := TextCell(""), "minutes" := TextCell("NaN"), "ingredients_raw_str" := TextCell("a, b, c")];
    NormalizeBlankNameRow(row, 0, freshId);
  }
}
