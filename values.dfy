/**
 * The dynamically typed values the pipeline handles: the cells of a pandas
 * row read from the recipes CSV, and the JSON values of the JSONL files,
 * with Python's `str()`, truthiness and `dict.get` on them.
 */
module Values {
  import opened Wrappers
  import opened Text

  /**
   * One cell of a CSV row as pandas hands it over: a missing value read as
   * NaN, an integer, a string, or (for rows built by hand) a list of strings.
   * `Null` is Python's None, which `row.get(key)` returns for an absent key.
   */
  datatype Cell = Null | NaN | IntCell(i: int) | TextCell(s: string) | ListCell(items: seq<string>)

  /** A row, keyed by column name. */
  type Row = map<string, Cell>

  /** `row.get(key)`. */
  function Get(row: Row, key: string): Cell {
    if key in row then row[key] else Null
  }

  /** `row.get(key, default)`. */
  function GetOr(row: Row, key: string, default: Cell): Cell {
    if key in row then row[key] else default
  }

  /** The quote `repr(s)` uses: `"` when `s` holds a `'` and no `"`, otherwise `'`. */
  function ReprQuote(s: string): char {
    if '\'' in s && '"' !in s then '"' else '\''
  }

  function HexDigit(d: int): char
    requires 0 <= d < 16
  {
    "0123456789abcdef"[d]
  }

  /** A character that `repr` writes as an escape: a backslash, the quote, or an ASCII control character. */
  predicate NeedsEscape(c: char, q: char) {
    c == '\\' || c == q || c < ' ' || c as int == 127
  }

  /**
   * One character inside the quotes of `repr`: a backslash and the quote get
   * a backslash, tab, newline and carriage return their letter, the other
   * ASCII control characters a `\xhh` escape.
   */
  function ReprChar(c: char, q: char): string {
    if c == '\\' || c == q then ['\\', c]
    else if c == '\t' then "\\t"
    else if c == '\n' then "\\n"
    else if c == '\r' then "\\r"
    else if c < ' ' || c as int == 127 then "\\x" + [HexDigit(c as int / 16), HexDigit(c as int % 16)]
    else [c]
  }

  function ReprBody(s: string, q: char): string
    decreases |s|
  {
    if s == [] then [] else ReprChar(s[0], q) + ReprBody(s[1..], q)
  }

  /** `repr(s)` of a string. */
  function StrRepr(s: string): string {
    var q := ReprQuote(s);
    [q] + ReprBody(s, q) + [q]
  }

  /** A string with nothing to escape is printed as itself between the quotes. */
  lemma {:induction false} ReprBodyOfPlain(s: string, q: char)
    requires forall k :: 0 <= k < |s| ==> !NeedsEscape(s[k], q)
    ensures ReprBody(s, q) == s
    decreases |s|
  {
    if s != [] {
      ReprBodyOfPlain(s[1..], q);
      assert [s[0]] + s[1..] == s;
    }
  }

  /** `repr` of a string with no backslash, no control character and not both quotes is the string, quoted. */
  lemma StrReprOfPlain(s: string)
    requires forall k :: 0 <= k < |s| ==> !NeedsEscape(s[k], ReprQuote(s))
    ensures StrRepr(s) == [ReprQuote(s)] + s + [ReprQuote(s)]
  {
    ReprBodyOfPlain(s, ReprQuote(s));
  }

  /** `repr("it's")` is `"it's"`: a `'` alone switches to double quotes, unescaped. */
  lemma StrReprOfApostrophe()
    ensures StrRepr("it's") == "\"it's\""
  {
    assert "it's"[2] == '\'';
    assert ReprQuote("it's") == '"';
  }

  /** `repr` escapes a backslash, a newline, and the quote of a string holding both quotes. */
  lemma StrReprEscapes()
    ensures StrRepr("a\\b") == "'a\\\\b'"
    ensures StrRepr("a\nb") == "'a\\nb'"
    ensures StrRepr("'\"") == "'\\'\"'"
  {
    assert ReprQuote("a\\b") == '\'';
    assert ReprQuote("a\nb") == '\'';
    assert "'\""[0] == '\'' && "'\""[1] == '"';
    assert ReprQuote("'\"") == '\'';
  }

  /** `str(cell)`; NaN prints as `nan` and None as `None`. */
  function CellStr(c: Cell): string {
    match c
    case Null => "None"
    case NaN => "nan"
    case IntCell(i) => IntToString(i)
    case TextCell(s) => s
    case ListCell(items) => "[" + Join(", ", seq(|items|, k requires 0 <= k < |items| => StrRepr(items[k]))) + "]"
  }

  /** Python truthiness of a cell; NaN is truthy. */
  predicate CellTruthy(c: Cell) {
    match c
    case Null => false
    case NaN => true
    case IntCell(i) => i != 0
    case TextCell(s) => s != ""
    case ListCell(items) => items != []
  }

  /**
   * A JSON value as `json.loads` builds it. Objects keep their members in
   * text order; numbers are integers (the pipeline writes no fractions).
   */
  datatype Json =
    | JNull
    | JBool(b: bool)
    | JNum(n: int)
    | JStr(s: string)
    | JArr(items: seq<Json>)
    | JObj(fields: seq<(string, Json)>)

  /** `d.get(key)` on a decoded object: the last member with that key wins, as in `json.loads`. */
  function Lookup(fields: seq<(string, Json)>, key: string): Option<Json>
    decreases |fields|
  {
    if fields == [] then None
    else if fields[|fields| - 1].0 == key then Some(fields[|fields| - 1].1)
    else Lookup(fields[..|fields| - 1], key)
  }

  /** The position of the member `d.get(key)` reads: the last one with that key. */
  function LastIndex(fields: seq<(string, Json)>, key: string): (r: Option<nat>)
    ensures r.Some? ==> r.value < |fields| && fields[r.value].0 == key && Lookup(fields, key) == Some(fields[r.value].1)
    ensures r.None? ==> Lookup(fields, key).None?
    decreases |fields|
  {
    if fields == [] then None
    else if fields[|fields| - 1].0 == key then Some(|fields| - 1)
    else LastIndex(fields[..|fields| - 1], key)
  }

  /** A key found at `k` with no later duplicate reads as the value at `k`. */
  lemma {:induction false} LookupAt(fields: seq<(string, Json)>, k: nat, key: string)
    requires k < |fields| && fields[k].0 == key
    requires forall j :: k < j < |fields| ==> fields[j].0 != key
    ensures Lookup(fields, key) == Some(fields[k].1)
    decreases |fields|
  {
    if k < |fields| - 1 {
      LookupAt(fields[..|fields| - 1], k, key);
    }
  }

  /** A key that no member carries is absent. */
  lemma {:induction false} LookupAbsent(fields: seq<(string, Json)>, key: string)
    requires forall j :: 0 <= j < |fields| ==> fields[j].0 != key
    ensures Lookup(fields, key) == None
    decreases |fields|
  {
    if fields != [] {
      LookupAbsent(fields[..|fields| - 1], key);
    }
  }

  /** `d.get(key)` with None for an absent key. */
  function GetJson(fields: seq<(string, Json)>, key: string): Json {
    match Lookup(fields, key) case Some(v) => v case None => JNull
  }

  /** The distinct keys in first-occurrence order: what iterating the decoded dict yields. */
  function DictKeys(fields: seq<(string, Json)>): seq<string>
    decreases |fields|
  {
    if fields == [] then []
    else
      var ks := DictKeys(fields[..|fields| - 1]);
      if fields[|fields| - 1].0 in ks then ks else ks + [fields[|fields| - 1].0]
  }

  /** Every key the dict yields has a value. */
  lemma {:induction false} DictKeysPresent(fields: seq<(string, Json)>, key: string)
    requires key in DictKeys(fields)
    ensures Lookup(fields, key).Some?
    decreases |fields|
  {
    if fields[|fields| - 1].0 != key {
      DictKeysPresent(fields[..|fields| - 1], key);
    }
  }

  /**
   * `str(d)` of a decoded object: each distinct key once, in first-occurrence
   * order, with the value `d.get` reads for it (the last duplicate's).
   */
  lemma JsonStrOfObject(fields: seq<(string, Json)>)
    ensures var ks := DictKeys(fields);
      JsonStr(JObj(fields)) == "{" + Join(", ", seq(|ks|, k requires 0 <= k < |ks| =>
                                                StrRepr(ks[k]) + ": " + JsonRepr(GetJson(fields, ks[k])))) + "}"
  {
    var ks := DictKeys(fields);
    var printed := seq(|ks|, k requires 0 <= k < |ks| =>
                         StrRepr(ks[k]) + ": " + (match LastIndex(fields, ks[k])
                                                  case Some(i) => JsonRepr(fields[i].1)
                                                  case None => ""));
    var read := seq(|ks|, k requires 0 <= k < |ks| => StrRepr(ks[k]) + ": " + JsonRepr(GetJson(fields, ks[k])));
    forall k | 0 <= k < |ks|
      ensures printed[k] == read[k]
    {
      DictKeysPresent(fields, ks[k]);
    }
    assert printed == read;
  }

  /** A duplicated key prints once, with its last value. */
  lemma JsonStrOfDuplicateKey()
    ensures JsonStr(JObj([("v", JNum(1)), ("v", JNum(2))])) == "{'v': 2}"
  {
    var fields := [("v", JNum(1)), ("v", JNum(2))];
    assert DictKeys(fields[..1]) == ["v"];
    assert DictKeys(fields) == ["v"];
    assert LastIndex(fields, "v") == Some(1);
    assert ReprQuote("v") == '\'';
    assert StrRepr("v") == "'v'";
  }

  /** Python truthiness of a decoded JSON value. */
  predicate Truthy(j: Json) {
    match j
    case JNull => false
    case JBool(b) => b
    case JNum(n) => n != 0
    case JStr(s) => s != ""
    case JArr(items) => items != []
    case JObj(fields) => fields != []
  }

  /** `str(j)`. */
  function JsonStr(j: Json): string
    decreases j, 0
  {
    match j
    case JNull => "None"
    case JBool(b) => if b then "True" else "False"
    case JNum(n) => IntToString(n)
    case JStr(s) => s
    case JArr(items) =>
      "[" + Join(", ", seq(|items|, k requires 0 <= k < |items| => JsonRepr(items[k]))) + "]"
    case JObj(fields) =>
      var ks := DictKeys(fields);
      "{" + Join(", ", seq(|ks|, k requires 0 <= k < |ks| =>
                             StrRepr(ks[k]) + ": " + (match LastIndex(fields, ks[k])
                                                      case Some(i) => JsonRepr(fields[i].1)
                                                      case None => ""))) + "}"
  }

  /** `repr(j)`: strings are quoted, everything else prints as `str`. */
  function JsonRepr(j: Json): string
    decreases j, 1
  {
    if j.JStr? then StrRepr(j.s) else JsonStr(j)
  }

  /**
   * `for x in (j or [])` does not raise: a falsy value becomes `[]`, and a
   * truthy number or `True` is not iterable.
   */
  predicate Iterable(j: Json) {
    !Truthy(j) || j.JStr? || j.JArr? || j.JObj?
  }

  /** `[str(x) for x in (j or [])]`: list items, the characters of a string, the keys of an object. */
  function IterStrs(j: Json): seq<string> {
    if !Truthy(j) then []
    else match j
      case JArr(items) => seq(|items|, k requires 0 <= k < |items| => JsonStr(items[k]))
      case JStr(s) => seq(|s|, k requires 0 <= k < |s| => [s[k]])
      case JObj(fields) => DictKeys(fields)
      case _ => []
  }

  /** A list of strings as JSON, the way `json.dumps` writes a Python list of str. */
  function StrList(xs: seq<string>): (j: Json)
    ensures j.JArr? && |j.items| == |xs|
  {
    JArr(seq(|xs|, k requires 0 <= k < |xs| => JStr(xs[k])))
  }

  /** Iterating a JSON list of strings gives back the strings. */
  lemma IterStrsOfStrList(xs: seq<string>)
    ensures IterStrs(StrList(xs)) == xs
  {
  }
}
