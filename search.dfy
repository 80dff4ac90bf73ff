/**
 * The search script end to end, from the loaded sidecars and the hits of the
 * vector search to the printed results: the query's cues fill the filters
 * not given on the command line, the hits become candidates, the filters
 * drop candidates, the dedupe keeps one per recipe and the ranking sorts
 * and cuts to `top_k`.
 */
module Retrieval {
  import opened Wrappers
  import opened Values
  import opened QueryFilters
  import opened Candidates
  import opened Filtering
  import opened Ranking
  import opened Sidecars

  /** The command-line arguments that decide the results. */
  datatype SearchArgs = SearchArgs(
    query: string,
    topK: int,
    explicit: Explicit,
    excludeAllergen: Option<string>,
    excludeIngredients: Option<string>)

  /** Why a search stops without results. */
  datatype SearchError =
    | LengthMismatch   // "texts.jsonl and metas.jsonl length mismatch"
    | IdOutOfRange     // `metas[i]` raises IndexError
    | NotIterable      // a filter iterates a number or `true`: TypeError
    | UnhashableDocId  // a list or dict `doc_id` as a dict key: TypeError

  /** The arguments `apply_filters` receives: explicit ones first, the query's cues for the others. */
  function EffectiveFilters(a: SearchArgs): FilterArgs {
    var e := Override(a.explicit, QueryAutoFilters(a.query));
    FilterArgs(e.maxMinutes, e.diet, e.meal, a.excludeAllergen, a.excludeIngredients)
  }

  /** The texts as the script holds them after reading the texts sidecar line by line. */
  function LoadedTexts(lines: seq<Json>): (texts: seq<Json>)
    ensures |texts| == |lines|
  {
    seq(|lines|, i requires 0 <= i < |lines| => LoadText(lines[i]))
  }

  /** The read loop over the texts sidecar. */
  method LoadTexts(lines: seq<Json>) returns (texts: seq<Json>)
    ensures |texts| == |lines|
    ensures forall i :: 0 <= i < |lines| ==> texts[i] == LoadText(lines[i])
  {
    texts := [];
    for i := 0 to |lines|
      invariant |texts| == i
      invariant forall j :: 0 <= j < i ==> texts[j] == LoadText(lines[j])
    {
      texts := texts + [LoadText(lines[i])];
    }
  }

  /** The texts sidecar the builder writes for `ts`. */
  function TextLines(ts: seq<Json>): seq<Json> {
    seq(|ts|, i requires 0 <= i < |ts| => TextLine(ts[i]))
  }

  /** The search reads back exactly the texts the builder embedded. */
  lemma TextsRoundTrip(ts: seq<Json>)
    ensures LoadedTexts(TextLines(ts)) == ts
  {
    forall i | 0 <= i < |ts| ensures LoadedTexts(TextLines(ts))[i] == ts[i] {
      LoadTextOfTextLine(ts[i]);
    }
  }

  /** The results of a search, or why it stops. */
  function Retrieve(a: SearchArgs, hits: seq<Hit>, textLines: seq<Json>, metas: seq<seq<(string, Json)>>)
    : Result<seq<Candidate>, SearchError>
  {
    var texts := LoadedTexts(textLines);
    if |texts| != |metas| then Err(LengthMismatch)
    else match Assembled(hits, texts, metas, |hits|)
      case None => Err(IdOutOfRange)
      case Some(raw) =>
        match Selected(raw, Prepare(EffectiveFilters(a)), |raw|)
        case None => Err(NotIterable)
        case Some(filt) =>
          match Deduped(filt)
          case None => Err(UnhashableDocId)
          case Some(d) => Ok(Rank(d, a.topK))
  }

  /** `main` of the search script after the sidecars are read and the index has answered. */
  method RunSearch(a: SearchArgs, hits: seq<Hit>, textLines: seq<Json>, metas: seq<seq<(string, Json)>>)
    returns (r: Result<seq<Candidate>, SearchError>)
    ensures r == Retrieve(a, hits, textLines, metas)
  {
    var auto := AutoFiltersFromQuery(a.query);
    var e := Override(a.explicit, auto);
    var texts := LoadTexts(textLines);
    assert texts == LoadedTexts(textLines);
    if |texts| != |metas| {
      return Err(LengthMismatch);
    }
    var raw := Assemble(hits, texts, metas);
    if raw.None? {
      return Err(IdOutOfRange);
    }
    var filt := ApplyFilters(raw.value, FilterArgs(e.maxMinutes, e.diet, e.meal, a.excludeAllergen, a.excludeIngredients));
    if filt.None? {
      return Err(NotIterable);
    }
    var best := Dedupe(filt.value);
    if best.None? {
      return Err(UnhashableDocId);
    }
    r := Ok(Rank(best.value, a.topK));
  }

  /** A search stops at the candidate assembly exactly when some hit names a vector past the end of the sidecars. */
  lemma RetrieveIdOutOfRange(a: SearchArgs, hits: seq<Hit>, textLines: seq<Json>, metas: seq<seq<(string, Json)>>)
    requires |textLines| == |metas|
    ensures Retrieve(a, hits, textLines, metas) == Err(IdOutOfRange) <==>
      exists k :: 0 <= k < |hits| && hits[k].0 >= |metas|
  {
    AssembledContents(hits, LoadedTexts(textLines), metas, |hits|);
  }

  /**
   * What a search returns: highest score first, at most `top_k` results, no
   * recipe twice, every result passing every filter in force, and every
   * result the candidate of one of the hits.
   */
  lemma RetrieveResults(a: SearchArgs, hits: seq<Hit>, textLines: seq<Json>, metas: seq<seq<(string, Json)>>)
    requires Retrieve(a, hits, textLines, metas).Ok?
    ensures var rs := Retrieve(a, hits, textLines, metas).value;
      && Descending(rs)
      && (a.topK >= 0 ==> |rs| <= a.topK)
      && UniqueDocIds(rs)
      && (forall c :: c in rs ==> Keep(c, Prepare(EffectiveFilters(a))) == Some(true))
      && forall c :: c in rs ==> exists k ::
           && 0 <= k < |hits| && 0 <= hits[k].0 < |metas|
           && c == CandidateOf(LoadedTexts(textLines), metas, hits[k].0, hits[k].1)
  {
    var texts := LoadedTexts(textLines);
    var p := Prepare(EffectiveFilters(a));
    var raw := Assembled(hits, texts, metas, |hits|).value;
    var filt := Selected(raw, p, |raw|).value;
    var d := Deduped(filt).value;
    assert Retrieve(a, hits, textLines, metas).value == Rank(d, a.topK);
    RankedSelection(raw, p, filt, d, a.topK);
    DrawnFromHits(hits, texts, metas, raw, Rank(d, a.topK));
  }

  /** Filtering, dedupe and ranking of the assembled candidates, as `RetrieveResults` states them. */
  lemma RankedSelection(raw: seq<Candidate>, p: Prepared, filt: seq<Candidate>, d: seq<Candidate>, topK: int)
    requires Selected(raw, p, |raw|) == Some(filt) && Deduped(filt) == Some(d)
    ensures var rs := Rank(d, topK);
      && Descending(rs)
      && (topK >= 0 ==> |rs| <= topK)
      && UniqueDocIds(rs)
      && (forall c :: c in rs ==> Keep(c, p) == Some(true))
      && (forall c :: c in rs ==> c in raw)
  {
    RankProperties(d, topK);
    DedupedProperties(filt);
    RankUnique(d, topK);
    SelectedMembers(raw, p, |raw|);
    SelectedFromInput(raw, p, |raw|);
    FullSlice(raw);
  }

  lemma FullSlice(s: seq<Candidate>)
    ensures s[..|s|] == s
  {
  }

  /** Candidates drawn from the assembled list are the candidates of hits. */
  lemma DrawnFromHits(hits: seq<Hit>, texts: seq<Json>, metas: seq<seq<(string, Json)>>, raw: seq<Candidate>, rs: seq<Candidate>)
    requires |texts| == |metas| && Assembled(hits, texts, metas, |hits|) == Some(raw)
    requires forall c :: c in rs ==> c in raw
    ensures forall c :: c in rs ==> exists k ::
      && 0 <= k < |hits| && 0 <= hits[k].0 < |metas|
      && c == CandidateOf(texts, metas, hits[k].0, hits[k].1)
  {
    forall c | c in rs
      ensures exists k ::
        && 0 <= k < |hits| && 0 <= hits[k].0 < |metas|
        && c == CandidateOf(texts, metas, hits[k].0, hits[k].1)
    {
      var j :| 0 <= j < |raw| && raw[j] == c;
      CandidatesFromHits(hits, texts, metas, j);
    }
  }

  /**
   * The results are the best of what passes the filters: for every hit whose
   * candidate passes them, either a result for the same recipe scores at
   * least as high, or the candidate scores no higher than any result.
   */
  lemma RetrieveBest(a: SearchArgs, hits: seq<Hit>, textLines: seq<Json>, metas: seq<seq<(string, Json)>>, k: nat)
    requires Retrieve(a, hits, textLines, metas).Ok?
    requires k < |hits| && 0 <= hits[k].0 < |metas|
    requires Keep(CandidateOf(LoadedTexts(textLines), metas, hits[k].0, hits[k].1), Prepare(EffectiveFilters(a))) == Some(true)
    ensures BeatenOrMatched(CandidateOf(LoadedTexts(textLines), metas, hits[k].0, hits[k].1), Retrieve(a, hits, textLines, metas).value)
  {
    var texts := LoadedTexts(textLines);
    var p := Prepare(EffectiveFilters(a));
    var c := CandidateOf(texts, metas, hits[k].0, hits[k].1);
    var raw := Assembled(hits, texts, metas, |hits|).value;
    var filt := Selected(raw, p, |raw|).value;
    HitAssembled(hits, texts, metas, |hits|, k);
    SelectedHas(raw, p, c);
    BestKept(filt, a.topK);
  }
}
