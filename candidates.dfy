/**
 * The search script's candidate list: each hit of the vector search that
 * names a vector (a non-negative id) becomes a copy of that vector's
 * metadata with its similarity score and its chunk text attached.
 */
module Candidates {
  import opened Wrappers
  import opened Values

  /** A hit of the vector search: the vector's position, negative for an empty slot, and its similarity. */
  type Hit = (int, real)

  /**
   * `dict(metas[i])` with `score` and `text` set. The keys the rest of the
   * search reads (`minutes`, `diets`, ..., `doc_id`) are looked up in
   * `fields`; `score` and `text` are kept apart.
   */
  datatype Candidate = Candidate(fields: seq<(string, Json)>, score: real, text: Json)

  /** The candidate for vector `i` with similarity `score`. */
  function CandidateOf(texts: seq<Json>, metas: seq<seq<(string, Json)>>, i: nat, score: real): Candidate
    requires i < |metas| == |texts|
  {
    Candidate(metas[i], score, texts[i])
  }

  /** The hits among `hits[..n]` that name a vector, in order. */
  function KeptHits(hits: seq<Hit>, n: nat): (r: seq<(nat, real)>)
    requires n <= |hits|
    ensures |r| <= n
    ensures forall j :: 0 <= j < |r| ==> (r[j].0 as int, r[j].1) in hits[..n]
  {
    if n == 0 then []
    else
      var prev := KeptHits(hits, n - 1);
      assert hits[..n - 1] <= hits[..n];
      if hits[n - 1].0 < 0 then prev else prev + [(hits[n - 1].0 as nat, hits[n - 1].1)]
  }

  /** The candidates of `hits[..n]`; None where an id is past the end of the sidecars (an IndexError). */
  function Assembled(hits: seq<Hit>, texts: seq<Json>, metas: seq<seq<(string, Json)>>, n: nat): Option<seq<Candidate>>
    requires n <= |hits| && |texts| == |metas|
  {
    if n == 0 then Some([])
    else
      var prev := Assembled(hits, texts, metas, n - 1);
      var (i, s) := hits[n - 1];
      if prev.None? || i < 0 then prev
      else if i >= |metas| then None
      else Some(prev.value + [CandidateOf(texts, metas, i, s)])
  }

  /** The loop that fills `raw`, as in the search script. */
  method Assemble(hits: seq<Hit>, texts: seq<Json>, metas: seq<seq<(string, Json)>>) returns (raw: Option<seq<Candidate>>)
    requires |texts| == |metas|
    ensures raw == Assembled(hits, texts, metas, |hits|)
  {
    var acc: seq<Candidate> := [];
    for n := 0 to |hits|
      invariant Assembled(hits, texts, metas, n) == Some(acc)
    {
      var (i, s) := hits[n];
      if i < 0 {
        continue;
      }
      if i >= |metas| {
        AssembledErrorPersists(hits, texts, metas, n + 1, |hits|);
        return None;
      }
      acc := acc + [CandidateOf(texts, metas, i, s)];
    }
    raw := Some(acc);
  }

  /** Once an id has run past the end, the assembly has failed. */
  lemma {:induction false} AssembledErrorPersists(hits: seq<Hit>, texts: seq<Json>, metas: seq<seq<(string, Json)>>, n: nat, m: nat)
    requires n <= m <= |hits| && |texts| == |metas|
    requires Assembled(hits, texts, metas, n).None?
    ensures Assembled(hits, texts, metas, m).None?
    decreases m - n
  {
    if n < m {
      AssembledErrorPersists(hits, texts, metas, n + 1, m);
    }
  }

  /**
   * The assembly succeeds exactly when every id is below the number of
   * vectors, and then it holds one candidate per kept hit, in hit order,
   * with that vector's metadata, score and text.
   */
  lemma {:induction false} AssembledContents(hits: seq<Hit>, texts: seq<Json>, metas: seq<seq<(string, Json)>>, n: nat)
    requires n <= |hits| && |texts| == |metas|
    ensures Assembled(hits, texts, metas, n).Some? <==> forall k :: 0 <= k < n ==> hits[k].0 < |metas|
    ensures Assembled(hits, texts, metas, n).Some? ==>
      var kept := KeptHits(hits, n);
      var raw := Assembled(hits, texts, metas, n).value;
      && |raw| == |kept|
      && forall j :: 0 <= j < |raw| ==> kept[j].0 < |metas| && raw[j] == CandidateOf(texts, metas, kept[j].0, kept[j].1)
    decreases n
  {
    if n > 0 {
      AssembledContents(hits, texts, metas, n - 1);
      if Assembled(hits, texts, metas, n - 1).None? {
        AssembledErrorPersists(hits, texts, metas, n - 1, n);
      }
    }
  }

  /** Every hit that names a vector contributes its candidate to a successful assembly. */
  lemma {:induction false} HitAssembled(hits: seq<Hit>, texts: seq<Json>, metas: seq<seq<(string, Json)>>, n: nat, k: nat)
    requires n <= |hits| && |texts| == |metas| && Assembled(hits, texts, metas, n).Some?
    requires k < n && 0 <= hits[k].0 < |metas|
    ensures CandidateOf(texts, metas, hits[k].0, hits[k].1) in Assembled(hits, texts, metas, n).value
    decreases n
  {
    if k < n - 1 {
      HitAssembled(hits, texts, metas, n - 1, k);
    }
  }

  /** No candidate comes from an empty slot: each one is the candidate of a hit with a non-negative id. */
  lemma CandidatesFromHits(hits: seq<Hit>, texts: seq<Json>, metas: seq<seq<(string, Json)>>, j: nat)
    requires |texts| == |metas|
    requires Assembled(hits, texts, metas, |hits|).Some? && j < |Assembled(hits, texts, metas, |hits|).value|
    ensures exists k ::
      && 0 <= k < |hits| && 0 <= hits[k].0 < |metas|
      && Assembled(hits, texts, metas, |hits|).value[j] == CandidateOf(texts, metas, hits[k].0, hits[k].1)
  {
    AssembledContents(hits, texts, metas, |hits|);
    var kept := KeptHits(hits, |hits|);
    assert hits[..|hits|] == hits;
    assert (kept[j].0 as int, kept[j].1) in hits;
  }
}
