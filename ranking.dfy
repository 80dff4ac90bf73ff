/**
 * The last steps of a search: keep one candidate per recipe (the best
 * score, the first one seen on a tie), sort by score, highest first, and
 * cut to `top_k`.
 *
 * The `best` dict is a sequence of its values in insertion order; each
 * value's key is its `doc_id`. Python's `sorted` is stable, and stays stable
 * with `reverse=True`, so equal scores keep the dict's order.
 */
module Ranking {
  import opened Wrappers
  import opened Text
  import opened Values
  import opened Candidates

  // ---------------------------------------------------------------------
  // Deduplication by doc_id
  // ---------------------------------------------------------------------

  /** `r.get("doc_id")` as a dict key: `True` and `1` are the same key, as are `False` and `0`. */
  const DocIdField := "doc_id"

  function DocKey(c: Candidate): Json {
    var k := GetJson(c.fields, DocIdField);
    if k.JBool? then JNum(if k.b then 1 else 0) else k
  }

  /** A key a dict accepts: lists and dicts are unhashable. */
  predicate Hashable(k: Json) {
    !k.JArr? && !k.JObj?
  }

  /** The keys of the dict whose values, in insertion order, are `cs`. */
  function Keys(cs: seq<Candidate>): (ks: seq<Json>)
    ensures |ks| == |cs| && forall i :: 0 <= i < |cs| ==> ks[i] == DocKey(cs[i])
  {
    seq(|cs|, i requires 0 <= i < |cs| => DocKey(cs[i]))
  }

  /** Where the value with key `key` sits in the dict whose values are `cs`: `key in best` and `best[key]`. */
  function Find(cs: seq<Candidate>, key: Json): (r: Option<nat>)
    ensures r.Some? ==> r.value < |cs| && DocKey(cs[r.value]) == key
    decreases |cs|
  {
    if cs == [] then None
    else if DocKey(cs[|cs| - 1]) == key then Some(|cs| - 1)
    else Find(cs[..|cs| - 1], key)
  }

  /** A key the search misses is not in the dict. */
  lemma {:induction false} FindNone(cs: seq<Candidate>, key: Json)
    requires Find(cs, key).None?
    ensures forall j :: 0 <= j < |cs| ==> DocKey(cs[j]) != key
    decreases |cs|
  {
    if cs != [] {
      FindNone(cs[..|cs| - 1], key);
    }
  }

  /**
   * One turn of the loop: a new `doc_id` is added at the end, a strictly
   * higher score replaces the value in its place, anything else leaves the
   * dict alone.
   */
  function Offer(best: seq<Candidate>, c: Candidate): seq<Candidate> {
    var s := Find(best, DocKey(c));
    if s.None? then best + [c]
    else if c.score > best[s.value].score then best[s.value := c]
    else best
  }

  /** The values of `best`, in insertion order, after the loop has seen `rs[..n]`. */
  function Best(rs: seq<Candidate>, n: nat): seq<Candidate>
    requires n <= |rs|
  {
    if n == 0 then [] else Offer(Best(rs, n - 1), rs[n - 1])
  }

  /** The deduplicated candidates, or `None` when some `doc_id` is unhashable (a TypeError). */
  function Deduped(rs: seq<Candidate>): Option<seq<Candidate>> {
    if exists k :: 0 <= k < |rs| && !Hashable(DocKey(rs[k])) then None else Some(Best(rs, |rs|))
  }

  /** The dedupe loop over the filtered candidates. */
  method Dedupe(filt: seq<Candidate>) returns (r: Option<seq<Candidate>>)
    ensures r == Deduped(filt)
  {
    var best: seq<Candidate> := [];
    for i := 0 to |filt|
      invariant best == Best(filt, i)
      invariant forall k :: 0 <= k < i ==> Hashable(DocKey(filt[k]))
    {
      var c := filt[i];
      var k := DocKey(c);
      if !Hashable(k) {
        return None;
      }
      var s := Find(best, k);
      assert Best(filt, i + 1) == Offer(best, c);
      if s.None? {
        best := best + [c];
      } else if c.score > best[s.value].score {
        best := best[s.value := c];
      }
    }
    r := Some(best);
  }

  // The proofs follow the loop on the positions in `rs` of the values of `best`.

  /** The candidates at positions `pos` of `rs`. */
  function Pick(rs: seq<Candidate>, pos: seq<nat>): (r: seq<Candidate>)
    requires forall j :: 0 <= j < |pos| ==> pos[j] < |rs|
    ensures |r| == |pos| && forall j :: 0 <= j < |pos| ==> r[j] == rs[pos[j]]
  {
    seq(|pos|, j requires 0 <= j < |pos| => rs[pos[j]])
  }

  /** Positions below `n` of candidates in `rs`. */
  predicate ValidPos(rs: seq<Candidate>, pos: seq<nat>, n: nat) {
    n <= |rs| && forall j :: 0 <= j < |pos| ==> pos[j] < n
  }

  /** `Offer` on positions: `rs[n]` offered to the dict whose values sit at `pos`. */
  function OfferPos(rs: seq<Candidate>, pos: seq<nat>, n: nat): (pos': seq<nat>)
    requires n < |rs| && ValidPos(rs, pos, n)
    ensures ValidPos(rs, pos', n + 1)
  {
    var s := Find(Pick(rs, pos), DocKey(rs[n]));
    if s.None? then pos + [n]
    else if rs[n].score > rs[pos[s.value]].score then pos[s.value := n]
    else pos
  }

  function BestPos(rs: seq<Candidate>, n: nat): (pos: seq<nat>)
    requires n <= |rs|
    ensures ValidPos(rs, pos, n)
  {
    if n == 0 then [] else OfferPos(rs, BestPos(rs, n - 1), n - 1)
  }

  lemma PickOffer(rs: seq<Candidate>, pos: seq<nat>, n: nat)
    requires n < |rs| && ValidPos(rs, pos, n)
    ensures Pick(rs, OfferPos(rs, pos, n)) == Offer(Pick(rs, pos), rs[n])
  {
    var best := Pick(rs, pos);
    var s := Find(best, DocKey(rs[n]));
    if s.None? {
      assert Pick(rs, pos + [n]) == best + [rs[n]];
    } else if rs[n].score > best[s.value].score {
      assert Pick(rs, pos[s.value := n]) == best[s.value := rs[n]];
    }
  }

  /** The values of `best` after `rs[..n]` are the candidates at the positions the loop keeps. */
  predicate BestIsPick(rs: seq<Candidate>, n: nat)
    requires n <= |rs|
  {
    Best(rs, n) == Pick(rs, BestPos(rs, n))
  }

  /** The values of `best` are the candidates at the positions the loop keeps. */
  lemma {:induction false} BestPick(rs: seq<Candidate>, n: nat)
    requires n <= |rs|
    ensures Best(rs, n) == Pick(rs, BestPos(rs, n))
  {
    BestPickUpTo(rs, n);
  }

  lemma {:induction false} BestPickUpTo(rs: seq<Candidate>, n: nat)
    requires n <= |rs|
    ensures BestIsPick(rs, n)
    decreases n
  {
    if n > 0 {
      BestPickUpTo(rs, n - 1);
      BestPickNext(rs, n - 1);
    }
  }

  lemma BestPickNext(rs: seq<Candidate>, n: nat)
    requires n < |rs| && BestIsPick(rs, n)
    ensures BestIsPick(rs, n + 1)
  {
    PickOffer(rs, BestPos(rs, n), n);
  }

  /** No two values share a `doc_id`. */
  predicate DistinctAt(rs: seq<Candidate>, pos: seq<nat>)
    requires forall j :: 0 <= j < |pos| ==> pos[j] < |rs|
  {
    forall a, b :: 0 <= a < b < |pos| ==> DocKey(rs[pos[a]]) != DocKey(rs[pos[b]])
  }

  /** The `doc_id` of `rs[k]` is a key. */
  predicate Covered(rs: seq<Candidate>, pos: seq<nat>, k: nat)
    requires k < |rs| && forall j :: 0 <= j < |pos| ==> pos[j] < |rs|
  {
    exists j :: 0 <= j < |pos| && DocKey(rs[pos[j]]) == DocKey(rs[k])
  }

  /** Every `doc_id` of `rs[..n]` is a key. */
  predicate CoversAt(rs: seq<Candidate>, pos: seq<nat>, n: nat)
    requires ValidPos(rs, pos, n)
  {
    forall k :: 0 <= k < n ==> Covered(rs, pos, k)
  }

  /** Each value has the highest score among `rs[..n]` for its `doc_id`. */
  predicate MaxAt(rs: seq<Candidate>, pos: seq<nat>, n: nat)
    requires ValidPos(rs, pos, n)
  {
    forall j, k :: 0 <= j < |pos| && 0 <= k < n && DocKey(rs[k]) == DocKey(rs[pos[j]]) ==>
      rs[k].score <= rs[pos[j]].score
  }

  /** Every candidate before a value with its `doc_id` scores strictly less. */
  predicate FirstAt(rs: seq<Candidate>, pos: seq<nat>)
    requires forall j :: 0 <= j < |pos| ==> pos[j] < |rs|
  {
    forall j, k :: 0 <= j < |pos| && 0 <= k < pos[j] && DocKey(rs[k]) == DocKey(rs[pos[j]]) ==>
      rs[k].score < rs[pos[j]].score
  }

  /** A `doc_id` the search misses is the `doc_id` of no value at `pos`. */
  lemma MissAt(rs: seq<Candidate>, pos: seq<nat>, n: nat)
    requires n < |rs| && ValidPos(rs, pos, n)
    requires Find(Pick(rs, pos), DocKey(rs[n])).None?
    ensures forall j :: 0 <= j < |pos| ==> DocKey(rs[pos[j]]) != DocKey(rs[n])
  {
    FindNone(Pick(rs, pos), DocKey(rs[n]));
  }

  lemma DistinctStep(rs: seq<Candidate>, pos: seq<nat>, n: nat)
    requires n < |rs| && ValidPos(rs, pos, n) && DistinctAt(rs, pos)
    ensures DistinctAt(rs, OfferPos(rs, pos, n))
  {
    var s := Find(Pick(rs, pos), DocKey(rs[n]));
    if s.None? {
      MissAt(rs, pos, n);
      assert OfferPos(rs, pos, n) == pos + [n];
    }
  }

  lemma CoversStep(rs: seq<Candidate>, pos: seq<nat>, n: nat)
    requires n < |rs| && ValidPos(rs, pos, n) && CoversAt(rs, pos, n)
    ensures CoversAt(rs, OfferPos(rs, pos, n), n + 1)
  {
    var s := Find(Pick(rs, pos), DocKey(rs[n]));
    var pos' := OfferPos(rs, pos, n);
    if s.None? {
      assert pos' == pos + [n];
      forall k | 0 <= k < n + 1
        ensures Covered(rs, pos', k)
      {
        if k == n {
          assert pos'[|pos|] == n;
        } else {
          assert Covered(rs, pos, k);
          var j :| 0 <= j < |pos| && DocKey(rs[pos[j]]) == DocKey(rs[k]);
          assert pos'[j] == pos[j];
        }
      }
    } else {
      var i := s.value;
      forall k | 0 <= k < n + 1
        ensures Covered(rs, pos', k)
      {
        if k == n {
          assert DocKey(rs[pos'[i]]) == DocKey(rs[k]);
        } else {
          assert Covered(rs, pos, k);
          var j :| 0 <= j < |pos| && DocKey(rs[pos[j]]) == DocKey(rs[k]);
          assert DocKey(rs[pos'[j]]) == DocKey(rs[k]);
        }
      }
    }
  }

  /** A new `doc_id` has not been seen before. */
  lemma NewKeyUnseen(rs: seq<Candidate>, pos: seq<nat>, n: nat)
    requires n < |rs| && ValidPos(rs, pos, n) && CoversAt(rs, pos, n)
    requires Find(Pick(rs, pos), DocKey(rs[n])).None?
    ensures forall k :: 0 <= k < n ==> DocKey(rs[k]) != DocKey(rs[n])
  {
    MissAt(rs, pos, n);
    forall k | 0 <= k < n ensures DocKey(rs[k]) != DocKey(rs[n]) {
      assert Covered(rs, pos, k);
      var i :| 0 <= i < |pos| && DocKey(rs[pos[i]]) == DocKey(rs[k]);
    }
  }

  /** With distinct keys, the key found at `i` is the key of no other value. */
  lemma OnlyAt(rs: seq<Candidate>, pos: seq<nat>, n: nat, i: nat)
    requires n < |rs| && ValidPos(rs, pos, n) && DistinctAt(rs, pos)
    requires i < |pos| && DocKey(rs[pos[i]]) == DocKey(rs[n])
    ensures forall j :: 0 <= j < |pos| && j != i ==> DocKey(rs[pos[j]]) != DocKey(rs[n])
  {
  }

  lemma MaxStep(rs: seq<Candidate>, pos: seq<nat>, n: nat)
    requires n < |rs| && ValidPos(rs, pos, n)
    requires DistinctAt(rs, pos) && CoversAt(rs, pos, n) && MaxAt(rs, pos, n)
    ensures MaxAt(rs, OfferPos(rs, pos, n), n + 1)
  {
    var s := Find(Pick(rs, pos), DocKey(rs[n]));
    var pos' := OfferPos(rs, pos, n);
    if s.None? {
      MissAt(rs, pos, n);
      NewKeyUnseen(rs, pos, n);
      assert pos' == pos + [n];
    } else {
      var i := s.value;
      OnlyAt(rs, pos, n, i);
      if rs[n].score > rs[pos[i]].score {
        assert pos' == pos[i := n];
        forall j, k | 0 <= j < |pos'| && 0 <= k < n + 1 && DocKey(rs[k]) == DocKey(rs[pos'[j]])
          ensures rs[k].score <= rs[pos'[j]].score
        {
          if j == i && k < n {
            assert rs[k].score <= rs[pos[i]].score;
          }
        }
      } else {
        assert pos' == pos;
      }
    }
  }

  lemma FirstStep(rs: seq<Candidate>, pos: seq<nat>, n: nat)
    requires n < |rs| && ValidPos(rs, pos, n)
    requires CoversAt(rs, pos, n) && MaxAt(rs, pos, n) && FirstAt(rs, pos)
    ensures FirstAt(rs, OfferPos(rs, pos, n))
  {
    var s := Find(Pick(rs, pos), DocKey(rs[n]));
    var pos' := OfferPos(rs, pos, n);
    if s.None? {
      NewKeyUnseen(rs, pos, n);
      assert pos' == pos + [n];
    } else {
      var i := s.value;
      if rs[n].score > rs[pos[i]].score {
        assert pos' == pos[i := n];
        forall j, k | 0 <= j < |pos'| && 0 <= k < pos'[j] && DocKey(rs[k]) == DocKey(rs[pos'[j]])
          ensures rs[k].score < rs[pos'[j]].score
        {
          if j == i {
            assert rs[k].score <= rs[pos[i]].score;
          }
        }
      }
    }
  }

  // What the loop keeps true about `best` after each candidate.

  lemma {:induction false} BestDistinct(rs: seq<Candidate>, n: nat)
    requires n <= |rs|
    ensures DistinctAt(rs, BestPos(rs, n))
    decreases n
  {
    if n > 0 {
      BestDistinct(rs, n - 1);
      DistinctStep(rs, BestPos(rs, n - 1), n - 1);
    }
  }

  lemma {:induction false} BestCovers(rs: seq<Candidate>, n: nat)
    requires n <= |rs|
    ensures CoversAt(rs, BestPos(rs, n), n)
    decreases n
  {
    if n > 0 {
      BestCovers(rs, n - 1);
      CoversStep(rs, BestPos(rs, n - 1), n - 1);
    }
  }

  lemma {:induction false} BestMax(rs: seq<Candidate>, n: nat)
    requires n <= |rs|
    ensures MaxAt(rs, BestPos(rs, n), n)
    decreases n
  {
    if n > 0 {
      BestMax(rs, n - 1);
      BestMaxNext(rs, n - 1);
    }
  }

  lemma BestMaxNext(rs: seq<Candidate>, n: nat)
    requires n < |rs| && MaxAt(rs, BestPos(rs, n), n)
    ensures MaxAt(rs, BestPos(rs, n + 1), n + 1)
  {
    BestDistinct(rs, n);
    BestCovers(rs, n);
    MaxStep(rs, BestPos(rs, n), n);
  }

  lemma {:induction false} BestFirst(rs: seq<Candidate>, n: nat)
    requires n <= |rs|
    ensures FirstAt(rs, BestPos(rs, n))
    decreases n
  {
    if n > 0 {
      BestFirst(rs, n - 1);
      BestFirstNext(rs, n - 1);
    }
  }

  lemma BestFirstNext(rs: seq<Candidate>, n: nat)
    requires n < |rs| && FirstAt(rs, BestPos(rs, n))
    ensures FirstAt(rs, BestPos(rs, n + 1))
  {
    BestMax(rs, n);
    BestCovers(rs, n);
    FirstStep(rs, BestPos(rs, n), n);
  }

  /** No two candidates share a `doc_id`. */
  predicate UniqueDocIds(xs: seq<Candidate>) {
    forall a, b :: 0 <= a < b < |xs| ==> DocKey(xs[a]) != DocKey(xs[b])
  }

  /**
   * What the dedupe returns: one candidate per `doc_id`, every `doc_id` of
   * the input represented, each kept candidate taken from the input with the
   * best score of its `doc_id`.
   */
  lemma DedupedProperties(rs: seq<Candidate>)
    requires Deduped(rs).Some?
    ensures var d := Deduped(rs).value;
      && UniqueDocIds(d)
      && (forall c :: c in d ==> c in rs)
      && (forall k :: 0 <= k < |rs| ==> DocKey(rs[k]) in Keys(d))
      && (forall j, k :: 0 <= j < |d| && 0 <= k < |rs| && DocKey(rs[k]) == DocKey(d[j]) ==> rs[k].score <= d[j].score)
  {
    var pos := BestPos(rs, |rs|);
    BestPick(rs, |rs|);
    BestDistinct(rs, |rs|);
    BestCovers(rs, |rs|);
    BestMax(rs, |rs|);
    PickProperties(rs, pos);
  }

  /** The four properties for the candidates at positions that are distinct, cover `rs` and hold maximal scores. */
  lemma PickProperties(rs: seq<Candidate>, pos: seq<nat>)
    requires ValidPos(rs, pos, |rs|)
    requires DistinctAt(rs, pos) && CoversAt(rs, pos, |rs|) && MaxAt(rs, pos, |rs|)
    ensures var d := Pick(rs, pos);
      && UniqueDocIds(d)
      && (forall c :: c in d ==> c in rs)
      && (forall k :: 0 <= k < |rs| ==> DocKey(rs[k]) in Keys(d))
      && (forall j, k :: 0 <= j < |d| && 0 <= k < |rs| && DocKey(rs[k]) == DocKey(d[j]) ==> rs[k].score <= d[j].score)
  {
    var d := Pick(rs, pos);
    forall c | c in d ensures c in rs {
      var j :| 0 <= j < |d| && d[j] == c;
      assert rs[pos[j]] == c;
    }
    forall k | 0 <= k < |rs| ensures DocKey(rs[k]) in Keys(d) {
      assert Covered(rs, pos, k);
      var j :| 0 <= j < |pos| && DocKey(rs[pos[j]]) == DocKey(rs[k]);
      assert Keys(d)[j] == DocKey(rs[k]);
    }
  }

  /** On a tie the first candidate seen stays: every earlier candidate of its `doc_id` scores strictly less. */
  lemma DedupedFirstOnTies(rs: seq<Candidate>, j: nat)
    requires Deduped(rs).Some? && j < |Deduped(rs).value|
    ensures exists p ::
      && 0 <= p < |rs| && rs[p] == Deduped(rs).value[j]
      && forall k :: 0 <= k < p && DocKey(rs[k]) == DocKey(rs[p]) ==> rs[k].score < rs[p].score
  {
    var pos := BestPos(rs, |rs|);
    BestPick(rs, |rs|);
    BestFirst(rs, |rs|);
    var p := pos[j];
    assert rs[p] == Deduped(rs).value[j];
  }

  // ---------------------------------------------------------------------
  // Stable sort by score, highest first
  // ---------------------------------------------------------------------

  /** Insert `x` before the first element that does not score higher. */
  function InsertByScore(x: Candidate, ys: seq<Candidate>): (r: seq<Candidate>)
    ensures multiset(r) == multiset(ys) + multiset{x}
    ensures |r| == |ys| + 1
  {
    if ys == [] || x.score >= ys[0].score then [x] + ys
    else
      assert ys == [ys[0]] + ys[1..];
      [ys[0]] + InsertByScore(x, ys[1..])
  }

  /** `sorted(values, key=lambda x: x["score"], reverse=True)`. */
  function SortByScore(xs: seq<Candidate>): (r: seq<Candidate>)
    ensures multiset(r) == multiset(xs)
    ensures |r| == |xs|
  {
    if xs == [] then []
    else
      assert xs == [xs[0]] + xs[1..];
      InsertByScore(xs[0], SortByScore(xs[1..]))
  }

  predicate Descending(xs: seq<Candidate>) {
    forall i, j :: 0 <= i < j < |xs| ==> xs[i].score >= xs[j].score
  }

  /** The candidates of `xs` that score exactly `v`, in order. */
  function WithScore(xs: seq<Candidate>, v: real): seq<Candidate> {
    if xs == [] then []
    else (if xs[0].score == v then [xs[0]] else []) + WithScore(xs[1..], v)
  }

  lemma {:induction false} InsertDescending(x: Candidate, ys: seq<Candidate>)
    requires Descending(ys)
    ensures Descending(InsertByScore(x, ys))
    decreases |ys|
  {
    if ys != [] && x.score < ys[0].score {
      InsertDescending(x, ys[1..]);
      var r := InsertByScore(x, ys[1..]);
      forall e | e in r ensures e.score <= ys[0].score {
        InsertMembers(x, ys[1..], e);
        if e != x {
          var i :| 0 <= i < |ys[1..]| && ys[1..][i] == e;
          assert ys[i + 1] == e;
        }
      }
      forall j | 1 <= j < |r| + 1 ensures ([ys[0]] + r)[0].score >= ([ys[0]] + r)[j].score {
        assert ([ys[0]] + r)[j] == r[j - 1];
        assert r[j - 1] in r;
      }
    }
  }

  /** Inserting passes only elements that score strictly higher, so equal scores keep their order. */
  lemma {:induction false} InsertWithScore(x: Candidate, ys: seq<Candidate>, v: real)
    ensures WithScore(InsertByScore(x, ys), v) == (if x.score == v then [x] else []) + WithScore(ys, v)
    decreases |ys|
  {
    if ys == [] || x.score >= ys[0].score {
      assert ([x] + ys)[1..] == ys;
    } else {
      InsertWithScore(x, ys[1..], v);
      WithScoreCons(ys[0], InsertByScore(x, ys[1..]), v);
      WithScoreCons(ys[0], ys[1..], v);
      assert [ys[0]] + ys[1..] == ys;
    }
  }

  lemma WithScoreCons(y: Candidate, zs: seq<Candidate>, v: real)
    ensures WithScore([y] + zs, v) == (if y.score == v then [y] else []) + WithScore(zs, v)
  {
    assert ([y] + zs)[1..] == zs;
  }

  /** What the insertion holds is `x` or an element of `ys`. */
  lemma InsertMembers(x: Candidate, ys: seq<Candidate>, e: Candidate)
    requires e in InsertByScore(x, ys)
    ensures e == x || e in ys
  {
    assert e in multiset(InsertByScore(x, ys));
    if e != x {
      assert e in multiset(ys);
    }
  }

  /** The sort puts higher scores first, keeps every candidate, and is stable. */
  lemma {:induction false} SortByScoreCorrect(xs: seq<Candidate>)
    ensures Descending(SortByScore(xs))
    ensures multiset(SortByScore(xs)) == multiset(xs)
    ensures forall v :: WithScore(SortByScore(xs), v) == WithScore(xs, v)
    decreases |xs|
  {
    if xs != [] {
      SortByScoreCorrect(xs[1..]);
      InsertDescending(xs[0], SortByScore(xs[1..]));
      forall v ensures WithScore(SortByScore(xs), v) == WithScore(xs, v) {
        InsertWithScore(xs[0], SortByScore(xs[1..]), v);
      }
    }
  }

  // ---------------------------------------------------------------------
  // Cut to top_k
  // ---------------------------------------------------------------------

  /** `xs[:top_k]`; a negative `top_k` drops that many from the end. */
  function Top(xs: seq<Candidate>, topK: int): seq<Candidate> {
    PySlice(xs, 0, topK)
  }

  /** The cut is a prefix of the ranking; for `top_k >= 0` it is the first `min(top_k, |xs|)` of them. */
  lemma TopPrefix(xs: seq<Candidate>, topK: int)
    ensures Top(xs, topK) <= xs
    ensures topK >= 0 ==> |Top(xs, topK)| == if topK < |xs| then topK else |xs|
    ensures Descending(xs) ==> Descending(Top(xs, topK))
  {
  }

  /** `sorted(best.values(), ...)[:top_k]`. */
  function Rank(deduped: seq<Candidate>, topK: int): seq<Candidate> {
    Top(SortByScore(deduped), topK)
  }

  /**
   * The ranked results are in descending score order, at most `top_k` long,
   * drawn from the deduplicated candidates, and with no candidate left out
   * that scores higher than one kept.
   */
  lemma RankProperties(deduped: seq<Candidate>, topK: int)
    ensures var r := Rank(deduped, topK);
      && Descending(r)
      && (topK >= 0 ==> |r| <= topK)
      && (forall c :: c in r ==> c in deduped)
      && (topK >= 0 ==> |r| == if topK < |deduped| then topK else |deduped|)
      && (forall j, x :: 0 <= j < |r| && x in deduped && x !in r ==> x.score <= r[j].score)
  {
    var s := SortByScore(deduped);
    var r := Rank(deduped, topK);
    SortByScoreCorrect(deduped);
    TopPrefix(s, topK);
    forall c | c in r ensures c in deduped {
      assert c in s;
      assert c in multiset(s);
    }
    forall j, x | 0 <= j < |r| && x in deduped && x !in r ensures x.score <= r[j].score {
      assert x in multiset(deduped);
      assert x in s;
      var i :| 0 <= i < |s| && s[i] == x;
      if i < |r| {
        assert false;
      }
      assert r[j] == s[j];
    }
  }

  /**
   * No recipe is ranked out by a weaker one: each candidate that reaches the
   * dedupe either has a result for its `doc_id` scoring at least as high, or
   * scores no higher than any result.
   */
  lemma BestKept(filt: seq<Candidate>, topK: int)
    requires Deduped(filt).Some?
    ensures var r := Rank(Deduped(filt).value, topK);
      forall f :: f in filt ==> BeatenOrMatched(f, r)
  {
    var d := Deduped(filt).value;
    var r := Rank(d, topK);
    DedupedProperties(filt);
    RankProperties(d, topK);
    forall f | f in filt ensures BeatenOrMatched(f, r) {
      var k :| 0 <= k < |filt| && filt[k] == f;
      var ks := Keys(d);
      assert DocKey(f) in ks;
      var i :| 0 <= i < |d| && ks[i] == DocKey(f);
      BestOf(f, d, i, r);
    }
  }

  /** Some result is for the same `doc_id` as `f` and scores at least as high, or every result scores at least as high as `f`. */
  predicate BeatenOrMatched(f: Candidate, r: seq<Candidate>) {
    || (exists j :: 0 <= j < |r| && DocKey(r[j]) == DocKey(f) && f.score <= r[j].score)
    || (forall j :: 0 <= j < |r| ==> f.score <= r[j].score)
  }

  lemma BestOf(f: Candidate, d: seq<Candidate>, i: nat, r: seq<Candidate>)
    requires i < |d| && DocKey(d[i]) == DocKey(f) && f.score <= d[i].score
    requires forall j, x :: 0 <= j < |r| && x in d && x !in r ==> x.score <= r[j].score
    ensures BeatenOrMatched(f, r)
  {
    if d[i] in r {
      var j :| 0 <= j < |r| && r[j] == d[i];
      assert DocKey(r[j]) == DocKey(f) && f.score <= r[j].score;
    }
  }

  /** Inserting a candidate whose `doc_id` is new keeps the `doc_id`s unique. */
  lemma {:induction false} InsertUnique(x: Candidate, ys: seq<Candidate>)
    requires UniqueDocIds(ys) && forall y :: y in ys ==> DocKey(y) != DocKey(x)
    ensures UniqueDocIds(InsertByScore(x, ys))
    decreases |ys|
  {
    if ys != [] && x.score < ys[0].score {
      var rest := InsertByScore(x, ys[1..]);
      InsertUnique(x, ys[1..]);
      var r := [ys[0]] + rest;
      forall e | e in rest ensures DocKey(e) != DocKey(ys[0]) {
        InsertMembers(x, ys[1..], e);
        if e != x {
          var i :| 0 <= i < |ys[1..]| && ys[1..][i] == e;
          assert ys[i + 1] == e;
        }
      }
      forall a, b | 0 <= a < b < |r| ensures DocKey(r[a]) != DocKey(r[b]) {
        assert r[b] == rest[b - 1];
        if a > 0 {
          assert r[a] == rest[a - 1];
        }
      }
    }
  }

  /** Sorting keeps the `doc_id`s unique. */
  lemma {:induction false} SortUnique(xs: seq<Candidate>)
    requires UniqueDocIds(xs)
    ensures UniqueDocIds(SortByScore(xs))
    decreases |xs|
  {
    if xs != [] {
      var rest := SortByScore(xs[1..]);
      SortUnique(xs[1..]);
      forall y | y in rest ensures DocKey(y) != DocKey(xs[0]) {
        assert y in multiset(rest);
        assert y in multiset(xs[1..]);
        var i :| 0 <= i < |xs[1..]| && xs[1..][i] == y;
        assert xs[i + 1] == y;
      }
      InsertUnique(xs[0], rest);
    }
  }

  /** The ranked results never show a recipe twice when the deduplicated candidates do not. */
  lemma RankUnique(deduped: seq<Candidate>, topK: int)
    requires UniqueDocIds(deduped)
    ensures UniqueDocIds(Rank(deduped, topK))
  {
    SortUnique(deduped);
    TopPrefix(SortByScore(deduped), topK);
  }
}
