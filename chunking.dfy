/**
 * Chunking: the text of a recipe document is cut into overlapping windows
 * of words, and each window becomes a chunk record that carries the
 * document's id, title and a projection of its metadata.
 */
module Chunking {
  import opened Wrappers
  import opened Text
  import opened Values
  import opened Normalize

  // ---------------------------------------------------------------------
  // Word windows
  // ---------------------------------------------------------------------

  /** The step between window starts: `max_tokens - overlap` when that is positive, `max_tokens` otherwise. */
  function Stride(maxTokens: int, overlap: int): int {
    if maxTokens > overlap then maxTokens - overlap else maxTokens
  }

  /**
   * The loop advances: true unless the text has words and the stride is not
   * positive, where the source never leaves its loop.
   */
  predicate Terminates(text: string, maxTokens: int, overlap: int) {
    Words(text) == [] || Stride(maxTokens, overlap) >= 1
  }

  /**
   * The loop never ends exactly when the text has words, `max_tokens <= 0`
   * and `overlap >= max_tokens`; a negative overlap below a non-positive
   * `max_tokens` still gives a positive stride.
   */
  lemma NonTermination(text: string, maxTokens: int, overlap: int)
    ensures !Terminates(text, maxTokens, overlap) <==> Words(text) != [] && maxTokens <= 0 && overlap >= maxTokens
    ensures maxTokens <= 0 && overlap < maxTokens ==> Stride(maxTokens, overlap) == maxTokens - overlap >= 1
  {
  }

  /** `words[i:i+max_tokens]`. */
  function Window(ws: seq<string>, i: nat, maxTokens: int): seq<string>
    requires i <= |ws|
  {
    PySlice(ws, i, i + maxTokens)
  }

  /** The chunks of the windows starting at `i`, `i + stride`, ... while `i` is inside the words. */
  function Windows(ws: seq<string>, i: nat, maxTokens: int, stride: int): seq<string>
    requires stride >= 1
    decreases |ws| - i
  {
    if i >= |ws| then []
    else [Join(" ", Window(ws, i, maxTokens))] + Windows(ws, i + stride, maxTokens, stride)
  }

  lemma WindowsStep(ws: seq<string>, i: nat, maxTokens: int, stride: int)
    requires stride >= 1 && i < |ws|
    ensures Windows(ws, i, maxTokens, stride) == [Join(" ", Window(ws, i, maxTokens))] + Windows(ws, i + stride, maxTokens, stride)
  {
  }

  /** What `chunk_text(text, max_tokens, overlap)` returns. */
  function Chunks(text: string, maxTokens: int, overlap: int): seq<string>
    requires Terminates(text, maxTokens, overlap)
  {
    var ws := Words(text);
    if ws == [] then [text] else Windows(ws, 0, maxTokens, Stride(maxTokens, overlap))
  }

  /** `chunk_text`: a sliding window over the words of `text`. */
  method ChunkText(text: string, maxTokens: int, overlap: int) returns (chunks: seq<string>)
    requires Terminates(text, maxTokens, overlap)
    ensures chunks == Chunks(text, maxTokens, overlap)
  {
    var words := Words(text);
    if words == [] {
      return [text];
    }
    chunks := [];
    var i: nat := 0;
    var stride := if maxTokens > overlap then maxTokens - overlap else maxTokens;
    assert stride == Stride(maxTokens, overlap) >= 1;
    while i < |words|
      invariant chunks + Windows(words, i, maxTokens, stride) == Windows(words, 0, maxTokens, stride)
      decreases |words| - i
    {
      var chunk := Join(" ", Window(words, i, maxTokens));
      WindowsStep(words, i, maxTokens, stride);
      assert chunks + Windows(words, i, maxTokens, stride) == (chunks + [chunk]) + Windows(words, i + stride, maxTokens, stride);
      chunks := chunks + [chunk];
      i := i + stride;
    }
  }

  /** A positive window size always gives a positive stride, so the loop ends. */
  lemma StrideOfPositiveWindow(maxTokens: int, overlap: int)
    requires maxTokens >= 1
    ensures 1 <= Stride(maxTokens, overlap)
    ensures overlap >= 0 ==> Stride(maxTokens, overlap) <= maxTokens
  {
  }

  /** Text without words (empty or all whitespace) is returned unchanged as the one chunk. */
  lemma ChunksOfBlank(text: string, maxTokens: int, overlap: int)
    requires AllSpace(text)
    ensures Terminates(text, maxTokens, overlap) && Chunks(text, maxTokens, overlap) == [text]
  {
    WordsEmpty(text);
  }

  /**
   * From `i`, there is one window per started stride: `c` windows with
   * `(c - 1) * stride < len - i <= c * stride`, that is `c == ceil((len - i) / stride)`.
   */
  lemma {:induction false} WindowsCount(ws: seq<string>, i: nat, maxTokens: int, stride: int)
    requires stride >= 1 && i <= |ws|
    ensures var c := |Windows(ws, i, maxTokens, stride)|;
      (c - 1) * stride < |ws| - i <= c * stride
    decreases |ws| - i
  {
    var a := |ws| - i;
    if a == 0 {
      assert |Windows(ws, i, maxTokens, stride)| == 0;
      assert (0 - 1) * stride == -stride;
    } else if a <= stride {
      assert Windows(ws, i + stride, maxTokens, stride) == [];
      assert |Windows(ws, i, maxTokens, stride)| == 1;
      assert (1 - 1) * stride == 0 && 1 * stride == stride;
    } else {
      WindowsCount(ws, i + stride, maxTokens, stride);
      var c := |Windows(ws, i + stride, maxTokens, stride)|;
      assert |Windows(ws, i, maxTokens, stride)| == c + 1;
      assert (c + 1) * stride == c * stride + stride;
      assert (c + 1 - 1) * stride == (c - 1) * stride + stride;
    }
  }

  /** There is always at least one chunk; text with words has `ceil(len(words) / stride)` of them. */
  lemma ChunkCount(text: string, maxTokens: int, overlap: int)
    requires Terminates(text, maxTokens, overlap)
    ensures |Chunks(text, maxTokens, overlap)| >= 1
    ensures Words(text) != [] ==>
      var c := |Chunks(text, maxTokens, overlap)|;
      (c - 1) * Stride(maxTokens, overlap) < |Words(text)| <= c * Stride(maxTokens, overlap)
  {
    var ws := Words(text);
    if ws != [] {
      WindowsCount(ws, 0, maxTokens, Stride(maxTokens, overlap));
    }
  }

  /** The `k`-th chunk from `i` is the window starting `k` strides after `i`. */
  lemma {:induction false} WindowsAt(ws: seq<string>, i: nat, maxTokens: int, stride: int, k: nat)
    requires stride >= 1
    requires k < |Windows(ws, i, maxTokens, stride)|
    ensures i + k * stride < |ws|
    ensures Windows(ws, i, maxTokens, stride)[k] == Join(" ", Window(ws, i + k * stride, maxTokens))
    decreases k
  {
    if k > 0 {
      WindowsAt(ws, i + stride, maxTokens, stride, k - 1);
      assert i + stride + (k - 1) * stride == i + k * stride;
    }
  }

  /** The smaller of two numbers. */
  function Min(a: int, b: int): int {
    if a <= b then a else b
  }

  /**
   * For a positive window size, chunk `k` is the words from `k * stride`
   * up to `k * stride + max_tokens` (or the end) joined by single spaces,
   * so it splits back into at most `max_tokens` words.
   */
  lemma ChunkIsWindow(text: string, maxTokens: int, overlap: int, k: nat)
    requires maxTokens >= 1 && Words(text) != []
    requires k < |Windows(Words(text), 0, maxTokens, Stride(maxTokens, overlap))|
    ensures
      var ws := Words(text);
      var start := k * Stride(maxTokens, overlap);
      var stop := Min(start + maxTokens, |ws|);
      && start < stop <= |ws|
      && Chunks(text, maxTokens, overlap)[k] == Join(" ", ws[start..stop])
      && Words(Chunks(text, maxTokens, overlap)[k]) == ws[start..stop]
      && 1 <= |Words(Chunks(text, maxTokens, overlap)[k])| <= maxTokens
  {
    var ws := Words(text);
    var st := Stride(maxTokens, overlap);
    assert Chunks(text, maxTokens, overlap) == Windows(ws, 0, maxTokens, st);
    WindowsAt(ws, 0, maxTokens, st, k);
    StridesFrom(k, st);
    var start := 0 + k * st;
    WindowSlice(ws, start, maxTokens);
    WordsOfJoinSlice(ws, start, Min(start + maxTokens, |ws|));
  }

  /** `k` strides of positive length reach at least `k`. */
  lemma StridesFrom(k: nat, stride: int)
    requires stride >= 1
    ensures k * stride >= k
  {
  }

  /** A window that starts inside the words is the slice up to `max_tokens` words on. */
  lemma WindowSlice(ws: seq<string>, i: nat, maxTokens: int)
    requires maxTokens >= 1 && i < |ws|
    ensures i < Min(i + maxTokens, |ws|) <= |ws|
    ensures Window(ws, i, maxTokens) == ws[i..Min(i + maxTokens, |ws|)]
  {
  }

  /** With a stride no larger than the window, every word position lies in some window. */
  lemma {:induction false} WindowsCover(ws: seq<string>, i: nat, maxTokens: int, stride: int, p: nat)
    requires 1 <= stride <= maxTokens
    requires i <= p < |ws|
    ensures exists k: nat :: k < |Windows(ws, i, maxTokens, stride)| && i + k * stride <= p < i + k * stride + maxTokens
    decreases |ws| - i
  {
    if p < i + stride {
      assert i + 0 * stride <= p < i + 0 * stride + maxTokens;
    } else {
      WindowsCover(ws, i + stride, maxTokens, stride, p);
      var k: nat :| k < |Windows(ws, i + stride, maxTokens, stride)|
        && i + stride + k * stride <= p < i + stride + k * stride + maxTokens;
      assert i + (k + 1) * stride == i + stride + k * stride;
      assert k + 1 < |Windows(ws, i, maxTokens, stride)|;
    }
  }

  /** With a non-negative overlap no word is skipped: each lies in the window of some chunk. */
  lemma ChunksCoverWords(text: string, maxTokens: int, overlap: int, p: nat)
    requires maxTokens >= 1 && overlap >= 0
    requires p < |Words(text)|
    ensures exists k: nat ::
      && k < |Chunks(text, maxTokens, overlap)|
      && k * Stride(maxTokens, overlap) <= p < k * Stride(maxTokens, overlap) + maxTokens
  {
    var ws := Words(text);
    StrideOfPositiveWindow(maxTokens, overlap);
    WindowsCover(ws, 0, maxTokens, Stride(maxTokens, overlap), p);
  }

  lemma JoinTwo(x: string, y: string)
    ensures Join(" ", [x, y]) == x + " " + y
  {
    assert [x, y][1..] == [y];
  }

  lemma JoinFive(a: string, b: string, c: string, d: string, e: string)
    ensures Join(" ", [a, b, c, d, e]) == a + " " + (b + " " + (c + " " + (d + " " + e)))
  {
    assert [a, b, c, d, e][1..] == [b, c, d, e];
    assert [b, c, d, e][1..] == [c, d, e];
    assert [c, d, e][1..] == [d, e];
    JoinTwo(d, e);
    assert Join(" ", [c, d, e]) == c + " " + (d + " " + e);
    assert Join(" ", [b, c, d, e]) == b + " " + (c + " " + (d + " " + e));
  }

  /** Five words, two per window, one word of overlap: each chunk repeats the last word of the one before. */
  lemma ChunksOfFiveWords(a: string, b: string, c: string, d: string, e: string)
    requires IsWord(a) && IsWord(b) && IsWord(c) && IsWord(d) && IsWord(e)
    ensures Chunks(Join(" ", [a, b, c, d, e]), 2, 1)
      == [a + " " + b, b + " " + c, c + " " + d, d + " " + e, e]
  {
    var ws := [a, b, c, d, e];
    WordsOfJoin(ws);
    assert Window(ws, 0, 2) == [a, b];
    assert Window(ws, 1, 2) == [b, c];
    assert Window(ws, 2, 2) == [c, d];
    assert Window(ws, 3, 2) == [d, e];
    assert Window(ws, 4, 2) == [e];
    JoinTwo(a, b);
    JoinTwo(b, c);
    JoinTwo(c, d);
    JoinTwo(d, e);
    assert Windows(ws, 5, 2, 1) == [];
    assert Windows(ws, 4, 2, 1) == [e];
    assert Windows(ws, 3, 2, 1) == [d + " " + e, e];
    assert Windows(ws, 2, 2, 1) == [c + " " + d, d + " " + e, e];
    assert Windows(ws, 1, 2, 1) == [b + " " + c, c + " " + d, d + " " + e, e];
  }

  lemma FiveLetterText()
    ensures Join(" ", ["a", "b", "c", "d", "e"]) == "a b c d e"
  {
    JoinFive("a", "b", "c", "d", "e");
  }

  lemma FiveLetterWords()
    ensures IsWord("a") && IsWord("b") && IsWord("c") && IsWord("d") && IsWord("e")
  {
  }

  /** `chunk_text("a b c d e", 2, 1)`. */
  lemma ChunkTextExample()
    ensures Chunks("a b c d e", 2, 1) == ["a b", "b c", "c d", "d e", "e"]
  {
    FiveLetterText();
    FiveLetterWords();
    ChunksOfFiveWords("a", "b", "c", "d", "e");
    assert "a" + " " + "b" == "a b" && "b" + " " + "c" == "b c";
    assert "c" + " " + "d" == "c d" && "d" + " " + "e" == "d e";
  }

  // ---------------------------------------------------------------------
  // Chunk records
  // ---------------------------------------------------------------------

  /** The part of a document's metadata every chunk record repeats. */
  datatype ChunkMeta = ChunkMeta(
    minutes: Option<int>,
    diets: seq<string>,
    allergens: seq<string>,
    cuisine: Option<string>,
    meals: seq<string>,
    ingredients: seq<string>)

  datatype ChunkRecord = ChunkRecord(
    chunkId: string,
    docId: string,
    recipeTitle: string,
    chunkIndex: nat,
    text: string,
    metadata: ChunkMeta)

  function MetaOf(m: Metadata): ChunkMeta {
    ChunkMeta(m.minutes, m.diets, m.allergens, m.cuisine, m.meals, m.ingredients)
  }

  /** `f"{doc_id}:{idx}"`. */
  function ChunkId(docId: string, idx: nat): string {
    docId + ":" + NatToString(idx)
  }

  /** The record for chunk `idx` of `doc`, whose text is `text`. */
  function RecordAt(doc: Recipe, idx: nat, text: string): ChunkRecord {
    ChunkRecord(ChunkId(doc.id, idx), doc.id, doc.title, idx, text, MetaOf(doc.metadata))
  }

  /** The records of one document's chunks, numbered from 0. */
  function DocRecords(doc: Recipe, chunks: seq<string>): (rs: seq<ChunkRecord>)
    ensures |rs| == |chunks|
  {
    seq(|chunks|, k requires 0 <= k < |chunks| => RecordAt(doc, k, chunks[k]))
  }

  /** The inner loop of `main`: one record per chunk, in order. */
  method EmitChunks(doc: Recipe, chunks: seq<string>) returns (records: seq<ChunkRecord>)
    ensures records == DocRecords(doc, chunks)
  {
    records := [];
    var idx := 0;
    while idx < |chunks|
      invariant idx <= |chunks|
      invariant records == DocRecords(doc, chunks[..idx])
    {
      records := records + [RecordAt(doc, idx, chunks[idx])];
      idx := idx + 1;
      assert chunks[..idx][..idx - 1] == chunks[..idx - 1];
    }
    assert chunks[..idx] == chunks;
  }

  /** Position of the last `c` in `s`. */
  function LastIndexOf(s: string, c: char): (r: Option<nat>)
    ensures r.Some? ==> r.value < |s| && s[r.value] == c
    ensures r.Some? ==> forall k :: r.value < k < |s| ==> s[k] != c
    ensures r.None? ==> c !in s
    decreases |s|
  {
    if s == [] then None
    else if s[|s| - 1] == c then Some(|s| - 1)
    else LastIndexOf(s[..|s| - 1], c)
  }

  /** Reads a chunk id back: the text before the last `:` is the document id, the digits after it the index. */
  function ParseChunkId(s: string): Option<(string, nat)> {
    match LastIndexOf(s, ':')
    case None => None
    case Some(j) =>
      var ds := s[j + 1..];
      if ds != [] && AllDigits(ds) then Some((s[..j], DigitsValue(ds))) else None
  }

  lemma {:induction false} LastIndexOfAfter(a: string, c: char, b: string)
    requires c !in b
    ensures LastIndexOf(a + [c] + b, c) == Some(|a|)
    decreases |b|
  {
    var s := a + [c] + b;
    if b == [] {
      assert s[|s| - 1] == c;
    } else {
      var b' := b[..|b| - 1];
      assert s[|s| - 1] == b[|b| - 1];
      assert s[..|s| - 1] == a + [c] + b';
      LastIndexOfAfter(a, c, b');
    }
  }

  /** A chunk id reads back as its document id and index, whatever characters the document id holds. */
  lemma ParseChunkIdOfChunkId(docId: string, idx: nat)
    ensures ParseChunkId(ChunkId(docId, idx)) == Some((docId, idx))
  {
    var ds := NatToString(idx);
    var s := ChunkId(docId, idx);
    assert forall k :: 0 <= k < |ds| ==> ds[k] != ':';
    assert s == docId + [':'] + ds;
    LastIndexOfAfter(docId, ':', ds);
    assert s[..|docId|] == docId && s[|docId| + 1..] == ds;
  }

  /** Chunk ids are unique: different documents or indices give different ids. */
  lemma ChunkIdInjective(d1: string, i1: nat, d2: string, i2: nat)
    requires d1 != d2 || i1 != i2
    ensures ChunkId(d1, i1) != ChunkId(d2, i2)
  {
    ParseChunkIdOfChunkId(d1, i1);
    ParseChunkIdOfChunkId(d2, i2);
  }

  // ---------------------------------------------------------------------
  // The conversion loop
  // ---------------------------------------------------------------------

  /** Every document's text can be chunked with these settings. */
  predicate AllTerminate(docs: seq<Recipe>, maxTokens: int, overlap: int) {
    forall i :: 0 <= i < |docs| ==> Terminates(docs[i].text, maxTokens, overlap)
  }

  /** The documents of the first `n` rows, row `i` with index `i` and the fresh id `freshId(i)`. */
  function Documents(rows: seq<Row>, freshId: nat -> string, n: nat): (docs: seq<Recipe>)
    requires n <= |rows|
    ensures |docs| == n
  {
    if n == 0 then [] else Documents(rows, freshId, n - 1) + [NormalizeRow(rows[n - 1], n - 1, freshId(n - 1))]
  }

  /** The chunk records of all documents, document by document. */
  function AllRecords(docs: seq<Recipe>, maxTokens: int, overlap: int): seq<ChunkRecord>
    requires AllTerminate(docs, maxTokens, overlap)
    decreases |docs|
  {
    if docs == [] then []
    else
      var last := docs[|docs| - 1];
      AllRecords(docs[..|docs| - 1], maxTokens, overlap) + DocRecords(last, Chunks(last.text, maxTokens, overlap))
  }

  /**
   * `main`'s loop over the rows: each row is normalised with its index and
   * a fresh id, written as a document, chunked, and its chunk records
   * written. `freshId(i)` is the id `uuid.uuid4()` would give row `i`.
   */
  method Convert(rows: seq<Row>, freshId: nat -> string, maxTokens: int, overlap: int)
    returns (docs: seq<Recipe>, records: seq<ChunkRecord>)
    requires forall i :: 0 <= i < |rows| ==> Terminates(NormalizeRow(rows[i], i, freshId(i)).text, maxTokens, overlap)
    ensures docs == Documents(rows, freshId, |rows|)
    ensures AllTerminate(docs, maxTokens, overlap) && records == AllRecords(docs, maxTokens, overlap)
  {
    docs := [];
    records := [];
    for i := 0 to |rows|
      invariant docs == Documents(rows, freshId, i)
      invariant AllTerminate(docs, maxTokens, overlap) && records == AllRecords(docs, maxTokens, overlap)
    {
      var doc := NormalizeRow(rows[i], i, freshId(i));
      var chunks := ChunkText(doc.text, maxTokens, overlap);
      var emitted := EmitChunks(doc, chunks);
      AllRecordsStep(docs, doc, maxTokens, overlap);
      docs := docs + [doc];
      records := records + emitted;
    }
  }

  lemma AllRecordsStep(docs: seq<Recipe>, doc: Recipe, maxTokens: int, overlap: int)
    requires AllTerminate(docs, maxTokens, overlap) && Terminates(doc.text, maxTokens, overlap)
    ensures AllTerminate(docs + [doc], maxTokens, overlap)
    ensures AllRecords(docs + [doc], maxTokens, overlap)
      == AllRecords(docs, maxTokens, overlap) + DocRecords(doc, Chunks(doc.text, maxTokens, overlap))
  {
    assert (docs + [doc])[..|docs|] == docs;
  }

  /** Every record belongs to one of the documents. */
  lemma {:induction false} RecordsOfDocuments(docs: seq<Recipe>, maxTokens: int, overlap: int, p: nat)
    requires AllTerminate(docs, maxTokens, overlap)
    requires p < |AllRecords(docs, maxTokens, overlap)|
    ensures exists i :: 0 <= i < |docs| && AllRecords(docs, maxTokens, overlap)[p].docId == docs[i].id
    ensures var r := AllRecords(docs, maxTokens, overlap)[p]; r.chunkId == ChunkId(r.docId, r.chunkIndex)
    decreases |docs|
  {
    var pre := docs[..|docs| - 1];
    var n := |AllRecords(pre, maxTokens, overlap)|;
    if p < n {
      RecordsOfDocuments(pre, maxTokens, overlap, p);
      var i :| 0 <= i < |pre| && AllRecords(pre, maxTokens, overlap)[p].docId == pre[i].id;
      assert docs[i] == pre[i];
    } else {
      assert AllRecords(docs, maxTokens, overlap)[p].docId == docs[|docs| - 1].id;
    }
  }

  /** With distinct document ids, no two chunk records share a chunk id. */
  lemma {:induction false} ChunkIdsDistinct(docs: seq<Recipe>, maxTokens: int, overlap: int)
    requires AllTerminate(docs, maxTokens, overlap)
    requires forall i, j :: 0 <= i < j < |docs| ==> docs[i].id != docs[j].id
    ensures forall p, q :: 0 <= p < q < |AllRecords(docs, maxTokens, overlap)| ==>
      AllRecords(docs, maxTokens, overlap)[p].chunkId != AllRecords(docs, maxTokens, overlap)[q].chunkId
    decreases |docs|
  {
    if docs != [] {
      var pre := docs[..|docs| - 1];
      var last := docs[|docs| - 1];
      var rs := AllRecords(docs, maxTokens, overlap);
      var n := |AllRecords(pre, maxTokens, overlap)|;
      ChunkIdsDistinct(pre, maxTokens, overlap);
      var rpre := AllRecords(pre, maxTokens, overlap);
      assert forall p, q :: 0 <= p < q < |rpre| ==> rpre[p].chunkId != rpre[q].chunkId;
      forall p, q | 0 <= p < q < |rs| ensures rs[p].chunkId != rs[q].chunkId {
        var own := DocRecords(last, Chunks(last.text, maxTokens, overlap));
        assert rs == rpre + own;
        if q < n {
          assert rs[p] == rpre[p] && rs[q] == rpre[q];
          assert rpre[p].chunkId != rpre[q].chunkId;
        } else {
          RecordsOfDocuments(docs, maxTokens, overlap, p);
          RecordsOfDocuments(docs, maxTokens, overlap, q);
          assert rs[q] == own[q - n];
          if p < n {
            RecordsOfDocuments(pre, maxTokens, overlap, p);
            var i :| 0 <= i < |pre| && rpre[p].docId == pre[i].id;
            assert docs[i] == pre[i];
            assert rs[p] == rpre[p];
            assert rs[p].docId != rs[q].docId;
          } else {
            assert rs[p] == own[p - n];
            assert rs[p].chunkIndex != rs[q].chunkIndex;
          }
          ChunkIdInjective(rs[p].docId, rs[p].chunkIndex, rs[q].docId, rs[q].chunkIndex);
          assert rs[p].chunkId != rs[q].chunkId;
        }
      }
    }
  }

  // ---------------------------------------------------------------------
  // The JSON line of a chunk record
  // ---------------------------------------------------------------------

  function OptIntJson(o: Option<int>): Json {
    if o.Some? then JNum(o.value) else JNull
  }

  function OptStrJson(o: Option<string>): Json {
    if o.Some? then JStr(o.value) else JNull
  }

  /** The object `json.dumps` writes for a chunk record, as `json.loads` reads it back. */
  function ChunkJson(r: ChunkRecord): Json {
    JObj([
      ("chunk_id", JStr(r.chunkId)),
      ("doc_id", JStr(r.docId)),
      ("recipe_title", JStr(r.recipeTitle)),
      ("chunk_index", JNum(r.chunkIndex)),
      ("text", JStr(r.text)),
      ("metadata", JObj([
        ("minutes", OptIntJson(r.metadata.minutes)),
        ("diets", StrList(r.metadata.diets)),
        ("allergens", StrList(r.metadata.allergens)),
        ("cuisine", OptStrJson(r.metadata.cuisine)),
        ("meals", StrList(r.metadata.meals)),
        ("ingredients", StrList(r.metadata.ingredients))]))])
  }
}
