/**
 * Sidecar construction at index-build time: the chunk stream is read in
 * order into a list of texts (what gets embedded) and a parallel list of
 * metadata objects, and a manifest records the embedding model and the
 * number of vectors. The embedding itself is a parameter (its dimension).
 */
module Sidecars {
  import opened Wrappers
  import opened Values
  import opened Chunking

  const EmbedModel := "sentence-transformers/all-MiniLM-L6-v2"

  /** Why a build stops; the line is the 0-based position in the chunk stream. */
  datatype BuildError =
    | NotAnObject(line: nat)        // `rec["text"]` on a value that is not a dict
    | MissingText(line: nat)        // `rec["text"]` raises KeyError
    | MetadataNotObject(line: nat)  // `rec.get("metadata", {}).get(...)` on a non-dict
    | NoRecords                     // "No records found in chunks.jsonl"

  datatype Manifest = Manifest(embedModel: string, dim: nat, count: nat)

  datatype Artifacts = Artifacts(texts: seq<Json>, metas: seq<Json>, manifest: Manifest)

  /** `rec.get("metadata", {})` when it is a dict: an absent key reads as the empty dict. */
  function MetadataOf(fields: seq<(string, Json)>): Option<seq<(string, Json)>> {
    match Lookup(fields, "metadata")
    case None => Some([])
    case Some(JObj(m)) => Some(m)
    case Some(_) => None
  }

  /** The sidecar metadata object of one chunk record. */
  function SidecarMeta(fields: seq<(string, Json)>, md: seq<(string, Json)>): Json {
    JObj([
      ("chunk_id", GetJson(fields, "chunk_id")),
      ("doc_id", GetJson(fields, "doc_id")),
      ("recipe_title", GetJson(fields, "recipe_title")),
      ("chunk_index", GetJson(fields, "chunk_index")),
      ("minutes", GetJson(md, "minutes")),
      ("diets", GetJson(md, "diets")),
      ("allergens", GetJson(md, "allergens")),
      ("cuisine", GetJson(md, "cuisine")),
      ("meals", GetJson(md, "meals")),
      ("ingredients", GetJson(md, "ingredients"))])
  }

  /** One step of the read loop: the text and the metadata object of record `line`, or why it raises. */
  function ReadRecord(rec: Json, line: nat): Result<(Json, Json), BuildError> {
    if !rec.JObj? then Err(NotAnObject(line))
    else match Lookup(rec.fields, "text")
      case None => Err(MissingText(line))
      case Some(t) =>
        match MetadataOf(rec.fields)
        case None => Err(MetadataNotObject(line))
        case Some(md) => Ok((t, SidecarMeta(rec.fields, md)))
  }

  /** The two lists after reading `records`, or the error of the first record that raises. */
  function ReadAll(records: seq<Json>): Result<(seq<Json>, seq<Json>), BuildError>
    decreases |records|
  {
    if records == [] then Ok(([], []))
    else
      var n := |records| - 1;
      match ReadAll(records[..n])
      case Err(e) => Err(e)
      case Ok((texts, metas)) =>
        match ReadRecord(records[n], n)
        case Err(e) => Err(e)
        case Ok((t, m)) => Ok((texts + [t], metas + [m]))
  }

  /** What a build produces from the chunk stream and the embedding dimension. */
  function Build(records: seq<Json>, dim: nat): Result<Artifacts, BuildError> {
    match ReadAll(records)
    case Err(e) => Err(e)
    case Ok((texts, metas)) =>
      if texts == [] then Err(NoRecords)
      else Ok(Artifacts(texts, metas, Manifest(EmbedModel, dim, |texts|)))
  }

  /** `main` of the index builder, up to the embedding: the read loop, the empty check and the manifest. */
  method BuildSidecars(records: seq<Json>, dim: nat) returns (r: Result<Artifacts, BuildError>)
    ensures r == Build(records, dim)
  {
    var texts: seq<Json> := [];
    var metas: seq<Json> := [];
    var i := 0;
    while i < |records|
      invariant i <= |records|
      invariant ReadAll(records[..i]) == Ok((texts, metas))
    {
      assert records[..i + 1][..i] == records[..i];
      var step := ReadRecord(records[i], i);
      if step.Err? {
        ErrorPersists(records, i + 1);
        return Err(step.error);
      }
      texts := texts + [step.value.0];
      metas := metas + [step.value.1];
      i := i + 1;
    }
    assert records[..i] == records;
    if texts == [] {
      return Err(NoRecords);
    }
    r := Ok(Artifacts(texts, metas, Manifest(EmbedModel, dim, |texts|)));
  }

  /** Once a prefix raises, the whole stream raises the same error. */
  lemma {:induction false} ErrorPersists(records: seq<Json>, i: nat)
    requires i <= |records| && ReadAll(records[..i]).Err?
    ensures ReadAll(records) == ReadAll(records[..i])
    decreases |records| - i
  {
    if i < |records| {
      assert records[..i + 1][..i] == records[..i];
      ErrorPersists(records, i + 1);
    } else {
      assert records[..i] == records;
    }
  }

  /** A successful read keeps one text and one metadata object per record, record `k` at position `k`. */
  lemma {:induction false} ReadAllAligned(records: seq<Json>)
    requires ReadAll(records).Ok?
    ensures |ReadAll(records).value.0| == |records| && |ReadAll(records).value.1| == |records|
    ensures forall k :: 0 <= k < |records| ==>
      ReadRecord(records[k], k) == Ok((ReadAll(records).value.0[k], ReadAll(records).value.1[k]))
    decreases |records|
  {
    if records != [] {
      var n := |records| - 1;
      var pre := records[..n];
      assert ReadAll(pre).Ok?;
      ReadAllAligned(pre);
      var ts := ReadAll(pre).value.0;
      var ms := ReadAll(pre).value.1;
      var step := ReadRecord(records[n], n);
      assert ReadAll(records) == Ok((ts + [step.value.0], ms + [step.value.1]));
      forall k | 0 <= k < |records|
        ensures ReadRecord(records[k], k) == Ok((ReadAll(records).value.0[k], ReadAll(records).value.1[k]))
      {
        if k < n {
          assert pre[k] == records[k];
          assert ReadRecord(pre[k], k) == Ok((ts[k], ms[k]));
        }
      }
    }
  }

  /**
   * A build succeeds exactly when the stream is non-empty and no record raises;
   * then text `k` and metadata `k` come from record `k`, and the manifest
   * counts the texts.
   */
  lemma BuildResult(records: seq<Json>, dim: nat)
    ensures Build(records, dim).Ok? <==> records != [] && ReadAll(records).Ok?
    ensures records == [] ==> Build(records, dim) == Err(NoRecords)
    ensures Build(records, dim).Ok? ==>
      var a := Build(records, dim).value;
      && |a.texts| == |a.metas| == |records| == a.manifest.count
      && a.manifest.embedModel == EmbedModel && a.manifest.dim == dim
      && forall k :: 0 <= k < |records| ==> ReadRecord(records[k], k) == Ok((a.texts[k], a.metas[k]))
  {
    if ReadAll(records).Ok? {
      ReadAllAligned(records);
    }
  }

  /** The keys of a sidecar metadata object, in the order they are written. */
  const MetaKeys: seq<string> := ["chunk_id", "doc_id", "recipe_title", "chunk_index", "minutes",
                                  "diets", "allergens", "cuisine", "meals", "ingredients"]

  lemma MetaKeysDistinct()
    ensures forall i, j :: 0 <= i < j < |MetaKeys| ==> MetaKeys[i] != MetaKeys[j]
  {
  }

  /** Every key of a sidecar metadata object reads back as the value written under it. */
  lemma SidecarMetaGet(fields: seq<(string, Json)>, md: seq<(string, Json)>, k: nat)
    requires k < |MetaKeys|
    ensures var m := SidecarMeta(fields, md);
      && m.JObj? && |m.fields| == |MetaKeys| && m.fields[k].0 == MetaKeys[k]
      && GetJson(m.fields, MetaKeys[k]) == m.fields[k].1
  {
    var m := SidecarMeta(fields, md);
    MetaKeysDistinct();
    assert forall j :: 0 <= j < |MetaKeys| ==> m.fields[j].0 == MetaKeys[j];
    LookupAt(m.fields, k, MetaKeys[k]);
  }

  /**
   * The metadata object of a record carries its id fields and, from its
   * `metadata` member, the filter fields; an absent `metadata` gives None for them.
   */
  lemma ReadRecordFields(rec: Json, line: nat)
    requires ReadRecord(rec, line).Ok?
    ensures var m := ReadRecord(rec, line).value.1;
      && rec.JObj? && m.JObj?
      && Lookup(rec.fields, "text") == Some(ReadRecord(rec, line).value.0)
      && GetJson(m.fields, "chunk_id") == GetJson(rec.fields, "chunk_id")
      && GetJson(m.fields, "doc_id") == GetJson(rec.fields, "doc_id")
      && GetJson(m.fields, "recipe_title") == GetJson(rec.fields, "recipe_title")
      && GetJson(m.fields, "chunk_index") == GetJson(rec.fields, "chunk_index")
      && GetJson(m.fields, "minutes") == GetJson(MetadataOf(rec.fields).value, "minutes")
      && GetJson(m.fields, "diets") == GetJson(MetadataOf(rec.fields).value, "diets")
      && GetJson(m.fields, "allergens") == GetJson(MetadataOf(rec.fields).value, "allergens")
      && GetJson(m.fields, "cuisine") == GetJson(MetadataOf(rec.fields).value, "cuisine")
      && GetJson(m.fields, "meals") == GetJson(MetadataOf(rec.fields).value, "meals")
      && GetJson(m.fields, "ingredients") == GetJson(MetadataOf(rec.fields).value, "ingredients")
      && (Lookup(rec.fields, "metadata").None? ==>
            && GetJson(m.fields, "minutes") == JNull && GetJson(m.fields, "diets") == JNull
            && GetJson(m.fields, "allergens") == JNull && GetJson(m.fields, "cuisine") == JNull
            && GetJson(m.fields, "meals") == JNull && GetJson(m.fields, "ingredients") == JNull)
  {
    var md := MetadataOf(rec.fields).value;
    SidecarMetaGet(rec.fields, md, 0);
    SidecarMetaGet(rec.fields, md, 1);
    SidecarMetaGet(rec.fields, md, 2);
    SidecarMetaGet(rec.fields, md, 3);
    SidecarMetaGet(rec.fields, md, 4);
    SidecarMetaGet(rec.fields, md, 5);
    SidecarMetaGet(rec.fields, md, 6);
    SidecarMetaGet(rec.fields, md, 7);
    SidecarMetaGet(rec.fields, md, 8);
    SidecarMetaGet(rec.fields, md, 9);
  }

  /** No record raises, so the read succeeds. */
  lemma {:induction false} ReadAllOk(records: seq<Json>)
    requires forall k :: 0 <= k < |records| ==> ReadRecord(records[k], k).Ok?
    ensures ReadAll(records).Ok?
    decreases |records|
  {
    if records != [] {
      var n := |records| - 1;
      assert forall k :: 0 <= k < n ==> records[..n][k] == records[k];
      ReadAllOk(records[..n]);
    }
  }

  /** The metadata members of a chunk record's JSON object. */
  function ChunkMetaFields(r: ChunkRecord): seq<(string, Json)> {
    ChunkJson(r).fields[5].1.fields
  }

  /** The builder reads a chunk record's own line: its text, its ids and its metadata. */
  lemma ReadChunkJson(r: ChunkRecord, line: nat)
    ensures var j := ChunkJson(r);
      && ReadRecord(j, line) == Ok((JStr(r.text), SidecarMeta(j.fields, ChunkMetaFields(r))))
      && GetJson(j.fields, "chunk_id") == JStr(r.chunkId)
      && GetJson(j.fields, "doc_id") == JStr(r.docId)
      && GetJson(j.fields, "recipe_title") == JStr(r.recipeTitle)
      && GetJson(j.fields, "chunk_index") == JNum(r.chunkIndex)
      && GetJson(ChunkMetaFields(r), "minutes") == OptIntJson(r.metadata.minutes)
      && GetJson(ChunkMetaFields(r), "diets") == StrList(r.metadata.diets)
      && GetJson(ChunkMetaFields(r), "allergens") == StrList(r.metadata.allergens)
      && GetJson(ChunkMetaFields(r), "cuisine") == OptStrJson(r.metadata.cuisine)
      && GetJson(ChunkMetaFields(r), "meals") == StrList(r.metadata.meals)
      && GetJson(ChunkMetaFields(r), "ingredients") == StrList(r.metadata.ingredients)
  {
    ChunkJsonLookups(r);
    ChunkMetaLookups(r);
  }

  /** The members of a chunk record's line, each key written once. */
  lemma ChunkJsonLookups(r: ChunkRecord)
    ensures var f := ChunkJson(r).fields;
      && Lookup(f, "chunk_id") == Some(JStr(r.chunkId))
      && Lookup(f, "doc_id") == Some(JStr(r.docId))
      && Lookup(f, "recipe_title") == Some(JStr(r.recipeTitle))
      && Lookup(f, "chunk_index") == Some(JNum(r.chunkIndex))
      && Lookup(f, "text") == Some(JStr(r.text))
      && Lookup(f, "metadata") == Some(JObj(ChunkMetaFields(r)))
  {
    var f := ChunkJson(r).fields;
    LookupAt(f, 0, "chunk_id");
    LookupAt(f, 1, "doc_id");
    LookupAt(f, 2, "recipe_title");
    LookupAt(f, 3, "chunk_index");
    LookupAt(f, 4, "text");
    LookupAt(f, 5, "metadata");
  }

  /** The members of a chunk record's metadata object, each key written once. */
  lemma ChunkMetaLookups(r: ChunkRecord)
    ensures var md := ChunkMetaFields(r);
      && Lookup(md, "minutes") == Some(OptIntJson(r.metadata.minutes))
      && Lookup(md, "diets") == Some(StrList(r.metadata.diets))
      && Lookup(md, "allergens") == Some(StrList(r.metadata.allergens))
      && Lookup(md, "cuisine") == Some(OptStrJson(r.metadata.cuisine))
      && Lookup(md, "meals") == Some(StrList(r.metadata.meals))
      && Lookup(md, "ingredients") == Some(StrList(r.metadata.ingredients))
  {
    var md := ChunkMetaFields(r);
    LookupAt(md, 0, "minutes");
    LookupAt(md, 1, "diets");
    LookupAt(md, 2, "allergens");
    LookupAt(md, 3, "cuisine");
    LookupAt(md, 4, "meals");
    LookupAt(md, 5, "ingredients");
  }

  /**
   * Building from the chunk records written by the converter succeeds for a
   * non-empty stream, and text `k` and metadata `k` are those of chunk record `k`.
   */
  lemma BuildOfChunkRecords(rs: seq<ChunkRecord>, dim: nat)
    requires rs != []
    ensures var recs := seq(|rs|, k requires 0 <= k < |rs| => ChunkJson(rs[k]));
      && Build(recs, dim).Ok?
      && |Build(recs, dim).value.texts| == |rs| == Build(recs, dim).value.manifest.count
      && |Build(recs, dim).value.metas| == |rs|
      && forall k :: 0 <= k < |rs| ==>
           && Build(recs, dim).value.texts[k] == JStr(rs[k].text)
           && Build(recs, dim).value.metas[k] == SidecarMeta(ChunkJson(rs[k]).fields, ChunkMetaFields(rs[k]))
  {
    var recs := seq(|rs|, k requires 0 <= k < |rs| => ChunkJson(rs[k]));
    forall k | 0 <= k < |rs| ensures ReadRecord(recs[k], k) == Ok((JStr(rs[k].text), SidecarMeta(ChunkJson(rs[k]).fields, ChunkMetaFields(rs[k])))) {
      ReadChunkJson(rs[k], k);
    }
    ReadAllOk(recs);
    BuildResult(recs, dim);
  }

  /** In the sidecar of chunk record `r`, the ids and the filter fields are `r`'s own. */
  lemma SidecarOfChunkRecord(r: ChunkRecord)
    ensures var m := SidecarMeta(ChunkJson(r).fields, ChunkMetaFields(r)).fields;
      && GetJson(m, "chunk_id") == JStr(r.chunkId)
      && GetJson(m, "doc_id") == JStr(r.docId)
      && GetJson(m, "recipe_title") == JStr(r.recipeTitle)
      && GetJson(m, "chunk_index") == JNum(r.chunkIndex)
      && GetJson(m, "minutes") == OptIntJson(r.metadata.minutes)
      && GetJson(m, "diets") == StrList(r.metadata.diets)
      && GetJson(m, "allergens") == StrList(r.metadata.allergens)
      && GetJson(m, "cuisine") == OptStrJson(r.metadata.cuisine)
      && GetJson(m, "meals") == StrList(r.metadata.meals)
      && GetJson(m, "ingredients") == StrList(r.metadata.ingredients)
  {
    ReadChunkJson(r, 0);
    var f := ChunkJson(r).fields;
    var md := ChunkMetaFields(r);
    SidecarMetaGet(f, md, 0);
    SidecarMetaGet(f, md, 1);
    SidecarMetaGet(f, md, 2);
    SidecarMetaGet(f, md, 3);
    SidecarMetaGet(f, md, 4);
    SidecarMetaGet(f, md, 5);
    SidecarMetaGet(f, md, 6);
    SidecarMetaGet(f, md, 7);
    SidecarMetaGet(f, md, 8);
    SidecarMetaGet(f, md, 9);
  }

  // ---------------------------------------------------------------------
  // The texts sidecar
  // ---------------------------------------------------------------------

  /** The line the builder writes for a text: `{"text": t}`. */
  function TextLine(t: Json): Json {
    JObj([("text", t)])
  }

  /**
   * How the search script reads a texts line: a dict with a `text` key gives
   * that value, a string itself, and anything else its `str()`.
   */
  function LoadText(rec: Json): Json {
    if rec.JObj? && Lookup(rec.fields, "text").Some? then Lookup(rec.fields, "text").value
    else if rec.JStr? then rec
    else JStr(JsonStr(rec))
  }

  /** A written texts line reads back as the text that was embedded. */
  lemma LoadTextOfTextLine(t: Json)
    ensures LoadText(TextLine(t)) == t
  {
    LookupAt([("text", t)], 0, "text");
  }
}
