# FoodieAI recipe retrieval, modelled in Dafny

This project models the retrieval pipeline of FoodieAI's recipe model, the three
scripts under `backend/app/services/recipes_model/`:

- **convert_to_rag_jsonl.py** turns each CSV row into a recipe document (`normalize_row`,
  with `as_list` for the list cells). It cuts the document text into overlapping word
  windows (`chunk_text`) and writes one chunk record per window.
- **build_faiss_index.py** reads the chunk records into a list of texts and a parallel list
  of metadata objects (the sidecars). It refuses an empty stream and writes a manifest
  that counts the vectors.
- **search_faiss_index.py** answers a query:
  - it reads cues (a time bound, a diet, a meal) from the query text;
  - it lets explicit command-line filters win over those cues;
  - it turns the hits of the vector search into candidates;
  - it filters the candidates and keeps the best one per `doc_id`;
  - it sorts by score and cuts to `top_k`.

Modules, in dependency order:

- `Wrappers`: `Option` and `Result`.
- `Text`: the Python string operations used: `strip`, ASCII `lower`, `split()`, `split(",")`, `join`, `in`, `int()`, slicing.
- `Values`: JSON values (`Json`, with objects as ordered member lists; `d.get`, iteration and `str()` see each key once, at its first position, with its last value, as the dict `json.loads` builds does) with `str()` and `repr()` and CSV cells (`Cell`).
- `ListLiteral`: the subset of `ast.literal_eval` that `as_list` needs.
- `Normalize`: `as_list` and `normalize_row`.
- `Chunking`: `chunk_text`, the chunk records, the conversion loop, and the chunk records as JSON.
- `Sidecars`: the build loop, the empty-corpus check and the manifest, plus how the search reads the texts sidecar back.
- `QueryFilters`: `auto_filters_from_query`, with a model of its two regular expressions, and the explicit-over-automatic override.
- `Candidates`: the candidate list built from the hits.
- `Filtering`: `apply_filters` with `has_substr` and `none_contains`.
- `Ranking`: the dedupe by `doc_id`, the stable sort and the `top_k` cut.
- `Retrieval`: the search script from loaded sidecars and hits to its results, and what those results satisfy.

Loops in the source are methods with loop invariants, proved against a function that states
the loop's result. Examples: `Chunking.ChunkText`, `Sidecars.BuildSidecars`,
`Candidates.Assemble`, `Filtering.ApplyFilters`, `Ranking.Dedupe`,
`QueryFilters.AutoFiltersFromQuery` and `Retrieval.RunSearch`. The properties are lemmas
about those functions.

Where the code and its design description differ, the model follows the code:

- **Ties in the final ranking.** The design leaves the order of equal scores open. The code uses Python's `sorted(..., reverse=True)`, which is stable. The dict also keeps the first candidate of a `doc_id` on a tie. So equal scores come out in order of their `doc_id`'s first appearance among the filtered candidates (`Ranking.SortByScoreCorrect`, `Ranking.DedupedFirstOnTies`).
- **"20mins".** The comment above the time pattern lists "20mins", but the bare pattern needs a word boundary after `min`/`minute`/`minutes`, so a query "20mins" sets no time bound (`QueryFilters.GluedMinsHasNoBound`).
- **"under" inside a word.** The bounded pattern has no word boundary before `under`, so "thunder 5 min" gives a bound of 5 (`QueryFilters.UnderInsideWord`).

## Model

| member | source | states |
|---|---|---|
| ListLiteral.LiteralEvalOfListText | backend/app/services/recipes_model/convert_to_rag_jsonl.py:28-31 | `literal_eval` of the printed form of a non-empty list of quotable strings gives back that list |
| Normalize.CleanItems | backend/app/services/recipes_model/convert_to_rag_jsonl.py:23 | every kept item is stripped and non-empty, and there are no more items than in the input |
| Normalize.CleanItemsMembers | backend/app/services/recipes_model/convert_to_rag_jsonl.py:23 | an item is kept exactly when it is the non-blank stripped form of some input item |
| Normalize.CleanItemsOfClean | backend/app/services/recipes_model/convert_to_rag_jsonl.py:23 | a clean list passes through unchanged, so cleaning is idempotent |
| Normalize.AsList | backend/app/services/recipes_model/convert_to_rag_jsonl.py:19-35 | the result is always clean; None, NaN and blank text give the empty list |
| Normalize.AsListOfScalar | backend/app/services/recipes_model/convert_to_rag_jsonl.py:24-35 | a non-list, non-missing cell is read through its stripped printed form |
| Normalize.LiteralPreferred | backend/app/services/recipes_model/convert_to_rag_jsonl.py:28-31 | a successful list-literal parse wins over comma splitting |
| Normalize.SplitOtherwise | backend/app/services/recipes_model/convert_to_rag_jsonl.py:32-35 | comma splitting is used exactly when the literal parse raises or yields a non-list |
| Normalize.CommaFallback | backend/app/services/recipes_model/convert_to_rag_jsonl.py:28-35 | text that does not open with `[` is always split on commas |
| Normalize.AsListOfListText | backend/app/services/recipes_model/convert_to_rag_jsonl.py:28-31 | the printed form of a list of strings reads back as that list and is not split on its inner commas |
| Normalize.AsListCommaExample | backend/app/services/recipes_model/convert_to_rag_jsonl.py:35 | `"a, b, c"` gives `["a", "b", "c"]` |
| Normalize.AsListUnquotedBrackets | backend/app/services/recipes_model/convert_to_rag_jsonl.py:28-35 | `"[a, b]"` is not a literal Python evaluates, so it falls back to `["[a", "b]"]` |
| Normalize.AsListQuotedComma | backend/app/services/recipes_model/convert_to_rag_jsonl.py:28-31 | `"['a, b', 'c']"` keeps its quoted comma inside the first item |
| Normalize.CoerceInt | backend/app/services/recipes_model/convert_to_rag_jsonl.py:52-61 | missing, NaN, list and blank cells give None; an integer cell gives itself |
| Normalize.CoerceIntOfDecimalText | backend/app/services/recipes_model/convert_to_rag_jsonl.py:54 | a text cell holding a printed integer is read as that integer |
| Normalize.CoerceIntOfNaNText | backend/app/services/recipes_model/convert_to_rag_jsonl.py:53-56 | `int("NaN")` raises, so the minutes are None |
| Normalize.RecipeId | backend/app/services/recipes_model/convert_to_rag_jsonl.py:46-49 | a blank or missing id is replaced by the fresh id; otherwise the id is the stripped, non-empty source id |
| Normalize.RecipeTitle | backend/app/services/recipes_model/convert_to_rag_jsonl.py:50 | the title is stripped and non-empty: the stripped name, or the placeholder when the name is blank |
| Normalize.OptField | backend/app/services/recipes_model/convert_to_rag_jsonl.py:62 | None exactly when the stripped text is blank, else that non-empty stripped text |
| Normalize.Flags | backend/app/services/recipes_model/convert_to_rag_jsonl.py:85-93 | dairy-free iff the diets say dairy-free or the allergens do not mention dairy; gluten-free iff the diets mention gluten or the tags say gluten-free |
| Normalize.DairyFreeWithoutAllergens | backend/app/services/recipes_model/convert_to_rag_jsonl.py:92 | a recipe with no allergens is always flagged dairy-free |
| Normalize.MentionsInside | backend/app/services/recipes_model/convert_to_rag_jsonl.py:85-87 | an item mentions a key that it contains anywhere, in any letter case |
| Normalize.NonVeganIsFlaggedVegan | backend/app/services/recipes_model/convert_to_rag_jsonl.py:89 | a diet "Non-Vegan" sets `is_vegan`, because the test is a substring match |
| Normalize.VeganIsNotVegetarian | backend/app/services/recipes_model/convert_to_rag_jsonl.py:90 | "vegan" alone does not set `is_vegetarian` |
| Normalize.DairyAllergenClearsDairyFree | backend/app/services/recipes_model/convert_to_rag_jsonl.py:92 | an allergen "Dairy" clears `is_dairy_free` when no diet says dairy-free |
| Normalize.RowMetadata | backend/app/services/recipes_model/convert_to_rag_jsonl.py:52-127 | minutes and servings are the integer coercion of their columns (None for NaN or a non-integer value); ingredients (from `ingredients_raw_str`), steps, tags, diets, allergens and meals are the list parsing of their columns, each clean; cuisine and serving size are the optional text columns; the diet flags are computed from diets, tags and allergens (no allergens gives dairy-free); the source records the dataset and row index |
| Normalize.SynthTextStartsWithTitle | backend/app/services/recipes_model/convert_to_rag_jsonl.py:95-104 | the synthesised text is the title followed by the right-trimmed rest |
| Normalize.NormalizeRow | backend/app/services/recipes_model/convert_to_rag_jsonl.py:44-134 | the document carries the id, title and metadata of the row; the given text when there is one, else the synthesised text (title, ingredients, numbered steps and meta line), which starts with the title |
| Normalize.NormalizeBlankNameRow | backend/app/services/recipes_model/convert_to_rag_jsonl.py:44-134 | a row with no id, a blank name, minutes "NaN" and ingredients "a, b, c" gives the fresh id, the placeholder title, no minutes and three ingredients |
| Chunking.ChunkText | backend/app/services/recipes_model/convert_to_rag_jsonl.py:136-146 | the loop returns the windows that start every stride words, each window's words joined by spaces |
| Chunking.StrideOfPositiveWindow | backend/app/services/recipes_model/convert_to_rag_jsonl.py:142 | a positive window size gives a stride of at least 1 and, with a non-negative overlap, at most the window size |
| Chunking.NonTermination | backend/app/services/recipes_model/convert_to_rag_jsonl.py:142-146 | the loop never ends exactly when the text has words, `max_tokens <= 0` and `overlap >= max_tokens`; a negative overlap below a non-positive `max_tokens` gives a positive stride |
| Chunking.ChunksOfBlank | backend/app/services/recipes_model/convert_to_rag_jsonl.py:137-139 | text without words comes back unchanged as the only chunk |
| Chunking.ChunkCount | backend/app/services/recipes_model/convert_to_rag_jsonl.py:136-146 | there is always at least one chunk; text with words has `ceil(len(words) / stride)` chunks |
| Chunking.ChunkIsWindow | backend/app/services/recipes_model/convert_to_rag_jsonl.py:143-145 | chunk `k` is the words from `k * stride` up to `k * stride + max_tokens` or the end; it has between 1 and `max_tokens` words |
| Chunking.ChunksCoverWords | backend/app/services/recipes_model/convert_to_rag_jsonl.py:142-145 | with a non-negative overlap every word lies in the window of some chunk |
| Chunking.ChunkTextExample | backend/app/services/recipes_model/convert_to_rag_jsonl.py:136-146 | `chunk_text("a b c d e", 2, 1)` is `["a b", "b c", "c d", "d e", "e"]` |
| Chunking.EmitChunks | backend/app/services/recipes_model/convert_to_rag_jsonl.py:172-188 | one record per chunk, in order, numbered from 0, each carrying the document's id, title and metadata projection |
| Chunking.ParseChunkIdOfChunkId | backend/app/services/recipes_model/convert_to_rag_jsonl.py:175 | a chunk id reads back as its document id and index, whatever the document id holds |
| Chunking.ChunkIdInjective | backend/app/services/recipes_model/convert_to_rag_jsonl.py:175-178 | a different document or index gives a different chunk id |
| Chunking.Convert | backend/app/services/recipes_model/convert_to_rag_jsonl.py:167-189 | row `i` becomes document `i` (row index `i`, fresh id `freshId(i)`), and the chunk records are those of the documents in order |
| Chunking.RecordsOfDocuments | backend/app/services/recipes_model/convert_to_rag_jsonl.py:172-188 | every chunk record belongs to one of the documents, and its chunk id is built from its doc id and index |
| Chunking.ChunkIdsDistinct | backend/app/services/recipes_model/convert_to_rag_jsonl.py:172-189 | with distinct document ids no two chunk records share a chunk id |
| Sidecars.BuildSidecars | backend/app/services/recipes_model/build_faiss_index.py:41-58 | the read loop gives the texts and metadata lists of `Build`, or the error of the first record that raises |
| Sidecars.ErrorPersists | backend/app/services/recipes_model/build_faiss_index.py:42-55 | once a record raises, the whole read raises that error |
| Sidecars.ReadAllAligned | backend/app/services/recipes_model/build_faiss_index.py:41-55 | a successful read keeps one text and one metadata object per record, record `k` at position `k` |
| Sidecars.BuildResult | backend/app/services/recipes_model/build_faiss_index.py:41-58 | the build succeeds iff the stream is non-empty and no record raises (empty gives the "No records" error); then both lists have one entry per record, and the manifest names the model and the dimension and counts the texts |
| Sidecars.SidecarMetaGet | backend/app/services/recipes_model/build_faiss_index.py:44-55 | each of the ten metadata keys reads back as the value written under it |
| Sidecars.ReadRecordFields | backend/app/services/recipes_model/build_faiss_index.py:43-55 | the metadata object repeats the record's four id fields and all six filter fields (minutes, diets, allergens, cuisine, meals, ingredients) of its `metadata`; with no `metadata` all six are None |
| Sidecars.ReadAllOk | backend/app/services/recipes_model/build_faiss_index.py:42-55 | when no record raises, the read succeeds |
| Sidecars.ReadChunkJson | backend/app/services/recipes_model/build_faiss_index.py:42-55 | the builder reads a converter chunk line back as its text, ids and metadata |
| Sidecars.BuildOfChunkRecords | backend/app/services/recipes_model/build_faiss_index.py:41-87 | building from the converter's chunk records succeeds for a non-empty stream, and text and metadata `k` are chunk record `k`'s |
| Sidecars.SidecarOfChunkRecord | backend/app/services/recipes_model/build_faiss_index.py:44-55 | the sidecar metadata of a chunk record carries that record's ids and filter fields |
| Sidecars.LoadTextOfTextLine | backend/app/services/recipes_model/search_faiss_index.py:138-145 | a texts line `{"text": t}` as written by the builder reads back as `t` |
| QueryFilters.SpaceEnd | backend/app/services/recipes_model/search_faiss_index.py:31 | `\s*` is greedy: it ends at the first non-space |
| QueryFilters.DigitEnd | backend/app/services/recipes_model/search_faiss_index.py:31 | `\d+` is greedy: it ends at the first non-digit |
| QueryFilters.MatchAt | backend/app/services/recipes_model/search_faiss_index.py:31-33 | a match captures a non-empty run of digits |
| QueryFilters.BoundedComplete | backend/app/services/recipes_model/search_faiss_index.py:31 | text shaped `under`/`less than`/`<`, spaces, digits, spaces, `min` matches at that position with those digits |
| QueryFilters.BoundedSound | backend/app/services/recipes_model/search_faiss_index.py:31 | every match of the bounded pattern has that shape |
| QueryFilters.BareComplete | backend/app/services/recipes_model/search_faiss_index.py:33 | a digit run at a word start, spaces and `min`/`minute`/`minutes` ending a word matches with those digits |
| QueryFilters.BareSound | backend/app/services/recipes_model/search_faiss_index.py:33 | every match of the bare pattern has that shape |
| QueryFilters.FirstFromLeftmost | backend/app/services/recipes_model/search_faiss_index.py:31-33 | scanning positions in order stops at the leftmost one that holds a match |
| QueryFilters.FirstFromNone | backend/app/services/recipes_model/search_faiss_index.py:31-33 | the scan finds nothing iff no position from the start on holds a match |
| QueryFilters.FirstFromFound | backend/app/services/recipes_model/search_faiss_index.py:31-33 | what the scan finds is held at some position from the start on |
| QueryFilters.SearchLeftmost | backend/app/services/recipes_model/search_faiss_index.py:31-33 | `re.search` finds the leftmost position that matches |
| QueryFilters.SearchNone | backend/app/services/recipes_model/search_faiss_index.py:31-33 | the search finds nothing iff no position matches |
| QueryFilters.SearchFound | backend/app/services/recipes_model/search_faiss_index.py:31-33 | a found match is the match at some position |
| QueryFilters.TimeLimit | backend/app/services/recipes_model/search_faiss_index.py:31-35 | the bound is never negative |
| QueryFilters.BoundedFirst | backend/app/services/recipes_model/search_faiss_index.py:31-35 | when the bounded pattern matches, its leftmost digits are the bound |
| QueryFilters.BareFallback | backend/app/services/recipes_model/search_faiss_index.py:32-35 | the bare pattern is used only when the bounded one finds nothing |
| QueryFilters.NoTimeLimit | backend/app/services/recipes_model/search_faiss_index.py:31-35 | there is no bound exactly when neither pattern matches anywhere |
| QueryFilters.HyphenateNoSpace | backend/app/services/recipes_model/search_faiss_index.py:40 | `replace(" ", "-")` leaves no space |
| QueryFilters.FirstKeyword | backend/app/services/recipes_model/search_faiss_index.py:38-47 | the keyword picked is the first in list order that occurs; none is picked iff none occurs |
| QueryFilters.AutoFiltersFromQuery | backend/app/services/recipes_model/search_faiss_index.py:26-49 | the method's two keyword loops with `break` give the filters of the lowercased query |
| QueryFilters.AutoDietCanonical | backend/app/services/recipes_model/search_faiss_index.py:38-41 | an extracted diet is one of the six hyphenated diet names |
| QueryFilters.AutoFiltersPresent | backend/app/services/recipes_model/search_faiss_index.py:37-47 | a diet (a meal) is extracted iff some diet (meal) keyword occurs in the lowercased query |
| QueryFilters.ExampleQuery | backend/app/services/recipes_model/search_faiss_index.py:26-49 | "vegan dinner under 30 minutes" gives 30 minutes, vegan, dinner |
| QueryFilters.GluedMinsHasNoBound | backend/app/services/recipes_model/search_faiss_index.py:30-35 | "20mins" sets no time bound |
| QueryFilters.UnderInsideWord | backend/app/services/recipes_model/search_faiss_index.py:31 | "thunder 5 min" sets a bound of 5 |
| QueryFilters.OrAuto | backend/app/services/recipes_model/search_faiss_index.py:117-122 | the explicit value when given, else the automatic one |
| QueryFilters.Override | backend/app/services/recipes_model/search_faiss_index.py:116-122 | each filter is set iff it was given explicitly or extracted from the query |
| QueryFilters.OverrideKeepsExplicit | backend/app/services/recipes_model/search_faiss_index.py:117-122 | explicit filters are never replaced, and missing ones take the query's cue |
| QueryFilters.OverrideIdempotent | backend/app/services/recipes_model/search_faiss_index.py:116-122 | applying the cues a second time changes nothing |
| Candidates.KeptHits | backend/app/services/recipes_model/search_faiss_index.py:158-160 | the kept hits are hits, in order, no more of them than there are hits |
| Candidates.Assemble | backend/app/services/recipes_model/search_faiss_index.py:157-164 | the loop builds the candidate list of `Assembled`, or stops at the first id past the end |
| Candidates.AssembledErrorPersists | backend/app/services/recipes_model/search_faiss_index.py:158-161 | once an id runs past the end, the assembly has failed |
| Candidates.AssembledContents | backend/app/services/recipes_model/search_faiss_index.py:157-164 | the assembly succeeds iff every id is below the number of vectors; then it has one candidate per non-negative hit, in order, with that vector's metadata, score and text |
| Candidates.HitAssembled | backend/app/services/recipes_model/search_faiss_index.py:157-164 | every hit that names a vector puts its candidate among the assembled ones |
| Candidates.CandidatesFromHits | backend/app/services/recipes_model/search_faiss_index.py:157-164 | every candidate comes from a hit with a non-negative id |
| Filtering.Terms | backend/app/services/recipes_model/search_faiss_index.py:59 | no more terms than pieces |
| Filtering.CheckRecord | backend/app/services/recipes_model/search_faiss_index.py:74-91 | the five early-`continue` checks for one record give `Keep` |
| Filtering.ApplyFilters | backend/app/services/recipes_model/search_faiss_index.py:52-92 | the loop returns `Selected` over all records with the normalised arguments |
| Filtering.SelectByOk | backend/app/services/recipes_model/search_faiss_index.py:72-92 | for any per-record verdict, the loop fails iff some verdict is an error |
| Filtering.SelectBySubsequence | backend/app/services/recipes_model/search_faiss_index.py:72-92 | for any per-record verdict, the output is a subsequence of the input |
| Filtering.SelectByMembers | backend/app/services/recipes_model/search_faiss_index.py:72-92 | for any per-record verdict, the output holds exactly the records kept |
| Filtering.SelectByFromInput | backend/app/services/recipes_model/search_faiss_index.py:72-92 | for any per-record verdict, every output record is an input record |
| Filtering.SelectByAll | backend/app/services/recipes_model/search_faiss_index.py:72-92 | when every verdict keeps, the output is the whole input |
| Filtering.SelectedErrorPersists | backend/app/services/recipes_model/search_faiss_index.py:73-91 | once a record's check raises, the filter raises |
| Filtering.SelectedOk | backend/app/services/recipes_model/search_faiss_index.py:73-91 | the filter raises iff some record's checks raise |
| Filtering.SelectedSubsequence | backend/app/services/recipes_model/search_faiss_index.py:72-92 | the output is a subsequence of the input, in input order |
| Filtering.SelectedHas | backend/app/services/recipes_model/search_faiss_index.py:72-92 | a record that passes every check survives the filtering |
| Filtering.SelectedMembers | backend/app/services/recipes_model/search_faiss_index.py:72-92 | the output holds exactly the records that every check keeps |
| Filtering.SelectedFromInput | backend/app/services/recipes_model/search_faiss_index.py:72-92 | every output record is an input record |
| Filtering.UnsetKeepsAll | backend/app/services/recipes_model/search_faiss_index.py:72-92 | with no filter active, every record is kept and nothing raises |
| Filtering.BlankArgsUnset | backend/app/services/recipes_model/search_faiss_index.py:53-59 | arguments that are all None or blank (for the ingredient exclusion, any value with no non-blank comma piece) activate no filter |
| Filtering.TimeRule | backend/app/services/recipes_model/search_faiss_index.py:80-81 | a numeric `minutes` above the bound drops the record; otherwise the time check has no effect |
| Filtering.WantedDietNeedsEntries | backend/app/services/recipes_model/search_faiss_index.py:82-83 | a wanted diet drops a record with no diets |
| Filtering.WantedMealNeedsEntries | backend/app/services/recipes_model/search_faiss_index.py:84-85 | a wanted meal drops a record with no meals |
| Filtering.HasSubstrOfList | backend/app/services/recipes_model/search_faiss_index.py:61-66 | on a list of strings and a non-empty needle, `has_substr` holds iff the needle occurs in some lowercased entry |
| Filtering.NoneContainsOfList | backend/app/services/recipes_model/search_faiss_index.py:68-70 | on a list of strings, `none_contains` holds iff no banned term occurs in the space-joined lowercased entries |
| Values.StrReprOfPlain | backend/app/services/recipes_model/search_faiss_index.py:66 | `repr` of a string with nothing to escape is the string between the quote Python picks |
| Values.StrReprOfApostrophe | backend/app/services/recipes_model/search_faiss_index.py:66 | a string holding only `'` is printed in double quotes, unescaped |
| Values.StrReprEscapes | backend/app/services/recipes_model/search_faiss_index.py:66 | `repr` escapes a backslash, a newline, and the `'` of a string holding both quotes |
| Values.JsonStrOfObject | backend/app/services/recipes_model/search_faiss_index.py:66 | `str()` of a decoded object prints each distinct key once, in first-occurrence order, with the value `get` reads for it |
| Values.JsonStrOfDuplicateKey | backend/app/services/recipes_model/search_faiss_index.py:66 | a key given twice prints once, with its last value |
| Filtering.KeepOfStringLists | backend/app/services/recipes_model/search_faiss_index.py:74-91 | for string-list fields, a record is kept iff it passes the time bound, has the wanted diet and meal, lacks the excluded allergen and contains no banned term |
| Filtering.WantedNormal | backend/app/services/recipes_model/search_faiss_index.py:53-55 | the normalised wanted and excluded strings are lowercase and stripped |
| Filtering.TermsNormal | backend/app/services/recipes_model/search_faiss_index.py:59 | every banned term is non-empty, stripped and lowercase |
| Filtering.TermsComplete | backend/app/services/recipes_model/search_faiss_index.py:59 | every non-blank piece contributes its lowercased stripped form |
| Filtering.TermsSound | backend/app/services/recipes_model/search_faiss_index.py:59 | every term comes from a non-blank piece |
| Filtering.BannedTermsOf | backend/app/services/recipes_model/search_faiss_index.py:57-59 | the banned terms are the normalised comma-separated pieces, none holding a comma |
| Ranking.Find | backend/app/services/recipes_model/search_faiss_index.py:180 | a found slot holds a value with that `doc_id` |
| Ranking.FindNone | backend/app/services/recipes_model/search_faiss_index.py:180 | a missed `doc_id` is the `doc_id` of no value in the dict |
| Ranking.Dedupe | backend/app/services/recipes_model/search_faiss_index.py:177-181 | the loop gives `Deduped`: the dict's values in insertion order, or the TypeError of an unhashable `doc_id` |
| Ranking.BestPick | backend/app/services/recipes_model/search_faiss_index.py:177-181 | the dict's values are the candidates at the positions the loop keeps |
| Ranking.BestDistinct | backend/app/services/recipes_model/search_faiss_index.py:177-181 | after each step no two values share a `doc_id` |
| Ranking.BestCovers | backend/app/services/recipes_model/search_faiss_index.py:177-181 | after each step every `doc_id` seen is a key |
| Ranking.BestMax | backend/app/services/recipes_model/search_faiss_index.py:177-181 | after each step every value has the highest score seen for its `doc_id` |
| Ranking.BestFirst | backend/app/services/recipes_model/search_faiss_index.py:180 | after each step every earlier candidate with a value's `doc_id` scored strictly less |
| Ranking.DedupedProperties | backend/app/services/recipes_model/search_faiss_index.py:176-181 | one candidate per `doc_id`, each from the input, every input `doc_id` represented, each with the best score of its `doc_id` |
| Ranking.DedupedFirstOnTies | backend/app/services/recipes_model/search_faiss_index.py:180 | on a tie, the first candidate of the `doc_id` stays |
| Ranking.InsertByScore | backend/app/services/recipes_model/search_faiss_index.py:183 | the insertion adds exactly one candidate |
| Ranking.SortByScore | backend/app/services/recipes_model/search_faiss_index.py:183 | the sort is a permutation |
| Ranking.InsertDescending | backend/app/services/recipes_model/search_faiss_index.py:183 | insertion keeps a descending list descending |
| Ranking.InsertWithScore | backend/app/services/recipes_model/search_faiss_index.py:183 | insertion passes only higher scores, so candidates of equal score keep their order |
| Ranking.SortByScoreCorrect | backend/app/services/recipes_model/search_faiss_index.py:183 | the sort is descending by score, a permutation, and stable: the candidates of each score appear in input order |
| Ranking.TopPrefix | backend/app/services/recipes_model/search_faiss_index.py:183 | `[:top_k]` is a prefix of length `min(top_k, len)` for `top_k >= 0`, descending when its input is |
| Ranking.RankProperties | backend/app/services/recipes_model/search_faiss_index.py:183 | the results are descending, at most `top_k` long (exactly `min(top_k, len)`), drawn from the deduplicated candidates, and no candidate left out scores higher than one kept |
| Ranking.InsertUnique | backend/app/services/recipes_model/search_faiss_index.py:183 | inserting a candidate with a new `doc_id` keeps `doc_id`s unique |
| Ranking.SortUnique | backend/app/services/recipes_model/search_faiss_index.py:183 | sorting keeps `doc_id`s unique |
| Ranking.BestKept | backend/app/services/recipes_model/search_faiss_index.py:176-183 | every candidate reaching the dedupe has a result for its `doc_id` scoring at least as high, or scores no higher than every result |
| Ranking.BestOf | backend/app/services/recipes_model/search_faiss_index.py:176-183 | a candidate whose recipe's best entry is either ranked or outscored by every result is matched or beaten |
| Ranking.RankUnique | backend/app/services/recipes_model/search_faiss_index.py:183 | the ranked results never list a recipe twice |
| Retrieval.LoadedTexts | backend/app/services/recipes_model/search_faiss_index.py:137-145 | one text per texts line |
| Retrieval.LoadTexts | backend/app/services/recipes_model/search_faiss_index.py:137-145 | the read loop keeps one text per line, read as `LoadText` reads it |
| Retrieval.TextsRoundTrip | backend/app/services/recipes_model/search_faiss_index.py:137-145 | the search reads back exactly the texts the builder wrote |
| Retrieval.RunSearch | backend/app/services/recipes_model/search_faiss_index.py:116-183 | `main` with the cues, the length check, the assembly, the filters, the dedupe and the ranking gives `Retrieve` |
| Retrieval.RetrieveIdOutOfRange | backend/app/services/recipes_model/search_faiss_index.py:157-164 | a search fails with an IndexError iff some hit names a vector past the end of the sidecars |
| Retrieval.RetrieveResults | backend/app/services/recipes_model/search_faiss_index.py:116-183 | the results are in descending score order, at most `top_k`, with no recipe twice; each passes every filter in force and is the candidate of some hit |
| Retrieval.RetrieveBest | backend/app/services/recipes_model/search_faiss_index.py:116-183 | for every hit whose candidate passes the filters in force, the results hold its recipe with at least its score, or every result scores at least as high |
| Retrieval.RankedSelection | backend/app/services/recipes_model/search_faiss_index.py:166-183 | after filtering, dedupe and ranking, the results are descending, at most `top_k`, unique by `doc_id`, pass every filter and are drawn from the assembled candidates |
| Retrieval.DrawnFromHits | backend/app/services/recipes_model/search_faiss_index.py:156-163 | every candidate drawn from the assembled list is the candidate of a hit naming a vector |

## Left out

- I/O is not modelled: reading the CSV with pandas, reading and writing the JSONL files and the manifest, `os.makedirs`, and the checks that files exist. The rows, the chunk and sidecar records, and the loaded data are parameters.
- `json.dumps` and `json.loads`: JSON values are modelled as parsed values, and the text formatting is not modelled.
- The sentence-transformer embedding and the FAISS index are not modelled. The build takes the vector dimension as a parameter. The search takes the hits (`ids`, `scores`) as a parameter, including their number (`top_k * 5`).
- `argparse`, `print`, and the `--show-steps` join back to `recipes.jsonl` (lines 184-247 of the search script) are not modelled: they are output only.
- `uuid.uuid4()`: the fresh id is a parameter of `NormalizeRow`. `Convert` takes a function `freshId` that gives the id row `i` would draw.
- `to_float` and the nutrition block: floating-point parsing is not modelled. The nutrition values are absent from `Metadata`.
- Floats as CSV cells or JSON numbers are not modelled. `minutes` is an integer or absent. A float `minutes` in `apply_filters` is not modelled. Similarity scores are `real`, so there are no NaN scores.
- Lower-casing is ASCII only. `\s` uses Python's whitespace set. `\d` and `\w` are ASCII. Unicode digits and letters are not modelled.
- ListLiteral.LiteralEval: only quoted strings without escapes, integers, `None`, `True` and `False`, in flat lists. Nested lists, floats, escapes and other literals are read as a failed parse.
- Chunking.ChunkText: requires that the loop ends. The source loops forever exactly when the text has words, `max_tokens <= 0` and `overlap >= max_tokens` (the stride is then not positive; `Chunking.NonTermination`). A negative overlap below a non-positive `max_tokens` gives a positive stride, and that case is modelled. The model states that condition as `Terminates` instead of modelling non-termination.
- Chunking.Convert: requires that every document's text chunks with these settings, for the same reason.
- Candidates.Assemble: requires the texts and metadata lists to have the same length. The search checks this before the loop, and `Retrieval.RunSearch` models that check as the `LengthMismatch` error.
- Retrieval.Retrieve: a metadata line is taken to be a JSON object, as every line the builder writes is. `dict()` of a line that is not an object is not modelled.
- Values.StrRepr: non-ASCII characters that Python's `repr` escapes as not printable (such as U+0085 or U+00A0) are printed as they are, because Unicode printability is not modelled. Backslashes, quotes and ASCII control characters are escaped as Python does.
- Filtering.Numeric: `isinstance(mins, (int, float))` is modelled for integers and booleans (a `bool` is an `int` in Python). Float minutes are not modelled.
