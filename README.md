# Retrieval core of the RAG backend, in Dafny

This project models the retrieval core of a small retrieval-augmented question-answering backend:

- **Ingestion.** Text documents are cut into overlapping word windows ("chunks"). Each chunk is embedded by a remote service. Chunks and embeddings are kept in an in-memory vector store.
- **Search.** A user question is embedded the same way. Every stored chunk is scored against it by cosine similarity. The best chunks, ranked by a stable sort, are formatted into the context handed to the language model.

Modules, one per source file plus two shared ones:

- `Common` (common.dfy): the `Result`/`Outcome` values that stand for "returns or throws", plus the integer ceiling used in the counting lemmas.
- `Text` (text.dfy): the JavaScript string built-ins the core relies on.
  - `split(/\s+/)` over the ECMA-262 `\s` class, with `[""]` for the empty text and empty first or last pieces around leading or trailing whitespace.
  - `join`.
  - The decimal rendering of a number in a template literal.
- `Embed` (embed.js → embed.dfy):
  - the pass-through `generateEmbedding`;
  - the group-of-five embedding driver `generateBatchEmbeddings`, with its outgoing calls and pauses recorded as a trace of events.
- `Ingest` (ingest.js → ingest.dfy):
  - the chunker `chunkText`;
  - the `VectorStore` class with its two parallel sequences;
  - `ingestDocuments`, which empties the store, keeps the `.txt` files of a directory listing, chunks and tags each file, embeds every chunk and installs the result.
- `Search` (search.js → search.dfy):
  - `cosineSimilarity`;
  - `searchSimilarChunks`: score, stable sort by descending score (an in-place insertion sort on an array), top-K slice, projection;
  - `buildContext`.

Outside effects are parameters:

- The embedding service: a function from text to a vector or an error.
- `Math.sqrt`: an arbitrary function `sqrt: real -> real`.
- `fs.readdir`: the listing, or its error.
- `fs.readFile`: a function from file name to content or error.

The one-second timer between embedding groups is an event `Pause` in the returned trace. `getVectorStore` only hands out the module's single store object. The model therefore passes that `VectorStore` object to the search explicitly.

Two behaviours of the code that a reader might not expect, both modelled as the code has them:

- `ingestDocuments` clears the store before anything can fail. A failed ingestion therefore leaves the store empty; it does not keep its previous contents.
- An empty file yields one empty chunk `""`, because `"".split(/\s+/)` is `[""]`.

## Model

| member | source | states |
|---|---|---|
| Text.Split | backend/rag/ingest.js:18 | `split(/\s+/)` always yields at least one piece; no piece contains whitespace; only the first and last piece can be empty; the first piece is empty exactly when the text is empty or starts with whitespace |
| Text.SplitLastEmpty | backend/rag/ingest.js:18 | the last piece is empty exactly when the text is empty or ends with whitespace |
| Text.SplitSqueeze | backend/rag/ingest.js:18 | joining the pieces with single spaces gives the text with every maximal whitespace run replaced by one space (`Squeeze`, defined character by character), so the pieces are exactly the text between the runs |
| Text.SplitJoin | backend/rag/ingest.js:18-22 | joining split-like pieces with single spaces and splitting again gives the pieces back |
| Text.JoinWith | backend/rag/ingest.js:22 | `Array.prototype.join`: no pieces give "", a single piece is returned as it is, and otherwise the result opens with the first piece (`JoinWithSnoc` gives each further separator and piece) |
| Text.JoinWithSnoc | backend/rag/search.js:79-81 | joining one more piece appends the separator and that piece |
| Text.NatToString | backend/rag/search.js:80 | the decimal rendering is a nonempty digit string without a leading zero (except for 0) |
| Text.ParseNatToString | backend/rag/search.js:80 | the decimal rendering of n reads back as n |
| Embed.GenerateEmbedding | backend/rag/embed.js:4-12 | the service's vector is returned unchanged, and its error is rethrown unchanged |
| Embed.FirstFailure | backend/rag/embed.js:21-24 | the position of the first text whose call fails: every earlier call succeeds, the call at that position fails |
| Embed.EmbedAllSpec | backend/rag/embed.js:21-25 | embedding all texts succeeds iff no call fails; then the output has the input's length and position i holds the vector of text i; otherwise the error is the first failing text's error |
| Embed.EmbedAllPrefixErr | backend/rag/embed.js:24-37 | once a prefix fails, the whole call fails with the same error and no partial array |
| Embed.EmbedAllAppend | backend/rag/embed.js:24-25 | embedding a concatenation is embedding the first part then the second, the first failure winning |
| Embed.Dispatched | backend/rag/embed.js:21-24 | the texts that reach the service: all of them, or those up to the end of the group holding the first failure |
| Embed.ScheduleCallsInOrder | backend/rag/embed.js:21-25 | the schedule calls the service for every text exactly once, in input order |
| Embed.SchedulePauses | backend/rag/embed.js:28-30 | the schedule of n texts has max(ceil(n / 5) - 1, 0) pauses, one between each two groups |
| Embed.ScheduleEndsWithLast | backend/rag/embed.js:28-30 | no pause follows the last group: the schedule ends with the last text's call |
| Embed.FailingGroup | backend/rag/embed.js:21-24 | when group [i, hi) is the first to fail, the whole call's result is that failure and exactly the texts before hi were dispatched |
| Embed.EmbedGroup | backend/rag/embed.js:22-24 | one group: every call of the group is made, in order; the result is all vectors in order, or the first failure |
| Embed.GenerateBatchEmbeddings | backend/rag/embed.js:15-38 | the loop stepping by 5 returns the in-order embedding of every text, or the first failure; its trace is the group-of-five schedule of the dispatched texts, pausing only when texts remain |
| Ingest.Window | backend/rag/ingest.js:22 | `words.slice(start, start + size)`: the min(size, n - start) words from position start on, or none when start is past the end |
| Ingest.ChunkText | backend/rag/ingest.js:17-29 | the loop with its early break returns exactly the windows `ChunkWindows(Split(text))`: window k starts at word k * (chunkSize - overlap) |
| Ingest.ChunkTextSingle | backend/rag/ingest.js:21-26 | at most chunkSize words give exactly one chunk, all words joined by single spaces, which is the whole text with its whitespace runs squeezed to single spaces |
| Ingest.ChunkWindow | backend/rag/ingest.js:21-22 | chunk k is `words[k*step .. min(k*step + chunkSize, n)]` joined with spaces, and its start lies inside the text |
| Ingest.ChunkContents | backend/rag/ingest.js:18-22 | every chunk holds between 1 and chunkSize words, and splitting it again gives back exactly its window |
| Ingest.WindowStarts | backend/rag/ingest.js:21-25 | every emitted window starts inside the text, and every window but the last ends before the last word |
| Ingest.LastWindowReachesEnd | backend/rag/ingest.js:25 | with overlap >= 0 the last window reaches the last word, so the loop always leaves by its break |
| Ingest.WindowCountFormula | backend/rag/ingest.js:21-25 | with overlap >= 0 (step <= chunkSize), n >= 1 words give ceil(max(n - chunkSize, 0) / step) + 1 windows |
| Ingest.WindowsCover | backend/rag/ingest.js:21-25 | with overlap >= 0 every word position lies in some emitted window |
| Ingest.ChunkCoverage | backend/rag/ingest.js:18-26 | for any text, with overlap >= 0: the chunk count formula, the last window reaching the end, and every word in some chunk |
| Ingest.ChunkLoopDiverges | backend/rag/ingest.js:21-25 | with overlap >= chunkSize and more than chunkSize words, every loop position satisfies the loop condition and none reaches the break: `chunkText` never returns |
| Ingest.TextFiles | backend/rag/ingest.js:43 | a name is kept iff it is in the listing and ends in ".txt" |
| Ingest.TextFilesAppend | backend/rag/ingest.js:43 | the filter keeps listing order |
| Ingest.VectorStore.constructor | backend/rag/ingest.js:7-10 | the store starts with both sequences empty |
| Ingest.AppendTagged | backend/rag/ingest.js:65-71 | the `forEach` appends each chunk of a file tagged with the file name and positions 0, 1, ... |
| Ingest.CollectFiles | backend/rag/ingest.js:55-72 | the file loop reads files in listing order and returns all tagged chunks, or the first read error |
| Ingest.CollectStep | backend/rag/ingest.js:55-71 | one more file: a failed read fails the whole collection, a successful read appends that file's tagged chunks |
| Ingest.CollectChunksPrefixErr | backend/rag/ingest.js:55-57 | a read failure on an earlier file fails the whole collection with that error |
| Ingest.CollectChunksOk | backend/rag/ingest.js:55-57 | collecting succeeds iff every listed file can be read |
| Ingest.CollectChunksProvenance | backend/rag/ingest.js:55-71 | every collected chunk names a listed file and is that file's chunkIndex-th chunk |
| Ingest.CollectChunksContiguous | backend/rag/ingest.js:65-71 | each file's chunks are contiguous and numbered 0, 1, ... |
| Ingest.CollectChunksComplete | backend/rag/ingest.js:55-71 | every chunk of every listed file is collected, with its file name and position |
| Ingest.IngestDocuments | backend/rag/ingest.js:32-91 | the store is emptied first, then set to the ingested chunks and embeddings on success; on any listing, read or embedding failure the error is rethrown and the store is left empty; in every case the two sequences have equal length |
| Ingest.IngestedParallel | backend/rag/ingest.js:77-82 | after a successful ingestion the sequences are parallel: embedding i is the service's vector for chunk i's text |
| Ingest.IngestedFromTextFiles | backend/rag/ingest.js:43-82 | the stored chunks are those collected from the `.txt` files, and none when there are no `.txt` files |
| Ingest.IngestedChunks | backend/rag/ingest.js:43-71 | every stored chunk comes from a `.txt` file of the listing as that file's chunkIndex-th chunk, and each file's chunks are contiguous and numbered from 0 |
| Ingest.IngestedComplete | backend/rag/ingest.js:43-71 | no chunk of a `.txt` file of the listing is missing from the store |
| Ingest.IngestedSucceeds | backend/rag/ingest.js:32-91 | ingestion succeeds iff the directory can be listed, every `.txt` file can be read and every chunk text can be embedded |
| Ingest.IngestedNoTextFiles | backend/rag/ingest.js:43-48 | a listing without `.txt` files leaves both sequences empty, without error |
| Search.CosineSimilarity | backend/rag/search.js:5-28 | the accumulating loop computes the dot product and both squared norms; the result is the mismatch error for different lengths, 0 for a zero norm, and otherwise the dot product over the product of the norms |
| Search.DotSymmetric | backend/rag/search.js:14-18 | the dot product does not depend on argument order |
| Search.SquaredNormNonNegative | backend/rag/search.js:16-21 | the accumulated squared norm is never negative, so the square root is taken of a non-negative number |
| Search.DotZero | backend/rag/search.js:14-18 | a zero vector has dot product 0 with every vector of its length |
| Search.CosineSymmetric | backend/rag/search.js:5-28 | the score does not depend on argument order |
| Search.CosineZeroVector | backend/rag/search.js:20-25 | comparing a zero vector scores 0, given that the square root of 0 is 0 |
| Search.CosineFails | backend/rag/search.js:6-8 | the score is an error iff the lengths differ, and then it is the "Vectors must have the same length" error |
| Search.SwapStep | backend/rag/search.js:55 | one adjacent swap of the insertion sort keeps the rest ranked and the moving element ahead of what it has passed |
| Search.Settle | backend/rag/search.js:55 | once the moving element stops, the sorted prefix is ranked |
| Search.InsertAt | backend/rag/search.js:55 | one insertion step ranks the prefix up to i, permuting only that prefix |
| Search.SortBySimilarity | backend/rag/search.js:55 | the in-place sort permutes the array into descending score, with equal scores kept in store order (stability) |
| Search.ScoreAll | backend/rag/search.js:45-52 | the `embeddings.map(...)` scoring: an error is always the mismatch error; a success has one entry per stored vector, entry k carrying store index k |
| Search.ScoreAllSpec | backend/rag/search.js:45-52 | scoring succeeds iff every stored vector has the query's length; it then holds, at position k, chunk k with its cosine score and index k; otherwise it is the mismatch error |
| Search.TopCount | backend/rag/search.js:56 | `slice(0, topK)` keeps min(topK, n) elements for topK >= 0, and never more than n |
| Search.Results | backend/rag/search.js:60-65 | each result is the text, source, chunkIndex and score of the ranked entry at the same position |
| Search.SearchSimilarChunks | backend/rag/search.js:31-71 | an empty store gives [] without calling the service; otherwise the query is embedded once and its error is rethrown; a mismatch fails the search; else the result is the first TopCount(topK, n) entries of a ranked permutation of the scored store |
| Search.RankedUnique | backend/rag/search.js:55 | two ranked orders of the same scored entries are equal, so the result does not depend on the sorting algorithm |
| Search.RankedFromStore | backend/rag/search.js:45-55 | every ranked entry is the scored store entry at its own index, and no index occurs twice |
| Search.TopDominates | backend/rag/search.js:55-56 | an entry left out of the top m ranks after each returned one: it scores no higher, and on a tie it sits later in the store |
| Search.SearchResultsMeaning | backend/rag/search.js:45-65 | result p has the text, source and chunkIndex of a stored chunk i and the cosine score of embedding i; returned store indices are distinct; every chunk not returned ranks after every returned one |
| Search.Blocks | backend/rag/search.js:79-80 | one block per result, numbered from 1 in input order |
| Search.BuildContext | backend/rag/search.js:74-77 | no results give exactly "No relevant context found in the documents." |
| Search.BuildContextSingle | backend/rag/search.js:79-81 | one result gives just its block `[Context 1 from source]:\ntext` |
| Search.BuildContextSnoc | backend/rag/search.js:79-81 | one more result appends a blank line and its block, numbered one past the last |
| Search.BuildContextHeader | backend/rag/search.js:79-81 | the context opens with the first result's header `[Context 1 from source]:\n` |
| Search.BlockNumbering | backend/rag/search.js:80 | block k is `"[Context " + numeral + " from " + source + "]:\n" + text`, where the numeral is all digits and reads back as k + 1 |

## Left out

- I/O: console logging, the data directory path, and the HTTP client behind the embedding service (including its endpoint fallback). The service, the listing, file reads and `Math.sqrt` are parameters.
- Module-load ingestion (backend/rag/ingest.js:99): its race with incoming searches, and any other concurrency. Each method runs to completion.
- `Promise.all`:
  - its concurrent dispatch is modelled as a group whose calls are all made;
  - when several calls fail, the model reports the first in input order, whereas JavaScript reports the first to settle in time.
- The one-second timer: it is a `Pause` event in the trace, not elapsed time.
- Floating point: scores are exact reals. Nothing is claimed about the range [-1, 1], self-similarity or NaN.
- Ingest.IngestDocuments: the trace of embedding calls is discarded, as in the source.
- Ingest.ChunkText: requires 0 < chunkSize and overlap < chunkSize; the source calls it only with 500 and 50 (ingest.js:62). With overlap >= chunkSize a text of at most chunkSize words still gives one chunk, and a longer text never returns (`ChunkLoopDiverges`). With chunkSize 0 (and overlap < 0) every window is empty; with a negative chunkSize `slice` counts the window's end from the back of the word list, so windows need not be empty. Neither case is modelled.
- Search.SearchSimilarChunks:
  - requires the store's class invariant (equal lengths of the two sequences), which every store operation keeps;
  - topK is an integer: the default of 3 comes from callers, and non-integer or undefined topK are not modelled.
- Search.SortBySimilarity: requires that entries arrive in increasing store position, which the scoring step guarantees; stability is stated through those positions.
- Search.CosineZeroVector: proves that comparing a zero vector scores 0 (given that the square root of 0 is 0). The converse, that a zero squared norm arises only from the zero vector, is not stated.
