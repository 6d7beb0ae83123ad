# RAG document retrieval, modelled in Dafny

This project models `RAGSystem` from `rag-system.js`. It is the retrieval
half of a bid simulator's "ask the character" feature. At start-up the
system fetches seven configured files (six `.txt` files and one PDF). It
splits each document into paragraph-based chunks and builds an inverted
index from keywords to the chunks they occur in. For a question, it scores
chunks by the query keywords they contain and returns the best ones. Those
are then inserted into the system prompt sent to the language model.

Modules, one per part of the object:

- `Text` holds the JavaScript string primitives the code relies on:
  `trim`, `split` on a string and on `/\s+/`, `join`, ASCII `toLowerCase`,
  `${n}` for naturals and `Number` on digit strings.
- `Chunker` models `chunkDocument`. `Keywords` models `extractKeywords`.
- `Indexing` models the index `indexDocuments` builds. `Scoring` models the
  `chunkScores` map of `searchDocuments`, and `Ranking` models its sort,
  slice and key resolution.
- `Loading` covers the extension dispatch of `loadDocument` and the page
  joining of `loadPDF`.
- `DocumentSummary` models `getLoadedDocumentsSummary`. `Context` models
  `getContext`. `Prompt` models the system prompt of `askAIWithRAG`.
- `Rag` holds the class `RAGSystem`. Its fields are the documents, the
  index, the `isIndexed` flag and whether pdf.js is present. Its methods
  update those fields in place.

Each loop of the source is a method. The method's `ensures` ties it to a
specification function, and the properties are proved about that function.

Where the code's behaviour differs from what it evidently intends, the
model follows the code:

- **Empty chunks.** `chunkDocument` can push an empty chunk. The
  `currentChunk.length > 0` test is made on untrimmed text, so a blank
  first paragraph followed by a long one is flushed as `""`. This is proved
  as `Chunker.BlankParagraphGivesEmptyChunk`.
- **Chunk size.** The size test ignores the `"\n\n"` the append adds. So a
  chunk of several paragraphs can exceed `chunkSize` by two characters.
  `Chunker.ChunkSizes` states the bound the code actually keeps.
- **Missing governance.** A character without `governance` gets the word
  `undefined` in the prompt (`Prompt.MissingGovernance`).

## Model

| member | source | states |
|---|---|---|
| Text.Trim | rag-system.js:146 | the trimmed text is no longer than the input, starts and ends with non-whitespace, and is empty exactly when the input is all whitespace |
| Text.TrimIsSlice | rag-system.js:146 | the trimmed text is a slice of the input with only whitespace before and after it |
| Text.SplitOn | rag-system.js:141 | `split` on a separator gives at least one piece, and no piece contains the separator |
| Text.SplitWs | rag-system.js:197 | `split(/\s+/)` gives at least one piece, and no piece contains whitespace |
| Text.Lower | rag-system.js:195 | lower-casing keeps the length, leaves no upper-case ASCII letter, and changes no other character |
| Text.NatToString | rag-system.js:214 | a natural is written as a non-empty run of decimal digits |
| Text.JoinSplitOn | rag-system.js:141 | joining the paragraphs back with the separator gives the original text |
| Text.SplitOnJoin | rag-system.js:280 | pieces free of a one-character separator, joined with it, split back into the same pieces |
| Text.DigitsValueNatToString | rag-system.js:226 | `Number` of a written natural is that natural |
| Chunker.ChunkDocument | rag-system.js:139-158 | the loop returns the chunks of the specification function `Chunks` |
| Chunker.EmptyTextHasNoChunks | rag-system.js:139-157 | the empty document has no chunks |
| Chunker.Chunks | rag-system.js:139-158 | there are never more chunks than paragraphs, and every chunk is trimmed (no leading or trailing whitespace) |
| Chunker.Scan | rag-system.js:144-151 | the loop pushes at most one chunk per paragraph and none for the first, and every chunk it pushes is trimmed |
| Chunker.ChunksAreGroups | rag-system.js:144-155 | the paragraphs are cut into consecutive non-empty runs that rebuild the paragraph list; each chunk is its run joined with blank lines and trimmed; the last run is dropped exactly when it trims to nothing |
| Chunker.GroupsRebuildText | rag-system.js:141-151 | the runs, each joined with blank lines and then joined together, give back the document text |
| Chunker.ChunkOfGroup | rag-system.js:144-155 | the k-th chunk is the k-th run joined and trimmed, and that run passed the size test |
| Chunker.ChunkSizes | rag-system.js:145-149 | a chunk of one paragraph is that paragraph trimmed; any other chunk is at most `chunkSize + 2` characters long and made of paragraphs of at most `chunkSize` characters |
| Chunker.LongParagraphStandsAlone | rag-system.js:145-147 | a paragraph longer than `chunkSize` is never merged after non-empty text |
| Chunker.BlankParagraphGivesEmptyChunk | rag-system.js:144-155 | a blank paragraph followed by a word that does not fit yields the chunks `""` and the word |
| Keywords.Normalize | rag-system.js:194-196 | lower-casing and blanking keep the length, and leave only keyword characters and whitespace |
| Keywords.FilterKeeps | rag-system.js:198 | every kept token is longer than three characters, is not a stop word, and comes from the input tokens |
| Keywords.ExtractKeywords | rag-system.js:185-199 | every keyword is made of `[a-z0-9_]`, is longer than three characters and is not a stop word |
| Keywords.KeywordsOfJoin | rag-system.js:185-199 | the keywords of two texts joined by a space are the keywords of the first, then those of the second |
| Keywords.KeywordAlone | rag-system.js:185-199 | a keyword on its own extracts to itself |
| Keywords.KeywordsOfKeywords | rag-system.js:185-199 | keywords joined with spaces extract back to the same list, in order |
| Keywords.ExtractKeywordsIdempotent | rag-system.js:185-199 | extracting again from the joined keywords changes nothing |
| Indexing.Insert | rag-system.js:169-176 | a push adds the word to the keys and the posting to the end of its list, and leaves other lists unchanged |
| Indexing.InsertAllPostings | rag-system.js:164-177 | after the pushes, the keys are exactly the pushed words, and each list is that word's postings in push order |
| Indexing.BuildIndex | rag-system.js:161-182 | the index `indexDocuments` leaves from a cleared map: every key is a keyword and has a non-empty list |
| Indexing.IndexPostingsWellFormed | rag-system.js:164-177 | every posting under a word names a chunk of the documents whose keywords hold that word, and carries that chunk's text |
| Indexing.PostingsCountOccurrences | rag-system.js:164-177 | under a word, a chunk has as many postings as the word's occurrences among the chunk's keywords, and none for a chunk that does not exist |
| Indexing.IndexOrdered | rag-system.js:164-177 | every list is ordered by document, then by chunk |
| Scoring.ParseChunkKey | rag-system.js:214-226 | the key `"d-c"` of a chunk (`ChunkKey`), split at the dash and read as numbers (`ParseKey`), gives back `d` and `c` |
| Scoring.ChunkKeyInjective | rag-system.js:214 | different chunks get different keys |
| Scoring.TallyCounts | rag-system.js:214-216 | after the bumps, the keys are in first-occurrence order, the key set is the bumped keys, and each score is the number of bumps |
| Scoring.ScoresCountPostings | rag-system.js:207-219 | a chunk's score is the number of its postings under the query keywords (repeats counted); it has a key exactly when that number is positive |
| Scoring.ScoredKeysFromHits | rag-system.js:210-219 | every scored key belongs to a posting that was found, and scores at least one |
| Scoring.HitsFromIndex | rag-system.js:210-213 | every posting found is in the list of some query keyword |
| Scoring.ScoreCountsMatches | rag-system.js:207-219 | over the built index, a chunk's score is the sum over query keywords of the keyword's occurrences among the chunk's keywords |
| Rag.ScoreMatch | rag-system.js:214-216 | one match adds one to its chunk's score, under its key |
| Rag.ScorePostings | rag-system.js:213-217 | the inner loop leaves the tally of every posting visited so far |
| Rag.ScoreKeywords | rag-system.js:208-219 | the scoring loop leaves the map of the specification function `Scores` |
| Ranking.Entries | rag-system.js:222 | `entries()` gives one pair per key, in insertion order, with its score |
| Ranking.SortDesc | rag-system.js:223 | the sorted entries are in descending score order and are a permutation of the input |
| Ranking.InsertDescPermutes | rag-system.js:223 | one insertion adds exactly the inserted entry |
| Ranking.InsertDescSorted | rag-system.js:223 | one insertion keeps the list sorted; the new head is the larger of the old head and the entry |
| Ranking.SortedNonIncreasing | rag-system.js:223 | a sorted list is non-increasing at every pair of positions |
| Ranking.SortDescStable | rag-system.js:223 | entries of equal score keep their relative order |
| Ranking.TiesKeepFirstScoredOrder | rag-system.js:208-223 | chunks with equal scores come out in the order they were first scored |
| Ranking.SliceEnd | rag-system.js:224 | `slice(0, topK)` keeps `min(topK, n)` entries for non-negative `topK`, and counts from the end for negative `topK` |
| Ranking.Rank | rag-system.js:222-232 | there are as many results as the slice keeps |
| Ranking.RankedTop | rag-system.js:222-224 | with distinct keys in the map, the kept entries are map entries, no key is kept twice, and a key left out scores no more than the last kept entry and is left out only when `topK` entries are kept |
| Ranking.SearchTopChunks | rag-system.js:202-235 | over the built index, each result is the result for one chunk, no chunk is returned twice, and a chunk matching the query is left out only when `topK` results are returned, all scoring at least as much as it |
| Ranking.RankShape | rag-system.js:222-232 | ranked results are in non-increasing score order, each scoring at least one |
| Ranking.Search | rag-system.js:202-235 | `[]` before indexing or without documents; otherwise `min(topK, chunks scored)` results, non-increasing, each scoring at least one |
| Ranking.SearchContent | rag-system.js:225-231 | each result is a chunk of a loaded document, with that document's file name and the chunk's score for the query |
| Ranking.ScoredKeyIsChunk | rag-system.js:225-229 | a scored key resolves to an existing chunk, whose score is its keyword matches |
| Ranking.BuiltIndexResolves | rag-system.js:161-182 | every posting of the built index names an existing chunk |
| Context.ContextLayout | rag-system.js:245-251 | the context opens with the header, ends with the closing instruction, and holds each result's block in ranked order |
| Context.ContextOfSearch | rag-system.js:238-243 | the context is `null` exactly when the search finds nothing; there are at most three results; a context is never empty |
| Rag.BuildContext | rag-system.js:241-253 | the loop builds the text of the specification function `ContextText` |
| DocumentSummary.CountsPartition | rag-system.js:262-266 | text and PDF counts add up to the document count; without PDFs there are no pages |
| DocumentSummary.SummaryText | rag-system.js:268-280 | the summary is the count lines, then `"\nDocuments:\n"`, then one line per document |
| DocumentSummary.SummarySplitsIntoLines | rag-system.js:268-280 | when no file name holds a newline, the summary splits on newlines into the count lines, a blank line, the title, and one line per document |
| Loading.Extension | rag-system.js:63 | the extension holds no dot and no upper-case ASCII letter |
| Loading.ExtensionAfterLastDot | rag-system.js:63-68 | the loader is chosen by the lower-cased text after the last dot alone |
| Loading.ExtensionWithoutDot | rag-system.js:63 | a name without a dot is its own extension |
| Loading.ConfiguredLoaders | rag-system.js:32-44 | the six `.txt` files go to the text loader and the manual to the PDF loader |
| Loading.PagesText | rag-system.js:113-121 | the joined text is all whitespace exactly when there is no page |
| Loading.PagesTextBlank | rag-system.js:116-123 | the joined text is blank exactly when the PDF has no page, so the trim check keeps every PDF with a page |
| Loading.PagesTextPrefix | rag-system.js:116-121 | joining more pages only extends the text |
| Loading.PageInPlace | rag-system.js:116-121 | page `n`'s block sits right after the blocks of the pages before it |
| Rag.JoinPages | rag-system.js:113-121 | the page loop builds the text of the specification function `PagesText` |
| Rag.RAGSystem.constructor | rag-system.js:7-13 | a new system has no documents, an empty index, and is not indexed |
| Rag.RAGSystem.AddDocument | rag-system.js:83-88 | pushing a chunked document appends it and keeps the index valid for the longer list |
| Rag.RAGSystem.LoadTextFile | rag-system.js:78-94 | a successful fetch appends one text document with its chunks; a failed one changes nothing |
| Rag.RAGSystem.LoadPdf | rag-system.js:97-136 | a PDF document is appended exactly when pdf.js is present, the fetch and parse succeed, and the PDF has a page |
| Rag.RAGSystem.LoadDocument | rag-system.js:61-75 | the file goes to the loader of its extension; other extensions add nothing |
| Rag.RAGSystem.LoadDocuments | rag-system.js:29-58 | the loads append their documents in completion order, and the index is rebuilt exactly when some document is loaded |
| Rag.RAGSystem.IndexWords | rag-system.js:168-177 | the word loop makes one push per keyword occurrence, in order |
| Rag.RAGSystem.IndexChunks | rag-system.js:165-178 | the chunk loop makes the pushes of every chunk, in chunk order |
| Rag.RAGSystem.IndexDocuments | rag-system.js:161-182 | the index is rebuilt from scratch: it is the index of the documents whatever it held before, and the system is indexed |
| Rag.RAGSystem.SearchDocuments | rag-system.js:202-235 | the method returns the results of the specification function `Search` |
| Rag.RAGSystem.GetContext | rag-system.js:238-254 | the context is the search for three results, rendered by `ContextText` |
| Rag.RAGSystem.GetLoadedDocumentsSummary | rag-system.js:257-283 | the method returns the text of the specification function `Summary` |
| Prompt.PromptLayout | rag-system.js:304-322 | the prompt opens with the profile and closes with the instructions; a context sits between them after a newline exactly when it is a non-empty string |
| Prompt.MissingGovernance | rag-system.js:312 | a missing `governance` prints as `undefined` |
| Rag.AssemblePrompt | rag-system.js:304-322 | the prompt built step by step is `SystemPrompt` |
| Rag.BuildSystemPrompt | rag-system.js:301-322 | the prompt holds the context of the three-result search |
| Rag.PromptCarriesContext | rag-system.js:301-322 | without results the prompt is the one with no context; with results the context block, header first, follows the profile |

## Left out

- Network and I/O are parameters, not modelled. This covers `fetch`, the
  pdf.js calls (`getDocument`, `getPage`, `getTextContent`), `console`
  output, `innerHTML` and the Groq chat request in `askAIWithRAG`. The
  fetched body, the text items of each page, and whether pdf.js is present
  are parameters.
- `initPdfJS` becomes the constructor's `pdfAvailable` argument.
- The worker URL it sets is not modelled.
- Parse errors are not told apart. A fetch that is not ok, a thrown fetch
  and a PDF pdf.js cannot parse are all `None`, since the code only logs
  them.
- `Promise.all` runs the seven loads at once. `LoadDocuments` takes the
  order in which they complete (`order`) as a parameter, so interleavings
  inside one load are not modelled.
- The model lower-cases ASCII letters only. JavaScript's `toLowerCase` also
  maps other letters, and some of them (U+212A KELVIN SIGN, U+0130) map to
  ASCII letters, which can change the extracted keywords.
- String lengths count characters, not UTF-16 code units. The two differ
  only for characters outside the Basic Multilingual Plane.
- `Number` is modelled only on strings of decimal digits. Any other key
  piece makes the key unresolvable, which cannot happen for the keys the
  code writes.
- Ranking.SortDesc: models the sort as a stable insertion sort.
  `Array.prototype.sort` has been stable since ES2019, and the model
  specifies the result, not the algorithm.
- `simulator.js` and `character-data.js` are not part of this model. That
  includes the character profiles, whose fields `Prompt.Profile` lists.
- The global `ragSystem` instance and the page-load listener are not
  modelled. They only call `loadDocuments`.
