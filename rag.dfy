/** The `RAGSystem` object: the loaded documents, the keyword index built
    over them and whether it has been built, with the operations that load,
    index, search and summarise them. */
module Rag {
  import opened Text
  import opened Chunker
  import opened Keywords
  import opened Indexing
  import opened Scoring
  import opened Ranking
  import opened Loading
  import opened DocumentSummary
  import opened Context
  import opened Prompt

  /** What fetching a document gives when the request succeeds with an ok
      response: the body as text and, when pdf.js parses it, the strings of
      the text items of each page. A failed or not-ok fetch is `None`. */
  datatype Fetched = Fetched(text: string, pdfPages: Option<seq<seq<string>>>)

  /** The document `loadTextFile` adds for a body. */
  function TextDocument(filename: string, content: string): Doc {
    Doc(filename, TextDoc, content, Chunks(content, DefaultChunkSize))
  }

  /** The document `loadPDF` adds for the pages of a PDF. */
  function PdfDocument(filename: string, pages: seq<seq<string>>): Doc {
    Doc(filename, PdfDoc(|pages|), PagesText(pages), Chunks(PagesText(pages), DefaultChunkSize))
  }

  /** The documents `loadDocument` adds: a text file whenever its fetch
      succeeds; a PDF only when pdf.js is available, the fetch succeeds,
      the file parses and it has at least one page; nothing for any other
      extension. */
  function LoadedBy(filename: string, pdfAvailable: bool, response: Option<Fetched>): seq<Doc> {
    match LoaderFor(filename)
    case TextLoader =>
      if response.Some? then [TextDocument(filename, response.value.text)] else []
    case PdfLoader =>
      if pdfAvailable && response.Some? && response.value.pdfPages.Some? && |response.value.pdfPages.value| > 0
      then [PdfDocument(filename, response.value.pdfPages.value)]
      else []
    case Unsupported => []
  }

  /** The documents the loads add when they complete in the order `order`
      (positions in `DocumentFiles`). */
  function LoadedInOrder(pdfAvailable: bool, responses: seq<Option<Fetched>>, order: seq<nat>): seq<Doc>
    requires |responses| == |DocumentFiles|
    requires forall k :: 0 <= k < |order| ==> order[k] < |DocumentFiles|
  {
    if order == [] then []
    else
      var last := order[|order| - 1];
      LoadedInOrder(pdfAvailable, responses, order[..|order| - 1])
      + LoadedBy(DocumentFiles[last], pdfAvailable, responses[last])
  }

  lemma {:induction false} LoadedStep(pdfAvailable: bool, responses: seq<Option<Fetched>>, order: seq<nat>, k: nat)
    requires |responses| == |DocumentFiles|
    requires forall j :: 0 <= j < |order| ==> order[j] < |DocumentFiles|
    requires k < |order|
    ensures LoadedInOrder(pdfAvailable, responses, order[..k + 1])
            == LoadedInOrder(pdfAvailable, responses, order[..k])
               + LoadedBy(DocumentFiles[order[k]], pdfAvailable, responses[order[k]])
  {
    TakeStep(order, k);
  }

  /** Creating the list when it is missing, then pushing onto it, is one
      `Insert`. */
  lemma {:induction false} PushIsInsert(index: Index, word: string, p: Posting)
    ensures var created := if word !in index then index[word := []] else index;
            created[word := created[word] + [p]] == Insert(index, Event(word, p))
  {
    var created := if word !in index then index[word := []] else index;
    assert created[word] == Lookup(index, word);
    assert created[word := created[word] + [p]] == index[word := Lookup(index, word) + [p]];
  }

  /** Every document holds the chunks of its text. */
  ghost predicate Chunked(docs: seq<Doc>) {
    forall d :: 0 <= d < |docs| ==> docs[d].chunks == Chunks(docs[d].content, DefaultChunkSize)
  }

  lemma {:induction false} AppendKeepsChunked(docs: seq<Doc>, doc: Doc)
    requires Chunked(docs)
    requires doc.chunks == Chunks(doc.content, DefaultChunkSize)
    ensures Chunked(docs + [doc])
  {
    var docs' := docs + [doc];
    forall d | 0 <= d < |docs'| ensures docs'[d].chunks == Chunks(docs'[d].content, DefaultChunkSize) {
      if d < |docs| {
        assert docs'[d] == docs[d];
      } else {
        assert docs'[d] == doc;
      }
    }
  }

  /** An index that names only chunks of `docs` still does once a document
      is appended. */
  lemma {:induction false} AppendKeepsResolves(docs: seq<Doc>, doc: Doc, index: Index)
    requires IndexResolves(docs, index)
    ensures IndexResolves(docs + [doc], index)
  {
    forall w, p | w in index && p in index[w]
      ensures p.docIndex < |docs + [doc]| && p.chunkIndex < |(docs + [doc])[p.docIndex].chunks|
    {
      assert (docs + [doc])[p.docIndex] == docs[p.docIndex];
    }
  }

  // ---------------------------------------------------------------------
  // The loops of `searchDocuments` and `getContext`, on values

  /** One more for the chunk of `p`. */
  lemma {:induction false} TallyStep(ps: seq<Posting>, p: Posting)
    ensures Tally(HitKeys(ps + [p])) == Bump(Tally(HitKeys(ps)), ChunkKey(p.docIndex, p.chunkIndex))
  {
    HitKeysAppend(ps, [p]);
    DropLast(HitKeys(ps), ChunkKey(p.docIndex, p.chunkIndex));
  }

  /** The body of the innermost loop of `searchDocuments`: the score of
      the chunk of `posting`, under its key `"d-c"`, goes up by one, the
      key added to the map when it is new. */
  method ScoreMatch(chunkScores: ScoreMap, ghost found: seq<Posting>, posting: Posting) returns (r: ScoreMap)
    requires chunkScores == Tally(HitKeys(found))
    ensures r == Tally(HitKeys(found + [posting]))
  {
    var key := ChunkKey(posting.docIndex, posting.chunkIndex);
    var currentScore := Get(chunkScores, key);
    r := Put(chunkScores, key, currentScore + 1);
    TallyStep(found, posting);
  }

  lemma {:induction false} HitsStep(index: Index, qs: seq<string>, i: nat)
    requires i < |qs|
    ensures Hits(index, qs[..i + 1]) == Hits(index, qs[..i]) + Lookup(index, qs[i])
  {
    TakeStep(qs, i);
  }

  /** The innermost loop of `searchDocuments`: on top of the scores of the
      postings `found`, one more for the chunk of each posting in
      `matches`. */
  method ScorePostings(chunkScores: ScoreMap, ghost found: seq<Posting>, matches: seq<Posting>) returns (r: ScoreMap)
    requires chunkScores == Tally(HitKeys(found))
    ensures r == Tally(HitKeys(found + matches))
  {
    r := chunkScores;
    ghost var scored := found;
    for j := 0 to |matches|
      invariant scored == found + matches[..j]
      invariant r == Tally(HitKeys(scored))
    {
      r := ScoreMatch(r, scored, matches[j]);
      TakeStep(matches, j);
      AppendAssoc(found, matches[..j], [matches[j]]);
      scored := scored + [matches[j]];
    }
    TakeAll(matches);
  }

  /** The scoring loop of `searchDocuments`: the postings under each query
      keyword in turn, a keyword missing from the index adding nothing. */
  method ScoreKeywords(index: Index, queryKeywords: seq<string>) returns (chunkScores: ScoreMap)
    ensures chunkScores == Scores(index, queryKeywords)
  {
    chunkScores := NoScores;
    for i := 0 to |queryKeywords|
      invariant chunkScores == Scores(index, queryKeywords[..i])
    {
      var keyword := queryKeywords[i];
      HitsStep(index, queryKeywords, i);
      if keyword in index {
        chunkScores := ScorePostings(chunkScores, Hits(index, queryKeywords[..i]), index[keyword]);
      } else {
        assert Hits(index, queryKeywords[..i]) + Lookup(index, keyword) == Hits(index, queryKeywords[..i]);
      }
    }
    TakeAll(queryKeywords);
  }

  lemma {:induction false} BlocksStep(rs: seq<SearchResult>, i: nat)
    requires i < |rs|
    ensures Blocks(rs[..i + 1]) == Blocks(rs[..i]) + Block(rs[i])
  {
    TakeStep(rs, i);
  }

  /** The text `getContext` builds from the results `rs`: `null` without
      results, otherwise the header, one block per result in order and
      the closing instruction. */
  method BuildContext(rs: seq<SearchResult>) returns (context: Option<string>)
    ensures context == ContextText(rs)
  {
    if |rs| == 0 {
      return None;
    }
    var text := Header;
    for i := 0 to |rs|
      invariant text == Header + Blocks(rs[..i])
    {
      BlocksStep(rs, i);
      var chunk := rs[i];
      var block := "[" + chunk.filename + "]\n" + chunk.content + "\n\n";
      assert block == Block(chunk);
      AppendAssoc(Header, Blocks(rs[..i]), block);
      text := text + block;
    }
    TakeAll(rs);
    text := text + Footer;
    return Some(text);
  }

  lemma {:induction false} PagesStep(pages: seq<seq<string>>, i: nat)
    requires i < |pages|
    ensures PagesText(pages[..i + 1]) == PagesText(pages[..i]) + PageBlock(i + 1, PageText(pages[i]))
  {
    TakeStep(pages, i);
  }

  /** The page loop of `loadPDF`: each page's text under its number, in
      page order. */
  method JoinPages(pages: seq<seq<string>>) returns (fullText: string)
    ensures fullText == PagesText(pages)
  {
    fullText := "";
    for pageNum := 1 to |pages| + 1
      invariant fullText == PagesText(pages[..pageNum - 1])
    {
      PagesStep(pages, pageNum - 1);
      var pageText := Join(pages[pageNum - 1], " ");
      var block := "\n\n--- Page " + NatToString(pageNum) + " ---\n\n" + pageText;
      assert block == PageBlock(pageNum, PageText(pages[pageNum - 1]));
      fullText := fullText + block;
    }
    TakeAll(pages);
  }

  class RAGSystem {
    var documents: seq<Doc>
    var documentIndex: Index
    var isIndexed: bool
    /** Whether pdf.js was found when the object was made (`this.pdfJS`). */
    var pdfAvailable: bool

    /** Every document holds the chunks of its text, and the index names
        only chunks of the documents. */
    ghost predicate Valid()
      reads this
    {
      Chunked(documents) && IndexResolves(documents, documentIndex)
    }

    /** A new system, with no documents and an empty index that is not
        built; `pdfAvailable` says whether pdf.js is present. */
    constructor(pdfAvailable: bool)
      ensures Valid()
      ensures documents == [] && documentIndex == map[] && !isIndexed
      ensures this.pdfAvailable == pdfAvailable
    {
      documents := [];
      documentIndex := map[];
      isIndexed := false;
      this.pdfAvailable := pdfAvailable;
    }

    /** `this.documents.push(doc)` for a document holding the chunks of its
        text. */
    method AddDocument(doc: Doc)
      requires Valid()
      requires doc.chunks == Chunks(doc.content, DefaultChunkSize)
      modifies this
      ensures Valid()
      ensures documents == old(documents) + [doc]
      ensures documentIndex == old(documentIndex) && isIndexed == old(isIndexed) && pdfAvailable == old(pdfAvailable)
    {
      AppendKeepsChunked(documents, doc);
      AppendKeepsResolves(documents, doc, documentIndex);
      documents := documents + [doc];
    }

    /** `loadTextFile`: the fetched body becomes a text document with its
        chunks; a failed fetch adds nothing. */
    method LoadTextFile(filename: string, response: Option<string>)
      requires Valid()
      modifies this
      ensures Valid()
      ensures documents == old(documents) + (if response.Some? then [TextDocument(filename, response.value)] else [])
      ensures documentIndex == old(documentIndex) && isIndexed == old(isIndexed) && pdfAvailable == old(pdfAvailable)
    {
      if response.Some? {
        var content := response.value;
        var chunks := ChunkDocument(content, DefaultChunkSize);
        AddDocument(Doc(filename, TextDoc, content, chunks));
      }
    }

    /** `loadPDF`: without pdf.js, a fetch or a parse, nothing; otherwise
        the pages are joined under their numbers and the document is added
        when the text is not blank, which is exactly when it has a page. */
    method LoadPdf(filename: string, response: Option<Fetched>)
      requires Valid()
      modifies this
      ensures Valid()
      ensures documents == old(documents)
                           + (if pdfAvailable && response.Some? && response.value.pdfPages.Some? && |response.value.pdfPages.value| > 0
                              then [PdfDocument(filename, response.value.pdfPages.value)] else [])
      ensures documentIndex == old(documentIndex) && isIndexed == old(isIndexed) && pdfAvailable == old(pdfAvailable)
    {
      if !pdfAvailable || response.None? || response.value.pdfPages.None? {
        return;
      }
      var pages := response.value.pdfPages.value;
      var fullText := JoinPages(pages);
      PagesTextBlank(pages);
      if |Trim(fullText)| > 0 {
        var chunks := ChunkDocument(fullText, DefaultChunkSize);
        AddDocument(Doc(filename, PdfDoc(|pages|), fullText, chunks));
      }
    }

    /** `loadDocument`: the file goes to the loader its extension picks. */
    method LoadDocument(filename: string, response: Option<Fetched>)
      requires Valid()
      modifies this
      ensures Valid()
      ensures documents == old(documents) + LoadedBy(filename, old(pdfAvailable), response)
      ensures documentIndex == old(documentIndex) && isIndexed == old(isIndexed) && pdfAvailable == old(pdfAvailable)
    {
      var extension := Extension(filename);
      if extension == "pdf" {
        LoadPdf(filename, response);
      } else if extension == "txt" {
        LoadTextFile(filename, if response.Some? then Some(response.value.text) else None);
      }
    }

    /** `loadDocuments`: the configured files are loaded, their loads
        completing in the order `order` (each of the seven files once)
        with the fetch results `responses`, and the index is built when any
        document is loaded. */
    method LoadDocuments(responses: seq<Option<Fetched>>, order: seq<nat>)
      requires Valid()
      requires |responses| == |DocumentFiles|
      requires multiset(order) == multiset{0, 1, 2, 3, 4, 5, 6}
      requires forall k :: 0 <= k < |order| ==> order[k] < |DocumentFiles|
      modifies this
      ensures Valid()
      ensures documents == old(documents) + LoadedInOrder(old(pdfAvailable), responses, order)
      ensures pdfAvailable == old(pdfAvailable)
      ensures |documents| > 0 ==> isIndexed && documentIndex == BuildIndex(documents)
      ensures |documents| == 0 ==> isIndexed == old(isIndexed) && documentIndex == old(documentIndex)
    {
      for k := 0 to |order|
        invariant Valid()
        invariant pdfAvailable == old(pdfAvailable)
        invariant documents == old(documents) + LoadedInOrder(pdfAvailable, responses, order[..k])
        invariant isIndexed == old(isIndexed) && documentIndex == old(documentIndex)
      {
        var position := order[k];
        LoadedStep(pdfAvailable, responses, order, k);
        AppendAssoc(old(documents), LoadedInOrder(pdfAvailable, responses, order[..k]),
                    LoadedBy(DocumentFiles[position], pdfAvailable, responses[position]));
        LoadDocument(DocumentFiles[position], responses[position]);
      }
      TakeAll(order);
      if |documents| > 0 {
        IndexDocuments();
      }
    }

    /** The innermost loop of `indexDocuments`: the posting of chunk `c` of
        document `d` is pushed onto the list of each of its keywords, the
        list created first when the keyword is new. */
    method IndexWords(d: nat, c: nat, chunk: string, words: seq<string>)
      modifies this
      ensures documentIndex == InsertAll(old(documentIndex), WordEvents(d, c, chunk, words))
      ensures documents == old(documents) && isIndexed == old(isIndexed) && pdfAvailable == old(pdfAvailable)
    {
      ghost var start := documentIndex;
      for i := 0 to |words|
        invariant documentIndex == InsertAll(start, WordEvents(d, c, chunk, words[..i]))
        invariant documents == old(documents) && isIndexed == old(isIndexed) && pdfAvailable == old(pdfAvailable)
      {
        var word := words[i];
        WordEventsSnoc(d, c, chunk, words, i);
        InsertAllSnoc(start, WordEvents(d, c, chunk, words[..i]), Event(word, Posting(d, c, chunk)));
        PushIsInsert(documentIndex, word, Posting(d, c, chunk));
        if word !in documentIndex {
          documentIndex := documentIndex[word := []];
        }
        documentIndex := documentIndex[word := documentIndex[word] + [Posting(d, c, chunk)]];
      }
      TakeAll(words);
    }

    /** The loop over the chunks of document `d` in `indexDocuments`. */
    method IndexChunks(d: nat, chunks: seq<string>)
      modifies this
      ensures documentIndex == InsertAll(old(documentIndex), ChunkEvents(d, chunks))
      ensures documents == old(documents) && isIndexed == old(isIndexed) && pdfAvailable == old(pdfAvailable)
    {
      ghost var start := documentIndex;
      for c := 0 to |chunks|
        invariant documentIndex == InsertAll(start, ChunkEvents(d, chunks[..c]))
        invariant documents == old(documents) && isIndexed == old(isIndexed) && pdfAvailable == old(pdfAvailable)
      {
        var chunk := chunks[c];
        var words := ExtractKeywords(chunk);
        IndexWords(d, c, chunk, words);
        InsertAllAppend(start, ChunkEvents(d, chunks[..c]), WordEvents(d, c, chunk, words));
        ChunkEventsSnoc(d, chunks, c);
      }
      TakeAll(chunks);
    }

    /** `indexDocuments`: the index is cleared and rebuilt from every
        keyword occurrence of every chunk, so it is the index of the
        documents whatever it was before. */
    method IndexDocuments()
      requires Valid()
      modifies this
      ensures Valid()
      ensures documentIndex == BuildIndex(documents) && isIndexed
      ensures documents == old(documents) && pdfAvailable == old(pdfAvailable)
    {
      var docs := documents;
      documentIndex := map[];
      for d := 0 to |docs|
        invariant documents == docs && pdfAvailable == old(pdfAvailable)
        invariant documentIndex == InsertAll(map[], DocEvents(docs[..d]))
      {
        IndexChunks(d, docs[d].chunks);
        InsertAllAppend(map[], DocEvents(docs[..d]), ChunkEvents(d, docs[d].chunks));
        DocEventsSnoc(docs, d);
      }
      TakeAll(docs);
      BuiltIndexResolves(docs);
      isIndexed := true;
    }

    /** `searchDocuments`: nothing before indexing or without documents;
        otherwise every posting under each query keyword adds one to its
        chunk's score, and the scored chunks are ranked. */
    method SearchDocuments(query: string, topK: int) returns (results: seq<SearchResult>)
      requires Valid()
      ensures results == Search(documents, documentIndex, isIndexed, query, topK)
    {
      if !isIndexed || |documents| == 0 {
        return [];
      }
      var queryKeywords := ExtractKeywords(query);
      var chunkScores := ScoreKeywords(documentIndex, queryKeywords);
      ScoredKeysResolve(documents, documentIndex, queryKeywords);
      results := Rank(documents, chunkScores, topK);
    }

    /** `getContext`: the blocks of the best three results between the
        header and the closing instruction, or `null` without results. */
    method GetContext(query: string) returns (context: Option<string>)
      requires Valid()
      ensures context == ContextText(Search(documents, documentIndex, isIndexed, query, ContextResults))
    {
      var relevantChunks := SearchDocuments(query, ContextResults);
      context := BuildContext(relevantChunks);
    }

    /** `getLoadedDocumentsSummary`. */
    method GetLoadedDocumentsSummary() returns (summary: string)
      ensures summary == Summary(documents)
    {
      if |documents| == 0 {
        return NoDocuments;
      }
      var textFiles := TextCount(documents);
      var pdfFiles := PdfCount(documents);
      var totalPages := TotalPages(documents);
      var counts := LoadedLine(|documents|) + "\n";
      if textFiles > 0 {
        counts := counts + TextFilesLine(textFiles) + "\n";
      }
      if pdfFiles > 0 {
        counts := counts + PdfFilesLine(pdfFiles, totalPages) + "\n";
      }
      SummaryText(documents);
      summary := counts + "\nDocuments:\n";
      summary := summary + Join(DocLines(documents), "\n");
    }
  }

  /** The prompt `askAIWithRAG` assembles: the profile, then the context
      when it is a non-empty string, then the closing instructions. */
  method AssemblePrompt(character: Profile, documentContext: Option<string>) returns (systemPrompt: string)
    ensures systemPrompt == SystemPrompt(character, documentContext)
  {
    systemPrompt := Persona(character);
    ghost var middle: string := [];
    if documentContext.Some? && documentContext.value != "" {
      var contextBlock := "\n" + documentContext.value;
      systemPrompt := systemPrompt + contextBlock;
      middle := contextBlock;
    } else {
      assert systemPrompt + middle == systemPrompt;
    }
    assert systemPrompt == Persona(character) + middle;
    systemPrompt := systemPrompt + Instructions;
  }

  /** The system prompt `askAIWithRAG` builds for `question`, with the
      context the system finds for it. */
  method BuildSystemPrompt(rag: RAGSystem, question: string, character: Profile) returns (systemPrompt: string)
    requires rag.Valid()
    ensures systemPrompt
            == SystemPrompt(character, ContextText(Search(rag.documents, rag.documentIndex, rag.isIndexed, question, ContextResults)))
  {
    var documentContext := rag.GetContext(question);
    systemPrompt := AssemblePrompt(character, documentContext);
  }

  /** The prompt carries the context of `rs` exactly when there are
      results: without them it is the prompt with no context, with them it
      holds the context block, header first, right after the profile. */
  lemma {:induction false} PromptCarriesContext(rs: seq<SearchResult>, character: Profile)
    ensures var s := SystemPrompt(character, ContextText(rs));
            var at := |Persona(character)| + 1;
            && (rs == [] ==> s == SystemPrompt(character, None))
            && (rs != [] ==>
                  var c := ContextText(rs).value;
                  at + |c| <= |s| && s[at..at + |c|] == c && c[..|Header|] == Header)
  {
    PromptLayout(character, ContextText(rs));
    if rs != [] {
      ContextLayout(rs, 0);
    }
  }
}
