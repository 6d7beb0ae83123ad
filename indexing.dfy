/** The documents and the inverted keyword index `indexDocuments` builds:
    for every keyword, one posting per occurrence of the keyword in a chunk,
    in document order, then chunk order, then token order. */
module Indexing {
  import opened Text
  import opened Keywords

  /** `type: 'text'`, or `type: 'pdf'` with its page count. */
  datatype DocKind = TextDoc | PdfDoc(pages: nat)

  /** A loaded document. */
  datatype Doc = Doc(filename: string, kind: DocKind, content: string, chunks: seq<string>)

  /** `{docIndex, chunkIndex, chunk}`: one occurrence of a keyword. */
  datatype Posting = Posting(docIndex: nat, chunkIndex: nat, chunk: string)

  /** One push the indexing loop makes: `documentIndex.get(word).push(posting)`. */
  datatype Event = Event(word: string, posting: Posting)

  type Index = map<string, seq<Posting>>

  /** `documentIndex.get(word)`, with `[]` for a missing key. */
  function Lookup(index: Index, word: string): seq<Posting> {
    if word in index then index[word] else []
  }

  // ---------------------------------------------------------------------
  // The pushes, in the order the nested loops make them

  /** The pushes for the tokens `words` of chunk `c` of document `d`. */
  function WordEvents(d: nat, c: nat, chunk: string, words: seq<string>): (es: seq<Event>)
    ensures |es| == |words|
    ensures forall i :: 0 <= i < |es| ==> es[i] == Event(words[i], Posting(d, c, chunk))
  {
    seq(|words|, i requires 0 <= i < |words| => Event(words[i], Posting(d, c, chunk)))
  }

  /** The pushes for the chunks of document `d`. */
  function ChunkEvents(d: nat, chunks: seq<string>): seq<Event> {
    if chunks == [] then []
    else
      var c := |chunks| - 1;
      ChunkEvents(d, chunks[..c]) + WordEvents(d, c, chunks[c], ExtractKeywords(chunks[c]))
  }

  /** The pushes for all documents. */
  function DocEvents(docs: seq<Doc>): seq<Event> {
    if docs == [] then []
    else
      var d := |docs| - 1;
      DocEvents(docs[..d]) + ChunkEvents(d, docs[d].chunks)
  }

  /** One push: a missing key is created with an empty list first. */
  function Insert(index: Index, e: Event): (r: Index)
    ensures r.Keys == index.Keys + {e.word}
    ensures Lookup(r, e.word) == Lookup(index, e.word) + [e.posting]
    ensures forall w :: w != e.word ==> Lookup(r, w) == Lookup(index, w)
  {
    index[e.word := Lookup(index, e.word) + [e.posting]]
  }

  /** The pushes `es`, in order. */
  function InsertAll(index: Index, es: seq<Event>): Index {
    if es == [] then index else Insert(InsertAll(index, es[..|es| - 1]), es[|es| - 1])
  }

  /** The map `indexDocuments` leaves: it starts from a cleared map. */
  function BuildIndex(docs: seq<Doc>): (r: Index)
    ensures forall w :: w in r ==> IsKeyword(w) && r[w] != []
  {
    PushedKeys(docs);
    InsertAll(map[], DocEvents(docs))
  }

  lemma {:induction false} InsertAllSnoc(index: Index, es: seq<Event>, e: Event)
    ensures InsertAll(index, es + [e]) == Insert(InsertAll(index, es), e)
  {
    DropLast(es, e);
  }

  /** Pushing `a` then `b` is pushing `a + b`. */
  lemma {:induction false} InsertAllAppend(index: Index, a: seq<Event>, b: seq<Event>)
    ensures InsertAll(InsertAll(index, a), b) == InsertAll(index, a + b)
    decreases |b|
  {
    if b == [] {
      assert a + b == a;
    } else {
      var init := b[..|b| - 1];
      var e := b[|b| - 1];
      calc {
        InsertAll(InsertAll(index, a), b);
        Insert(InsertAll(InsertAll(index, a), init), e);
        { InsertAllAppend(index, a, init); }
        Insert(InsertAll(index, a + init), e);
        { InsertAllSnoc(index, a + init, e); }
        InsertAll(index, (a + init) + [e]);
        { assert a + b == (a + init) + [e]; }
        InsertAll(index, a + b);
      }
    }
  }

  lemma {:induction false} WordEventsSnoc(d: nat, c: nat, chunk: string, words: seq<string>, i: nat)
    requires i < |words|
    ensures WordEvents(d, c, chunk, words[..i + 1])
            == WordEvents(d, c, chunk, words[..i]) + [Event(words[i], Posting(d, c, chunk))]
  {
  }

  lemma {:induction false} ChunkEventsSnoc(d: nat, chunks: seq<string>, c: nat)
    requires c < |chunks|
    ensures ChunkEvents(d, chunks[..c + 1])
            == ChunkEvents(d, chunks[..c]) + WordEvents(d, c, chunks[c], ExtractKeywords(chunks[c]))
  {
    TakeStep(chunks, c);
  }

  lemma {:induction false} DocEventsSnoc(docs: seq<Doc>, d: nat)
    requires d < |docs|
    ensures DocEvents(docs[..d + 1]) == DocEvents(docs[..d]) + ChunkEvents(d, docs[d].chunks)
  {
    TakeStep(docs, d);
  }

  // ---------------------------------------------------------------------
  // The index holds, under each word, the postings of that word

  /** The postings pushed under `w`, in push order. */
  function Postings(es: seq<Event>, w: string): (ps: seq<Posting>)
    ensures forall k :: 0 <= k < |ps| ==> Event(w, ps[k]) in es
  {
    if es == [] then []
    else
      var last := es[|es| - 1];
      Postings(es[..|es| - 1], w) + (if last.word == w then [last.posting] else [])
  }

  /** Inserting pushes into an empty map puts exactly the words pushed in
      it as keys, each with its postings in push order. */
  lemma {:induction false} InsertAllPostings(es: seq<Event>)
    ensures forall w :: w in InsertAll(map[], es) <==> exists i :: 0 <= i < |es| && es[i].word == w
    ensures forall w :: Lookup(InsertAll(map[], es), w) == Postings(es, w)
  {
    if es != [] {
      var init := es[..|es| - 1];
      var e := es[|es| - 1];
      InsertAllPostings(init);
      forall w ensures w in InsertAll(map[], es) <==> exists i :: 0 <= i < |es| && es[i].word == w {
        if w in InsertAll(map[], init) {
          var i :| 0 <= i < |init| && init[i].word == w;
          assert es[i] == init[i];
        }
        if exists i :: 0 <= i < |es| && es[i].word == w {
          var i :| 0 <= i < |es| && es[i].word == w;
          if i < |init| {
            assert init[i] == es[i];
          }
        }
      }
    }
  }

  lemma {:induction false} PostingsAppend(a: seq<Event>, b: seq<Event>, w: string)
    ensures Postings(a + b, w) == Postings(a, w) + Postings(b, w)
    decreases |b|
  {
    if b == [] {
      assert a + b == a;
    } else {
      var b' := b[..|b| - 1];
      assert (a + b)[..|a + b| - 1] == a + b';
      PostingsAppend(a, b', w);
    }
  }

  /** Every key of the index has a non-empty list of postings. */
  lemma {:induction false} KeysHavePostings(es: seq<Event>, w: string)
    requires w in InsertAll(map[], es)
    ensures InsertAll(map[], es)[w] != []
  {
    InsertAllPostings(es);
    var i :| 0 <= i < |es| && es[i].word == w;
    PostingsNonEmpty(es, w, i);
  }

  lemma {:induction false} PostingsNonEmpty(es: seq<Event>, w: string, i: nat)
    requires i < |es| && es[i].word == w
    ensures Postings(es, w) != []
  {
    if i < |es| - 1 {
      PostingsNonEmpty(es[..|es| - 1], w, i);
    }
  }

  // ---------------------------------------------------------------------
  // Every push is well formed

  /** A push for chunk `c` of document `d`, holding that chunk's text and
      one of its keywords. */
  ghost predicate EventOf(docs: seq<Doc>, e: Event) {
    && e.posting.docIndex < |docs|
    && e.posting.chunkIndex < |docs[e.posting.docIndex].chunks|
    && e.posting.chunk == docs[e.posting.docIndex].chunks[e.posting.chunkIndex]
    && e.word in ExtractKeywords(e.posting.chunk)
  }

  lemma {:induction false} ChunkEventsOf(docs: seq<Doc>, d: nat, n: nat)
    requires d < |docs| && n <= |docs[d].chunks|
    ensures forall e :: e in ChunkEvents(d, docs[d].chunks[..n]) ==> EventOf(docs, e) && e.posting.docIndex == d
  {
    if n > 0 {
      var chunks := docs[d].chunks;
      assert chunks[..n][..n - 1] == chunks[..n - 1];
      ChunkEventsOf(docs, d, n - 1);
    }
  }

  lemma {:induction false} DocEventsOf(docs: seq<Doc>, n: nat)
    requires n <= |docs|
    ensures forall e :: e in DocEvents(docs[..n]) ==> EventOf(docs, e) && e.posting.docIndex < n
  {
    if n > 0 {
      assert docs[..n][..n - 1] == docs[..n - 1];
      DocEventsOf(docs, n - 1);
      assert docs[..n][n - 1] == docs[n - 1];
      TakeAll(docs[n - 1].chunks);
      ChunkEventsOf(docs, n - 1, |docs[n - 1].chunks|);
    }
  }

  /** Every posting in the index names an existing chunk, carries that
      chunk's text, and the chunk has the key among its keywords. */
  lemma {:induction false} IndexPostingsWellFormed(docs: seq<Doc>)
    ensures forall w, p :: w in BuildIndex(docs) && p in BuildIndex(docs)[w] ==> EventOf(docs, Event(w, p))
  {
    TakeAll(docs);
    DocEventsOf(docs, |docs|);
    InsertAllPostings(DocEvents(docs));
    forall w, p | w in BuildIndex(docs) && p in BuildIndex(docs)[w] ensures EventOf(docs, Event(w, p)) {
      assert Lookup(BuildIndex(docs), w) == BuildIndex(docs)[w];
    }
  }

  /** Every word pushed is a keyword, and gets a non-empty list. */
  lemma {:induction false} PushedKeys(docs: seq<Doc>)
    ensures forall w :: w in InsertAll(map[], DocEvents(docs)) ==>
              IsKeyword(w) && InsertAll(map[], DocEvents(docs))[w] != []
  {
    var es := DocEvents(docs);
    var index := InsertAll(map[], es);
    TakeAll(docs);
    DocEventsOf(docs, |docs|);
    InsertAllPostings(es);
    forall w | w in index ensures IsKeyword(w) && index[w] != [] {
      var i :| 0 <= i < |es| && es[i].word == w;
      assert es[i] in es;
      KeysHavePostings(es, w);
    }
  }

  // ---------------------------------------------------------------------
  // One posting per occurrence

  /** The number of postings for chunk `c` of document `d`. */
  function CountAt(ps: seq<Posting>, d: nat, c: nat): nat {
    if ps == [] then 0
    else CountAt(ps[..|ps| - 1], d, c) + (if ps[|ps| - 1].docIndex == d && ps[|ps| - 1].chunkIndex == c then 1 else 0)
  }

  lemma {:induction false} CountAtAppend(a: seq<Posting>, b: seq<Posting>, d: nat, c: nat)
    ensures CountAt(a + b, d, c) == CountAt(a, d, c) + CountAt(b, d, c)
    decreases |b|
  {
    if b == [] {
      assert a + b == a;
    } else {
      assert (a + b)[..|a + b| - 1] == a + b[..|b| - 1];
      CountAtAppend(a, b[..|b| - 1], d, c);
    }
  }

  lemma {:induction false} CountSnoc(ps: seq<Posting>, p: Posting, d: nat, c: nat)
    ensures CountAt(ps + [p], d, c) == CountAt(ps, d, c) + (if p.docIndex == d && p.chunkIndex == c then 1 else 0)
  {
    DropLast(ps, p);
  }

  lemma {:induction false} PostingsSnoc(es: seq<Event>, e: Event, w: string)
    ensures Postings(es + [e], w) == Postings(es, w) + (if e.word == w then [e.posting] else [])
  {
    DropLast(es, e);
  }

  lemma {:induction false} CountWordEvents(d': nat, c': nat, chunk: string, words: seq<string>, w: string, d: nat, c: nat)
    ensures CountAt(Postings(WordEvents(d', c', chunk, words), w), d, c)
            == if d == d' && c == c' then multiset(words)[w] else 0
    decreases |words|
  {
    if words == [] {
      assert WordEvents(d', c', chunk, words) == [];
    } else {
      var n := |words| - 1;
      var p := Posting(d', c', chunk);
      var init := WordEvents(d', c', chunk, words[..n]);
      var ps0 := Postings(init, w);
      assert WordEvents(d', c', chunk, words) == init + [Event(words[n], p)];
      CountWordEvents(d', c', chunk, words[..n], w, d, c);
      PostingsSnoc(init, Event(words[n], p), w);
      assert multiset(words)[w] == multiset(words[..n])[w] + (if words[n] == w then 1 else 0) by {
        SplitLast(words);
      }
      if words[n] == w {
        assert Postings(WordEvents(d', c', chunk, words), w) == ps0 + [p];
        CountSnoc(ps0, p, d, c);
      } else {
        assert Postings(WordEvents(d', c', chunk, words), w) == ps0 + [];
        assert ps0 + [] == ps0;
      }
    }
  }

  lemma {:induction false} CountChunkEvents(d': nat, chunks: seq<string>, w: string, d: nat, c: nat)
    ensures CountAt(Postings(ChunkEvents(d', chunks), w), d, c)
            == if d == d' && c < |chunks| then multiset(ExtractKeywords(chunks[c]))[w] else 0
    decreases |chunks|
  {
    if chunks != [] {
      var n := |chunks| - 1;
      var rest := WordEvents(d', n, chunks[n], ExtractKeywords(chunks[n]));
      CountChunkEvents(d', chunks[..n], w, d, c);
      PostingsAppend(ChunkEvents(d', chunks[..n]), rest, w);
      CountAtAppend(Postings(ChunkEvents(d', chunks[..n]), w), Postings(rest, w), d, c);
      CountWordEvents(d', n, chunks[n], ExtractKeywords(chunks[n]), w, d, c);
      assert ChunkEvents(d', chunks) == ChunkEvents(d', chunks[..n]) + rest;
      if c < n {
        assert chunks[..n][c] == chunks[c];
      }
    }
  }

  lemma {:induction false} CountDocEvents(docs: seq<Doc>, w: string, d: nat, c: nat)
    ensures CountAt(Postings(DocEvents(docs), w), d, c)
            == if d < |docs| && c < |docs[d].chunks| then multiset(ExtractKeywords(docs[d].chunks[c]))[w] else 0
    decreases |docs|
  {
    if docs != [] {
      var n := |docs| - 1;
      var rest := ChunkEvents(n, docs[n].chunks);
      CountDocEvents(docs[..n], w, d, c);
      PostingsAppend(DocEvents(docs[..n]), rest, w);
      CountAtAppend(Postings(DocEvents(docs[..n]), w), Postings(rest, w), d, c);
      CountChunkEvents(n, docs[n].chunks, w, d, c);
    }
  }

  /** For every word and chunk, the index holds as many postings for the
      chunk under the word as the chunk has occurrences of the word among
      its keywords: repeats are not collapsed, and nothing else is there. */
  lemma {:induction false} PostingsCountOccurrences(docs: seq<Doc>, w: string, d: nat, c: nat)
    ensures CountAt(Lookup(BuildIndex(docs), w), d, c)
            == if d < |docs| && c < |docs[d].chunks| then multiset(ExtractKeywords(docs[d].chunks[c]))[w] else 0
  {
    InsertAllPostings(DocEvents(docs));
    CountDocEvents(docs, w, d, c);
  }

  // ---------------------------------------------------------------------
  // Postings are in document and chunk order

  /** `p` names a chunk no later than `q` does. */
  predicate Before(p: Posting, q: Posting) {
    p.docIndex < q.docIndex || (p.docIndex == q.docIndex && p.chunkIndex <= q.chunkIndex)
  }

  predicate Ordered(ps: seq<Posting>) {
    forall i, j :: 0 <= i < j < |ps| ==> Before(ps[i], ps[j])
  }

  ghost predicate EventsOrdered(es: seq<Event>) {
    forall i, j :: 0 <= i < j < |es| ==> Before(es[i].posting, es[j].posting)
  }

  lemma {:induction false} EventsOrderedAppend(a: seq<Event>, b: seq<Event>)
    requires EventsOrdered(a) && EventsOrdered(b)
    requires forall x, y :: x in a && y in b ==> Before(x.posting, y.posting)
    ensures EventsOrdered(a + b)
  {
    forall i, j | 0 <= i < j < |a + b| ensures Before((a + b)[i].posting, (a + b)[j].posting) {
      if j < |a| {
        assert (a + b)[i] == a[i] && (a + b)[j] == a[j];
      } else if i >= |a| {
        assert (a + b)[i] == b[i - |a|] && (a + b)[j] == b[j - |a|];
      } else {
        assert (a + b)[i] in a && (a + b)[j] in b;
      }
    }
  }

  lemma {:induction false} ChunkEventsOrdered(d: nat, chunks: seq<string>)
    ensures EventsOrdered(ChunkEvents(d, chunks))
    ensures forall e :: e in ChunkEvents(d, chunks) ==> e.posting.docIndex == d && e.posting.chunkIndex < |chunks|
    decreases |chunks|
  {
    if chunks != [] {
      var n := |chunks| - 1;
      var rest := WordEvents(d, n, chunks[n], ExtractKeywords(chunks[n]));
      ChunkEventsOrdered(d, chunks[..n]);
      forall e | e in rest ensures e.posting == Posting(d, n, chunks[n]) {
      }
      EventsOrderedAppend(ChunkEvents(d, chunks[..n]), rest);
    }
  }

  lemma {:induction false} DocEventsOrdered(docs: seq<Doc>)
    ensures EventsOrdered(DocEvents(docs))
    ensures forall e :: e in DocEvents(docs) ==> e.posting.docIndex < |docs|
    decreases |docs|
  {
    if docs != [] {
      var n := |docs| - 1;
      DocEventsOrdered(docs[..n]);
      ChunkEventsOrdered(n, docs[n].chunks);
      EventsOrderedAppend(DocEvents(docs[..n]), ChunkEvents(n, docs[n].chunks));
    }
  }

  lemma {:induction false} PostingsOrdered(es: seq<Event>, w: string)
    requires EventsOrdered(es)
    ensures Ordered(Postings(es, w))
    decreases |es|
  {
    if es != [] {
      var init := es[..|es| - 1];
      var last := es[|es| - 1];
      assert EventsOrdered(init);
      PostingsOrdered(init, w);
      var ps := Postings(es, w);
      if last.word == w {
        forall i, j | 0 <= i < j < |ps| ensures Before(ps[i], ps[j]) {
          if j == |ps| - 1 {
            assert Event(w, ps[i]) in init;
            var k :| 0 <= k < |init| && init[k] == Event(w, ps[i]);
            assert es[k] == init[k];
          }
        }
      }
    }
  }

  /** Under every key, the postings are in ascending (document, chunk)
      order. */
  lemma {:induction false} IndexOrdered(docs: seq<Doc>, w: string)
    ensures Ordered(Lookup(BuildIndex(docs), w))
  {
    InsertAllPostings(DocEvents(docs));
    DocEventsOrdered(docs);
    PostingsOrdered(DocEvents(docs), w);
  }
}
