/** The ranking half of `searchDocuments`: the map's entries are sorted by
    descending score with a stable sort, cut to `topK`, and each key is
    turned back into the chunk it names. */
module Ranking {
  import opened Text
  import opened Keywords
  import opened Indexing
  import opened Scoring

  /** `[key, score]`, as `Array.from(chunkScores.entries())` lists it. */
  datatype Entry = Entry(key: string, score: nat)

  /** The entries of the map, in insertion order. */
  function Entries(sm: ScoreMap): (es: seq<Entry>)
    ensures |es| == |sm.keys|
    ensures forall i :: 0 <= i < |es| ==> es[i] == Entry(sm.keys[i], Get(sm, sm.keys[i]))
  {
    seq(|sm.keys|, i requires 0 <= i < |sm.keys| => Entry(sm.keys[i], Get(sm, sm.keys[i])))
  }

  // ---------------------------------------------------------------------
  // `.sort((a, b) => b[1] - a[1])`, which is stable

  predicate NonIncreasing(es: seq<Entry>) {
    forall i, j :: 0 <= i < j < |es| ==> es[i].score >= es[j].score
  }

  /** The same order, one neighbour at a time. */
  predicate Sorted(es: seq<Entry>) {
    |es| <= 1 || (es[0].score >= es[1].score && Sorted(es[1..]))
  }

  /** In a sorted sequence no score exceeds the first. */
  lemma {:induction false} SortedHeadMax(es: seq<Entry>)
    requires Sorted(es) && es != []
    ensures forall i :: 0 <= i < |es| ==> es[i].score <= es[0].score
    decreases |es|
  {
    if |es| > 1 {
      var tail := es[1..];
      SortedHeadMax(tail);
      assert forall i :: 1 <= i < |es| ==> es[i] == tail[i - 1];
    }
  }

  /** A sorted sequence is in non-increasing order of score. */
  lemma {:induction false} SortedNonIncreasing(es: seq<Entry>)
    requires Sorted(es)
    ensures NonIncreasing(es)
    decreases |es|
  {
    if es != [] {
      var tail := es[1..];
      SortedNonIncreasing(tail);
      SortedHeadMax(es);
      forall i, j | 0 <= i < j < |es| ensures es[i].score >= es[j].score {
        if i > 0 {
          assert es[i] == tail[i - 1] && es[j] == tail[j - 1];
        }
      }
    }
  }

  /** Inserts `e` after the leading entries whose score is at least its
      own: into a sorted sequence, after every entry with a score at least
      its own. */
  function InsertDesc(e: Entry, sorted: seq<Entry>): seq<Entry> {
    if sorted == [] then [e]
    else if sorted[0].score >= e.score then [sorted[0]] + InsertDesc(e, sorted[1..])
    else [e] + sorted
  }

  /** Inserting adds `e` and loses nothing. */
  lemma {:induction false} InsertDescPermutes(e: Entry, sorted: seq<Entry>)
    ensures multiset(InsertDesc(e, sorted)) == multiset(sorted) + multiset{e}
    decreases |sorted|
  {
    if sorted != [] && sorted[0].score >= e.score {
      InsertDescPermutes(e, sorted[1..]);
      assert sorted == [sorted[0]] + sorted[1..];
    }
  }

  /** Inserting into a sorted sequence keeps it sorted. */
  lemma {:induction false} InsertDescSorted(e: Entry, sorted: seq<Entry>)
    requires Sorted(sorted)
    ensures Sorted(InsertDesc(e, sorted))
    ensures InsertDesc(e, sorted)[0] == if sorted != [] && sorted[0].score >= e.score then sorted[0] else e
    decreases |sorted|
  {
    if sorted != [] && sorted[0].score >= e.score {
      var rest := InsertDesc(e, sorted[1..]);
      InsertDescSorted(e, sorted[1..]);
      assert ([sorted[0]] + rest)[1..] == rest;
    } else if sorted != [] {
      assert ([e] + sorted)[1..] == sorted;
    }
  }

  /** A stable sort by descending score: an insertion sort that puts each
      entry after the earlier ones with the same score. */
  function SortDesc(es: seq<Entry>): (r: seq<Entry>)
    ensures Sorted(r)
    ensures multiset(r) == multiset(es)
  {
    if es == [] then []
    else
      var sorted := SortDesc(es[..|es| - 1]);
      SplitLast(es);
      InsertDescSorted(es[|es| - 1], sorted);
      InsertDescPermutes(es[|es| - 1], sorted);
      InsertDesc(es[|es| - 1], sorted)
  }

  /** The entries with score `s`, in order. */
  function WithScore(es: seq<Entry>, s: nat): seq<Entry> {
    if es == [] then []
    else WithScore(es[..|es| - 1], s) + (if es[|es| - 1].score == s then [es[|es| - 1]] else [])
  }

  lemma {:induction false} WithScoreCons(x: Entry, es: seq<Entry>, s: nat)
    ensures WithScore([x] + es, s) == (if x.score == s then [x] else []) + WithScore(es, s)
    decreases |es|
  {
    if es == [] {
      assert [x][..0] == [];
    } else {
      var n := |es| - 1;
      assert ([x] + es)[..|es|] == [x] + es[..n];
      WithScoreCons(x, es[..n], s);
    }
  }

  lemma {:induction false} WithScoreNone(es: seq<Entry>, s: nat)
    requires forall i :: 0 <= i < |es| ==> es[i].score != s
    ensures WithScore(es, s) == []
  {
    if es != [] {
      WithScoreNone(es[..|es| - 1], s);
    }
  }

  lemma {:induction false} WithScoreInsertFront(e: Entry, sorted: seq<Entry>, s: nat)
    requires Sorted(sorted) && sorted != [] && sorted[0].score < e.score
    ensures WithScore(InsertDesc(e, sorted), s)
            == WithScore(sorted, s) + (if e.score == s then [e] else [])
  {
    assert InsertDesc(e, sorted) == [e] + sorted;
    WithScoreCons(e, sorted, s);
    if e.score == s {
      SortedHeadMax(sorted);
      WithScoreNone(sorted, s);
    } else {
      assert WithScore(sorted, s) + [] == WithScore(sorted, s);
    }
  }

  /** Inserting `e` puts it after the entries of the same score. */
  lemma {:induction false} WithScoreInsert(e: Entry, sorted: seq<Entry>, s: nat)
    requires Sorted(sorted)
    ensures WithScore(InsertDesc(e, sorted), s)
            == WithScore(sorted, s) + (if e.score == s then [e] else [])
    decreases |sorted|
  {
    if sorted == [] {
      assert [e][..0] == [];
    } else if sorted[0].score >= e.score {
      var head := sorted[0];
      var tail := sorted[1..];
      var rest := InsertDesc(e, tail);
      assert InsertDesc(e, sorted) == [head] + rest;
      WithScoreInsert(e, tail, s);
      WithScoreCons(head, rest, s);
      WithScoreCons(head, tail, s);
      assert [head] + tail == sorted;
      AppendAssoc(if head.score == s then [head] else [], WithScore(tail, s), if e.score == s then [e] else []);
    } else {
      WithScoreInsertFront(e, sorted, s);
    }
  }

  /** The sort is stable: the entries of any one score come out in the
      order they went in. */
  lemma {:induction false} SortDescStable(es: seq<Entry>, s: nat)
    ensures WithScore(SortDesc(es), s) == WithScore(es, s)
    decreases |es|
  {
    if es != [] {
      var n := |es| - 1;
      SortDescStable(es[..n], s);
      WithScoreInsert(es[n], SortDesc(es[..n]), s);
    }
  }

  // ---------------------------------------------------------------------
  // `.slice(0, topK)`

  /** Where `slice(0, n)` ends on an array of length `len`: a negative `n`
      counts from the end. */
  function SliceEnd(len: nat, n: int): (e: nat)
    ensures e <= len
    ensures 0 <= n ==> e == if n < len then n else len
    ensures n < 0 ==> e == if len + n < 0 then 0 else len + n
  {
    if n < 0 then (if len + n < 0 then 0 else len + n)
    else if n < len then n else len
  }

  function Slice(es: seq<Entry>, n: int): seq<Entry> {
    es[..SliceEnd(|es|, n)]
  }

  // ---------------------------------------------------------------------
  // From entries to results

  /** `{content, filename, score}`. */
  datatype SearchResult = SearchResult(content: string, filename: string, score: nat)

  /** The key names a chunk of `docs`. */
  predicate Resolves(docs: seq<Doc>, key: string) {
    match ParseKey(key)
    case Some((d, c)) => d < |docs| && c < |docs[d].chunks|
    case None => false
  }

  /** The result for one entry: the chunk's text, its document's file name
      and the score. */
  function Resolve(docs: seq<Doc>, e: Entry): SearchResult
    requires Resolves(docs, e.key)
  {
    var (d, c) := ParseKey(e.key).value;
    SearchResult(docs[d].chunks[c], docs[d].filename, e.score)
  }

  /** The sorted entries that are kept. */
  function Ranked(sm: ScoreMap, topK: int): seq<Entry> {
    Slice(SortDesc(Entries(sm)), topK)
  }

  /** `rankedChunks`. */
  function Rank(docs: seq<Doc>, sm: ScoreMap, topK: int): (rs: seq<SearchResult>)
    requires forall k :: k in sm.keys ==> Resolves(docs, k)
    ensures |rs| == SliceEnd(|sm.keys|, topK)
  {
    var top := Ranked(sm, topK);
    assert forall i :: 0 <= i < |top| ==> top[i] in multiset(Entries(sm));
    seq(|top|, i requires 0 <= i < |top| => Resolve(docs, top[i]))
  }

  /** Every posting in the index names a chunk of `docs`. */
  ghost predicate IndexResolves(docs: seq<Doc>, index: Index) {
    forall w, p :: w in index && p in index[w] ==>
      p.docIndex < |docs| && p.chunkIndex < |docs[p.docIndex].chunks|
  }

  lemma {:induction false} ScoredKeysResolve(docs: seq<Doc>, index: Index, qs: seq<string>)
    requires IndexResolves(docs, index)
    ensures forall k :: k in Scores(index, qs).keys ==> Resolves(docs, k)
  {
    ScoredKeysFromHits(index, qs);
    forall k | k in Scores(index, qs).keys ensures Resolves(docs, k) {
      var p :| p in Hits(index, qs) && k == ChunkKey(p.docIndex, p.chunkIndex);
      HitsFromIndex(index, qs, p);
      ParseChunkKey(p.docIndex, p.chunkIndex);
    }
  }

  /** `searchDocuments(query, topK)`: nothing before the index is built or
      when no document is loaded, otherwise the ranked results. These are
      in non-increasing order of score, every score is at least one, and
      there are `min(topK, number of chunks scored)` of them for a
      non-negative `topK`. */
  function Search(docs: seq<Doc>, index: Index, isIndexed: bool, query: string, topK: int): (rs: seq<SearchResult>)
    requires IndexResolves(docs, index)
    ensures !isIndexed || |docs| == 0 ==> rs == []
    ensures isIndexed && |docs| > 0 && topK >= 0 ==>
              |rs| == Min(topK, |Scores(index, ExtractKeywords(query)).keys|)
    ensures forall i, j :: 0 <= i < j < |rs| ==> rs[i].score >= rs[j].score
    ensures forall i :: 0 <= i < |rs| ==> rs[i].score >= 1
  {
    if !isIndexed || |docs| == 0 then []
    else
      var qs := ExtractKeywords(query);
      var sm := Scores(index, qs);
      ScoredKeysResolve(docs, index, qs);
      ScoredKeysFromHits(index, qs);
      RankShape(docs, sm, topK);
      Rank(docs, sm, topK)
  }

  // ---------------------------------------------------------------------
  // What searchDocuments promises

  /** The ranked results keep the order and the scores of the sorted
      entries they come from. */
  lemma {:induction false} RankShape(docs: seq<Doc>, sm: ScoreMap, topK: int)
    requires forall k :: k in sm.keys ==> Resolves(docs, k)
    requires forall k :: k in sm.keys ==> Get(sm, k) >= 1
    ensures var rs := Rank(docs, sm, topK);
            && (forall i, j :: 0 <= i < j < |rs| ==> rs[i].score >= rs[j].score)
            && (forall i :: 0 <= i < |rs| ==> rs[i].score >= 1)
  {
    var rs := Rank(docs, sm, topK);
    var top := Ranked(sm, topK);
    RankedOrder(sm, topK);
    forall i | 0 <= i < |top| ensures top[i].score >= 1 {
      RankedFromEntries(sm, topK, i);
    }
    assert forall i :: 0 <= i < |rs| ==> rs[i].score == top[i].score;
  }

  /** The kept entries are in non-increasing order of score. */
  lemma {:induction false} RankedOrder(sm: ScoreMap, topK: int)
    ensures NonIncreasing(Ranked(sm, topK))
  {
    var sorted := SortDesc(Entries(sm));
    var top := Ranked(sm, topK);
    SortedNonIncreasing(sorted);
    assert forall i :: 0 <= i < |top| ==> top[i] == sorted[i];
  }

  function Min(a: int, b: int): int {
    if a < b then a else b
  }

  /** A kept entry is one of the map's entries. */
  lemma {:induction false} RankedFromEntries(sm: ScoreMap, topK: int, i: nat)
    requires i < |Ranked(sm, topK)|
    ensures exists j :: 0 <= j < |sm.keys| && Ranked(sm, topK)[i] == Entry(sm.keys[j], Get(sm, sm.keys[j]))
  {
    var sorted := SortDesc(Entries(sm));
    assert Ranked(sm, topK)[i] == sorted[i];
    assert sorted[i] in multiset(Entries(sm));
    var j :| 0 <= j < |Entries(sm)| && Entries(sm)[j] == sorted[i];
  }

  /** The index built from `docs` names only chunks of `docs`. */
  lemma {:induction false} BuiltIndexResolves(docs: seq<Doc>)
    ensures IndexResolves(docs, BuildIndex(docs))
  {
    IndexPostingsWellFormed(docs);
  }

  /** `r` is the result for chunk `c` of document `d`: its text, its
      document's file name, and as score the chunk's number of keyword
      occurrences that match the query keywords, at least one. */
  predicate ResultOf(docs: seq<Doc>, query: string, r: SearchResult, d: nat, c: nat) {
    && d < |docs| && c < |docs[d].chunks|
    && var m := Matches(ExtractKeywords(query), ExtractKeywords(docs[d].chunks[c]));
    && m >= 1
    && r == SearchResult(docs[d].chunks[c], docs[d].filename, m)
  }

  /** Each result of a search over the index built from `docs` is the
      result for one of their chunks. */
  lemma {:induction false} SearchContent(docs: seq<Doc>, isIndexed: bool, query: string, topK: int, i: nat)
    requires IndexResolves(docs, BuildIndex(docs))
    requires i < |Search(docs, BuildIndex(docs), isIndexed, query, topK)|
    ensures exists d, c :: ResultOf(docs, query, Search(docs, BuildIndex(docs), isIndexed, query, topK)[i], d, c)
  {
    var index := BuildIndex(docs);
    var qs := ExtractKeywords(query);
    var sm := Scores(index, qs);
    ScoredKeysResolve(docs, index, qs);
    var rs := Search(docs, index, isIndexed, query, topK);
    assert rs == Rank(docs, sm, topK);
    RankedFromEntries(sm, topK, i);
    var j :| 0 <= j < |sm.keys| && Ranked(sm, topK)[i] == Entry(sm.keys[j], Get(sm, sm.keys[j]));
    var d, c := ScoredKeyIsChunk(docs, qs, sm.keys[j]);
    ParseChunkKey(d, c);
    assert rs[i] == SearchResult(docs[d].chunks[c], docs[d].filename, Get(sm, sm.keys[j]));
    assert ResultOf(docs, query, rs[i], d, c);
  }

  /** `key` is the key of chunk `c` of document `d`, and its score is the
      chunk's number of keyword occurrences matching `qs`, at least one. */
  ghost predicate ChunkScored(docs: seq<Doc>, qs: seq<string>, key: string, d: nat, c: nat) {
    && key == ChunkKey(d, c)
    && d < |docs| && c < |docs[d].chunks|
    && Get(Scores(BuildIndex(docs), qs), key) == Matches(qs, ExtractKeywords(docs[d].chunks[c]))
    && Get(Scores(BuildIndex(docs), qs), key) >= 1
  }

  /** Every key the search scores names a chunk, scored by its matches. */
  lemma {:induction false} ScoredKeyIsChunk(docs: seq<Doc>, qs: seq<string>, key: string) returns (d: nat, c: nat)
    requires IndexResolves(docs, BuildIndex(docs))
    requires key in Scores(BuildIndex(docs), qs).keys
    ensures ChunkScored(docs, qs, key, d, c)
  {
    var index := BuildIndex(docs);
    ScoredKeysFromHits(index, qs);
    var p :| p in Hits(index, qs) && key == ChunkKey(p.docIndex, p.chunkIndex);
    d, c := p.docIndex, p.chunkIndex;
    HitsFromIndex(index, qs, p);
    ScoresCountPostings(index, qs, d, c);
    ScoreCountsMatches(docs, qs, d, c);
    assert ChunkScored(docs, qs, key, d, c);
  }

  /** Results of equal score keep the order in which their chunks were
      first scored: query keyword order, then posting order. */
  lemma {:induction false} TiesKeepFirstScoredOrder(index: Index, qs: seq<string>, s: nat)
    ensures WithScore(SortDesc(Entries(Scores(index, qs))), s) == WithScore(Entries(Scores(index, qs)), s)
    ensures Scores(index, qs).keys == FirstOccurrences(HitKeys(Hits(index, qs)))
  {
    SortDescStable(Entries(Scores(index, qs)), s);
    TallyCounts(HitKeys(Hits(index, qs)));
  }

  // ---------------------------------------------------------------------
  // The kept entries are the best ones, each once

  /** The keys of entries, in order. */
  function KeysOf(es: seq<Entry>): (ks: seq<string>)
    ensures |ks| == |es|
    ensures forall i :: 0 <= i < |es| ==> ks[i] == es[i].key
  {
    seq(|es|, i requires 0 <= i < |es| => es[i].key)
  }

  /** An entry occurs at most once among entries with distinct keys. */
  lemma {:induction false} DistinctCount(es: seq<Entry>, e: Entry)
    requires Distinct(KeysOf(es))
    ensures multiset(es)[e] <= 1
    decreases |es|
  {
    if es != [] {
      var n := |es| - 1;
      var init := es[..n];
      assert es == init + [es[n]];
      assert KeysOf(init) == KeysOf(es)[..n];
      DistinctCount(init, e);
      if e == es[n] {
        forall i | 0 <= i < n ensures init[i] != e {
          assert KeysOf(es)[i] != KeysOf(es)[n];
        }
        assert e !in init;
      }
    }
  }

  /** An element at two positions occurs at least twice. */
  lemma {:induction false} TwoCount<T>(s: seq<T>, i: nat, j: nat)
    requires i < j < |s| && s[i] == s[j]
    ensures multiset(s)[s[i]] >= 2
  {
    assert s == s[..j] + s[j..];
    assert s[..j][i] == s[i];
    assert s[j..][0] == s[j];
  }

  /** The entries of a map whose keys are distinct have distinct keys. */
  lemma {:induction false} EntriesDistinct(sm: ScoreMap)
    requires Distinct(sm.keys)
    ensures Distinct(KeysOf(Entries(sm)))
  {
    assert KeysOf(Entries(sm)) == sm.keys;
  }

  /** Every kept entry is one of the map's entries. */
  lemma {:induction false} RankedFromMap(sm: ScoreMap, topK: int)
    ensures var top := Ranked(sm, topK);
            forall i :: 0 <= i < |top| ==> top[i].key in sm.keys && top[i].score == Get(sm, top[i].key)
  {
    var top := Ranked(sm, topK);
    forall i | 0 <= i < |top| ensures top[i].key in sm.keys && top[i].score == Get(sm, top[i].key) {
      RankedFromEntries(sm, topK, i);
    }
  }

  /** With distinct keys in the map, no key is kept twice. */
  lemma {:induction false} RankedDistinct(sm: ScoreMap, topK: int)
    requires Distinct(sm.keys)
    ensures Distinct(KeysOf(Ranked(sm, topK)))
  {
    var es := Entries(sm);
    var sorted := SortDesc(es);
    var top := Ranked(sm, topK);
    EntriesDistinct(sm);
    forall i, j | 0 <= i < j < |top| ensures KeysOf(top)[i] != KeysOf(top)[j] {
      assert top[i] == sorted[i] && top[j] == sorted[j];
      if top[i].key == top[j].key {
        RankedFromEntries(sm, topK, i);
        RankedFromEntries(sm, topK, j);
        TwoCount(sorted, i, j);
        DistinctCount(es, sorted[i]);
      }
    }
  }

  /** A key left out scores no more than the last entry kept, and for a
      non-negative `topK` is left out only when `topK` entries are kept. */
  lemma {:induction false} RankedLeftOut(sm: ScoreMap, topK: int, k: string)
    requires k in sm.keys && k !in KeysOf(Ranked(sm, topK))
    ensures var top := Ranked(sm, topK);
            && (topK >= 0 ==> |top| == topK)
            && (top != [] ==> Get(sm, k) <= top[|top| - 1].score)
  {
    var es := Entries(sm);
    var sorted := SortDesc(es);
    var top := Ranked(sm, topK);
    assert |sorted| == |es| by {
      assert |multiset(sorted)| == |multiset(es)|;
    }
    var j :| 0 <= j < |sm.keys| && sm.keys[j] == k;
    assert es[j] in multiset(sorted);
    var p :| 0 <= p < |sorted| && sorted[p] == es[j];
    forall i | 0 <= i < |top| ensures sorted[i].key != k {
      assert top[i] == sorted[i];
      assert KeysOf(top)[i] in KeysOf(top);
    }
    assert p >= |top|;
    SortedNonIncreasing(sorted);
    if top != [] {
      assert top[|top| - 1] == sorted[|top| - 1];
    }
  }

  /** With distinct keys in the map, the kept entries are map entries with
      distinct keys, and every key left out scores no more than the last
      entry kept; for a non-negative `topK` a key is left out only when
      `topK` entries are kept. */
  lemma {:induction false} RankedTop(sm: ScoreMap, topK: int)
    requires Distinct(sm.keys)
    ensures var top := Ranked(sm, topK);
            && (forall i :: 0 <= i < |top| ==> top[i].key in sm.keys && top[i].score == Get(sm, top[i].key))
            && Distinct(KeysOf(top))
            && (forall k :: k in sm.keys && k !in KeysOf(top) ==>
                  && (topK >= 0 ==> |top| == topK)
                  && (top != [] ==> Get(sm, k) <= top[|top| - 1].score))
  {
    RankedFromMap(sm, topK);
    RankedDistinct(sm, topK);
    forall k | k in sm.keys && k !in KeysOf(Ranked(sm, topK))
      ensures (topK >= 0 ==> |Ranked(sm, topK)| == topK)
      ensures Ranked(sm, topK) != [] ==> Get(sm, k) <= Ranked(sm, topK)[|Ranked(sm, topK)| - 1].score
    {
      RankedLeftOut(sm, topK, k);
    }
  }

  /** The chunk has at least one keyword occurrence matching the query. */
  predicate Relevant(docs: seq<Doc>, query: string, d: nat, c: nat) {
    && d < |docs| && c < |docs[d].chunks|
    && Matches(ExtractKeywords(query), ExtractKeywords(docs[d].chunks[c])) >= 1
  }

  /** A scored key is the key of the chunk it parses to. */
  lemma {:induction false} ScoredKeyParses(docs: seq<Doc>, qs: seq<string>, key: string)
    requires IndexResolves(docs, BuildIndex(docs))
    requires key in Scores(BuildIndex(docs), qs).keys
    ensures ParseKey(key).Some?
    ensures ChunkScored(docs, qs, key, ParseKey(key).value.0, ParseKey(key).value.1)
  {
    var d, c := ScoredKeyIsChunk(docs, qs, key);
    ParseChunkKey(d, c);
  }

  /** The chunk each entry's key names, `(0, 0)` for a key that is not a
      chunk key. */
  function ChunksOf(top: seq<Entry>): (chunks: seq<(nat, nat)>)
    ensures |chunks| == |top|
    ensures forall i :: 0 <= i < |top| && ParseKey(top[i].key).Some? ==> chunks[i] == ParseKey(top[i].key).value
  {
    seq(|top|, i requires 0 <= i < |top| => if ParseKey(top[i].key).Some? then ParseKey(top[i].key).value else (0, 0))
  }

  /** Over an index built from `docs`, searching is ranking the scores. */
  lemma {:induction false} SearchIsRank(docs: seq<Doc>, query: string, topK: int)
    requires IndexResolves(docs, BuildIndex(docs)) && docs != []
    ensures forall k :: k in Scores(BuildIndex(docs), ExtractKeywords(query)).keys ==> Resolves(docs, k)
    ensures Search(docs, BuildIndex(docs), true, query, topK)
            == Rank(docs, Scores(BuildIndex(docs), ExtractKeywords(query)), topK)
  {
    ScoredKeysResolve(docs, BuildIndex(docs), ExtractKeywords(query));
  }

  /** The kept entries of the scores over the index built from `docs`: the
      chunk each names is scored by its matches. */
  lemma {:induction false} TopScored(docs: seq<Doc>, qs: seq<string>, topK: int)
    requires IndexResolves(docs, BuildIndex(docs))
    ensures var top := Ranked(Scores(BuildIndex(docs), qs), topK);
            forall i :: 0 <= i < |top| ==>
              && ParseKey(top[i].key).Some?
              && ChunkScored(docs, qs, top[i].key, ChunksOf(top)[i].0, ChunksOf(top)[i].1)
              && top[i].score == Get(Scores(BuildIndex(docs), qs), top[i].key)
  {
    var sm := Scores(BuildIndex(docs), qs);
    var top := Ranked(sm, topK);
    RankedFromMap(sm, topK);
    forall i | 0 <= i < |top|
      ensures ParseKey(top[i].key).Some?
      ensures ChunkScored(docs, qs, top[i].key, ChunksOf(top)[i].0, ChunksOf(top)[i].1)
    {
      ScoredKeyParses(docs, qs, top[i].key);
    }
  }

  /** Each result is the result for the chunk its entry names. */
  lemma {:induction false} SearchResultsOf(docs: seq<Doc>, query: string, topK: int)
    requires IndexResolves(docs, BuildIndex(docs)) && docs != []
    ensures var rs := Search(docs, BuildIndex(docs), true, query, topK);
            var top := Ranked(Scores(BuildIndex(docs), ExtractKeywords(query)), topK);
            && |rs| == |top|
            && (forall i :: 0 <= i < |rs| ==> rs[i].score == top[i].score)
            && (forall i :: 0 <= i < |rs| ==> ResultOf(docs, query, rs[i], ChunksOf(top)[i].0, ChunksOf(top)[i].1))
  {
    var qs := ExtractKeywords(query);
    var sm := Scores(BuildIndex(docs), qs);
    var top := Ranked(sm, topK);
    var rs := Search(docs, BuildIndex(docs), true, query, topK);
    SearchIsRank(docs, query, topK);
    TopScored(docs, qs, topK);
    forall i | 0 <= i < |rs|
      ensures rs[i].score == top[i].score
      ensures ResultOf(docs, query, rs[i], ChunksOf(top)[i].0, ChunksOf(top)[i].1)
    {
      assert rs[i] == Resolve(docs, top[i]);
    }
  }

  /** Distinct chunk keys name distinct chunks. */
  lemma {:induction false} ChunksOfDistinct(docs: seq<Doc>, qs: seq<string>, topK: int)
    requires IndexResolves(docs, BuildIndex(docs))
    ensures var chunks := ChunksOf(Ranked(Scores(BuildIndex(docs), qs), topK));
            forall i, j :: 0 <= i < j < |chunks| ==> chunks[i] != chunks[j]
  {
    var sm := Scores(BuildIndex(docs), qs);
    var top := Ranked(sm, topK);
    var chunks := ChunksOf(top);
    ScoresCountPostings(BuildIndex(docs), qs, 0, 0);
    RankedDistinct(sm, topK);
    TopScored(docs, qs, topK);
    forall i, j | 0 <= i < j < |chunks| ensures chunks[i] != chunks[j] {
      assert KeysOf(top)[i] != KeysOf(top)[j];
    }
  }

  /** A relevant chunk whose key is not kept scores no more than the last
      kept entry, and is left out only when `topK` entries are kept. */
  lemma {:induction false} RelevantLeftOut(docs: seq<Doc>, qs: seq<string>, topK: int, d: nat, c: nat)
    requires IndexResolves(docs, BuildIndex(docs))
    requires d < |docs| && c < |docs[d].chunks| && Matches(qs, ExtractKeywords(docs[d].chunks[c])) >= 1
    requires (d, c) !in ChunksOf(Ranked(Scores(BuildIndex(docs), qs), topK))
    ensures var top := Ranked(Scores(BuildIndex(docs), qs), topK);
            && (topK >= 0 ==> |top| == topK)
            && (top != [] ==> Matches(qs, ExtractKeywords(docs[d].chunks[c])) <= top[|top| - 1].score)
  {
    ChunkKeyScored(docs, qs, d, c);
    ChunkKeyNotKept(docs, qs, topK, d, c);
    RankedLeftOut(Scores(BuildIndex(docs), qs), topK, ChunkKey(d, c));
  }

  /** A relevant chunk's key is scored, by the chunk's matches. */
  lemma {:induction false} ChunkKeyScored(docs: seq<Doc>, qs: seq<string>, d: nat, c: nat)
    requires d < |docs| && c < |docs[d].chunks| && Matches(qs, ExtractKeywords(docs[d].chunks[c])) >= 1
    ensures ChunkKey(d, c) in Scores(BuildIndex(docs), qs).keys
    ensures Get(Scores(BuildIndex(docs), qs), ChunkKey(d, c)) == Matches(qs, ExtractKeywords(docs[d].chunks[c]))
  {
    var index := BuildIndex(docs);
    ScoresCountPostings(index, qs, d, c);
    ScoreCountsMatches(docs, qs, d, c);
    TallyCounts(HitKeys(Hits(index, qs)));
  }

  /** A chunk that is not among the kept chunks has its key not kept. */
  lemma {:induction false} ChunkKeyNotKept(docs: seq<Doc>, qs: seq<string>, topK: int, d: nat, c: nat)
    requires IndexResolves(docs, BuildIndex(docs))
    requires (d, c) !in ChunksOf(Ranked(Scores(BuildIndex(docs), qs), topK))
    ensures ChunkKey(d, c) !in KeysOf(Ranked(Scores(BuildIndex(docs), qs), topK))
  {
    var top := Ranked(Scores(BuildIndex(docs), qs), topK);
    var chunks := ChunksOf(top);
    TopScored(docs, qs, topK);
    ParseChunkKey(d, c);
    forall i | 0 <= i < |top| ensures KeysOf(top)[i] != ChunkKey(d, c) {
      assert chunks[i] in chunks;
      assert ParseKey(top[i].key) == Some(chunks[i]);
    }
  }

  /** A search over the index built from `docs` returns the results of
      distinct chunks, and leaves out a relevant chunk only when it scores
      no more than the last result and, for a non-negative `topK`, `topK`
      results are returned: the best-scoring chunks, each once. */
  lemma {:induction false} SearchTopChunks(docs: seq<Doc>, query: string, topK: int) returns (chunks: seq<(nat, nat)>)
    requires IndexResolves(docs, BuildIndex(docs))
    ensures var rs := Search(docs, BuildIndex(docs), true, query, topK);
            && |chunks| == |rs|
            && (forall i :: 0 <= i < |rs| ==> ResultOf(docs, query, rs[i], chunks[i].0, chunks[i].1))
            && (forall i, j :: 0 <= i < j < |chunks| ==> chunks[i] != chunks[j])
            && (forall d: nat, c: nat :: Relevant(docs, query, d, c) && (d, c) !in chunks ==>
                  && (topK >= 0 ==> |rs| == topK)
                  && (rs != [] ==> Matches(ExtractKeywords(query), ExtractKeywords(docs[d].chunks[c])) <= rs[|rs| - 1].score))
  {
    if docs == [] {
      chunks := [];
    } else {
      var qs := ExtractKeywords(query);
      var top := Ranked(Scores(BuildIndex(docs), qs), topK);
      var rs := Search(docs, BuildIndex(docs), true, query, topK);
      chunks := ChunksOf(top);
      SearchResultsOf(docs, query, topK);
      ChunksOfDistinct(docs, qs, topK);
      SearchLeavesOut(docs, query, topK);
    }
  }

  lemma {:induction false} SearchLeavesOut(docs: seq<Doc>, query: string, topK: int)
    requires IndexResolves(docs, BuildIndex(docs)) && docs != []
    ensures var rs := Search(docs, BuildIndex(docs), true, query, topK);
            var chunks := ChunksOf(Ranked(Scores(BuildIndex(docs), ExtractKeywords(query)), topK));
            forall d: nat, c: nat :: Relevant(docs, query, d, c) && (d, c) !in chunks ==>
              && (topK >= 0 ==> |rs| == topK)
              && (rs != [] ==> Matches(ExtractKeywords(query), ExtractKeywords(docs[d].chunks[c])) <= rs[|rs| - 1].score)
  {
    var qs := ExtractKeywords(query);
    var top := Ranked(Scores(BuildIndex(docs), qs), topK);
    var rs := Search(docs, BuildIndex(docs), true, query, topK);
    var chunks := ChunksOf(top);
    SearchResultsOf(docs, query, topK);
    forall d: nat, c: nat | Relevant(docs, query, d, c) && (d, c) !in chunks
      ensures topK >= 0 ==> |rs| == topK
      ensures rs != [] ==> Matches(qs, ExtractKeywords(docs[d].chunks[c])) <= rs[|rs| - 1].score
    {
      RelevantLeftOut(docs, qs, topK, d, c);
    }
  }
}
