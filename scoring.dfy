/** The scoring half of `searchDocuments`: every posting found under a
    query keyword adds one to the score of its chunk, kept in a `Map` keyed
    by the string `"d-c"`. */
module Scoring {
  import opened Text
  import opened Keywords
  import opened Indexing

  // ---------------------------------------------------------------------
  // Chunk keys

  /** The template literal `${docIndex}-${chunkIndex}`. */
  function ChunkKey(d: nat, c: nat): string {
    NatToString(d) + "-" + NatToString(c)
  }

  /** `key.split('-').map(Number)`, for keys made of two runs of decimal
      digits around one `-`; any other string is not a chunk key. */
  function ParseKey(key: string): Option<(nat, nat)> {
    var parts := SplitOn(key, "-");
    if |parts| == 2 && AllDigits(parts[0]) && AllDigits(parts[1])
    then Some((DigitsValue(parts[0]), DigitsValue(parts[1])))
    else None
  }

  lemma {:induction false} NoDash(s: string)
    requires AllDigits(s)
    ensures '-' !in s
  {
    assert forall i :: 0 <= i < |s| ==> s[i] != '-';
  }

  /** A chunk key parses back to its document and chunk index. */
  lemma {:induction false} ParseChunkKey(d: nat, c: nat)
    ensures ParseKey(ChunkKey(d, c)) == Some((d, c))
  {
    var a := NatToString(d);
    var b := NatToString(c);
    assert [a, b][1..] == [b];
    assert Join([a, b], "-") == ChunkKey(d, c);
    NoDash(a);
    NoDash(b);
    SplitOnJoin([a, b], '-');
    DigitsValueNatToString(d);
    DigitsValueNatToString(c);
  }

  /** Different chunks have different keys. */
  lemma {:induction false} ChunkKeyInjective(d: nat, c: nat, d': nat, c': nat)
    requires ChunkKey(d, c) == ChunkKey(d', c')
    ensures d == d' && c == c'
  {
    ParseChunkKey(d, c);
    ParseChunkKey(d', c');
  }

  // ---------------------------------------------------------------------
  // The score map

  /** A JavaScript `Map` from keys to scores: `keys` is its insertion order. */
  datatype ScoreMap = ScoreMap(keys: seq<string>, score: map<string, nat>)

  const NoScores := ScoreMap([], map[])

  /** `chunkScores.get(key) || 0`. */
  function Get(sm: ScoreMap, key: string): nat {
    if key in sm.score then sm.score[key] else 0
  }

  /** `chunkScores.set(key, value)`: a new key goes to the end of the
      insertion order, an existing one keeps its place. */
  function Put(sm: ScoreMap, key: string, value: nat): ScoreMap {
    ScoreMap(if key in sm.score then sm.keys else sm.keys + [key], sm.score[key := value])
  }

  /** One more for `key`. */
  function Bump(sm: ScoreMap, key: string): ScoreMap {
    Put(sm, key, Get(sm, key) + 1)
  }

  /** The map after bumping `ks` in order, starting from an empty map. */
  function Tally(ks: seq<string>): ScoreMap {
    if ks == [] then NoScores else Bump(Tally(ks[..|ks| - 1]), ks[|ks| - 1])
  }

  predicate Distinct(ks: seq<string>) {
    forall i, j :: 0 <= i < j < |ks| ==> ks[i] != ks[j]
  }

  /** The keys of `ks` in the order of their first occurrence. */
  function FirstOccurrences(ks: seq<string>): (r: seq<string>)
    ensures forall k :: k in r <==> k in ks
    ensures Distinct(r)
  {
    if ks == [] then []
    else
      var init := FirstOccurrences(ks[..|ks| - 1]);
      var k := ks[|ks| - 1];
      assert forall x :: x in ks <==> x in ks[..|ks| - 1] || x == k by {
        SplitLast(ks);
      }
      if k in init then init else init + [k]
  }

  /** After the bumps `ks`: the insertion order is the order of first
      occurrence, the keys are exactly the bumped ones, and each score is
      the number of times its key was bumped. */
  lemma {:induction false} TallyCounts(ks: seq<string>)
    ensures Tally(ks).keys == FirstOccurrences(ks)
    ensures Tally(ks).score.Keys == set k | k in ks
    ensures forall k :: Get(Tally(ks), k) == multiset(ks)[k]
    decreases |ks|
  {
    if ks != [] {
      var init := ks[..|ks| - 1];
      var k := ks[|ks| - 1];
      TallyCounts(init);
      SplitLast(ks);
      assert forall x :: multiset(ks)[x] == multiset(init)[x] + (if x == k then 1 else 0);
    }
  }

  // ---------------------------------------------------------------------
  // The postings a query finds

  /** `matches` for each query keyword in turn, concatenated: the order in
      which the nested loops visit postings. */
  function Hits(index: Index, qs: seq<string>): seq<Posting> {
    if qs == [] then [] else Hits(index, qs[..|qs| - 1]) + Lookup(index, qs[|qs| - 1])
  }

  /** The chunk keys of `ps`, in order. */
  function HitKeys(ps: seq<Posting>): (ks: seq<string>)
    ensures |ks| == |ps|
    ensures forall i :: 0 <= i < |ps| ==> ks[i] == ChunkKey(ps[i].docIndex, ps[i].chunkIndex)
  {
    seq(|ps|, i requires 0 <= i < |ps| => ChunkKey(ps[i].docIndex, ps[i].chunkIndex))
  }

  /** `chunkScores` once the query keywords `qs` are processed. */
  function Scores(index: Index, qs: seq<string>): ScoreMap {
    Tally(HitKeys(Hits(index, qs)))
  }

  lemma {:induction false} HitKeysAppend(a: seq<Posting>, b: seq<Posting>)
    ensures HitKeys(a + b) == HitKeys(a) + HitKeys(b)
  {
  }

  /** A chunk's key occurs in the keys of `ps` as often as `ps` has
      postings for the chunk. */
  lemma {:induction false} HitKeysCount(ps: seq<Posting>, d: nat, c: nat)
    ensures multiset(HitKeys(ps))[ChunkKey(d, c)] == CountAt(ps, d, c)
    decreases |ps|
  {
    if ps != [] {
      var n := |ps| - 1;
      var p := ps[n];
      HitKeysCount(ps[..n], d, c);
      SplitLast(ps);
      HitKeysAppend(ps[..n], [p]);
      if ChunkKey(p.docIndex, p.chunkIndex) == ChunkKey(d, c) {
        ChunkKeyInjective(p.docIndex, p.chunkIndex, d, c);
      }
      assert HitKeys([p]) == [ChunkKey(p.docIndex, p.chunkIndex)];
    }
  }

  /** The score a chunk would get from the query keywords `qs`: for each
      keyword, counted with repeats, the number of the chunk's postings
      under it. */
  function ScoreOf(index: Index, qs: seq<string>, d: nat, c: nat): nat {
    if qs == [] then 0 else ScoreOf(index, qs[..|qs| - 1], d, c) + CountAt(Lookup(index, qs[|qs| - 1]), d, c)
  }

  lemma {:induction false} HitsCount(index: Index, qs: seq<string>, d: nat, c: nat)
    ensures CountAt(Hits(index, qs), d, c) == ScoreOf(index, qs, d, c)
    decreases |qs|
  {
    if qs != [] {
      HitsCount(index, qs[..|qs| - 1], d, c);
      CountAtAppend(Hits(index, qs[..|qs| - 1]), Lookup(index, qs[|qs| - 1]), d, c);
    }
  }

  /** The score of a chunk is the number of its postings under the query
      keywords, each keyword counted as often as it occurs in the query;
      the chunks with a key are exactly those with a positive score, and
      they are in the order they were first scored. */
  lemma {:induction false} ScoresCountPostings(index: Index, qs: seq<string>, d: nat, c: nat)
    ensures Get(Scores(index, qs), ChunkKey(d, c)) == ScoreOf(index, qs, d, c)
    ensures ChunkKey(d, c) in Scores(index, qs).score <==> ScoreOf(index, qs, d, c) > 0
    ensures Scores(index, qs).keys == FirstOccurrences(HitKeys(Hits(index, qs)))
  {
    var ks := HitKeys(Hits(index, qs));
    TallyCounts(ks);
    HitKeysCount(Hits(index, qs), d, c);
    HitsCount(index, qs, d, c);
  }

  /** Every key in the map is the key of a chunk one of the postings found
      names, and scores at least one. */
  lemma {:induction false} ScoredKeysFromHits(index: Index, qs: seq<string>)
    ensures forall k :: k in Scores(index, qs).keys ==>
              Get(Scores(index, qs), k) >= 1 &&
              exists p :: p in Hits(index, qs) && k == ChunkKey(p.docIndex, p.chunkIndex)
  {
    var ks := HitKeys(Hits(index, qs));
    TallyCounts(ks);
    forall k | k in Scores(index, qs).keys
      ensures Get(Scores(index, qs), k) >= 1
      ensures exists p :: p in Hits(index, qs) && k == ChunkKey(p.docIndex, p.chunkIndex)
    {
      var i :| 0 <= i < |ks| && ks[i] == k;
      assert Hits(index, qs)[i] in Hits(index, qs);
    }
  }

  /** Every posting found is one of the postings under a query keyword. */
  lemma {:induction false} HitsFromIndex(index: Index, qs: seq<string>, p: Posting)
    requires p in Hits(index, qs)
    ensures exists q :: q in qs && q in index && p in index[q]
    decreases |qs|
  {
    var n := |qs| - 1;
    SplitLast(qs);
    if p in Hits(index, qs[..n]) {
      HitsFromIndex(index, qs[..n], p);
      var q :| q in qs[..n] && q in index && p in index[q];
      assert q in qs;
    } else {
      assert qs[n] in qs;
    }
  }

  /** With the index built from `docs`, the score of a chunk is the number
      of its keyword occurrences that match a query keyword, each query
      keyword counted as often as it occurs in the query. */
  function Matches(qs: seq<string>, keywords: seq<string>): nat {
    if qs == [] then 0 else Matches(qs[..|qs| - 1], keywords) + multiset(keywords)[qs[|qs| - 1]]
  }

  lemma {:induction false} ScoreCountsMatches(docs: seq<Doc>, qs: seq<string>, d: nat, c: nat)
    ensures ScoreOf(BuildIndex(docs), qs, d, c)
            == if d < |docs| && c < |docs[d].chunks| then Matches(qs, ExtractKeywords(docs[d].chunks[c])) else 0
    decreases |qs|
  {
    if qs != [] {
      ScoreCountsMatches(docs, qs[..|qs| - 1], d, c);
      PostingsCountOccurrences(docs, qs[|qs| - 1], d, c);
    }
  }
}
