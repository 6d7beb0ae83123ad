/** `chunkDocument`: a document's text is split into paragraphs at every
    blank line (`"\n\n"`), and consecutive paragraphs are gathered into
    chunks of roughly `chunkSize` characters, flushing the accumulated text
    before a paragraph that would make it too long. */
module Chunker {
  import opened Text

  const DefaultChunkSize: nat := 500
  const ParagraphBreak: string := "\n\n"

  /** The paragraphs of a text, in order; joined back with blank lines they
      give the text. */
  function Paragraphs(content: string): (ps: seq<string>)
    ensures |ps| >= 1
  {
    SplitOn(content, ParagraphBreak)
  }

  /** What the loop of `chunkDocument` holds between two paragraphs: the
      chunks pushed so far and the accumulated text. */
  datatype ChunkState = ChunkState(chunks: seq<string>, current: string)

  /** One iteration of the loop. The length test counts the accumulated
      text and the paragraph, not the separator the append adds. */
  function Step(st: ChunkState, paragraph: string, chunkSize: nat): ChunkState {
    if |st.current + paragraph| > chunkSize && |st.current| > 0 then
      ChunkState(st.chunks + [Trim(st.current)], paragraph)
    else
      ChunkState(st.chunks, st.current + ParagraphBreak + paragraph)
  }

  /** The loop run over `ps`. Every chunk it pushes is trimmed, and it pushes
      at most one chunk per paragraph. */
  function Scan(ps: seq<string>, chunkSize: nat): (st: ChunkState)
    ensures |st.chunks| <= |ps|
    ensures ps != [] ==> |st.chunks| < |ps|
    ensures forall k :: 0 <= k < |st.chunks| ==> Trimmed(st.chunks[k])
  {
    if ps == [] then ChunkState([], "")
    else Step(Scan(ps[..|ps| - 1], chunkSize), ps[|ps| - 1], chunkSize)
  }

  /** After the loop: the accumulated text is pushed only if it is not
      blank. */
  function Finish(st: ChunkState): seq<string> {
    if |Trim(st.current)| > 0 then st.chunks + [Trim(st.current)] else st.chunks
  }

  /** The chunks `chunkDocument(content, chunkSize)` returns: no more
      chunks than paragraphs, and every chunk trimmed. */
  function Chunks(content: string, chunkSize: nat): (r: seq<string>)
    ensures |r| <= |Paragraphs(content)|
    ensures forall k :: 0 <= k < |r| ==> Trimmed(r[k])
  {
    var st := Scan(Paragraphs(content), chunkSize);
    assert Trimmed(Trim(st.current));
    Finish(st)
  }

  method ChunkDocument(content: string, chunkSize: nat) returns (chunks: seq<string>)
    ensures chunks == Chunks(content, chunkSize)
  {
    chunks := [];
    var paragraphs := Paragraphs(content);
    var currentChunk := "";
    for i := 0 to |paragraphs|
      invariant ChunkState(chunks, currentChunk) == Scan(paragraphs[..i], chunkSize)
    {
      ScanStep(paragraphs, i, chunkSize);
      var paragraph := paragraphs[i];
      if |currentChunk + paragraph| > chunkSize && |currentChunk| > 0 {
        chunks := chunks + [Trim(currentChunk)];
        currentChunk := paragraph;
      } else {
        currentChunk := currentChunk + ParagraphBreak + paragraph;
      }
    }
    FinishScan(content, chunkSize, paragraphs);
    if |Trim(currentChunk)| > 0 {
      chunks := chunks + [Trim(currentChunk)];
    }
  }

  lemma {:induction false} FinishScan(content: string, chunkSize: nat, ps: seq<string>)
    requires ps == Paragraphs(content)
    ensures Chunks(content, chunkSize) == Finish(Scan(ps[..|ps|], chunkSize))
  {
    TakeAll(ps);
  }

  lemma {:induction false} ScanStep(ps: seq<string>, i: nat, chunkSize: nat)
    requires i < |ps|
    ensures Scan(ps[..i + 1], chunkSize) == Step(Scan(ps[..i], chunkSize), ps[i], chunkSize)
  {
    TakeStep(ps, i);
  }

  // ---------------------------------------------------------------------
  // Chunks as runs of consecutive paragraphs

  /** The paragraphs of all groups, in order. */
  function Flatten(groups: seq<seq<string>>): seq<string> {
    if groups == [] then [] else Flatten(groups[..|groups| - 1]) + groups[|groups| - 1]
  }

  /** Each group joined with blank lines. */
  function JoinEach(groups: seq<seq<string>>): (texts: seq<string>)
    ensures |texts| == |groups|
    ensures forall k :: 0 <= k < |groups| ==> texts[k] == Join(groups[k], ParagraphBreak)
  {
    seq(|groups|, k requires 0 <= k < |groups| => Join(groups[k], ParagraphBreak))
  }

  /** A group that holds one paragraph, possibly after an empty one (the
      accumulator is empty after a flush on an empty paragraph, and the next
      paragraph is then appended whatever its length). */
  predicate SingleParagraph(group: seq<string>) {
    |group| == 1 || (|group| == 2 && group[0] == "")
  }

  /** The size promise of a group: it holds a single paragraph, or it is at
      most `chunkSize + 2` long and each of its paragraphs fits in
      `chunkSize`. */
  predicate Fits(group: seq<string>, chunkSize: nat) {
    || SingleParagraph(group)
    || (&& |Join(group, ParagraphBreak)| <= chunkSize + 2
        && forall k :: 0 <= k < |group| ==> |group[k]| <= chunkSize)
  }

  /** How one paragraph changes the groups: a flush starts a new group, an
      append extends the last one. */
  ghost function NextGroups(g: seq<seq<string>>, st: ChunkState, p: string, chunkSize: nat): seq<seq<string>> {
    if |st.current + p| > chunkSize && |st.current| > 0 then g + [[p]]
    else if g == [] then [[p]]
    else g[..|g| - 1] + [g[|g| - 1] + [p]]
  }

  /** The paragraphs the loop has gathered into each chunk. */
  ghost function Groups(ps: seq<string>, chunkSize: nat): seq<seq<string>> {
    if ps == [] then []
    else NextGroups(Groups(ps[..|ps| - 1], chunkSize), Scan(ps[..|ps| - 1], chunkSize), ps[|ps| - 1], chunkSize)
  }

  /** Each group joined with blank lines and trimmed: the chunk the group
      becomes. */
  function Texts(groups: seq<seq<string>>): (texts: seq<string>)
    ensures |texts| == |groups|
  {
    if groups == [] then []
    else Texts(groups[..|groups| - 1]) + [Trim(Join(groups[|groups| - 1], ParagraphBreak))]
  }

  /** The `k`-th text is the `k`-th group joined and trimmed. */
  lemma {:induction false} TextsAt(groups: seq<seq<string>>, k: nat)
    requires k < |groups|
    ensures Texts(groups)[k] == Trim(Join(groups[k], ParagraphBreak))
    decreases |groups|
  {
    var init := groups[..|groups| - 1];
    if k < |init| {
      TextsAt(init, k);
      assert init[k] == groups[k];
    }
  }

  lemma {:induction false} TextsSnoc(g: seq<seq<string>>, x: seq<string>)
    ensures Texts(g + [x]) == Texts(g) + [Trim(Join(x, ParagraphBreak))]
  {
    assert (g + [x])[..|g|] == g;
  }

  /** Every group is non-empty and keeps the size promise. */
  ghost predicate GroupsFit(g: seq<seq<string>>, chunkSize: nat) {
    forall k :: 0 <= k < |g| ==> g[k] != [] && Fits(g[k], chunkSize)
  }

  lemma {:induction false} GroupsFitSnoc(g: seq<seq<string>>, x: seq<string>, chunkSize: nat)
    requires GroupsFit(g, chunkSize) && x != [] && Fits(x, chunkSize)
    ensures GroupsFit(g + [x], chunkSize)
  {
    forall k | 0 <= k < |g| + 1 ensures (g + [x])[k] != [] && Fits((g + [x])[k], chunkSize) {
      if k < |g| {
        assert (g + [x])[k] == g[k];
      } else {
        assert (g + [x])[k] == x;
      }
    }
  }

  lemma {:induction false} GroupsFitPrefix(g: seq<seq<string>>, n: nat, chunkSize: nat)
    requires GroupsFit(g, chunkSize) && n <= |g|
    ensures GroupsFit(g[..n], chunkSize)
  {
    forall k | 0 <= k < n ensures g[..n][k] != [] && Fits(g[..n][k], chunkSize) {
      assert g[..n][k] == g[k];
    }
  }

  /** How the loop's state is made of the groups: the pushed chunks are the
      texts of all groups but the last, and the accumulator is the last
      group joined (behind one extra blank line while it is still the first
      group). */
  ghost predicate StateOfGroups(st: ChunkState, g: seq<seq<string>>, chunkSize: nat) {
    && |g| >= 1
    && GroupsFit(g, chunkSize)
    && st.chunks == Texts(g[..|g| - 1])
    && st.current == (if |g| == 1 then ParagraphBreak else "") + Join(g[|g| - 1], ParagraphBreak)
  }

  lemma {:induction false} JoinSnoc(group: seq<string>, p: string)
    requires |group| >= 1
    ensures Join(group + [p], ParagraphBreak) == Join(group, ParagraphBreak) + ParagraphBreak + p
  {
    JoinAppend(group, [p], ParagraphBreak);
  }

  lemma {:induction false} FlattenSnoc(g: seq<seq<string>>, x: seq<string>)
    ensures Flatten(g + [x]) == Flatten(g) + x
  {
    DropLast(g, x);
  }

  /** A group whose joined text is empty is the single empty paragraph. */
  lemma {:induction false} EmptyJoin(group: seq<string>)
    requires |group| >= 1 && Join(group, ParagraphBreak) == ""
    ensures group == [""]
  {
    if |group| == 1 {
      assert group == [group[0]];
    }
  }

  /** Trimming the accumulator trims the last group's text. */
  lemma {:induction false} TrimCurrent(st: ChunkState, g: seq<seq<string>>, chunkSize: nat)
    requires StateOfGroups(st, g, chunkSize)
    ensures Trim(st.current) == Trim(Join(g[|g| - 1], ParagraphBreak))
  {
    TrimSpacePrefix(if |g| == 1 then ParagraphBreak else "", Join(g[|g| - 1], ParagraphBreak));
  }

  /** A lone paragraph keeps the size promise. */
  lemma {:induction false} LoneParagraph(p: string, chunkSize: nat)
    ensures Join([p], ParagraphBreak) == p && Fits([p], chunkSize)
  {
    assert SingleParagraph([p]);
  }

  /** A flush pushes the last group's text and starts a new group. */
  lemma {:induction false} FlushKeepsState(st: ChunkState, g: seq<seq<string>>, p: string, chunkSize: nat)
    requires StateOfGroups(st, g, chunkSize)
    requires |st.current + p| > chunkSize && |st.current| > 0
    ensures StateOfGroups(Step(st, p, chunkSize), g + [[p]], chunkSize)
  {
    var g' := g + [[p]];
    assert Step(st, p, chunkSize) == ChunkState(st.chunks + [Trim(st.current)], p);
    TrimCurrent(st, g, chunkSize);
    SplitLast(g);
    TextsSnoc(g[..|g| - 1], g[|g| - 1]);
    DropLast(g, [p]);
    LoneParagraph(p, chunkSize);
    GroupsFitSnoc(g, [p], chunkSize);
  }

  /** The group an append produces keeps the size promise. */
  lemma {:induction false} AppendFits(st: ChunkState, g: seq<seq<string>>, p: string, chunkSize: nat)
    requires StateOfGroups(st, g, chunkSize)
    requires !(|st.current + p| > chunkSize && |st.current| > 0)
    ensures Fits(g[|g| - 1] + [p], chunkSize)
  {
    var last := g[|g| - 1];
    var last' := last + [p];
    assert last != [];
    JoinSnoc(last, p);
    if |st.current| == 0 {
      EmptyJoin(last);
      assert last' == ["", p];
    } else {
      assert |Join(last, ParagraphBreak)| <= |st.current|;
      JoinLongerThanPieces(last, ParagraphBreak);
      forall k | 0 <= k < |last'| ensures |last'[k]| <= chunkSize {
        if k < |last| {
          assert last'[k] == last[k];
        }
      }
    }
  }

  /** An append adds the paragraph to the last group. */
  lemma {:induction false} AppendKeepsState(st: ChunkState, g: seq<seq<string>>, p: string, chunkSize: nat)
    requires StateOfGroups(st, g, chunkSize)
    requires !(|st.current + p| > chunkSize && |st.current| > 0)
    ensures StateOfGroups(Step(st, p, chunkSize), g[..|g| - 1] + [g[|g| - 1] + [p]], chunkSize)
  {
    var last := g[|g| - 1];
    var last' := last + [p];
    var init := g[..|g| - 1];
    var g' := init + [last'];
    var prefix: string := if |g| == 1 then ParagraphBreak else "";
    var text := Join(last, ParagraphBreak);
    assert Step(st, p, chunkSize) == ChunkState(st.chunks, st.current + ParagraphBreak + p);
    assert st.current == prefix + text;
    assert last != [];
    JoinSnoc(last, p);
    AppendAssoc(prefix, text + ParagraphBreak, p);
    AppendAssoc(prefix, text, ParagraphBreak);
    AppendFits(st, g, p, chunkSize);
    GroupsFitPrefix(g, |g| - 1, chunkSize);
    GroupsFitSnoc(init, last', chunkSize);
    DropLast(init, last');
  }

  /** After the paragraphs `ps`, the groups hold them in order and describe
      the loop's state. */
  ghost predicate ScanInvariant(ps: seq<string>, chunkSize: nat) {
    && Flatten(Groups(ps, chunkSize)) == ps
    && StateOfGroups(Scan(ps, chunkSize), Groups(ps, chunkSize), chunkSize)
  }

  lemma {:induction false} FirstParagraph(ps: seq<string>, chunkSize: nat)
    requires |ps| == 1
    ensures ScanInvariant(ps, chunkSize)
  {
    var p := ps[0];
    assert ps[..0] == [];
    assert Scan(ps, chunkSize) == Step(ChunkState([], ""), p, chunkSize);
    assert Groups(ps, chunkSize) == [[p]];
    assert Flatten([[p]]) == Flatten([]) + [p];
    LoneParagraph(p, chunkSize);
    assert Texts([]) == [];
  }

  lemma {:induction false} FlushStep(ps: seq<string>, chunkSize: nat)
    requires |ps| >= 2 && ScanInvariant(ps[..|ps| - 1], chunkSize)
    requires var st := Scan(ps[..|ps| - 1], chunkSize);
             |st.current + ps[|ps| - 1]| > chunkSize && |st.current| > 0
    ensures ScanInvariant(ps, chunkSize)
  {
    var prev := ps[..|ps| - 1];
    var p := ps[|ps| - 1];
    var st := Scan(prev, chunkSize);
    var g := Groups(prev, chunkSize);
    var g' := g + [[p]];
    assert Scan(ps, chunkSize) == Step(st, p, chunkSize);
    assert Groups(ps, chunkSize) == g';
    SplitLast(ps);
    FlattenSnoc(g, [p]);
    FlushKeepsState(st, g, p, chunkSize);
  }

  lemma {:induction false} AppendStep(ps: seq<string>, chunkSize: nat)
    requires |ps| >= 2 && ScanInvariant(ps[..|ps| - 1], chunkSize)
    requires var st := Scan(ps[..|ps| - 1], chunkSize);
             !(|st.current + ps[|ps| - 1]| > chunkSize && |st.current| > 0)
    ensures ScanInvariant(ps, chunkSize)
  {
    var prev := ps[..|ps| - 1];
    var p := ps[|ps| - 1];
    var st := Scan(prev, chunkSize);
    var g := Groups(prev, chunkSize);
    var last := g[|g| - 1];
    var g' := g[..|g| - 1] + [last + [p]];
    assert Scan(ps, chunkSize) == Step(st, p, chunkSize);
    assert Groups(ps, chunkSize) == g';
    SplitLast(ps);
    SplitLast(g);
    FlattenSnoc(g[..|g| - 1], last);
    FlattenSnoc(g[..|g| - 1], last + [p]);
    AppendKeepsState(st, g, p, chunkSize);
  }

  /** The loop's state after each paragraph is described by the groups, and
      the groups hold the paragraphs in order. */
  lemma {:induction false} ScanGroups(ps: seq<string>, chunkSize: nat)
    requires |ps| >= 1
    ensures ScanInvariant(ps, chunkSize)
    decreases |ps|
  {
    if |ps| == 1 {
      FirstParagraph(ps, chunkSize);
    } else {
      var prev := ps[..|ps| - 1];
      ScanGroups(prev, chunkSize);
      var st := Scan(prev, chunkSize);
      if |st.current + ps[|ps| - 1]| > chunkSize && |st.current| > 0 {
        FlushStep(ps, chunkSize);
      } else {
        AppendStep(ps, chunkSize);
      }
    }
  }

  // ---------------------------------------------------------------------
  // What chunkDocument promises

  /** The chunks are the texts of the groups of consecutive paragraphs, in
      order; only the last group is dropped, and only when it is blank. The
      groups hold every paragraph, in order. */
  lemma {:induction false} ChunksAreGroups(content: string, chunkSize: nat)
    ensures var g := Groups(Paragraphs(content), chunkSize);
            && |g| >= 1
            && GroupsFit(g, chunkSize)
            && Flatten(g) == Paragraphs(content)
            && Chunks(content, chunkSize)
               == if Trim(Join(g[|g| - 1], ParagraphBreak)) == "" then Texts(g[..|g| - 1]) else Texts(g)
  {
    var ps := Paragraphs(content);
    var g := Groups(ps, chunkSize);
    ScanGroups(ps, chunkSize);
    TrimCurrent(Scan(ps, chunkSize), g, chunkSize);
    SplitLast(g);
    TextsSnoc(g[..|g| - 1], g[|g| - 1]);
  }

  lemma {:induction false} FlattenNonEmpty(g: seq<seq<string>>)
    requires |g| >= 1 && forall k :: 0 <= k < |g| ==> g[k] != []
    ensures |Flatten(g)| >= 1
  {
    assert |Flatten(g)| >= |g[|g| - 1]|;
  }

  lemma {:induction false} JoinFlatten(g: seq<seq<string>>)
    requires |g| >= 1 && forall k :: 0 <= k < |g| ==> g[k] != []
    ensures Join(Flatten(g), ParagraphBreak) == Join(JoinEach(g), ParagraphBreak)
    decreases |g|
  {
    var init := g[..|g| - 1];
    var last := g[|g| - 1];
    if |g| == 1 {
      assert init == [];
      assert Flatten(g) == last;
      assert JoinEach(g) == [Join(last, ParagraphBreak)];
    } else {
      JoinFlatten(init);
      FlattenNonEmpty(init);
      assert JoinEach(g) == JoinEach(init) + [Join(last, ParagraphBreak)];
      JoinAppend(Flatten(init), last, ParagraphBreak);
      JoinAppend(JoinEach(init), [Join(last, ParagraphBreak)], ParagraphBreak);
    }
  }

  /** No text is lost or invented: joining each group with blank lines, and
      the results with blank lines, gives back the text. */
  lemma {:induction false} GroupsRebuildText(content: string, chunkSize: nat)
    ensures Join(JoinEach(Groups(Paragraphs(content), chunkSize)), ParagraphBreak) == content
  {
    ChunksAreGroups(content, chunkSize);
    JoinFlatten(Groups(Paragraphs(content), chunkSize));
    JoinSplitOn(content, ParagraphBreak);
  }

  /** `chunkDocument("")` is `[]`. */
  lemma {:induction false} EmptyTextHasNoChunks(chunkSize: nat)
    ensures Chunks("", chunkSize) == []
  {
    assert Paragraphs("") == [""];
    assert Scan([""], chunkSize) == ChunkState([], ParagraphBreak) by {
      assert [""][..0] == [];
    }
    assert AllSpace(ParagraphBreak);
  }

  /** A single-paragraph group trims to its paragraph. */
  lemma {:induction false} SingleParagraphText(group: seq<string>)
    requires SingleParagraph(group)
    ensures Trim(Join(group, ParagraphBreak)) == Trim(group[|group| - 1])
  {
    if |group| == 2 {
      assert Join(group, ParagraphBreak) == ParagraphBreak + group[1];
      TrimSpacePrefix(ParagraphBreak, group[1]);
    }
  }

  /** The size bound on one chunk: at most `chunkSize + 2` characters, made
      of paragraphs of at most `chunkSize` characters each, unless it is a
      single paragraph (never split), trimmed. */
  predicate ChunkWithin(chunk: string, group: seq<string>, chunkSize: nat) {
    || (&& |chunk| <= chunkSize + 2
        && forall j :: 0 <= j < |group| ==> |group[j]| <= chunkSize)
    || (SingleParagraph(group) && chunk == Trim(group[|group| - 1]))
  }

  lemma {:induction false} GroupWithin(group: seq<string>, chunkSize: nat)
    requires Fits(group, chunkSize)
    ensures ChunkWithin(Trim(Join(group, ParagraphBreak)), group, chunkSize)
  {
    if SingleParagraph(group) {
      SingleParagraphText(group);
    }
  }

  /** The `k`-th chunk is the text of the `k`-th group. */
  lemma {:induction false} ChunkOfGroup(content: string, chunkSize: nat)
    ensures var g := Groups(Paragraphs(content), chunkSize);
            var cs := Chunks(content, chunkSize);
            && |cs| <= |g|
            && forall k :: 0 <= k < |cs| ==> cs[k] == Trim(Join(g[k], ParagraphBreak)) && Fits(g[k], chunkSize)
  {
    var g := Groups(Paragraphs(content), chunkSize);
    var cs := Chunks(content, chunkSize);
    ChunksAreGroups(content, chunkSize);
    assert forall k :: 0 <= k < |g| ==> Fits(g[k], chunkSize);
    var init := g[..|g| - 1];
    if Trim(Join(g[|g| - 1], ParagraphBreak)) == "" {
      assert cs == Texts(init);
      forall k | 0 <= k < |cs| ensures cs[k] == Trim(Join(g[k], ParagraphBreak)) {
        TextsAt(init, k);
        assert init[k] == g[k];
      }
    } else {
      assert cs == Texts(g);
      forall k | 0 <= k < |cs| ensures cs[k] == Trim(Join(g[k], ParagraphBreak)) {
        TextsAt(g, k);
      }
    }
  }

  /** Every chunk keeps the size bound. */
  lemma {:induction false} ChunkSizes(content: string, chunkSize: nat)
    ensures var g := Groups(Paragraphs(content), chunkSize);
            var cs := Chunks(content, chunkSize);
            && |cs| <= |g|
            && forall k :: 0 <= k < |cs| ==> ChunkWithin(cs[k], g[k], chunkSize)
  {
    var g := Groups(Paragraphs(content), chunkSize);
    var cs := Chunks(content, chunkSize);
    ChunkOfGroup(content, chunkSize);
    forall k | 0 <= k < |cs| ensures ChunkWithin(cs[k], g[k], chunkSize) {
      GroupWithin(g[k], chunkSize);
    }
  }

  /** A paragraph longer than `chunkSize` is never merged with another
      non-empty paragraph. */
  lemma {:induction false} LongParagraphStandsAlone(content: string, chunkSize: nat)
    ensures var g := Groups(Paragraphs(content), chunkSize);
            forall k, j :: 0 <= k < |g| && 0 <= j < |g[k]| && |g[k][j]| > chunkSize ==>
              SingleParagraph(g[k])
  {
    ChunksAreGroups(content, chunkSize);
  }

  /** A blank first paragraph, then `w`. */
  lemma {:induction false} BlankThenWordParagraphs(w: string)
    requires IndexOf(w, ParagraphBreak) == None
    ensures Paragraphs(" \n\n" + w) == [" ", w]
  {
    var content := " \n\n" + w;
    assert OccursAt(content, ParagraphBreak, 1) by {
      assert content[1..3] == ParagraphBreak;
    }
    assert !OccursAt(content, ParagraphBreak, 0) by {
      assert content[0] == ' ';
    }
    assert IndexOf(content, ParagraphBreak) == Some(1);
    assert content[..1] == " ";
    assert content[3..] == w;
    assert SplitOn(w, ParagraphBreak) == [w];
  }

  /** The blank paragraph alone is appended, after a separator, to the
      empty accumulated text, and trims to nothing. */
  lemma {:induction false} BlankFirstStep(chunkSize: nat)
    ensures Scan([" "], chunkSize) == ChunkState([], "\n\n ")
    ensures Trim("\n\n ") == ""
  {
    assert [" "][..0] == [];
    assert AllSpace("\n\n ");
  }

  /** A blank paragraph followed by one that does not fit is flushed as an
      empty chunk: the emptiness test is made only after the loop. */
  lemma {:induction false} BlankParagraphGivesEmptyChunk(w: string, chunkSize: nat)
    requires w != [] && Trimmed(w) && IndexOf(w, ParagraphBreak) == None
    requires |w| + 3 > chunkSize
    ensures Chunks(" \n\n" + w, chunkSize) == ["", w]
  {
    BlankThenWordParagraphs(w);
    BlankFirstStep(chunkSize);
    assert [" ", w][..1] == [" "];
    assert Scan([" ", w], chunkSize) == ChunkState([""], w);
    TrimTrimmed(w);
  }
}
