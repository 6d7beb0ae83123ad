/** `getContext`: the best search results as a block of text for the
    system prompt, or nothing when the search finds nothing. */
module Context {
  import opened Text
  import opened Indexing
  import opened Ranking

  /** The `topK` `getContext` searches with. */
  const ContextResults: int := 3

  const Header := "RELEVANT INFORMATION FROM COMPANY DOCUMENTS:\n\n"

  const Footer := "Use the above information to answer the question accurately. If the documents don't contain relevant information, rely on your role knowledge.\n\n"

  /** The block for one result: its file name in brackets, then its text. */
  function Block(r: SearchResult): string {
    "[" + r.filename + "]\n" + r.content + "\n\n"
  }

  /** The blocks of `rs`, in order. */
  function Blocks(rs: seq<SearchResult>): string {
    if rs == [] then "" else Blocks(rs[..|rs| - 1]) + Block(rs[|rs| - 1])
  }

  /** `null` without results, otherwise the header, the blocks and the
      closing instruction. */
  function ContextText(rs: seq<SearchResult>): Option<string> {
    if rs == [] then None else Some(Header + Blocks(rs) + Footer)
  }

  /** More results only extend the blocks. */
  lemma {:induction false} BlocksPrefix(rs: seq<SearchResult>, n: nat)
    requires n <= |rs|
    ensures |Blocks(rs[..n])| <= |Blocks(rs)|
    ensures Blocks(rs)[..|Blocks(rs[..n])|] == Blocks(rs[..n])
    decreases |rs| - n
  {
    if n < |rs| {
      var init := rs[..|rs| - 1];
      assert init[..n] == rs[..n];
      BlocksPrefix(init, n);
    } else {
      assert rs[..n] == rs;
    }
  }

  /** The block of the `i`-th result follows the blocks of the results
      before it. */
  lemma {:induction false} BlockInBlocks(rs: seq<SearchResult>, i: nat)
    requires i < |rs|
    ensures var at := |Blocks(rs[..i])|;
            at + |Block(rs[i])| <= |Blocks(rs)| && Blocks(rs)[at..at + |Block(rs[i])|] == Block(rs[i])
  {
    var upto := rs[..i + 1];
    assert upto[..i] == rs[..i];
    assert Blocks(upto) == Blocks(rs[..i]) + Block(rs[i]);
    BlocksPrefix(rs, i + 1);
    var at := |Blocks(rs[..i])|;
    assert Blocks(rs)[at..at + |Block(rs[i])|] == Blocks(rs)[..|Blocks(upto)|][at..];
  }

  lemma {:induction false} Framed(h: string, b: string, f: string, lo: nat, hi: nat)
    requires lo <= hi <= |b|
    ensures (h + b + f)[..|h|] == h
    ensures (h + b + f)[|h + b + f| - |f|..] == f
    ensures (h + b + f)[|h| + lo..|h| + hi] == b[lo..hi]
  {
  }

  /** The context exists exactly when there are results; it opens with the
      header, closes with the instruction, and in between holds the block
      of each result in ranked order, the `i`-th after the blocks of the
      results before it. */
  lemma {:induction false} ContextLayout(rs: seq<SearchResult>, i: nat)
    requires i < |rs|
    ensures ContextText(rs).Some?
    ensures var s := ContextText(rs).value;
            var at := |Header| + |Blocks(rs[..i])|;
            && |Header| + |Footer| <= |s|
            && s[..|Header|] == Header
            && s[|s| - |Footer|..] == Footer
            && at + |Block(rs[i])| <= |s| - |Footer|
            && s[at..at + |Block(rs[i])|] == Block(rs[i])
  {
    var lo := |Blocks(rs[..i])|;
    assert ContextText(rs).value == Header + Blocks(rs) + Footer;
    BlockInBlocks(rs, i);
    Framed(Header, Blocks(rs), Footer, lo, lo + |Block(rs[i])|);
  }

  /** The context for a query: `null` exactly when the search finds
      nothing, and never more than three blocks. */
  lemma {:induction false} ContextOfSearch(docs: seq<Doc>, index: Index, isIndexed: bool, query: string)
    requires IndexResolves(docs, index)
    ensures var rs := Search(docs, index, isIndexed, query, ContextResults);
            && |rs| <= 3
            && (ContextText(rs) == None <==> rs == [])
            && (ContextText(rs).Some? ==> ContextText(rs).value != "")
  {
  }
}
