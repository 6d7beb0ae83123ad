/** `extractKeywords`: the tokenizer that indexing and querying share. The
    text is lower-cased, every character that is neither a word character
    nor whitespace becomes a space, the result is split on runs of
    whitespace, and the tokens of at most three characters and the stop
    words are dropped. */
module Keywords {
  import opened Text

  /** The stop words, all lower-case. */
  const StopWords: set<string> := {
    "the", "a", "an", "and", "or", "but", "in", "on", "at", "to", "for",
    "of", "with", "by", "from", "as", "is", "was", "are", "were", "been",
    "be", "have", "has", "had", "do", "does", "did", "will", "would",
    "should", "could", "may", "might", "must", "can", "this", "that",
    "these", "those", "it", "its", "they", "them", "their"
  }

  /** A token is kept when it is longer than this. */
  const MinLength: nat := 3

  /** The characters a keyword is made of: `\w` after lower-casing. */
  predicate IsKeywordChar(c: char) {
    ('a' <= c <= 'z') || ('0' <= c <= '9') || c == '_'
  }

  /** What every token `extractKeywords` returns satisfies. */
  predicate IsKeyword(w: string) {
    && |w| > MinLength
    && w !in StopWords
    && forall i :: 0 <= i < |w| ==> IsKeywordChar(w[i])
  }

  /** `.replace(/[^\w\s]/g, ' ')` on one character. */
  function Blank(c: char): char {
    if IsWordChar(c) || IsSpace(c) then c else ' '
  }

  /** `text.toLowerCase().replace(/[^\w\s]/g, ' ')`: the same length, and
      every character is a keyword character or whitespace. */
  function Normalize(text: string): (r: string)
    ensures |r| == |text|
    ensures forall i :: 0 <= i < |r| ==> r[i] == Blank(LowerChar(text[i]))
    ensures forall i :: 0 <= i < |r| ==> IsKeywordChar(r[i]) || IsSpace(r[i])
  {
    seq(|text|, i requires 0 <= i < |text| => Blank(LowerChar(text[i])))
  }

  /** The `filter` predicate. */
  predicate Keep(w: string) {
    |w| > MinLength && w !in StopWords
  }

  /** The tokens that pass the filter, in order. */
  function Filter(tokens: seq<string>): (kept: seq<string>)
    ensures |kept| <= |tokens|
  {
    if tokens == [] then []
    else (if Keep(tokens[0]) then [tokens[0]] else []) + Filter(tokens[1..])
  }

  /** Every token the filter keeps passes it and is one of the tokens. */
  lemma {:induction false} FilterKeeps(tokens: seq<string>)
    ensures forall k :: 0 <= k < |Filter(tokens)| ==> Keep(Filter(tokens)[k]) && Filter(tokens)[k] in tokens
    decreases |tokens|
  {
    if tokens != [] {
      var rest := tokens[1..];
      FilterKeeps(rest);
      var head := if Keep(tokens[0]) then [tokens[0]] else [];
      assert Filter(tokens) == head + Filter(rest);
      assert forall x :: x in rest ==> x in tokens;
    }
  }

  /** `extractKeywords(text)`. */
  function ExtractKeywords(text: string): (r: seq<string>)
    ensures forall k :: 0 <= k < |r| ==> IsKeyword(r[k])
  {
    var kept := Filter(SplitWs(Normalize(text)));
    KeptAreKeywords(text);
    kept
  }

  // ---------------------------------------------------------------------
  // Every token is a keyword

  /** A string made of keyword characters and whitespace. */
  predicate TokenChars(s: string) {
    forall i :: 0 <= i < |s| ==> IsKeywordChar(s[i]) || IsSpace(s[i])
  }

  lemma {:induction false} TokenCharsPrefix(s: string, i: nat)
    requires TokenChars(s) && i <= |s|
    ensures TokenChars(s[..i])
  {
    assert forall m :: 0 <= m < i ==> s[..i][m] == s[m];
  }

  lemma {:induction false} TokenCharsSuffix(s: string, j: nat)
    requires TokenChars(s) && j <= |s|
    ensures TokenChars(s[j..])
  {
    assert forall m :: 0 <= m < |s| - j ==> s[j..][m] == s[j + m];
  }

  /** The first piece and the text after the whitespace that ends it. */
  lemma {:induction false} TokenCharsStep(s: string, i: nat, j: nat)
    requires TokenChars(s) && i == SpanNonSpace(s) < |s| && j == i + SpanSpace(s[i..])
    ensures i < j <= |s| && TokenChars(s[..i]) && TokenChars(s[j..])
    ensures SplitWs(s) == [s[..i]] + SplitWs(s[j..])
  {
    SplitWsUnfold(s, i, j);
    TokenCharsPrefix(s, i);
    TokenCharsSuffix(s, j);
  }

  /** The pieces of such a string are such strings too. */
  lemma {:induction false} SplitWsTokenChars(s: string)
    requires TokenChars(s)
    ensures forall k :: 0 <= k < |SplitWs(s)| ==> TokenChars(SplitWs(s)[k])
    decreases |s|
  {
    var i := SpanNonSpace(s);
    if i == |s| {
      assert s[..i] == s;
      assert SplitWs(s) == [s];
    } else {
      var j := i + SpanSpace(s[i..]);
      TokenCharsStep(s, i, j);
      SplitWsTokenChars(s[j..]);
      ConsTokenChars(s[..i], SplitWs(s[j..]));
    }
  }

  lemma {:induction false} ConsTokenChars(p: string, rest: seq<string>)
    requires TokenChars(p) && forall k :: 0 <= k < |rest| ==> TokenChars(rest[k])
    ensures forall k :: 0 <= k < |[p] + rest| ==> TokenChars(([p] + rest)[k])
  {
    assert forall k :: 1 <= k < |[p] + rest| ==> ([p] + rest)[k] == rest[k - 1];
  }

  /** Every token `extractKeywords` keeps is longer than three
      characters, is not a stop word, and holds only `[a-z0-9_]`. */
  lemma {:induction false} KeptAreKeywords(text: string)
    ensures forall k :: 0 <= k < |Filter(SplitWs(Normalize(text)))| ==> IsKeyword(Filter(SplitWs(Normalize(text)))[k])
  {
    var parts := SplitWs(Normalize(text));
    var kept := Filter(parts);
    SplitWsTokenChars(Normalize(text));
    FilterKeeps(parts);
    forall k | 0 <= k < |kept| ensures IsKeyword(kept[k]) {
      var w := kept[k];
      var n :| 0 <= n < |parts| && parts[n] == w;
      assert TokenChars(w) && NoSpace(w);
    }
  }

  // ---------------------------------------------------------------------
  // Order and multiplicity

  lemma {:induction false} FilterAppend(a: seq<string>, b: seq<string>)
    ensures Filter(a + b) == Filter(a) + Filter(b)
    decreases |a|
  {
    if a == [] {
      assert a + b == b;
    } else {
      assert (a + b)[0] == a[0];
      assert (a + b)[1..] == a[1..] + b;
      FilterAppend(a[1..], b);
    }
  }

  /** The filter drops empty pieces anyway. */
  lemma {:induction false} FilterNonEmpty(tokens: seq<string>)
    ensures Filter(NonEmpty(tokens)) == Filter(tokens)
    decreases |tokens|
  {
    if tokens != [] {
      FilterNonEmpty(tokens[1..]);
      FilterAppend(if tokens[0] == "" then [] else [tokens[0]], NonEmpty(tokens[1..]));
      if tokens[0] != "" {
        assert [tokens[0]][1..] == [];
      }
    }
  }

  lemma {:induction false} NormalizeAround(a: string, b: string)
    ensures Normalize(a + " " + b) == Normalize(a) + [' '] + Normalize(b)
  {
    assert IsSpace(' ');
    var l := Normalize(a + " " + b);
    var r := Normalize(a) + [' '] + Normalize(b);
    forall i | 0 <= i < |l| ensures l[i] == r[i] {
      if i < |a| {
        assert (a + " " + b)[i] == a[i];
      } else if i == |a| {
        assert (a + " " + b)[i] == ' ';
      } else {
        assert (a + " " + b)[i] == b[i - |a| - 1];
      }
    }
  }

  /** Keywords of two texts joined by a space are the keywords of the
      first followed by those of the second: tokens come in text order and
      repeats are kept. */
  lemma {:induction false} KeywordsOfJoin(a: string, b: string)
    ensures ExtractKeywords(a + " " + b) == ExtractKeywords(a) + ExtractKeywords(b)
  {
    NormalizeAround(a, b);
    assert IsSpace(' ');
    SplitWsAround(Normalize(a), ' ', Normalize(b));
    FilterNonEmpty(SplitWs(Normalize(a + " " + b)));
    FilterNonEmpty(SplitWs(Normalize(a)));
    FilterNonEmpty(SplitWs(Normalize(b)));
    FilterAppend(NonEmpty(SplitWs(Normalize(a))), NonEmpty(SplitWs(Normalize(b))));
  }

  /** A keyword on its own is its own only keyword. */
  lemma {:induction false} KeywordAlone(w: string)
    requires IsKeyword(w)
    ensures ExtractKeywords(w) == [w]
  {
    assert Normalize(w) == w by {
      forall i | 0 <= i < |w| ensures Normalize(w)[i] == w[i] {
        assert IsKeywordChar(w[i]);
      }
    }
    assert NoSpace(w) by {
      forall i | 0 <= i < |w| ensures !IsSpace(w[i]) {
        assert IsKeywordChar(w[i]);
        WordCharNotSpace(w[i]);
      }
    }
    assert SpanNonSpace(w) == |w|;
    assert w[..|w|] == w;
    assert SplitWs(w) == [w];
    assert [w][1..] == [];
  }

  /** Keywords joined with spaces tokenize back to themselves. */
  lemma {:induction false} KeywordsOfKeywords(ws: seq<string>)
    requires forall k :: 0 <= k < |ws| ==> IsKeyword(ws[k])
    ensures ExtractKeywords(Join(ws, " ")) == ws
    decreases |ws|
  {
    if ws == [] {
      assert SplitWs("") == [""];
      assert Filter([""]) == [] by {
        assert [""][1..] == [];
      }
    } else if |ws| == 1 {
      KeywordAlone(ws[0]);
    } else {
      KeywordsOfKeywords(ws[1..]);
      KeywordAlone(ws[0]);
      JoinCons(ws[0], ws[1..], " ");
      assert [ws[0]] + ws[1..] == ws;
      KeywordsOfJoin(ws[0], Join(ws[1..], " "));
    }
  }

  /** Tokenizing is idempotent: the keywords of the keywords, joined with
      spaces, are the keywords. */
  lemma {:induction false} ExtractKeywordsIdempotent(text: string)
    ensures ExtractKeywords(Join(ExtractKeywords(text), " ")) == ExtractKeywords(text)
  {
    KeywordsOfKeywords(ExtractKeywords(text));
  }
}
