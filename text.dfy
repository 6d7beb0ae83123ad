/** The JavaScript string primitives the retrieval layer is built from:
    the `\s` character class, `\w` without the `u` flag, ASCII lower-casing,
    `trim`, `split` on a string separator and on `/\s+/`, `join`, and
    decimal formatting and parsing of natural numbers. */
module Text {

  datatype Option<+T> = None | Some(value: T)

  /** JavaScript's WhiteSpace and LineTerminator code points: exactly what
      `\s` matches and what `String.prototype.trim` removes (tab, line feed,
      vertical tab, form feed, carriage return, space, no-break space, the
      Ogham space mark, the en quad to hair space range, line and paragraph
      separators, narrow no-break space, medium mathematical space,
      ideographic space and the byte order mark). */
  predicate IsSpace(c: char) {
    || '\t' <= c <= '\r'
    || c == ' ' || c == '\U{A0}' || c == '\U{1680}'
    || '\U{2000}' <= c <= '\U{200A}'
    || c == '\U{2028}' || c == '\U{2029}' || c == '\U{202F}' || c == '\U{205F}'
    || c == '\U{3000}' || c == '\U{FEFF}'
  }

  /** `\w` in a regular expression without the `u` flag: `[A-Za-z0-9_]`. */
  predicate IsWordChar(c: char) {
    ('a' <= c <= 'z') || ('A' <= c <= 'Z') || ('0' <= c <= '9') || c == '_'
  }

  lemma {:induction false} WordCharNotSpace(c: char)
    requires IsWordChar(c)
    ensures !IsSpace(c)
  {
  }

  predicate IsDigit(c: char) {
    '0' <= c <= '9'
  }

  predicate AllSpace(s: string) {
    forall i :: 0 <= i < |s| ==> IsSpace(s[i])
  }

  predicate NoSpace(s: string) {
    forall i :: 0 <= i < |s| ==> !IsSpace(s[i])
  }

  predicate AllDigits(s: string) {
    forall i :: 0 <= i < |s| ==> IsDigit(s[i])
  }

  /** A string that `trim` leaves as it is. */
  predicate Trimmed(s: string) {
    s == [] || (!IsSpace(s[0]) && !IsSpace(s[|s| - 1]))
  }

  // ---------------------------------------------------------------------
  // Sequences cut at their last element

  lemma {:induction false} SplitLast<T>(s: seq<T>)
    requires |s| >= 1
    ensures s == s[..|s| - 1] + [s[|s| - 1]]
  {
  }

  lemma {:induction false} DropLast<T>(s: seq<T>, x: T)
    ensures (s + [x])[..|s|] == s
  {
  }

  lemma {:induction false} PrefixOfAppend<T>(s: seq<T>, x: T, n: nat)
    requires n <= |s|
    ensures (s + [x])[..n] == s[..n]
  {
  }

  lemma {:induction false} TakeStep<T>(s: seq<T>, j: nat)
    requires j < |s|
    ensures s[..j + 1] == s[..j] + [s[j]]
    ensures s[..j + 1][..j] == s[..j]
  {
  }

  lemma {:induction false} TakeAll<T>(s: seq<T>)
    ensures s[..|s|] == s
  {
  }

  lemma {:induction false} AppendAssoc<T>(x: seq<T>, y: seq<T>, z: seq<T>)
    ensures x + (y + z) == (x + y) + z
  {
  }

  // ---------------------------------------------------------------------
  // Lower-casing

  function LowerChar(c: char): char {
    if 'A' <= c <= 'Z' then (c as int - 'A' as int + 'a' as int) as char else c
  }

  /** `toLowerCase`, restricted to the ASCII letters. */
  function Lower(s: string): (r: string)
    ensures |r| == |s|
    ensures forall i :: 0 <= i < |s| ==> r[i] == LowerChar(s[i])
    ensures forall i :: 0 <= i < |s| ==> !('A' <= r[i] <= 'Z')
    ensures forall i :: 0 <= i < |s| && !('A' <= s[i] <= 'Z') ==> r[i] == s[i]
  {
    seq(|s|, i requires 0 <= i < |s| => LowerChar(s[i]))
  }

  lemma {:induction false} LowerAppend(a: string, b: string)
    ensures Lower(a + b) == Lower(a) + Lower(b)
  {
  }

  // ---------------------------------------------------------------------
  // trim

  /** The length of the longest all-whitespace suffix of `s`. */
  function TrailingSpaces(s: string): (n: nat)
    ensures n <= |s|
    ensures forall i :: |s| - n <= i < |s| ==> IsSpace(s[i])
    ensures n < |s| ==> !IsSpace(s[|s| - n - 1])
  {
    if s != [] && IsSpace(s[|s| - 1]) then
      var n := TrailingSpaces(s[..|s| - 1]);
      assert forall i :: |s| - 1 - n <= i < |s| - 1 ==> s[..|s| - 1][i] == s[i];
      1 + n
    else 0
  }

  /** `String.prototype.trim`: the string without its leading and trailing
      whitespace. It is empty exactly when the string is all whitespace. */
  function Trim(s: string): (r: string)
    ensures |r| <= |s|
    ensures Trimmed(r)
    ensures r == [] <==> AllSpace(s)
  {
    var t := s[SpanSpace(s)..];
    var r := t[..|t| - TrailingSpaces(t)];
    assert r != [] ==> r[0] == t[0] && r[|r| - 1] == t[|r| - 1];
    assert t != [] ==> t[0] == s[SpanSpace(s)];
    assert r == [] ==> forall i :: 0 <= i < |s| ==> IsSpace(s[i]) by {
      if r == [] {
        forall i | 0 <= i < |s| ensures IsSpace(s[i]) {
          assert s[i] == s[..SpanSpace(s)][i];
        }
      }
    }
    r
  }

  /** The trimmed text is the input with only whitespace cut from its two
      ends. */
  lemma {:induction false} TrimIsSlice(s: string)
    ensures exists i, j :: 0 <= i <= j <= |s| && Trim(s) == s[i..j] && AllSpace(s[..i]) && AllSpace(s[j..])
  {
    var i := SpanSpace(s);
    var t := s[i..];
    var j := i + |Trim(s)|;
    assert Trim(s) == t[..|t| - TrailingSpaces(t)];
    assert Trim(s) == s[i..j];
    assert s[j..] == t[|Trim(s)|..];
    assert AllSpace(s[j..]);
  }

  lemma {:induction false} TrimTrimmed(s: string)
    requires Trimmed(s)
    ensures Trim(s) == s
  {
  }

  lemma {:induction false} SpanSpacePrefix(p: string, s: string)
    requires AllSpace(p)
    ensures SpanSpace(p + s) == |p| + SpanSpace(s)
    decreases |p|
  {
    if p != [] {
      assert (p + s)[0] == p[0];
      assert (p + s)[1..] == p[1..] + s;
      assert AllSpace(p[1..]);
      SpanSpacePrefix(p[1..], s);
    } else {
      assert p + s == s;
    }
  }

  /** Whitespace in front of a string does not change what `trim` returns. */
  lemma {:induction false} TrimSpacePrefix(p: string, s: string)
    requires AllSpace(p)
    ensures Trim(p + s) == Trim(s)
  {
    SpanSpacePrefix(p, s);
    assert (p + s)[|p| + SpanSpace(s)..] == s[SpanSpace(s)..];
  }

  // ---------------------------------------------------------------------
  // split on a string separator, and join

  predicate OccursAt(s: string, sep: string, k: int) {
    0 <= k && k + |sep| <= |s| && s[k..k + |sep|] == sep
  }

  /** A slice of the tail is a slice of the string, one place further. */
  lemma {:induction false} SliceOfTail(s: string, k: int, n: nat)
    requires 1 <= k && k + n <= |s|
    ensures s[k..k + n] == s[1..][k - 1..k - 1 + n]
  {
    var a := s[k..k + n];
    var b := s[1..][k - 1..k - 1 + n];
    assert |a| == |b|;
    forall j | 0 <= j < n ensures a[j] == b[j] {
      assert a[j] == s[k + j];
      assert b[j] == s[1..][k - 1 + j];
    }
  }

  /** `indexOf`: the first position at which `sep` occurs in `s`. */
  function IndexOf(s: string, sep: string): (r: Option<nat>)
    ensures r.Some? ==> OccursAt(s, sep, r.value)
    ensures r.Some? ==> forall k :: 0 <= k < r.value ==> !OccursAt(s, sep, k)
    ensures r.None? ==> forall k :: !OccursAt(s, sep, k)
    decreases |s|
  {
    if |s| < |sep| then None
    else if s[..|sep|] == sep then Some(0)
    else
      var r := IndexOf(s[1..], sep);
      forall k | 1 <= k
        ensures OccursAt(s, sep, k) <==> OccursAt(s[1..], sep, k - 1)
      {
        if k + |sep| <= |s| {
          SliceOfTail(s, k, |sep|);
        }
      }
      if r.None? then None else Some(r.value + 1)
  }

  /** `String.prototype.split` with a non-empty string separator and no
      limit: the pieces between the non-overlapping occurrences of `sep`,
      found from left to right. */
  function SplitOn(s: string, sep: string): (parts: seq<string>)
    requires |sep| > 0
    ensures |parts| >= 1
    ensures forall k :: 0 <= k < |parts| ==> IndexOf(parts[k], sep) == None
    decreases |s|
  {
    match IndexOf(s, sep)
    case None => [s]
    case Some(i) =>
      NoneBefore(s, sep, i);
      [s[..i]] + SplitOn(s[i + |sep|..], sep)
  }

  /** The text before the first occurrence holds no occurrence. */
  lemma {:induction false} NoneBefore(s: string, sep: string, i: nat)
    requires |sep| > 0 && i <= |s|
    requires forall k :: 0 <= k < i ==> !OccursAt(s, sep, k)
    ensures IndexOf(s[..i], sep) == None
  {
    forall k | OccursAt(s[..i], sep, k) ensures OccursAt(s, sep, k) && k < i {
      assert s[..i][k..k + |sep|] == s[k..k + |sep|];
    }
  }

  /** `Array.prototype.join`. */
  function Join(parts: seq<string>, sep: string): string {
    if |parts| == 0 then ""
    else if |parts| == 1 then parts[0]
    else parts[0] + sep + Join(parts[1..], sep)
  }

  lemma {:induction false} JoinCons(x: string, rest: seq<string>, sep: string)
    requires |rest| >= 1
    ensures Join([x] + rest, sep) == x + sep + Join(rest, sep)
  {
    assert ([x] + rest)[1..] == rest;
  }

  lemma {:induction false} JoinAppend(a: seq<string>, b: seq<string>, sep: string)
    requires |a| >= 1 && |b| >= 1
    ensures Join(a + b, sep) == Join(a, sep) + sep + Join(b, sep)
    decreases |a|
  {
    if |a| == 1 {
      assert a + b == [a[0]] + b;
      JoinCons(a[0], b, sep);
    } else {
      assert a + b == [a[0]] + (a[1..] + b);
      JoinCons(a[0], a[1..] + b, sep);
      JoinAppend(a[1..], b, sep);
      assert a == [a[0]] + a[1..];
      JoinCons(a[0], a[1..], sep);
    }
  }

  /** Every piece is at most as long as the joined string. */
  lemma {:induction false} JoinLongerThanPieces(parts: seq<string>, sep: string)
    ensures forall k :: 0 <= k < |parts| ==> |parts[k]| <= |Join(parts, sep)|
  {
    if |parts| > 1 {
      JoinLongerThanPieces(parts[1..], sep);
      assert forall k :: 1 <= k < |parts| ==> parts[k] == parts[1..][k - 1];
    }
  }

  /** Joining the pieces of a split with the same separator gives back the
      original string: splitting loses nothing. */
  lemma {:induction false} JoinSplitOn(s: string, sep: string)
    requires |sep| > 0
    ensures Join(SplitOn(s, sep), sep) == s
    decreases |s|
  {
    match IndexOf(s, sep)
    case None =>
    case Some(i) =>
      var rest := SplitOn(s[i + |sep|..], sep);
      JoinSplitOn(s[i + |sep|..], sep);
      assert SplitOn(s, sep) == [s[..i]] + rest;
      JoinCons(s[..i], rest, sep);
      assert s == s[..i] + s[i..i + |sep|] + s[i + |sep|..];
  }

  lemma {:induction false} IndexOfAfterFree(a: string, c: char, b: string)
    requires c !in a
    ensures IndexOf(a + [c] + b, [c]) == Some(|a|)
  {
    var s := a + [c] + b;
    assert OccursAt(s, [c], |a|) by {
      assert s[|a|..|a| + 1] == [c];
    }
    forall k | 0 <= k < |a|
      ensures !OccursAt(s, [c], k)
    {
      assert s[k..k + 1][0] == a[k];
    }
  }

  lemma {:induction false} IndexOfFree(a: string, c: char)
    requires c !in a
    ensures IndexOf(a, [c]) == None
  {
    forall k | 0 <= k < |a|
      ensures !OccursAt(a, [c], k)
    {
      assert a[k..k + 1][0] == a[k];
    }
  }

  /** For a one-character separator that none of the pieces contains,
      splitting undoes joining. */
  lemma {:induction false} SplitOnJoin(parts: seq<string>, c: char)
    requires |parts| >= 1
    requires forall k :: 0 <= k < |parts| ==> c !in parts[k]
    ensures SplitOn(Join(parts, [c]), [c]) == parts
  {
    if |parts| == 1 {
      IndexOfFree(parts[0], c);
    } else {
      var rest := Join(parts[1..], [c]);
      var s := parts[0] + [c] + rest;
      assert Join(parts, [c]) == s;
      IndexOfAfterFree(parts[0], c, rest);
      assert s[..|parts[0]|] == parts[0];
      assert s[|parts[0]| + 1..] == rest;
      SplitOnAt(s, [c], |parts[0]|);
      SplitOnJoin(parts[1..], c);
      assert parts == [parts[0]] + parts[1..];
    }
  }

  lemma {:induction false} SplitOnAt(s: string, sep: string, i: nat)
    requires |sep| > 0 && IndexOf(s, sep) == Some(i)
    ensures SplitOn(s, sep) == [s[..i]] + SplitOn(s[i + |sep|..], sep)
  {
  }

  /** The last piece of a split on one character: what follows the last
      occurrence of that character. */
  lemma {:induction false} LastPieceAfterSeparator(base: string, c: char, tail: string)
    requires c !in tail
    ensures var parts := SplitOn(base + [c] + tail, [c]); parts[|parts| - 1] == tail
    decreases |base|
  {
    var s := base + [c] + tail;
    assert OccursAt(s, [c], |base|) by { assert s[|base|..|base| + 1] == [c]; }
    match IndexOf(s, [c])
    case None =>
      assert false;
    case Some(i) =>
      if i < |base| {
        assert s[i + 1..] == base[i + 1..] + [c] + tail;
        LastPieceAfterSeparator(base[i + 1..], c, tail);
      } else {
        assert i == |base|;
        assert s[i + 1..] == tail;
        IndexOfFree(tail, c);
      }
  }

  // ---------------------------------------------------------------------
  // split on /\s+/

  /** The length of the longest prefix of `s` without whitespace. */
  function SpanNonSpace(s: string): (n: nat)
    ensures n <= |s| && NoSpace(s[..n])
    ensures n < |s| ==> IsSpace(s[n])
  {
    if s == [] || IsSpace(s[0]) then 0 else 1 + SpanNonSpace(s[1..])
  }

  /** The length of the longest all-whitespace prefix of `s`. */
  function SpanSpace(s: string): (n: nat)
    ensures n <= |s| && AllSpace(s[..n])
    ensures n < |s| ==> !IsSpace(s[n])
  {
    if s != [] && IsSpace(s[0]) then 1 + SpanSpace(s[1..]) else 0
  }

  /** `s.split(/\s+/)`: the pieces between maximal runs of whitespace. A
      leading or trailing run gives an empty first or last piece, and the
      empty string gives `[""]`. */
  function SplitWs(s: string): (parts: seq<string>)
    ensures |parts| >= 1
    ensures forall k :: 0 <= k < |parts| ==> NoSpace(parts[k])
    decreases |s|
  {
    var i := SpanNonSpace(s);
    if i == |s| then
      assert s[..i] == s;
      assert NoSpace(s);
      [s]
    else
      var j := i + SpanSpace(s[i..]);
      [s[..i]] + SplitWs(s[j..])
  }

  /** An independent description of the same split: every maximal run of
      whitespace replaced by one space. */
  function Squeeze(s: string): string
    decreases |s|
  {
    if s == [] then ""
    else if IsSpace(s[0]) then " " + Squeeze(s[SpanSpace(s)..])
    else [s[0]] + Squeeze(s[1..])
  }

  lemma {:induction false} SqueezeNoSpacePrefix(a: string, b: string)
    requires NoSpace(a)
    ensures Squeeze(a + b) == a + Squeeze(b)
    decreases |a|
  {
    if a != [] {
      assert (a + b)[0] == a[0];
      assert (a + b)[1..] == a[1..] + b;
      assert NoSpace(a[1..]);
      SqueezeNoSpacePrefix(a[1..], b);
      assert a == [a[0]] + a[1..];
    } else {
      assert a + b == b;
    }
  }

  /** Joining the pieces of `split(/\s+/)` with single spaces gives the
      squeezed string: the pieces are exactly the runs of non-whitespace,
      in order. */
  lemma {:induction false} JoinSplitWs(s: string)
    ensures Join(SplitWs(s), " ") == Squeeze(s)
    decreases |s|
  {
    var i := SpanNonSpace(s);
    if i == |s| {
      assert SplitWs(s) == [s];
      assert NoSpace(s) by { assert s[..|s|] == s; }
      assert s + "" == s;
      SqueezeNoSpacePrefix(s, "");
    } else {
      var j := i + SpanSpace(s[i..]);
      SplitWsUnfold(s, i, j);
      JoinSplitWs(s[j..]);
      JoinCons(s[..i], SplitWs(s[j..]), " ");
      SqueezeUnfold(s, i, j);
    }
  }

  lemma {:induction false} SplitWsUnfold(s: string, i: nat, j: nat)
    requires i == SpanNonSpace(s) < |s| && j == i + SpanSpace(s[i..])
    ensures SplitWs(s) == [s[..i]] + SplitWs(s[j..])
  {
  }

  lemma {:induction false} SqueezeUnfold(s: string, i: nat, j: nat)
    requires i == SpanNonSpace(s) < |s| && j == i + SpanSpace(s[i..])
    ensures Squeeze(s) == s[..i] + " " + Squeeze(s[j..])
  {
    var w := s[..i];
    var u := s[i..];
    assert s == w + u;
    SqueezeWordThenSpace(w, u);
    assert u[SpanSpace(u)..] == s[j..];
  }

  lemma {:induction false} SqueezeWordThenSpace(w: string, u: string)
    requires NoSpace(w) && u != [] && IsSpace(u[0])
    ensures Squeeze(w + u) == w + " " + Squeeze(u[SpanSpace(u)..])
  {
    SqueezeNoSpacePrefix(w, u);
    SqueezeAtSpace(u);
    AppendAssoc(w, " ", Squeeze(u[SpanSpace(u)..]));
  }

  lemma {:induction false} SqueezeAtSpace(s: string)
    requires s != [] && IsSpace(s[0])
    ensures Squeeze(s) == " " + Squeeze(s[SpanSpace(s)..])
  {
  }

  /** Pieces of a split on whitespace, leaving out the empty ones. */
  function NonEmpty(parts: seq<string>): seq<string> {
    if parts == [] then []
    else (if parts[0] == "" then [] else [parts[0]]) + NonEmpty(parts[1..])
  }

  lemma {:induction false} NonEmptyAppend(a: seq<string>, b: seq<string>)
    ensures NonEmpty(a + b) == NonEmpty(a) + NonEmpty(b)
  {
    if a != [] {
      assert (a + b)[0] == a[0];
      assert (a + b)[1..] == a[1..] + b;
      NonEmptyAppend(a[1..], b);
    } else {
      assert a + b == b;
    }
  }

  /** Leading whitespace only adds an empty first piece. */
  lemma {:induction false} SplitWsLeadingSpace(s: string)
    ensures NonEmpty(SplitWs(s)) == NonEmpty(SplitWs(s[SpanSpace(s)..]))
  {
    if SpanSpace(s) > 0 {
      assert SpanNonSpace(s) == 0;
      assert s[..0] == "";
      assert s[0..] == s;
      NonEmptyAppend([""], SplitWs(s[SpanSpace(s)..]));
    }
  }

  /** A run without whitespace, up to whitespace or the end, is the span. */
  lemma {:induction false} SpanOfWord(w: string, t: string)
    requires NoSpace(w) && (t == [] || IsSpace(t[0]))
    ensures SpanNonSpace(w + t) == |w|
    decreases |w|
  {
    if w != [] {
      assert (w + t)[0] == w[0];
      assert (w + t)[1..] == w[1..] + t;
      SpanOfWord(w[1..], t);
    } else {
      assert w + t == t;
    }
  }

  /** A run of whitespace, up to other text or the end, is the span. */
  lemma {:induction false} SpanOfRun(sp: string, t: string)
    requires AllSpace(sp) && (t == [] || !IsSpace(t[0]))
    ensures SpanSpace(sp + t) == |sp|
    decreases |sp|
  {
    if sp != [] {
      assert (sp + t)[0] == sp[0];
      assert (sp + t)[1..] == sp[1..] + t;
      SpanOfRun(sp[1..], t);
    } else {
      assert sp + t == t;
    }
  }

  /** A word, a run of whitespace and the rest split into the word and the
      pieces of the rest. */
  lemma {:induction false} SplitWsWord(w: string, sp: string, rest: string)
    requires NoSpace(w) && sp != [] && AllSpace(sp) && (rest == [] || !IsSpace(rest[0]))
    ensures SplitWs(w + sp + rest) == [w] + SplitWs(rest)
  {
    var s := w + sp + rest;
    assert s == w + (sp + rest);
    SpanOfWord(w, sp + rest);
    assert s[..|w|] == w;
    assert s[|w|..] == sp + rest;
    SpanOfRun(sp, rest);
    assert s[|w| + |sp|..] == rest;
    SplitWsUnfold(s, |w|, |w| + |sp|);
  }

  /** The whitespace in front of the rest of `s`, and that rest. */
  lemma {:induction false} LeadingRun(s: string)
    ensures var k := SpanSpace(s);
            s == s[..k] + s[k..] && AllSpace(s[..k]) && (s[k..] == [] || !IsSpace(s[k..][0]))
  {
  }

  lemma {:induction false} SpanSpaceCons(c: char, b: string)
    requires IsSpace(c)
    ensures SpanSpace([c] + b) == 1 + SpanSpace(b)
    ensures SpanNonSpace([c] + b) == 0
  {
    assert ([c] + b)[1..] == b;
  }

  /** The pieces of `a + [c] + b` when `a` is a word followed by
      whitespace: `rest` is `b` without its leading whitespace. */
  lemma {:induction false} SplitWsAfterRun(w: string, run: string, c: char, b: string)
    requires NoSpace(w) && AllSpace(run) && IsSpace(c)
    ensures var rest := b[SpanSpace(b)..];
            SplitWs(w + run + [c] + b) == [w] + SplitWs(rest)
  {
    var k := SpanSpace(b);
    LeadingRun(b);
    var sp := run + [c] + b[..k];
    assert AllSpace(sp) by {
      forall i | 0 <= i < |sp| ensures IsSpace(sp[i]) {
        if i < |run| {
          assert sp[i] == run[i];
        } else if i > |run| {
          assert sp[i] == b[..k][i - |run| - 1];
        }
      }
    }
    assert w + run + [c] + b == w + sp + b[k..];
    SplitWsWord(w, sp, b[k..]);
  }

  /** When `a` has no whitespace, `a + [c] + b` splits into `a` followed by
      the pieces of `b` after its leading whitespace. */
  lemma {:induction false} SplitWsAroundWord(a: string, c: char, b: string)
    requires IsSpace(c) && NoSpace(a)
    ensures NonEmpty(SplitWs(a + [c] + b)) == NonEmpty(SplitWs(a)) + NonEmpty(SplitWs(b))
  {
    var rest := b[SpanSpace(b)..];
    assert a + "" + [c] + b == a + [c] + b;
    SplitWsAfterRun(a, "", c, b);
    SpanOfWord(a, "");
    assert a + "" == a;
    assert a[..|a|] == a;
    assert SplitWs(a) == [a];
    NonEmptyAppend([a], SplitWs(rest));
    SplitWsLeadingSpace(b);
  }

  /** When `a` is a word followed by whitespace to its end, that run merges
      with `c` and the leading whitespace of `b`. */
  lemma {:induction false} SplitWsAroundTrailing(w: string, run: string, c: char, b: string)
    requires IsSpace(c) && NoSpace(w) && run != [] && AllSpace(run)
    ensures NonEmpty(SplitWs(w + run + [c] + b)) == NonEmpty(SplitWs(w + run)) + NonEmpty(SplitWs(b))
  {
    var rest := b[SpanSpace(b)..];
    SplitWsAfterRun(w, run, c, b);
    NonEmptyAppend([w], SplitWs(rest));
    SplitWsLeadingSpace(b);
    var head := NonEmpty([w]);
    assert w + run + "" == w + run;
    SplitWsWord(w, run, "");
    assert SplitWs("") == [""];
    NonEmptyAppend([w], [""]);
    assert NonEmpty([""]) == [];
    assert NonEmpty(SplitWs(w + run)) == head + [];
  }

  /** `a` cut at its first word and the whitespace after it. */
  lemma {:induction false} FirstWord(a: string, i: nat, j: nat)
    requires i == SpanNonSpace(a) < |a| && j == i + SpanSpace(a[i..])
    ensures && i < j <= |a|
            && a == a[..i] + a[i..j] + a[j..]
            && NoSpace(a[..i]) && AllSpace(a[i..j])
            && (a[j..] == [] || !IsSpace(a[j..][0]))
  {
    var u := a[i..];
    assert u[0] == a[i];
    assert u[..j - i] == a[i..j];
    assert u[j - i..] == a[j..];
  }

  /** A word and whitespace in front of text add the word as a piece. */
  lemma {:induction false} NonEmptyAfterWord(w: string, run: string, x: string)
    requires NoSpace(w) && run != [] && AllSpace(run) && x != [] && !IsSpace(x[0])
    ensures NonEmpty(SplitWs(w + run + x)) == NonEmpty([w]) + NonEmpty(SplitWs(x))
  {
    SplitWsWord(w, run, x);
    NonEmptyAppend([w], SplitWs(x));
  }

  /** The pieces of `a + [c] + b` when `a` is a word, whitespace, and more
      text `a'`. */
  lemma {:induction false} SplitWsAroundInner(w: string, run: string, a': string, c: char, b: string)
    requires NoSpace(w) && run != [] && AllSpace(run) && a' != [] && !IsSpace(a'[0])
    requires NonEmpty(SplitWs(a' + [c] + b)) == NonEmpty(SplitWs(a')) + NonEmpty(SplitWs(b))
    ensures NonEmpty(SplitWs(w + run + a' + [c] + b)) == NonEmpty(SplitWs(w + run + a')) + NonEmpty(SplitWs(b))
  {
    var x := a' + [c] + b;
    AppendAssoc(w + run, a' + [c], b);
    AppendAssoc(w + run, a', [c]);
    assert x[0] == a'[0];
    NonEmptyAfterWord(w, run, x);
    NonEmptyAfterWord(w, run, a');
    AppendAssoc(NonEmpty([w]), NonEmpty(SplitWs(a')), NonEmpty(SplitWs(b)));
  }

  /** Splitting on whitespace commutes with concatenation around a
      whitespace character, once empty pieces are left out. */
  lemma {:induction false} SplitWsAround(a: string, c: char, b: string)
    requires IsSpace(c)
    ensures NonEmpty(SplitWs(a + [c] + b)) == NonEmpty(SplitWs(a)) + NonEmpty(SplitWs(b))
    decreases |a|
  {
    var i := SpanNonSpace(a);
    if i == |a| {
      assert a[..i] == a;
      SplitWsAroundWord(a, c, b);
    } else {
      var j := i + SpanSpace(a[i..]);
      FirstWord(a, i, j);
      var w, run, a' := a[..i], a[i..j], a[j..];
      if a' == [] {
        assert a == w + run;
        SplitWsAroundTrailing(w, run, c, b);
      } else {
        SplitWsAround(a', c, b);
        SplitWsAroundInner(w, run, a', c, b);
      }
    }
  }

  // ---------------------------------------------------------------------
  // Decimal numbers

  function DigitChar(d: nat): (c: char)
    requires d < 10
    ensures IsDigit(c)
  {
    ('0' as int + d) as char
  }

  /** A natural number in decimal without leading zeros, as a template
      literal `${n}` writes it. */
  function NatToString(n: nat): (s: string)
    ensures |s| >= 1 && AllDigits(s)
    decreases n
  {
    if n < 10 then [DigitChar(n)] else NatToString(n / 10) + [DigitChar(n % 10)]
  }

  /** `Number(s)` for a string of decimal digits (the empty string is 0). */
  function DigitsValue(s: string): nat
    requires AllDigits(s)
  {
    if s == [] then 0 else 10 * DigitsValue(s[..|s| - 1]) + (s[|s| - 1] as int - '0' as int)
  }

  /** Reading a formatted number back gives the number. */
  lemma {:induction false} DigitsValueNatToString(n: nat)
    ensures DigitsValue(NatToString(n)) == n
    decreases n
  {
    if n >= 10 {
      var s := NatToString(n);
      assert s[..|s| - 1] == NatToString(n / 10);
      DigitsValueNatToString(n / 10);
    }
  }
}
