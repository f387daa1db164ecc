// The webpack loader that strips source-map comments from a bundle's source text.
// It runs two global, multiline regular-expression replacements in a row:
// first `//# sourceMappingURL=` through the end of its line, then
// `/*# sourceMappingURL= ... */` up to the first `*/` on the same line.
module SourceMapStrip {
  import opened Wrappers
  import opened Text

  const LineMarker: string := "//# sourceMappingURL="
  const BlockMarker: string := "/*# sourceMappingURL="
  const BlockClose: string := "*/"

  /** The facts about the two markers' characters that the proofs use. */
  lemma MarkerFacts()
    ensures |LineMarker| == |BlockMarker| == 21
    ensures NoLineTerminators(LineMarker) && NoLineTerminators(BlockMarker)
    ensures forall i :: 0 <= i < |BlockMarker| ==> !ClosesAt(BlockMarker, i)
    ensures BlockMarker[20] == '=' && BlockMarker[1] == '*' && LineMarker[1] == '/'
    ensures forall i :: 1 <= i < |BlockMarker| ==> BlockMarker[i] != '/'
  {
  }

  /** Whether BlockClose occurs in `s` at offset `i`. */
  predicate ClosesAt(s: string, i: nat) {
    i + 1 < |s| && s[i] == '*' && s[i + 1] == '/'
  }

  /** The number of characters that a greedy `.*` matches at the start of `s`. */
  function LineRest(s: string): (n: nat)
    ensures n <= |s|
    ensures NoLineTerminators(s[..n])
    ensures n < |s| ==> IsLineTerminator(s[n])
  {
    if s == [] || IsLineTerminator(s[0]) then 0 else 1 + LineRest(s[1..])
  }

  // Where the lazy `.*?\*\/` finds its close in `s`: the offset of the first
  // BlockClose that no line terminator precedes, if any.
  function CloseAt(s: string): (r: Option<nat>)
    ensures r.Some? ==> r.value + 2 <= |s| && s[r.value] == '*' && s[r.value + 1] == '/'
    ensures r.Some? ==> NoLineTerminators(s[..r.value])
  {
    if ClosesAt(s, 0) then Some(0)
    else if s == [] || IsLineTerminator(s[0]) then None
    else match CloseAt(s[1..])
      case Some(k) => Some(k + 1)
      case None => None
  }

  /** `source.replace(/\/\/# sourceMappingURL=.*$/gm, '')` */
  function StripLineComments(s: string): (r: string)
    ensures |r| <= |s|
    decreases |s|
  {
    if s == [] then []
    else if StartsWith(s, LineMarker) then
      assert s[0] == '/';
      StripLineComments(s[LineRest(s)..])
    else [s[0]] + StripLineComments(s[1..])
  }

  /** Whether the block-comment pattern matches at the start of `s`. */
  predicate BlockMatchAt(s: string) {
    StartsWith(s, BlockMarker) && CloseAt(s[|BlockMarker|..]).Some?
  }

  /** The length of the text the block pattern matches at the start of `s`;
      it holds no line terminator. */
  function BlockMatchLength(s: string): (n: nat)
    requires BlockMatchAt(s)
    ensures |BlockMarker| + 2 <= n <= |s|
    ensures NoLineTerminators(s[..n])
  {
    var k := CloseAt(s[|BlockMarker|..]).value;
    var n := |BlockMarker| + k + 2;
    MarkerFacts();
    assert NoLineTerminators(s[..n]) by {
      forall i | 0 <= i < n ensures !IsLineTerminator(s[..n][i]) {
        if i < |BlockMarker| {
          assert s[i] == s[..|BlockMarker|][i];
        } else if i < |BlockMarker| + k {
          assert s[i] == s[|BlockMarker|..][..k][i - |BlockMarker|];
        } else {
          assert s[i] == s[|BlockMarker|..][i - |BlockMarker|];
        }
      }
    }
    n
  }

  /** `source.replace(/\/\*# sourceMappingURL=.*?\*\//gm, '')` */
  function StripBlockComments(s: string): (r: string)
    ensures |r| <= |s|
    decreases |s|
  {
    if s == [] then []
    else if BlockMatchAt(s) then
      StripBlockComments(s[BlockMatchLength(s)..])
    else [s[0]] + StripBlockComments(s[1..])
  }

  /** The loader: the line pass first, then the block pass. */
  function StripSourceMap(source: string): (r: string)
    ensures |r| <= |source|
  {
    StripBlockComments(StripLineComments(source))
  }

  // ---------------------------------------------------------------------
  // Line terminators are kept: the terminators of the output, in order,
  // are exactly those of the input, so the number of lines is unchanged.

  /** The line terminators of `s`, in order. */
  function Terminators(s: string): (t: string)
    ensures |t| <= |s|
  {
    if s == [] then []
    else if IsLineTerminator(s[0]) then [s[0]] + Terminators(s[1..])
    else Terminators(s[1..])
  }

  lemma {:induction false} TerminatorsAppend(a: string, b: string)
    ensures Terminators(a + b) == Terminators(a) + Terminators(b)
    decreases |a|
  {
    if a != [] {
      assert (a + b)[1..] == a[1..] + b;
      TerminatorsAppend(a[1..], b);
    } else {
      assert a + b == b;
    }
  }

  lemma {:induction false} TerminatorsNone(s: string)
    requires NoLineTerminators(s)
    ensures Terminators(s) == []
    decreases |s|
  {
    if s != [] {
      TerminatorsNone(s[1..]);
    }
  }

  /** Dropping a stretch without line terminators keeps every terminator. */
  lemma TerminatorsSkip(s: string, n: nat)
    requires n <= |s| && NoLineTerminators(s[..n])
    ensures Terminators(s[n..]) == Terminators(s)
  {
    assert s == s[..n] + s[n..];
    TerminatorsAppend(s[..n], s[n..]);
    TerminatorsNone(s[..n]);
  }

  lemma {:induction false} LineCommentsKeepTerminators(s: string)
    ensures Terminators(StripLineComments(s)) == Terminators(s)
    decreases |s|
  {
    if s == [] {
    } else if StartsWith(s, LineMarker) {
      LineCommentsKeepTerminators(s[LineRest(s)..]);
      TerminatorsSkip(s, LineRest(s));
    } else {
      LineCommentsKeepTerminators(s[1..]);
      TerminatorsAppend([s[0]], StripLineComments(s[1..]));
    }
  }

  lemma {:induction false} BlockCommentsKeepTerminators(s: string)
    ensures Terminators(StripBlockComments(s)) == Terminators(s)
    decreases |s|
  {
    if s == [] {
    } else if BlockMatchAt(s) {
      var n := BlockMatchLength(s);
      BlockCommentsKeepTerminators(s[n..]);
      TerminatorsSkip(s, n);
    } else {
      BlockCommentsKeepTerminators(s[1..]);
      TerminatorsAppend([s[0]], StripBlockComments(s[1..]));
    }
  }

  /** The loader never adds or removes a line terminator. */
  lemma StripSourceMapKeepsLines(source: string)
    ensures Terminators(StripSourceMap(source)) == Terminators(source)
  {
    LineCommentsKeepTerminators(source);
    BlockCommentsKeepTerminators(StripLineComments(source));
  }

  // ---------------------------------------------------------------------
  // Text without a marker passes through unchanged.

  predicate HasLineMarker(s: string) {
    exists i :: 0 <= i <= |s| && StartsWith(s[i..], LineMarker)
  }

  /** The line pass changes its input if and only if the input holds the marker. */
  lemma {:induction false} LineCommentsUnchangedIff(s: string)
    ensures StripLineComments(s) == s <==> !HasLineMarker(s)
    decreases |s|
  {
    if s == [] {
      assert !StartsWith(s[0..], LineMarker);
    } else if StartsWith(s, LineMarker) {
      assert s[0..] == s;
      assert |StripLineComments(s)| < |s|;
    } else {
      LineCommentsUnchangedIff(s[1..]);
      if HasLineMarker(s) {
        var i :| 0 <= i <= |s| && StartsWith(s[i..], LineMarker);
        assert i > 0 by { assert s[0..] == s; }
        assert s[1..][i - 1..] == s[i..];
      }
      if HasLineMarker(s[1..]) {
        var i :| 0 <= i <= |s[1..]| && StartsWith(s[1..][i..], LineMarker);
        assert s[1..][i..] == s[i + 1..];
      }
      if StripLineComments(s) == s {
        assert StripLineComments(s)[1..] == StripLineComments(s[1..]);
      }
    }
  }

  predicate HasBlockMatch(s: string) {
    exists i :: 0 <= i <= |s| && BlockMatchAt(s[i..])
  }

  /** The block pass changes its input if and only if some block comment is terminated on its line. */
  lemma {:induction false} BlockCommentsUnchangedIff(s: string)
    ensures StripBlockComments(s) == s <==> !HasBlockMatch(s)
    decreases |s|
  {
    if s == [] {
      assert !BlockMatchAt(s[0..]);
    } else if BlockMatchAt(s) {
      assert s[0..] == s;
      assert |StripBlockComments(s)| < |s|;
    } else {
      BlockCommentsUnchangedIff(s[1..]);
      if HasBlockMatch(s) {
        var i :| 0 <= i <= |s| && BlockMatchAt(s[i..]);
        assert i > 0 by { assert s[0..] == s; }
        assert s[1..][i - 1..] == s[i..];
      }
      if HasBlockMatch(s[1..]) {
        var i :| 0 <= i <= |s[1..]| && BlockMatchAt(s[1..][i..]);
        assert s[1..][i..] == s[i + 1..];
      }
      if StripBlockComments(s) == s {
        assert StripBlockComments(s)[1..] == StripBlockComments(s[1..]);
      }
    }
  }

  // ---------------------------------------------------------------------
  // What the line pass removes: the marker and the rest of its line, and
  // nothing before it.

  /** A prefix in which no marker starts is copied unchanged. */
  lemma {:induction false} LineCommentsKeepPrefix(pre: string, rest: string)
    requires forall j :: 0 <= j < |pre| ==> !StartsWith((pre + rest)[j..], LineMarker)
    ensures StripLineComments(pre + rest) == pre + StripLineComments(rest)
    decreases |pre|
  {
    if pre == [] {
      assert pre + rest == rest;
    } else {
      var s := pre + rest;
      assert !StartsWith(s[0..], LineMarker);
      assert s[0..] == s;
      assert s[1..] == pre[1..] + rest;
      forall j | 0 <= j < |pre[1..]| ensures !StartsWith((pre[1..] + rest)[j..], LineMarker) {
        assert (pre[1..] + rest)[j..] == s[j + 1..];
      }
      LineCommentsKeepPrefix(pre[1..], rest);
    }
  }

  /** A marker is removed with the rest of its line; the terminator stays. */
  lemma LineMarkerRemovedToEndOfLine(tail: string, t: char, post: string)
    requires NoLineTerminators(tail) && IsLineTerminator(t)
    ensures StripLineComments(LineMarker + tail + [t] + post) == [t] + StripLineComments(post)
  {
    var s := LineMarker + tail + [t] + post;
    assert StartsWith(s, LineMarker);
    var n := |LineMarker| + |tail|;
    assert s[..n] == LineMarker + tail;
    LineRestIsLineEnd(s, n);
    assert s[n..] == [t] + post;
    assert StripLineComments([t] + post) == [t] + StripLineComments(post) by {
      assert ([t] + post)[1..] == post;
    }
  }

  /** On the last line, a marker is removed with everything after it. */
  lemma LineMarkerOnLastLine(tail: string)
    requires NoLineTerminators(tail)
    ensures StripLineComments(LineMarker + tail) == []
  {
    var s := LineMarker + tail;
    assert StartsWith(s, LineMarker);
    LineRestIsLineEnd(s, |s|);
    assert s[|s|..] == [];
  }

  lemma {:induction false} LineRestIsLineEnd(s: string, n: nat)
    requires n <= |s| && NoLineTerminators(s[..n])
    requires n == |s| || IsLineTerminator(s[n])
    ensures LineRest(s) == n
    decreases |s|
  {
    if n > 0 {
      assert s[1..][..n - 1] == s[..n][1..];
      LineRestIsLineEnd(s[1..], n - 1);
    }
  }

  /** The text before the marker on its line is kept, the rest of the line goes. */
  lemma LineCommentKeepsTextBefore(pre: string, tail: string, t: char, post: string)
    requires forall j :: 0 <= j < |pre| ==> !StartsWith((pre + LineMarker)[j..], LineMarker)
    requires NoLineTerminators(tail) && IsLineTerminator(t)
    ensures StripLineComments(pre + LineMarker + tail + [t] + post) == pre + [t] + StripLineComments(post)
  {
    var rest := LineMarker + tail + [t] + post;
    assert pre + LineMarker + tail + [t] + post == pre + rest;
    forall j | 0 <= j < |pre| ensures !StartsWith((pre + rest)[j..], LineMarker) {
      assert (pre + rest)[j..][..|LineMarker|] == (pre + LineMarker)[j..][..|LineMarker|];
    }
    LineCommentsKeepPrefix(pre, rest);
    LineMarkerRemovedToEndOfLine(tail, t, post);
  }

  // ---------------------------------------------------------------------
  // What the block pass removes: a comment closed on its own line; an
  // unterminated one stays.

  predicate NoBlockClose(s: string) {
    forall i :: 0 <= i < |s| ==> !ClosesAt(s, i)
  }

  lemma {:induction false} CloseAtFirst(body: string, post: string)
    requires NoLineTerminators(body) && NoBlockClose(body)
    ensures CloseAt(body + BlockClose + post) == Some(|body|)
    decreases |body|
  {
    var s := body + BlockClose + post;
    if body == [] {
      assert ClosesAt(s, 0);
    } else {
      assert !ClosesAt(s, 0) by {
        if |body| >= 2 { assert !ClosesAt(body, 0); } else { assert s[1] == '*'; }
      }
      assert s[1..] == body[1..] + BlockClose + post;
      forall i | 0 <= i < |body[1..]| ensures !ClosesAt(body[1..], i) {
        assert !ClosesAt(body, i + 1);
      }
      CloseAtFirst(body[1..], post);
    }
  }

  lemma {:induction false} CloseAtNone(x: string, t: char, post: string)
    requires NoLineTerminators(x) && NoBlockClose(x) && IsLineTerminator(t)
    ensures CloseAt(x + [t] + post) == None
    decreases |x|
  {
    var s := x + [t] + post;
    if x == [] {
      assert s[0] == t;
    } else {
      assert !ClosesAt(s, 0) by {
        if |x| >= 2 { assert !ClosesAt(x, 0); } else { assert s[1] == t; }
      }
      assert s[1..] == x[1..] + [t] + post;
      forall i | 0 <= i < |x[1..]| ensures !ClosesAt(x[1..], i) {
        assert !ClosesAt(x, i + 1);
      }
      CloseAtNone(x[1..], t, post);
    }
  }

  // A block comment closed on its own line is removed, its BlockClose included.
  lemma BlockCommentRemoved(body: string, post: string)
    requires NoLineTerminators(body) && NoBlockClose(body)
    ensures StripBlockComments(BlockMarker + body + BlockClose + post) == StripBlockComments(post)
  {
    var s := BlockMarker + body + BlockClose + post;
    assert s[..|BlockMarker|] == BlockMarker;
    assert s[|BlockMarker|..] == body + BlockClose + post;
    CloseAtFirst(body, post);
    assert s[|BlockMarker| + |body| + 2..] == post;
  }

  /** A prefix at no position of which the pattern matches is copied unchanged. */
  lemma {:induction false} BlockCommentsKeepPrefix(pre: string, rest: string)
    requires forall j :: 0 <= j < |pre| ==> !BlockMatchAt((pre + rest)[j..])
    ensures StripBlockComments(pre + rest) == pre + StripBlockComments(rest)
    decreases |pre|
  {
    if pre == [] {
      assert pre + rest == rest;
    } else {
      var s := pre + rest;
      assert s[0..] == s;
      assert s[1..] == pre[1..] + rest;
      forall j | 0 <= j < |pre[1..]| ensures !BlockMatchAt((pre[1..] + rest)[j..]) {
        assert (pre[1..] + rest)[j..] == s[j + 1..];
      }
      BlockCommentsKeepPrefix(pre[1..], rest);
    }
  }

  /** The block marker followed by a stretch without a close or a line terminator. */
  lemma OpenBlockLine(tail: string)
    requires NoLineTerminators(tail) && NoBlockClose(tail)
    ensures NoLineTerminators(BlockMarker + tail) && NoBlockClose(BlockMarker + tail)
  {
    var line := BlockMarker + tail;
    MarkerFacts();
    forall i | 0 <= i < |line| ensures !IsLineTerminator(line[i]) && !ClosesAt(line, i) {
      if i >= |BlockMarker| {
        assert line[i] == tail[i - |BlockMarker|];
        if i + 1 < |line| { assert line[i + 1] == tail[i + 1 - |BlockMarker|]; }
        assert !ClosesAt(tail, i - |BlockMarker|);
      } else if i == |BlockMarker| - 1 {
        assert line[i] == '=';
      } else {
        assert line[i] == BlockMarker[i] && line[i + 1] == BlockMarker[i + 1];
        assert !ClosesAt(BlockMarker, i);
      }
    }
  }

  /** The pattern matches nowhere on a line that holds no close. */
  lemma NoBlockMatchOnOpenLine(line: string, t: char, post: string, j: nat)
    requires NoLineTerminators(line) && NoBlockClose(line) && IsLineTerminator(t)
    requires j <= |line|
    ensures !BlockMatchAt((line + [t] + post)[j..])
  {
    var s := line + [t] + post;
    if j == |line| {
      assert s[j] == t;
    } else if StartsWith(s[j..], BlockMarker) {
      if j + |BlockMarker| > |line| {
        assert s[j..][|line| - j] == t;
        assert BlockMarker[|line| - j] == s[j..][..|BlockMarker|][|line| - j];
      } else {
        var x := line[j + |BlockMarker|..];
        forall i | 0 <= i < |x| ensures !IsLineTerminator(x[i]) && !ClosesAt(x, i) {
          assert x[i] == line[j + |BlockMarker| + i];
          assert !ClosesAt(line, j + |BlockMarker| + i);
        }
        assert s[j..][|BlockMarker|..] == x + [t] + post;
        CloseAtNone(x, t, post);
      }
    }
  }

  /** A block comment not closed before the end of its line is left in place. */
  lemma UnterminatedBlockCommentKept(tail: string, t: char, post: string)
    requires NoLineTerminators(tail) && NoBlockClose(tail) && IsLineTerminator(t)
    ensures StripBlockComments(BlockMarker + tail + [t] + post)
         == BlockMarker + tail + [t] + StripBlockComments(post)
  {
    var line := BlockMarker + tail;
    OpenBlockLine(tail);
    assert BlockMarker + tail + [t] + post == (line + [t]) + post;
    forall j | 0 <= j < |line + [t]| ensures !BlockMatchAt(((line + [t]) + post)[j..]) {
      assert (line + [t]) + post == line + [t] + post;
      NoBlockMatchOnOpenLine(line, t, post, j);
    }
    BlockCommentsKeepPrefix(line + [t], post);
  }

  // ---------------------------------------------------------------------
  // The order of the two passes matters.

  lemma LineCommentKeepsTextBeforeOnLastLine(pre: string, tail: string)
    requires forall j :: 0 <= j < |pre| ==> !StartsWith((pre + LineMarker)[j..], LineMarker)
    requires NoLineTerminators(tail)
    ensures StripLineComments(pre + (LineMarker + tail)) == pre
  {
    NoLineMarkerBefore(pre, tail);
    LineCommentsKeepPrefix(pre, LineMarker + tail);
    LineMarkerOnLastLine(tail);
    assert pre + [] == pre;
  }

  /** A marker-free prefix stays marker-free whatever follows the marker after it. */
  lemma NoLineMarkerBefore(pre: string, tail: string)
    requires forall j :: 0 <= j < |pre| ==> !StartsWith((pre + LineMarker)[j..], LineMarker)
    ensures forall j :: 0 <= j < |pre| ==> !StartsWith((pre + (LineMarker + tail))[j..], LineMarker)
  {
    forall j | 0 <= j < |pre| ensures !StartsWith((pre + (LineMarker + tail))[j..], LineMarker) {
      assert (pre + (LineMarker + tail))[j..] == (pre + LineMarker)[j..] + tail;
      StartsWithLonger((pre + LineMarker)[j..], tail, LineMarker);
    }
  }

  lemma StartsWithLonger(a: string, b: string, p: string)
    requires |p| <= |a|
    ensures StartsWith(a + b, p) == StartsWith(a, p)
  {
    assert (a + b)[..|p|] == a[..|p|];
  }

  /** No line marker starts inside the block marker. */
  lemma NoLineMarkerInBlockMarker()
    ensures forall j :: 0 <= j < |BlockMarker| ==> !StartsWith((BlockMarker + LineMarker)[j..], LineMarker)
  {
    forall j | 0 <= j < |BlockMarker| ensures !StartsWith((BlockMarker + LineMarker)[j..], LineMarker) {
      if j == 0 {
        assert (BlockMarker + LineMarker)[1] == '*';
      } else {
        assert (BlockMarker + LineMarker)[j] == BlockMarker[j];
      }
    }
  }

  /** The block marker alone is an unterminated comment and stays. */
  lemma BlockMarkerAloneKept()
    ensures StripBlockComments(BlockMarker) == BlockMarker
  {
    forall j | 0 <= j < |BlockMarker| ensures !BlockMatchAt((BlockMarker + [])[j..]) {
      assert BlockMarker + [] == BlockMarker;
      if j == 0 {
        assert BlockMarker[|BlockMarker|..] == [];
      }
    }
    BlockCommentsKeepPrefix(BlockMarker, []);
    assert BlockMarker + [] == BlockMarker;
  }

  /** The example text of LinePassRunsFirst is one terminated block comment. */
  lemma BlockPassRemovesExample()
    ensures StripBlockComments(BlockMarker + (LineMarker + "x */")) == []
  {
    var body := LineMarker + "x ";
    MarkerFacts();
    forall i | 0 <= i < |body| ensures !IsLineTerminator(body[i]) && !ClosesAt(body, i) {
      if i < |LineMarker| { assert body[i] == LineMarker[i]; }
    }
    BlockCommentRemoved(body, []);
    ConcatAssoc(LineMarker, "x ", BlockClose);
    assert "x " + BlockClose == "x */";
    ConcatAssoc(BlockMarker, body, BlockClose);
    assert BlockMarker + body + BlockClose + [] == BlockMarker + body + BlockClose;
  }

  /** A block comment whose body holds a line marker: the line pass runs
      first and cuts the block comment open, so its opening survives; the
      passes in the other order would remove the whole text. */
  lemma LinePassRunsFirst()
    ensures StripSourceMap(BlockMarker + (LineMarker + "x */")) == BlockMarker
    ensures StripLineComments(StripBlockComments(BlockMarker + (LineMarker + "x */"))) == []
  {
    NoLineMarkerInBlockMarker();
    assert NoLineTerminators("x */");
    LineCommentKeepsTextBeforeOnLastLine(BlockMarker, "x */");
    BlockMarkerAloneKept();
    BlockPassRemovesExample();
  }
}
