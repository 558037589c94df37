/**
 * The transcript format `parseFile` reads, written out: numbered blocks of
 * an id line, an English line and a Chinese line, separated by one blank
 * line. Rendering segments and parsing the text again gives the segments
 * back; the concrete inputs below follow from the same lemmas.
 */
module TranscriptRender {
  import opened Wrappers
  import opened Text
  import opened Types
  import opened Transcript
  import opened TranscriptProperties

  /* ---------- Splitting text whose newlines are all followed by text ---------- */

  /** Every '\n' of `b` is followed, inside `b`, by a non-whitespace character. */
  ghost predicate Tight(b: string)
  {
    forall p | 0 <= p < |b| :: FollowedByText(b, p)
  }

  /** A '\n' at `p` is followed by a non-whitespace character. */
  ghost predicate FollowedByText(b: string, p: nat)
    requires p < |b|
  {
    b[p] == '\n' ==> p + 1 < |b| && !IsSpace(b[p + 1])
  }

  lemma TightWithoutNewline(b: string)
    requires '\n' !in b
    ensures Tight(b)
  {
  }

  lemma TightJoin(x: string, y: string)
    requires Tight(x) && Tight(y) && y != [] && !IsSpace(y[0])
    ensures Tight(x + "\n" + y)
  {
    var b := x + "\n" + y;
    forall p | 0 <= p < |b| ensures FollowedByText(b, p) {
      if p < |x| {
        assert FollowedByText(x, p);
        assert b[p] == x[p];
        if p + 1 < |x| { assert b[p + 1] == x[p + 1]; }
      } else if p > |x| {
        assert FollowedByText(y, p - |x| - 1);
        assert b[p] == y[p - |x| - 1];
        if p + 1 < |b| { assert b[p + 1] == y[p - |x|]; }
      }
    }
  }

  lemma NoSeparatorBeforeText(t: string, p: nat)
    requires p + 1 < |t| && !IsSpace(t[p + 1])
    ensures NoSeparatorAt(t, p)
  {
    forall k | p < k < |t| && t[k] == '\n' ensures !AllSpace(t[p + 1..k]) {
      assert t[p + 1..k][0] == t[p + 1];
    }
  }

  lemma NoSeparatorAtEnd(t: string)
    requires t != []
    ensures NoCut(t, |t| - 1, |t|)
  {
    assert NoSeparatorAt(t, |t| - 1);
  }

  /** No separator starts anywhere in `q..r`. */
  ghost predicate NoCut(t: string, q: nat, r: nat)
    requires q <= r <= |t|
    decreases r - q
  {
    q == r || (NoSeparatorAt(t, q) && NoCut(t, q + 1, r))
  }

  lemma {:induction false} NoCutOfAll(t: string, q: nat, r: nat)
    requires q <= r <= |t| && forall p | q <= p < r :: NoSeparatorAt(t, p)
    ensures NoCut(t, q, r)
    decreases r - q
  {
    if q < r {
      NoCutOfAll(t, q + 1, r);
    }
  }

  lemma {:induction false} NoCutJoin(t: string, q: nat, m: nat, r: nat)
    requires q <= m <= r <= |t| && NoCut(t, q, m) && NoCut(t, m, r)
    ensures NoCut(t, q, r)
    decreases m - q
  {
    if q < m {
      NoCutJoin(t, q + 1, m, r);
    }
  }

  /** Scanning on past positions where no separator starts. */
  lemma {:induction false} SplitFromSkip(t: string, start: nat, q: nat, r: nat)
    requires start <= q <= r <= |t|
    requires NoCut(t, q, r)
    ensures SplitFrom(t, start, q) == SplitFrom(t, start, r)
    decreases r - q
  {
    if q < r {
      assert NoSeparatorAt(t, q);
      SplitFromSkip(t, start, q + 1, r);
    }
  }

  /** A window of `t` that is a tight block holds no separator. */
  lemma TightWindow(t: string, a: nat, x: string)
    requires a + |x| <= |t| && t[a..a + |x|] == x && Tight(x)
    ensures NoCut(t, a, a + |x|)
  {
    forall p | a <= p < a + |x| ensures NoSeparatorAt(t, p) {
      assert t[p] == x[p - a];
      assert FollowedByText(x, p - a);
      if t[p] == '\n' {
        assert t[p + 1] == x[p - a + 1];
        NoSeparatorBeforeText(t, p);
      }
    }
    NoCutOfAll(t, a, a + |x|);
  }

  /** Exactly one blank line followed by text: the separator is the two newlines. */
  lemma SeparatorOfBlankLine(t: string, p: nat)
    requires p + 2 < |t| && t[p] == '\n' && t[p + 1] == '\n' && !IsSpace(t[p + 2])
    ensures SeparatorEnd(t, p) == Some(p + 2)
  {
    var r := LastNewlineOfRun(t, p + 1, -1);
    assert r >= p + 1;
  }

  /** A tight text, possibly followed by one newline, is a single block. */
  lemma SplitBlocksTight(x: string, w: string)
    requires Tight(x) && (w == [] || w == "\n")
    ensures SplitBlocks(x + w) == [x + w]
  {
    var t := x + w;
    assert t[0..|x|] == x;
    TightWindow(t, 0, x);
    if w != [] {
      NoSeparatorAtEnd(t);
      NoCutJoin(t, 0, |x|, |t|);
    }
    SplitFromSkip(t, 0, 0, |t|);
    assert t[0..] == t;
  }

  /* ---------- One block ---------- */

  /** A block of the format: an id line, an English line and a Chinese line. */
  function BlockText(id: string, en: string, cn: string): string
  {
    id + "\n" + en + "\n" + cn
  }

  lemma DigitsNotSpace(d: string)
    requires AllDigits(d)
    ensures '\n' !in d && !IsSpace(d[0]) && !IsSpace(d[|d| - 1])
  {
    assert IsDigit(d[0]) && IsDigit(d[|d| - 1]);
  }

  lemma BlockTextTight(d: string, en: string, cn: string)
    requires AllDigits(d) && SegmentText(en) && SegmentText(cn)
    ensures Tight(BlockText(d, en, cn))
  {
    DigitsNotSpace(d);
    TightWithoutNewline(d);
    TightWithoutNewline(en);
    TightWithoutNewline(cn);
    TightJoin(en, cn);
    var y := en + "\n" + cn;
    assert y[0] == en[0];
    TightJoin(d, y);
    assert BlockText(d, en, cn) == d + "\n" + y;
  }

  /** The three lines of a block. */
  lemma BlockTextLines(d: string, en: string, cn: string)
    requires '\n' !in d && '\n' !in en
    ensures Split(BlockText(d, en, cn), '\n') == [d, en] + Split(cn, '\n')
  {
    var y := en + ['\n'] + cn;
    assert BlockText(d, en, cn) == d + ['\n'] + y;
    calc {
      Split(BlockText(d, en, cn), '\n');
      { SplitCons(d, '\n', y); }
      [d] + Split(y, '\n');
      { SplitCons(en, '\n', cn); }
      [d] + ([en] + Split(cn, '\n'));
      [d, en] + Split(cn, '\n');
    }
  }

  /**
   * A block with a digit-string id line and two one-line texts is read as the
   * segment with that id's value (leading zeros allowed) and those texts, with
   * or without a trailing newline.
   */
  lemma ParseBlockText(d: string, en: string, cn: string, w: string)
    requires AllDigits(d) && SegmentText(en) && SegmentText(cn)
    requires w == [] || w == "\n"
    ensures ParseBlock(BlockText(d, en, cn) + w) == Some(Segment(DecimalValue(d), en, cn))
  {
    var b := BlockText(d, en, cn);
    DigitsNotSpace(d);
    assert b[0] == d[0] && b[|b| - 1] == cn[|cn| - 1];
    if w == [] {
      TrimOfTrimmed(b);
      assert b + w == b;
    } else {
      TrimTrailingNewline(b);
    }
    BlockTextLines(d, en, cn);
    SplitNoSeparator(cn, '\n');
    TrimOfTrimmed(en);
    TrimOfTrimmed(cn);
  }

  /** Lines after the third do not change the segment. */
  lemma ParseBlockExtraLines(d: string, en: string, cn: string, extra: string)
    requires AllDigits(d) && SegmentText(en) && SegmentText(cn)
    requires extra != [] && !IsSpace(extra[|extra| - 1])
    ensures ParseBlock(BlockText(d, en, cn) + "\n" + extra) == Some(Segment(DecimalValue(d), en, cn))
  {
    var b := BlockText(d, en, cn) + "\n" + extra;
    DigitsNotSpace(d);
    assert b[0] == d[0] && b[|b| - 1] == extra[|extra| - 1];
    TrimOfTrimmed(b);
    var z := cn + ['\n'] + extra;
    assert b == BlockText(d, en, z);
    BlockTextLines(d, en, z);
    SplitCons(cn, '\n', extra);
    TrimOfTrimmed(en);
    TrimOfTrimmed(cn);
  }

  /* ---------- Blocks joined by blank lines ---------- */

  /** Blocks in order, separated by one blank line. */
  function JoinBlocks(bs: seq<string>): string
  {
    if bs == [] then []
    else if |bs| == 1 then bs[0]
    else bs[0] + "\n\n" + JoinBlocks(bs[1..])
  }

  /** A block that the separator regex leaves whole when it is joined to others. */
  ghost predicate Separable(b: string)
  {
    b != [] && !IsSpace(b[0]) && Tight(b)
  }

  lemma JoinBlocksHead(bs: seq<string>)
    requires bs != [] && bs[0] != []
    ensures JoinBlocks(bs) != [] && JoinBlocks(bs)[0] == bs[0][0]
  {
  }

  lemma {:induction false} JoinBlocksWithout(bs: seq<string>, c: char)
    requires c != '\n' && forall i | 0 <= i < |bs| :: c !in bs[i]
    ensures c !in JoinBlocks(bs)
    decreases |bs|
  {
    if |bs| > 1 {
      assert forall i | 0 <= i < |bs| - 1 :: bs[1..][i] == bs[i + 1];
      JoinBlocksWithout(bs[1..], c);
    }
  }

  /** Where `x + "\n\n" + u` sits in `t`. */
  lemma Window(t: string, start: nat, x: string, u: string)
    requires start <= |t| && t[start..] == x + "\n\n" + u && u != []
    ensures start + |x| + 2 < |t|
    ensures t[start..start + |x|] == x
    ensures t[start + |x|] == '\n' && t[start + |x| + 1] == '\n'
    ensures t[start + |x| + 2..] == u && t[start + |x| + 2] == u[0]
  {
    var v := t[start..];
    var m := start + |x|;
    assert t[start..m] == v[..|x|];
    assert t[m] == v[|x|] && t[m + 1] == v[|x| + 1];
    assert t[m + 2..] == v[|x| + 2..];
  }

  /**
   * `split(/\n\s*\n/)` applied, from `start`, to separable blocks joined by
   * blank lines (and possibly one final newline) gives back the blocks.
   */
  lemma {:induction false} SplitJoined(t: string, start: nat, bs: seq<string>, w: string)
    requires bs != [] && forall i | 0 <= i < |bs| :: Separable(bs[i])
    requires w == [] || w == "\n"
    requires start <= |t| && t[start..] == JoinBlocks(bs) + w
    ensures SplitFrom(t, start, start) == bs[..|bs| - 1] + [bs[|bs| - 1] + w]
    decreases |bs|
  {
    if |bs| == 1 {
      SplitLastBlock(t, start, bs[0], w);
    } else {
      TailSeparable(bs);
      JoinedWindow(t, start, bs, w);
      SplitFirstBlock(t, start, bs[0], JoinBlocks(bs[1..]) + w);
      SplitJoined(t, start + |bs[0]| + 2, bs[1..], w);
      ConsBlocks(bs, w, SplitFrom(t, start, start), SplitFrom(t, start + |bs[0]| + 2, start + |bs[0]| + 2));
    }
  }

  /** Joined blocks read as the first block, a blank line and the rest. */
  lemma JoinedWindow(t: string, start: nat, bs: seq<string>, w: string)
    requires |bs| >= 2 && bs[1] != []
    requires start <= |t| && t[start..] == JoinBlocks(bs) + w
    ensures t[start..] == bs[0] + "\n\n" + (JoinBlocks(bs[1..]) + w)
    ensures JoinBlocks(bs[1..]) + w != [] && (JoinBlocks(bs[1..]) + w)[0] == bs[1][0]
  {
    JoinBlocksHead(bs[1..]);
    AppendAssoc(bs[0] + "\n\n", JoinBlocks(bs[1..]), w);
  }

  lemma SplitLastBlock(t: string, start: nat, x: string, w: string)
    requires Separable(x) && (w == [] || w == "\n")
    requires start <= |t| && t[start..] == x + w
    ensures SplitFrom(t, start, start) == [x + w]
  {
    assert t[start..start + |x|] == x;
    TightWindow(t, start, x);
    if w != [] {
      NoSeparatorAtEnd(t);
      NoCutJoin(t, start, start + |x|, |t|);
    }
    SplitFromSkip(t, start, start, |t|);
  }

  lemma SplitFirstBlock(t: string, start: nat, x: string, u: string)
    requires Separable(x) && u != [] && !IsSpace(u[0])
    requires start <= |t| && t[start..] == x + "\n\n" + u
    ensures start + |x| + 2 <= |t| && t[start + |x| + 2..] == u
    ensures SplitFrom(t, start, start) == [x] + SplitFrom(t, start + |x| + 2, start + |x| + 2)
  {
    Window(t, start, x, u);
    ScanFirstBlock(t, start, x);
    CutAtBlankLine(t, start, x);
  }

  /** The scan passes over a tight block without a cut. */
  lemma ScanFirstBlock(t: string, start: nat, x: string)
    requires Separable(x) && start + |x| <= |t| && t[start..start + |x|] == x
    ensures SplitFrom(t, start, start) == SplitFrom(t, start, start + |x|)
  {
    TightWindow(t, start, x);
    SplitFromSkip(t, start, start, start + |x|);
  }

  /** A blank line followed by text, right after `x`, cuts the block there. */
  lemma CutAtBlankLine(t: string, start: nat, x: string)
    requires start + |x| + 2 < |t| && t[start..start + |x|] == x
    requires t[start + |x|] == '\n' && t[start + |x| + 1] == '\n' && !IsSpace(t[start + |x| + 2])
    ensures SplitFrom(t, start, start + |x|) == [x] + SplitFrom(t, start + |x| + 2, start + |x| + 2)
  {
    var m := start + |x|;
    SeparatorOfBlankLine(t, m);
    SplitFromAtSeparator(t, start, m, m + 2);
  }

  lemma SplitFromAtSeparator(t: string, start: nat, q: nat, e: nat)
    requires start <= q < |t| && SeparatorEnd(t, q) == Some(e)
    ensures SplitFrom(t, start, q) == [t[start..q]] + SplitFrom(t, e, e)
  {
  }

  /** Splitting joined blocks gives them back. */
  lemma SplitJoinBlocks(bs: seq<string>)
    requires bs != [] && forall i | 0 <= i < |bs| :: Separable(bs[i])
    ensures SplitBlocks(JoinBlocks(bs)) == bs
  {
    var t := JoinBlocks(bs);
    assert t[0..] == t + [];
    SplitJoined(t, 0, bs, []);
    LastWithNothing(bs);
  }

  lemma ConsBlocks(bs: seq<string>, w: string, whole: seq<string>, r: seq<string>)
    requires |bs| >= 2 && whole == [bs[0]] + r
    requires r == bs[1..][..|bs[1..]| - 1] + [bs[1..][|bs[1..]| - 1] + w]
    ensures whole == bs[..|bs| - 1] + [bs[|bs| - 1] + w]
  {
    assert bs[..|bs| - 1] == [bs[0]] + bs[1..][..|bs[1..]| - 1];
  }

  lemma TailSeparable(bs: seq<string>)
    requires bs != [] && forall i | 0 <= i < |bs| :: Separable(bs[i])
    ensures forall i | 0 <= i < |bs[1..]| :: Separable(bs[1..][i])
  {
    forall i | 0 <= i < |bs[1..]| ensures Separable(bs[1..][i]) {
      assert bs[1..][i] == bs[i + 1];
    }
  }

  lemma LastWithNothing(bs: seq<string>)
    requires bs != []
    ensures bs[..|bs| - 1] + [bs[|bs| - 1] + []] == bs
  {
    assert bs[|bs| - 1] + [] == bs[|bs| - 1];
  }

  /* ---------- Writing segments out ---------- */

  /** What a segment needs to be written in the format and read back. */
  predicate Renderable(s: Segment)
  {
    SegmentText(s.en) && SegmentText(s.cn) && '\r' !in s.en && '\r' !in s.cn
  }

  function RenderBlock(s: Segment): string
  {
    BlockText(DecimalString(s.id), s.en, s.cn)
  }

  function RenderBlocks(segs: seq<Segment>): (bs: seq<string>)
    ensures |bs| == |segs|
  {
    seq(|segs|, i requires 0 <= i < |segs| => RenderBlock(segs[i]))
  }

  /** The transcript text of `segs`: their blocks separated by one blank line. */
  function Render(segs: seq<Segment>): string
  {
    JoinBlocks(RenderBlocks(segs))
  }

  lemma RenderBlockFacts(s: Segment)
    requires Renderable(s)
    ensures Separable(RenderBlock(s)) && '\r' !in RenderBlock(s)
  {
    var d := DecimalString(s.id);
    DigitsNotSpace(d);
    assert '\r' !in d;
    assert RenderBlock(s)[0] == d[0];
    BlockTextTight(d, s.en, s.cn);
  }

  lemma NoCRNoCRLF(s: string)
    requires '\r' !in s
    ensures NoCRLF(s)
  {
    forall i | 0 <= i < |s| - 1 ensures s[i] != '\r' {
      assert s[i] in s;
    }
  }

  /** No segments: the text is empty or one newline, and gives no segment. */
  lemma ParseBlank(w: string)
    requires w == [] || w == "\n"
    ensures Parse(w) == []
  {
    NoCRNoCRLF(w);
    NormalizeIdentity(w);
    assert Tight([]);
    SplitBlocksTight([], w);
    assert [] + w == w;
    BlankBlock(w);
    FilterMapSingle(ParseBlock, w);
    assert Parse(w) == FilterMap(ParseBlock, [w]);
  }

  /** A blank block gives no segment. */
  lemma BlankBlock(w: string)
    requires w == [] || w == "\n"
    ensures ParseBlock(w) == None
  {
    assert IsSpace('\n');
    assert AllSpace(w);
    TrimFacts(w);
    SplitNoSeparator([], '\n');
    assert BlockLines(w) == [[]];
  }

  /**
   * Parsing rendered segments gives them back, with or without a final
   * newline at the end of the text.
   */
  lemma RoundTrip(segs: seq<Segment>, w: string)
    requires forall i | 0 <= i < |segs| :: Renderable(segs[i])
    requires w == [] || w == "\n"
    ensures Parse(Render(segs) + w) == segs
  {
    if segs == [] {
      assert Render(segs) + w == w;
      ParseBlank(w);
    } else {
      var bs := RenderBlocks(segs);
      var t := Render(segs) + w;
      var n := |bs| - 1;
      forall i | 0 <= i < |bs| ensures Separable(bs[i]) && '\r' !in bs[i] {
        RenderBlockFacts(segs[i]);
      }
      JoinBlocksWithout(bs, '\r');
      NoCRNoCRLF(t);
      NormalizeIdentity(t);
      assert t[0..] == t;
      SplitJoined(t, 0, bs, w);
      var blocks := SplitBlocks(t);
      assert blocks == bs[..n] + [bs[n] + w];
      forall i | 0 <= i < |blocks| ensures ParseBlock(blocks[i]) == Some(segs[i]) {
        var s := segs[i];
        ParseBlockText(DecimalString(s.id), s.en, s.cn, if i == n then w else []);
        DecimalRoundTrip(s.id);
        if i < n {
          assert blocks[i] == bs[i] == bs[i] + [];
        }
      }
      FilterMapAll(ParseBlock, blocks, segs);
    }
  }

  /* ---------- Concrete transcripts ---------- */

  lemma DecimalStringSmall(n: nat)
    requires n < 10
    ensures DecimalString(n) == [DigitChar(n)]
  {
  }

  /** Two numbered blocks separated by a blank line, with a final newline. */
  lemma ExampleTwoBlocks()
    ensures Parse("1\nHello.\n你好。\n\n2\nBye.\n再见。\n")
      == [Segment(1, "Hello.", "你好。"), Segment(2, "Bye.", "再见。")]
  {
    var s1 := Segment(1, "Hello.", "你好。");
    var s2 := Segment(2, "Bye.", "再见。");
    var segs := [s1, s2];
    ExampleRenderable();
    ExampleRendered();
    RoundTrip(segs, "\n");
  }

  lemma ExampleRenderable()
    ensures Renderable(Segment(1, "Hello.", "你好。")) && Renderable(Segment(2, "Bye.", "再见。"))
  {
  }

  lemma ExampleRendered()
    ensures Render([Segment(1, "Hello.", "你好。"), Segment(2, "Bye.", "再见。")]) + "\n"
      == "1\nHello.\n你好。\n\n2\nBye.\n再见。\n"
  {
    var s1, s2 := Segment(1, "Hello.", "你好。"), Segment(2, "Bye.", "再见。");
    RenderTwo(s1, s2);
    ExampleBlocks();
  }

  lemma ExampleBlocks()
    ensures RenderBlock(Segment(1, "Hello.", "你好。")) == "1\nHello.\n你好。"
    ensures RenderBlock(Segment(2, "Bye.", "再见。")) == "2\nBye.\n再见。"
  {
    DecimalStringSmall(1);
    DecimalStringSmall(2);
  }

  lemma RenderTwo(s1: Segment, s2: Segment)
    ensures Render([s1, s2]) == RenderBlock(s1) + "\n\n" + RenderBlock(s2)
  {
    var bs := RenderBlocks([s1, s2]);
    assert bs == [RenderBlock(s1), RenderBlock(s2)];
    assert bs[1..] == [RenderBlock(s2)];
    assert JoinBlocks(bs[1..]) == RenderBlock(s2);
  }

  /** Content that normalises to one tight block is parsed as that block alone. */
  lemma SingleBlock(c: string, x: string, w: string)
    requires NormalizeNewlines(c) == x + w && (w == [] || w == "\n")
    requires Tight(x) && x != [] && !IsSpace(x[0]) && !IsSpace(x[|x| - 1])
    ensures Parse(c) == Values(ParseBlock(x))
  {
    SplitBlocksTight(x, w);
    FilterMapSingle(ParseBlock, x + w);
    if w == [] {
      assert x + w == x;
    } else {
      TrimTrailingNewline(x);
      TrimOfTrimmed(x);
    }
  }

  /** A block whose first line is not a digit string gives no segment. */
  lemma ParseBlockNotNumbered(b: string, first: string, rest: string)
    requires b == first + "\n" + rest
    requires '\n' !in first && !AllDigits(first)
    requires first != [] && !IsSpace(first[0]) && rest != [] && !IsSpace(rest[|rest| - 1])
    ensures ParseBlock(b) == None
  {
    assert b[0] == first[0] && b[|b| - 1] == rest[|rest| - 1];
    TrimOfTrimmed(b);
    SplitCons(first, '\n', rest);
  }

  /** One block whose first line is not a digit string: no segment at all. */
  lemma ParseNotNumbered(first: string, rest: string, w: string)
    requires '\n' !in first && !AllDigits(first) && first != [] && !IsSpace(first[0])
    requires Tight(rest) && rest != [] && !IsSpace(rest[0]) && !IsSpace(rest[|rest| - 1])
    requires '\r' !in first && '\r' !in rest && (w == [] || w == "\n")
    ensures Parse(first + "\n" + rest + w) == []
  {
    var x := first + "\n" + rest;
    NoCRNoCRLF(x + w);
    NormalizeIdentity(x + w);
    NormalizedNotNumbered(x + w, first, rest, w);
  }

  /** Content that normalises to one block with a non-numeric first line. */
  lemma NormalizedNotNumbered(c: string, first: string, rest: string, w: string)
    requires NormalizeNewlines(c) == first + "\n" + rest + w && (w == [] || w == "\n")
    requires '\n' !in first && !AllDigits(first) && first != [] && !IsSpace(first[0])
    requires Tight(rest) && rest != [] && !IsSpace(rest[0]) && !IsSpace(rest[|rest| - 1])
    ensures Parse(c) == []
  {
    var x := first + "\n" + rest;
    TightWithoutNewline(first);
    TightJoin(first, rest);
    assert x[0] == first[0] && x[|x| - 1] == rest[|rest| - 1];
    SingleBlock(c, x, w);
    ParseBlockNotNumbered(x, first, rest);
  }

  lemma ExampleLines()
    ensures Tight("Hello.\n你好。")
    ensures "abc\nHello.\n你好。\n" == "abc" + "\n" + "Hello.\n你好。" + "\n"
    ensures "1 \nHello.\n你好。" == "1 " + "\n" + "Hello.\n你好。" + []
    ensures !AllDigits("abc") && !AllDigits("1 ")
  {
    assert !IsDigit("abc"[0]) && !IsDigit("1 "[1]);
    TightWithoutNewline("Hello.");
    TightWithoutNewline("你好。");
    TightJoin("Hello.", "你好。");
  }

  /** `"abc\nHello.\n你好。\n"`: the first line is not a number, so no segment. */
  lemma ExampleNotNumbered()
    ensures Parse("abc\nHello.\n你好。\n") == []
  {
    ExampleLines();
    ParseNotNumbered("abc", "Hello.\n你好。", "\n");
  }

  /** A space after the id keeps the first line from matching `^(\d+)$`, so no segment. */
  lemma ExampleSpaceAfterId()
    ensures Parse("1 \nHello.\n你好。") == []
  {
    ExampleLines();
    ParseNotNumbered("1 ", "Hello.\n你好。", []);
  }

  lemma ExampleDecimals()
    ensures DecimalValue("007") == 7 && DecimalValue("0") == 0
  {
    assert "007"[..2] == "00" && "00"[..1] == "0" && "0"[..0] == [];
  }

  lemma ExampleBlock007()
    ensures ParseBlock(BlockText("007", "Hello.", "你好。")) == Some(Segment(DecimalValue("007"), "Hello.", "你好。"))
  {
    ParseBlockText("007", "Hello.", "你好。", []);
    assert BlockText("007", "Hello.", "你好。") + [] == BlockText("007", "Hello.", "你好。");
  }

  lemma ExampleBlock0()
    ensures ParseBlock(BlockText("0", "Bye.", "再见。")) == Some(Segment(DecimalValue("0"), "Bye.", "再见。"))
  {
    ParseBlockText("0", "Bye.", "再见。", []);
    assert BlockText("0", "Bye.", "再见。") + [] == BlockText("0", "Bye.", "再见。");
  }

  lemma ExampleZeroTexts()
    ensures BlockText("007", "Hello.", "你好。") == "007\nHello.\n你好。"
    ensures BlockText("0", "Bye.", "再见。") == "0\nBye.\n再见。"
  {
  }

  /** Leading zeros are read as decimal. */
  lemma ExampleLeadingZeros()
    ensures ParseBlock("007\nHello.\n你好。") == Some(Segment(7, "Hello.", "你好。"))
  {
    ExampleBlock007();
    ExampleZeroTexts();
    ExampleDecimals();
  }

  /** 0 is a valid id. */
  lemma ExampleZeroId()
    ensures ParseBlock("0\nBye.\n再见。") == Some(Segment(0, "Bye.", "再见。"))
  {
    ExampleBlock0();
    ExampleZeroTexts();
    ExampleDecimals();
  }

  /* ---------- "\r\r\n": one replacement pass is not enough ---------- */

  lemma CRExampleNormalized()
    ensures NormalizeNewlines("1\r\r\nA\r\r\nB") == "1\r\nA\r\nB"
    ensures NormalizeNewlines("1\r\nA\r\nB") == "1\nA\nB"
  {
    CRFirstPass();
    CRSecondPass();
  }

  lemma CRFirstPass()
    ensures NormalizeNewlines("1\r\r\nA\r\r\nB") == "1\r\nA\r\nB"
  {
    CRExamplePieces();
    CRExampleConcat();
    NormalizeAppend("\r\n", "B");
    NormalizeAppend("A\r", "\r\nB");
    NormalizeAppend("\r\n", "A\r\r\nB");
    NormalizeAppend("1\r", "\r\nA\r\r\nB");
  }

  lemma CRSecondPass()
    ensures NormalizeNewlines("1\r\nA\r\nB") == "1\nA\nB"
  {
    CRExamplePieces();
    CRExampleConcat();
    NormalizeAppend("\r\n", "B");
    NormalizeAppend("A", "\r\nB");
    NormalizeAppend("\r\n", "A\r\nB");
    NormalizeAppend("1", "\r\nA\r\nB");
  }

  lemma CRExamplePieces()
    ensures NormalizeNewlines("1\r") == "1\r" && NormalizeNewlines("A\r") == "A\r"
    ensures NormalizeNewlines("\r\n") == "\n" && NormalizeNewlines("B") == "B"
    ensures NormalizeNewlines("1") == "1" && NormalizeNewlines("A") == "A"
  {
  }

  lemma CRExampleConcat()
    ensures "1\r\r\nA\r\r\nB" == "1\r" + ("\r\n" + ("A\r" + ("\r\n" + "B")))
    ensures "1\r\nA\r\nB" == "1\r" + ("\n" + ("A\r" + ("\n" + "B")))
    ensures "1\r\nA\r\nB" == "1" + ("\r\n" + ("A" + ("\r\n" + "B")))
    ensures "1\nA\nB" == "1" + ("\n" + ("A" + ("\n" + "B")))
  {
  }

  lemma CRExampleParts()
    ensures "1\r\nA\r\nB" == "1\r" + "\n" + "A\r\nB" + []
    ensures "1\nA\nB" == BlockText("1", "A", "B") + []
    ensures Tight("A\r\nB") && !AllDigits("1\r") && AllDigits("1") && DecimalValue("1") == 1
  {
    TightWithoutNewline("A\r");
    TightWithoutNewline("B");
    TightJoin("A\r", "B");
    assert !IsDigit("1\r"[1]);
    assert "1"[..0] == [];
  }

  lemma CRExampleBlock()
    ensures ParseBlock(BlockText("1", "A", "B")) == Some(Segment(1, "A", "B"))
  {
    ParseBlockText("1", "A", "B", []);
    assert BlockText("1", "A", "B") + [] == BlockText("1", "A", "B");
    CRExampleParts();
  }

  /**
   * With "\r\r\n" line ends, one pass of `replace(/\r\n/g, "\n")` leaves a
   * '\r' at the end of the id line and the block is dropped, while content
   * normalised once more parses to a segment: the assumption of
   * `ParseNormalized` cannot be dropped.
   */
  lemma CRCounterexample()
    ensures Parse("1\r\r\nA\r\r\nB") == []
    ensures Parse(NormalizeNewlines("1\r\r\nA\r\r\nB")) == [Segment(1, "A", "B")]
  {
    CRExampleNormalized();
    CRDropped();
    CRRecovered();
  }

  lemma CRDropped()
    requires NormalizeNewlines("1\r\r\nA\r\r\nB") == "1\r\nA\r\nB"
    ensures Parse("1\r\r\nA\r\r\nB") == []
  {
    CRExampleParts();
    NormalizedNotNumbered("1\r\r\nA\r\r\nB", "1\r", "A\r\nB", []);
  }

  lemma CRRecovered()
    requires NormalizeNewlines("1\r\nA\r\nB") == "1\nA\nB"
    ensures Parse("1\r\nA\r\nB") == [Segment(1, "A", "B")]
  {
    CRExampleParts();
    var y := BlockText("1", "A", "B");
    BlockTextTight("1", "A", "B");
    SingleBlock("1\r\nA\r\nB", y, []);
    CRExampleBlock();
  }
}
