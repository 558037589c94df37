/**
 * The per-file logic of the transcript compiler (`parseFile`, `createId`,
 * `createTitle` and the numeric sort key), identical in scripts/convert.cjs
 * and scripts/convert.js.
 */
module Transcript {
  import opened Wrappers
  import opened Text
  import opened Types

  /* ---------- Line endings: content.replace(/\r\n/g, "\n") ---------- */

  function NormalizeNewlines(s: string): (r: string)
    ensures |r| <= |s|
  {
    if |s| >= 2 && s[0] == '\r' && s[1] == '\n' then "\n" + NormalizeNewlines(s[2..])
    else if s == [] then []
    else [s[0]] + NormalizeNewlines(s[1..])
  }

  predicate NoCRLF(s: string)
  {
    forall i | 0 <= i < |s| - 1 :: !(s[i] == '\r' && s[i + 1] == '\n')
  }

  predicate NoDoubleCR(s: string)
  {
    forall i | 0 <= i < |s| - 1 :: !(s[i] == '\r' && s[i + 1] == '\r')
  }

  /* ---------- Blocks: text.split(/\n\s*\n/) ---------- */

  /**
   * Scanning the whitespace run that starts at `i`, the index of its last
   * '\n' (or `last` if it has none): where the greedy `\s*` followed by `\n`
   * ends after backtracking.
   */
  function LastNewlineOfRun(t: string, i: nat, last: int): (r: int)
    requires i <= |t| && last < i
    ensures r == last || (i <= r < |t| && t[r] == '\n' && AllSpace(t[i..r]))
    ensures r >= last
    ensures forall k | i <= k < |t| && t[k] == '\n' && AllSpace(t[i..k]) :: k <= r
    decreases |t| - i
  {
    if i < |t| && IsSpace(t[i]) then
      var r := LastNewlineOfRun(t, i + 1, if t[i] == '\n' then i else last);
      assert forall k | i + 1 <= k <= |t| :: t[i..k] == [t[i]] + t[i + 1..k];
      r
    else last
  }

  /** A blank-line separator `\n\s*\n` cannot start at `p`. */
  ghost predicate NoSeparatorAt(t: string, p: nat)
    requires p < |t|
  {
    t[p] == '\n' ==> forall k | p < k < |t| && t[k] == '\n' :: !AllSpace(t[p + 1..k])
  }

  /** The end of the match of `\n\s*\n` that starts at `p`, if one does. */
  function SeparatorEnd(t: string, p: nat): (e: Option<nat>)
    requires p < |t|
    ensures e.Some? ==>
      p + 2 <= e.value <= |t| && t[p] == '\n' && t[e.value - 1] == '\n' && AllSpace(t[p..e.value])
    ensures e.None? <==> NoSeparatorAt(t, p)
  {
    if t[p] == '\n' then
      var r := LastNewlineOfRun(t, p + 1, -1);
      if r >= 0 then
        assert t[p..r + 1] == [t[p]] + t[p + 1..r] + [t[r]];
        Some(r + 1)
      else None
    else None
  }

  /** `String.prototype.split` with the separator regex, scanning from `q` for the next match. */
  function SplitFrom(t: string, start: nat, q: nat): (r: seq<string>)
    requires start <= q <= |t|
    ensures |r| >= 1
    decreases |t| - q
  {
    if q == |t| then [t[start..]]
    else match SeparatorEnd(t, q)
      case Some(e) => [t[start..q]] + SplitFrom(t, e, e)
      case None => SplitFrom(t, start, q + 1)
  }

  function SplitBlocks(t: string): (r: seq<string>)
    ensures |r| >= 1
  {
    SplitFrom(t, 0, 0)
  }

  /** No two newlines of `b` have only whitespace between them. */
  ghost predicate NoBlankLine(b: string)
  {
    forall j, k | 0 <= j < k < |b| && b[j] == '\n' && b[k] == '\n' :: !AllSpace(b[j + 1..k])
  }

  /* ---------- One block ---------- */

  /** `block.trim().split("\n")`. */
  function BlockLines(block: string): (lines: seq<string>)
    ensures |lines| >= 1
  {
    Split(Trim(block), '\n')
  }

  /**
   * A block becomes a segment when its first line is a bare digit string and
   * it has at least three lines; the second and third lines, trimmed, are the
   * English and Chinese text, and later lines are ignored.
   */
  function ParseBlock(block: string): Option<Segment>
  {
    var lines := BlockLines(block);
    if |lines| < 2 then None
    else if !AllDigits(lines[0]) then None
    else if |lines| < 3 then None
    else Some(Segment(DecimalValue(lines[0]), Trim(lines[1]), Trim(lines[2])))
  }

  /** The segments of a sequence of blocks, in block order. */
  function ParseBlocks(blocks: seq<string>): (r: seq<Segment>)
    ensures |r| <= |blocks|
  {
    FilterMap(ParseBlock, blocks)
  }

  /** What `parseFile` returns for a file's content. */
  function Parse(content: string): seq<Segment>
  {
    ParseBlocks(SplitBlocks(NormalizeNewlines(content)))
  }

  /** `parseFile`: the loop over the blocks that pushes one segment per accepted block. */
  method ParseFile(content: string) returns (segments: seq<Segment>)
    ensures segments == Parse(content)
  {
    var text := NormalizeNewlines(content);
    var blocks := SplitBlocks(text);
    segments := [];
    var i := 0;
    while i < |blocks|
      invariant 0 <= i <= |blocks|
      invariant segments == ParseBlocks(blocks[..i])
    {
      var block := blocks[i];
      var lines := BlockLines(block);
      FilterMapPrefix(ParseBlock, blocks, i);
      if |lines| >= 2 && AllDigits(lines[0]) && |lines| >= 3 {
        segments := segments + [Segment(DecimalValue(lines[0]), Trim(lines[1]), Trim(lines[2]))];
      }
      i := i + 1;
    }
    assert blocks[..|blocks|] == blocks;
  }

  /* ---------- Slugs and titles ---------- */

  /** Index of the last `c` in `s`, or -1. */
  function LastIndexOf(s: string, c: char): (d: int)
    ensures -1 <= d < |s|
    ensures d >= 0 ==> s[d] == c
    ensures forall j | d < j < |s| :: s[j] != c
  {
    if s == [] then -1
    else if s[|s| - 1] == c then |s| - 1
    else LastIndexOf(s[..|s| - 1], c)
  }

  /** The regular expression `\.[^/.]+$` matches at `d`. */
  predicate ExtensionAt(name: string, d: int)
  {
    0 <= d && d + 1 < |name| && name[d] == '.'
    && forall j | d < j < |name| :: name[j] != '.' && name[j] != '/'
  }

  /** Where `/\.[^/.]+$/` matches in `name`; there is at most one such place. */
  function ExtensionStart(name: string): (e: Option<nat>)
    ensures e.Some? ==> ExtensionAt(name, e.value)
    ensures e.None? ==> forall d | 0 <= d < |name| :: !ExtensionAt(name, d)
  {
    var d := LastIndexOf(name, '.');
    if d >= 0 && d + 1 < |name| && forall j | d < j < |name| :: name[j] != '/' then Some(d)
    else None
  }

  /** `name.replace(/\.[^/.]+$/, "")`. */
  function StripExtension(name: string): (r: string)
    ensures r <= name
  {
    match ExtensionStart(name)
    case Some(d) => name[..d]
    case None => name
  }

  /** `s.replace(/\s+/g, "-")`: every maximal whitespace run becomes one '-'. */
  function CollapseWhitespace(s: string): (r: string)
    ensures NoSpace(r)
    ensures |r| <= |s|
  {
    if s == [] then []
    else if IsSpace(s[0]) then
      var n := LeadingSpaces(s);
      "-" + CollapseWhitespace(s[n..])
    else [s[0]] + CollapseWhitespace(s[1..])
  }

  /** `createId`: lower-case, drop the extension, whitespace runs to '-'. */
  function CreateId(name: string): (id: string)
    ensures NoSpace(id)
  {
    CollapseWhitespace(StripExtension(ToLower(name)))
  }

  /** `createTitle`: drop the extension, every '-' to a space. */
  function CreateTitle(name: string): (title: string)
    ensures '-' !in title
  {
    ReplaceChar(StripExtension(name), '-', ' ')
  }

  /* ---------- Numeric sort key: parseInt(name.match(/\d+/)?.[0] || "0") ---------- */

  /** Index of the first ASCII digit in `s`, or |s|. */
  function FirstDigit(s: string): (i: nat)
    ensures i <= |s|
    ensures i < |s| ==> IsDigit(s[i])
    ensures forall j | 0 <= j < i :: !IsDigit(s[j])
  {
    if s == [] then 0
    else if IsDigit(s[0]) then 0
    else 1 + FirstDigit(s[1..])
  }

  /** Length of the run of digits at the start of `s`. */
  function DigitRun(s: string): (n: nat)
    ensures n <= |s|
    ensures forall j | 0 <= j < n :: IsDigit(s[j])
    ensures n < |s| ==> !IsDigit(s[n])
  {
    if s != [] && IsDigit(s[0]) then 1 + DigitRun(s[1..]) else 0
  }

  /** The first maximal run of digits in `name` (empty when it has none). */
  function FirstDigitRun(name: string): (r: string)
    ensures forall j | 0 <= j < |r| :: IsDigit(r[j])
  {
    var i := FirstDigit(name);
    name[i..i + DigitRun(name[i..])]
  }

  /** The key both numeric comparators subtract: the first number in the name, 0 when there is none. */
  function NumKey(name: string): nat
  {
    DecimalValue(FirstDigitRun(name))
  }
}

/** What the transcript compiler's per-file functions guarantee. */
module TranscriptProperties {
  import opened Wrappers
  import opened Text
  import opened Types
  import opened Transcript

  /* ---------- Blocks carry no blank line ---------- */

  lemma PieceNoBlankLine(t: string, start: nat, q: nat)
    requires start <= q <= |t|
    requires forall p | start <= p < q :: NoSeparatorAt(t, p)
    ensures NoBlankLine(t[start..q])
  {
    var b := t[start..q];
    forall j, k | 0 <= j < k < |b| && b[j] == '\n' && b[k] == '\n' ensures !AllSpace(b[j + 1..k]) {
      assert NoSeparatorAt(t, start + j);
      assert t[start + k] == '\n';
      SliceOfSlice(t, start, q, j + 1, k);
    }
  }

  lemma {:induction false} SplitFromNoBlankLine(t: string, start: nat, q: nat)
    requires start <= q <= |t|
    requires forall p | start <= p < q :: NoSeparatorAt(t, p)
    ensures forall b | b in SplitFrom(t, start, q) :: NoBlankLine(b)
    decreases |t| - q
  {
    if q == |t| {
      PieceNoBlankLine(t, start, q);
      assert t[start..] == t[start..q];
    } else {
      match SeparatorEnd(t, q)
      case Some(e) =>
        PieceNoBlankLine(t, start, q);
        SplitFromNoBlankLine(t, e, e);
      case None =>
        SplitFromNoBlankLine(t, start, q + 1);
    }
  }

  /** Every block that `split(/\n\s*\n/)` produces is free of whitespace-only lines. */
  lemma SplitBlocksNoBlankLine(t: string)
    ensures forall b | b in SplitBlocks(t) :: NoBlankLine(b)
  {
    SplitFromNoBlankLine(t, 0, 0);
  }

  /* ---------- Lines of a trimmed block are not blank ---------- */

  /** `j` is a line boundary of `s`: before its start, after its end, or a newline. */
  predicate Boundary(s: string, j: int)
  {
    j == -1 || j == |s| || (0 <= j < |s| && s[j] == '\n')
  }

  /** Between any two line boundaries of `s` there is a non-whitespace character. */
  ghost predicate LinesNonBlank(s: string)
  {
    forall j, k | -1 <= j < k <= |s| && Boundary(s, j) && Boundary(s, k) :: !AllSpace(s[j + 1..k])
  }

  lemma FirstLineNonBlank(s: string, i: nat)
    requires LinesNonBlank(s) && i <= |s| && Boundary(s, i)
    ensures !AllSpace(s[..i])
  {
    assert Boundary(s, -1);
    assert s[..i] == s[-1 + 1..i];
  }

  lemma LinesNonBlankAfter(s: string, i: nat)
    requires LinesNonBlank(s) && i < |s| && s[i] == '\n'
    ensures LinesNonBlank(s[i + 1..])
  {
    var r := s[i + 1..];
    forall j', k' | -1 <= j' < k' <= |r| && Boundary(r, j') && Boundary(r, k') ensures !AllSpace(r[j' + 1..k']) {
      var j, k := j' + i + 1, k' + i + 1;
      assert Boundary(s, j) && Boundary(s, k);
      assert r[j' + 1..k'] == s[j + 1..k];
    }
  }

  lemma {:induction false} SplitLinesNonBlank(s: string)
    requires LinesNonBlank(s)
    ensures forall l | l in Split(s, '\n') :: !AllSpace(l)
    decreases |s|
  {
    var i := IndexOf(s, '\n');
    FirstLineNonBlank(s, i);
    if i < |s| {
      LinesNonBlankAfter(s, i);
      SplitLinesNonBlank(s[i + 1..]);
    }
  }

  /** A text that starts with a non-space has no blank first line. */
  lemma FirstPieceNonBlank(s: string, k: int)
    requires s != [] && !IsSpace(s[0]) && 0 <= k <= |s| && Boundary(s, k)
    ensures !AllSpace(s[..k])
  {
    assert IsSpace('\n');
    assert k > 0;
    assert s[..k][0] == s[0];
  }

  /** A text that ends with a non-space has no blank last line. */
  lemma LastPieceNonBlank(s: string, j: int)
    requires s != [] && !IsSpace(s[|s| - 1]) && -1 <= j < |s| && Boundary(s, j)
    ensures !AllSpace(s[j + 1..])
  {
    assert IsSpace('\n');
    assert j < |s| - 1;
    var t := s[j + 1..];
    assert t[|t| - 1] == s[|s| - 1];
  }

  lemma TrimmedLinesNonBlank(b: string)
    requires NoBlankLine(b) && Trim(b) != []
    ensures LinesNonBlank(Trim(b))
  {
    TrimFacts(b);
    LinesOfInnerText(b, LeadingSpaces(b), Trim(b));
  }

  /** A piece of `b` that starts and ends with a non-space has no blank line when `b` has none. */
  lemma LinesOfInnerText(b: string, a: nat, s: string)
    requires NoBlankLine(b)
    requires a + |s| <= |b| && s == b[a..a + |s|]
    requires s != [] && !IsSpace(s[0]) && !IsSpace(s[|s| - 1])
    ensures LinesNonBlank(s)
  {
    forall j, k | -1 <= j < k <= |s| && Boundary(s, j) && Boundary(s, k) ensures !AllSpace(s[j + 1..k]) {
      if j == -1 {
        FirstPieceNonBlank(s, k);
      } else if k == |s| {
        LastPieceNonBlank(s, j);
      } else {
        InnerLineNonBlank(b, a, s, j, k);
      }
    }
  }

  lemma InnerLineNonBlank(b: string, a: nat, s: string, j: nat, k: nat)
    requires NoBlankLine(b)
    requires a + |s| <= |b| && s == b[a..a + |s|]
    requires j < k < |s| && s[j] == '\n' && s[k] == '\n'
    ensures !AllSpace(s[j + 1..k])
  {
    assert b[a + j] == '\n' && b[a + k] == '\n';
    SliceOfSlice(b, a, a + |s|, j + 1, k);
  }

  /* ---------- Segments ---------- */

  /** Non-empty, no whitespace at either end, on one line. */
  predicate SegmentText(x: string)
  {
    x != [] && !IsSpace(x[0]) && !IsSpace(x[|x| - 1]) && '\n' !in x
  }

  lemma TrimOfLine(l: string)
    requires '\n' !in l && !AllSpace(l)
    ensures SegmentText(Trim(l))
  {
    TrimFacts(l);
    var r := Trim(l);
    var a := LeadingSpaces(l);
    forall i | 0 <= i < |r| ensures r[i] != '\n' {
      assert r[i] == l[a + i];
    }
  }

  /** A block without blank lines that passes the test yields text fields that are trimmed, non-empty lines. */
  lemma BlockSegmentText(b: string)
    requires NoBlankLine(b) && ParseBlock(b).Some?
    ensures SegmentText(ParseBlock(b).value.en) && SegmentText(ParseBlock(b).value.cn)
  {
    var lines := BlockLines(b);
    TrimmedLinesNonBlank(b);
    SplitLinesNonBlank(Trim(b));
    assert lines[1] in lines && lines[2] in lines;
    TrimOfLine(lines[1]);
    TrimOfLine(lines[2]);
  }

  /** Every segment `parseFile` emits has non-empty, trimmed, one-line English and Chinese text and a digit-string id. */
  lemma ParseSegmentText(content: string, seg: Segment)
    requires seg in Parse(content)
    ensures SegmentText(seg.en) && SegmentText(seg.cn)
  {
    var blocks := SplitBlocks(NormalizeNewlines(content));
    FilterMapOrigin(ParseBlock, blocks, seg);
    var i :| 0 <= i < |blocks| && ParseBlock(blocks[i]) == Some(seg);
    SplitBlocksNoBlankLine(NormalizeNewlines(content));
    assert blocks[i] in blocks;
    BlockSegmentText(blocks[i]);
  }

  /* ---------- Line endings ---------- */

  /** Text without "\r\n" is left as it is. */
  lemma {:induction false} NormalizeIdentity(s: string)
    requires NoCRLF(s)
    ensures NormalizeNewlines(s) == s
    decreases |s|
  {
    if s != [] {
      assert !(|s| >= 2 && s[0] == '\r' && s[1] == '\n');
      NoCRLFTail(s);
      NormalizeIdentity(s[1..]);
    }
  }

  lemma NoCRLFTail(s: string)
    requires s != [] && NoCRLF(s)
    ensures NoCRLF(s[1..])
  {
    forall i | 0 <= i < |s| - 2 ensures !(s[1..][i] == '\r' && s[1..][i + 1] == '\n') {
      assert s[1..][i] == s[i + 1] && s[1..][i + 1] == s[i + 2];
    }
  }

  lemma NoDoubleCRTail(s: string, n: nat)
    requires n <= |s| && NoDoubleCR(s)
    ensures NoDoubleCR(s[n..])
  {
    forall i | 0 <= i < |s| - n - 1 ensures !(s[n..][i] == '\r' && s[n..][i + 1] == '\r') {
      assert s[n..][i] == s[i + n] && s[n..][i + 1] == s[i + n + 1];
    }
  }

  lemma NoCRLFCons(c: char, r: string)
    requires NoCRLF(r)
    requires c == '\r' && r != [] ==> r[0] != '\n'
    ensures NoCRLF([c] + r)
  {
    var t := [c] + r;
    forall i | 0 <= i < |t| - 1 ensures !(t[i] == '\r' && t[i + 1] == '\n') {
      if i > 0 { assert t[i] == r[i - 1] && t[i + 1] == r[i]; }
    }
  }

  /** The first character after the replacement. */
  lemma NormalizeHead(s: string)
    requires s != []
    ensures NormalizeNewlines(s) != []
    ensures NormalizeNewlines(s)[0] == if |s| >= 2 && s[0] == '\r' && s[1] == '\n' then '\n' else s[0]
  {
  }

  /** Without "\r\r", one pass of the replacement leaves no "\r\n" behind. */
  lemma {:induction false} NormalizeRemovesCRLF(s: string)
    requires NoDoubleCR(s)
    ensures NoCRLF(NormalizeNewlines(s))
    decreases |s|
  {
    if |s| >= 2 && s[0] == '\r' && s[1] == '\n' {
      NoDoubleCRTail(s, 2);
      NormalizeRemovesCRLF(s[2..]);
      NoCRLFCons('\n', NormalizeNewlines(s[2..]));
    } else if s != [] {
      NoDoubleCRTail(s, 1);
      NormalizeRemovesCRLF(s[1..]);
      if s[1..] != [] {
        NormalizeHead(s[1..]);
        assert s[0] == '\r' ==> s[1] != '\r' && s[1] != '\n';
      }
      NoCRLFCons(s[0], NormalizeNewlines(s[1..]));
    }
  }

  /**
   * Normalising line endings before calling `parseFile` changes nothing,
   * for any content without "\r\r".
   */
  lemma ParseNormalized(c: string)
    requires NoDoubleCR(c)
    ensures Parse(NormalizeNewlines(c)) == Parse(c)
  {
    NormalizeRemovesCRLF(c);
    NormalizeIdentity(NormalizeNewlines(c));
  }

  /** The replacement works piece by piece, as long as no "\r\n" straddles the cut. */
  lemma {:induction false} NormalizeAppend(x: string, y: string)
    requires x == [] || y == [] || !(x[|x| - 1] == '\r' && y[0] == '\n')
    ensures NormalizeNewlines(x + y) == NormalizeNewlines(x) + NormalizeNewlines(y)
    decreases |x|
  {
    var xy := x + y;
    if x == [] {
      assert xy == y;
    } else if |x| >= 2 && x[0] == '\r' && x[1] == '\n' {
      assert xy[0] == '\r' && xy[1] == '\n' && xy[2..] == x[2..] + y;
      NormalizeAppend(x[2..], y);
      var a, b := NormalizeNewlines(x[2..]), NormalizeNewlines(y);
      assert NormalizeNewlines(xy) == "\n" + (a + b);
      assert NormalizeNewlines(x) == "\n" + a;
      AppendAssoc("\n", a, b);
    } else {
      assert xy[0] == x[0] && xy[1..] == x[1..] + y;
      assert |xy| >= 2 ==> xy[1] == if |x| >= 2 then x[1] else y[0];
      assert !(|xy| >= 2 && xy[0] == '\r' && xy[1] == '\n');
      assert x[1..] != [] ==> x[1..][|x[1..]| - 1] == x[|x| - 1];
      NormalizeAppend(x[1..], y);
      var a, b := NormalizeNewlines(x[1..]), NormalizeNewlines(y);
      assert NormalizeNewlines(xy) == [x[0]] + (a + b);
      assert NormalizeNewlines(x) == [x[0]] + a;
      AppendAssoc([x[0]], a, b);
    }
  }
}
