/**
 * `FontRenderer`: splitting text into lines at each newline and the drawing
 * cursor that `Draw` moves across and down the screen. The GL calls are left
 * out; each drawn line is reported with the position it is drawn at.
 */
module FontRendering {

  /** The characters before the first NUL: what a loop over `c_str()` sees. */
  function UpToNul(s: string): (r: string)
    ensures |r| <= |s|
    ensures forall k :: 0 <= k < |r| ==> r[k] == s[k] && r[k] != '\0'
    ensures |r| < |s| ==> s[|r|] == '\0'
  {
    if |s| == 0 || s[0] == '\0' then [] else [s[0]] + UpToNul(s[1..])
  }

  /** The length of the first line of `s`: the characters before its first newline. */
  function LineLength(s: string): (n: nat)
    ensures n <= |s|
    ensures forall k :: 0 <= k < n ==> s[k] != '\n'
    ensures n < |s| ==> s[n] == '\n'
  {
    if |s| == 0 || s[0] == '\n' then 0 else 1 + LineLength(s[1..])
  }

  /** The lines of `s`: the pieces between its newlines, newlines dropped. */
  function Split(s: string): (r: seq<string>)
    ensures |r| >= 1
    decreases |s|
  {
    var n := LineLength(s);
    if n == |s| then [s] else [s[..n]] + Split(s[n + 1..])
  }

  /** The lines put back together with a newline between each two. */
  function Join(lines: seq<string>): (r: string)
    requires |lines| >= 1
    decreases |lines|
  {
    if |lines| == 1 then lines[0] else lines[0] + "\n" + Join(lines[1..])
  }

  /** How many times `ch` occurs in `s`. */
  function Count(s: string, ch: char): nat
  {
    if |s| == 0 then 0 else (if s[0] == ch then 1 else 0) + Count(s[1..], ch)
  }

  /** Occurrences add up over a concatenation. */
  lemma {:induction false} CountAppend(a: string, b: string, ch: char)
    ensures Count(a + b, ch) == Count(a, ch) + Count(b, ch)
  {
    if |a| > 0 {
      assert (a + b)[1..] == a[1..] + b;
      CountAppend(a[1..], b, ch);
    } else {
      assert a + b == b;
    }
  }

  /** A string with no `ch` in it has none to count. */
  lemma {:induction false} CountAbsent(s: string, ch: char)
    requires forall k :: 0 <= k < |s| ==> s[k] != ch
    ensures Count(s, ch) == 0
  {
    if |s| > 0 {
      CountAbsent(s[1..], ch);
    }
  }

  /** A string with no newline is a single line. */
  lemma {:induction false} SplitSingle(s: string)
    requires forall k :: 0 <= k < |s| ==> s[k] != '\n'
    ensures Split(s) == [s]
  {
    assert LineLength(s) == |s|;
  }

  /** A line ended by a newline at `c` is split off in front of the lines after it. */
  lemma {:induction false} SplitAt(s: string, c: nat)
    requires c < |s| && s[c] == '\n'
    requires forall k :: 0 <= k < c ==> s[k] != '\n'
    ensures Split(s) == [s[..c]] + Split(s[c + 1..])
  {
    assert LineLength(s) == c;
  }

  /** There is one line more than there are newlines. */
  lemma {:induction false} SplitCount(s: string)
    ensures |Split(s)| == Count(s, '\n') + 1
    decreases |s|
  {
    var n := LineLength(s);
    CountAbsent(s[..n], '\n');
    if n == |s| {
      assert s[..n] == s;
    } else {
      SplitCount(s[n + 1..]);
      assert s == s[..n] + ([s[n]] + s[n + 1..]);
      CountAppend(s[..n], [s[n]] + s[n + 1..], '\n');
      CountAppend([s[n]], s[n + 1..], '\n');
    }
  }

  /** No line holds a newline. */
  lemma {:induction false} SplitLinesHaveNoNewline(s: string)
    ensures forall i, k :: 0 <= i < |Split(s)| && 0 <= k < |Split(s)[i]| ==> Split(s)[i][k] != '\n'
    decreases |s|
  {
    var n := LineLength(s);
    if n < |s| {
      SplitLinesHaveNoNewline(s[n + 1..]);
    }
  }

  /** Joining the lines gives the text back. */
  lemma {:induction false} JoinSplit(s: string)
    ensures Join(Split(s)) == s
    decreases |s|
  {
    var n := LineLength(s);
    if n < |s| {
      JoinSplit(s[n + 1..]);
      assert Split(s)[1..] == Split(s[n + 1..]);
      assert s == s[..n] + "\n" + s[n + 1..];
    }
  }

  /** Lines without newlines are what splitting their join gives back. */
  lemma {:induction false} SplitJoin(lines: seq<string>)
    requires |lines| >= 1 && NoNewlines(lines)
    ensures Split(Join(lines)) == lines
    decreases |lines|
  {
    var first := lines[0];
    assert forall k :: 0 <= k < |first| ==> first[k] != '\n';
    if |lines| == 1 {
      SplitSingle(first);
    } else {
      var tail := lines[1..];
      assert NoNewlines(tail);
      SplitJoin(tail);
      JoinedAt(first, Join(tail));
      assert lines == [first] + tail;
    }
  }

  /** A line without newlines, a newline, then more text: the line splits off first. */
  lemma {:induction false} JoinedAt(first: string, rest: string)
    requires forall k :: 0 <= k < |first| ==> first[k] != '\n'
    ensures Split(first + "\n" + rest) == [first] + Split(rest)
  {
    var s := first + "\n" + rest;
    var c := |first|;
    assert forall k :: 0 <= k < c ==> s[k] == first[k];
    SplitAt(s, c);
    assert s[..c] == first;
    assert s[c + 1..] == rest;
  }

  /** The last line is empty exactly when the text is empty or ends with a newline. */
  lemma {:induction false} LastLineEmpty(s: string)
    ensures Split(s)[|Split(s)| - 1] == "" <==> |s| == 0 || s[|s| - 1] == '\n'
    decreases |s|
  {
    var n := LineLength(s);
    if n < |s| {
      var rest := s[n + 1..];
      LastLineEmpty(rest);
      SplitAt(s, n);
      LastOfCons(s[..n], Split(rest));
      if n + 1 < |s| {
        assert s[|s| - 1] == rest[|rest| - 1];
      }
    } else {
      assert Split(s) == [s];
    }
  }

  /** Putting a line in front does not change which line is last. */
  lemma {:induction false} LastOfCons(x: string, r: seq<string>)
    requires |r| >= 1
    ensures ([x] + r)[|[x] + r| - 1] == r[|r| - 1]
  {
  }

  /** Empty text is one empty line; a trailing newline leaves an empty last line. */
  lemma {:induction false} EmptyAndTrailing(s: string)
    ensures Split("") == [""]
    ensures Split(s + "\n")[|Split(s + "\n")| - 1] == ""
  {
    LastLineEmpty(s + "\n");
  }

  /** Every character of `s` has a glyph among the first `count`. */
  predicate Covered(s: string, count: nat)
  {
    forall k :: 0 <= k < |s| ==> (s[k] as int) < count
  }

  /** The lines of covered text are covered. */
  lemma {:induction false} SplitCovered(s: string, count: nat)
    requires Covered(s, count)
    ensures forall i :: 0 <= i < |Split(s)| ==> Covered(Split(s)[i], count)
    decreases |s|
  {
    var n := LineLength(s);
    if n < |s| {
      SplitCovered(s[n + 1..], count);
    }
  }

  /** The sum of the glyph advances across `line`. */
  function Width(advances: seq<real>, line: string): real
    requires Covered(line, |advances|)
    decreases |line|
  {
    if |line| == 0 then 0.0
    else Width(advances, line[..|line| - 1]) + advances[line[|line| - 1] as int]
  }

  /**
   * `ParseLines`: the lines of the text before its first NUL, found by a
   * cursor that copies each line out when it meets a newline and copies the
   * remainder out at the end.
   */
  method ParseLines(text: string) returns (lines: seq<string>)
    ensures lines == Split(UpToNul(text))
  {
    lines := [];
    var startLine := 0;
    var c := 0;
    while c < |text| && text[c] != '\0'
      invariant Scanned(text, lines, startLine, c)
      decreases |text| - c
    {
      if text[c] == '\n' {
        var line := CopyLine(text, startLine, c);
        ScanNewline(text, lines, startLine, c);
        lines := lines + [line];
        startLine := c + 1;
      } else {
        ScanChar(text, lines, startLine, c);
      }
      c := c + 1;
    }
    var line := CopyLine(text, startLine, c);
    LinesFound(text, lines, startLine, c);
    lines := lines + [line];
  }

  /**
   * What the loop of `ParseLines` knows after passing `c` characters: none
   * was a NUL, the current line from `startLine` has no newline, the lines
   * closed so far have none either, and joining them with the current line
   * gives back what was passed.
   */
  predicate Scanned(text: string, lines: seq<string>, startLine: nat, c: nat)
  {
    && startLine <= c <= |text|
    && (forall k :: 0 <= k < c ==> text[k] != '\0')
    && (forall k :: startLine <= k < c ==> text[k] != '\n')
    && NoNewlines(lines)
    && Join(lines + [text[startLine..c]]) == text[..c]
  }

  /** The loop step at a newline: the current line closes and an empty one opens after it. */
  lemma {:induction false} ScanNewline(text: string, lines: seq<string>, startLine: nat, c: nat)
    requires Scanned(text, lines, startLine, c) && c < |text| && text[c] == '\n'
    ensures Scanned(text, lines + [text[startLine..c]], c + 1, c + 1)
  {
    var line := text[startLine..c];
    JoinNewline(text, lines, startLine, c);
    assert NoNewlines(lines + [line]) by {
      assert forall k :: 0 <= k < |line| ==> line[k] == text[startLine + k];
    }
  }

  /** The loop step at any other character that is not a NUL: the current line grows by it. */
  lemma {:induction false} ScanChar(text: string, lines: seq<string>, startLine: nat, c: nat)
    requires Scanned(text, lines, startLine, c) && c < |text| && text[c] != '\n' && text[c] != '\0'
    ensures Scanned(text, lines, startLine, c + 1)
  {
    JoinChar(text, lines, startLine, c);
  }

  /** When the loop stops, the lines found and the remainder are the lines of the text before its NUL. */
  lemma {:induction false} LinesFound(text: string, lines: seq<string>, startLine: nat, c: nat)
    requires Scanned(text, lines, startLine, c)
    requires c == |text| || text[c] == '\0'
    ensures lines + [text[startLine..c]] == Split(UpToNul(text))
  {
    var line := text[startLine..c];
    NulCut(text, c);
    assert NoNewlines(lines + [line]) by {
      assert forall k :: 0 <= k < |line| ==> line[k] == text[startLine + k];
    }
    SplitJoin(lines + [line]);
  }

  /** Lines that hold no newline. */
  predicate NoNewlines(lines: seq<string>)
  {
    forall i, k :: 0 <= i < |lines| && 0 <= k < |lines[i]| ==> lines[i][k] != '\n'
  }

  /** Appending a line to the lines appends a newline and the line to their join. */
  lemma {:induction false} JoinSnoc(ls: seq<string>, x: string)
    requires |ls| >= 1
    ensures Join(ls + [x]) == Join(ls) + "\n" + x
    decreases |ls|
  {
    if |ls| > 1 {
      assert (ls + [x])[1..] == ls[1..] + [x];
      JoinSnoc(ls[1..], x);
    }
  }

  /** Extending the last line by a character extends the join by it. */
  lemma {:induction false} JoinExtend(init: seq<string>, last: string, ch: char)
    ensures Join(init + [last + [ch]]) == Join(init + [last]) + [ch]
    decreases |init|
  {
    if |init| > 0 {
      assert (init + [last + [ch]])[1..] == init[1..] + [last + [ch]];
      assert (init + [last])[1..] == init[1..] + [last];
      JoinExtend(init[1..], last, ch);
    } else {
      assert init + [last + [ch]] == [last + [ch]];
      assert init + [last] == [last];
    }
  }

  /** The loop step at a newline: the current line closes and an empty one opens. */
  lemma {:induction false} JoinNewline(text: string, lines: seq<string>, startLine: nat, c: nat)
    requires startLine <= c < |text| && text[c] == '\n'
    requires Join(lines + [text[startLine..c]]) == text[..c]
    ensures Join((lines + [text[startLine..c]]) + [text[c + 1..c + 1]]) == text[..c + 1]
  {
    JoinSnoc(lines + [text[startLine..c]], "");
    assert text[c + 1..c + 1] == "";
    assert text[..c + 1] == text[..c] + "\n";
  }

  /** The loop step at any other character: it joins the current line. */
  lemma {:induction false} JoinChar(text: string, lines: seq<string>, startLine: nat, c: nat)
    requires startLine <= c < |text|
    requires Join(lines + [text[startLine..c]]) == text[..c]
    ensures Join(lines + [text[startLine..c + 1]]) == text[..c + 1]
  {
    JoinExtend(lines, text[startLine..c], text[c]);
    assert text[startLine..c + 1] == text[startLine..c] + [text[c]];
    assert text[..c + 1] == text[..c] + [text[c]];
  }

  /** The loop stops at the first NUL or at the end: what it passed over is the text before the NUL. */
  lemma {:induction false} NulCut(text: string, c: nat)
    requires c <= |text|
    requires forall k :: 0 <= k < c ==> text[k] != '\0'
    requires c == |text| || text[c] == '\0'
    ensures UpToNul(text) == text[..c]
  {
    if c > 0 {
      NulCut(text[1..], c - 1);
      assert text[..c] == [text[0]] + text[1..][..c - 1];
    }
  }

  /** The character-by-character copy of `text[from..to]` into a new line. */
  method CopyLine(text: string, from: nat, to: nat) returns (line: string)
    requires from <= to <= |text|
    ensures line == text[from..to]
  {
    line := [];
    var n := from;
    while n < to
      invariant from <= n <= to
      invariant line == text[from..n]
    {
      line := line + [text[n]];
      n := n + 1;
    }
  }

  /** The height of line `i` when the first line is at `y` and each newline moves down by `step`. */
  function LineY(y: real, step: real, i: nat): real
  {
    if i == 0 then y else LineY(y, step, i - 1) - step
  }

  /** Line `i` lies `i` steps below the first. */
  lemma {:induction false} LineYSteps(y: real, step: real, i: nat)
    ensures LineY(y, step, i) == y - i as real * step
  {
    if i > 0 {
      LineYSteps(y, step, i - 1);
    }
  }

  /** Where line `k` starts: the first at `startX`, the others at the margin, each a step lower. */
  function LineOrigin(startX: real, hMargin: real, y: real, step: real, k: nat): (real, real)
  {
    (if k == 0 then startX else hMargin, LineY(y, step, k))
  }

  class FontRenderer {
    /** The advance of each glyph, indexed by character code. */
    var advances: seq<real>
    var height: nat
    var hMargin: real
    var vMargin: real
    var lineSpacing: real
    /** Set when the next text starts a new line at the margin. */
    var freshLine: bool
    var offsetX: real
    var offsetY: real

    /** How far down each newline moves the cursor. */
    function LineStep(): real
      reads this`height, this`lineSpacing
    {
      height as real / 0.63 + lineSpacing
    }

    /** A renderer with zero margins and spacing, at the origin, on a fresh line. */
    constructor (glyphAdvances: seq<real>, fontHeight: nat)
      ensures advances == glyphAdvances && height == fontHeight
      ensures hMargin == 0.0 && vMargin == 0.0 && lineSpacing == 0.0
      ensures freshLine && offsetX == 0.0 && offsetY == 0.0
    {
      advances := glyphAdvances;
      height := fontHeight;
      hMargin := 0.0;
      vMargin := 0.0;
      lineSpacing := 0.0;
      freshLine := true;
      offsetX := 0.0;
      offsetY := 0.0;
    }

    /**
     * `Draw`: each line is drawn at the cursor. A fresh line starts at the
     * margin; every later line starts at the margin one line step lower;
     * the cursor ends after the last line, and the next text starts on a
     * fresh line exactly when that last line is empty.
     */
    method Draw(text: string) returns (origins: seq<(real, real)>)
      requires Covered(UpToNul(text), |advances|)
      modifies this`freshLine, this`offsetX, this`offsetY
      ensures var lines := Split(UpToNul(text));
              var last := |lines| - 1;
              && |origins| == |lines|
              && (forall i :: 0 <= i < |lines| ==>
                    origins[i] == LineOrigin(if old(freshLine) then hMargin else old(offsetX),
                                             hMargin, old(offsetY), LineStep(), i))
              && Covered(lines[last], |advances|)
              && offsetX == origins[last].0 + Width(advances, lines[last])
              && offsetY == origins[last].1
              && (freshLine <==> lines[last] == "")
    {
      var lines := ParseLines(text);
      SplitCovered(UpToNul(text), |advances|);
      if freshLine {
        offsetX := hMargin;
        freshLine := false;
      }
      origins := DrawLines(lines);
    }

    /** The line loop of `Draw`, from a cursor that is not on a fresh line. */
    method DrawLines(lines: seq<string>) returns (origins: seq<(real, real)>)
      requires |lines| >= 1 && !freshLine
      requires forall i :: 0 <= i < |lines| ==> Covered(lines[i], |advances|)
      modifies this`freshLine, this`offsetX, this`offsetY
      ensures |origins| == |lines|
      ensures forall i :: 0 <= i < |lines| ==>
                origins[i] == LineOrigin(old(offsetX), hMargin, old(offsetY), LineStep(), i)
      ensures offsetX == origins[|lines| - 1].0 + Width(advances, lines[|lines| - 1])
      ensures offsetY == origins[|lines| - 1].1
      ensures freshLine <==> lines[|lines| - 1] == ""
    {
      ghost var startX := offsetX;
      ghost var startY := offsetY;
      ghost var step := LineStep();
      origins := [];
      var i := 0;
      while i < |lines|
        invariant 0 <= i <= |lines|
        invariant |origins| == i
        invariant forall k :: 0 <= k < i ==> origins[k] == LineOrigin(startX, hMargin, startY, step, k)
        invariant i < |lines| ==> (offsetX, offsetY) == LineOrigin(startX, hMargin, startY, step, i) && !freshLine
        invariant i == |lines| ==> offsetX == origins[i - 1].0 + Width(advances, lines[i - 1])
                                   && offsetY == origins[i - 1].1
                                   && (freshLine <==> lines[i - 1] == "")
      {
        origins := origins + [(offsetX, offsetY)];
        DrawLine(lines[i], i == |lines| - 1);
        i := i + 1;
      }
    }

    /**
     * One pass of the line loop: the cursor moves across the line; below a
     * line that is not the last it returns to the margin one step lower, and
     * after an empty last line the next text starts on a fresh line.
     */
    method DrawLine(line: string, last: bool)
      requires Covered(line, |advances|) && !freshLine
      modifies this`freshLine, this`offsetX, this`offsetY
      ensures !last ==> offsetX == hMargin && offsetY == old(offsetY) - LineStep() && !freshLine
      ensures last ==> offsetX == old(offsetX) + Width(advances, line) && offsetY == old(offsetY)
                       && (freshLine <==> line == "")
    {
      Advance(line);
      if !last {
        offsetX := hMargin;
        offsetY := offsetY - height as real / 0.63;
        offsetY := offsetY - lineSpacing;
      } else if line == "" {
        freshLine := true;
      }
    }

    /** Moves the cursor across one line, glyph by glyph. */
    method Advance(line: string)
      requires Covered(line, |advances|)
      modifies this`offsetX
      ensures offsetX == old(offsetX) + Width(advances, line)
    {
      for j := 0 to |line|
        invariant offsetX == old(offsetX) + Width(advances, line[..j])
      {
        assert line[..j + 1][..j] == line[..j];
        offsetX := offsetX + advances[line[j] as int];
      }
      assert line[..|line|] == line;
    }
  }
}
