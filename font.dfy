/**
 * `Font`: the bitmap font's glyph table and the lookup that turns a string
 * into glyph indexes before it is drawn. The `.dff` file that supplies the
 * glyphs is not part of this model: the constructor takes the glyph data.
 */
module Fonts {
  import opened Base

  /** `maxGlyphs`. */
  const MaxGlyphs: nat := 200
  /** The index a position keeps when no glyph matched its character: `maxGlyphs + 1`. */
  const NotFound: nat := MaxGlyphs + 1

  /** A glyph: its character and real width (the display list is left out). */
  datatype Glyph = Glyph(character: char, realWidth: nat)

  /**
   * The inner loop of `GetGlyphIndexes` over the first `n` glyphs: a newline
   * takes `newlineID` as soon as there is one glyph; any other character
   * takes the index of each matching glyph in turn, so the last match wins.
   */
  function Scan(glyphs: seq<Glyph>, newlineID: nat, ch: char, n: nat): nat
    requires n <= |glyphs|
  {
    if n == 0 then NotFound
    else if ch == '\n' then newlineID
    else if glyphs[n - 1].character == ch then n - 1
    else Scan(glyphs, newlineID, ch, n - 1)
  }

  /** The index the lookup gives a character. */
  function Lookup(glyphs: seq<Glyph>, newlineID: nat, ch: char): nat
  {
    Scan(glyphs, newlineID, ch, |glyphs|)
  }

  /** The lookups of every character of `s`. */
  function Lookups(glyphs: seq<Glyph>, newlineID: nat, s: string): (r: seq<nat>)
    ensures |r| == |s|
    ensures forall k :: 0 <= k < |s| ==> r[k] == Lookup(glyphs, newlineID, s[k])
  {
    seq(|s|, k requires 0 <= k < |s| => Lookup(glyphs, newlineID, s[k]))
  }

  /** The first of the first `n` positions of `text` whose character has no glyph, or `n`. */
  function FirstMiss(glyphs: seq<Glyph>, newlineID: nat, text: string, n: nat): (f: nat)
    requires n <= |text|
    ensures f <= n
    ensures forall i :: 0 <= i < f ==> Lookup(glyphs, newlineID, text[i]) != NotFound
    ensures f < n ==> Lookup(glyphs, newlineID, text[f]) == NotFound
  {
    if n == 0 then 0
    else
      var f := FirstMiss(glyphs, newlineID, text, n - 1);
      if f < n - 1 then f
      else if Lookup(glyphs, newlineID, text[n - 1]) == NotFound then n - 1
      else n
  }

  /** Once a miss is found among the first `m` positions, looking further does not move it. */
  lemma {:induction false} FirstMissStays(glyphs: seq<Glyph>, newlineID: nat, text: string, m: nat, n: nat)
    requires m <= n <= |text| && FirstMiss(glyphs, newlineID, text, m) < m
    ensures FirstMiss(glyphs, newlineID, text, n) == FirstMiss(glyphs, newlineID, text, m)
    decreases n - m
  {
    if m < n {
      FirstMissStays(glyphs, newlineID, text, m, n - 1);
    }
  }

  /**
   * A character other than a newline finds the last glyph with that
   * character, and finds nothing exactly when no glyph has it.
   */
  lemma {:induction false} ScanFindsLastMatch(glyphs: seq<Glyph>, newlineID: nat, ch: char, n: nat)
    requires n <= |glyphs| <= MaxGlyphs + 1 && ch != '\n'
    ensures var r := Scan(glyphs, newlineID, ch, n);
            && (r == NotFound <==> forall j :: 0 <= j < n ==> glyphs[j].character != ch)
            && (r != NotFound ==> r < n && glyphs[r].character == ch
                                  && forall j :: r < j < n ==> glyphs[j].character != ch)
  {
    if n > 0 {
      ScanFindsLastMatch(glyphs, newlineID, ch, n - 1);
    }
  }

  /** A newline gets `newlineID` when the font has a glyph at all, and is not found otherwise. */
  lemma {:induction false} NewlineLookup(glyphs: seq<Glyph>, newlineID: nat)
    ensures Lookup(glyphs, newlineID, '\n') == if |glyphs| == 0 then NotFound else newlineID
  {
  }

  /**
   * With exactly `maxGlyphs` glyphs the newline identifier `numGlyphs + 1`
   * equals the not-found value, so a newline counts as a missing glyph.
   */
  lemma {:induction false} NewlineClashesAtCapacity(glyphs: seq<Glyph>)
    requires |glyphs| == MaxGlyphs
    ensures Lookup(glyphs, |glyphs| + 1, '\n') == NotFound
    ensures FirstMiss(glyphs, |glyphs| + 1, "\n", 1) == 0
  {
  }

  /**
   * A newline identifier that cannot clash: one past the not-found value,
   * so it is neither `maxGlyphs + 1` nor the index of any glyph the loader
   * admits.
   */
  const SeparateNewlineID: nat := NotFound + 1

  /**
   * With the separate identifier a newline is never reported missing, for
   * every glyph table the loader admits, a full one included: the newline
   * maps to an ID that is neither not-found nor a glyph index, and a text
   * of newlines has no miss.
   */
  lemma {:induction false} NewlineNeverMissing(glyphs: seq<Glyph>, text: string)
    requires 0 < |glyphs| <= MaxGlyphs + 1
    requires forall k :: 0 <= k < |text| ==> text[k] == '\n'
    ensures Lookup(glyphs, SeparateNewlineID, '\n') == SeparateNewlineID
    ensures SeparateNewlineID != NotFound && SeparateNewlineID >= |glyphs|
    ensures FirstMiss(glyphs, SeparateNewlineID, text, |text|) == |text|
  {
    NewlinesHaveNoMiss(glyphs, text, |text|);
  }

  /** The first `n` positions of a text of newlines hold no miss when the newline ID is not the not-found value. */
  lemma {:induction false} NewlinesHaveNoMiss(glyphs: seq<Glyph>, text: string, n: nat)
    requires 0 < |glyphs| && n <= |text|
    requires forall k :: 0 <= k < |text| ==> text[k] == '\n'
    ensures FirstMiss(glyphs, SeparateNewlineID, text, n) == n
  {
    if n > 0 {
      NewlinesHaveNoMiss(glyphs, text, n - 1);
      NewlineLookup(glyphs, SeparateNewlineID);
    }
  }

  /** Writing the lookup of position `i` after those of positions `0..i` extends the written prefix by one. */
  lemma {:induction false} LookupStep(glyphs: seq<Glyph>, newlineID: nat, text: string, i: nat, before: seq<nat>, prev: seq<nat>, now: seq<nat>)
    requires i < |text| && i < |before| && |prev| == |before|
    requires prev == Overwrite(before, 0, Lookups(glyphs, newlineID, text[..i]))
    requires now == prev[i := Lookup(glyphs, newlineID, text[i])]
    ensures Lookups(glyphs, newlineID, text[..i + 1]) == Lookups(glyphs, newlineID, text[..i]) + [now[i]]
    ensures now == Overwrite(before, 0, Lookups(glyphs, newlineID, text[..i + 1]))
  {
    var done := Lookups(glyphs, newlineID, text[..i]);
    OverwriteOne(prev, i, now[i]);
    OverwriteTwice(before, 0, done, i, [now[i]]);
    assert Lookups(glyphs, newlineID, text[..i + 1]) == done + [now[i]];
  }

  /**
   * With no miss before position `i`, a hit there extends the run of hits
   * and a miss there is the first miss of every longer prefix.
   */
  lemma {:induction false} FirstMissStep(glyphs: seq<Glyph>, newlineID: nat, text: string, i: nat, n: nat)
    requires i < n <= |text| && FirstMiss(glyphs, newlineID, text, i) == i
    ensures Lookup(glyphs, newlineID, text[i]) != NotFound ==> FirstMiss(glyphs, newlineID, text, i + 1) == i + 1
    ensures Lookup(glyphs, newlineID, text[i]) == NotFound ==> FirstMiss(glyphs, newlineID, text, n) == i
  {
    if Lookup(glyphs, newlineID, text[i]) == NotFound {
      FirstMissStays(glyphs, newlineID, text, i + 1, n);
    }
  }

  class Font {
    var glyphs: seq<Glyph>
    var newlineID: nat

    /** The glyph table as the constructor leaves it: `newlineID` is `numGlyphs + 1`. */
    constructor (loaded: seq<Glyph>)
      requires |loaded| <= MaxGlyphs + 1
      ensures glyphs == loaded && newlineID == |loaded| + 1
    {
      glyphs := loaded;
      newlineID := |loaded| + 1;
    }

    /**
     * `GetGlyphIndexes`: writes the lookup of each of the first
     * `min(|text|, numIndexes)` characters, stopping after the first one
     * without a glyph, which keeps the not-found value; true when none
     * was missing. Positions after the stop are not touched.
     */
    method GetGlyphIndexes(text: string, glyphIndexes: array<nat>, numIndexes: nat) returns (ok: bool)
      requires Min(|text|, numIndexes) <= glyphIndexes.Length
      modifies glyphIndexes
      ensures ok <==> FirstMiss(glyphs, newlineID, text, Min(|text|, numIndexes)) == Min(|text|, numIndexes)
      ensures ok ==> glyphIndexes[..] == Overwrite(old(glyphIndexes[..]), 0,
                       Lookups(glyphs, newlineID, text[..Min(|text|, numIndexes)]))
      ensures !ok ==> var f := FirstMiss(glyphs, newlineID, text, Min(|text|, numIndexes));
                      glyphIndexes[..] == Overwrite(old(glyphIndexes[..]), 0, Lookups(glyphs, newlineID, text[..f]) + [NotFound])
    {
      ghost var before := glyphIndexes[..];
      ghost var n := Min(|text|, numIndexes);
      var i := 0;
      while i < |text| && i < numIndexes
        invariant i <= n
        invariant FirstMiss(glyphs, newlineID, text, i) == i
        invariant glyphIndexes[..] == Overwrite(before, 0, Lookups(glyphs, newlineID, text[..i]))
      {
        var found := LookupNext(text, glyphIndexes, i, before);
        FirstMissStep(glyphs, newlineID, text, i, n);
        if !found {
          return false;
        }
        i := i + 1;
      }
      return true;
    }

    /** One turn of the outer loop: position `i` gets the lookup of its character. */
    method LookupNext(text: string, glyphIndexes: array<nat>, i: nat, ghost before: seq<nat>) returns (found: bool)
      requires i < |text| && i < glyphIndexes.Length == |before|
      requires glyphIndexes[..] == Overwrite(before, 0, Lookups(glyphs, newlineID, text[..i]))
      modifies glyphIndexes
      ensures found <==> Lookup(glyphs, newlineID, text[i]) != NotFound
      ensures found ==> glyphIndexes[..] == Overwrite(before, 0, Lookups(glyphs, newlineID, text[..i + 1]))
      ensures !found ==> glyphIndexes[..] == Overwrite(before, 0, Lookups(glyphs, newlineID, text[..i]) + [NotFound])
    {
      ghost var prev := glyphIndexes[..];
      LookupInto(text[i], glyphIndexes, i);
      LookupStep(glyphs, newlineID, text, i, before, prev, glyphIndexes[..]);
      found := glyphIndexes[i] != NotFound;
    }

    /** The glyph loop for one position: `glyphIndexes[i]` ends as the lookup of `ch`. */
    method LookupInto(ch: char, glyphIndexes: array<nat>, i: nat)
      requires i < glyphIndexes.Length
      modifies glyphIndexes
      ensures glyphIndexes[..] == old(glyphIndexes[..])[i := Lookup(glyphs, newlineID, ch)]
    {
      glyphIndexes[i] := NotFound;
      for j := 0 to |glyphs|
        invariant glyphIndexes[..] == old(glyphIndexes[..])[i := Scan(glyphs, newlineID, ch, j)]
      {
        if ch == '\n' {
          glyphIndexes[i] := newlineID;
        } else if ch == glyphs[j].character {
          glyphIndexes[i] := j;
        }
      }
    }

    /**
     * `Write`: the indexes handed to `DrawText`, or nothing drawn when a
     * character has no glyph.
     */
    method Write(text: string) returns (drawn: Option<seq<nat>>)
      ensures drawn.Some? <==> forall i :: 0 <= i < |text| ==> Lookup(glyphs, newlineID, text[i]) != NotFound
      ensures drawn.Some? ==> drawn.value == Lookups(glyphs, newlineID, text)
    {
      var glyphIndexes := new nat[|text|];
      var ok := GetGlyphIndexes(text, glyphIndexes, |text|);
      if !ok {
        return None;
      }
      assert text[..|text|] == text;
      return Some(glyphIndexes[..]);
    }
  }
}
