/**
 * `parse_grid` of ai_analysis.py, the Flask back end: the classifier's text
 * for one face becomes a 3x3 grid of whitespace-separated tokens, or the
 * all-"?" placeholder when the text is not shaped like one.
 */
module AiAnalysis {
  import opened PyStr
  import opened FaceGrid
  import opened GridText

  /** `s[3:-3]` with Python's slice rules: empty when `s` has fewer than six
      characters, since the end index then falls at or before the start. */
  function Middle(s: string): string {
    if |s| >= 6 then s[3..|s| - 3] else []
  }

  /** The text with a surrounding fence removed, only when it both starts and
      ends with one; the inside is then stripped. */
  function Unfenced(text: string): string {
    if StartsWith(text, Fence) && EndsWith(text, Fence) then Strip(Middle(text)) else text
  }

  /** `[line.strip() for line in text.strip().split("\n") if line.strip()]`. */
  function Lines(text: string): seq<string> {
    StrippedNonBlank(SplitNewline(Strip(Unfenced(text))))
  }

  /** `[line.split() for line in lines]`. */
  function Tokenize(lines: seq<string>): (g: Grid)
    ensures |g| == |lines|
  {
    seq(|lines|, i requires 0 <= i < |lines| => SplitWs(lines[i]))
  }

  lemma TokenizeAt(lines: seq<string>, i: nat)
    requires i < |lines|
    ensures Tokenize(lines)[i] == SplitWs(lines[i])
  {}

  /** Lines whose tokens are the rows of a 3x3 grid tokenize to that grid. */
  lemma TokenizeToGrid(lines: seq<string>, g: Grid)
    requires Is3x3(g) && |lines| == 3
    requires forall i :: 0 <= i < 3 ==> SplitWs(lines[i]) == g[i]
    ensures Tokenize(lines) == g
  {}

  /** `parse_grid`: the tokens when they form three rows of three, the
      placeholder otherwise. It never fails and always gives a 3x3 grid. */
  function ParseGrid(text: string): (g: Grid)
    ensures Is3x3(g)
    ensures Is3x3(Tokenize(Lines(text))) ==> g == Tokenize(Lines(text))
    ensures !Is3x3(Tokenize(Lines(text))) ==> g == Placeholder
  {
    var grid := Tokenize(Lines(text));
    if Is3x3(grid) then grid else Placeholder
  }

  // ---------------------------------------------------------------------
  // Properties
  // ---------------------------------------------------------------------

  /** The result is never empty, so a caller's emptiness test never fires. */
  lemma NeverEmpty(text: string)
    ensures ParseGrid(text) != [] && forall i :: 0 <= i < 3 ==> ParseGrid(text)[i] != []
  {}

  /** Every cell is a non-empty token without whitespace. */
  lemma CellsAreTokens(text: string)
    ensures forall i, j :: 0 <= i < 3 && 0 <= j < 3 ==>
              ParseGrid(text)[i][j] != [] && NoSpace(ParseGrid(text)[i][j])
  {
    var g := ParseGrid(text);
    var lines := Lines(text);
    if Is3x3(Tokenize(lines)) {
      forall i, j | 0 <= i < 3 && 0 <= j < 3 ensures g[i][j] != [] && NoSpace(g[i][j]) {
        TokenizeAt(lines, i);
        SplitWsTokens(lines[i]);
      }
    } else {
      assert g == Placeholder;
      PlaceholderIsFace();
      assert !IsSpace('?');
    }
  }

  /** The grid depends on the text only through its lines. */
  lemma SameLinesSameGrid(x: string, y: string)
    requires Lines(x) == Lines(y)
    ensures ParseGrid(x) == ParseGrid(y)
  {
  }

  /** Text that does not both start and end with a fence is left as it is,
      surrounding whitespace included. */
  lemma NotFencedKept(text: string)
    requires !(StartsWith(text, Fence) && EndsWith(text, Fence))
    ensures Unfenced(text) == text
  {}

  /** Three lines whose tokens are the rows of a 3x3 grid parse to that grid. */
  lemma GridFromLines(text: string, g: Grid)
    requires Is3x3(g) && |Lines(text)| == 3
    requires forall i :: 0 <= i < 3 ==> SplitWs(Lines(text)[i]) == g[i]
    ensures ParseGrid(text) == g
  {
    TokenizeToGrid(Lines(text), g);
  }

  /** A line that is not three tokens gives the placeholder. */
  lemma BadLineGivesPlaceholder(text: string, i: nat)
    requires i < |Lines(text)| && |SplitWs(Lines(text)[i])| != 3
    ensures ParseGrid(text) == Placeholder
  {
    TokenizeAt(Lines(text), i);
  }

  /** Empty or all-whitespace text gives the placeholder. */
  lemma BlankTextGivesPlaceholder(text: string)
    requires AllSpace(text)
    ensures ParseGrid(text) == Placeholder
  {
    BlankTextStripped(text);
    NothingLeftGivesPlaceholder(text);
  }

  lemma NothingLeftGivesPlaceholder(text: string)
    requires Strip(Unfenced(text)) == []
    ensures ParseGrid(text) == Placeholder
  {
    var t := Strip(Unfenced(text));
    calc {
      Lines(text);
      StrippedNonBlank(SplitNewline(t));
      StrippedNonBlank(SplitNewline([]));
      { NoLinesOfEmpty(); }
      [];
    }
    NoLinesGivesPlaceholder(text);
  }

  lemma NoLinesGivesPlaceholder(text: string)
    requires Lines(text) == []
    ensures ParseGrid(text) == Placeholder
  {
    assert Tokenize(Lines(text)) == [];
  }

  lemma BlankTextStripped(text: string)
    requires AllSpace(text)
    ensures Strip(Unfenced(text)) == []
  {
    if |text| >= 3 {
      assert IsSpace(text[0]);
      assert text[..3][0] == text[0];
    }
    StripEmptyIff(text);
  }

  /** Text fenced on both ends loses the fences and is stripped. */
  lemma UnfencedWhole(body: string)
    ensures Unfenced(Fence + body + Fence) == Strip(body)
  {
    var s := Fence + body + Fence;
    assert s[..3] == Fence && s[|s| - 3..] == Fence;
    assert Middle(s) == body;
  }

  /** A fence around the whole text is removed and the inside stripped: the
      result is the same as for the inside alone, when that is not itself
      fenced on both ends. */
  lemma FencedParsesAsBody(body: string)
    requires !(StartsWith(body, Fence) && EndsWith(body, Fence))
    ensures ParseGrid(Fence + body + Fence) == ParseGrid(body)
  {
    var s := Fence + body + Fence;
    UnfencedWhole(body);
    assert Strip(Unfenced(s)) == Strip(Unfenced(body)) by {
      StripIdempotent(body);
    }
    SameLinesSameGrid(s, body);
  }

  /** Three stripped, non-blank lines without backticks, joined by newlines,
      come back as the lines. */
  lemma ThreeLines(rs: seq<string>)
    requires |rs| == 3
    requires forall i :: 0 <= i < 3 ==> rs[i] != [] && Trimmed(rs[i]) && NoBreak(rs[i]) && '`' !in rs[i]
    ensures Lines(JoinNewline(rs)) == rs
  {
    var text := JoinNewline(rs);
    ThreeLinesUntouched(rs);
    ThreeLinesSplit(rs);
    StrippedNonBlankKeeps(rs);
  }

  lemma ThreeLinesUntouched(rs: seq<string>)
    requires |rs| == 3
    requires forall i :: 0 <= i < 3 ==> rs[i] != [] && Trimmed(rs[i]) && NoBreak(rs[i]) && '`' !in rs[i]
    ensures Strip(Unfenced(JoinNewline(rs))) == JoinNewline(rs)
  {
    var text := JoinNewline(rs);
    ThreeLineText(rs);
    NoBacktickNoFence(text);
    StripTrimmed(text);
  }

  lemma ThreeLinesSplit(rs: seq<string>)
    requires forall i :: 0 <= i < |rs| ==> NoBreak(rs[i])
    requires |rs| >= 1
    ensures SplitNewline(JoinNewline(rs)) == rs
  {
    forall l | l in rs ensures '\n' !in l {
      assert IsLineBreak('\n');
    }
    SplitJoinNewline(rs);
  }

  /** Any 3x3 arrangement of tokens written out with spaces parses back to
      itself: cells are not checked against the colour letters. */
  lemma SpacedGridRoundTrip(g: Grid)
    requires |g| == 3 && forall i :: 0 <= i < 3 ==> TokenRow(g[i])
    ensures ParseGrid(RenderSpaced(g)) == g
  {
    var rs := SpacedLines(g);
    var text := RenderSpaced(g);
    ThreeLines(rs);
    assert Lines(text) == rs;
    GridFromLines(text, g);
  }

  /** A grid written as unspaced lines such as "WRG" is three one-token rows,
      so it gives the placeholder. */
  lemma CompactGridGivesPlaceholder(g: Grid)
    requires LetterGrid(g)
    ensures ParseGrid(RenderCompact(g)) == Placeholder
  {
    var rs := seq(3, i requires 0 <= i < 3 => g[i][0] + g[i][1] + g[i][2]);
    forall i | 0 <= i < 3
      ensures rs[i] != [] && Trimmed(rs[i]) && NoBreak(rs[i]) && '`' !in rs[i]
      ensures NoSpace(rs[i])
    {
      CompactRowFacts(g[i]);
    }
    var text := RenderCompact(g);
    ThreeLines(rs);
    assert Lines(text) == rs;
    SplitWsToken(rs[0]);
    BadLineGivesPlaceholder(text, 0);
  }

  /** Texts that are the same once unfenced and stripped give the same grid. */
  lemma SameStrippedSameGrid(x: string, y: string)
    requires Strip(Unfenced(x)) == Strip(Unfenced(y))
    ensures ParseGrid(x) == ParseGrid(y)
  {
    calc {
      Lines(x);
      StrippedNonBlank(SplitNewline(Strip(Unfenced(x))));
      StrippedNonBlank(SplitNewline(Strip(Unfenced(y))));
      Lines(y);
    }
    SameLinesSameGrid(x, y);
  }

  /** A fence on lines of its own around a spaced grid is removed. */
  lemma FencedGridParses(g: Grid)
    requires |g| == 3 && forall i :: 0 <= i < 3 ==> TokenRow(g[i])
    ensures ParseGrid(Fenced([], RenderSpaced(g))) == g
  {
    var rs := SpacedLines(g);
    ThreeLineText(rs);
    FencedLinesParse(RenderSpaced(g));
    SpacedGridRoundTrip(g);
  }

  /** Fence lines of their own around stripped, backtick-free text. */
  lemma FencedLinesParse(r: string)
    requires Trimmed(r) && '`' !in r
    ensures ParseGrid(Fenced([], r)) == ParseGrid(r)
  {
    FencedUntagged(r);
    var body := "\n" + r + "\n";
    assert Fence + "\n" + r + "\n" + Fence == Fence + body + Fence;
    assert !StartsWith(body, Fence) by {
      assert body[0] == '\n';
    }
    FencedParsesAsBody(body);
    PaddedStripped(r);
    SameStrippedSameGrid(body, r);
  }

  lemma PaddedStripped(r: string)
    requires Trimmed(r) && '`' !in r
    ensures Strip(Unfenced("\n" + r + "\n")) == Strip(Unfenced(r))
  {
    var body := "\n" + r + "\n";
    assert body[0] == '\n';
    assert Unfenced(body) == body;
    assert AllSpace("\n");
    StripUnique("\n", r, "\n");
    NoBacktickNoFence(r);
    StripTrimmed(r);
  }

  lemma StripDropsNewline(m: string)
    requires Trimmed(m)
    ensures Strip(m + "\n") == m
  {
    assert AllSpace("\n");
    StripUnique("", m, "\n");
    assert "" + m + "\n" == m + "\n";
  }

  /** Lines that are not three in number give the placeholder. */
  lemma LineCountGivesPlaceholder(text: string)
    requires |Lines(text)| != 3
    ensures ParseGrid(text) == Placeholder
  {
    assert |Tokenize(Lines(text))| != 3;
  }

  /** A stripped single line put in front of a spaced grid is one more line. */
  lemma HeadedLines(head: string, g: Grid)
    requires head != [] && Trimmed(head) && '\n' !in head
    requires |g| == 3 && forall i :: 0 <= i < 3 ==> TokenRow(g[i])
    ensures var t := head + "\n" + RenderSpaced(g);
            Trimmed(t) && |StrippedNonBlank(SplitNewline(t))| == 4
  {
    var rs := SpacedLines(g);
    var r := RenderSpaced(g);
    ThreeLineText(rs);
    JoinTrimmed(head, r);
    HeadedSplit(head, rs);
  }

  lemma HeadedSplit(head: string, rs: seq<string>)
    requires head != [] && Trimmed(head) && '\n' !in head
    requires |rs| == 3
    requires forall i :: 0 <= i < 3 ==> rs[i] != [] && Trimmed(rs[i]) && NoBreak(rs[i])
    ensures StrippedNonBlank(SplitNewline(head + "\n" + JoinNewline(rs))) == [head] + rs
  {
    var ls := [head] + rs;
    JoinNewlineCons(head, rs);
    forall i | 0 <= i < 4 ensures ls[i] != [] && Trimmed(ls[i]) && '\n' !in ls[i] {
      if i > 0 {
        assert ls[i] == rs[i - 1];
        assert IsLineBreak('\n');
      }
    }
    SplitJoinNewline(ls);
    StrippedNonBlankKeeps(ls);
  }

  /** A language tag after the opening fence (```text) survives as a fourth
      line, so a fenced grid with a tag gives the placeholder. */
  lemma TaggedFenceGivesPlaceholder(tag: string, g: Grid)
    requires tag != [] && Trimmed(tag) && '\n' !in tag
    requires |g| == 3 && forall i :: 0 <= i < 3 ==> TokenRow(g[i])
    ensures ParseGrid(Fenced(tag, RenderSpaced(g))) == Placeholder
  {
    HeadedLines(tag, g);
    TaggedLines(tag, RenderSpaced(g));
    LineCountGivesPlaceholder(Fenced(tag, RenderSpaced(g)));
  }

  lemma TaggedLines(tag: string, r: string)
    requires Trimmed(tag + "\n" + r)
    ensures Lines(Fenced(tag, r)) == StrippedNonBlank(SplitNewline(tag + "\n" + r))
  {
    var m := tag + "\n" + r;
    var text := Fenced(tag, r);
    FencedAsWhole(tag, r);
    assert Strip(Unfenced(text)) == m by {
      UnfencedWhole(m + "\n");
      StripDropsNewline(m);
      StripTrimmed(m);
    }
  }

  /** An opening fence without a closing one is not removed: it is one more
      line, and the grid gives the placeholder. */
  lemma UnclosedFenceGivesPlaceholder(g: Grid)
    requires |g| == 3 && forall i :: 0 <= i < 3 ==> TokenRow(g[i])
    ensures ParseGrid(Fence + "\n" + RenderSpaced(g)) == Placeholder
  {
    var rs := SpacedLines(g);
    var r := RenderSpaced(g);
    ThreeLineText(rs);
    var text := Fence + "\n" + r;
    HeadedLines(Fence, g);
    assert Strip(Unfenced(text)) == text by {
      assert !EndsWith(text, Fence) by {
        assert text[|text| - 1] == r[|r| - 1];
        assert r[|r| - 1] in r;
      }
      StripTrimmed(text);
    }
    assert |Lines(text)| == 4;
    LineCountGivesPlaceholder(text);
  }

  /** Cells separated by tabs are split like cells separated by spaces. */
  lemma TabbedGridParses(g: Grid)
    requires LetterGrid(g)
    ensures ParseGrid(RenderTabbed(g)) == g
  {
    var rs := TabbedLines(g);
    ThreeLines(rs);
    GridFromLines(RenderTabbed(g), g);
  }
}
