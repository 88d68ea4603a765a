/**
 * The textual forms of a face that the classifier is asked to produce:
 * three lines of three colour letters, with or without spaces, possibly
 * wrapped in a Markdown code fence. Both grid parsers are stated against them.
 */
module GridText {
  import opened PyStr
  import opened FaceGrid

  /** The Markdown code fence the classifier may wrap its answer in. */
  const Fence: string := "```"

  /** A body wrapped in a fence, with an optional language tag on the opening line. */
  function Fenced(tag: string, body: string): string {
    Fence + tag + "\n" + body + "\n" + Fence
  }

  /** Without a tag the fences stand on lines of their own. */
  lemma FencedUntagged(body: string)
    ensures Fenced([], body) == Fence + "\n" + body + "\n" + Fence
  {
    assert Fence + [] == Fence;
  }

  /** The fenced text as one fence, the tag line and body with a newline after
      them, and the other fence. */
  lemma FencedAsWhole(tag: string, body: string)
    ensures Fenced(tag, body) == Fence + ((tag + "\n" + body) + "\n") + Fence
  {
  }

  /** A line without backticks does not open with a fence. */
  lemma NoBacktickNoFence(line: string)
    requires '`' !in line
    ensures !StartsWith(line, Fence)
  {
    if |line| >= 3 {
      assert line[0] in line;
      assert line[..3][0] != Fence[0];
    }
  }

  /** Three cells of any non-empty, whitespace-free tokens. */
  predicate TokenRow(row: seq<string>) {
    |row| == 3 && Tokens(row) && forall j :: 0 <= j < 3 ==> '`' !in row[j]
  }

  /** The grid written one row per line, cells separated by single spaces. */
  function RenderSpaced(g: Grid): string
    requires |g| == 3
  {
    JoinNewline(seq(3, i requires 0 <= i < 3 => JoinSpace(g[i])))
  }

  lemma SpacedRowFacts(row: seq<string>)
    requires TokenRow(row)
    ensures var r := JoinSpace(row);
            r != [] && Trimmed(r) && NoBreak(r) && '`' !in r && ' ' in r && SplitWs(r) == row
  {
    var r := JoinSpace(row);
    JoinSpaceThree(row);
    assert r[|row[0]|] == ' ';
    assert r[0] == row[0][0] && r[|r| - 1] == row[2][|row[2]| - 1];
    forall k | 0 <= k < |r| ensures !IsLineBreak(r[k]) && r[k] != '`' {
      if k < |row[0]| {
        assert r[k] == row[0][k];
      } else if k == |row[0]| {
      } else if k < |row[0]| + 1 + |row[1]| {
        assert r[k] == row[1][k - |row[0]| - 1];
      } else if k == |row[0]| + 1 + |row[1]| {
      } else {
        assert r[k] == row[2][k - |row[0]| - |row[1]| - 2];
      }
      if IsLineBreak(r[k]) { LineBreakIsSpace(r[k]); }
    }
    SplitJoinSpace(row);
  }

  lemma NoBacktickThreeLines(rs: seq<string>)
    requires |rs| == 3 && forall i :: 0 <= i < 3 ==> '`' !in rs[i]
    ensures '`' !in JoinNewline(rs)
  {
    JoinNewlineThree(rs);
  }

  /** The grid written one row per line with no separators. */
  function RenderCompact(g: Grid): string
    requires Is3x3(g)
  {
    JoinNewline(seq(3, i requires 0 <= i < 3 => g[i][0] + g[i][1] + g[i][2]))
  }

  /** One non-whitespace character other than a backtick. */
  predicate Letter(cell: string) {
    |cell| == 1 && !IsSpace(cell[0]) && cell[0] != '`'
  }

  predicate LetterGrid(g: Grid) {
    Is3x3(g) && forall i, j :: 0 <= i < 3 && 0 <= j < 3 ==> Letter(g[i][j])
  }

  lemma CompactRowFacts(row: seq<string>)
    requires |row| == 3 && forall j :: 0 <= j < 3 ==> Letter(row[j])
    ensures var r := row[0] + row[1] + row[2];
            |r| == 3 && NoSpace(r) && Trimmed(r) && NoBreak(r) && '`' !in r && Chars(r) == row
  {
    var r := row[0] + row[1] + row[2];
    assert r == [row[0][0], row[1][0], row[2][0]];
    forall k | 0 <= k < 3 ensures !IsLineBreak(r[k]) {
      if IsLineBreak(r[k]) { LineBreakIsSpace(r[k]); }
    }
    assert Chars(r) == row by {
      forall j | 0 <= j < 3 ensures Chars(r)[j] == row[j] {
        assert row[j] == [row[j][0]];
      }
    }
  }

  /** Three stripped, single-line rows without backticks joined by newlines:
      the text is itself stripped and contains no backtick. */
  lemma ThreeLineText(rs: seq<string>)
    requires |rs| == 3
    requires forall i :: 0 <= i < 3 ==> rs[i] != [] && Trimmed(rs[i]) && NoBreak(rs[i]) && '`' !in rs[i]
    ensures var text := JoinNewline(rs);
            text != [] && Trimmed(text) && text[0] == rs[0][0] && '`' !in text
  {
    var text := JoinNewline(rs);
    JoinNewlineThree(rs);
    assert text[0] == rs[0][0];
    assert text[|text| - 1] == rs[2][|rs[2]| - 1];
  }

  /** The lines of a spaced rendering, and what is known about them. */
  lemma SpacedLines(g: Grid) returns (rs: seq<string>)
    requires |g| == 3 && forall i :: 0 <= i < 3 ==> TokenRow(g[i])
    ensures |rs| == 3 && RenderSpaced(g) == JoinNewline(rs)
    ensures forall i :: 0 <= i < 3 ==> rs[i] != [] && Trimmed(rs[i]) && NoBreak(rs[i]) && '`' !in rs[i]
    ensures forall i :: 0 <= i < 3 ==> SplitWs(rs[i]) == g[i] && ' ' in rs[i]
  {
    rs := seq(3, i requires 0 <= i < 3 => JoinSpace(g[i]));
    forall i | 0 <= i < 3
      ensures rs[i] != [] && Trimmed(rs[i]) && NoBreak(rs[i]) && '`' !in rs[i]
      ensures SplitWs(rs[i]) == g[i] && ' ' in rs[i]
    {
      SpacedRowFacts(g[i]);
    }
  }

  /** A row of letters separated by tab characters. */
  function TabbedRow(row: seq<string>): string
    requires |row| == 3
  {
    row[0] + "\t" + row[1] + "\t" + row[2]
  }

  /** The grid written one row per line, cells separated by tabs. */
  function RenderTabbed(g: Grid): string
    requires Is3x3(g)
  {
    JoinNewline(seq(3, i requires 0 <= i < 3 => TabbedRow(g[i])))
  }

  lemma TabbedRowFacts(row: seq<string>)
    requires |row| == 3 && forall j :: 0 <= j < 3 ==> Letter(row[j])
    ensures var r := TabbedRow(row);
            |r| == 5 && ' ' !in r && Trimmed(r) && NoBreak(r) && '`' !in r && SplitWs(r) == row
  {
    TabbedRowShape(row);
    TabbedRowSplit(row);
  }

  lemma TabbedRowShape(row: seq<string>)
    requires |row| == 3 && forall j :: 0 <= j < 3 ==> Letter(row[j])
    ensures var r := TabbedRow(row);
            |r| == 5 && ' ' !in r && Trimmed(r) && NoBreak(r) && '`' !in r
  {
    var r := TabbedRow(row);
    assert !IsLineBreak('\t');
    assert r == [row[0][0], '\t', row[1][0], '\t', row[2][0]];
    assert NoBreak(r) by {
      forall k | 0 <= k < 5 ensures !IsLineBreak(r[k]) {
        if IsLineBreak(r[k]) { LineBreakIsSpace(r[k]); }
      }
    }
  }

  lemma TabbedRowSplit(row: seq<string>)
    requires |row| == 3 && forall j :: 0 <= j < 3 ==> Letter(row[j])
    ensures SplitWs(TabbedRow(row)) == row
  {
    var a, b, c := row[0], row[1], row[2];
    LetterIsToken(a);
    LetterIsToken(b);
    LetterIsToken(c);
    assert IsSpace('\t');
    calc {
      SplitWs(TabbedRow(row));
      { assert TabbedRow(row) == a + ['\t'] + (b + ['\t'] + c); }
      SplitWs(a + ['\t'] + (b + ['\t'] + c));
      { SplitWsTokenThen(a, '\t', b + ['\t'] + c); }
      [a] + SplitWs(b + ['\t'] + c);
      { SplitWsTokenThen(b, '\t', c); }
      [a] + ([b] + SplitWs(c));
      { SplitWsToken(c); }
      [a] + ([b] + [c]);
      row;
    }
  }

  lemma LetterIsToken(cell: string)
    requires Letter(cell)
    ensures cell != [] && NoSpace(cell)
  {}

  /** The lines of a tabbed rendering, and what is known about them. */
  lemma TabbedLines(g: Grid) returns (rs: seq<string>)
    requires LetterGrid(g)
    ensures |rs| == 3 && RenderTabbed(g) == JoinNewline(rs)
    ensures forall i :: 0 <= i < 3 ==> rs[i] != [] && Trimmed(rs[i]) && NoBreak(rs[i]) && '`' !in rs[i]
    ensures forall i :: 0 <= i < 3 ==> SplitWs(rs[i]) == g[i] && ' ' !in rs[i] && |rs[i]| == 5
  {
    rs := seq(3, i requires 0 <= i < 3 => TabbedRow(g[i]));
    forall i | 0 <= i < 3
      ensures rs[i] != [] && Trimmed(rs[i]) && NoBreak(rs[i]) && '`' !in rs[i]
      ensures SplitWs(rs[i]) == g[i] && ' ' !in rs[i] && |rs[i]| == 5
    {
      TabbedRowFacts(g[i]);
    }
  }
}
