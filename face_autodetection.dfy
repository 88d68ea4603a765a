/**
 * `parse_grid` of all_face_autodetection.py, the Streamlit front end: the
 * classifier's free text for one face becomes a 3x3 grid of string cells, or
 * the all-"?" placeholder when the text is not shaped like one.
 */
module FaceAutodetection {
  import opened PyStr
  import opened FaceGrid
  import opened GridText

  /** The lines without a first one that starts with a code fence (a
      language tag after the fence is allowed). */
  function DropOpening(lines: seq<string>): seq<string> {
    if lines != [] && StartsWith(lines[0], Fence) then lines[1..] else lines
  }

  /** The lines without a last one that starts with a code fence. */
  function DropClosing(lines: seq<string>): seq<string> {
    if lines != [] && StartsWith(lines[|lines| - 1], Fence) then lines[..|lines| - 1] else lines
  }

  /** `text.strip().splitlines()`, without a first and then a last line that
      start with a code fence. */
  function FenceFreeLines(text: string): seq<string> {
    DropClosing(DropOpening(SplitLines(Strip(text))))
  }

  /** The rows: the remaining lines stripped, blank ones dropped. */
  function Rows(text: string): seq<string> {
    StrippedNonBlank(FenceFreeLines(text))
  }

  /** One row's cells: split on whitespace when it holds a space, otherwise
      one cell per character. */
  function RowCells(row: string): seq<string> {
    if ' ' in row then SplitWs(row) else Chars(row)
  }

  /** Every row split into its cells. */
  function Cells(text: string): (g: Grid)
    ensures |g| == |Rows(text)|
  {
    var rows := Rows(text);
    seq(|rows|, i requires 0 <= i < |rows| => RowCells(rows[i]))
  }

  /** Row `i` of the cells is row `i` of the text split as line 144 splits it. */
  lemma CellsAt(text: string, i: nat)
    requires i < |Rows(text)|
    ensures Cells(text)[i] == RowCells(Rows(text)[i])
  {
  }

  /** `parse_grid`: the cells when they form three rows of three, the
      placeholder otherwise. It never fails and always gives a 3x3 grid. */
  function ParseGrid(text: string): (g: Grid)
    ensures Is3x3(g)
    ensures Is3x3(Cells(text)) ==> g == Cells(text)
    ensures !Is3x3(Cells(text)) ==> g == Placeholder
  {
    var grid := Cells(text);
    if Is3x3(grid) then grid else Placeholder
  }

  // ---------------------------------------------------------------------
  // Properties
  // ---------------------------------------------------------------------

  /** The grid depends on the text only through its rows. */
  lemma SameRowsSameGrid(x: string, y: string)
    requires Rows(x) == Rows(y)
    ensures ParseGrid(x) == ParseGrid(y)
  {
    assert Cells(x) == Cells(y);
  }

  /** Empty or all-whitespace text gives the placeholder. */
  lemma BlankTextGivesPlaceholder(text: string)
    requires AllSpace(text)
    ensures ParseGrid(text) == Placeholder
  {
    StripEmptyIff(text);
    assert FenceFreeLines(text) == [];
  }

  /** Without backticks there is no fence line to drop. */
  lemma NoFenceLines(text: string)
    requires '`' !in text
    ensures FenceFreeLines(text) == SplitLines(Strip(text))
  {
    var t := Strip(text);
    StripKeepsOut(text, '`');
    SplitLinesChars(t, '`');
    var lines := SplitLines(t);
    if lines == [] {
      assert FenceFreeLines(text) == lines;
    } else {
      assert lines[0] in lines && lines[|lines| - 1] in lines;
      NoBacktickNoFence(lines[0]);
      NoBacktickNoFence(lines[|lines| - 1]);
      assert FenceFreeLines(text) == lines;
    }
  }

  /** Without backticks the rows are the text's non-blank lines, stripped. */
  lemma RowsWithoutFence(text: string)
    requires '`' !in text
    ensures Rows(text) == StrippedNonBlank(SplitLines(text))
  {
    NoFenceLines(text);
    StrippedLinesOfStrip(text);
  }

  /** Fenced text parses as its body alone, language tag or not. */
  lemma FencedParsesAsBody(tag: string, body: string)
    requires NoBreak(tag) && '`' !in body
    ensures ParseGrid(Fenced(tag, body)) == ParseGrid(body)
  {
    FencedRows(tag, body);
    SameRowsSameGrid(Fenced(tag, body), body);
  }

  lemma FencedRows(tag: string, body: string)
    requires NoBreak(tag) && '`' !in body
    ensures Rows(Fenced(tag, body)) == Rows(body)
  {
    var text := Fenced(tag, body);
    FencedLines(tag, body);
    DropsBothFences(text, Fence + tag, SplitLines(body + "\n"));
    StrippedLinesSnocSpace(body, '\n');
    RowsWithoutFence(body);
  }

  /** The lines of a fenced text: the opening fence line, the body's lines
      and the closing fence. */
  lemma FencedLines(tag: string, body: string)
    requires NoBreak(tag)
    ensures SplitLines(Strip(Fenced(tag, body))) == [Fence + tag] + SplitLines(body + "\n") + [Fence]
  {
    FencedShape(tag, body);
    StripTrimmed(Fenced(tag, body));
    FenceHeadNoBreak(tag);
    HeadBodyFence(Fence + tag, body);
  }

  lemma HeadBodyFence(head: string, body: string)
    requires NoBreak(head)
    ensures SplitLines(head + "\n" + (body + "\n" + Fence)) == [head] + SplitLines(body + "\n") + [Fence]
  {
    var tail := body + "\n" + Fence;
    SplitLinesHead(head, tail);
    ClosingFenceLine(body);
    ConcatAssoc([head], SplitLines(body + "\n"), [Fence]);
  }

  /** A closing fence after a newline is a line of its own. */
  lemma ClosingFenceLine(body: string)
    ensures SplitLines(body + "\n" + Fence) == SplitLines(body + "\n") + [Fence]
  {
    SplitLinesAfterNewline(body, Fence);
    assert NoBreak(Fence) by {
      assert !IsLineBreak('`');
    }
    SplitLinesSingle(Fence);
  }

  lemma FencedShape(tag: string, body: string)
    ensures Fenced(tag, body) == (Fence + tag) + "\n" + (body + "\n" + Fence)
    ensures Trimmed(Fenced(tag, body))
  {
    var text := Fenced(tag, body);
    assert text[0] == '`' && text[|text| - 1] == '`';
  }

  lemma FenceHeadNoBreak(tag: string)
    requires NoBreak(tag)
    ensures NoBreak(Fence + tag)
  {
    var head := Fence + tag;
    forall k | 0 <= k < |head| ensures !IsLineBreak(head[k]) {
      if k >= 3 { assert head[k] == tag[k - 3]; }
    }
  }

  lemma DropsBothFences(text: string, head: string, inner: seq<string>)
    requires StartsWith(head, Fence)
    requires SplitLines(Strip(text)) == [head] + inner + [Fence]
    ensures FenceFreeLines(text) == inner
  {
    assert ([head] + inner + [Fence])[1..] == inner + [Fence];
    assert (inner + [Fence])[..|inner|] == inner;
  }

  /** Whitespace-only lines are ignored wherever they stand, fenced text
      included. */
  lemma BlankLineIgnored(above: string, blank: string, below: string)
    requires AllSpace(blank)
    ensures ParseGrid(above + "\n" + blank + "\n" + below) == ParseGrid(above + "\n" + below)
  {
    BlankLineRows(above, blank, below);
    SameRowsSameGrid(above + "\n" + blank + "\n" + below, above + "\n" + below);
  }

  lemma BlankLineRows(above: string, blank: string, below: string)
    requires AllSpace(blank)
    ensures Rows(above + "\n" + blank + "\n" + below) == Rows(above + "\n" + below)
  {
    var with := above + "\n" + blank + "\n" + below;
    var without := above + "\n" + below;
    if AllSpace(above) {
      // Everything up to `below` is whitespace, which the outer strip removes.
      var lead := above + "\n" + blank + "\n";
      assert AllSpace(lead) by { assert IsSpace('\n'); }
      assert AllSpace(above + "\n") by { assert IsSpace('\n'); }
      StripSpacePrefix(lead, below);
      StripSpacePrefix(above + "\n", below);
      SameStripSameRows(with, without);
    } else if AllSpace(below) {
      var trail := "\n" + below;
      assert AllSpace(trail) by { assert IsSpace('\n'); }
      assert with == (above + "\n" + blank) + trail;
      assert without == above + trail;
      StripSpaceSuffix(above + "\n" + blank, trail);
      StripSpaceSuffix(above, trail);
      assert AllSpace("\n" + blank) by { assert IsSpace('\n'); }
      assert above + "\n" + blank == above + ("\n" + blank);
      StripSpaceSuffix(above, "\n" + blank);
      SameStripSameRows(with, without);
    } else {
      // Both ends keep their first and last line, so the same fence lines
      // are dropped and only whitespace lines are added in between.
      var first, last := StripLeft(above), StripRight(below);
      StrippedInside(above, blank, below);
      var p, m, q := SplitLines(first + "\n"), SplitLines(blank + "\n"), SplitLines(last);
      assert first != [] && last != [];
      SplitLinesAfterNewline(first, blank + "\n" + last);
      SplitLinesAfterNewline(blank, last);
      SplitLinesAfterNewline(first, last);
      ConcatAssoc(p, m, q);
      assert StrippedNonBlank(m) == [] by {
        StrippedLinesSnocSpace(blank, '\n');
        DropSpacePrefix(blank, "");
        AppendEmpty(blank);
      }
      MiddleLinesDropped(with, without, p, m, q);
    }
  }

  /** Texts that strip to the same string have the same rows. */
  lemma SameStripSameRows(x: string, y: string)
    requires Strip(x) == Strip(y)
    ensures Rows(x) == Rows(y)
  {
  }

  /** When neither side is blank, the outer strip only trims the outside of
      the first and the last line. */
  lemma StrippedInside(above: string, blank: string, below: string)
    requires !AllSpace(above) && !AllSpace(below)
    ensures StripLeft(above) != [] && StripRight(below) != []
    ensures Strip(above + "\n" + blank + "\n" + below)
              == StripLeft(above) + "\n" + (blank + "\n" + StripRight(below))
    ensures Strip(above + "\n" + below) == StripLeft(above) + "\n" + StripRight(below)
  {
    var first, last := StripLeft(above), StripRight(below);
    var mid := "\n" + blank + "\n";
    StripAround(above, mid, below);
    StripAround(above, "\n", below);
    InsertRegroup(above, blank, below);
    InsertRegroup(first, blank, last);
  }

  /** The inserted line and its two newlines, taken as one piece. */
  lemma InsertRegroup(x: string, blank: string, y: string)
    ensures x + "\n" + blank + "\n" + y == x + ("\n" + blank + "\n") + y
    ensures x + ("\n" + blank + "\n") + y == x + "\n" + (blank + "\n" + y)
  {
  }

  /** Text between two non-blank parts is kept whole by the outer strip. */
  lemma StripAround(above: string, mid: string, below: string)
    requires !AllSpace(above) && !AllSpace(below)
    ensures StripLeft(above) != [] && StripRight(below) != []
    ensures Strip(above + mid + below) == StripLeft(above) + mid + StripRight(below)
  {
    var first, last := StripLeft(above), StripRight(below);
    var lead := StripLeftParts(above);
    var trail := StripRightParts(below);
    var inner := first + mid + last;
    assert Trimmed(inner) by {
      assert inner[0] == first[0] && inner[|inner| - 1] == last[|last| - 1];
    }
    Regroup(lead, first, mid, last, trail);
    StripUnique(lead, inner, trail);
  }

  /** The text around a separator, with the outer whitespace taken apart. */
  lemma Regroup(lead: string, first: string, sep: string, last: string, trail: string)
    ensures (lead + first) + sep + (last + trail) == lead + (first + sep + last) + trail
  {
  }

  /** Inserting lines with no non-blank content between a non-empty first part
      and a non-empty last part leaves the rows alone. */
  lemma MiddleLinesDropped(x: string, y: string, p: seq<string>, m: seq<string>, q: seq<string>)
    requires p != [] && q != []
    requires SplitLines(Strip(x)) == p + (m + q)
    requires SplitLines(Strip(y)) == p + q
    requires StrippedNonBlank(m) == []
    ensures Rows(x) == Rows(y)
  {
    var p1 := DropOpening(p);
    DropOpeningFront(p, m + q);
    DropOpeningFront(p, q);
    ConcatAssoc(p1, m, q);
    DropClosingBack(p1 + m, q);
    DropClosingBack(p1, q);
    var q1 := DropClosing(q);
    assert FenceFreeLines(x) == (p1 + m) + q1;
    assert FenceFreeLines(y) == p1 + q1;
    StrippedNonBlankAppend(p1 + m, q1);
    StrippedNonBlankAppend(p1, m);
    StrippedNonBlankAppend(p1, q1);
    ConcatEmpty(StrippedNonBlank(p1));
  }

  /** Only the first line decides whether an opening fence is dropped. */
  lemma DropOpeningFront(p: seq<string>, s: seq<string>)
    requires p != []
    ensures DropOpening(p + s) == DropOpening(p) + s
  {
    assert (p + s)[0] == p[0];
    if StartsWith(p[0], Fence) {
      assert (p + s)[1..] == p[1..] + s;
    }
  }

  /** Only the last line decides whether a closing fence is dropped. */
  lemma DropClosingBack(r: seq<string>, q: seq<string>)
    requires q != []
    ensures DropClosing(r + q) == r + DropClosing(q)
  {
    var n := |r + q|;
    assert (r + q)[n - 1] == q[|q| - 1];
    if StartsWith(q[|q| - 1], Fence) {
      assert (r + q)[..n - 1] == r + q[..|q| - 1];
    }
  }

  /** A row written without spaces and the same row spaced out give the same cells. */
  lemma SpacedRowSameCells(row: string)
    requires NoSpace(row)
    ensures RowCells(JoinSpace(Chars(row))) == RowCells(row) == Chars(row)
  {
    assert ' ' !in row by {
      assert IsSpace(' ');
    }
    assert RowCells(row) == Chars(row);
    var cs := Chars(row);
    if |row| <= 1 {
      assert JoinSpace(cs) == row;
    } else {
      SplitSpacedChars(row);
      assert JoinSpace(cs) == cs[0] + " " + JoinSpace(cs[1..]);
      assert JoinSpace(cs)[1] == ' ';
      assert RowCells(JoinSpace(cs)) == cs;
    }
  }

  /** Three rows whose cells are the rows of a 3x3 grid parse to that grid. */
  lemma GridFromRows(text: string, g: Grid)
    requires Is3x3(g) && |Rows(text)| == 3
    requires forall i :: 0 <= i < 3 ==> RowCells(Rows(text)[i]) == g[i]
    ensures ParseGrid(text) == g
  {
    assert Cells(text) == g;
  }

  /** Three stripped, non-blank, single-line rows without backticks, joined
      by newlines, come back as the rows. */
  lemma ThreeLineRows(rs: seq<string>)
    requires |rs| == 3
    requires forall i :: 0 <= i < 3 ==> rs[i] != [] && Trimmed(rs[i]) && NoBreak(rs[i]) && '`' !in rs[i]
    ensures Rows(JoinNewline(rs)) == rs
  {
    var text := JoinNewline(rs);
    NoBacktickThreeLines(rs);
    calc {
      Rows(text);
      { RowsWithoutFence(text); }
      StrippedNonBlank(SplitLines(text));
      { SplitLinesJoin(rs); }
      StrippedNonBlank(rs);
      { StrippedNonBlankKeeps(rs); }
      rs;
    }
  }

  /** Any 3x3 arrangement of tokens written out with spaces parses back to
      itself: cells are not checked against the colour letters. */
  lemma SpacedGridRoundTrip(g: Grid)
    requires |g| == 3 && forall i :: 0 <= i < 3 ==> TokenRow(g[i])
    ensures ParseGrid(RenderSpaced(g)) == g
  {
    var rs := seq(3, i requires 0 <= i < 3 => JoinSpace(g[i]));
    forall i | 0 <= i < 3
      ensures rs[i] != [] && Trimmed(rs[i]) && NoBreak(rs[i]) && '`' !in rs[i]
      ensures RowCells(rs[i]) == g[i]
    {
      SpacedRowFacts(g[i]);
    }
    var text := RenderSpaced(g);
    assert text == JoinNewline(rs);
    ThreeLineRows(rs);
    assert Rows(text) == rs;
    GridFromRows(text, g);
  }

  /** A grid written as three unspaced lines such as "WRG" parses back to itself. */
  lemma CompactGridRoundTrip(g: Grid)
    requires LetterGrid(g)
    ensures ParseGrid(RenderCompact(g)) == g
  {
    var rs := seq(3, i requires 0 <= i < 3 => g[i][0] + g[i][1] + g[i][2]);
    forall i | 0 <= i < 3
      ensures rs[i] != [] && Trimmed(rs[i]) && NoBreak(rs[i]) && '`' !in rs[i]
      ensures RowCells(rs[i]) == g[i]
    {
      CompactRowFacts(g[i]);
      assert IsSpace(' ');
    }
    var text := RenderCompact(g);
    ThreeLineRows(rs);
    assert Rows(text) == rs;
    GridFromRows(text, g);
  }

  lemma LetterRowsAreTokenRows(g: Grid)
    requires LetterGrid(g)
    ensures forall i :: 0 <= i < 3 ==> TokenRow(g[i])
  {
    forall i | 0 <= i < 3 ensures TokenRow(g[i]) {
      assert forall j :: 0 <= j < 3 ==> Letter(g[i][j]);
    }
  }

  /** "WRG" and "W R G" rows agree: a grid of colour letters parses to itself
      whichever way the lines are written. */
  lemma CompactAndSpacedAgree(g: Grid)
    requires LetterGrid(g)
    ensures ParseGrid(RenderCompact(g)) == ParseGrid(RenderSpaced(g)) == g
  {
    CompactGridRoundTrip(g);
    LetterRowsAreTokenRows(g);
    SpacedGridRoundTrip(g);
  }

  /** An opening fence line is dropped even when no closing fence follows. */
  lemma UnclosedFenceParses(g: Grid)
    requires |g| == 3 && forall i :: 0 <= i < 3 ==> TokenRow(g[i])
    ensures ParseGrid(Fence + "\n" + RenderSpaced(g)) == g
  {
    var rs := SpacedLines(g);
    UnclosedFenceRows(rs);
    forall i | 0 <= i < 3 ensures RowCells(rs[i]) == g[i] {}
    GridFromRows(Fence + "\n" + RenderSpaced(g), g);
  }

  lemma UnclosedFenceRows(rs: seq<string>)
    requires |rs| == 3
    requires forall i :: 0 <= i < 3 ==> rs[i] != [] && Trimmed(rs[i]) && NoBreak(rs[i]) && '`' !in rs[i]
    ensures Rows(Fence + "\n" + JoinNewline(rs)) == rs
  {
    var text := Fence + "\n" + JoinNewline(rs);
    UnclosedFenceLines(rs);
    NoBacktickNoFence(rs[2]);
    DropsOpeningFence(text, rs);
    StrippedNonBlankKeeps(rs);
  }

  lemma UnclosedFenceLines(rs: seq<string>)
    requires |rs| == 3
    requires forall i :: 0 <= i < 3 ==> rs[i] != [] && Trimmed(rs[i]) && NoBreak(rs[i]) && '`' !in rs[i]
    ensures SplitLines(Strip(Fence + "\n" + JoinNewline(rs))) == [Fence] + rs
  {
    var r := JoinNewline(rs);
    ThreeLineText(rs);
    assert NoBreak(Fence);
    calc {
      SplitLines(Strip(Fence + "\n" + r));
      { TrimmedJoin(Fence, r); }
      SplitLines(Fence + "\n" + r);
      { SplitLinesHead(Fence, r); }
      [Fence] + SplitLines(r);
      { SplitLinesJoin(rs); }
      [Fence] + rs;
    }
  }

  lemma DropsOpeningFence(text: string, rs: seq<string>)
    requires |rs| == 3 && !StartsWith(rs[2], Fence)
    requires SplitLines(Strip(text)) == [Fence] + rs
    ensures FenceFreeLines(text) == rs
  {
    assert ([Fence] + rs)[1..] == rs;
  }

  /** A row that is not three cells gives the placeholder. */
  lemma BadRowGivesPlaceholder(text: string, i: nat)
    requires i < |Rows(text)| && |RowCells(Rows(text)[i])| != 3
    ensures ParseGrid(text) == Placeholder
  {
    CellsAt(text, i);
  }

  /** A row with tabs but no space is split into characters, tabs included,
      so a tab-separated grid gives the placeholder. */
  lemma TabbedGridGivesPlaceholder(g: Grid)
    requires LetterGrid(g)
    ensures ParseGrid(RenderTabbed(g)) == Placeholder
  {
    var rs := TabbedLines(g);
    ThreeLineRows(rs);
    assert Rows(RenderTabbed(g)) == rs;
    assert |RowCells(rs[0])| == 5;
    BadRowGivesPlaceholder(RenderTabbed(g), 0);
  }
}
