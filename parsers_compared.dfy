/**
 * The two front ends parse the same classifier answer differently. These
 * lemmas put the two `parse_grid` functions side by side on the textual
 * forms of a face.
 */
module ParsersCompared {
  import opened PyStr
  import opened FaceGrid
  import opened GridText
  import Streamlit = FaceAutodetection
  import Flask = AiAnalysis

  /** Both accept a grid written one row per line with spaced cells. */
  lemma AgreeOnSpacedGrid(g: Grid)
    requires |g| == 3 && forall i :: 0 <= i < 3 ==> TokenRow(g[i])
    ensures Streamlit.ParseGrid(RenderSpaced(g)) == g
    ensures Flask.ParseGrid(RenderSpaced(g)) == g
  {
    Streamlit.SpacedGridRoundTrip(g);
    Flask.SpacedGridRoundTrip(g);
  }

  /** Both accept such a grid inside a fence on lines of its own. */
  lemma AgreeOnFencedGrid(g: Grid)
    requires |g| == 3 && forall i :: 0 <= i < 3 ==> TokenRow(g[i])
    ensures Streamlit.ParseGrid(Fenced([], RenderSpaced(g))) == g
    ensures Flask.ParseGrid(Fenced([], RenderSpaced(g))) == g
  {
    var rs := SpacedLines(g);
    ThreeLineText(rs);
    Streamlit.FencedParsesAsBody([], RenderSpaced(g));
    Streamlit.SpacedGridRoundTrip(g);
    Flask.FencedGridParses(g);
  }

  /** Rows written without spaces ("WRG"): the Streamlit parser splits them
      into letters, the Flask parser sees one token per row. */
  lemma DisagreeOnCompactGrid(g: Grid)
    requires LetterGrid(g)
    ensures Streamlit.ParseGrid(RenderCompact(g)) == g
    ensures Flask.ParseGrid(RenderCompact(g)) == Placeholder
  {
    Streamlit.CompactGridRoundTrip(g);
    Flask.CompactGridGivesPlaceholder(g);
  }

  /** A language tag on the opening fence: dropped with the fence line by the
      Streamlit parser, kept as a fourth line by the Flask parser. */
  lemma DisagreeOnTaggedFence(tag: string, g: Grid)
    requires tag != [] && Trimmed(tag) && NoBreak(tag)
    requires |g| == 3 && forall i :: 0 <= i < 3 ==> TokenRow(g[i])
    ensures Streamlit.ParseGrid(Fenced(tag, RenderSpaced(g))) == g
    ensures Flask.ParseGrid(Fenced(tag, RenderSpaced(g))) == Placeholder
  {
    var rs := SpacedLines(g);
    ThreeLineText(rs);
    Streamlit.FencedParsesAsBody(tag, RenderSpaced(g));
    Streamlit.SpacedGridRoundTrip(g);
    assert '\n' !in tag by {
      assert IsLineBreak('\n');
    }
    Flask.TaggedFenceGivesPlaceholder(tag, g);
  }

  /** An opening fence with no closing one: the Streamlit parser drops it,
      the Flask parser keeps it as a fourth line. */
  lemma DisagreeOnUnclosedFence(g: Grid)
    requires |g| == 3 && forall i :: 0 <= i < 3 ==> TokenRow(g[i])
    ensures Streamlit.ParseGrid(Fence + "\n" + RenderSpaced(g)) == g
    ensures Flask.ParseGrid(Fence + "\n" + RenderSpaced(g)) == Placeholder
  {
    Streamlit.UnclosedFenceParses(g);
    Flask.UnclosedFenceGivesPlaceholder(g);
  }

  /** Cells separated by tabs: split on whitespace by the Flask parser, split
      into characters (tabs among them) by the Streamlit parser. */
  lemma DisagreeOnTabbedGrid(g: Grid)
    requires LetterGrid(g)
    ensures Streamlit.ParseGrid(RenderTabbed(g)) == Placeholder
    ensures Flask.ParseGrid(RenderTabbed(g)) == g
  {
    Streamlit.TabbedGridGivesPlaceholder(g);
    Flask.TabbedGridParses(g);
  }
}
