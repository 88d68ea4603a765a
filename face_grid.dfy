/**
 * A photographed face as both front ends hold it: a list of rows, each a
 * list of string cells (normally one colour letter each).
 */
module FaceGrid {

  type Grid = seq<seq<string>>

  /** The shape both grid parsers insist on: three rows of three cells. */
  predicate Is3x3(g: Grid) {
    |g| == 3 && forall i :: 0 <= i < 3 ==> |g[i]| == 3
  }

  /** A 3x3 grid whose every cell is a single character: the input for which
      the assembled cube string has exactly 54 characters. */
  predicate IsFace(g: Grid) {
    Is3x3(g) && forall i, j :: 0 <= i < 3 && 0 <= j < 3 ==> |g[i][j]| == 1
  }

  /** `[["?"] * 3] * 3`, what the parsers return when the text is not a 3x3 grid. */
  const Placeholder: Grid := [["?", "?", "?"], ["?", "?", "?"], ["?", "?", "?"]]

  lemma PlaceholderIsFace()
    ensures IsFace(Placeholder)
    ensures forall i, j :: 0 <= i < 3 && 0 <= j < 3 ==> Placeholder[i][j] == "?"
  {}
}
