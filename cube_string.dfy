/**
 * cube_string.py: the per-face orientation corrections, the assembly of six
 * corrected faces into the 54-character colour string read in U, R, F, D,
 * L, B order, and its translation into the solver's face-letter notation.
 */
module CubeString {
  import opened Wrappers
  import opened FaceGrid

  // ---------------------------------------------------------------------
  // Flips
  // ---------------------------------------------------------------------

  /** `s[::-1]`. */
  function Reverse<T>(s: seq<T>): (r: seq<T>)
    ensures |r| == |s|
    ensures forall i :: 0 <= i < |s| ==> r[i] == s[|s| - 1 - i]
  {
    if s == [] then [] else Reverse(s[1..]) + [s[0]]
  }

  lemma {:induction false} ReversePermutes<T>(s: seq<T>)
    ensures multiset(Reverse(s)) == multiset(s)
  {
    if s != [] {
      ReversePermutes(s[1..]);
      assert s == [s[0]] + s[1..];
    }
  }

  /** `vertical_flip`: the rows in reverse order, row `i` moving to `n - 1 - i`. */
  function VerticalFlip(g: Grid): (r: Grid)
    ensures |r| == |g|
    ensures forall i :: 0 <= i < |g| ==> r[i] == g[|g| - 1 - i]
  {
    Reverse(g)
  }

  /** `horizontal_flip`: the same rows, each with its cells in reverse order. */
  function HorizontalFlip(g: Grid): (r: Grid)
    ensures |r| == |g|
    ensures forall i :: 0 <= i < |g| ==> |r[i]| == |g[i]|
    ensures forall i, j :: 0 <= i < |g| && 0 <= j < |g[i]| ==> r[i][j] == g[i][|g[i]| - 1 - j]
  {
    seq(|g|, i requires 0 <= i < |g| => Reverse(g[i]))
  }

  lemma VerticalFlipInvolution(g: Grid)
    ensures VerticalFlip(VerticalFlip(g)) == g
  {}

  lemma HorizontalFlipInvolution(g: Grid)
    ensures HorizontalFlip(HorizontalFlip(g)) == g
  {
    var h := HorizontalFlip(HorizontalFlip(g));
    forall i | 0 <= i < |g| ensures h[i] == g[i] {}
  }

  // ---------------------------------------------------------------------
  // The correction table
  // ---------------------------------------------------------------------

  /** The faces in the order the cube string reads them. */
  const FaceOrder: seq<string> := ["U", "R", "F", "D", "L", "B"]

  /** The two corrections a photographed face can need. */
  datatype Correction = FlipRows | FlipCells

  /** Which correction each face gets: U and D are photographed upside down,
      R, F, L and B mirrored. */
  function CorrectionFor(face: string): (c: Correction)
    requires face in FaceOrder
    ensures c == FlipRows <==> face == "U" || face == "D"
  {
    if face == "U" || face == "D" then FlipRows else FlipCells
  }

  function Corrected(face: string, g: Grid): Grid
    requires face in FaceOrder
  {
    match CorrectionFor(face)
    case FlipRows => VerticalFlip(g)
    case FlipCells => HorizontalFlip(g)
  }

  /** Applying a face's correction twice gives the photographed grid back. */
  lemma CorrectionInvolution(face: string, g: Grid)
    requires face in FaceOrder
    ensures Corrected(face, Corrected(face, g)) == g
  {
    if CorrectionFor(face) == FlipRows {
      VerticalFlipInvolution(g);
    } else {
      HorizontalFlipInvolution(g);
    }
  }

  // ---------------------------------------------------------------------
  // Flattening: "".join(row) and "".join over the rows
  // ---------------------------------------------------------------------

  /** `"".join(row)`. */
  function Concat(row: seq<string>): string {
    if row == [] then "" else row[0] + Concat(row[1..])
  }

  /** The grid read row by row, each row's cells joined. */
  function Flatten(g: Grid): string {
    if g == [] then "" else Concat(g[0]) + Flatten(g[1..])
  }

  lemma {:induction false} ConcatAppend(a: seq<string>, b: seq<string>)
    ensures Concat(a + b) == Concat(a) + Concat(b)
  {
    if a == [] {
      assert a + b == b;
    } else {
      assert (a + b)[1..] == a[1..] + b;
      ConcatAppend(a[1..], b);
    }
  }

  lemma {:induction false} FlattenAppend(a: Grid, b: Grid)
    ensures Flatten(a + b) == Flatten(a) + Flatten(b)
  {
    if a == [] {
      assert a + b == b;
    } else {
      assert (a + b)[1..] == a[1..] + b;
      FlattenAppend(a[1..], b);
    }
  }

  /** Reversing the cells of a row keeps the characters it contributes. */
  lemma {:induction false} ConcatReversePermutes(row: seq<string>)
    ensures multiset(Concat(Reverse(row))) == multiset(Concat(row))
  {
    if row != [] {
      ConcatReversePermutes(row[1..]);
      ConcatAppend(Reverse(row[1..]), [row[0]]);
      assert Concat([row[0]]) == row[0];
    }
  }

  /** Reversing the rows keeps the characters of the grid. */
  lemma {:induction false} VerticalFlipPermutes(g: Grid)
    ensures multiset(Flatten(VerticalFlip(g))) == multiset(Flatten(g))
  {
    if g != [] {
      VerticalFlipPermutes(g[1..]);
      FlattenAppend(Reverse(g[1..]), [g[0]]);
      assert Flatten([g[0]]) == Concat(g[0]);
    }
  }

  /** Reversing each row keeps the characters of the grid. */
  lemma {:induction false} HorizontalFlipPermutes(g: Grid)
    ensures multiset(Flatten(HorizontalFlip(g))) == multiset(Flatten(g))
  {
    if g != [] {
      HorizontalFlipPermutes(g[1..]);
      assert HorizontalFlip(g) == [Reverse(g[0])] + HorizontalFlip(g[1..]);
      ConcatReversePermutes(g[0]);
    }
  }

  lemma CorrectionPermutes(face: string, g: Grid)
    requires face in FaceOrder
    ensures multiset(Flatten(Corrected(face, g))) == multiset(Flatten(g))
  {
    if CorrectionFor(face) == FlipRows {
      VerticalFlipPermutes(g);
    } else {
      HorizontalFlipPermutes(g);
    }
  }

  lemma ConcatThree(row: seq<string>)
    requires |row| == 3
    ensures Concat(row) == row[0] + row[1] + row[2]
  {
    var r1, r2 := row[1..], row[1..][1..];
    assert r2[1..] == [];
    calc {
      Concat(row);
      row[0] + Concat(r1);
      row[0] + (r1[0] + Concat(r2));
      row[0] + (row[1] + (r2[0] + Concat(r2[1..])));
      row[0] + row[1] + row[2];
    }
  }

  /** A 3x3 face of one-character cells flattens to its nine letters, row by row. */
  lemma FlattenFace(g: Grid)
    requires IsFace(g)
    ensures |Flatten(g)| == 9
    ensures forall i, j :: 0 <= i < 3 && 0 <= j < 3 ==> Flatten(g)[3 * i + j] == g[i][j][0]
  {
    forall i | 0 <= i < 3 ensures Concat(g[i]) == [g[i][0][0], g[i][1][0], g[i][2][0]] {
      ConcatThree(g[i]);
      assert g[i][0] == [g[i][0][0]] && g[i][1] == [g[i][1][0]] && g[i][2] == [g[i][2][0]];
    }
    var g1, g2 := g[1..], g[1..][1..];
    assert g2[1..] == [];
    calc {
      Flatten(g);
      Concat(g[0]) + Flatten(g1);
      Concat(g[0]) + (Concat(g1[0]) + Flatten(g2));
      Concat(g[0]) + (Concat(g[1]) + (Concat(g2[0]) + Flatten(g2[1..])));
      Concat(g[0]) + Concat(g[1]) + Concat(g[2]);
    }
  }

  /** Both corrections keep a grid a face. */
  lemma CorrectionKeepsFace(face: string, g: Grid)
    requires face in FaceOrder && IsFace(g)
    ensures IsFace(Corrected(face, g))
  {}

  // ---------------------------------------------------------------------
  // generate_cube_string
  // ---------------------------------------------------------------------

  /** The `KeyError` raised when a face label is missing from the assignment. */
  datatype CubeStringError = MissingFace(name: string)

  datatype CubeStringResult = CubeOk(colors: string) | CubeErr(error: CubeStringError)

  /** The first label of `order` that `faces` lacks, if any. */
  function FirstMissing(faces: map<string, Grid>, order: seq<string>): (r: Option<string>)
    ensures r == None <==> forall l :: l in order ==> l in faces
    ensures r.Some? ==> r.value in order && r.value !in faces
  {
    if order == [] then None
    else if order[0] !in faces then Some(order[0])
    else FirstMissing(faces, order[1..])
  }

  predicate Complete(faces: map<string, Grid>) {
    forall l :: l in FaceOrder ==> l in faces
  }

  /** All six labels present, each with a 3x3 grid of one-character cells. */
  predicate SixFaces(faces: map<string, Grid>) {
    Complete(faces) && forall k :: 0 <= k < 6 ==> IsFace(faces[FaceOrder[k]])
  }

  /** The six faces after correction, in U, R, F, D, L, B order. */
  function CorrectedFaces(faces: map<string, Grid>): (fs: seq<Grid>)
    requires Complete(faces)
    ensures |fs| == 6
  {
    seq(6, k requires 0 <= k < 6 => Corrected(FaceOrder[k], faces[FaceOrder[k]]))
  }

  /** The faces as photographed, in the same order. */
  function RawFaces(faces: map<string, Grid>): (fs: seq<Grid>)
    requires Complete(faces)
    ensures |fs| == 6
  {
    seq(6, k requires 0 <= k < 6 => faces[FaceOrder[k]])
  }

  /** The faces flattened one after another. */
  function Assemble(fs: seq<Grid>): string {
    if fs == [] then "" else Flatten(fs[0]) + Assemble(fs[1..])
  }

  /** `generate_cube_string`: correct each face by its entry in the table, then
      concatenate the flattened faces in U, R, F, D, L, B order. A missing face
      fails with the first one the source looks up. */
  function GenerateCubeString(faces: map<string, Grid>): (r: CubeStringResult)
    ensures r.CubeOk? <==> Complete(faces)
    ensures r.CubeErr? ==> r.error.name in FaceOrder && r.error.name !in faces
  {
    match FirstMissing(faces, FaceOrder)
    case Some(l) => CubeErr(MissingFace(l))
    case None => CubeOk(Assemble(CorrectedFaces(faces)))
  }

  lemma {:induction false} FirstMissingAt(faces: map<string, Grid>, order: seq<string>, k: nat)
    requires k < |order| && order[k] !in faces
    requires forall m :: 0 <= m < k ==> order[m] in faces
    ensures FirstMissing(faces, order) == Some(order[k])
  {
    if k > 0 {
      var rest := order[1..];
      assert forall m :: 0 <= m < k - 1 ==> rest[m] in faces by {
        forall m | 0 <= m < k - 1 ensures rest[m] in faces { assert rest[m] == order[m + 1]; }
      }
      FirstMissingAt(faces, rest, k - 1);
    }
  }

  /** A missing face is reported in the order the source assigns the corrected
      faces: U, R, F, D, L, B. */
  lemma MissingFaceIsFirst(faces: map<string, Grid>, k: nat)
    requires k < 6 && FaceOrder[k] !in faces
    requires forall m :: 0 <= m < k ==> FaceOrder[m] in faces
    ensures GenerateCubeString(faces) == CubeErr(MissingFace(FaceOrder[k]))
  {
    FirstMissingAt(faces, FaceOrder, k);
  }

  /** Nine-letter faces assemble into blocks of nine, face `k` at `9k..9k+9`. */
  lemma {:induction false} AssembleBlocks(fs: seq<Grid>)
    requires forall k :: 0 <= k < |fs| ==> |Flatten(fs[k])| == 9
    ensures |Assemble(fs)| == 9 * |fs|
    ensures forall k :: 0 <= k < |fs| ==> Assemble(fs)[9 * k..9 * k + 9] == Flatten(fs[k])
  {
    if fs != [] {
      var rest := fs[1..];
      assert forall k :: 0 <= k < |rest| ==> |Flatten(rest[k])| == 9 by {
        forall k | 0 <= k < |rest| ensures |Flatten(rest[k])| == 9 { assert rest[k] == fs[k + 1]; }
      }
      AssembleBlocks(rest);
      var s := Assemble(fs);
      assert s == Flatten(fs[0]) + Assemble(rest);
      forall k | 0 <= k < |fs| ensures s[9 * k..9 * k + 9] == Flatten(fs[k]) {
        if k > 0 {
          assert s[9 * k..9 * k + 9] == Assemble(rest)[9 * (k - 1)..9 * (k - 1) + 9];
          assert rest[k - 1] == fs[k];
        }
      }
    }
  }

  /** The characters of the assembled string are those of the faces. */
  function FacesMultiset(fs: seq<Grid>): multiset<char> {
    if fs == [] then multiset{} else multiset(Flatten(fs[0])) + FacesMultiset(fs[1..])
  }

  lemma {:induction false} FacesMultisetPointwise(a: seq<Grid>, b: seq<Grid>)
    requires |a| == |b|
    requires forall k :: 0 <= k < |a| ==> multiset(Flatten(a[k])) == multiset(Flatten(b[k]))
    ensures FacesMultiset(a) == FacesMultiset(b)
  {
    if a != [] {
      var a', b' := a[1..], b[1..];
      assert forall k :: 0 <= k < |a'| ==> multiset(Flatten(a'[k])) == multiset(Flatten(b'[k])) by {
        forall k | 0 <= k < |a'| ensures multiset(Flatten(a'[k])) == multiset(Flatten(b'[k])) {
          assert a'[k] == a[k + 1] && b'[k] == b[k + 1];
        }
      }
      FacesMultisetPointwise(a', b');
    }
  }

  lemma {:induction false} AssembleMultiset(fs: seq<Grid>)
    ensures multiset(Assemble(fs)) == FacesMultiset(fs)
  {
    if fs != [] {
      AssembleMultiset(fs[1..]);
    }
  }

  /** Correcting each face does not change which characters the faces hold. */
  lemma CorrectedFacesMultiset(faces: map<string, Grid>)
    requires Complete(faces)
    ensures FacesMultiset(CorrectedFaces(faces)) == FacesMultiset(RawFaces(faces))
  {
    var c, r := CorrectedFaces(faces), RawFaces(faces);
    forall k | 0 <= k < 6 ensures multiset(Flatten(c[k])) == multiset(Flatten(r[k])) {
      CorrectionPermutes(FaceOrder[k], faces[FaceOrder[k]]);
    }
    FacesMultisetPointwise(c, r);
  }

  /** The cube string is a rearrangement of the photographed cells: every
      colour occurs in it exactly as often as on the six raw faces together. */
  lemma CubeStringPermutesCells(faces: map<string, Grid>)
    requires Complete(faces)
    ensures GenerateCubeString(faces).CubeOk?
    ensures multiset(GenerateCubeString(faces).colors) == FacesMultiset(RawFaces(faces))
  {
    AssembleMultiset(CorrectedFaces(faces));
    CorrectedFacesMultiset(faces);
  }

  /** Six 3x3 faces of one-character cells give exactly 54 characters, face
      `k` of U, R, F, D, L, B occupying `9k..9k+9` as its corrected grid read
      row by row. */
  lemma CubeStringLayout(faces: map<string, Grid>)
    requires SixFaces(faces)
    ensures GenerateCubeString(faces).CubeOk?
    ensures |GenerateCubeString(faces).colors| == 54
    ensures forall k :: 0 <= k < 6 ==>
      GenerateCubeString(faces).colors[9 * k..9 * k + 9] == Flatten(Corrected(FaceOrder[k], faces[FaceOrder[k]]))
  {
    var fs := CorrectedFaces(faces);
    forall k | 0 <= k < 6
      ensures fs[k] == Corrected(FaceOrder[k], faces[FaceOrder[k]]) && |Flatten(fs[k])| == 9
    {
      CorrectionKeepsFace(FaceOrder[k], faces[FaceOrder[k]]);
      FlattenFace(fs[k]);
    }
    AssembleBlocks(fs);
  }

  /** Where each photographed cell lands: on U and D row `i` comes from row
      `2 - i`; on R, F, L and B column `j` comes from column `2 - j`. */
  lemma CubeStringFacelet(faces: map<string, Grid>, k: nat, i: nat, j: nat)
    requires SixFaces(faces)
    requires k < 6 && i < 3 && j < 3
    ensures GenerateCubeString(faces).CubeOk?
    ensures |GenerateCubeString(faces).colors| == 54
    ensures var g := faces[FaceOrder[k]];
            GenerateCubeString(faces).colors[9 * k + 3 * i + j]
              == if k == 0 || k == 3 then g[2 - i][j][0] else g[i][2 - j][0]
  {
    var l := FaceOrder[k];
    FaceletOfCorrected(faces, k, i, j);
    CorrectedCell(l, faces[l], i, j);
  }

  /** Cell `(i, j)` of face `k` of the cube string is that cell of the corrected face. */
  lemma FaceletOfCorrected(faces: map<string, Grid>, k: nat, i: nat, j: nat)
    requires SixFaces(faces)
    requires k < 6 && i < 3 && j < 3
    ensures GenerateCubeString(faces).CubeOk?
    ensures |GenerateCubeString(faces).colors| == 54
    ensures GenerateCubeString(faces).colors[9 * k + 3 * i + j]
              == Corrected(FaceOrder[k], faces[FaceOrder[k]])[i][j][0]
  {
    CubeStringLayout(faces);
    var s := GenerateCubeString(faces).colors;
    var l := FaceOrder[k];
    var c := Corrected(l, faces[l]);
    CorrectionKeepsFace(l, faces[l]);
    FlattenFace(c);
    assert s[9 * k..9 * k + 9][3 * i + j] == s[9 * k + 3 * i + j];
  }

  /** What each correction puts at cell `(i, j)`. */
  lemma CorrectedCell(face: string, g: Grid, i: nat, j: nat)
    requires face in FaceOrder && IsFace(g) && i < 3 && j < 3
    ensures Corrected(face, g)[i][j]
              == if face == "U" || face == "D" then g[2 - i][j] else g[i][2 - j]
  {}

  /** Both corrections keep the centre cell in place. */
  lemma CubeStringCentres(faces: map<string, Grid>, k: nat)
    requires SixFaces(faces)
    requires k < 6
    ensures GenerateCubeString(faces).CubeOk?
    ensures |GenerateCubeString(faces).colors| == 54
    ensures GenerateCubeString(faces).colors[9 * k + 4] == faces[FaceOrder[k]][1][1][0]
  {
    CubeStringFacelet(faces, k, 1, 1);
  }

  // ---------------------------------------------------------------------
  // convert_color_to_kociemba
  // ---------------------------------------------------------------------

  /** The colour letters and the face letters of the solver's notation. */
  const ColorToFace: map<char, char> := map['W' := 'U', 'R' := 'R', 'G' := 'F', 'Y' := 'D', 'O' := 'L', 'B' := 'B']

  /** The table is one-to-one, so a translated string determines its colours. */
  lemma ColorToFaceInjective()
    ensures forall a, b :: a in ColorToFace && b in ColorToFace && ColorToFace[a] == ColorToFace[b] ==> a == b
    ensures ColorToFace.Values == {'U', 'R', 'F', 'D', 'L', 'B'}
  {
    assert ColorToFace.Keys == {'W', 'R', 'G', 'Y', 'O', 'B'};
  }

  /** `convert_color_to_kociemba`: every character through the table, or `None`
      as soon as one is not in it. */
  function ConvertColorToKociemba(s: string): (r: Option<string>)
    ensures r.Some? <==> forall i :: 0 <= i < |s| ==> s[i] in ColorToFace
    ensures r.Some? ==> |r.value| == |s| && forall i :: 0 <= i < |s| ==> r.value[i] == ColorToFace[s[i]]
  {
    if s == [] then Some("")
    else if s[0] !in ColorToFace then None
    else
      match ConvertColorToKociemba(s[1..])
      case None => None
      case Some(t) => Some([ColorToFace[s[0]]] + t)
  }

  /** Two colour strings with the same translation are equal. */
  lemma ConvertInjective(s1: string, s2: string)
    requires ConvertColorToKociemba(s1).Some? && ConvertColorToKociemba(s1) == ConvertColorToKociemba(s2)
    ensures s1 == s2
  {
    ColorToFaceInjective();
    var t := ConvertColorToKociemba(s1).value;
    assert |s1| == |t| == |s2|;
    forall i | 0 <= i < |s1| ensures s1[i] == s2[i] {
      assert ColorToFace[s1[i]] == t[i] == ColorToFace[s2[i]];
    }
  }

  /** Each face letter occurs in the translation as often as its colour in the input. */
  lemma {:induction false} ConvertPreservesCounts(s: string, c: char)
    requires ConvertColorToKociemba(s).Some? && c in ColorToFace
    ensures multiset(ConvertColorToKociemba(s).value)[ColorToFace[c]] == multiset(s)[c]
  {
    if s != [] {
      ColorToFaceInjective();
      ConvertPreservesCounts(s[1..], c);
      var t := ConvertColorToKociemba(s[1..]).value;
      assert ConvertColorToKociemba(s).value == [ColorToFace[s[0]]] + t;
      assert s == [s[0]] + s[1..];
    }
  }

  // ---------------------------------------------------------------------
  // From parsed faces to the solver's input
  // ---------------------------------------------------------------------

  /** A face left as the parsers' "?" placeholder puts a '?' in the colour
      string, so the translation to the solver's notation fails. */
  lemma PlaceholderFaceRejected(faces: map<string, Grid>, k: nat)
    requires SixFaces(faces) && k < 6 && faces[FaceOrder[k]] == Placeholder
    ensures GenerateCubeString(faces).CubeOk?
    ensures ConvertColorToKociemba(GenerateCubeString(faces).colors) == None
  {
    CubeStringCentres(faces, k);
    assert faces[FaceOrder[k]][1][1][0] == '?';
    assert '?' !in ColorToFace;
  }

  /** Six faces of colour letters give a 54-letter string in the solver's notation. */
  lemma ColourFacesTranslate(faces: map<string, Grid>)
    requires SixFaces(faces)
    requires forall k, i, j :: 0 <= k < 6 && 0 <= i < 3 && 0 <= j < 3 ==> faces[FaceOrder[k]][i][j][0] in ColorToFace
    ensures GenerateCubeString(faces).CubeOk?
    ensures ConvertColorToKociemba(GenerateCubeString(faces).colors).Some?
    ensures |ConvertColorToKociemba(GenerateCubeString(faces).colors).value| == 54
  {
    CubeStringLayout(faces);
    var colors := GenerateCubeString(faces).colors;
    forall p | 0 <= p < 54 ensures colors[p] in ColorToFace {
      var k, i, j := p / 9, (p % 9) / 3, p % 3;
      assert p == 9 * k + 3 * i + j;
      CubeStringFacelet(faces, k, i, j);
    }
  }
}
