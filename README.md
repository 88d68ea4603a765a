# Rubik's cube face parsing and cube-string assembly

This project models the text-processing core of a Rubik's cube solver.
The solver photographs the six faces of a cube. A vision model reports each
face as text, and a parser turns that text into a 3x3 grid of colour
letters. Six such grids are corrected for the way each face was held in
front of the camera. They are then read into one 54-character colour string
in U, R, F, D, L, B order, and that string is translated into the face-letter
notation of the Kociemba solver.

The project has these modules, one file each:

- `Wrappers` (wrappers.dfy): the `Option` type that stands for Python's
  `None`.
- `PyStr` (pystr.dfy): the Python `str` operations the parsers rely on.
  These are `isspace`, `strip`, `splitlines`, `split()`, `split("\n")`,
  `startswith`, `endswith` and `list(s)`, together with their laws.
- `FaceGrid` (face_grid.dfy): a face as rows of string cells, the 3x3
  shape, and the all-`"?"` placeholder.
- `GridText` (grid_text.dfy): the textual forms a face may arrive in. These
  are spaced rows, unspaced rows and tab-separated rows, and a body wrapped
  in a Markdown code fence with an optional language tag.
- `FaceAutodetection` (face_autodetection.dfy): `parse_grid` of the
  Streamlit front end.
- `AiAnalysis` (ai_analysis.dfy): `parse_grid` of the Flask back end.
- `ParsersCompared` (parsers_compared.dfy): the two parsers side by side on
  the same inputs.
- `CubeString` (cube_string.dfy): the flips, `generate_cube_string` and
  `convert_color_to_kociemba`.

The modelled code is pure: the flips, `generate_cube_string` and
`convert_color_to_kociemba` (cube_string.py:7-52), and the two `parse_grid`
functions. The rest of those source files does webcam capture, user
interface and network calls, and is listed under "Left out". The model is
made of functions and lemmas. A Python dictionary of faces is a
`map<string, Grid>`. A `KeyError` becomes an error value. `None` becomes
`Option.None`.

## Model

| member | source | states |
|---|---|---|
| CubeString.Reverse | cube_string.py:9 | `[::-1]` keeps the length and puts element `n-1-i` at position `i` |
| CubeString.ReversePermutes | cube_string.py:9 | reversing a sequence keeps the multiset of its elements |
| CubeString.VerticalFlip | cube_string.py:7-9 | the row count is kept and row `i` of the result is row `n-1-i` of the input |
| CubeString.VerticalFlipInvolution | cube_string.py:7-9 | flipping vertically twice gives the original grid |
| CubeString.HorizontalFlip | cube_string.py:11-13 | the row count and every row length are kept, and cell `(i, j)` of the result is cell `(i, len-1-j)` of the input |
| CubeString.HorizontalFlipInvolution | cube_string.py:11-13 | flipping horizontally twice gives the original grid |
| CubeString.Corrected | cube_string.py:29-34 | the photographed grid after its face's correction: U and D flipped vertically, R, F, L and B horizontally (CorrectionFor, CorrectedCell and CorrectionInvolution state it) |
| CubeString.CorrectionFor | cube_string.py:29-34 | a face gets the vertical flip exactly when it is U or D; the other four faces get the horizontal flip |
| CubeString.CorrectedCell | cube_string.py:29-34 | cell `(i, j)` of a corrected 3x3 face is photographed cell `(2-i, j)` on U and D and cell `(i, 2-j)` on R, F, L and B |
| CubeString.CorrectionInvolution | cube_string.py:29-34 | applying a face's correction twice gives the photographed grid back |
| CubeString.VerticalFlipPermutes | cube_string.py:7-9 | the vertical flip keeps the multiset of characters of the flattened grid |
| CubeString.HorizontalFlipPermutes | cube_string.py:11-13 | the horizontal flip keeps the multiset of characters of the flattened grid |
| CubeString.ConcatReversePermutes | cube_string.py:13 | a reversed row joins to the same multiset of characters as the row |
| CubeString.CorrectionPermutes | cube_string.py:29-34 | each face's correction keeps the characters of the face |
| CubeString.CorrectionKeepsFace | cube_string.py:29-34 | a corrected 3x3 face of one-character cells is still one |
| CubeString.Concat | cube_string.py:37 | `"".join(row)`: the cells of a row one after another (ConcatAppend, ConcatThree and ConcatReversePermutes state it) |
| CubeString.Flatten | cube_string.py:36-38 | a grid's rows joined one after another, row by row (FlattenAppend and FlattenFace state it) |
| CubeString.FlattenFace | cube_string.py:36-39 | a 3x3 face of one-character cells joins to 9 characters, with cell `(i, j)` at `3i+j` |
| CubeString.FirstMissing | cube_string.py:29-34 | no label is reported exactly when every label of the order is present; a reported label is in the order and missing from the map |
| CubeString.FirstMissingAt | cube_string.py:29-34 | the reported label is the first missing one in lookup order |
| CubeString.GenerateCubeString | cube_string.py:15-40 | a string is produced exactly when all six labels U, R, F, D, L, B are present; otherwise the error names a label that is missing |
| CubeString.MissingFaceIsFirst | cube_string.py:29-34 | the `KeyError` names the first missing face in the lookup order U, R, F, D, L, B |
| CubeString.Assemble | cube_string.py:36-39 | the faces flattened one after another in the given order (AssembleBlocks and AssembleMultiset state it) |
| CubeString.AssembleBlocks | cube_string.py:36-39 | faces of nine characters each are joined into blocks of nine, with face `k` at `9k..9k+9` |
| CubeString.AssembleMultiset | cube_string.py:36-39 | the joined string holds exactly the characters of the faces |
| CubeString.CorrectedFaces | cube_string.py:28-37 | the six corrected faces read in U, R, F, D, L, B order; there are six of them (CorrectedFacesMultiset and CubeStringLayout state their contents) |
| CubeString.CorrectedFacesMultiset | cube_string.py:29-34 | the corrected faces hold the same characters as the photographed ones |
| CubeString.CubeStringPermutesCells | cube_string.py:29-39 | with all six faces present, every character occurs in the cube string exactly as often as in the six photographed faces together |
| CubeString.CubeStringLayout | cube_string.py:15-40 | six 3x3 faces of one-character cells give exactly 54 characters, with characters `9k..9k+9` the corrected face `k` read row by row |
| CubeString.FaceletOfCorrected | cube_string.py:29-39 | character `9k+3i+j` of the cube string is cell `(i, j)` of corrected face `k` |
| CubeString.CubeStringFacelet | cube_string.py:29-39 | character `9k+3i+j` comes from photographed cell `(2-i, j)` on U and D, and from cell `(i, 2-j)` on R, F, L and B |
| CubeString.CubeStringCentres | cube_string.py:29-39 | character `9k+4` is the photographed centre cell of face `k`: both corrections keep the centre |
| CubeString.ColorToFaceInjective | cube_string.py:48 | the colour table is one-to-one, and its values are exactly the six face letters |
| CubeString.ConvertColorToKociemba | cube_string.py:42-52 | the result is `None` exactly when some character is not one of W, R, G, Y, O, B; otherwise it has the same length, with each character replaced by its table entry |
| CubeString.ConvertInjective | cube_string.py:48-50 | two colour strings with the same successful translation are equal |
| CubeString.ConvertPreservesCounts | cube_string.py:48-50 | each face letter occurs in the translation exactly as often as its colour occurs in the input |
| CubeString.PlaceholderFaceRejected | cube_string.py:15-52 | a face left as the `"?"` placeholder still yields a cube string, but its translation is `None` |
| CubeString.ColourFacesTranslate | cube_string.py:15-52 | six faces of colour letters give a cube string whose translation succeeds and has 54 letters |
| FaceGrid.PlaceholderIsFace | all_face_autodetection.py:146 | the placeholder is a 3x3 grid of one-character cells, every one of them `"?"` |
| FaceAutodetection.DropOpening | all_face_autodetection.py:139-140 | the lines without a first one that starts with a fence (DropOpeningFront states that only the first line decides) |
| FaceAutodetection.DropClosing | all_face_autodetection.py:141-142 | the lines without a last one that starts with a fence (DropClosingBack states that only the last line decides) |
| FaceAutodetection.FenceFreeLines | all_face_autodetection.py:138-142 | the stripped text's lines without a first and a last line that start with a fence (NoFenceLines, DropsBothFences and DropsOpeningFence state it) |
| FaceAutodetection.Rows | all_face_autodetection.py:143 | those lines stripped, blank ones dropped (RowsWithoutFence, FencedRows and BlankLineRows state it) |
| FaceAutodetection.RowCells | all_face_autodetection.py:144 | a row with a space split on whitespace, otherwise one cell per character (SpacedRowSameCells and TabbedGridGivesPlaceholder state it) |
| FaceAutodetection.CellsAt | all_face_autodetection.py:144 | cell list `i` is row `i` split as a spaced row or into characters |
| FaceAutodetection.Cells | all_face_autodetection.py:144 | there is one cell list per row |
| FaceAutodetection.ParseGrid | all_face_autodetection.py:137-146 | the result is always 3x3; it is the split rows when they form three rows of three cells, and the placeholder otherwise |
| FaceAutodetection.SameRowsSameGrid | all_face_autodetection.py:143-146 | two texts with the same rows parse to the same grid |
| FaceAutodetection.BlankTextGivesPlaceholder | all_face_autodetection.py:138-146 | empty or whitespace-only text gives the placeholder |
| FaceAutodetection.NoFenceLines | all_face_autodetection.py:138-142 | text without backticks loses no line to fence removal |
| FaceAutodetection.RowsWithoutFence | all_face_autodetection.py:138-143 | for text without backticks, the rows are its non-blank lines, stripped |
| FaceAutodetection.FencedParsesAsBody | all_face_autodetection.py:138-146 | a backtick-free body wrapped in fence lines, with an optional single-line language tag on the opening fence, parses to the same grid as the body alone |
| FaceAutodetection.FencedRows | all_face_autodetection.py:138-143 | a backtick-free body wrapped in fence lines, with an optional single-line language tag, has the same rows as the body |
| FaceAutodetection.FencedLines | all_face_autodetection.py:138 | the lines of a fenced text are the opening fence line, the lines of the body followed by a newline (one extra empty line when the body is empty or ends in a newline), then the closing fence |
| FaceAutodetection.DropsBothFences | all_face_autodetection.py:139-142 | when the first line starts with a fence and the last line is a fence, exactly the lines between them remain |
| FaceAutodetection.DropsOpeningFence | all_face_autodetection.py:139-142 | an opening fence line is dropped even when the last line is not a fence |
| FaceAutodetection.BlankLineIgnored | all_face_autodetection.py:143-146 | inserting a whitespace-only line anywhere, fenced text included, does not change the grid |
| FaceAutodetection.BlankLineRows | all_face_autodetection.py:143 | inserting a whitespace-only line anywhere, fenced text included, does not change the rows: an outer blank part is stripped away, and otherwise the first and last lines, and so the fence lines dropped, stay the same |
| FaceAutodetection.SameStripSameRows | all_face_autodetection.py:138-143 | texts that strip to the same string have the same rows |
| FaceAutodetection.StrippedInside | all_face_autodetection.py:138 | between two parts that are not all whitespace, the outer strip keeps an inserted line and trims only the outside of the first and last parts |
| FaceAutodetection.StripAround | all_face_autodetection.py:138 | text between two non-blank parts survives the outer strip whole |
| FaceAutodetection.MiddleLinesDropped | all_face_autodetection.py:139-143 | lines with no non-blank content inserted between a non-empty first and last group of lines leave the rows unchanged |
| FaceAutodetection.DropOpeningFront | all_face_autodetection.py:139-140 | whether the opening fence is dropped depends on the first line only |
| FaceAutodetection.DropClosingBack | all_face_autodetection.py:141-142 | whether the closing fence is dropped depends on the last line only |
| FaceAutodetection.SpacedRowSameCells | all_face_autodetection.py:144 | an unspaced row such as `"WRG"` and the same letters spaced out give the same cells, one per character |
| FaceAutodetection.GridFromRows | all_face_autodetection.py:144-146 | three rows whose cells form a 3x3 grid parse to that grid |
| FaceAutodetection.ThreeLineRows | all_face_autodetection.py:138-143 | three stripped, non-blank, backtick-free single-line rows joined by newlines come back as the rows |
| FaceAutodetection.SpacedGridRoundTrip | all_face_autodetection.py:144-146 | any 3x3 grid of backtick-free tokens written with spaced cells parses back to itself, with no check against the colour letters |
| FaceAutodetection.CompactGridRoundTrip | all_face_autodetection.py:144-146 | a grid written as three unspaced lines of single characters, none of them whitespace or a backtick, parses back to itself |
| FaceAutodetection.CompactAndSpacedAgree | all_face_autodetection.py:144 | unspaced and spaced renderings of a grid of letters parse to the same grid, the grid itself |
| FaceAutodetection.UnclosedFenceParses | all_face_autodetection.py:139-142 | an opening fence with no closing one is dropped, and the grid still parses |
| FaceAutodetection.UnclosedFenceLines | all_face_autodetection.py:138 | an opening fence line followed by three rows splits into the fence and the rows |
| FaceAutodetection.BadRowGivesPlaceholder | all_face_autodetection.py:146 | any row that does not split into three cells makes the result the placeholder |
| FaceAutodetection.TabbedGridGivesPlaceholder | all_face_autodetection.py:144-146 | a row with tabs but no space is split into characters, tabs included, so a tab-separated grid gives the placeholder |
| AiAnalysis.Middle | ai_analysis.py:38 | `s[3:-3]` with Python's slice rules, empty below six characters (UnfencedWhole states its use) |
| AiAnalysis.Unfenced | ai_analysis.py:37-38 | the text without a surrounding fence, stripped, only when it both starts and ends with one (NotFencedKept and UnfencedWhole state it) |
| AiAnalysis.Lines | ai_analysis.py:41 | the unfenced text stripped, split on `"\n"`, each piece stripped and blank ones dropped (ThreeLines, HeadedSplit and TaggedLines state it) |
| AiAnalysis.Tokenize | ai_analysis.py:44 | there is one token list per line |
| AiAnalysis.TokenizeAt | ai_analysis.py:44 | token list `i` is line `i` split on whitespace |
| AiAnalysis.TokenizeToGrid | ai_analysis.py:44 | lines whose tokens are the rows of a 3x3 grid tokenize to that grid |
| AiAnalysis.ParseGrid | ai_analysis.py:29-51 | the result is always 3x3; it is the tokenised lines when they form three rows of three tokens, and the placeholder otherwise |
| AiAnalysis.NeverEmpty | ai_analysis.py:79-81 | the result and each of its rows are non-empty, so the caller's `if not grid` never fires |
| AiAnalysis.CellsAreTokens | ai_analysis.py:44-51 | every cell of the result is a non-empty string without whitespace |
| AiAnalysis.SameLinesSameGrid | ai_analysis.py:44-51 | two texts with the same lines parse to the same grid |
| AiAnalysis.SameStrippedSameGrid | ai_analysis.py:37-51 | two texts that agree once unfenced and stripped parse to the same grid |
| AiAnalysis.NotFencedKept | ai_analysis.py:37-38 | text that does not both start and end with a fence is kept as it is, surrounding whitespace included |
| AiAnalysis.UnfencedWhole | ai_analysis.py:37-38 | text fenced on both ends loses both fences, and the inside is stripped |
| AiAnalysis.FencedParsesAsBody | ai_analysis.py:37-51 | a fence around the whole text is removed, so the text parses like its inside, when the inside is not itself fenced at both ends |
| AiAnalysis.GridFromLines | ai_analysis.py:44-51 | three lines whose tokens form a 3x3 grid parse to that grid |
| AiAnalysis.BadLineGivesPlaceholder | ai_analysis.py:47-49 | any line that is not exactly three tokens makes the result the placeholder |
| AiAnalysis.LineCountGivesPlaceholder | ai_analysis.py:47-49 | a text whose non-blank lines are not three in number gives the placeholder |
| AiAnalysis.BlankTextGivesPlaceholder | ai_analysis.py:37-49 | empty or whitespace-only text gives the placeholder |
| AiAnalysis.NoLinesGivesPlaceholder | ai_analysis.py:41-49 | text with no non-blank line gives the placeholder |
| AiAnalysis.ThreeLines | ai_analysis.py:37-41 | three stripped, non-blank single-line rows without backticks, joined by newlines, come back as the lines |
| AiAnalysis.SpacedGridRoundTrip | ai_analysis.py:44-51 | any 3x3 grid of backtick-free tokens written with spaced cells parses back to itself, with no check against the colour letters |
| AiAnalysis.CompactGridGivesPlaceholder | ai_analysis.py:44-49 | a grid written as unspaced lines such as `"WRG"` gives one token per line, and so the placeholder |
| AiAnalysis.FencedGridParses | ai_analysis.py:37-51 | a fence on lines of its own around a spaced grid is removed, and the grid parses |
| AiAnalysis.FencedLinesParse | ai_analysis.py:37-51 | fence lines around stripped, backtick-free text do not change its grid |
| AiAnalysis.HeadedSplit | ai_analysis.py:41 | a stripped line in front of three stripped lines is kept as a fourth line |
| AiAnalysis.TaggedFenceGivesPlaceholder | ai_analysis.py:37-49 | a language tag after the opening fence survives as a fourth line, so a tagged fenced grid gives the placeholder |
| AiAnalysis.UnclosedFenceGivesPlaceholder | ai_analysis.py:37-49 | an opening fence with no closing one is kept as a fourth line, so the grid gives the placeholder |
| AiAnalysis.TabbedGridParses | ai_analysis.py:44-51 | cells separated by tabs are split like cells separated by spaces |
| ParsersCompared.AgreeOnSpacedGrid | all_face_autodetection.py:137-146 | both parsers return any spaced 3x3 grid of backtick-free tokens unchanged |
| ParsersCompared.AgreeOnFencedGrid | ai_analysis.py:29-51 | both parsers return such a grid unchanged when it is fenced on lines of its own |
| ParsersCompared.DisagreeOnCompactGrid | ai_analysis.py:44-49 | unspaced rows: the Streamlit parser gives the grid, the Flask parser the placeholder |
| ParsersCompared.DisagreeOnTaggedFence | ai_analysis.py:37-49 | a tagged fence: the Streamlit parser gives the grid, the Flask parser the placeholder |
| ParsersCompared.DisagreeOnUnclosedFence | all_face_autodetection.py:139-142 | an unclosed fence: the Streamlit parser gives the grid, the Flask parser the placeholder |
| ParsersCompared.DisagreeOnTabbedGrid | all_face_autodetection.py:144 | tab-separated rows: the Streamlit parser gives the placeholder, the Flask parser the grid |
| PyStr.IsSpace | all_face_autodetection.py:143 | Python's `str.isspace` on one character: the ASCII whitespace controls, the space and the Unicode separators (LineBreakIsSpace relates it to line breaks) |
| PyStr.IsLineBreak | all_face_autodetection.py:138 | the characters at which `splitlines` ends a line (SplitLinesJoin and SplitLinesSingle state its role) |
| PyStr.StartsWith | all_face_autodetection.py:139-141 | `str.startswith`: the string begins with the prefix (NoBacktickNoFence states it for backtick-free lines) |
| PyStr.EndsWith | ai_analysis.py:37 | `str.endswith`: the string ends with the suffix (NotFencedKept and UnfencedWhole state its role) |
| PyStr.Chars | all_face_autodetection.py:144 | `list(s)`: one single-character cell per character (SplitSpacedChars and SpacedRowSameCells state it) |
| PyStr.StripLeft | all_face_autodetection.py:143 | the result is no longer than the input and does not start with whitespace |
| PyStr.StripRight | all_face_autodetection.py:143 | the result is no longer than the input and does not end with whitespace |
| PyStr.StripLeftSpec | all_face_autodetection.py:143 | the left-stripped string is a suffix of the input, and what was removed is all whitespace |
| PyStr.StripRightSpec | all_face_autodetection.py:143 | the right-stripped string is a prefix of the input, and what was removed is all whitespace |
| PyStr.Strip | all_face_autodetection.py:143 | the stripped string is no longer than the input and neither starts nor ends with whitespace |
| PyStr.StripSplit | all_face_autodetection.py:143 | the input is whitespace, then the stripped string, then whitespace |
| PyStr.StripUnique | all_face_autodetection.py:143 | a trimmed string between two runs of whitespace strips to itself |
| PyStr.StripIdempotent | all_face_autodetection.py:143 | stripping twice is the same as stripping once |
| PyStr.StripEmptyIff | all_face_autodetection.py:143 | a string strips to empty exactly when it is all whitespace |
| PyStr.StripLeftParts | all_face_autodetection.py:138 | text that is not all whitespace is its leading whitespace followed by a non-empty left-stripped part |
| PyStr.StripRightParts | all_face_autodetection.py:138 | text that is not all whitespace is a non-empty right-stripped part followed by its trailing whitespace |
| PyStr.StripSpacePrefix | all_face_autodetection.py:138 | leading whitespace does not change the stripped string |
| PyStr.StripSpaceSuffix | all_face_autodetection.py:138 | trailing whitespace does not change the stripped string |
| PyStr.StripKeepsOut | all_face_autodetection.py:143 | a character absent from the input is absent from the stripped string |
| PyStr.SplitNewline | ai_analysis.py:41 | `split("\n")` gives at least one piece; SplitNewlinePieces, JoinSplitNewline and SplitJoinNewline state the rest |
| PyStr.SplitNewlinePieces | ai_analysis.py:41 | no piece of `split("\n")` contains a newline |
| PyStr.JoinSplitNewline | ai_analysis.py:41 | joining the pieces of `split("\n")` with newlines gives the input back |
| PyStr.SplitJoinNewline | ai_analysis.py:41 | splitting newline-free lines joined by newlines gives the lines back |
| PyStr.SplitNewlineConcat | ai_analysis.py:41 | splitting `a + "\n" + b` gives the pieces of `a` followed by the pieces of `b` |
| PyStr.SplitWs | ai_analysis.py:44 | `split()` with no argument (SplitWsTokens, SplitWsEmptyIff and SplitJoinSpace state it) |
| PyStr.SplitWsTokens | ai_analysis.py:44 | `split()` yields only non-empty tokens without whitespace |
| PyStr.SplitWsEmptyIff | ai_analysis.py:44 | `split()` yields nothing exactly when the input is all whitespace |
| PyStr.SplitJoinSpace | ai_analysis.py:44 | tokens joined by single spaces split back into the same tokens |
| PyStr.SplitSpacedChars | all_face_autodetection.py:144 | the characters of a whitespace-free string, spaced out, split back into those characters |
| PyStr.SplitLines | all_face_autodetection.py:138 | `splitlines()` gives no line exactly when the text is empty; SplitLinesJoin, SplitLinesAfterNewline and SplitLinesChars state the rest |
| PyStr.SplitLinesJoin | all_face_autodetection.py:138 | lines free of line breaks, the last non-empty, joined by newlines come back from `splitlines` |
| PyStr.SplitLinesChars | all_face_autodetection.py:138 | `splitlines` brings in no character that the input lacks |
| PyStr.SplitLinesAfterNewline | all_face_autodetection.py:138 | the lines of `x + "\n" + y` are the lines of `x + "\n"` followed by the lines of `y`: a newline always ends a line |
| PyStr.StrippedNonBlank | all_face_autodetection.py:143 | the comprehension keeps at most as many lines as it is given; StrippedNonBlankLines, StrippedNonBlankKeeps and StrippedNonBlankAppend state the rest |
| PyStr.StrippedNonBlankLines | all_face_autodetection.py:143 | every kept line is non-empty and stripped |
| PyStr.StrippedNonBlankKeeps | all_face_autodetection.py:143 | lines that are already non-empty and stripped are all kept, unchanged |
| PyStr.StrippedNonBlankIdempotent | all_face_autodetection.py:143 | applying the comprehension twice is the same as applying it once |
| PyStr.StrippedNonBlankAppend | all_face_autodetection.py:143 | the comprehension over two lists of lines is the concatenation of its results |

## Left out

- `solve_cube` (cube_string.py:54-63) is not part of this model. It only forwards the string to the external Kociemba solver, whose behaviour cannot be seen here.
- `capture_six_faces` (all_face_autodetection.py:20-134) is not modelled. It is webcam capture, OpenCV drawing, timing and floating-point geometry.
- The Streamlit user interface (all_face_autodetection.py:149-297) is not modelled. This covers its session state and the manual-correction form.
- The Flask routes and `analyze_rubiks_faces` in ai_analysis.py are not modelled. They are HTTP handlers, image decoding and calls to the vision model over the network. The classifier's answer is a parameter of the parsers instead.
- Markdown-to-HTML rendering and the loading of `.env` settings are not modelled. They are foreign libraries and configuration.
- The `print` diagnostics inside the parsers are not modelled. They produce output only.
- The Python placeholder `[["?"]*3]*3` holds one row object three times. Grids here are values, so this aliasing is not represented.
- Python's `KeyError` in `generate_cube_string` is represented as `CubeErr(MissingFace(label))`. The label is the first one missing in the order U, R, F, D, L, B, which is the order in which the source looks the faces up.
- FaceAutodetection.ParseGrid: the placeholder is stated as two implications, not as an if-and-only-if. A text whose rows are themselves `? ? ?` also gives the placeholder.
- AiAnalysis.ParseGrid: the placeholder is stated as two implications, for the same reason as above.
- CubeString.CubeStringLayout: the length 54 and the block layout are stated only for faces whose cells are single characters. For longer cells the string is still the joined cells, and CubeString.CubeStringPermutesCells still holds.
- Whitespace is Python's `str.isspace` set, and line breaks are the `splitlines` set, both over single code points. Unicode normalisation and case folding are not modelled.
