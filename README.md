# Word-search puzzle engine, modelled in Dafny

This project models the core of a word-search puzzle generator written in
TypeScript, and proves properties of that model.

`generatePuzzle` takes a grid size, a word list, the allowed directions and a
flag that allows backwards words. It then:

- builds a square grid of empty cells;
- normalises the words (trim, upper-case, keep the words made of 2 to 15
  letters A–Z);
- sorts the words longest first;
- gives each word up to 100 random candidate placements;
- accepts the first candidate whose every cell is on the grid and is empty
  or already holds the same letter;
- writes the word's letters in place, appending the word's index to each
  cell it covers;
- fills every untouched cell with a random letter A–Z.

Beside the engine, the project models these smaller helpers:

- the CSV reader that turns `Title:`-delimited blocks into puzzles;
- the longest-word and grid-size helpers;
- the clamps and checks applied to a configuration;
- the `#RRGGBB` colour decoder;
- the end points of the line that highlights a word in the PDF.

Layout, one module per source file plus shared modules:

- `wrappers.dfy` holds `Option` and `Result`.
- `text.dfy` holds the JavaScript string operations the core uses.
- `types.dfy` holds the records.
- `length_sort.dfy` holds the stable sort by length.

Modelling choices:

- **Grid.** The grid is an `array2<Cell>` indexed `[y, x]`. `placeWord` and
  `fillEmptySpaces` update it in place, as the source does.
- **Randomness.** Each `Math.random()` draw is an arbitrary real in [0, 1),
  picked with `:|`.
  - `getRandomPosition` receives its two draws as parameters.
  - `getRandomDirection` is imported by the generator from
    `src/utils/puzzle/placement.ts`, which does not define it. It is modelled
    as an arbitrary choice of a listed direction, backwards only when
    backwards words are allowed.
- **Errors.** Thrown errors are `Failure` values of a `Result`.
- **Generator state.** The generator's `for` and `while` loops are methods
  with loop invariants. Their contracts state what the grid reads along every
  recorded placement (`WordAt`, `AllRecorded`) and that the final grid is full
  (`Finished`).

Three behaviours of the code a reader might not expect, modelled as
written:

- **Backwards words.** A backwards word is written reversed AND walked with
  the negated step, so the two reversals cancel. Read from its far end, the
  grid spells the word forwards (`WordPlacement.BackwardsReadsForwards`).
  Read from the recorded start along the forwards vector, it does not.
- **Backwards starts.** A backwards start is not random on the word's axis.
  `getRandomPosition` pins that coordinate to
  `max(wordLength - 1, gridSize - 1)`.
- **Order of checks.** `generatePuzzle` builds the grid before it looks at
  the words. So an invalid size fails with the wrapped `RangeError`, even
  when the word list is empty.

## Model

| member | source | states |
|---|---|---|
| `Directions.GetDirectionVector` | src/utils/puzzle/direction.ts:9-23 | every vector has components in {-1, 0, 1} and is never (0, 0); horizontal is (±1, 0), vertical (0, ±1), diagonal (s, s); the sign is negative exactly when backwards |
| `Directions.BackwardsNegates` | src/utils/puzzle/direction.ts:10-19 | for every direction the backwards vector is the forwards vector negated component by component |
| `Directions.VectorInjective` | src/utils/puzzle/direction.ts:10-19 | two (direction, backwards) pairs with the same vector are the same pair |
| `Placement.Max` | src/utils/puzzle/placement.ts:56 | `Math.max`: an upper bound of both arguments that is one of them |
| `Placement.Min` | src/utils/puzzle/placement.ts:56 | `Math.min`: a lower bound of both arguments that is one of them |
| `Placement.RandomBelow` | src/utils/puzzle/placement.ts:19-22 | `Math.floor(Math.random() * k)` lies in [0, k) for positive k, and in [k, 0] otherwise |
| `Placement.GetRandomPosition` | src/utils/puzzle/placement.ts:3-69 | a backwards start has its word-axis coordinates equal to `max(wordLength - 1, gridSize - 1)`; a forwards start that fits lies in [0, gridSize - wordLength] on the word's axes; the coordinate across a horizontal or vertical word's axis is on the grid |
| `Placement.BackwardsDiagonalIsFixed` | src/utils/puzzle/placement.ts:38-41 | a backwards diagonal start ignores both draws and is the single point (m, m), with m = `max(wordLength - 1, gridSize - 1)` |
| `Placement.CandidateInBounds` | src/utils/puzzle/placement.ts:12-66 | for a word no longer than the grid, every cell of every candidate, walked with the direction vector, is on the grid |
| `Placement.GetRandomDirection` | src/utils/puzzleGenerator.ts:34 | the choice is one of the listed directions, backwards only when allowed; there is no choice exactly when the list is empty |
| `WordPlacement.GetWordPosition` | src/utils/puzzle/wordPlacement.ts:4-12 | no contract of its own; characterised by `WordCellStep` (the walk starts at the start cell and moves one direction vector per letter) and `PathIndexOfCell` |
| `WordPlacement.WordCellStep` | src/utils/puzzle/wordPlacement.ts:4-12 | a walk starts at its start coordinate, and each further cell is one step of the direction vector past the previous one |
| `WordPlacement.Reverse` | src/utils/puzzle/wordPlacement.ts:23 | reversing keeps the length |
| `WordPlacement.LettersAt` | src/utils/puzzle/wordPlacement.ts:23 | the `i`-th letter written is `word[i]` forwards and `word[n-1-i]` backwards |
| `WordPlacement.CanPlaceWord` | src/utils/puzzle/wordPlacement.ts:14-36 | no contract of its own; characterised by `CanPlaceWordIff`, `CanPlaceInGrid`, `LongWordNeverFits` and `EmptyGridAccepts` |
| `WordPlacement.CanPlaceWordIff` | src/utils/puzzle/wordPlacement.ts:14-36 | `canPlaceWord` holds exactly when every visited cell is on the grid and is empty or holds the upper-cased letter destined for it |
| `WordPlacement.CanPlaceInGrid` | src/utils/puzzle/wordPlacement.ts:29-31 | an accepted placement keeps every cell on the grid |
| `WordPlacement.LongWordNeverFits` | src/utils/puzzle/wordPlacement.ts:25-31 | a word longer than the grid side is rejected for every start, direction and orientation |
| `WordPlacement.EmptyGridAccepts` | src/utils/puzzle/wordPlacement.ts:33-34 | on a grid with no letters, a placement whose cells are all on the grid is accepted |
| `WordPlacement.PathIndexOfCell` | src/utils/puzzle/wordPlacement.ts:54-55 | the cells of a walk are pairwise distinct: the `i`-th cell is reached at step `i` only |
| `WordPlacement.WriteLetters` | src/utils/puzzle/wordPlacement.ts:54-64 | the `i`-th visited cell is replaced by the upper-cased `i`-th letter, `isPartOfWord`, its own position and the old indices plus `wordIndex`; every cell off the path is unchanged |
| `WordPlacement.AfterStepsAt` | src/utils/puzzle/wordPlacement.ts:54-64 | after the first `n` letters are written, the `i`-th cell (i < n) holds the `i`-th letter |
| `WordPlacement.PlaceWord` | src/utils/puzzle/wordPlacement.ts:38-65 | it fails with the "cannot place" error and leaves the grid untouched exactly when `canPlaceWord` is false; otherwise it rewrites the path cells as above and nothing else; after it the same placement is still accepted, the grid reads the word along it, written letters and index lists only grow, and cell positions and capital letters are kept |
| `WordPlacement.BackwardsReadsForwards` | src/utils/puzzle/wordPlacement.ts:52-59 | a backwards word, read forwards from the cell `n-1` steps from its start, spells the word in its natural order |
| `Grid.EmptyCell` | src/utils/puzzle/grid.ts:6-10 | the initial cell: no letter, not part of a word, its own coordinate, no word indices |
| `Grid.InitializeGrid` | src/utils/puzzle/grid.ts:3-13 | a fresh `size` × `size` grid whose cell `[y, x]` is the empty cell at (x, y); a negative or over-large size fails as `Array(size)` does |
| `Grid.RandomLetter` | src/utils/puzzle/grid.ts:16-21 | the drawn letter is one of A–Z |
| `Grid.FillEmptySpaces` | src/utils/puzzle/grid.ts:15-25 | every previously empty cell gets one capital letter and keeps its other fields; every other cell is unchanged; afterwards no cell is empty; on a full grid nothing changes |
| `Grid.FillRow` | src/utils/puzzle/grid.ts:19-23 | one row is filled and no other row changes |
| `WordValidation.Normalize` | src/utils/puzzle/wordValidation.ts:7 | no contract of its own; characterised by `NormalizeAcceptable` and `ValidateIdempotent` |
| `WordValidation.IsAcceptable` | src/utils/puzzle/wordValidation.ts:8-19 | no contract of its own; characterised by `KeepAcceptable`, `ValidateMembership` and `RejectsDigits` |
| `WordValidation.KeepAcceptable` | src/utils/puzzle/wordValidation.ts:8-19 | the filter keeps only acceptable words and never lengthens the list |
| `WordValidation.ValidatePuzzleWords` | src/utils/puzzle/wordValidation.ts:1-20 | every output word is 2 to 15 letters A–Z; the output is no longer than the input |
| `WordValidation.ValidateConcat` | src/utils/puzzle/wordValidation.ts:6-19 | the normaliser works word by word: the result on `a + b` is the result on `a` followed by the result on `b`, so input order is kept |
| `WordValidation.ValidateOne` | src/utils/puzzle/wordValidation.ts:7-18 | one word is kept, trimmed and upper-cased, exactly when its normal form passes the three tests |
| `WordValidation.ValidateMembership` | src/utils/puzzle/wordValidation.ts:6-19 | a word is in the output exactly when it is acceptable and the normal form of some input word |
| `WordValidation.NormalizeAcceptable` | src/utils/puzzle/wordValidation.ts:7 | an acceptable word is its own normal form |
| `WordValidation.ValidateIdempotent` | src/utils/puzzle/wordValidation.ts:6-19 | normalising an already normalised list returns it unchanged |
| `WordValidation.AcceptableListFixed` | src/utils/puzzle/wordValidation.ts:6-19 | a list of acceptable words is returned unchanged |
| `WordValidation.RejectsDigits` | src/utils/puzzle/wordValidation.ts:13 | "abc123" is dropped, so the list of it alone normalises to nothing |
| `WordValidation.KeepsDuplicates` | src/utils/puzzle/wordValidation.ts:6-19 | "cat" and " CAT" both survive, as "CAT" twice: duplicates are not removed |
| `LengthSort.InsertByLength` | src/utils/puzzleGenerator.ts:23 | one insertion step adds exactly the inserted word to the multiset |
| `LengthSort.SortByLength` | src/utils/puzzleGenerator.ts:23 | the sorted list is a permutation of the input |
| `LengthSort.SortDescending` | src/utils/puzzleGenerator.ts:23 | the sorted list is longest first |
| `LengthSort.SortStable` | src/utils/puzzleGenerator.ts:23 | words of the same length keep their input order, like the stable `Array.prototype.sort` |
| `LengthSort.SortedHeadIsLongest` | src/utils/puzzleGenerator.ts:23 | the first sorted word is at least as long as every input word |
| `LengthSort.SortedFromInput` | src/utils/puzzleGenerator.ts:23 | every sorted word is an input word |
| `LengthSort.SortedSingleton` | src/utils/puzzleGenerator.ts:23 | a single word is its own sorted list |
| `PuzzleGenerator.TryPlaceWord` | src/utils/puzzleGenerator.ts:29-55 | at most 100 candidates are drawn; on success the record is the word with its index, an allowed direction and orientation, and the grid reads the word there; on failure the grid is untouched and the error is "could not place after 100"; no directions fails with the wrapped error; a word longer than the grid always fails; on an empty grid a word that fits is placed at the first candidate |
| `PuzzleGenerator.PlaceNext` | src/utils/puzzleGenerator.ts:28-55 | one turn of the words loop: the next word is placed and recorded under the next index, and every earlier placement is still readable |
| `PuzzleGenerator.PlaceWords` | src/utils/puzzleGenerator.ts:24-56 | on success there is exactly one record per word, in order, each readable from the grid; the first word that cannot be placed ends the loop with its error and no partial result |
| `PuzzleGenerator.FillRest` | src/utils/puzzleGenerator.ts:58 | after the fill every cell holds a capital letter and its own coordinate, and every placed word still reads where it was recorded |
| `PuzzleGenerator.PlaceAndFill` | src/utils/puzzleGenerator.ts:24-59 | on success the puzzle holds the grid and one record per word, all readable, on a full grid |
| `PuzzleGenerator.PlaceSorted` | src/utils/puzzleGenerator.ts:23-59 | the words are placed in the sorted order; a failing word is one of the valid words; a word longer than the grid makes the longest word fail first; a single word that fits is placed at the first candidate |
| `PuzzleGenerator.PlaceOnGrid` | src/utils/puzzleGenerator.ts:17-59 | an empty normalised list fails with "no valid words"; otherwise the sorted normalised words are placed and the rest of the grid is filled |
| `PuzzleGenerator.GeneratePuzzle` | src/utils/puzzleGenerator.ts:8-66 | a size `Array` rejects fails first, wrapped; then an empty normalised list fails; an empty direction list fails, wrapped, exactly when there are valid words; each word draws 1 to 100 candidates; on success the grid is fresh and `gridSize` square, there is one record per valid word in the sorted order with its index, each readable from the grid, and every cell holds a capital letter |
| `PuzzleValidation.ValidateDirection` | src/utils/puzzle/validation.ts:3-5 | no contract of its own; characterised by `ValidateDirectionIff` |
| `PuzzleValidation.ValidateDirectionIff` | src/utils/puzzle/validation.ts:3-5 | the accepted tags are the three direction names and "backwards", and nothing else |
| `PuzzleValidation.ValidateWordPlacement` | src/utils/puzzle/validation.ts:7-29 | no contract of its own; characterised by `GuardRejects`, `HorizontalIff`, `VerticalDiagonalIgnoreBackwards`, `UnknownTagRejects` and the witnesses `AcceptsOffGridColumn` and `AcceptsBackwardsDiagonalOffGrid` |
| `PuzzleValidation.ValidateWordPlacementForwards` | src/utils/puzzle/validation.ts:13-29 | with `isBackwards` left to its default `false`, an accepted placement passed the guard; horizontal is accepted iff the word fits to the right of `x`, `"backwards"` iff it fits to the left |
| `PuzzleValidation.GuardRejects` | src/utils/puzzle/validation.ts:15 | a negative coordinate or a row at or past the grid size is rejected for every word and tag |
| `PuzzleValidation.HorizontalIff` | src/utils/puzzle/validation.ts:19 | past the guard, horizontal is accepted exactly when `x + len <= gridSize` forwards, or `x >= len - 1` backwards |
| `PuzzleValidation.VerticalDiagonalIgnoreBackwards` | src/utils/puzzle/validation.ts:20-23 | vertical and diagonal ignore the backwards flag; vertical needs `y + len <= gridSize`, diagonal needs that for both coordinates |
| `PuzzleValidation.UnknownTagRejects` | src/utils/puzzle/validation.ts:26-27 | an unknown tag is rejected |
| `PuzzleValidation.AcceptsOffGridColumn` | src/utils/puzzle/validation.ts:15-21 | a vertical word in column 50 of a 10-cell grid is accepted although its first cell is off the grid |
| `PuzzleValidation.AcceptsBackwardsDiagonalOffGrid` | src/utils/puzzle/validation.ts:22-23 | a backwards diagonal from (0, 0) is accepted although its second cell is off the grid |
| `PuzzleValidation.FitsOnGridIff` | src/utils/puzzle/validation.ts:7-29 | the corrected check holds exactly when every cell the word covers, along the engine's direction vector, is on the grid |
| `PuzzleValidation.ValidatePuzzleWords` | src/utils/puzzle/validation.ts:31-50 | the output is no longer than the input |
| `PuzzleValidation.SameAsWordValidation` | src/utils/puzzle/validation.ts:31-50 | this copy returns what the generator's normaliser returns, for every input |
| `CsvParser.NonBlank` | src/utils/csvParser.ts:4 | no kept line is empty |
| `CsvParser.NonBlankFrom` | src/utils/csvParser.ts:4 | every kept line comes from the input |
| `CsvParser.NonBlankConcat` | src/utils/csvParser.ts:4 | `filter(Boolean)` works line by line: the lines kept from `a + b` are those kept from `a` followed by those kept from `b`, so order is kept |
| `CsvParser.NonBlankOne` | src/utils/csvParser.ts:4 | a single line is kept exactly when it is not empty |
| `CsvParser.NonBlankMembership` | src/utils/csvParser.ts:4 | a line is kept exactly when it is a non-empty line of the input |
| `CsvParser.KeptLines` | src/utils/csvParser.ts:4 | no contract of its own; characterised by `KeptLinesMembership`, `KeptLinesOfJoin` and `KeptLinesAreTrimmed` |
| `CsvParser.KeptLinesMembership` | src/utils/csvParser.ts:4 | a line is kept exactly when it is non-empty and the trimmed form of some `\n`-separated piece of the content |
| `CsvParser.KeptLinesOfJoin` | src/utils/csvParser.ts:4 | content made of lines joined by `\n` yields exactly those lines, trimmed, with the empty ones dropped, in order |
| `CsvParser.KeptLinesAreTrimmed` | src/utils/csvParser.ts:4 | every kept line is non-empty and already trimmed |
| `CsvParser.TitleIsRest` | src/utils/csvParser.ts:14 | on a title line the title is the text after `Title:`, trimmed |
| `CsvParser.Fields` | src/utils/csvParser.ts:17 | one trimmed field per comma-separated piece, in order; empty fields are kept |
| `CsvParser.ExpectedTitles` | src/utils/csvParser.ts:9-16 | there is one puzzle per title line, in order, titled by that line |
| `CsvParser.PreambleIgnored` | src/utils/csvParser.ts:16-18 | lines before the first title line contribute nothing |
| `CsvParser.ExpectedWords` | src/utils/csvParser.ts:8-20 | the puzzle opened by a title line holds exactly the fields of the lines up to the next title line |
| `CsvParser.TitlesSnoc` | src/utils/csvParser.ts:9 | one more line adds itself to the title lines exactly when it is one |
| `CsvParser.BodySnoc` | src/utils/csvParser.ts:17-18 | one more non-title line adds its fields to the lines before the first title only while there is no title |
| `CsvParser.SnocTitle` | src/utils/csvParser.ts:9-16 | one more title line closes the open puzzle and opens a new, empty one |
| `CsvParser.SnocPreamble` | src/utils/csvParser.ts:16 | one more non-title line before any title is ignored |
| `CsvParser.SnocBody` | src/utils/csvParser.ts:16-18 | one more non-title line after a title adds its fields to the last puzzle |
| `CsvParser.SnocBodyAfterTitle` | src/utils/csvParser.ts:16-18 | the same, when the first line is a title line |
| `CsvParser.ParseLine` | src/utils/csvParser.ts:8-20 | one step of the `forEach` keeps the finished puzzles and the open one equal to what the lines read so far mean |
| `CsvParser.ParseCsv` | src/utils/csvParser.ts:3-27 | the result is one puzzle per title line, in order, with the title and the fields of the lines up to the next title |
| `CsvParser.ParsedAll` | src/utils/csvParser.ts:21-24 | pushing the open puzzle at the end gives what all the lines mean |
| `WordUtils.FindLongestWordLength` | src/utils/wordUtils.ts:1-3 | 0 for an empty list; otherwise the trimmed length of some word, and at least the trimmed length of every word |
| `WordUtils.LongestConcat` | src/utils/wordUtils.ts:2 | the longest length of two lists put together is the larger of their longest lengths |
| `WordUtils.LongestIsLeast` | src/utils/wordUtils.ts:2 | any bound on every trimmed length bounds the result |
| `GridSizeCalculator.FindLongestWordLength` | src/utils/gridSizeCalculator.ts:4-11 | no contract of its own; characterised by `AllWordsMembers`, `LongestPuzzleWordBound` and `LongestPuzzleWordAttained` |
| `GridSizeCalculator.AllWordsMembers` | src/utils/gridSizeCalculator.ts:6-8 | a word is in the flattened list exactly when it is a word of one of the puzzles |
| `GridSizeCalculator.LongestPuzzleWordBound` | src/utils/gridSizeCalculator.ts:4-11 | no word of any puzzle is longer, once trimmed, than the result |
| `GridSizeCalculator.LongestPuzzleWordAttained` | src/utils/gridSizeCalculator.ts:4-11 | the result is 0 when no puzzle has a word, and otherwise the trimmed length of some word |
| `GridSizeCalculator.CalculateMinGridSize` | src/utils/gridSizeCalculator.ts:13-29 | the minimum is the larger of 10 and longest + 2; the new size is the larger of the current size and the minimum |
| `GridSizeCalculator.NewSizeFitsEveryWord` | src/utils/gridSizeCalculator.ts:20-23 | every word fits in the new size with two cells to spare |
| `GridSizeCalculator.NewSizeMonotone` | src/utils/gridSizeCalculator.ts:23 | a larger current size never gives a smaller new size |
| `GridSizeCalculator.NewSizeStable` | src/utils/gridSizeCalculator.ts:23 | feeding the new size back in returns the same pair |
| `ConfigValidation.ValidateGridSize` | src/utils/validation.ts:4-14 | `NaN` or an infinity gives `minRequired`; a finite size gives `min(max(floor(size), minRequired), 100)`, so at most 100 and at least `minRequired` when that is at most 100 |
| `ConfigValidation.ValidateGridSizeDefault` | src/utils/validation.ts:4-14 | with `minRequired` left to its default `MIN_GRID_SIZE` = 10, the result always lies in [10, 100], `NaN` and infinities included, and a finite floor in that range is returned as is |
| `ConfigValidation.GridSizeCap` | src/utils/validation.ts:5-13 | the result is at most 100 exactly when the size is finite or `minRequired` is at most 100 |
| `ConfigValidation.NaNSizeNotCapped` | src/utils/validation.ts:5-7 | `NaN` with minimum 150 gives 150, while a finite size with that minimum gives 100 |
| `ConfigValidation.ValidateFontSize` | src/utils/validation.ts:16-23 | the result is in [8, 24]: 16 for `NaN` or an infinity, else the floor clamped into [8, 24] |
| `ConfigValidation.FontSizeIdempotent` | src/utils/validation.ts:22 | clamping a clamped font size changes nothing |
| `ConfigValidation.GridSizeTooSmall` | src/utils/validation.ts:37 | the grid-size message is longer than, so distinct from, the other two |
| `ConfigValidation.ValidateConfig` | src/utils/validation.ts:25-41 | "Title is required" appears exactly when the title is missing or blank; "At least one word is required" exactly when the words are missing or empty; the grid-size message exactly when the size is non-zero, not `NaN` and below the minimum; in the order title, words, grid size |
| `ConfigValidation.PickedMembers` | src/utils/validation.ts:26-40 | a message of the list built from three distinct messages is in it exactly when it was pushed |
| `ConfigValidation.FalsyGridSizeAccepted` | src/utils/validation.ts:36 | a zero, `NaN` or missing grid size never draws the grid-size message |
| `PdfStyles.DigitValue` | src/utils/pdfStyles.ts:20-22 | a hexadecimal digit of either case denotes a value below 16 |
| `PdfStyles.HexPrefix` | src/utils/pdfStyles.ts:20-22 | the longest prefix of hexadecimal digits: `parseInt` stops at the first other character |
| `PdfStyles.HexValue` | src/utils/pdfStyles.ts:20-22 | `n` digits denote a value below 16^n |
| `PdfStyles.ParseInt16` | src/utils/pdfStyles.ts:20-22 | a parsed value's magnitude is below 16^|s| |
| `PdfStyles.ParsePair` | src/utils/pdfStyles.ts:20-22 | two hexadecimal digits parse to the number they denote |
| `PdfStyles.HexToRgb` | src/utils/pdfStyles.ts:19-24 | no contract of its own; characterised by `HexToRgbDigits`, `HexToRgbRange`, `HexToRgbIgnoresCase`, `RgbRoundTrip` and `ShortColorNotExpanded` |
| `PdfStyles.HexToRgbDigits` | src/utils/pdfStyles.ts:19-24 | on `#RRGGBB` the components are the base-16 values of characters 1–2, 3–4 and 5–6 |
| `PdfStyles.HexToRgbRange` | src/utils/pdfStyles.ts:19-24 | on `#RRGGBB` every component lies in [0, 255] |
| `PdfStyles.HexToRgbIgnoresCase` | src/utils/pdfStyles.ts:20-22 | upper- and lower-case digits decode to the same components |
| `PdfStyles.RgbToHex` | src/utils/pdfStyles.ts:19-24 | the inverse used for the round trip writes a well-formed `#RRGGBB` |
| `PdfStyles.RgbRoundTrip` | src/utils/pdfStyles.ts:19-24 | writing a byte triple as `#RRGGBB` and decoding it gives the triple back |
| `PdfStyles.ByteRoundTrip` | src/utils/pdfStyles.ts:20-22 | the two digits written for a byte parse back to it |
| `PdfStyles.WordColors` | src/utils/pdfStyles.ts:6-17 | the word palette, a constant; `PaletteIsWellFormed` states that every entry is a `#RRGGBB` |
| `PdfStyles.PaletteIsWellFormed` | src/utils/pdfStyles.ts:6-17 | every palette colour is a well-formed `#RRGGBB` |
| `PdfStyles.NonDigitIsNaN` | src/utils/pdfStyles.ts:20 | a red component starting with a character that is no digit, blank or sign decodes to `NaN` |
| `PdfStyles.ShortColorNotExpanded` | src/utils/pdfStyles.ts:19-24 | "#FFF" is not expanded: it decodes to 255, 15 and `NaN` |
| `PdfCoordinates.CalculateWordCoordinates` | src/utils/pdf/coordinates.ts:10-56 | no contract of its own; characterised by `StartIsCentre`, `HorizontalEnd`, `VerticalIgnoresBackwards`, `DiagonalNeverRises`, `OneLetterEndsAtStart` and `AsWrittenAgreesIff` |
| `PdfCoordinates.StartIsCentre` | src/utils/pdf/coordinates.ts:19-20 | the returned start is the centre of the first cell |
| `PdfCoordinates.HorizontalEnd` | src/utils/pdf/coordinates.ts:26-33 | a horizontal line stays on its row and ends `(n-1)·cellSize` to the right, or to the left when backwards |
| `PdfCoordinates.VerticalIgnoresBackwards` | src/utils/pdf/coordinates.ts:34-36 | a vertical line ignores the backwards flag and ends `(n-1)·cellSize` below its start |
| `PdfCoordinates.DiagonalNeverRises` | src/utils/pdf/coordinates.ts:38-45 | a diagonal line never ends above its start, backwards or not |
| `PdfCoordinates.OneLetterEndsAtStart` | src/utils/pdf/coordinates.ts:26-46 | a one-letter word's line ends where it starts, in every direction |
| `PdfCoordinates.BackwardsDiagonalMissesLastCell` | src/utils/pdf/coordinates.ts:38-41 | the walk of a 3-letter backwards diagonal from (5, 5) ends in cell (3, 3), its far cell, while the line ends at the centre of cell (3, 7) |
| `PdfCoordinates.WordEndIsLastCellCentre` | src/utils/pdf/coordinates.ts:10-57 | the corrected line runs from the centre of the first cell the word's walk covers to the centre of the last one |
| `PdfCoordinates.AsWrittenAgreesIff` | src/utils/pdf/coordinates.ts:26-46 | the code as written agrees with the corrected end point exactly when the word is forwards or horizontal, or the line has no length |

## Left out

- User interface, PDF drawing, ZIP packaging, and `setColor`/`setTextColor`.
  These are React state, jsPDF and JSZip calls, and DOM downloads.
- The distribution of `Math.random`. Only the range of each draw is
  modelled; uniformity is not.
- `getRandomDirection`'s body. The generator imports it from
  `src/utils/puzzle/placement.ts`, which exports only `getRandomPosition`, so
  its behaviour cannot be read from the code. The model takes an arbitrary
  listed direction, backwards only when allowed. On an empty list it chooses
  to fail with `Wrapped(NoDirection)`, the form any non-`PuzzleError` raised
  there would take after the generator's `catch`.
- Case mapping other than ASCII `a`–`z`. `toUpperCase` is modelled on
  ASCII `a`–`z` only, so neither `ſ` → `S` (JavaScript keeps "ſun" as "SUN",
  the model drops it) nor `ß` → `SS`, which changes the length, is modelled.
- Error message texts. `PuzzleError`, the wrapped causes and `placeWord`'s
  error are kept only as constructors. `handleError` is not part of this
  model.
- The `isBackwards: false` field `initializeGrid` puts on each cell. Nothing
  in the core reads it, and `placeWord` rebuilds a cell without it.
- The `!Array.isArray(words)` guard of both `validatePuzzleWords`. The typed
  model always receives a list.
- String lengths count Unicode scalar values, not UTF-16 code units. A
  character outside the Basic Multilingual Plane has length 1 here and 2 in
  JavaScript, so for such words the length filter, `findLongestWordLength`
  and the grid size it leads to can differ from the source.
- Number widths. Grid sizes, coordinates and word lengths are unbounded
  integers; the JavaScript `number` is exact at every size those functions
  see. `minRequired`, `minGridSize` and `currentGridSize` are integers too.
- `parseInt`'s `-0`. A negative zero is modelled as `0`.
- The argument limit of `Math.max(...list)`. A spread of very many words
  raises a `RangeError` in JavaScript; the model accepts any length.
- The "Invalid direction" branches of `getDirectionVector`,
  `getRandomPosition` and `calculateWordCoordinates`. The closed
  `Direction` datatype leaves no other tag.
- PuzzleGenerator.TryPlaceWord: `placeWord`'s thrown error cannot arise from
  the generator, which calls it only after `canPlaceWord` accepted the same
  arguments. So its result is discarded, not wrapped.
- ConfigValidation.ValidateGridSize: the cap of 100 is promised only for a
  finite size. A `NaN` or infinite size returns `minRequired` uncapped, as
  the code does (`ConfigValidation.GridSizeCap` states when the cap holds).

## Findings

| source | as written | input that shows it | evidently intended | confidence | as-written member | corrected member |
|---|---|---|---|---|---|---|
| src/utils/puzzle/validation.ts:7-29 | the guard checks `x` only against 0, and each tag checks room along one axis in the forwards sense; vertical and diagonal ignore `isBackwards` | "CAT" on a 10-cell grid, vertical at (50, 0), is accepted though its first cell is off the grid; "CAT" backwards diagonal at (0, 0) is accepted though it walks to (-1, -1) | accept a placement exactly when every cell it covers, along the engine's direction vector, is on the grid | not executed | `PuzzleValidation.AcceptsOffGridColumn`, `PuzzleValidation.AcceptsBackwardsDiagonalOffGrid` | `PuzzleValidation.FitsOnGridIff` |
| src/utils/pdf/coordinates.ts:38-41 | a backwards diagonal's line goes left and DOWN (`endY = start + (n-1)·cellSize`) | a 3-letter backwards diagonal started at cell (5, 5), unit cells: its walk ends in cell (3, 3), the word's far cell, while the line ends at (3.5, 7.5), the centre of cell (3, 7) | end the line at the centre of the last cell of the walk, `n-1` steps along the direction vector (-1, -1) | not executed | `PdfCoordinates.BackwardsDiagonalMissesLastCell` | `PdfCoordinates.WordEndIsLastCellCentre` |
