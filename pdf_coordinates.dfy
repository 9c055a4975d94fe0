/** src/utils/pdf/coordinates.ts: the two end points, in page units, of the
    line that highlights a word. `startX`/`startY` are the top-left corner
    of the word's first cell and `cellSize` the side of a cell. */
module PdfCoordinates {

  import opened Types
  import opened Directions
  import opened WordPlacement

  /** `{ startX, startY, endX, endY }`. */
  datatype WordCoordinates = WordCoordinates(startX: real, startY: real, endX: real, endY: real)

  /** `calculateWordCoordinates`, as written: the start is moved to the
      centre of the first cell and the end is `wordLength - 1` cells away,
      leftwards for a backwards horizontal or diagonal word and always
      downwards for a vertical or diagonal one. */
  function CalculateWordCoordinates(startX: real, startY: real, wordLength: int, direction: Direction,
                                    isBackwards: bool, cellSize: real): WordCoordinates
  {
    var adjustedStartX := startX + cellSize / 2.0;
    var adjustedStartY := startY + cellSize / 2.0;
    var span := (wordLength - 1) as real * cellSize;
    match direction
    case Horizontal =>
      if isBackwards then WordCoordinates(adjustedStartX, adjustedStartY, adjustedStartX - span, adjustedStartY)
      else WordCoordinates(adjustedStartX, adjustedStartY, adjustedStartX + span, adjustedStartY)
    case Vertical => WordCoordinates(adjustedStartX, adjustedStartY, adjustedStartX, adjustedStartY + span)
    case Diagonal =>
      if isBackwards then WordCoordinates(adjustedStartX, adjustedStartY, adjustedStartX - span, adjustedStartY + span)
      else WordCoordinates(adjustedStartX, adjustedStartY, adjustedStartX + span, adjustedStartY + span)
  }

  /** The returned start is the centre of the first cell. */
  lemma StartIsCentre(startX: real, startY: real, wordLength: int, direction: Direction, isBackwards: bool, cellSize: real)
    ensures var c := CalculateWordCoordinates(startX, startY, wordLength, direction, isBackwards, cellSize);
      c.startX - startX == cellSize / 2.0 && c.startY - startY == cellSize / 2.0
  {
  }

  /** A horizontal line stays on its row and ends `wordLength - 1` cells to
      the right, or to the left when backwards. */
  lemma HorizontalEnd(startX: real, startY: real, wordLength: int, isBackwards: bool, cellSize: real)
    ensures var c := CalculateWordCoordinates(startX, startY, wordLength, Horizontal, isBackwards, cellSize);
      c.endY == c.startY &&
      c.endX - c.startX == (if isBackwards then -1.0 else 1.0) * (wordLength - 1) as real * cellSize
  {
  }

  /** A vertical line ignores `isBackwards`: it always ends `wordLength - 1`
      cells below its start, in the same column. */
  lemma VerticalIgnoresBackwards(startX: real, startY: real, wordLength: int, cellSize: real)
    ensures CalculateWordCoordinates(startX, startY, wordLength, Vertical, true, cellSize) ==
            CalculateWordCoordinates(startX, startY, wordLength, Vertical, false, cellSize)
    ensures var c := CalculateWordCoordinates(startX, startY, wordLength, Vertical, false, cellSize);
      c.endX == c.startX && c.endY - c.startY == (wordLength - 1) as real * cellSize
  {
  }

  /** A diagonal line never rises: for a word of at least one letter and a
      non-negative cell size its end is never above its start, backwards or
      not. */
  lemma DiagonalNeverRises(startX: real, startY: real, wordLength: int, isBackwards: bool, cellSize: real)
    requires wordLength >= 1 && cellSize >= 0.0
    ensures var c := CalculateWordCoordinates(startX, startY, wordLength, Diagonal, isBackwards, cellSize);
      c.endY >= c.startY
  {
    assert (wordLength - 1) as real * cellSize >= 0.0;
  }

  /** For a one-letter word the line ends where it starts. */
  lemma OneLetterEndsAtStart(startX: real, startY: real, direction: Direction, isBackwards: bool, cellSize: real)
    ensures var c := CalculateWordCoordinates(startX, startY, 1, direction, isBackwards, cellSize);
      c.endX == c.startX && c.endY == c.startY
  {
  }

  /** The far cell of a backwards diagonal word of length 3 started at
      cell (5, 5), the last cell its walk covers, is cell (3, 3); the line
      drawn for it on a grid of unit cells ends at the centre of cell
      (3, 7). */
  lemma BackwardsDiagonalMissesLastCell()
    ensures WordCell(5, 5, Diagonal, true, 2) == Position(3, 3)
    ensures CalculateWordCoordinates(5.0, 5.0, 3, Diagonal, true, 1.0) == WordCoordinates(5.5, 5.5, 3.5, 7.5)
  {
  }

  /** The end point the highlight evidently needs: the centre of the cell
      `wordLength - 1` steps along the engine's direction vector. */
  function WordEndCoordinates(startX: real, startY: real, wordLength: int, direction: Direction,
                              isBackwards: bool, cellSize: real): WordCoordinates
  {
    var v := GetDirectionVector(direction, isBackwards);
    var adjustedStartX := startX + cellSize / 2.0;
    var adjustedStartY := startY + cellSize / 2.0;
    var span := (wordLength - 1) as real * cellSize;
    WordCoordinates(adjustedStartX, adjustedStartY, adjustedStartX + v.x as real * span, adjustedStartY + v.y as real * span)
  }

  /** With the grid's cell `(x, y)` drawn with its top-left corner at
      `(originX + x * cellSize, originY + y * cellSize)`, the corrected line
      starts at the centre of the first cell the word's walk covers and
      ends at the centre of the last one. */
  lemma WordEndIsLastCellCentre(originX: real, originY: real, x: int, y: int, wordLength: int,
                                direction: Direction, isBackwards: bool, cellSize: real)
    requires wordLength >= 1
    ensures var c := WordEndCoordinates(originX + x as real * cellSize, originY + y as real * cellSize,
                                        wordLength, direction, isBackwards, cellSize);
      var first := WordCell(x, y, direction, isBackwards, 0);
      var last := WordCell(x, y, direction, isBackwards, wordLength - 1);
      c.startX == originX + first.x as real * cellSize + cellSize / 2.0 &&
      c.startY == originY + first.y as real * cellSize + cellSize / 2.0 &&
      c.endX == originX + last.x as real * cellSize + cellSize / 2.0 &&
      c.endY == originY + last.y as real * cellSize + cellSize / 2.0
  {
    var v := GetDirectionVector(direction, isBackwards);
    var n := wordLength - 1;
    var last := WordCell(x, y, direction, isBackwards, n);
    assert last.x == x + n * v.x && last.y == y + n * v.y;
    assert (x + n * v.x) as real * cellSize == x as real * cellSize + v.x as real * (n as real * cellSize);
    assert (y + n * v.y) as real * cellSize == y as real * cellSize + v.y as real * (n as real * cellSize);
  }

  /** The code as written agrees with the corrected end point exactly when
      the word is forwards or horizontal, or the line has no length. */
  lemma AsWrittenAgreesIff(startX: real, startY: real, wordLength: int, direction: Direction,
                           isBackwards: bool, cellSize: real)
    ensures CalculateWordCoordinates(startX, startY, wordLength, direction, isBackwards, cellSize) ==
            WordEndCoordinates(startX, startY, wordLength, direction, isBackwards, cellSize) <==>
      !isBackwards || direction == Horizontal || (wordLength - 1) as real * cellSize == 0.0
  {
  }
}
