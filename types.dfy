/** The records the placement engine works on. */
module Types {

  /** The closed set of directions a word may run in. */
  datatype Direction = Horizontal | Vertical | Diagonal

  /** A grid coordinate: `x` is the column, growing rightwards; `y` is the
      row, growing downwards; `(0, 0)` is the top-left cell. */
  datatype Position = Position(x: int, y: int)

  /** One cell of the grid. `letter` is `""` until something is written;
      `wordIndices` lists, in insertion order, the indices of the placed
      words that cover the cell. */
  datatype Cell = Cell(letter: string, isPartOfWord: bool, position: Position, wordIndices: seq<int>)

  /** The record the generator keeps for each word it places. */
  datatype PlacedWord = PlacedWord(
    word: string,
    startX: int,
    startY: int,
    direction: Direction,
    index: int,
    isBackwards: bool)
}
