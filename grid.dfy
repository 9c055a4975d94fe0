/** src/utils/puzzle/grid.ts: the empty square grid and the random fill of
    the cells no word covers. */
module Grid {

  import opened Wrappers
  import opened Text
  import opened Types
  import opened WordPlacement
  import opened Placement

  /** The largest length `Array(n)` accepts: 2^32 - 1. */
  const MaxArrayLength: int := 0xFFFF_FFFF

  /** The `RangeError` `Array(size)` throws for a negative, too large or
      fractional length. */
  datatype GridError = InvalidArrayLength

  /** The cell `initializeGrid` puts at row `y`, column `x`. */
  function EmptyCell(x: int, y: int): (c: Cell)
    ensures c.letter == "" && !c.isPartOfWord && c.position == Position(x, y) && c.wordIndices == []
  {
    Cell("", false, Position(x, y), [])
  }

  /** `initializeGrid(size)`: `size` rows of `size` empty cells, each
      recording its own coordinate. */
  method InitializeGrid(size: int) returns (r: Result<array2<Cell>, GridError>)
    ensures r.Failure? <==> !(0 <= size <= MaxArrayLength)
    ensures r.Success? ==> fresh(r.value)
    ensures r.Success? ==> r.value.Length0 == size && r.value.Length1 == size
    ensures r.Success? ==> forall y, x :: 0 <= y < size && 0 <= x < size ==> r.value[y, x] == EmptyCell(x, y)
  {
    if !(0 <= size <= MaxArrayLength) {
      return Failure(InvalidArrayLength);
    }
    var grid := new Cell[size, size]((y, x) => EmptyCell(x, y));
    return Success(grid);
  }

  const Alphabet: string := "ABCDEFGHIJKLMNOPQRSTUVWXYZ"

  /** `alphabet[Math.floor(Math.random() * alphabet.length)]` for the draw
      `u`: a letter from A to Z. */
  function RandomLetter(u: real): (c: char)
    requires 0.0 <= u < 1.0
    ensures IsUpperLetter(c)
  {
    Alphabet[RandomBelow(u, |Alphabet|)]
  }

  /** What `fillEmptySpaces` does to one cell: a cell with a letter keeps
      everything; an empty one gets a single letter from A to Z and keeps
      every other field. */
  predicate FilledFrom(before: Cell, after: Cell)
  {
    if before.letter == "" then after == before.(letter := after.letter) && IsCapital(after.letter)
    else after == before
  }

  /** `fillEmptySpaces(grid)`: every cell whose letter is empty gets a
      random letter from A to Z, in place; nothing else changes. */
  method FillEmptySpaces(grid: array2<Cell>)
    modifies grid
    ensures forall y, x :: 0 <= y < grid.Length0 && 0 <= x < grid.Length1 ==>
      FilledFrom(old(grid[y, x]), grid[y, x])
    ensures forall y, x :: 0 <= y < grid.Length0 && 0 <= x < grid.Length1 ==> grid[y, x].letter != ""
    ensures Extends(grid)
    ensures (forall y, x :: 0 <= y < grid.Length0 && 0 <= x < grid.Length1 ==> old(grid[y, x].letter) != "") ==>
      forall y, x :: 0 <= y < grid.Length0 && 0 <= x < grid.Length1 ==> grid[y, x] == old(grid[y, x])
  {
    for y := 0 to grid.Length0
      invariant forall j, x :: 0 <= j < y && 0 <= x < grid.Length1 ==> FilledFrom(old(grid[j, x]), grid[j, x])
      invariant forall j, x :: y <= j < grid.Length0 && 0 <= x < grid.Length1 ==> grid[j, x] == old(grid[j, x])
    {
      FillRow(grid, y);
    }
  }

  /** One turn of the outer loop: the empty cells of row `y` get letters,
      and no other row changes. */
  method FillRow(grid: array2<Cell>, y: int)
    requires 0 <= y < grid.Length0
    modifies grid
    ensures forall x :: 0 <= x < grid.Length1 ==> FilledFrom(old(grid[y, x]), grid[y, x])
    ensures forall j, x :: 0 <= j < grid.Length0 && j != y && 0 <= x < grid.Length1 ==> grid[j, x] == old(grid[j, x])
  {
    for x := 0 to grid.Length1
      invariant forall i :: 0 <= i < x ==> FilledFrom(old(grid[y, i]), grid[y, i])
      invariant forall i :: x <= i < grid.Length1 ==> grid[y, i] == old(grid[y, i])
      invariant forall j, i :: 0 <= j < grid.Length0 && j != y && 0 <= i < grid.Length1 ==> grid[j, i] == old(grid[j, i])
    {
      if grid[y, x].letter == "" {
        var u: real :| 0.0 <= u < 1.0;
        grid[y, x] := grid[y, x].(letter := [RandomLetter(u)]);
      }
    }
  }
}
