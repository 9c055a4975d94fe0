/** src/utils/puzzle/wordPlacement.ts: the cells a word visits, the
    collision check `canPlaceWord`, and the in-place writer `placeWord`.
    The grid is an `array2<Cell>` indexed `[y, x]`; like the source, the
    bounds checks compare both coordinates with the number of rows. */
module WordPlacement {

  import opened Wrappers
  import opened Text
  import opened Types
  import opened Directions

  /** `getWordPosition`: the `index`-th cell from the start along `v`. */
  function GetWordPosition(startX: int, startY: int, index: int, v: Vector): Position
  {
    Position(startX + index * v.x, startY + index * v.y)
  }

  /** The `index`-th cell a word visits from its start coordinate. */
  function WordCell(startX: int, startY: int, direction: Direction, isBackwards: bool, index: int): Position
  {
    GetWordPosition(startX, startY, index, GetDirectionVector(direction, isBackwards))
  }

  /** A walk starts at its start coordinate, and each further cell is one
      step of the direction vector past the one before. */
  lemma WordCellStep(startX: int, startY: int, direction: Direction, isBackwards: bool, i: int)
    ensures WordCell(startX, startY, direction, isBackwards, 0) == Position(startX, startY)
    ensures var v := GetDirectionVector(direction, isBackwards);
      var q := WordCell(startX, startY, direction, isBackwards, i);
      WordCell(startX, startY, direction, isBackwards, i + 1) == Position(q.x + v.x, q.y + v.y)
  {
    var v := GetDirectionVector(direction, isBackwards);
    assert (i + 1) * v.x == i * v.x + v.x;
    assert (i + 1) * v.y == i * v.y + v.y;
  }

  /** `word.split('').reverse()`. */
  function Reverse(s: string): (r: string)
    ensures |r| == |s|
  {
    seq(|s|, i requires 0 <= i < |s| => s[|s| - 1 - i])
  }

  /** The letters in the order they are written along the path: reversed
      when backwards. */
  function Letters(word: string, isBackwards: bool): (r: string)
    ensures |r| == |word|
  {
    if isBackwards then Reverse(word) else word
  }

  /** The letter destined for the `i`-th visited cell: `word[i]` forwards,
      `word[n-1-i]` backwards. */
  function StoredLetter(word: string, isBackwards: bool, i: int): char
    requires 0 <= i < |word|
  {
    if isBackwards then word[|word| - 1 - i] else word[i]
  }

  lemma LettersAt(word: string, isBackwards: bool, i: int)
    requires 0 <= i < |word|
    ensures Letters(word, isBackwards)[i] == StoredLetter(word, isBackwards, i)
  {
  }

  predicate InGrid(q: Position, n: int)
  {
    0 <= q.x < n && 0 <= q.y < n
  }

  /** One step of `canPlaceWord`'s `every`: the cell is on the grid and is
      empty or already holds the upper-cased letter. */
  predicate Accepts(grid: array2<Cell>, q: Position, letter: char)
    requires grid.Length0 == grid.Length1
    reads grid
  {
    InGrid(q, grid.Length0) &&
    (grid[q.y, q.x].letter == "" || grid[q.y, q.x].letter == [ToUpper(letter)])
  }

  /** `canPlaceWord`. */
  predicate CanPlaceWord(grid: array2<Cell>, word: string, startX: int, startY: int,
                         direction: Direction, isBackwards: bool)
    requires grid.Length0 == grid.Length1
    reads grid
  {
    var letters := Letters(word, isBackwards);
    forall i :: 0 <= i < |letters| ==>
      Accepts(grid, WordCell(startX, startY, direction, isBackwards, i), letters[i])
  }

  /** A word canPlaceWord accepts stays on the grid. */
  lemma CanPlaceInGrid(grid: array2<Cell>, word: string, startX: int, startY: int,
                       direction: Direction, isBackwards: bool)
    requires grid.Length0 == grid.Length1
    requires CanPlaceWord(grid, word, startX, startY, direction, isBackwards)
    ensures forall i :: 0 <= i < |word| ==> InGrid(WordCell(startX, startY, direction, isBackwards, i), grid.Length0)
  {
    var letters := Letters(word, isBackwards);
    forall i | 0 <= i < |word|
      ensures InGrid(WordCell(startX, startY, direction, isBackwards, i), grid.Length0)
    {
      assert Accepts(grid, WordCell(startX, startY, direction, isBackwards, i), letters[i]);
    }
  }

  /** canPlaceWord holds exactly when every visited cell lies on the grid and is
      empty or holds the upper-cased letter destined for it. */
  lemma CanPlaceWordIff(grid: array2<Cell>, word: string, startX: int, startY: int,
                        direction: Direction, isBackwards: bool)
    requires grid.Length0 == grid.Length1
    ensures CanPlaceWord(grid, word, startX, startY, direction, isBackwards) <==>
      forall i :: 0 <= i < |word| ==>
        Accepts(grid, WordCell(startX, startY, direction, isBackwards, i), StoredLetter(word, isBackwards, i))
  {
    forall i | 0 <= i < |word| {
      LettersAt(word, isBackwards, i);
    }
  }

  /** No cell holds a letter yet. */
  predicate IsBlank(grid: array2<Cell>)
    reads grid
  {
    forall y, x :: 0 <= y < grid.Length0 && 0 <= x < grid.Length1 ==> grid[y, x].letter == ""
  }

  /** A word longer than the grid is wide fits nowhere. */
  lemma LongWordNeverFits(grid: array2<Cell>, word: string, startX: int, startY: int,
                          direction: Direction, isBackwards: bool)
    requires grid.Length0 == grid.Length1
    requires |word| > grid.Length0
    ensures !CanPlaceWord(grid, word, startX, startY, direction, isBackwards)
  {
    var n, last := grid.Length0, |word| - 1;
    var first, final := WordCell(startX, startY, direction, isBackwards, 0),
                        WordCell(startX, startY, direction, isBackwards, last);
    var v := GetDirectionVector(direction, isBackwards);
    assert last * v.x == last || last * v.x == -last || v.x == 0;
    assert last * v.y == last || last * v.y == -last || v.y == 0;
    assert !InGrid(first, n) || !InGrid(final, n);
    assert !Accepts(grid, first, Letters(word, isBackwards)[0]) ||
           !Accepts(grid, final, Letters(word, isBackwards)[last]);
  }

  /** On a grid whose cells are all empty, a placement fits as soon as every
      visited cell is on the grid. */
  lemma EmptyGridAccepts(grid: array2<Cell>, word: string, startX: int, startY: int,
                         direction: Direction, isBackwards: bool)
    requires grid.Length0 == grid.Length1
    requires IsBlank(grid)
    requires forall i :: 0 <= i < |word| ==>
      InGrid(WordCell(startX, startY, direction, isBackwards, i), grid.Length0)
    ensures CanPlaceWord(grid, word, startX, startY, direction, isBackwards)
  {
  }

  /** The step at which a walk from `(startX, startY)` along the unit vector
      `v` would reach `(x, y)`, read off the axis `v` moves on. */
  function PathIndex(startX: int, startY: int, v: Vector, x: int, y: int): int
  {
    if v.x == 1 then x - startX
    else if v.x == -1 then startX - x
    else if v.y == 1 then y - startY
    else startY - y
  }

  /** Whether `(x, y)` is one of the first `count` cells of the walk. */
  predicate OnPath(startX: int, startY: int, direction: Direction, isBackwards: bool,
                   count: int, x: int, y: int)
  {
    var i := PathIndex(startX, startY, GetDirectionVector(direction, isBackwards), x, y);
    0 <= i < count && WordCell(startX, startY, direction, isBackwards, i) == Position(x, y)
  }

  /** Consecutive cells of a walk are distinct: the `i`-th cell is reached at
      step `i` and at no other. */
  lemma PathIndexOfCell(startX: int, startY: int, direction: Direction, isBackwards: bool, i: int)
    ensures var q := WordCell(startX, startY, direction, isBackwards, i);
      PathIndex(startX, startY, GetDirectionVector(direction, isBackwards), q.x, q.y) == i
  {
    var v := GetDirectionVector(direction, isBackwards);
    if v.x == 1 {
    } else if v.x == -1 {
      assert (i * -1) * -1 == i;
    } else if v.y == 1 {
    } else {
      assert (i * -1) * -1 == i;
    }
  }

  /** The cell `placeWord` writes at step `i` of a walk. */
  function WrittenCell(old_cell: Cell, q: Position, letter: char, wordIndex: int): Cell
  {
    Cell([ToUpper(letter)], true, q, old_cell.wordIndices + [wordIndex])
  }

  /** Cell `q` is on the grid, holds the upper-cased `letter` and lists
      `wordIndex` among the words covering it. */
  predicate HoldsAt(grid: array2<Cell>, q: Position, letter: char, wordIndex: int)
    requires grid.Length0 == grid.Length1
    reads grid
  {
    InGrid(q, grid.Length0) && grid[q.y, q.x].letter == [ToUpper(letter)] &&
    wordIndex in grid[q.y, q.x].wordIndices
  }

  /** The letters, cell by cell, of a word recorded at the given start,
      direction and orientation, and the word's index among each cell's
      `wordIndices`: what the grid reads along a placement. */
  ghost predicate WordAt(grid: array2<Cell>, word: string, startX: int, startY: int,
                         direction: Direction, isBackwards: bool, wordIndex: int)
    requires grid.Length0 == grid.Length1
    reads grid
  {
    forall i :: 0 <= i < |word| ==>
      HoldsAt(grid, WordCell(startX, startY, direction, isBackwards, i), Letters(word, isBackwards)[i], wordIndex)
  }

  /** Between the old and the current state, every letter already written
      stayed, and every cell's `wordIndices` only grew at its end. */
  twostate predicate Extends(grid: array2<Cell>)
    reads grid
  {
    forall y, x :: 0 <= y < grid.Length0 && 0 <= x < grid.Length1 ==>
      (old(grid[y, x].letter) != "" ==> grid[y, x].letter == old(grid[y, x].letter)) &&
      old(grid[y, x].wordIndices) <= grid[y, x].wordIndices
  }

  /** A one-character string holding a capital letter. */
  predicate IsCapital(s: string)
  {
    |s| == 1 && IsUpperLetter(s[0])
  }

  /** Every cell records its own coordinate as its position. */
  predicate KnowsPositions(grid: array2<Cell>)
    reads grid
  {
    forall y, x :: 0 <= y < grid.Length0 && 0 <= x < grid.Length1 ==> grid[y, x].position == Position(x, y)
  }

  /** Every cell is empty or holds a single capital letter. */
  predicate HoldsCapitals(grid: array2<Cell>)
    reads grid
  {
    forall y, x :: 0 <= y < grid.Length0 && 0 <= x < grid.Length1 ==>
      grid[y, x].letter == "" || IsCapital(grid[y, x].letter)
  }

  /** The grid reads the placed word `pw` along its recorded placement. */
  ghost predicate Records(grid: array2<Cell>, pw: PlacedWord)
    requires grid.Length0 == grid.Length1
    reads grid
  {
    WordAt(grid, pw.word, pw.startX, pw.startY, pw.direction, pw.isBackwards, pw.index)
  }

  /** The error `placeWord` throws when the placement does not fit. */
  datatype PlaceError = CannotPlaceWord(word: string, startX: int, startY: int)

  /** The `forEach` of `placeWord`: each letter overwrites the cell it
      lands on; no other cell changes. */
  method WriteLetters(grid: array2<Cell>, word: string, startX: int, startY: int,
                      direction: Direction, isBackwards: bool, wordIndex: int)
    requires grid.Length0 == grid.Length1
    requires forall i :: 0 <= i < |word| ==> InGrid(WordCell(startX, startY, direction, isBackwards, i), grid.Length0)
    modifies grid
    ensures forall i :: 0 <= i < |word| ==>
      var q := WordCell(startX, startY, direction, isBackwards, i);
      InGrid(q, grid.Length0) &&
      grid[q.y, q.x] == WrittenCell(old(grid[q.y, q.x]), q, Letters(word, isBackwards)[i], wordIndex)
    ensures forall y, x ::
      (0 <= y < grid.Length0 && 0 <= x < grid.Length1 &&
       !OnPath(startX, startY, direction, isBackwards, |word|, x, y)) ==> grid[y, x] == old(grid[y, x])
  {
    var letters := Letters(word, isBackwards);
    for i := 0 to |letters|
      invariant forall y, x :: 0 <= y < grid.Length0 && 0 <= x < grid.Length1 ==>
        grid[y, x] == AfterSteps(old(grid[y, x]), startX, startY, direction, isBackwards, letters, wordIndex, i, x, y)
    {
      var q := WordCell(startX, startY, direction, isBackwards, i);
      PathIndexOfCell(startX, startY, direction, isBackwards, i);
      assert !OnPath(startX, startY, direction, isBackwards, i, q.x, q.y);
      grid[q.y, q.x] := WrittenCell(grid[q.y, q.x], q, letters[i], wordIndex);
    }
    forall i | 0 <= i < |word|
      ensures var q := WordCell(startX, startY, direction, isBackwards, i);
        InGrid(q, grid.Length0) &&
        grid[q.y, q.x] == WrittenCell(old(grid[q.y, q.x]), q, letters[i], wordIndex)
    {
      var q := WordCell(startX, startY, direction, isBackwards, i);
      AfterStepsAt(old(grid[q.y, q.x]), startX, startY, direction, isBackwards, letters, wordIndex, |word|, i);
    }
  }

  /** The `i`-th cell of the walk, within the first `n` steps, is rewritten
      with the `i`-th letter. */
  lemma AfterStepsAt(c: Cell, startX: int, startY: int, direction: Direction, isBackwards: bool,
                     letters: string, wordIndex: int, n: int, i: int)
    requires 0 <= i < n <= |letters|
    ensures var q := WordCell(startX, startY, direction, isBackwards, i);
      AfterSteps(c, startX, startY, direction, isBackwards, letters, wordIndex, n, q.x, q.y) ==
      WrittenCell(c, q, letters[i], wordIndex)
  {
    PathIndexOfCell(startX, startY, direction, isBackwards, i);
  }

  /** Cell `(x, y)` after the first `n` letters of the walk are written:
      rewritten if the walk visits it within `n` steps, else as it was. */
  function AfterSteps(c: Cell, startX: int, startY: int, direction: Direction, isBackwards: bool,
                      letters: string, wordIndex: int, n: int, x: int, y: int): Cell
    requires n <= |letters|
  {
    if OnPath(startX, startY, direction, isBackwards, n, x, y)
    then WrittenCell(c, Position(x, y), letters[PathIndex(startX, startY, GetDirectionVector(direction, isBackwards), x, y)], wordIndex)
    else c
  }

  /** `placeWord`. When canPlaceWord fails it throws and leaves the grid
      untouched; otherwise the `i`-th visited cell gets the upper-cased
      letter destined for it, `isPartOfWord`, its own coordinate as position
      and `wordIndex` appended to its indices, and no other cell changes. */
  method PlaceWord(grid: array2<Cell>, word: string, startX: int, startY: int,
                   direction: Direction, isBackwards: bool, wordIndex: int)
    returns (err: Option<PlaceError>)
    requires grid.Length0 == grid.Length1
    modifies grid
    ensures err.None? <==> old(CanPlaceWord(grid, word, startX, startY, direction, isBackwards))
    ensures err.Some? ==> err.value == CannotPlaceWord(word, startX, startY) && unchanged(grid)
    ensures err.None? ==> forall i :: 0 <= i < |word| ==>
      var q := WordCell(startX, startY, direction, isBackwards, i);
      InGrid(q, grid.Length0) &&
      grid[q.y, q.x] == WrittenCell(old(grid[q.y, q.x]), q, Letters(word, isBackwards)[i], wordIndex)
    ensures err.None? ==> forall y, x ::
      (0 <= y < grid.Length0 && 0 <= x < grid.Length1 &&
       !OnPath(startX, startY, direction, isBackwards, |word|, x, y)) ==> grid[y, x] == old(grid[y, x])
    ensures err.None? ==> CanPlaceWord(grid, word, startX, startY, direction, isBackwards)
    ensures err.None? ==> WordAt(grid, word, startX, startY, direction, isBackwards, wordIndex)
    ensures err.None? ==> Extends(grid)
    ensures err.None? && old(KnowsPositions(grid)) ==> KnowsPositions(grid)
    ensures err.None? && old(HoldsCapitals(grid)) && (forall i :: 0 <= i < |word| ==> IsUpperLetter(word[i])) ==>
      HoldsCapitals(grid)
  {
    if !CanPlaceWord(grid, word, startX, startY, direction, isBackwards) {
      return Some(CannotPlaceWord(word, startX, startY));
    }
    var letters := Letters(word, isBackwards);
    CanPlaceInGrid(grid, word, startX, startY, direction, isBackwards);
    WriteLetters(grid, word, startX, startY, direction, isBackwards, wordIndex);
    err := None;
    forall y, x | 0 <= y < grid.Length0 && 0 <= x < grid.Length1
      ensures (old(grid[y, x].letter) != "" ==> grid[y, x].letter == old(grid[y, x].letter)) &&
        old(grid[y, x].wordIndices) <= grid[y, x].wordIndices
      ensures old(grid[y, x].position) == Position(x, y) ==> grid[y, x].position == Position(x, y)
      ensures (old(grid[y, x].letter == "" || IsCapital(grid[y, x].letter)) &&
               forall i :: 0 <= i < |word| ==> IsUpperLetter(word[i])) ==>
        grid[y, x].letter == "" || IsCapital(grid[y, x].letter)
    {
      if OnPath(startX, startY, direction, isBackwards, |letters|, x, y) {
        var i := PathIndex(startX, startY, GetDirectionVector(direction, isBackwards), x, y);
        assert old(Accepts(grid, Position(x, y), letters[i]));
        LettersAt(word, isBackwards, i);
      }
    }
  }

  /** A backwards word is written reversed AND walked with the negated
      step, so the two reversals cancel: read forwards from its far end
      (the cell `n-1` steps from the start), the grid spells the word in its
      natural order, ending at the recorded start. */
  lemma BackwardsReadsForwards(grid: array2<Cell>, word: string, startX: int, startY: int,
                               direction: Direction, wordIndex: int)
    requires grid.Length0 == grid.Length1
    requires WordAt(grid, word, startX, startY, direction, true, wordIndex)
    requires |word| >= 1
    ensures var far := WordCell(startX, startY, direction, true, |word| - 1);
      forall j :: 0 <= j < |word| ==>
        var q := WordCell(far.x, far.y, direction, false, j);
        InGrid(q, grid.Length0) && grid[q.y, q.x].letter == [ToUpper(word[j])]
  {
    var n := |word|;
    var far := WordCell(startX, startY, direction, true, n - 1);
    forall j | 0 <= j < n
      ensures var q := WordCell(far.x, far.y, direction, false, j);
        InGrid(q, grid.Length0) && grid[q.y, q.x].letter == [ToUpper(word[j])]
    {
      var i := n - 1 - j;
      assert WordCell(far.x, far.y, direction, false, j) == WordCell(startX, startY, direction, true, i);
      LettersAt(word, true, i);
    }
  }
}
