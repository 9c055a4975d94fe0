/** src/utils/puzzle/validation.ts: a direction-tag check, a stand-alone
    placement check, and a second copy of the word normaliser. Direction
    tags are strings here because the file also handles `'backwards'` and
    tags outside the `Direction` union. */
module PuzzleValidation {

  import opened Text
  import opened Types
  import opened WordPlacement
  import WordValidation

  /** The tag a `Direction` has in the source. */
  function DirectionName(d: Direction): string
  {
    match d
    case Horizontal => "horizontal"
    case Vertical => "vertical"
    case Diagonal => "diagonal"
  }

  /** `validateDirection`: membership in the four-element list. */
  predicate ValidateDirection(tag: string)
  {
    tag in ["horizontal", "vertical", "diagonal", "backwards"]
  }

  /** The accepted tags are the names of the three directions and
      `"backwards"`, and nothing else. */
  lemma ValidateDirectionIff(tag: string)
    ensures ValidateDirection(tag) <==> tag == "backwards" || exists d :: DirectionName(d) == tag
  {
    if tag == "horizontal" {
      assert DirectionName(Horizontal) == tag;
    } else if tag == "vertical" {
      assert DirectionName(Vertical) == tag;
    } else if tag == "diagonal" {
      assert DirectionName(Diagonal) == tag;
    }
  }

  /** `validateWordPlacement`, as written: the guard rejects negative
      coordinates and a row beyond the grid, then each tag tests only the
      room the word needs along its own axis. */
  predicate ValidateWordPlacement(word: string, gridSize: int, direction: string, x: int, y: int, isBackwards: bool)
  {
    if x < 0 || y < 0 || y >= gridSize then false
    else if direction == "horizontal" then
      if isBackwards then x >= |word| - 1 else x + |word| <= gridSize
    else if direction == "vertical" then y + |word| <= gridSize
    else if direction == "diagonal" then x + |word| <= gridSize && y + |word| <= gridSize
    else if direction == "backwards" then x >= |word| - 1
    else false
  }

  /** `validateWordPlacement(word, gridSize, direction, x, y)`, with
      `isBackwards` left to its default `false`: past the guard, horizontal
      needs room to the right and `"backwards"` room to the left. */
  function ValidateWordPlacementForwards(word: string, gridSize: int, direction: string, x: int, y: int): (r: bool)
    ensures r ==> 0 <= x && 0 <= y < gridSize
    ensures direction == "horizontal" ==> (r <==> 0 <= x && 0 <= y < gridSize && x + |word| <= gridSize)
    ensures direction == "backwards" ==> (r <==> 0 <= y < gridSize && |word| - 1 <= x && 0 <= x)
  {
    ValidateWordPlacement(word, gridSize, direction, x, y, false)
  }

  /** A negative coordinate or a row at or past `gridSize` is rejected for
      every word and tag. */
  lemma GuardRejects(word: string, gridSize: int, direction: string, x: int, y: int, isBackwards: bool)
    requires x < 0 || y < 0 || y >= gridSize
    ensures !ValidateWordPlacement(word, gridSize, direction, x, y, isBackwards)
  {
  }

  /** Past the guard, a horizontal placement is accepted exactly when the
      word fits to the right (forwards) or to the left (backwards) of `x`. */
  lemma HorizontalIff(word: string, gridSize: int, x: int, y: int, isBackwards: bool)
    requires 0 <= x && 0 <= y < gridSize
    ensures ValidateWordPlacement(word, gridSize, "horizontal", x, y, isBackwards) <==>
      (if isBackwards then |word| - 1 <= x else x + |word| <= gridSize)
  {
  }

  /** Vertical and diagonal placements ignore `isBackwards`: the test is
      always the forwards one, downwards (and rightwards for diagonal). */
  lemma VerticalDiagonalIgnoreBackwards(word: string, gridSize: int, x: int, y: int)
    requires 0 <= x && 0 <= y < gridSize
    ensures ValidateWordPlacement(word, gridSize, "vertical", x, y, true) ==
            ValidateWordPlacement(word, gridSize, "vertical", x, y, false)
    ensures ValidateWordPlacement(word, gridSize, "vertical", x, y, true) <==> y + |word| <= gridSize
    ensures ValidateWordPlacement(word, gridSize, "diagonal", x, y, true) ==
            ValidateWordPlacement(word, gridSize, "diagonal", x, y, false)
    ensures ValidateWordPlacement(word, gridSize, "diagonal", x, y, true) <==>
      x + |word| <= gridSize && y + |word| <= gridSize
  {
  }

  /** A tag outside the four known ones is rejected. */
  lemma UnknownTagRejects(word: string, gridSize: int, direction: string, x: int, y: int, isBackwards: bool)
    requires !ValidateDirection(direction)
    ensures !ValidateWordPlacement(word, gridSize, direction, x, y, isBackwards)
  {
  }

  /** The placement check accepts a vertical word in a column far right of
      a 10-cell grid: its first cell, (50, 0), is not on the grid. */
  lemma AcceptsOffGridColumn()
    ensures ValidateWordPlacement("CAT", 10, "vertical", 50, 0, false)
    ensures !InGrid(WordCell(50, 0, Vertical, false, 0), 10)
  {
  }

  /** The placement check accepts a backwards diagonal from the top-left
      corner, which walks up and left off the grid at its second cell. */
  lemma AcceptsBackwardsDiagonalOffGrid()
    ensures ValidateWordPlacement("CAT", 10, "diagonal", 0, 0, true)
    ensures !InGrid(WordCell(0, 0, Diagonal, true, 1), 10)
  {
  }

  /** The bounds test the placement check evidently means, per direction:
      both coordinates on the grid, and room for the rest of the word along
      the direction vector the engine walks. */
  predicate FitsOnGrid(word: string, gridSize: int, direction: Direction, x: int, y: int, isBackwards: bool)
  {
    var last := |word| - 1;
    0 <= x < gridSize && 0 <= y < gridSize &&
    match direction
    case Horizontal => if isBackwards then last <= x else x + last < gridSize
    case Vertical => if isBackwards then last <= y else y + last < gridSize
    case Diagonal =>
      if isBackwards then last <= x && last <= y else x + last < gridSize && y + last < gridSize
  }

  /** For a non-empty word, FitsOnGrid holds exactly when every cell the
      word would cover lies on the grid. */
  lemma FitsOnGridIff(word: string, gridSize: int, direction: Direction, x: int, y: int, isBackwards: bool)
    requires |word| >= 1
    ensures FitsOnGrid(word, gridSize, direction, x, y, isBackwards) <==>
      forall i :: 0 <= i < |word| ==> InGrid(WordCell(x, y, direction, isBackwards, i), gridSize)
  {
    var last := |word| - 1;
    var first, final := WordCell(x, y, direction, isBackwards, 0), WordCell(x, y, direction, isBackwards, last);
    var v := Directions.GetDirectionVector(direction, isBackwards);
    if FitsOnGrid(word, gridSize, direction, x, y, isBackwards) {
      forall i | 0 <= i < |word|
        ensures InGrid(WordCell(x, y, direction, isBackwards, i), gridSize)
      {
        assert i * v.x == i || i * v.x == -i || v.x == 0;
        assert i * v.y == i || i * v.y == -i || v.y == 0;
      }
    } else {
      assert last * v.x == last || last * v.x == -last || v.x == 0;
      assert last * v.y == last || last * v.y == -last || v.y == 0;
      assert !InGrid(first, gridSize) || !InGrid(final, gridSize);
    }
  }

  /** The normaliser as this file writes it, in one pass: trim and
      upper-case each word, keep it when it passes the three tests. */
  function ValidatePuzzleWords(words: seq<string>): (r: seq<string>)
    ensures |r| <= |words|
  {
    if words == [] then []
    else
      var w := Upper(Trim(words[0]));
      var keep :=
        if w == "" then false
        else if !WordValidation.MatchesCapitals(w) then false
        else if |w| < 2 || |w| > 15 then false
        else true;
      (if keep then [w] else []) + ValidatePuzzleWords(words[1..])
  }

  /** The copy in this file returns what the generator's normaliser returns,
      for every input. */
  lemma {:induction false} SameAsWordValidation(words: seq<string>)
    ensures ValidatePuzzleWords(words) == WordValidation.ValidatePuzzleWords(words)
  {
    if words != [] {
      SameAsWordValidation(words[1..]);
      WordValidation.ValidateConcat([words[0]], words[1..]);
      WordValidation.ValidateOne(words[0]);
      assert [words[0]] + words[1..] == words;
    }
  }
}
