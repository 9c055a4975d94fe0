/** src/utils/puzzle/placement.ts: where a candidate placement starts, and
    the choice of direction the generator draws for it. `Math.random()` is an
    arbitrary real in [0, 1): `getRandomPosition` receives its draws as the
    parameters `rx` and `ry`, and `getRandomDirection` picks with `:|`. */
module Placement {

  import opened Wrappers
  import opened Types
  import opened Directions
  import opened WordPlacement

  /** `Math.max` on two integers. */
  function Max(a: int, b: int): (m: int)
    ensures m >= a && m >= b && (m == a || m == b)
  {
    if a >= b then a else b
  }

  /** `Math.min` on two integers. */
  function Min(a: int, b: int): (m: int)
    ensures m <= a && m <= b && (m == a || m == b)
  {
    if a <= b then a else b
  }

  /** `Math.floor(u * k)` for a draw `u` in [0, 1): a value in [0, k) when
      `k` is positive, and in [k, 0] otherwise. */
  function RandomBelow(u: real, k: int): (r: int)
    requires 0.0 <= u < 1.0
    ensures k >= 1 ==> 0 <= r < k
    ensures k <= 0 ==> k <= r <= 0
  {
    DrawBelow(u, k);
    (u * k as real).Floor
  }

  lemma DrawBelow(u: real, k: int)
    requires 0.0 <= u < 1.0
    ensures k >= 1 ==> 0 <= (u * k as real).Floor < k
    ensures k <= 0 ==> k <= (u * k as real).Floor <= 0
  {
    var p := u * k as real;
    ScaledDraw(u, k as real);
    FloorWithin(p, k);
  }

  lemma FloorWithin(p: real, k: int)
    ensures k >= 1 && 0.0 <= p < k as real ==> 0 <= p.Floor < k
    ensures k <= 0 && k as real <= p <= 0.0 ==> k <= p.Floor <= 0
  {
  }

  /** `u * k` for `u` in [0, 1) lies between 0 and `k`, and short of `k`
      when `k` is positive. */
  lemma ScaledDraw(u: real, k: real)
    requires 0.0 <= u < 1.0
    ensures k > 0.0 ==> 0.0 <= u * k < k
    ensures k <= 0.0 ==> k <= u * k <= 0.0
  {
    var w := 1.0 - u;
    assert u * k + w * k == k;
    if k > 0.0 {
      PositiveProduct(w, k);
    } else {
      NonPositiveProduct(u, k);
      NonPositiveProduct(w, k);
    }
  }

  lemma PositiveProduct(a: real, b: real)
    requires a > 0.0 && b > 0.0
    ensures a * b > 0.0
  {
  }

  lemma NonPositiveProduct(a: real, b: real)
    requires a >= 0.0 && b <= 0.0
    ensures a * b <= 0.0
  {
  }

  /** `getRandomPosition`: the start drawn in the `switch`, then, for a
      backwards word, the word-axis coordinates clamped to
      `max(wordLength - 1, min(c, gridSize - 1))`. */
  function GetRandomPosition(gridSize: int, wordLength: int, direction: Direction,
                             isBackwards: bool, rx: real, ry: real): (p: Position)
    requires 0.0 <= rx < 1.0 && 0.0 <= ry < 1.0
    // a backwards start is pinned on the word's axis, whatever was drawn
    ensures isBackwards && direction != Vertical ==> p.x == Max(wordLength - 1, gridSize - 1)
    ensures isBackwards && direction != Horizontal ==> p.y == Max(wordLength - 1, gridSize - 1)
    // a forwards start leaves room for the whole word on the word's axis
    ensures !isBackwards && direction != Vertical && wordLength <= gridSize ==>
      0 <= p.x <= gridSize - wordLength
    ensures !isBackwards && direction != Horizontal && wordLength <= gridSize ==>
      0 <= p.y <= gridSize - wordLength
    // the coordinate across the word's axis is anywhere on the grid
    ensures direction == Horizontal && gridSize >= 1 ==> 0 <= p.y < gridSize
    ensures direction == Vertical && gridSize >= 1 ==> 0 <= p.x < gridSize
  {
    var availableSpace := gridSize - wordLength;
    var drawn :=
      match direction
      case Horizontal =>
        if isBackwards then Position(gridSize - 1, RandomBelow(ry, gridSize))
        else Position(RandomBelow(rx, availableSpace + 1), RandomBelow(ry, gridSize))
      case Vertical =>
        if isBackwards then Position(RandomBelow(rx, gridSize), gridSize - 1)
        else Position(RandomBelow(rx, gridSize), RandomBelow(ry, availableSpace + 1))
      case Diagonal =>
        if isBackwards then Position(gridSize - 1, gridSize - 1)
        else Position(RandomBelow(rx, availableSpace + 1), RandomBelow(ry, availableSpace + 1));
    var clampX := Max(wordLength - 1, Min(drawn.x, gridSize - 1));
    var clampY := Max(wordLength - 1, Min(drawn.y, gridSize - 1));
    if !isBackwards then drawn
    else
      match direction
      case Horizontal => drawn.(x := clampX)
      case Vertical => drawn.(y := clampY)
      case Diagonal => Position(clampX, clampY)
  }

  /** A backwards diagonal start is the single corner point
      `max(wordLength - 1, gridSize - 1)` on both axes. */
  lemma BackwardsDiagonalIsFixed(gridSize: int, wordLength: int, rx: real, ry: real, rx': real, ry': real)
    requires 0.0 <= rx < 1.0 && 0.0 <= ry < 1.0 && 0.0 <= rx' < 1.0 && 0.0 <= ry' < 1.0
    ensures GetRandomPosition(gridSize, wordLength, Diagonal, true, rx, ry) ==
            GetRandomPosition(gridSize, wordLength, Diagonal, true, rx', ry')
    ensures var m := Max(wordLength - 1, gridSize - 1);
      GetRandomPosition(gridSize, wordLength, Diagonal, true, rx, ry) == Position(m, m)
  {
  }

  /** When the word is no longer than the grid, every cell of every
      candidate lies on the grid. */
  lemma CandidateInBounds(gridSize: int, wordLength: int, direction: Direction,
                          isBackwards: bool, rx: real, ry: real)
    requires 0.0 <= rx < 1.0 && 0.0 <= ry < 1.0
    requires 0 <= wordLength <= gridSize
    ensures var p := GetRandomPosition(gridSize, wordLength, direction, isBackwards, rx, ry);
      forall i :: 0 <= i < wordLength ==>
        InGrid(WordCell(p.x, p.y, direction, isBackwards, i), gridSize)
  {
    var p := GetRandomPosition(gridSize, wordLength, direction, isBackwards, rx, ry);
    forall i | 0 <= i < wordLength
      ensures InGrid(WordCell(p.x, p.y, direction, isBackwards, i), gridSize)
    {
      var v := GetDirectionVector(direction, isBackwards);
      assert i * v.x == i || i * v.x == -i || v.x == 0;
      assert i * v.y == i || i * v.y == -i || v.y == 0;
    }
  }

  /** A direction and an orientation, as `getRandomDirection` returns them. */
  datatype DirectionChoice = DirectionChoice(direction: Direction, isBackwards: bool)

  /** `getRandomDirection(directions, allowBackwards)`, which the generator
      imports from this file although the file does not define it: some
      direction from the list, backwards only when backwards words are
      allowed. An empty list leaves nothing to pick; the model then returns
      `None` by choice. */
  method GetRandomDirection(directions: seq<Direction>, allowBackwards: bool)
    returns (choice: Option<DirectionChoice>)
    ensures choice.None? <==> directions == []
    ensures choice.Some? ==> choice.value.direction in directions
    ensures choice.Some? && choice.value.isBackwards ==> allowBackwards
  {
    if directions == [] {
      return None;
    }
    assert directions[0] in directions;
    var d :| d in directions;
    var coin: bool :| true;
    return Some(DirectionChoice(d, allowBackwards && coin));
  }
}
