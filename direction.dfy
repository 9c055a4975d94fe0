/** Direction vectors: a direction and the backwards flag give the unit
    step between consecutive letters of a word. */
module Directions {

  import opened Types

  datatype Vector = Vector(x: int, y: int)

  /** `getDirectionVector`. Forwards, horizontal steps right, vertical steps
      down and diagonal steps down-right; backwards negates both components.
      The closed datatype leaves no room for the source's "Invalid direction"
      branch. */
  function GetDirectionVector(direction: Direction, isBackwards: bool): (v: Vector)
    ensures -1 <= v.x <= 1 && -1 <= v.y <= 1 && v != Vector(0, 0)
    ensures direction == Horizontal ==> v.y == 0 && (v.x == -1 <==> isBackwards)
    ensures direction == Vertical ==> v.x == 0 && (v.y == -1 <==> isBackwards)
    ensures direction == Diagonal ==> v.x == v.y && (v.x == -1 <==> isBackwards)
  {
    var sign := if isBackwards then -1 else 1;
    match direction
    case Horizontal => Vector(sign, 0)
    case Vertical => Vector(0, sign)
    case Diagonal => Vector(sign, sign)
  }

  /** For every direction, the backwards vector is the forwards vector
      negated component by component. */
  lemma BackwardsNegates(direction: Direction)
    ensures GetDirectionVector(direction, true) ==
      Vector(-GetDirectionVector(direction, false).x, -GetDirectionVector(direction, false).y)
  {
  }

  /** The vector determines the direction and the orientation: no two
      pairs share a step. */
  lemma VectorInjective(d1: Direction, b1: bool, d2: Direction, b2: bool)
    requires GetDirectionVector(d1, b1) == GetDirectionVector(d2, b2)
    ensures d1 == d2 && b1 == b2
  {
  }
}
