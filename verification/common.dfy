/** The four movement directions of the game and the "opposite" relation between them. */
module Common {
  datatype Direction = Up | Down | Left | Right

  /** `is_opposite_to`: `a` and `b` point in opposite directions, Up/Down or Left/Right. */
  predicate IsOppositeTo(a: Direction, b: Direction)
    ensures IsOppositeTo(a, b) <==> a != b && IsVertical(a) == IsVertical(b)
  {
    || (a == Up && b == Down)
    || (a == Down && b == Up)
    || (a == Left && b == Right)
    || (a == Right && b == Left)
  }

  predicate IsVertical(d: Direction)
  {
    d == Up || d == Down
  }

  /** The one direction opposite to `d`. */
  function Opposite(d: Direction): (r: Direction)
    ensures IsOppositeTo(d, r)
    ensures IsVertical(r) == IsVertical(d)
  {
    match d
    case Up => Down
    case Down => Up
    case Left => Right
    case Right => Left
  }

  lemma OppositeIsSymmetric(a: Direction, b: Direction)
    ensures IsOppositeTo(a, b) <==> IsOppositeTo(b, a)
  {
  }

  lemma OppositeIsIrreflexive(d: Direction)
    ensures !IsOppositeTo(d, d)
  {
  }

  /** Every direction has exactly one opposite, the one `Opposite` names. */
  lemma OppositeIsUnique(a: Direction, b: Direction)
    ensures IsOppositeTo(a, b) <==> b == Opposite(a)
  {
  }

  /** A vertical direction is never opposite to a horizontal one. */
  lemma OppositeKeepsAxis(a: Direction, b: Direction)
    requires IsVertical(a) != IsVertical(b)
    ensures !IsOppositeTo(a, b)
  {
  }
}
