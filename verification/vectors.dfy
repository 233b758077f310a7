/** Two-dimensional vectors over the reals: the macroscopic velocity of a cell
    and the lattice velocity of a direction (`lbm::Vector`). */
module Vectors {

  datatype Vector = Vector(x: real, y: real)

  const Zero: Vector := Vector(0.0, 0.0)

  /** Unary minus: the additive inverse, of the same length. */
  function Neg(v: Vector): (r: Vector)
    ensures Add(v, r) == Zero
  {
    Vector(-v.x, -v.y)
  }

  function Add(a: Vector, b: Vector): Vector
  {
    Vector(a.x + b.x, a.y + b.y)
  }

  /** Binary minus: adding `b` back gives `a` again, and it is addition of `-b`. */
  function Sub(a: Vector, b: Vector): (r: Vector)
    ensures Add(r, b) == a
    ensures r == Add(a, Neg(b))
  {
    Vector(a.x - b.x, a.y - b.y)
  }

  /** `v * a`. */
  function Scale(v: Vector, a: real): Vector
  {
    Vector(v.x * a, v.y * a)
  }

  /** `a * v`: the second overload, which agrees with `v * a`. */
  function ScaleLeft(a: real, v: Vector): (r: Vector)
    ensures r == Scale(v, a)
  {
    Vector(a * v.x, a * v.y)
  }

  function Dot(a: Vector, b: Vector): real
  {
    a.x * b.x + a.y * b.y
  }

  /** The squared Euclidean length, the dot product of `v` with itself: never negative. */
  function LengthSq(v: Vector): (r: real)
    ensures r >= 0.0
  {
    Square(v.x);
    Square(v.y);
    Dot(v, v)
  }

  /** Negation preserves the squared length. */
  lemma LengthSqNeg(v: Vector)
    ensures LengthSq(Neg(v)) == LengthSq(v)
  {
    NegatedSquare(v.x, -v.x);
    NegatedSquare(v.y, -v.y);
  }

  /** A real square is never negative. */
  lemma Square(a: real)
    ensures a * a >= 0.0
  {
    if a < 0.0 {
      NegatedSquare(a, -a);
    }
  }

  lemma NegatedSquare(a: real, b: real)
    requires b == -a
    ensures a * a == b * b
  {
  }

  lemma DotSymmetric(a: Vector, b: Vector)
    ensures Dot(a, b) == Dot(b, a)
  {
  }

  lemma AddCommutes(a: Vector, b: Vector)
    ensures Add(a, b) == Add(b, a)
  {
  }

}
