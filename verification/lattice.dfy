/** Row-major addressing of an `nx` by `ny` periodic lattice: `idx_of` with
    its single wrap-around correction, the coordinates of a flat index, and
    the neighbour of a node in a direction. */
module Lattice {

  import opened Directions

  /** One periodic correction: a coordinate below zero gains `n`, one at or
      above `n` loses `n`, anything else is kept. */
  function Wrap(c: int, n: int): int
  {
    if c < 0 then c + n else if n <= c then c - n else c
  }

  /** A coordinate at most one period out lands in `[0, n)`; one inside is kept. */
  lemma WrapInRange(c: int, n: int)
    requires 1 <= n && -n <= c < 2 * n
    ensures 0 <= Wrap(c, n) < n
    ensures 0 <= c < n ==> Wrap(c, n) == c
  {
  }

  /** Wrapping a step and then the opposite step returns to the start. */
  lemma WrapBack(c: int, n: int, s: int)
    requires 1 <= n && 0 <= c < n && -1 <= s <= 1
    ensures Wrap(Wrap(c + s, n) - s, n) == c
  {
  }

  /** `idx_of(x, y)`: both coordinates wrapped once, then `y * nx + x`. */
  function IdxOf(nx: int, ny: int, x: int, y: int): (i: int)
    ensures 0 <= x < nx && 0 <= y < ny ==> i == y * nx + x
  {
    Wrap(y, ny) * nx + Wrap(x, nx)
  }

  /** Coordinates at most one period out of the lattice give an index of the lattice. */
  lemma IdxOfInRange(nx: int, ny: int, x: int, y: int)
    requires 1 <= nx && 1 <= ny
    requires -nx <= x < 2 * nx && -ny <= y < 2 * ny
    ensures 0 <= IdxOf(nx, ny, x, y) < nx * ny
  {
    WrapInRange(x, nx);
    WrapInRange(y, ny);
    RowMajorInRange(nx, ny, Wrap(x, nx), Wrap(y, ny));
  }

  /** `y * nx + x` lies in `[0, nx * ny)` for in-range coordinates. */
  lemma RowMajorInRange(nx: int, ny: int, x: int, y: int)
    requires 0 <= x < nx && 0 <= y < ny
    ensures 0 <= y * nx + x < nx * ny
  {
    MulMono(y, ny - 1, nx);
    MulMono(0, y, nx);
  }

  lemma MulMono(a: int, b: int, n: int)
    requires a <= b && 0 <= n
    ensures a * n <= b * n
  {
    assert b * n - a * n == (b - a) * n;
  }

  /** The column of a flat index. */
  function Col(nx: int, i: int): int
    requires 1 <= nx
  {
    i % nx
  }

  /** The row of a flat index. */
  function Row(nx: int, i: int): int
    requires 1 <= nx
  {
    i / nx
  }

  /** Column and row recover in-range coordinates from `y * nx + x`. */
  lemma FromCoords(nx: int, x: int, y: int)
    requires 0 <= x < nx
    ensures Col(nx, y * nx + x) == x && Row(nx, y * nx + x) == y
  {
    var i := y * nx + x;
    var q := i / nx;
    var r := i % nx;
    assert q * nx + r == y * nx + x;
    if q > y {
      MulMono(y + 1, q, nx);
      assert false;
    } else if q < y {
      MulMono(q + 1, y, nx);
      assert false;
    }
  }

  /** A flat index of the lattice has in-range coordinates and is their row-major index. */
  lemma CoordsOf(nx: int, ny: int, i: int)
    requires 1 <= nx && 0 <= i < nx * ny
    ensures 0 <= Col(nx, i) < nx && 0 <= Row(nx, i) < ny
    ensures i == Row(nx, i) * nx + Col(nx, i)
  {
    if Row(nx, i) >= ny {
      MulMono(ny, Row(nx, i), nx);
      assert false;
    }
  }

  /** `idx_of` is a bijection between in-range coordinates and `[0, nx * ny)`. */
  lemma IdxOfBijective(nx: int, ny: int, x: int, y: int, i: int)
    requires 1 <= nx && 1 <= ny
    requires 0 <= x < nx && 0 <= y < ny && 0 <= i < nx * ny
    ensures 0 <= IdxOf(nx, ny, x, y) < nx * ny
    ensures IdxOf(nx, ny, x, y) == i <==> (x == Col(nx, i) && y == Row(nx, i))
  {
    RowMajorInRange(nx, ny, x, y);
    FromCoords(nx, x, y);
    CoordsOf(nx, ny, i);
  }

  /** A single wrap does not reach coordinates further out: `idx_of(-5, 2)` on
      a 3 by 3 lattice is node `(1, 1)`, not a wrapped `(1, 2)`. */
  lemma IdxOfAliasesFarCoordinates()
    ensures IdxOf(3, 3, -5, 2) == IdxOf(3, 3, 1, 1) == 4
  {
  }

  /** The node one step in direction `d` from node `i`, with periodic wrap. */
  function Neighbour(nx: int, ny: int, i: int, d: Direction): int
    requires 1 <= nx
  {
    IdxOf(nx, ny, Col(nx, i) + Offset(d).0, Row(nx, i) + Offset(d).1)
  }

  /** The neighbour of a node of the lattice is a node of the lattice, and it
      is the index `idx_of` gives for the stepped coordinates. */
  lemma NeighbourInRange(nx: int, ny: int, x: int, y: int, d: Direction)
    requires 1 <= nx && 1 <= ny && 0 <= x < nx && 0 <= y < ny
    ensures Neighbour(nx, ny, y * nx + x, d) == IdxOf(nx, ny, x + Offset(d).0, y + Offset(d).1)
    ensures 0 <= Neighbour(nx, ny, y * nx + x, d) < nx * ny
  {
    FromCoords(nx, x, y);
    IdxOfInRange(nx, ny, x + Offset(d).0, y + Offset(d).1);
  }

  /** Neighbours of lattice nodes stay on the lattice. */
  lemma NeighbourOnLattice(nx: int, ny: int, i: int, d: Direction)
    requires 1 <= nx && 1 <= ny && 0 <= i < nx * ny
    ensures 0 <= Neighbour(nx, ny, i, d) < nx * ny
  {
    CoordsOf(nx, ny, i);
    NeighbourInRange(nx, ny, Col(nx, i), Row(nx, i), d);
  }

  /** Stepping in `d` and then in the opposite direction returns to the node. */
  lemma NeighbourBack(nx: int, ny: int, i: int, d: Direction)
    requires 1 <= nx && 1 <= ny && 0 <= i < nx * ny
    ensures Neighbour(nx, ny, Neighbour(nx, ny, i, d), BounceBack(d)) == i
  {
    var x, y := Col(nx, i), Row(nx, i);
    CoordsOf(nx, ny, i);
    var (dx, dy) := Offset(d);
    var x', y' := Wrap(x + dx, nx), Wrap(y + dy, ny);
    WrapInRange(x + dx, nx);
    WrapInRange(y + dy, ny);
    FromCoords(nx, x', y');
    WrapBack(x, nx, dx);
    WrapBack(y, ny, dy);
  }

  /** The node whose `d` neighbour is `j` is `j`'s neighbour against `d`. */
  lemma UpstreamInverse(nx: int, ny: int, j: int, d: Direction)
    requires 1 <= nx && 1 <= ny && 0 <= j < nx * ny
    ensures Neighbour(nx, ny, Neighbour(nx, ny, j, BounceBack(d)), d) == j
  {
    NeighbourBack(nx, ny, j, BounceBack(d));
    BounceBackInvolution(d);
  }

  /** `Self` stays at the node. */
  lemma NeighbourSelf(nx: int, ny: int, i: int)
    requires 1 <= nx && 1 <= ny && 0 <= i < nx * ny
    ensures Neighbour(nx, ny, i, Self) == i
  {
    CoordsOf(nx, ny, i);
    WrapInRange(Col(nx, i), nx);
    WrapInRange(Row(nx, i), ny);
  }

}
