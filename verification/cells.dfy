/** A fluid node (`lbm::Cell`): nine populations whose zeroth moment is the
    density and whose first moment, divided by the density, is the velocity. */
module Cells {

  import opened Vectors
  import opened Directions
  import opened Slots
  import opened Bgk

  datatype Cell = Cell(distribution: Populations)

  /** Reading slot `d`. */
  function Distribution(c: Cell, d: Direction): real
  {
    Get(c.distribution, d)
  }

  /** Writing slot `d` through the reference `distribution(d)` returns: only
      that slot changes. */
  function SetDistribution(c: Cell, d: Direction, v: real): (c': Cell)
    ensures Distribution(c', d) == v
    ensures forall e | e != d :: Distribution(c', e) == Distribution(c, e)
  {
    Cell(Set(c.distribution, d, v))
  }

  /** `initialize`: every slot, in `all_dirs` order, is overwritten with its
      equilibrium for `(rho, u)`; what the cell held before does not matter.
      The cell then has density `rho` and, when `rho` is not zero, velocity `u`. */
  method Initialize(c: Cell, model: BGK, rho: real, u: Vector) returns (c': Cell)
    ensures c'.distribution == Equilibria(rho, u)
    ensures Density(c') == rho
    ensures rho != 0.0 ==> Velocity(c', rho) == u
  {
    ghost var eq := Equilibria(rho, u);
    c' := c;
    var k := 0;
    while k < |AllDirs|
      invariant 0 <= k <= |AllDirs|
      invariant forall i | 0 <= i < k :: c'.distribution[i] == eq[i]
    {
      var dir := AllDirs[k];
      IndexAt(k);
      EquilibriaSlot(k, rho, u);
      c' := SetDistribution(c', dir, Equilibrium(dir, rho, u));
      k := k + 1;
    }
    assert c'.distribution == eq;
    EquilibriumMass(rho, u);
    if rho != 0.0 {
      EquilibriumMomentum(rho, u);
      VelocityOfMoment(c', rho, u);
    }
  }

  /** `density`: the slots added up from `Self` to `RightDown`. */
  function Density(c: Cell): (r: real)
    ensures r == Distribution(c, Self) + Distribution(c, Right) + Distribution(c, RightUp)
               + Distribution(c, Up) + Distribution(c, LeftUp) + Distribution(c, Left)
               + Distribution(c, LeftDown) + Distribution(c, Down) + Distribution(c, RightDown)
  {
    SumOfNine(c.distribution);
    Sum(c.distribution)
  }

  /** `velocity(rho)`: the net right-minus-left and up-minus-down populations,
      each multiplied by `1 / rho`. Multiplying back by `rho` gives the first
      moment, the sum over directions of lattice velocity times population. */
  function Velocity(c: Cell, rho: real): (r: Vector)
    requires rho != 0.0
    ensures Scale(r, rho) == FirstMoment(c.distribution)
  {
    var rhoInv := 1.0 / rho;
    var xElem := Distribution(c, Right) + Distribution(c, RightUp) + Distribution(c, RightDown)
               - Distribution(c, Left) - Distribution(c, LeftUp) - Distribution(c, LeftDown);
    var yElem := Distribution(c, RightUp) + Distribution(c, Up) + Distribution(c, LeftUp)
               - Distribution(c, RightDown) - Distribution(c, Down) - Distribution(c, LeftDown);
    FirstMomentOfNine(c.distribution);
    Unscale(rho, xElem);
    Unscale(rho, yElem);
    Vector(rhoInv * xElem, rhoInv * yElem)
  }

  /** `(1 / rho) * a * rho == a` for a non-zero `rho`. */
  lemma Unscale(rho: real, a: real)
    requires rho != 0.0
    ensures (1.0 / rho) * a * rho == a
  {
  }

  /** A velocity is determined by its momentum at a non-zero density. */
  lemma VelocityOfMoment(c: Cell, rho: real, u: Vector)
    requires rho != 0.0
    requires FirstMoment(c.distribution) == Scale(u, rho)
    ensures Velocity(c, rho) == u
  {
    var r := Velocity(c, rho);
    CancelScale(rho, r.x, u.x);
    CancelScale(rho, r.y, u.y);
  }

  lemma CancelScale(rho: real, a: real, b: real)
    requires rho != 0.0
    requires a * rho == b * rho
    ensures a == b
  {
    assert (a - b) * rho == 0.0;
  }

  /** `velocity()`: the velocity at the cell's own density, whose momentum is
      the cell's first moment. */
  function OwnVelocity(c: Cell): (r: Vector)
    requires Density(c) != 0.0
    ensures Scale(r, Density(c)) == FirstMoment(c.distribution)
  {
    Velocity(c, Density(c))
  }

}
