/** A lattice node (`lbm::Grid`): exactly one of a fluid cell or a barrier,
    with every accessor delegated to the alternative it holds. */
module Grids {

  import opened Vectors
  import opened Directions
  import opened Slots
  import opened Bgk
  import Cells
  import Barriers

  datatype Grid = OfCell(cell: Cells.Cell) | OfBarrier(barrier: Barriers.Barrier)

  /** The alternative the `World` step asks about as `is_barrier()`. */
  predicate IsBarrier(g: Grid)
  {
    g.OfBarrier?
  }

  /** The populations of the held alternative. */
  function SlotsOf(g: Grid): Populations
  {
    match g
    case OfCell(c) => c.distribution
    case OfBarrier(b) => b.distribution
  }

  /** Reading slot `d` asks the held alternative. */
  function Distribution(g: Grid, d: Direction): (r: real)
    ensures r == Get(SlotsOf(g), d)
  {
    match g
    case OfCell(c) => Cells.Distribution(c, d)
    case OfBarrier(b) => Barriers.Distribution(b, d)
  }

  /** Writing slot `d` through the held alternative: the alternative stays,
      slot `d` reads back `v`, no other slot changes. */
  function SetDistribution(g: Grid, d: Direction, v: real): (r: Grid)
    ensures IsBarrier(r) == IsBarrier(g)
    ensures Distribution(r, d) == v
    ensures forall e | e != d :: Distribution(r, e) == Distribution(g, e)
  {
    match g
    case OfCell(c) => OfCell(Cells.SetDistribution(c, d, v))
    case OfBarrier(b) => OfBarrier(Barriers.SetDistribution(b, d, v))
  }

  /** All nine slots replaced at once, the alternative kept. */
  function WithSlots(g: Grid, f: Populations): (r: Grid)
    ensures IsBarrier(r) == IsBarrier(g) && SlotsOf(r) == f
  {
    match g
    case OfCell(_) => OfCell(Cells.Cell(f))
    case OfBarrier(_) => OfBarrier(Barriers.Barrier(f))
  }

  /** `density`: zero for a barrier, the sum of the slots for a cell. */
  function Density(g: Grid): (r: real)
    ensures IsBarrier(g) ==> r == 0.0
    ensures !IsBarrier(g) ==> r == Sum(SlotsOf(g))
  {
    match g
    case OfCell(c) => Cells.Density(c)
    case OfBarrier(b) => Barriers.Density(b)
  }

  /** `velocity(rho)`: zero for a barrier whatever `rho` is; for a cell, the
      velocity whose momentum at `rho` is the first moment, so `rho` must not
      be zero. */
  function Velocity(g: Grid, rho: real): (r: Vector)
    requires IsBarrier(g) || rho != 0.0
    ensures IsBarrier(g) ==> r == Zero
    ensures !IsBarrier(g) ==> Scale(r, rho) == FirstMoment(SlotsOf(g))
  {
    match g
    case OfCell(c) => Cells.Velocity(c, rho)
    case OfBarrier(b) => Barriers.Velocity(b, rho)
  }

  /** The equilibrium seeding of a node. A cell runs its `initialize`; a
      barrier has no such member and is left as it is. */
  method Initialize(g: Grid, model: BGK, rho: real, u: Vector) returns (g': Grid)
    ensures IsBarrier(g') == IsBarrier(g)
    ensures IsBarrier(g) ==> g' == g
    ensures !IsBarrier(g) ==> SlotsOf(g') == Equilibria(rho, u) && Density(g') == rho
  {
    match g
    case OfCell(c) =>
      var c' := Cells.Initialize(c, model, rho, u);
      g' := OfCell(c');
    case OfBarrier(_) =>
      g' := g;
  }

}
