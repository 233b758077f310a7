/** The simulation (`lbm::World`): an `nx` by `ny` periodic lattice of nodes
    stored row-major, a second buffer of nodes of the same kinds, the cached
    density and velocity of every node, and the collision model. */
module Worlds {

  import opened Optional
  import opened Vectors
  import opened Directions
  import opened Slots
  import opened Bgk
  import opened Grids
  import opened Lattice
  import opened Phases
  import Cells

  datatype World = World(
    nx: int,
    ny: int,
    grids: seq<Grid>,
    buffer: seq<Grid>,
    density: seq<real>,
    velocity: seq<Vector>,
    bgk: BGK)

  /** Non-negative dimensions, one entry per node in each sequence, and the
      buffer holding the same alternative as the lattice at every node. */
  ghost predicate Valid(w: World)
  {
    0 <= w.nx && 0 <= w.ny &&
    |w.grids| == w.nx * w.ny && |w.density| == |w.grids| && |w.velocity| == |w.grids| &&
    SameKinds(w.buffer, w.grids)
  }

  /** A fluid node with all populations zero: the value a fresh node holds. */
  const EmptyCell: Grid := OfCell(Cells.Cell([0.0, 0.0, 0.0, 0.0, 0.0, 0.0, 0.0, 0.0, 0.0]))

  /** The constructor: `nx * ny` fresh fluid nodes in both sequences, zero
      caches, and the given model. */
  function MakeWorld(nx: int, ny: int, bgk: BGK): (w: World)
    requires 0 <= nx && 0 <= ny
    ensures Valid(w) && w.nx == nx && w.ny == ny && w.bgk == bgk
    ensures forall i | 0 <= i < |w.grids| ::
      !IsBarrier(w.grids[i]) && w.density[i] == 0.0 && w.velocity[i] == Zero
  {
    var n := nx * ny;
    World(nx, ny, seq(n, _ => EmptyCell), seq(n, _ => EmptyCell),
          seq(n, _ => 0.0), seq(n, _ => Zero), bgk)
  }

  /** `size_x`. */
  function SizeX(w: World): int
  {
    w.nx
  }

  /** `size_y`. */
  function SizeY(w: World): int
  {
    w.ny
  }

  /** The flat index `idx_of` gives for `(x, y)`, when it names a node;
      `std::vector::at` throws for any other index. */
  function NodeIndex(w: World, x: int, y: int): (r: Option<int>)
    requires Valid(w)
    ensures r.Some? <==> 0 <= IdxOf(w.nx, w.ny, x, y) < |w.grids|
    ensures r.Some? ==> r.value == IdxOf(w.nx, w.ny, x, y)
    ensures 0 <= x < w.nx && 0 <= y < w.ny ==> r == Some(y * w.nx + x)
  {
    CoordinatesInRange(w.nx, w.ny, x, y);
    var i := IdxOf(w.nx, w.ny, x, y);
    if 0 <= i < |w.grids| then Some(i) else None
  }

  lemma CoordinatesInRange(nx: int, ny: int, x: int, y: int)
    ensures 0 <= x < nx && 0 <= y < ny ==> 0 <= y * nx + x < nx * ny
  {
    if 0 <= x < nx && 0 <= y < ny {
      RowMajorInRange(nx, ny, x, y);
    }
  }

  /** `at(x, y)`: the node at the wrapped coordinates. */
  function At(w: World, x: int, y: int): (r: Option<Grid>)
    requires Valid(w)
    ensures r.Some? <==> NodeIndex(w, x, y).Some?
    ensures r.Some? ==> r.value == w.grids[NodeIndex(w, x, y).value]
  {
    match NodeIndex(w, x, y)
    case None => None
    case Some(i) => Some(w.grids[i])
  }

  /** `density_at(x, y)`: the cached density. */
  function DensityAt(w: World, x: int, y: int): (r: Option<real>)
    requires Valid(w)
    ensures r.Some? <==> NodeIndex(w, x, y).Some?
    ensures r.Some? ==> r.value == w.density[NodeIndex(w, x, y).value]
  {
    match NodeIndex(w, x, y)
    case None => None
    case Some(i) => Some(w.density[i])
  }

  /** `velocity_at(x, y)`: the cached velocity. */
  function VelocityAt(w: World, x: int, y: int): (r: Option<Vector>)
    requires Valid(w)
    ensures r.Some? <==> NodeIndex(w, x, y).Some?
    ensures r.Some? ==> r.value == w.velocity[NodeIndex(w, x, y).value]
  {
    match NodeIndex(w, x, y)
    case None => None
    case Some(i) => Some(w.velocity[i])
  }

  /** At a node of the lattice, `at`, `density_at` and `velocity_at` read
      entry `y * nx + x` of the lattice and of the two caches. */
  lemma AccessorsAtNode(w: World, x: int, y: int)
    requires Valid(w) && 0 <= x < w.nx && 0 <= y < w.ny
    ensures 0 <= y * w.nx + x < |w.grids|
    ensures At(w, x, y) == Some(w.grids[y * w.nx + x])
    ensures DensityAt(w, x, y) == Some(w.density[y * w.nx + x])
    ensures VelocityAt(w, x, y) == Some(w.velocity[y * w.nx + x])
  {
    RowMajorInRange(w.nx, w.ny, x, y);
  }

  /** The accessors are periodic: one period to the left or right, or below
      or above, names the same node. */
  lemma AccessorsPeriodic(w: World, x: int, y: int)
    requires Valid(w) && 0 <= x < w.nx && 0 <= y < w.ny
    ensures At(w, x - w.nx, y) == At(w, x, y) == At(w, x + w.nx, y)
    ensures At(w, x, y - w.ny) == At(w, x, y) == At(w, x, y + w.ny)
    ensures DensityAt(w, x - w.nx, y) == DensityAt(w, x, y) == DensityAt(w, x + w.nx, y)
    ensures DensityAt(w, x, y - w.ny) == DensityAt(w, x, y) == DensityAt(w, x, y + w.ny)
    ensures VelocityAt(w, x - w.nx, y) == VelocityAt(w, x, y) == VelocityAt(w, x + w.nx, y)
    ensures VelocityAt(w, x, y - w.ny) == VelocityAt(w, x, y) == VelocityAt(w, x, y + w.ny)
  {
    WrapInRange(x - w.nx, w.nx);
    WrapInRange(x + w.nx, w.nx);
    WrapInRange(y - w.ny, w.ny);
    WrapInRange(y + w.ny, w.ny);
    AccessorsAtNode(w, x, y);
  }

  /** `set_grid(x, y, g)`: the same node written into the buffer and into the
      lattice at one index; nothing else changes, and the kinds still agree.
      `None` when the index names no node. */
  function SetGrid(w: World, x: int, y: int, g: Grid): (r: Option<World>)
    requires Valid(w)
    ensures r.Some? <==> NodeIndex(w, x, y).Some?
    ensures r.Some? ==> Valid(r.value)
    ensures r.Some? ==>
      var i := NodeIndex(w, x, y).value;
      r.value == w.(grids := w.grids[i := g], buffer := w.buffer[i := g])
    ensures r.Some? ==> At(r.value, x, y) == Some(g)
  {
    match NodeIndex(w, x, y)
    case None => None
    case Some(i) => Some(w.(buffer := w.buffer[i := g], grids := w.grids[i := g]))
  }

  /** `initialize(x, y, rho, u)`: the caches at one index become `(rho, u)`
      and the lattice node there is seeded with the equilibrium (a barrier is
      left as it is); the buffer and every other index are untouched. `None`
      when the index names no node. */
  method Initialize(w: World, x: int, y: int, rho: real, u: Vector) returns (r: Option<World>)
    requires Valid(w)
    ensures r.Some? <==> NodeIndex(w, x, y).Some?
    ensures r.Some? ==> Valid(r.value)
    ensures r.Some? ==>
      var i := NodeIndex(w, x, y).value;
      var w' := r.value;
      w'.nx == w.nx && w'.ny == w.ny && w'.bgk == w.bgk && w'.buffer == w.buffer &&
      w'.density == w.density[i := rho] && w'.velocity == w.velocity[i := u] &&
      (forall j | 0 <= j < |w.grids| && j != i :: w'.grids[j] == w.grids[j]) &&
      IsBarrier(w'.grids[i]) == IsBarrier(w.grids[i]) &&
      (IsBarrier(w.grids[i]) ==> w'.grids[i] == w.grids[i]) &&
      (!IsBarrier(w.grids[i]) ==> SlotsOf(w'.grids[i]) == Equilibria(rho, u))
    ensures r.Some? ==>
      DensityAt(r.value, x, y) == Some(rho) && VelocityAt(r.value, x, y) == Some(u) &&
      (!IsBarrier(At(w, x, y).value) ==> Grids.Density(At(r.value, x, y).value) == rho)
  {
    var idx := NodeIndex(w, x, y);
    if idx.None? {
      return None;
    }
    var i := idx.value;
    var g := Grids.Initialize(w.grids[i], w.bgk, rho, u);
    r := Some(w.(density := w.density[i := rho], velocity := w.velocity[i := u], grids := w.grids[i := g]));
  }

  /** The relation one `step` establishes between the world before and after:
      - the buffer (the lattice before the swap) holds every node relaxed
        towards the equilibrium of its cached density and velocity;
      - a slot whose upstream node is fluid holds the relaxed population of
        that upstream node;
      - a fluid slot whose upstream node is a barrier holds the node's own
        relaxed population of the opposite direction;
      - the caches hold the new density and velocity of every node. */
  ghost predicate Steps(w: World, w': World)
    requires Valid(w)
  {
    Valid(w') && w'.nx == w.nx && w'.ny == w.ny && w'.bgk == w.bgk &&
    SameKinds(w'.grids, w.grids) &&
    CollidedAll(w.bgk, w.grids, w.density, w.velocity, w'.buffer) &&
    (1 <= w.nx ==>
      (forall j, e | 0 <= j < |w.grids| && !BarrierAt(w.grids, Neighbour(w.nx, w.ny, j, BounceBack(e))) ::
         Slot(w'.grids, j, e) == Slot(w'.buffer, Neighbour(w.nx, w.ny, j, BounceBack(e)), e)) &&
      (forall j, e | 0 <= j < |w.grids| && !BarrierAt(w.grids, j) && BarrierAt(w.grids, Neighbour(w.nx, w.ny, j, BounceBack(e))) ::
         Slot(w'.grids, j, e) == Slot(w'.buffer, j, BounceBack(e)))) &&
    Cached(w'.grids, w'.density, w'.velocity)
  }

  /** `step`: collide, stream, bounce, swap, recompute. */
  method Step(w: World) returns (w': World)
    requires Valid(w)
    ensures Steps(w, w')
  {
    var nx, ny := w.nx, w.ny;
    var grids := CollidePhase(w.bgk, w.grids, w.density, w.velocity);
    var buffer := w.buffer;
    if 1 <= nx && 1 <= ny {
      buffer := StreamPhase(nx, ny, grids, buffer);
      ghost var streamed := buffer;
      buffer := BouncePhase(nx, ny, buffer);
      StreamThenBounce(nx, ny, w.grids, grids, w.buffer, streamed, buffer);
    } else {
      EmptyLattice(nx, ny);
    }
    grids, buffer := buffer, grids;
    var density, velocity := RecomputePhase(grids);
    w' := w.(grids := grids, buffer := buffer, density := density, velocity := velocity);
  }

  /** After a step the accessors report the new lattice: a node keeps its
      alternative, the cached density is the node's density, a barrier
      reports density 0 and velocity (0, 0), and a fluid node reports the
      velocity whose momentum at its density is its first moment, or (0, 0)
      at density zero. */
  lemma StepReports(w: World, w': World, x: int, y: int)
    requires Valid(w) && Steps(w, w')
    requires 0 <= x < w.nx && 0 <= y < w.ny
    ensures At(w, x, y).Some? && At(w', x, y).Some? && DensityAt(w', x, y).Some? && VelocityAt(w', x, y).Some?
    ensures IsBarrier(At(w', x, y).value) == IsBarrier(At(w, x, y).value)
    ensures DensityAt(w', x, y).value == Grids.Density(At(w', x, y).value)
    ensures IsBarrier(At(w, x, y).value) ==> DensityAt(w', x, y) == Some(0.0) && VelocityAt(w', x, y) == Some(Zero)
    ensures !IsBarrier(At(w, x, y).value) && DensityAt(w', x, y).value != 0.0 ==>
      Scale(VelocityAt(w', x, y).value, DensityAt(w', x, y).value) == FirstMoment(SlotsOf(At(w', x, y).value))
    ensures !IsBarrier(At(w, x, y).value) && DensityAt(w', x, y).value == 0.0 ==> VelocityAt(w', x, y) == Some(Zero)
  {
    AccessorsAtNode(w, x, y);
    AccessorsAtNode(w', x, y);
    var i := y * w.nx + x;
    assert IsBarrier(w'.grids[i]) == IsBarrier(w.grids[i]);
    assert w'.density[i] == Grids.Density(w'.grids[i]);
  }

  /** A lattice with a zero dimension has no nodes. */
  lemma EmptyLattice(nx: int, ny: int)
    requires 0 <= nx && 0 <= ny && !(1 <= nx && 1 <= ny)
    ensures nx * ny == 0
  {
  }

  /** Streaming and then bouncing, in terms of the relaxed lattice `c`. */
  lemma StreamThenBounce(nx: int, ny: int, gs: seq<Grid>, c: seq<Grid>, buffer: seq<Grid>, s: seq<Grid>, b: seq<Grid>)
    requires SameKinds(c, gs) && SameKinds(buffer, gs)
    requires Streamed(nx, ny, c, buffer, s)
    requires Bounced(nx, ny, s, b)
    ensures SameKinds(b, gs)
    ensures forall j, e | 0 <= j < |gs| && !BarrierAt(gs, Neighbour(nx, ny, j, BounceBack(e))) ::
      Slot(b, j, e) == Slot(c, Neighbour(nx, ny, j, BounceBack(e)), e)
    ensures forall j, e | 0 <= j < |gs| && !BarrierAt(gs, j) && BarrierAt(gs, Neighbour(nx, ny, j, BounceBack(e))) ::
      Slot(b, j, e) == Slot(c, j, BounceBack(e))
  {
    forall j, e | 0 <= j < |gs| && !BarrierAt(gs, j) && BarrierAt(gs, Neighbour(nx, ny, j, BounceBack(e)))
      ensures Slot(b, j, e) == Slot(c, j, BounceBack(e))
    {
      var p := Neighbour(nx, ny, j, BounceBack(e));
      assert Slot(b, j, e) == Slot(s, p, BounceBack(e));
      NeighbourOnLattice(nx, ny, j, BounceBack(e));
      UpstreamInverse(nx, ny, j, e);
      BounceBackInvolution(e);
      assert Slot(s, p, BounceBack(e)) == Slot(c, Neighbour(nx, ny, p, e), BounceBack(e));
    }
  }

  /** A lattice of fluid nodes all at the equilibrium of one `(rho, u)`, with
      the caches holding `(rho, u)` and `rho` not zero, is a fixed point of
      `step`: populations and caches come out as they went in. */
  lemma UniformEquilibriumIsFixed(w: World, w': World, rho: real, u: Vector)
    requires Valid(w) && rho != 0.0
    requires forall i | 0 <= i < |w.grids| ::
      !IsBarrier(w.grids[i]) && SlotsOf(w.grids[i]) == Equilibria(rho, u) &&
      w.density[i] == rho && w.velocity[i] == u
    requires Steps(w, w')
    ensures w'.grids == w.grids && w'.density == w.density && w'.velocity == w.velocity
  {
    var eq := Equilibria(rho, u);
    forall i | 0 <= i < |w.grids|
      ensures SlotsOf(w'.buffer[i]) == eq
    {
      CollideKeepsEquilibrium(w.bgk, rho, u, SlotsOf(w'.buffer[i]));
    }
    forall j | 0 <= j < |w.grids|
      ensures w'.grids[j] == w.grids[j]
    {
      if !(1 <= w.nx && 1 <= w.ny) {
        EmptyLattice(w.nx, w.ny);
      }
      NodesAgree(w.nx, w.ny, w.grids, w'.grids, w'.buffer, j, eq);
    }
    assert w'.grids == w.grids;
    EquilibriumMass(rho, u);
    EquilibriumMomentum(rho, u);
    forall i | 0 <= i < |w.grids|
      ensures w'.density[i] == rho && w'.velocity[i] == u
    {
      Cells.VelocityOfMoment(w.grids[i].cell, rho, u);
    }
  }

  /** In a lattice without barriers whose relaxed nodes all hold `eq`, every
      node of the new lattice holds `eq` again. */
  lemma NodesAgree(nx: int, ny: int, gs: seq<Grid>, gs': seq<Grid>, buffer: seq<Grid>, j: int, eq: Populations)
    requires 1 <= nx && 1 <= ny && |gs| == nx * ny && |buffer| == nx * ny && SameKinds(gs', gs)
    requires 0 <= j < |gs|
    requires forall i | 0 <= i < |gs| :: !IsBarrier(gs[i]) && SlotsOf(gs[i]) == eq
    requires forall i | 0 <= i < |buffer| :: SlotsOf(buffer[i]) == eq
    requires forall i, e | 0 <= i < |gs| && !BarrierAt(gs, Neighbour(nx, ny, i, BounceBack(e))) ::
      Slot(gs', i, e) == Slot(buffer, Neighbour(nx, ny, i, BounceBack(e)), e)
    ensures gs'[j] == gs[j]
  {
    forall e
      ensures Get(SlotsOf(gs'[j]), e) == Get(eq, e)
    {
      NeighbourOnLattice(nx, ny, j, BounceBack(e));
      assert Slot(gs', j, e) == Slot(buffer, Neighbour(nx, ny, j, BounceBack(e)), e);
    }
    Extensionality(SlotsOf(gs'[j]), eq);
  }

  /** `rot_z(x, y)`: half the difference of the central differences of the
      cached velocity, `dv_y/dx - dv_x/dy`, over the wrapped neighbours. `None`
      when any of the four indices names no node, which cannot happen for a
      node of the lattice. */
  function RotZ(w: World, x: int, y: int): (r: Option<real>)
    requires Valid(w)
    ensures 1 <= w.nx && 0 <= x < w.nx && 0 <= y < w.ny ==> r.Some?
    ensures r.Some? <==>
      NodeIndex(w, x, y + 1).Some? && NodeIndex(w, x, y - 1).Some? && NodeIndex(w, x + 1, y).Some? && NodeIndex(w, x - 1, y).Some?
    ensures r.Some? ==>
      var v := w.velocity;
      r.value == ((v[NodeIndex(w, x + 1, y).value].y - v[NodeIndex(w, x - 1, y).value].y)
                - (v[NodeIndex(w, x, y + 1).value].x - v[NodeIndex(w, x, y - 1).value].x)) * 0.5
  {
    RotZDefined(w, x, y);
    match (NodeIndex(w, x, y + 1), NodeIndex(w, x, y - 1), NodeIndex(w, x + 1, y), NodeIndex(w, x - 1, y))
    case (Some(up), Some(down), Some(right), Some(left)) =>
      var dx := w.velocity[up].x - w.velocity[down].x;
      var dy := w.velocity[right].y - w.velocity[left].y;
      Some((dy - dx) * 0.5)
    case _ => None
  }

  lemma RotZDefined(w: World, x: int, y: int)
    requires Valid(w)
    ensures 1 <= w.nx && 0 <= x < w.nx && 0 <= y < w.ny ==>
      NodeIndex(w, x, y + 1).Some? && NodeIndex(w, x, y - 1).Some? && NodeIndex(w, x + 1, y).Some? && NodeIndex(w, x - 1, y).Some?
  {
    if 1 <= w.nx && 0 <= x < w.nx && 0 <= y < w.ny {
      RotZNeighbours(w, x, y);
    }
  }

  /** The four wrapped neighbours `rot_z` reads are the lattice neighbours. */
  lemma RotZNeighbours(w: World, x: int, y: int)
    requires Valid(w) && 1 <= w.nx && 0 <= x < w.nx && 0 <= y < w.ny
    ensures NodeIndex(w, x, y + 1) == Some(Neighbour(w.nx, w.ny, y * w.nx + x, Up))
    ensures NodeIndex(w, x, y - 1) == Some(Neighbour(w.nx, w.ny, y * w.nx + x, Down))
    ensures NodeIndex(w, x + 1, y) == Some(Neighbour(w.nx, w.ny, y * w.nx + x, Right))
    ensures NodeIndex(w, x - 1, y) == Some(Neighbour(w.nx, w.ny, y * w.nx + x, Left))
  {
    NeighbourInRange(w.nx, w.ny, x, y, Up);
    NeighbourInRange(w.nx, w.ny, x, y, Down);
    NeighbourInRange(w.nx, w.ny, x, y, Right);
    NeighbourInRange(w.nx, w.ny, x, y, Left);
  }

  /** A uniform velocity field has no rotation. */
  lemma RotZUniform(w: World, x: int, y: int, v: Vector)
    requires Valid(w) && 1 <= w.nx && 0 <= x < w.nx && 0 <= y < w.ny
    requires forall i | 0 <= i < |w.velocity| :: w.velocity[i] == v
    ensures RotZ(w, x, y) == Some(0.0)
  {
    RotZNeighbours(w, x, y);
  }

}
