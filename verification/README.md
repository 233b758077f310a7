# D2Q9 lattice-Boltzmann engine, modelled in Dafny

This project models the simulation engine of a two-dimensional
lattice-Boltzmann fluid solver. The solver uses the D2Q9 velocity set (nine
directions) and single-relaxation-time (BGK) collisions. Every population,
density and velocity is a Dafny `real`, so the polynomial identities of the
method hold exactly. The model covers the following parts:

- **Vectors** (`Vectors`): the velocity vector with its arithmetic, the dot
  product and the squared length.
- **Directions** (`Directions`): the nine directions in enumerator order,
  their integer offsets, their real lattice velocities and their opposites.
- **Populations** (`Slots`): the nine populations of a node, indexed by
  direction. It also gives their sum (the zeroth moment) and their
  velocity-weighted sum (the first moment).
- **The BGK model** (`Bgk`):
  - the relaxation rate `omega = 1 / (3 nu + 1/2)`;
  - the nine equilibrium cases;
  - the in-place collision, which relaxes every slot towards equilibrium.
- **Node kinds**:
  - a fluid `Cell` (`Cells`), whose density and velocity are moments of its slots;
  - a `Barrier` (`Barriers`), which reports no fluid;
  - the pinned inflow node `ConstantFlow` (`Boundary`), modelled on its own.
- **The `Grid` variant** (`Grids`): holds a cell or a barrier and delegates to
  the one it holds.
- **The lattice** (`Lattice`):
  - the row-major `idx_of` with its single periodic correction;
  - the coordinates of a flat index;
  - the neighbour of a node in a direction.
- **The world** (`Phases`, `Worlds`):
  - the constructor, the accessors, `set_grid` and `initialize`;
  - the five-phase `step`: collide, stream into the buffer, bounce off
    barriers inside the buffer, swap, and recompute the density and velocity
    caches;
  - the vorticity query `rot_z`.

Out-of-range container access (`std::vector::at` throwing) is modelled as
`None` of an `Option`. The inflow node's "no direction" is also `None`.

The source does not compile as it stands. The model follows the evident
intent at each gap:

- `Vecotr` in the vector operators is read as `Vector`.
- The world's `is_barrier()` is read as "the grid holds the `Barrier`
  alternative" (`Grids.IsBarrier`).
- `BGK::collide` takes the abstract node interface, but the world passes it a
  `Grid`. It is modelled on the nine populations (`Bgk.Collide`). The collide
  phase then stores the result back into the node, keeping the node's
  alternative.
- The `default:` branches of the direction switches cannot be reached. The
  model's `Direction` datatype has exactly nine constructors, so every
  `match` is exhaustive without them.
- `Grid` has no `initialize`, yet the world calls it. The model runs the
  cell's `initialize` on a fluid node and leaves a barrier node as it is
  (`Grids.Initialize`).
- `std::vector<Grid>(n)` needs a default `Grid`, which the source does not
  declare. The model fills a new world with fluid cells whose nine
  populations are zero (`Worlds.MakeWorld`).

Two behaviours of the bounce and recompute phases deserve a note:

- The bounce phase copies each barrier population into the neighbour's
  opposite slot. It does this for every direction, including populations
  that are zero, and it does not clear the barrier's slot. A full-way
  bounce-back would move only non-zero populations and clear the barrier's
  slot; the program does neither, and the model follows the program.
- The program divides by zero when a fluid node has density zero; the
  model caches (0, 0) there.

A consequence of following the code: when two barriers are adjacent, a
barrier may read a slot that another barrier already overwrote during the
same phase, so barrier slots depend on the visiting order. The model
specifies everything that does not depend on that order (see `Phases.Bounced`
and `Worlds.Steps`).

## Model

| member | source | states |
|---|---|---|
| Vectors.Neg | include/lbm/Vector.hpp:15-18 | unary minus gives the additive inverse |
| Vectors.Sub | include/lbm/Vector.hpp:23-26 | binary minus undoes addition and is addition of the negation |
| Vectors.ScaleLeft | include/lbm/Vector.hpp:31-34 | scalar-times-vector equals vector-times-scalar |
| Vectors.LengthSq | include/lbm/Vector.hpp:40-43 | the squared length (the self dot product) is never negative |
| Vectors.LengthSqNeg | include/lbm/Vector.hpp:15-43 | negation keeps the squared length |
| Vectors.DotSymmetric | include/lbm/Vector.hpp:36-39 | the dot product is symmetric |
| Vectors.AddCommutes | include/lbm/Vector.hpp:19-22 | componentwise addition commutes |
| Directions.Index | include/lbm/Direction.hpp:11-34 | each enumerator's underlying value is its position in `all_dirs` |
| Directions.AllDirsEnumerates | include/lbm/Direction.hpp:11-34 | `all_dirs` has nine entries in index order and contains every direction |
| Directions.Offset | include/lbm/Direction.hpp:57-76 | every offset component is in {-1, 0, 1}; the offset is (0, 0) exactly for `Self` |
| Directions.OffsetInjective | include/lbm/Direction.hpp:57-76 | the nine offsets are pairwise distinct |
| Directions.VelocityOf | include/lbm/Direction.hpp:36-76 | the lattice velocity is the offset read as reals |
| Directions.BounceBack | include/lbm/Direction.hpp:78-97 | the opposite's offset is the negated offset; a direction is its own opposite exactly when it is `Self` |
| Directions.BounceBackInvolution | include/lbm/Direction.hpp:78-97 | taking the opposite twice gives the direction back |
| Directions.BounceBackVelocity | include/lbm/Direction.hpp:36-97 | the opposite's velocity is the negated velocity |
| Slots.Set | include/lbm/Cell.hpp:29-33 | writing a slot stores the value there and changes no other slot |
| Slots.SumOfNine | include/lbm/Cell.hpp:35-43 | the running sum of the slots is the nine-term sum over the directions |
| Slots.FirstMomentOfNine | include/lbm/Cell.hpp:48-70 | the velocity-weighted sum over directions is the right-minus-left and up-minus-down sum |
| Slots.SumMix | include/lbm/BGK.hpp:18-28 | the sum of slotwise mixes is the mix of the sums |
| Slots.FirstMomentMix | include/lbm/BGK.hpp:18-28 | the first moment of slotwise mixes is the mix of the first moments |
| Bgk.MakeBGK | include/lbm/BGK.hpp:14-16 | `omega (3 nu + 1/2) = 1`; for `nu >= 0` the rate is in (0, 2]; `nu = 1/6` gives `omega = 1` |
| Bgk.EquilibriumFormula | include/lbm/BGK.hpp:37-47 | the nine cases are the single formula `w rho (1 + 3 e.u + 4.5 (e.u)^2 - 1.5 u.u)` |
| Bgk.EquilibriumAtRest | include/lbm/BGK.hpp:37-47 | at zero velocity the equilibrium is the weight times the density |
| Bgk.EquilibriumReversed | include/lbm/BGK.hpp:39-47 | the opposite direction's equilibrium is the equilibrium at the negated velocity |
| Bgk.EquilibriumMass | include/lbm/BGK.hpp:30-52 | the nine equilibria sum to `rho` for every `rho` and `u` |
| Bgk.EquilibriumMomentum | include/lbm/BGK.hpp:30-52 | the first moment of the equilibria is `rho u` |
| Bgk.Collide | include/lbm/BGK.hpp:18-28 | every slot becomes `(1 - omega) f(d) + omega equilibrium(d, rho, u)` |
| Bgk.CollideConservesMass | include/lbm/BGK.hpp:18-28 | if the slots summed to `rho` before collision, they sum to `rho` after |
| Bgk.CollideConservesMomentum | include/lbm/BGK.hpp:18-28 | if the first moment was `rho u` before collision, it is `rho u` after |
| Bgk.CollideKeepsEquilibrium | include/lbm/BGK.hpp:18-28 | populations already at the equilibrium of `(rho, u)` are unchanged |
| Bgk.CollideFullRelaxation | include/lbm/BGK.hpp:18-28 | with `omega = 1` collision yields the equilibrium outright |
| Bgk.CollideNoRelaxation | include/lbm/BGK.hpp:18-28 | with `omega = 0` collision changes nothing |
| Cells.SetDistribution | include/lbm/Cell.hpp:29-33 | writing slot `d` changes only slot `d` |
| Cells.Initialize | include/lbm/Cell.hpp:16-22 | every slot becomes its equilibrium; the cell then has density `rho` and, for `rho != 0`, velocity `u` |
| Cells.Density | include/lbm/Cell.hpp:35-43 | the density is the sum of the nine slots |
| Cells.Velocity | include/lbm/Cell.hpp:48-70 | the velocity times `rho` is the first moment of the slots |
| Cells.VelocityOfMoment | include/lbm/Cell.hpp:48-70 | a cell whose first moment is `rho u` has velocity `u` at a non-zero `rho` |
| Cells.OwnVelocity | include/lbm/Cell.hpp:44-47 | `velocity()` is the velocity at the cell's own density |
| Barriers.SetDistribution | include/lbm/Barrier.hpp:14-23 | a written slot reads back and no other slot changes |
| Barriers.ReportsNoFluid | include/lbm/Barrier.hpp:26-33 | density 0 and velocity (0, 0) whatever the slots and whatever `rho` is asked |
| Barriers.NoFluidEquilibrium | include/lbm/Barrier.hpp:26-33 | at the reported state the equilibrium is zero in every direction |
| Barriers.CollideOnlyDamps | include/lbm/Barrier.hpp:26-33 | collision at the reported state scales each slot by `1 - omega` |
| Boundary.Initialize | include/lbm/Boundary.hpp:16-29 | stores `(rho, u)` and fills both the slots and the kept copy with the equilibria |
| Boundary.SetDistribution | include/lbm/Boundary.hpp:36-51 | slot `d` becomes `v`; the opposite slot becomes `eq[back] + (v - eq[d])`, which is exactly `eq[back]` when `v = eq[d]`; no other slot and none of the pinned state changes |
| Boundary.NeverBounces | include/lbm/Boundary.hpp:53-58 | the node does not bounce and reports no direction with zero |
| Boundary.OwnVelocity | include/lbm/Boundary.hpp:65-72 | `velocity()` is the pinned velocity, as is `velocity(rho)` for any `rho` |
| Boundary.WritesKeepTargets | include/lbm/Boundary.hpp:36-72 | after any series of writes the density, the velocity and the kept equilibria are unchanged |
| Boundary.InitializedReports | include/lbm/Boundary.hpp:16-72 | after initialization and any writes the node reports the initial `(rho, u)` |
| Grids.Distribution | include/lbm/Grid.hpp:19-22 | reading a slot reads the held alternative's slot |
| Grids.SetDistribution | include/lbm/Grid.hpp:23-26 | a write keeps the alternative, stores the value and changes no other slot |
| Grids.Density | include/lbm/Grid.hpp:28-31 | a barrier reports 0; a cell reports the sum of its slots |
| Grids.Velocity | include/lbm/Grid.hpp:32-35 | a barrier reports (0, 0) for any `rho`; a cell's velocity times `rho` is its first moment |
| Grids.Initialize | include/lbm/World.hpp:31-37 | a cell is seeded with the equilibria and density `rho`; a barrier is unchanged |
| Lattice.WrapInRange | include/lbm/World.hpp:114-119 | a coordinate at most one period out wraps into `[0, n)`; one inside is kept |
| Lattice.IdxOf | include/lbm/World.hpp:114-119 | in-range coordinates map to `y nx + x` |
| Lattice.IdxOfInRange | include/lbm/World.hpp:114-119 | coordinates at most one period out give an index below `nx ny` |
| Lattice.IdxOfBijective | include/lbm/World.hpp:114-119 | `idx_of` maps in-range coordinates one-to-one onto `[0, nx ny)` |
| Lattice.IdxOfAliasesFarCoordinates | include/lbm/World.hpp:114-119 | a coordinate two periods out is not wrapped onto its own row: `(-5, 2)` on a 3 by 3 lattice is node `(1, 1)` |
| Lattice.FromCoords | include/lbm/World.hpp:114-119 | column and row recover the coordinates of `y nx + x` |
| Lattice.CoordsOf | include/lbm/World.hpp:114-119 | a lattice index is the row-major index of its in-range column and row |
| Lattice.NeighbourInRange | include/lbm/World.hpp:53-58 | the neighbour of `(x, y)` is `idx_of(x + dx, y + dy)` and lies on the lattice |
| Lattice.NeighbourBack | include/lbm/World.hpp:72-78 | stepping in `d` and then in its opposite returns to the node |
| Lattice.UpstreamInverse | include/lbm/World.hpp:53-58 | the node one step against `d` has the given node as its `d` neighbour |
| Lattice.NeighbourSelf | include/lbm/World.hpp:53-58 | `Self` stays at the node |
| Phases.CollidePhase | include/lbm/World.hpp:41-46 | every node relaxes towards the equilibrium of its cached density and velocity; alternatives are kept |
| Phases.StreamPhase | include/lbm/World.hpp:48-62 | slot `e` of every buffer node holds slot `e` of the node one step against `e`, so every buffer slot is overwritten |
| Phases.StreamRow | include/lbm/World.hpp:51-61 | visiting one row moves the stream cursor from the row's first node to the next row's first node |
| Phases.StreamNode | include/lbm/World.hpp:53-60 | visiting one node moves the stream cursor past it |
| Phases.BouncePhase | include/lbm/World.hpp:64-82 | slots whose upstream node is not a barrier are untouched; a fluid slot whose upstream node is a barrier holds that barrier's opposite-direction population |
| Phases.BounceRow | include/lbm/World.hpp:67-81 | visiting one row moves the bounce cursor from the row's first node to the next row's first node |
| Phases.BounceNode | include/lbm/World.hpp:69-80 | visiting one node moves the bounce cursor past it; a fluid node leaves the buffer exactly as it was |
| Phases.BounceBarrier | include/lbm/World.hpp:70-79 | the nine writes of a barrier, in `all_dirs` order, move the bounce cursor past the barrier |
| Phases.RecomputePhase | include/lbm/World.hpp:87-92 | each cache entry is the node's density and its velocity at that density |
| Worlds.MakeWorld | include/lbm/World.hpp:18-21 | `nx ny` fluid nodes in both sequences, zero caches, kinds agreeing |
| Worlds.NodeIndex | include/lbm/World.hpp:114-119 | the wrapped index when it names a node, `None` otherwise; in-range coordinates always name `y nx + x` |
| Worlds.AccessorsAtNode | include/lbm/World.hpp:96-100 | at an in-range `(x, y)`, `at`, `density_at` and `velocity_at` return entry `y nx + x` of the lattice and of the two caches |
| Worlds.AccessorsPeriodic | include/lbm/World.hpp:96-119 | the three accessors give the same answer one period to the left or right, and one period below or above |
| Worlds.StepReports | include/lbm/World.hpp:84-100 | after `step`, each node keeps its alternative, `density_at` is the node's density, a barrier reports 0 and (0, 0), and a fluid node's `velocity_at` times its density is its first moment, or (0, 0) at density zero |
| Worlds.SetGrid | include/lbm/World.hpp:23-29 | the same node is written into the lattice and the buffer at one index, nothing else changes, and the kinds still agree; `at(x, y)` then returns that node |
| Worlds.Initialize | include/lbm/World.hpp:31-37 | the caches at one index become `(rho, u)`; only that lattice node is seeded; the buffer is untouched; `density_at` and `velocity_at` then return `rho` and `u`, and a fluid node's own density is `rho` |
| Worlds.Step | include/lbm/World.hpp:39-94 | the world after one step is related to the world before as `Steps` describes |
| Worlds.StreamThenBounce | include/lbm/World.hpp:48-82 | after stream and bounce, a slot holds its upstream node's relaxed population, or the node's own opposite population when upstream is a barrier |
| Worlds.UniformEquilibriumIsFixed | include/lbm/World.hpp:39-94 | a barrier-free world at one uniform equilibrium with `rho != 0` is unchanged by `step`, caches included |
| Worlds.RotZ | include/lbm/World.hpp:105-110 | half of `dv_y/dx - dv_x/dy` over the wrapped neighbours; always defined at a lattice node |
| Worlds.RotZNeighbours | include/lbm/World.hpp:105-110 | the four indices `rot_z` reads are the lattice neighbours Up, Down, Right and Left |
| Worlds.RotZUniform | include/lbm/World.hpp:105-110 | a uniform velocity field has zero rotation |

## Left out

- `length` in include/lbm/Vector.hpp is not modelled. It needs a square root, and as written it calls itself without end.
- The `viscosity_` field is kept but never read.
- IEEE-754 rounding is not modelled. Every quantity is a `real`, so identities such as "the equilibria sum to `rho`" hold exactly here but only approximately in the program.
- Boundary.SetDistribution: slot `d` reads back exactly `v` for `Self` only over the reals. In floating point `eq + (v - eq)` can differ from `v` in the last bit.
- 32-bit integers are not modelled. The dimensions, coordinates and `idx_of` arithmetic are unbounded, so an `nx * ny` or `y * nx + x` that would overflow `std::int32_t` is not modelled.
- Worlds.MakeWorld: requires non-negative dimensions. With a negative product the program throws from the vector constructor. With two negative dimensions the product is positive, so the program builds `nx ny` nodes; its collide and recompute loops then run over all of them while its stream and bounce loops, bounded by the negative `ny` and `nx`, run not at all. Neither case is modelled.
- Cells.Velocity: requires a non-zero `rho`. The program divides by zero and produces an infinite or undefined vector instead.
- Cells.OwnVelocity: requires a non-zero density, for the same reason.
- Grids.Velocity: requires a barrier or a non-zero `rho`. A fluid node of density zero, such as a node of a fresh world that was never initialized, reaches this call in the recompute loop, and the program divides by zero there; the model's recompute phase caches (0, 0) instead of calling it.
- Bgk.MakeBGK: requires `3 nu + 1/2 != 0`. At `nu = -1/6` the program computes an infinite relaxation rate, which has no real value.
- Phases.RecomputePhase: a fluid node of density zero caches the zero vector rather than the program's result of a division by zero.
- Phases.BouncePhase: the slots of a barrier whose upstream node is also a barrier are left unspecified. With adjacent barriers the program overwrites them in an order that depends on the visiting order, and the contract promises only the order-independent slots.
- Worlds.Step: slots of a barrier node whose upstream node is also a barrier are left unspecified. With adjacent barriers the program overwrites them in an order-dependent way.
- Worlds.At: only the read-only `at` is modelled. The mutable overload hands out a reference through which callers could change a lattice node without the buffer, breaking the kinds invariant.
- `ConstantFlow` is modelled on its own. It is not part of the `Grid` variant, so it cannot take part in the world's collide, stream or bounce phases.
- include/lbm/GridBase.hpp is an abstract interface without behaviour. The `Grid` datatype takes its place.
- include/lbm/Window.hpp, include/lbm/SDLResource.hpp and src/main.cpp are left out. They are rendering, windowing and scenario scripting on a foreign graphics library.
- The world's `size_x` and `size_y` are the datatype's `nx` and `ny` fields (`Worlds.SizeX`, `Worlds.SizeY`). They carry no contract.
- Populations are physically non-negative, but the code never enforces it, and the model does not promise it either.
