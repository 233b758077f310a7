/** A pinned inflow node (`lbm::ConstantFlow`): it keeps the density and
    velocity it was initialized with and the equilibrium populations for
    them, and when a population is written into one slot it echoes only the
    non-equilibrium part of it into the opposite slot. */
module Boundary {

  import opened Optional
  import opened Vectors
  import opened Directions
  import opened Slots
  import opened Bgk

  datatype ConstantFlow = ConstantFlow(
    density: real,
    velocity: Vector,
    eqDistribution: Populations,
    distribution: Populations)

  /** `initialize`: remember `(rho, u)`, fill every slot with its equilibrium in
      `all_dirs` order, then keep a copy of those populations. */
  method Initialize(cf: ConstantFlow, model: BGK, rho: real, u: Vector) returns (cf': ConstantFlow)
    ensures cf'.density == rho && cf'.velocity == u
    ensures cf'.distribution == Equilibria(rho, u)
    ensures cf'.eqDistribution == Equilibria(rho, u)
  {
    ghost var eq := Equilibria(rho, u);
    cf' := cf.(density := rho, velocity := u);
    var k := 0;
    while k < |AllDirs|
      invariant 0 <= k <= |AllDirs|
      invariant cf'.density == rho && cf'.velocity == u
      invariant forall i | 0 <= i < k :: cf'.distribution[i] == eq[i]
    {
      var dir := AllDirs[k];
      EquilibriaSlot(k, rho, u);
      cf' := cf'.(distribution := cf'.distribution[k := Equilibrium(dir, rho, u)]);
      k := k + 1;
    }
    assert cf'.distribution == eq;
    cf' := cf'.(eqDistribution := cf'.distribution);
  }

  /** Reading slot `d`. */
  function Distribution(cf: ConstantFlow, d: Direction): real
  {
    Get(cf.distribution, d)
  }

  /** `set_distribution(d, v)`: slot `d` becomes `v`, then the opposite slot
      becomes its equilibrium plus the excess `v - eq[d]`. Over the reals slot
      `d` reads back as `v` even for `Self` (its own opposite); a write of the
      equilibrium value resets the opposite slot to its equilibrium; no other
      slot and none of the pinned state changes. */
  function SetDistribution(cf: ConstantFlow, d: Direction, v: real): (r: ConstantFlow)
    ensures Distribution(r, d) == v
    ensures Distribution(r, BounceBack(d)) == Get(cf.eqDistribution, BounceBack(d)) + (v - Get(cf.eqDistribution, d))
    ensures v == Get(cf.eqDistribution, d) ==> Distribution(r, BounceBack(d)) == Get(cf.eqDistribution, BounceBack(d))
    ensures forall e | e != d && e != BounceBack(d) :: Distribution(r, e) == Distribution(cf, e)
    ensures r.density == cf.density && r.velocity == cf.velocity && r.eqDistribution == cf.eqDistribution
  {
    var back := BounceBack(d);
    var eq := cf.eqDistribution;
    var f := Set(cf.distribution, d, v);
    cf.(distribution := Set(f, back, Get(eq, back) + (v - Get(eq, d))))
  }

  /** `bounces`: this node never takes part in the bounce phase. */
  function Bounces(cf: ConstantFlow): bool
  {
    false
  }

  /** `bounce_back`: no direction (`None`) and no population. */
  function BounceBackOf(cf: ConstantFlow, d: Direction): (Option<Direction>, real)
  {
    (None, 0.0)
  }

  /** The node neither bounces nor reports a bounce-back direction. */
  lemma NeverBounces(cf: ConstantFlow, d: Direction)
    ensures !Bounces(cf) && BounceBackOf(cf, d) == (None, 0.0)
  {
  }

  /** `density`: the pinned density. */
  function Density(cf: ConstantFlow): real
  {
    cf.density
  }

  /** `velocity(rho)`: the pinned velocity, whatever density is passed. */
  function Velocity(cf: ConstantFlow, rho: real): Vector
  {
    cf.velocity
  }

  /** `velocity()`: the pinned velocity, through `velocity(density())`. */
  function OwnVelocity(cf: ConstantFlow): (r: Vector)
    ensures forall rho :: r == Velocity(cf, rho)
  {
    Velocity(cf, Density(cf))
  }

  /** A series of slot writes, applied in order. */
  function ApplyWrites(cf: ConstantFlow, writes: seq<(Direction, real)>): ConstantFlow
  {
    if |writes| == 0 then cf
    else SetDistribution(ApplyWrites(cf, writes[..|writes| - 1]), writes[|writes| - 1].0, writes[|writes| - 1].1)
  }

  /** Whatever is written into the slots, the node keeps reporting the density
      and velocity it was initialized with, and its equilibrium copy stays. */
  lemma {:induction false} WritesKeepTargets(cf: ConstantFlow, writes: seq<(Direction, real)>, rho: real)
    ensures Density(ApplyWrites(cf, writes)) == Density(cf)
    ensures Velocity(ApplyWrites(cf, writes), rho) == Velocity(cf, rho)
    ensures ApplyWrites(cf, writes).eqDistribution == cf.eqDistribution
  {
    if |writes| > 0 {
      WritesKeepTargets(cf, writes[..|writes| - 1], rho);
    }
  }

  /** After `initialize(rho, u)` and any writes, the node reports `(rho, u)`. */
  lemma InitializedReports(cf: ConstantFlow, writes: seq<(Direction, real)>, rho: real, u: Vector, any: real)
    requires cf.density == rho && cf.velocity == u
    ensures Density(ApplyWrites(cf, writes)) == rho
    ensures Velocity(ApplyWrites(cf, writes), any) == u
  {
    WritesKeepTargets(cf, writes, any);
  }

}
