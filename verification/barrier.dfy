/** A solid node (`lbm::Barrier`): it stores nine populations like a fluid
    node but reports no fluid, whatever the slots hold. */
module Barriers {

  import opened Vectors
  import opened Directions
  import opened Slots
  import opened Bgk

  datatype Barrier = Barrier(distribution: Populations)

  /** Reading slot `d`. */
  function Distribution(b: Barrier, d: Direction): real
  {
    Get(b.distribution, d)
  }

  /** Writing slot `d`: the stored value reads back and no other slot changes. */
  function SetDistribution(b: Barrier, d: Direction, v: real): (b': Barrier)
    ensures Distribution(b', d) == v
    ensures forall e | e != d :: Distribution(b', e) == Distribution(b, e)
  {
    Barrier(Set(b.distribution, d, v))
  }

  /** No fluid inside a barrier: the density is zero. */
  function Density(b: Barrier): real
  {
    0.0
  }

  /** The velocity is zero for every argument, zero included; nothing is divided. */
  function Velocity(b: Barrier, rho: real): Vector
  {
    Zero
  }

  /** A barrier reports density zero and velocity zero whatever it stores and
      whatever density it is asked about. */
  lemma ReportsNoFluid(b: Barrier, rho: real)
    ensures Density(b) == 0.0 && Velocity(b, rho) == Zero
    ensures forall d :: Distribution(b, d) == b.distribution[Index(d)]
  {
  }

  /** At the reported state `(0, (0, 0))` every equilibrium population is zero. */
  lemma {:induction false} NoFluidEquilibrium(b: Barrier, rho: real)
    ensures forall i | 0 <= i < 9 :: Equilibria(Density(b), Velocity(b, rho))[i] == 0.0
  {
    forall d
      ensures Equilibrium(d, 0.0, Zero) == 0.0
    {
      EquilibriumAtRest(d, 0.0);
    }
  }

  /** So collision at the reported state only scales each slot by `1 - omega`. */
  lemma CollideOnlyDamps(m: BGK, b: Barrier, rho: real, f': Populations)
    requires Relaxes(m, b.distribution, Equilibria(Density(b), Velocity(b, rho)), f')
    ensures forall i | 0 <= i < 9 :: f'[i] == (1.0 - m.omega) * b.distribution[i]
  {
    NoFluidEquilibrium(b, rho);
  }

}
