/** The single-relaxation-time (BGK) collision model: the relaxation rate
    derived from the viscosity, the D2Q9 equilibrium populations, and the
    relaxation of a node's populations towards them. */
module Bgk {

  import opened Vectors
  import opened Directions
  import opened Slots

  /** The model keeps the viscosity it was built from and the rate `omega = 1/tau`. */
  datatype BGK = BGK(viscosity: real, omega: real)

  /** The constructor: `omega = 1 / (3 nu + 1/2)`. For a non-negative viscosity
      the rate lies in (0, 2], and `nu = 1/6` gives full relaxation. */
  function MakeBGK(nu: real): (m: BGK)
    requires 3.0 * nu + 0.5 != 0.0
    ensures m.viscosity == nu
    ensures m.omega * (3.0 * nu + 0.5) == 1.0
    ensures nu >= 0.0 ==> 0.0 < m.omega <= 2.0
    ensures nu == 1.0 / 6.0 ==> m.omega == 1.0
  {
    BGK(nu, 1.0 / (3.0 * nu + 0.5))
  }

  /** The lattice weight of a direction's class: rest, axis or diagonal. */
  function Weight(d: Direction): real
  {
    match d
    case Self => 4.0 / 9.0
    case Right | Up | Left | Down => 1.0 / 9.0
    case RightUp | LeftUp | LeftDown | RightDown => 1.0 / 36.0
  }

  /** The equilibrium population of direction `d` for density `rho` and
      velocity `u`, one case per direction as the model writes it. It does not
      depend on the model's fields. */
  function Equilibrium(d: Direction, rho: real, u: Vector): real
  {
    var u2 := LengthSq(u);
    match d
    case Self => (4.0 / 9.0) * rho * (1.0 - 1.5 * u2)
    case Right => (1.0 / 9.0) * rho * (1.0 + 3.0 * u.x + 4.5 * u.x * u.x - 1.5 * u2)
    case Up => (1.0 / 9.0) * rho * (1.0 + 3.0 * u.y + 4.5 * u.y * u.y - 1.5 * u2)
    case Left => (1.0 / 9.0) * rho * (1.0 - 3.0 * u.x + 4.5 * u.x * u.x - 1.5 * u2)
    case Down => (1.0 / 9.0) * rho * (1.0 - 3.0 * u.y + 4.5 * u.y * u.y - 1.5 * u2)
    case RightUp =>
      (1.0 / 36.0) * rho * (1.0 + 3.0 * (u.x + u.y) + 4.5 * (u.x + u.y) * (u.x + u.y) - 1.5 * u2)
    case LeftUp =>
      (1.0 / 36.0) * rho * (1.0 + 3.0 * (-u.x + u.y) + 4.5 * (-u.x + u.y) * (-u.x + u.y) - 1.5 * u2)
    case LeftDown =>
      (1.0 / 36.0) * rho * (1.0 + 3.0 * (-u.x - u.y) + 4.5 * (-u.x - u.y) * (-u.x - u.y) - 1.5 * u2)
    case RightDown =>
      (1.0 / 36.0) * rho * (1.0 + 3.0 * (u.x - u.y) + 4.5 * (u.x - u.y) * (u.x - u.y) - 1.5 * u2)
  }

  /** The nine cases are one formula in the direction's lattice velocity `e`:
      `w * rho * (1 + 3 (e.u) + 4.5 (e.u)^2 - 1.5 |u|^2)`. */
  lemma EquilibriumFormula(d: Direction, rho: real, u: Vector)
    ensures var eu := Dot(VelocityOf(d), u);
            Equilibrium(d, rho, u) == Weight(d) * rho * (1.0 + 3.0 * eu + 4.5 * eu * eu - 1.5 * LengthSq(u))
  {
  }

  /** At rest the equilibrium is the weighted density. */
  lemma EquilibriumAtRest(d: Direction, rho: real)
    ensures Equilibrium(d, rho, Zero) == Weight(d) * rho
  {
    assert Zero.x == 0.0 && Zero.y == 0.0;
    assert LengthSq(Zero) == 0.0;
  }

  /** Reversing the direction is the same as reversing the velocity. */
  lemma EquilibriumReversed(d: Direction, rho: real, u: Vector)
    ensures Equilibrium(BounceBack(d), rho, u) == Equilibrium(d, rho, Neg(u))
  {
    LengthSqNeg(u);
  }

  /** The nine equilibrium populations, stored in direction order. */
  function Equilibria(rho: real, u: Vector): (f: Populations)
  {
    [ Equilibrium(Self, rho, u), Equilibrium(Right, rho, u), Equilibrium(RightUp, rho, u),
      Equilibrium(Up, rho, u), Equilibrium(LeftUp, rho, u), Equilibrium(Left, rho, u),
      Equilibrium(LeftDown, rho, u), Equilibrium(Down, rho, u), Equilibrium(RightDown, rho, u) ]
  }

  /** The zeroth-moment identity over the reals, with `u2 = ux^2 + uy^2`. */
  lemma MassIdentity(rho: real, ux: real, uy: real, u2: real)
    requires u2 == ux * ux + uy * uy
    ensures (4.0 / 9.0) * rho * (1.0 - 1.5 * u2)
          + (1.0 / 9.0) * rho * (1.0 + 3.0 * ux + 4.5 * ux * ux - 1.5 * u2)
          + (1.0 / 9.0) * rho * (1.0 + 3.0 * uy + 4.5 * uy * uy - 1.5 * u2)
          + (1.0 / 9.0) * rho * (1.0 - 3.0 * ux + 4.5 * ux * ux - 1.5 * u2)
          + (1.0 / 9.0) * rho * (1.0 - 3.0 * uy + 4.5 * uy * uy - 1.5 * u2)
          + (1.0 / 36.0) * rho * (1.0 + 3.0 * (ux + uy) + 4.5 * (ux + uy) * (ux + uy) - 1.5 * u2)
          + (1.0 / 36.0) * rho * (1.0 + 3.0 * (-ux + uy) + 4.5 * (-ux + uy) * (-ux + uy) - 1.5 * u2)
          + (1.0 / 36.0) * rho * (1.0 + 3.0 * (-ux - uy) + 4.5 * (-ux - uy) * (-ux - uy) - 1.5 * u2)
          + (1.0 / 36.0) * rho * (1.0 + 3.0 * (ux - uy) + 4.5 * (ux - uy) * (ux - uy) - 1.5 * u2)
          == rho
  {
  }

  /** The equilibrium populations sum to the density, for every velocity. */
  lemma EquilibriumMass(rho: real, u: Vector)
    ensures Sum(Equilibria(rho, u)) == rho
  {
    SumOfNine(Equilibria(rho, u));
    MassIdentity(rho, u.x, u.y, LengthSq(u));
  }

  /** The first-moment identities over the reals. */
  lemma MomentumIdentity(rho: real, ux: real, uy: real, u2: real)
    ensures (1.0 / 9.0) * rho * (1.0 + 3.0 * ux + 4.5 * ux * ux - 1.5 * u2)
          + (1.0 / 36.0) * rho * (1.0 + 3.0 * (ux + uy) + 4.5 * (ux + uy) * (ux + uy) - 1.5 * u2)
          + (1.0 / 36.0) * rho * (1.0 + 3.0 * (ux - uy) + 4.5 * (ux - uy) * (ux - uy) - 1.5 * u2)
          - (1.0 / 9.0) * rho * (1.0 - 3.0 * ux + 4.5 * ux * ux - 1.5 * u2)
          - (1.0 / 36.0) * rho * (1.0 + 3.0 * (-ux + uy) + 4.5 * (-ux + uy) * (-ux + uy) - 1.5 * u2)
          - (1.0 / 36.0) * rho * (1.0 + 3.0 * (-ux - uy) + 4.5 * (-ux - uy) * (-ux - uy) - 1.5 * u2)
          == rho * ux
    ensures (1.0 / 36.0) * rho * (1.0 + 3.0 * (ux + uy) + 4.5 * (ux + uy) * (ux + uy) - 1.5 * u2)
          + (1.0 / 9.0) * rho * (1.0 + 3.0 * uy + 4.5 * uy * uy - 1.5 * u2)
          + (1.0 / 36.0) * rho * (1.0 + 3.0 * (-ux + uy) + 4.5 * (-ux + uy) * (-ux + uy) - 1.5 * u2)
          - (1.0 / 36.0) * rho * (1.0 + 3.0 * (ux - uy) + 4.5 * (ux - uy) * (ux - uy) - 1.5 * u2)
          - (1.0 / 9.0) * rho * (1.0 - 3.0 * uy + 4.5 * uy * uy - 1.5 * u2)
          - (1.0 / 36.0) * rho * (1.0 + 3.0 * (-ux - uy) + 4.5 * (-ux - uy) * (-ux - uy) - 1.5 * u2)
          == rho * uy
  {
  }

  /** The equilibrium's first moment is the momentum `rho u`. */
  lemma EquilibriumMomentum(rho: real, u: Vector)
    ensures FirstMoment(Equilibria(rho, u)) == Scale(u, rho)
  {
    FirstMomentOfNine(Equilibria(rho, u));
    MomentumIdentity(rho, u.x, u.y, LengthSq(u));
  }

  /** `f'` is `f` relaxed slot by slot towards the populations `eq` at the model's rate. */
  ghost predicate Relaxes(m: BGK, f: Populations, eq: Populations, f': Populations)
  {
    forall i | 0 <= i < 9 :: f'[i] == (1.0 - m.omega) * f[i] + m.omega * eq[i]
  }

  /** Slot `Index(d)` of the equilibrium populations is the equilibrium of `d`. */
  lemma EquilibriaSlot(k: nat, rho: real, u: Vector)
    requires k < |AllDirs|
    ensures Equilibrium(AllDirs[k], rho, u) == Equilibria(rho, u)[k]
  {
  }

  /** `f'` agrees with `f` relaxed towards `eq` on the first `k` slots and
      with `f` on the rest. */
  ghost predicate RelaxedUpTo(m: BGK, f: Populations, eq: Populations, f': Populations, k: int)
  {
    forall i | 0 <= i < 9 :: f'[i] == if i < k then (1.0 - m.omega) * f[i] + m.omega * eq[i] else f[i]
  }

  /** Relaxing slot `k` of populations relaxed up to `k` relaxes them up to `k + 1`. */
  lemma RelaxNext(m: BGK, f: Populations, eq: Populations, g: Populations, k: nat, v: real)
    requires k < 9 && RelaxedUpTo(m, f, eq, g, k)
    requires v == g[k] * (1.0 - m.omega) + m.omega * eq[k]
    ensures RelaxedUpTo(m, f, eq, g[k := v], k + 1)
  {
    assert v == (1.0 - m.omega) * f[k] + m.omega * eq[k];
  }

  /** `collide`: every slot, visited in `all_dirs` order, is read, scaled by
      `1 - omega`, increased by `omega` times its equilibrium and written back,
      so the populations relax towards the equilibrium of `(rho, u)`. The
      equilibrium of each direction is read from `Equilibria`, which holds
      the same nine values `equilibrium(d, rho, u)` in direction order. */
  method Collide(m: BGK, f: Populations, rho: real, u: Vector) returns (f': Populations)
    ensures Relaxes(m, f, Equilibria(rho, u), f')
  {
    var eq := Equilibria(rho, u);
    f' := f;
    var k := 0;
    while k < |AllDirs|
      invariant 0 <= k <= |AllDirs|
      invariant RelaxedUpTo(m, f, eq, f', k)
    {
      var dir := AllDirs[k];
      AtPosition(f', k, dir);
      var v := Get(f', dir);
      v := v * (1.0 - m.omega);
      v := v + m.omega * eq[k];
      RelaxNext(m, f, eq, f', k, v);
      f' := Set(f', dir, v);
      k := k + 1;
    }
  }

  /** Relaxation mixes each slot; `(1 - w) a + w a == a`. */
  lemma MixSame(w: real, a: real)
    ensures (1.0 - w) * a + w * a == a
  {
  }

  /** Collision conserves mass when `rho` is the populations' own density. */
  lemma CollideConservesMass(m: BGK, f: Populations, rho: real, u: Vector, f': Populations)
    requires Relaxes(m, f, Equilibria(rho, u), f')
    requires Sum(f) == rho
    ensures Sum(f') == rho
  {
    var e := Equilibria(rho, u);
    SumMix(f, e, f', m.omega);
    EquilibriumMass(rho, u);
    MixSame(m.omega, rho);
  }

  /** Collision conserves momentum when `rho u` is the populations' own first moment. */
  lemma CollideConservesMomentum(m: BGK, f: Populations, rho: real, u: Vector, f': Populations)
    requires Relaxes(m, f, Equilibria(rho, u), f')
    requires FirstMoment(f) == Scale(u, rho)
    ensures FirstMoment(f') == Scale(u, rho)
  {
    var e := Equilibria(rho, u);
    FirstMomentMix(f, e, f', m.omega);
    EquilibriumMomentum(rho, u);
    MixSame(m.omega, u.x * rho);
    MixSame(m.omega, u.y * rho);
    assert FirstMoment(f') == Vector(FirstMoment(f').x, FirstMoment(f').y);
  }

  /** Populations already at the equilibrium of `(rho, u)` are left as they are. */
  lemma CollideKeepsEquilibrium(m: BGK, rho: real, u: Vector, f': Populations)
    requires Relaxes(m, Equilibria(rho, u), Equilibria(rho, u), f')
    ensures f' == Equilibria(rho, u)
  {
    var e := Equilibria(rho, u);
    forall i | 0 <= i < 9
      ensures f'[i] == e[i]
    {
      MixSame(m.omega, e[i]);
    }
  }

  /** With `omega = 1` collision replaces the populations by the equilibrium. */
  lemma CollideFullRelaxation(m: BGK, f: Populations, rho: real, u: Vector, f': Populations)
    requires m.omega == 1.0
    requires Relaxes(m, f, Equilibria(rho, u), f')
    ensures f' == Equilibria(rho, u)
  {
    var e := Equilibria(rho, u);
    forall i | 0 <= i < 9
      ensures f'[i] == e[i]
    {
      assert f'[i] == 0.0 * f[i] + 1.0 * e[i];
    }
  }

  /** With `omega = 0` collision changes nothing. */
  lemma CollideNoRelaxation(m: BGK, f: Populations, rho: real, u: Vector, f': Populations)
    requires m.omega == 0.0
    requires Relaxes(m, f, Equilibria(rho, u), f')
    ensures f' == f
  {
    forall i | 0 <= i < 9
      ensures f'[i] == f[i]
    {
      assert f'[i] == 1.0 * f[i] + 0.0 * Equilibria(rho, u)[i];
    }
  }

}
