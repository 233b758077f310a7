/** The D2Q9 velocity set: nine directions, their integer offsets, their real
    lattice velocities and the opposite direction used by bounce-back. */
module Directions {

  import opened Vectors

  /** The enumerators in declaration order; `Index` gives the underlying value. */
  datatype Direction =
    | Self
    | Right
    | RightUp
    | Up
    | LeftUp
    | Left
    | LeftDown
    | Down
    | RightDown

  /** `all_dirs`: every direction, in the order of its underlying value. */
  const AllDirs: seq<Direction> :=
    [Self, Right, RightUp, Up, LeftUp, Left, LeftDown, Down, RightDown]

  /** The underlying value of the enumerator; it is the direction's position in `AllDirs`. */
  function Index(d: Direction): (i: nat)
    ensures i < |AllDirs| && AllDirs[i] == d
  {
    match d
    case Self => 0
    case Right => 1
    case RightUp => 2
    case Up => 3
    case LeftUp => 4
    case Left => 5
    case LeftDown => 6
    case Down => 7
    case RightDown => 8
  }

  /** `all_dirs` lists each of the nine enumerators exactly once, in index order. */
  lemma AllDirsEnumerates()
    ensures |AllDirs| == 9
    ensures forall i | 0 <= i < |AllDirs| :: Index(AllDirs[i]) == i
    ensures forall d: Direction :: d in AllDirs
  {
    forall d: Direction
      ensures d in AllDirs
    {
      assert AllDirs[Index(d)] == d;
    }
  }

  /** The direction at position `k` of `all_dirs` has underlying value `k`. */
  lemma IndexAt(k: nat)
    requires k < |AllDirs|
    ensures Index(AllDirs[k]) == k
  {
    AllDirsEnumerates();
  }

  /** The lattice step of a direction, each component in {-1, 0, 1}; only `Self` stays put. */
  function Offset(d: Direction): (o: (int, int))
    ensures -1 <= o.0 <= 1 && -1 <= o.1 <= 1
    ensures o == (0, 0) <==> d == Self
  {
    match d
    case Self => (0, 0)
    case Right => (1, 0)
    case Up => (0, 1)
    case Left => (-1, 0)
    case Down => (0, -1)
    case RightUp => (1, 1)
    case LeftUp => (-1, 1)
    case LeftDown => (-1, -1)
    case RightDown => (1, -1)
  }

  /** The nine offsets are pairwise distinct. */
  lemma OffsetInjective(a: Direction, b: Direction)
    ensures Offset(a) == Offset(b) ==> a == b
  {
  }

  /** `velocity_of`: the offset read as a real vector. */
  function VelocityOf(d: Direction): (v: Vector)
    ensures v == Vector(Offset(d).0 as real, Offset(d).1 as real)
  {
    match d
    case Self => Vector(0.0, 0.0)
    case Right => Vector(1.0, 0.0)
    case Up => Vector(0.0, 1.0)
    case Left => Vector(-1.0, 0.0)
    case Down => Vector(0.0, -1.0)
    case RightUp => Vector(1.0, 1.0)
    case LeftUp => Vector(-1.0, 1.0)
    case LeftDown => Vector(-1.0, -1.0)
    case RightDown => Vector(1.0, -1.0)
  }

  /** `bounce_back`: the opposite direction, whose offset is the negated offset;
      only `Self` is its own opposite. */
  function BounceBack(d: Direction): (r: Direction)
    ensures Offset(r) == (-Offset(d).0, -Offset(d).1)
    ensures r == d <==> d == Self
  {
    match d
    case Self => Self
    case Right => Left
    case Up => Down
    case Left => Right
    case Down => Up
    case RightUp => LeftDown
    case LeftUp => RightDown
    case LeftDown => RightUp
    case RightDown => LeftUp
  }

  /** Taking the opposite twice gives the direction back. */
  lemma BounceBackInvolution(d: Direction)
    ensures BounceBack(BounceBack(d)) == d
  {
  }

  /** The opposite direction's velocity is the negated velocity. */
  lemma BounceBackVelocity(d: Direction)
    ensures VelocityOf(BounceBack(d)) == Neg(VelocityOf(d))
  {
  }

}
