/** The nine populations a lattice node stores (`std::array<double, 9>`),
    addressed by direction, with their zeroth and first moments. */
module Slots {

  import opened Vectors
  import opened Directions

  /** One population per direction, at position `Index(d)`. */
  type Populations = s: seq<real> | |s| == 9
    witness [0.0, 0.0, 0.0, 0.0, 0.0, 0.0, 0.0, 0.0, 0.0]

  function Get(f: Populations, d: Direction): real
  {
    f[Index(d)]
  }

  /** Writing slot `d` stores `v` there and changes no other slot. */
  function Set(f: Populations, d: Direction, v: real): (r: Populations)
    ensures Get(r, d) == v
    ensures forall e | e != d :: Get(r, e) == Get(f, e)
  {
    f[Index(d) := v]
  }

  /** Reading and writing the direction at position `k` of `all_dirs` reads
      and writes slot `k`. */
  lemma AtPosition(f: Populations, k: nat, d: Direction)
    requires k < |AllDirs| && d == AllDirs[k]
    ensures Get(f, d) == f[k]
    ensures forall v: real {:trigger Set(f, d, v)} :: Set(f, d, v) == f[k := v]
  {
    AllDirsEnumerates();
  }

  /** Two population sets that agree in every direction are equal. */
  lemma Extensionality(a: Populations, b: Populations)
    requires forall d :: Get(a, d) == Get(b, d)
    ensures a == b
  {
    forall i | 0 <= i < 9
      ensures a[i] == b[i]
    {
      IndexAt(i);
      assert Get(a, AllDirs[i]) == Get(b, AllDirs[i]);
    }
  }

  /** The left-to-right running sum of a sequence of populations. */
  function Sum(s: seq<real>): real
  {
    if |s| == 0 then 0.0 else Sum(s[..|s| - 1]) + s[|s| - 1]
  }

  /** The sum of the nine slots, written out per direction. */
  lemma {:induction false} SumOfNine(f: Populations)
    ensures Sum(f) == Get(f, Self) + Get(f, Right) + Get(f, RightUp) + Get(f, Up)
                    + Get(f, LeftUp) + Get(f, Left) + Get(f, LeftDown) + Get(f, Down)
                    + Get(f, RightDown)
  {
    assert f[..9] == f;
    assert f[..1][..0] == f[..0];
    assert Sum(f[..1]) == Sum(f[..0]) + f[0];
    assert f[..2][..1] == f[..1];
    assert Sum(f[..2]) == Sum(f[..1]) + f[1];
    assert f[..3][..2] == f[..2];
    assert Sum(f[..3]) == Sum(f[..2]) + f[2];
    assert f[..4][..3] == f[..3];
    assert Sum(f[..4]) == Sum(f[..3]) + f[3];
    assert f[..5][..4] == f[..4];
    assert Sum(f[..5]) == Sum(f[..4]) + f[4];
    assert f[..6][..5] == f[..5];
    assert Sum(f[..6]) == Sum(f[..5]) + f[5];
    assert f[..7][..6] == f[..6];
    assert Sum(f[..7]) == Sum(f[..6]) + f[6];
    assert f[..8][..7] == f[..7];
    assert Sum(f[..8]) == Sum(f[..7]) + f[7];
    assert f[..9][..8] == f[..8];
    assert Sum(f[..9]) == Sum(f[..8]) + f[8];
  }

  /** The first moment over the directions `ds`: the sum of each direction's
      velocity weighted by its population. */
  function Moment(f: Populations, ds: seq<Direction>): Vector
  {
    if |ds| == 0 then Zero
    else Add(Moment(f, ds[..|ds| - 1]), Scale(VelocityOf(ds[|ds| - 1]), Get(f, ds[|ds| - 1])))
  }

  function FirstMoment(f: Populations): Vector
  {
    Moment(f, AllDirs)
  }

  /** The first moment, written out per direction: the right-leaning minus the
      left-leaning populations, and the up-leaning minus the down-leaning ones. */
  lemma {:induction false} FirstMomentOfNine(f: Populations)
    ensures FirstMoment(f).x == Get(f, Right) + Get(f, RightUp) + Get(f, RightDown)
                              - Get(f, Left) - Get(f, LeftUp) - Get(f, LeftDown)
    ensures FirstMoment(f).y == Get(f, RightUp) + Get(f, Up) + Get(f, LeftUp)
                              - Get(f, RightDown) - Get(f, Down) - Get(f, LeftDown)
  {
    var ds := AllDirs;
    assert ds[..9] == ds;
    assert ds[..1][..0] == ds[..0];
    assert Moment(f, ds[..1]) == Add(Moment(f, ds[..0]), Scale(VelocityOf(ds[0]), Get(f, ds[0])));
    assert ds[..2][..1] == ds[..1];
    assert Moment(f, ds[..2]) == Add(Moment(f, ds[..1]), Scale(VelocityOf(ds[1]), Get(f, ds[1])));
    assert ds[..3][..2] == ds[..2];
    assert Moment(f, ds[..3]) == Add(Moment(f, ds[..2]), Scale(VelocityOf(ds[2]), Get(f, ds[2])));
    assert ds[..4][..3] == ds[..3];
    assert Moment(f, ds[..4]) == Add(Moment(f, ds[..3]), Scale(VelocityOf(ds[3]), Get(f, ds[3])));
    assert ds[..5][..4] == ds[..4];
    assert Moment(f, ds[..5]) == Add(Moment(f, ds[..4]), Scale(VelocityOf(ds[4]), Get(f, ds[4])));
    assert ds[..6][..5] == ds[..5];
    assert Moment(f, ds[..6]) == Add(Moment(f, ds[..5]), Scale(VelocityOf(ds[5]), Get(f, ds[5])));
    assert ds[..7][..6] == ds[..6];
    assert Moment(f, ds[..7]) == Add(Moment(f, ds[..6]), Scale(VelocityOf(ds[6]), Get(f, ds[6])));
    assert ds[..8][..7] == ds[..7];
    assert Moment(f, ds[..8]) == Add(Moment(f, ds[..7]), Scale(VelocityOf(ds[7]), Get(f, ds[7])));
    assert ds[..9][..8] == ds[..8];
    assert Moment(f, ds[..9]) == Add(Moment(f, ds[..8]), Scale(VelocityOf(ds[8]), Get(f, ds[8])));
  }

  /** The running sum is linear: mixing slot by slot mixes the sums. */
  lemma {:induction false} SumMix(a: seq<real>, b: seq<real>, c: seq<real>, w: real)
    requires |a| == |b| == |c|
    requires forall i | 0 <= i < |c| :: c[i] == (1.0 - w) * a[i] + w * b[i]
    ensures Sum(c) == (1.0 - w) * Sum(a) + w * Sum(b)
  {
    if |c| > 0 {
      var n := |c| - 1;
      SumMix(a[..n], b[..n], c[..n], w);
      MixStep(w, Sum(a[..n]), Sum(b[..n]), a[n], b[n]);
    }
  }

  /** `(1-w) A + w B + ((1-w) a + w b) == (1-w) (A + a) + w (B + b)`. */
  lemma MixStep(w: real, sa: real, sb: real, x: real, y: real)
    ensures (1.0 - w) * sa + w * sb + ((1.0 - w) * x + w * y) == (1.0 - w) * (sa + x) + w * (sb + y)
  {
  }

  /** The first moment is linear: mixing slot by slot mixes both components. */
  lemma FirstMomentMix(a: Populations, b: Populations, c: Populations, w: real)
    requires forall i | 0 <= i < 9 :: c[i] == (1.0 - w) * a[i] + w * b[i]
    ensures FirstMoment(c).x == (1.0 - w) * FirstMoment(a).x + w * FirstMoment(b).x
    ensures FirstMoment(c).y == (1.0 - w) * FirstMoment(a).y + w * FirstMoment(b).y
  {
    FirstMomentAt(a);
    FirstMomentAt(b);
    FirstMomentAt(c);
    SignedMixAt(a, b, c, w, 1, 2, 8, 5, 4, 6);
    SignedMixAt(a, b, c, w, 2, 3, 4, 8, 7, 6);
  }

  /** The first moment by slot position. */
  lemma FirstMomentAt(f: Populations)
    ensures FirstMoment(f) == Vector(f[1] + f[2] + f[8] - f[5] - f[4] - f[6],
                                     f[2] + f[3] + f[4] - f[8] - f[7] - f[6])
  {
    FirstMomentOfNine(f);
  }

  /** Mixing slot by slot mixes any signed sum `+ + + - - -` of six slots. */
  lemma SignedMixAt(a: Populations, b: Populations, c: Populations, w: real,
                    i1: nat, i2: nat, i3: nat, i4: nat, i5: nat, i6: nat)
    requires forall i | 0 <= i < 9 :: c[i] == (1.0 - w) * a[i] + w * b[i]
    requires i1 < 9 && i2 < 9 && i3 < 9 && i4 < 9 && i5 < 9 && i6 < 9
    ensures c[i1] + c[i2] + c[i3] - c[i4] - c[i5] - c[i6]
         == (1.0 - w) * (a[i1] + a[i2] + a[i3] - a[i4] - a[i5] - a[i6])
          + w * (b[i1] + b[i2] + b[i3] - b[i4] - b[i5] - b[i6])
  {
    SignedMix(w, a[i1], a[i2], a[i3], a[i4], a[i5], a[i6], b[i1], b[i2], b[i3], b[i4], b[i5], b[i6]);
  }

  /** `(1-w) a_i + w b_i` summed with signs `+ + + - - -` is the same mix of the signed sums. */
  lemma SignedMix(w: real, a1: real, a2: real, a3: real, a4: real, a5: real, a6: real,
                  b1: real, b2: real, b3: real, b4: real, b5: real, b6: real)
    ensures ((1.0 - w) * a1 + w * b1) + ((1.0 - w) * a2 + w * b2) + ((1.0 - w) * a3 + w * b3)
          - ((1.0 - w) * a4 + w * b4) - ((1.0 - w) * a5 + w * b5) - ((1.0 - w) * a6 + w * b6)
         == (1.0 - w) * (a1 + a2 + a3 - a4 - a5 - a6) + w * (b1 + b2 + b3 - b4 - b5 - b6)
  {
  }

}
