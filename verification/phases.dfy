/** The phases of `World::step` over the flat, row-major node sequences:
    collide every node in place, stream every population into the buffer,
    bounce populations off barriers inside the buffer, and recompute the
    density and velocity caches. */
module Phases {

  import opened Vectors
  import opened Directions
  import opened Slots
  import opened Bgk
  import opened Grids
  import opened Lattice

  /** Slot `e` of node `j`, read as zero off the sequence. */
  function Slot(gs: seq<Grid>, j: int, e: Direction): real
  {
    if 0 <= j < |gs| then Distribution(gs[j], e) else 0.0
  }

  /** Node `p` exists and holds a barrier. */
  predicate BarrierAt(gs: seq<Grid>, p: int)
  {
    0 <= p < |gs| && IsBarrier(gs[p])
  }

  /** The two sequences hold the same alternative at every index. */
  predicate SameKinds(a: seq<Grid>, b: seq<Grid>)
  {
    |a| == |b| && forall i | 0 <= i < |a| :: IsBarrier(a[i]) == IsBarrier(b[i])
  }

  /** The pair (node `p`, direction `e`) comes before the cursor (`pos`, `k`)
      in the visiting order: rows from the bottom, columns from the left,
      directions in `all_dirs` order. */
  predicate Visited(p: int, e: Direction, pos: int, k: int)
  {
    p < pos || (p == pos && Index(e) < k)
  }

  // ---------------------------------------------------------------- collide

  /** Every node relaxed towards the equilibrium of its cached density and
      velocity, the alternatives kept. */
  ghost predicate CollidedAll(m: BGK, gs: seq<Grid>, density: seq<real>, velocity: seq<Vector>, gs': seq<Grid>)
    requires |density| == |gs| && |velocity| == |gs|
  {
    SameKinds(gs', gs) &&
    forall i | 0 <= i < |gs| ::
      Relaxes(m, SlotsOf(gs[i]), Equilibria(density[i], velocity[i]), SlotsOf(gs'[i]))
  }

  /** The collide phase: each node in index order, with its cached `(rho, u)`. */
  method CollidePhase(m: BGK, gs: seq<Grid>, density: seq<real>, velocity: seq<Vector>) returns (gs': seq<Grid>)
    requires |density| == |gs| && |velocity| == |gs|
    ensures CollidedAll(m, gs, density, velocity, gs')
  {
    gs' := gs;
    var i := 0;
    while i < |gs|
      invariant 0 <= i <= |gs| && |gs'| == |gs|
      invariant forall j | i <= j < |gs| :: gs'[j] == gs[j]
      invariant SameKinds(gs', gs)
      invariant forall j | 0 <= j < i ::
        Relaxes(m, SlotsOf(gs[j]), Equilibria(density[j], velocity[j]), SlotsOf(gs'[j]))
    {
      var f' := Collide(m, SlotsOf(gs'[i]), density[i], velocity[i]);
      gs' := gs'[i := WithSlots(gs'[i], f')];
      i := i + 1;
    }
  }

  // ----------------------------------------------------------------- stream

  /** Slot `e` of node `j` during the stream phase: once the pair of its
      upstream node (one step against `e`) has been visited, it holds that
      node's population; until then it holds what it held before. */
  ghost predicate StreamSlot(nx: int, ny: int, src: seq<Grid>, before: seq<Grid>, cur: seq<Grid>,
                             pos: int, k: int, j: int, e: Direction)
    requires 1 <= nx
  {
    Slot(cur, j, e) ==
      if Visited(Neighbour(nx, ny, j, BounceBack(e)), e, pos, k)
      then Slot(src, Neighbour(nx, ny, j, BounceBack(e)), e)
      else Slot(before, j, e)
  }

  /** The stream invariant at cursor (`pos`, `k`), for every slot of the lattice. */
  ghost predicate StreamedUpTo(nx: int, ny: int, src: seq<Grid>, before: seq<Grid>, cur: seq<Grid>, pos: int, k: int)
  {
    1 <= nx && 1 <= ny && |src| == nx * ny && |before| == nx * ny && SameKinds(cur, before) &&
    forall j, e | 0 <= j < nx * ny :: StreamSlot(nx, ny, src, before, cur, pos, k, j, e)
  }

  /** Every slot of `dst` holds the population of the node upstream of it:
      slot `e` of node `j` comes from the node one step against `e`. */
  ghost predicate Streamed(nx: int, ny: int, src: seq<Grid>, before: seq<Grid>, dst: seq<Grid>)
  {
    1 <= nx && 1 <= ny && |src| == nx * ny && SameKinds(dst, before) &&
    forall j, e | 0 <= j < nx * ny ::
      Slot(dst, j, e) == Slot(src, Neighbour(nx, ny, j, BounceBack(e)), e)
  }

  /** Writing the visited pair's population to its downstream slot keeps the
      invariant with the cursor one direction further. */
  lemma StreamWrite(nx: int, ny: int, src: seq<Grid>, before: seq<Grid>, cur: seq<Grid>,
                    idx: int, dir: Direction, k: int, t: int)
    requires StreamedUpTo(nx, ny, src, before, cur, idx, k)
    requires 0 <= idx < nx * ny && Index(dir) == k
    requires t == Neighbour(nx, ny, idx, dir)
    ensures 0 <= t < |cur|
    ensures StreamedUpTo(nx, ny, src, before, cur[t := SetDistribution(cur[t], dir, Slot(src, idx, dir))], idx, k + 1)
  {
    NeighbourOnLattice(nx, ny, idx, dir);
    NeighbourBack(nx, ny, idx, dir);
    var cur' := cur[t := SetDistribution(cur[t], dir, Slot(src, idx, dir))];
    var k' := k + 1;
    forall j, e | 0 <= j < nx * ny
      ensures StreamSlot(nx, ny, src, before, cur', idx, k', j, e)
    {
      StreamWriteSlot(nx, ny, src, before, cur, cur', idx, dir, k, t, j, e);
    }
  }

  /** One slot of `StreamWrite`: only slot `dir` of node `t` changes, and
      its upstream node is `idx`. */
  lemma StreamWriteSlot(nx: int, ny: int, src: seq<Grid>, before: seq<Grid>, cur: seq<Grid>, cur': seq<Grid>,
                        idx: int, dir: Direction, k: int, t: int, j: int, e: Direction)
    requires 1 <= nx && 1 <= ny && |cur| == nx * ny
    requires 0 <= idx < nx * ny && Index(dir) == k && 0 <= t < nx * ny && 0 <= j < nx * ny
    requires t == Neighbour(nx, ny, idx, dir) && Neighbour(nx, ny, t, BounceBack(dir)) == idx
    requires cur' == cur[t := SetDistribution(cur[t], dir, Slot(src, idx, dir))]
    requires StreamSlot(nx, ny, src, before, cur, idx, k, j, e)
    ensures StreamSlot(nx, ny, src, before, cur', idx, k + 1, j, e)
  {
    if j == t && e == dir {
      assert Slot(cur', j, e) == Slot(src, idx, dir);
      assert Visited(idx, dir, idx, k + 1);
    } else {
      assert Slot(cur', j, e) == Slot(cur, j, e);
      var p := Neighbour(nx, ny, j, BounceBack(e));
      if p == idx && Index(e) == k {
        UpstreamInverse(nx, ny, j, e);
        assert false;
      }
      assert Visited(p, e, idx, k + 1) == Visited(p, e, idx, k);
    }
  }

  /** Visiting all nine directions of node `pos` is visiting node `pos` whole. */
  lemma StreamNextNode(nx: int, ny: int, src: seq<Grid>, before: seq<Grid>, cur: seq<Grid>, pos: int)
    requires StreamedUpTo(nx, ny, src, before, cur, pos, |AllDirs|)
    ensures StreamedUpTo(nx, ny, src, before, cur, pos + 1, 0)
  {
    var next := pos + 1;
    forall j, e | 0 <= j < nx * ny
      ensures StreamSlot(nx, ny, src, before, cur, next, 0, j, e)
    {
      assert StreamSlot(nx, ny, src, before, cur, pos, |AllDirs|, j, e);
    }
  }

  /** The stream loop body for node `(x, y)`: each direction's population is
      copied to the same slot of the neighbour in that direction. */
  method StreamNode(nx: int, ny: int, src: seq<Grid>, ghost before: seq<Grid>, cur: seq<Grid>, x: int, y: int)
    returns (cur': seq<Grid>)
    requires 0 <= x < nx && 0 <= y < ny
    requires StreamedUpTo(nx, ny, src, before, cur, y * nx + x, 0)
    ensures StreamedUpTo(nx, ny, src, before, cur', y * nx + x + 1, 0)
  {
    var idx := IdxOf(nx, ny, x, y);
    RowMajorInRange(nx, ny, x, y);
    cur' := cur;
    var k := 0;
    while k < |AllDirs|
      invariant 0 <= k <= |AllDirs|
      invariant StreamedUpTo(nx, ny, src, before, cur', idx, k)
    {
      var dir := AllDirs[k];
      var (dx, dy) := Offset(dir);
      var t := IdxOf(nx, ny, x + dx, y + dy);
      NeighbourInRange(nx, ny, x, y, dir);
      IndexAt(k);
      StreamWrite(nx, ny, src, before, cur', idx, dir, k, t);
      cur' := cur'[t := SetDistribution(cur'[t], dir, Distribution(src[idx], dir))];
      k := k + 1;
    }
    StreamNextNode(nx, ny, src, before, cur', idx);
  }

  /** The stream phase: every node, row by row, pushes its populations into
      the buffer. Every buffer slot is written exactly once, so nothing of the
      buffer's previous contents survives. */
  method StreamPhase(nx: int, ny: int, src: seq<Grid>, buffer: seq<Grid>) returns (dst: seq<Grid>)
    requires 1 <= nx && 1 <= ny && |src| == nx * ny && |buffer| == nx * ny
    ensures Streamed(nx, ny, src, buffer, dst)
  {
    dst := buffer;
    StreamStart(nx, ny, src, buffer);
    var y := 0;
    while y < ny
      invariant 0 <= y <= ny
      invariant StreamedUpTo(nx, ny, src, buffer, dst, y * nx, 0)
    {
      dst := StreamRow(nx, ny, src, buffer, dst, y);
      y := y + 1;
    }
    StreamFinish(nx, ny, src, buffer, dst);
  }

  /** Row `y` of the stream phase, from the left. */
  method StreamRow(nx: int, ny: int, src: seq<Grid>, ghost before: seq<Grid>, cur: seq<Grid>, y: int)
    returns (cur': seq<Grid>)
    requires 0 <= y < ny
    requires StreamedUpTo(nx, ny, src, before, cur, y * nx, 0)
    ensures StreamedUpTo(nx, ny, src, before, cur', (y + 1) * nx, 0)
  {
    cur' := cur;
    var x := 0;
    while x < nx
      invariant 0 <= x <= nx
      invariant StreamedUpTo(nx, ny, src, before, cur', y * nx + x, 0)
    {
      cur' := StreamNode(nx, ny, src, before, cur', x, y);
      x := x + 1;
    }
    NextRow(nx, y);
  }

  /** Before any node is visited the buffer is as it was. */
  lemma StreamStart(nx: int, ny: int, src: seq<Grid>, before: seq<Grid>)
    requires 1 <= nx && 1 <= ny && |src| == nx * ny && |before| == nx * ny
    ensures StreamedUpTo(nx, ny, src, before, before, 0 * nx, 0)
  {
    forall j, e | 0 <= j < nx * ny
      ensures StreamSlot(nx, ny, src, before, before, 0 * nx, 0, j, e)
    {
      NeighbourOnLattice(nx, ny, j, BounceBack(e));
    }
  }

  /** Once every node has been visited, every slot has been streamed. */
  lemma StreamFinish(nx: int, ny: int, src: seq<Grid>, before: seq<Grid>, cur: seq<Grid>)
    requires StreamedUpTo(nx, ny, src, before, cur, ny * nx, 0)
    ensures Streamed(nx, ny, src, before, cur)
  {
    forall j, e | 0 <= j < nx * ny
      ensures Slot(cur, j, e) == Slot(src, Neighbour(nx, ny, j, BounceBack(e)), e)
    {
      assert StreamSlot(nx, ny, src, before, cur, ny * nx, 0, j, e);
      NeighbourOnLattice(nx, ny, j, BounceBack(e));
    }
  }

  /** The cursor after the last node of row `y` is the first node of row `y + 1`. */
  lemma NextRow(nx: int, y: int)
    ensures y * nx + nx == (y + 1) * nx
  {
  }

  // ----------------------------------------------------------------- bounce

  /** A slot whose writer (the node one step against its direction) is not a
      barrier keeps the value it had before the bounce phase. */
  ghost predicate Untouched(nx: int, ny: int, before: seq<Grid>, cur: seq<Grid>, j: int, e: Direction)
    requires 1 <= nx
  {
    BarrierAt(before, Neighbour(nx, ny, j, BounceBack(e))) || Slot(cur, j, e) == Slot(before, j, e)
  }

  /** A fluid slot whose writer is a barrier holds, once the barrier's pair
      has been visited, the population the barrier held in the opposite slot,
      and until then what it held before. */
  ghost predicate EchoSlot(nx: int, ny: int, before: seq<Grid>, cur: seq<Grid>, pos: int, k: int, j: int, e: Direction)
    requires 1 <= nx
  {
    BarrierAt(before, j) || !BarrierAt(before, Neighbour(nx, ny, j, BounceBack(e))) ||
    Slot(cur, j, e) ==
      if Visited(Neighbour(nx, ny, j, BounceBack(e)), BounceBack(e), pos, k)
      then Slot(before, Neighbour(nx, ny, j, BounceBack(e)), BounceBack(e))
      else Slot(before, j, e)
  }

  /** The bounce invariant at cursor (`pos`, `k`), for every slot of the lattice. */
  ghost predicate BouncedUpTo(nx: int, ny: int, before: seq<Grid>, cur: seq<Grid>, pos: int, k: int)
  {
    1 <= nx && 1 <= ny && |before| == nx * ny && SameKinds(cur, before) &&
    forall j, e | 0 <= j < nx * ny ::
      Untouched(nx, ny, before, cur, j, e) && EchoSlot(nx, ny, before, cur, pos, k, j, e)
  }

  /** After the bounce phase: slots not written by a barrier keep their
      values, and a fluid slot whose upstream node is a barrier holds the
      population that barrier held, after streaming, in the opposite direction. */
  ghost predicate Bounced(nx: int, ny: int, before: seq<Grid>, after: seq<Grid>)
  {
    1 <= nx && 1 <= ny && |before| == nx * ny && SameKinds(after, before) &&
    (forall j, e | 0 <= j < nx * ny && !BarrierAt(before, Neighbour(nx, ny, j, BounceBack(e))) ::
       Slot(after, j, e) == Slot(before, j, e)) &&
    (forall j, e | 0 <= j < nx * ny && !BarrierAt(before, j) && BarrierAt(before, Neighbour(nx, ny, j, BounceBack(e))) ::
       Slot(after, j, e) == Slot(before, Neighbour(nx, ny, j, BounceBack(e)), BounceBack(e)))
  }

  /** Writing a barrier's slot `dir` into the opposite slot of its neighbour
      in the opposite direction keeps the invariant one direction further. */
  lemma BounceWrite(nx: int, ny: int, before: seq<Grid>, cur: seq<Grid>, idx: int, dir: Direction, k: int, t: int)
    requires BouncedUpTo(nx, ny, before, cur, idx, k)
    requires 0 <= idx < nx * ny && IsBarrier(cur[idx]) && Index(dir) == k
    requires t == Neighbour(nx, ny, idx, BounceBack(dir))
    ensures 0 <= t < |cur|
    ensures BouncedUpTo(nx, ny, before, cur[t := SetDistribution(cur[t], BounceBack(dir), Slot(cur, idx, dir))], idx, k + 1)
  {
    var back := BounceBack(dir);
    BounceBackInvolution(dir);
    NeighbourOnLattice(nx, ny, idx, back);
    NeighbourBack(nx, ny, idx, back);
    assert Untouched(nx, ny, before, cur, idx, dir);
    var cur' := cur[t := SetDistribution(cur[t], back, Slot(cur, idx, dir))];
    var k' := k + 1;
    forall j, e | 0 <= j < nx * ny
      ensures Untouched(nx, ny, before, cur', j, e) && EchoSlot(nx, ny, before, cur', idx, k', j, e)
    {
      BounceWriteSlot(nx, ny, before, cur, cur', idx, dir, k, t, j, e);
    }
  }

  /** One slot of `BounceWrite`: only slot `back` of node `t` changes, and
      its writer is the barrier at `idx`. */
  lemma BounceWriteSlot(nx: int, ny: int, before: seq<Grid>, cur: seq<Grid>, cur': seq<Grid>,
                        idx: int, dir: Direction, k: int, t: int, j: int, e: Direction)
    requires 1 <= nx && 1 <= ny && |before| == nx * ny && SameKinds(cur, before)
    requires 0 <= idx < nx * ny && IsBarrier(cur[idx]) && Index(dir) == k && 0 <= t < nx * ny && 0 <= j < nx * ny
    requires BounceBack(BounceBack(dir)) == dir
    requires t == Neighbour(nx, ny, idx, BounceBack(dir)) && Neighbour(nx, ny, t, dir) == idx
    requires Untouched(nx, ny, before, cur, idx, dir)
    requires cur' == cur[t := SetDistribution(cur[t], BounceBack(dir), Slot(cur, idx, dir))]
    requires Untouched(nx, ny, before, cur, j, e) && EchoSlot(nx, ny, before, cur, idx, k, j, e)
    ensures Untouched(nx, ny, before, cur', j, e) && EchoSlot(nx, ny, before, cur', idx, k + 1, j, e)
  {
    if j == t && e == BounceBack(dir) {
      BounceWrittenSlot(nx, ny, before, cur, cur', idx, dir, k, t);
    } else {
      BounceOtherSlot(nx, ny, before, cur, cur', idx, dir, k, t, j, e);
    }
  }

  /** The slot `BounceWrite` writes: its writer is the barrier at `idx`, and
      it now holds what that barrier held in slot `dir`. */
  lemma BounceWrittenSlot(nx: int, ny: int, before: seq<Grid>, cur: seq<Grid>, cur': seq<Grid>,
                          idx: int, dir: Direction, k: int, t: int)
    requires 1 <= nx && 1 <= ny && |before| == nx * ny && SameKinds(cur, before)
    requires 0 <= idx < nx * ny && IsBarrier(cur[idx]) && Index(dir) == k && 0 <= t < nx * ny
    requires BounceBack(BounceBack(dir)) == dir
    requires t == Neighbour(nx, ny, idx, BounceBack(dir)) && Neighbour(nx, ny, t, dir) == idx
    requires Untouched(nx, ny, before, cur, idx, dir)
    requires cur' == cur[t := SetDistribution(cur[t], BounceBack(dir), Slot(cur, idx, dir))]
    ensures Untouched(nx, ny, before, cur', t, BounceBack(dir))
    ensures EchoSlot(nx, ny, before, cur', idx, k + 1, t, BounceBack(dir))
  {
    assert BarrierAt(before, idx);
    assert Slot(cur', t, BounceBack(dir)) == Slot(cur, idx, dir);
    assert Visited(idx, dir, idx, k + 1);
  }

  /** Every other slot keeps its value, and whether its writer has been
      visited does not change. */
  lemma BounceOtherSlot(nx: int, ny: int, before: seq<Grid>, cur: seq<Grid>, cur': seq<Grid>,
                        idx: int, dir: Direction, k: int, t: int, j: int, e: Direction)
    requires 1 <= nx && 1 <= ny && |before| == nx * ny && SameKinds(cur, before)
    requires 0 <= idx < nx * ny && Index(dir) == k && 0 <= t < nx * ny && 0 <= j < nx * ny
    requires t == Neighbour(nx, ny, idx, BounceBack(dir))
    requires !(j == t && e == BounceBack(dir))
    requires cur' == cur[t := SetDistribution(cur[t], BounceBack(dir), Slot(cur, idx, dir))]
    requires Untouched(nx, ny, before, cur, j, e) && EchoSlot(nx, ny, before, cur, idx, k, j, e)
    ensures Untouched(nx, ny, before, cur', j, e) && EchoSlot(nx, ny, before, cur', idx, k + 1, j, e)
  {
    assert Slot(cur', j, e) == Slot(cur, j, e);
    var p := Neighbour(nx, ny, j, BounceBack(e));
    if p == idx && Index(BounceBack(e)) == k {
      UpstreamInverse(nx, ny, j, e);
      BounceBackInvolution(e);
      assert false;
    }
    assert Visited(p, BounceBack(e), idx, k + 1) == Visited(p, BounceBack(e), idx, k);
  }

  /** A fluid node writes nothing in the bounce phase: the cursor moves on. */
  lemma BounceSkip(nx: int, ny: int, before: seq<Grid>, cur: seq<Grid>, idx: int)
    requires BouncedUpTo(nx, ny, before, cur, idx, 0)
    requires 0 <= idx < nx * ny && !IsBarrier(before[idx])
    ensures BouncedUpTo(nx, ny, before, cur, idx + 1, 0)
  {
    var next := idx + 1;
    forall j, e | 0 <= j < nx * ny
      ensures EchoSlot(nx, ny, before, cur, next, 0, j, e)
    {
      assert EchoSlot(nx, ny, before, cur, idx, 0, j, e);
    }
  }

  /** Visiting all nine directions of node `pos` is visiting node `pos` whole. */
  lemma BounceNextNode(nx: int, ny: int, before: seq<Grid>, cur: seq<Grid>, pos: int)
    requires BouncedUpTo(nx, ny, before, cur, pos, |AllDirs|)
    ensures BouncedUpTo(nx, ny, before, cur, pos + 1, 0)
  {
    var next := pos + 1;
    forall j, e | 0 <= j < nx * ny
      ensures EchoSlot(nx, ny, before, cur, next, 0, j, e)
    {
      assert EchoSlot(nx, ny, before, cur, pos, |AllDirs|, j, e);
    }
  }

  /** The bounce loop body for node `(x, y)`: a barrier sends the population
      of each of its slots back into the opposite slot of the neighbour in the
      opposite direction; a fluid node does nothing. */
  method BounceNode(nx: int, ny: int, ghost before: seq<Grid>, cur: seq<Grid>, x: int, y: int)
    returns (cur': seq<Grid>)
    requires 0 <= x < nx && 0 <= y < ny
    requires BouncedUpTo(nx, ny, before, cur, y * nx + x, 0)
    ensures BouncedUpTo(nx, ny, before, cur', y * nx + x + 1, 0)
    ensures !BarrierAt(cur, y * nx + x) ==> cur' == cur
  {
    var idx := IdxOf(nx, ny, x, y);
    RowMajorInRange(nx, ny, x, y);
    if IsBarrier(cur[idx]) {
      cur' := BounceBarrier(nx, ny, before, cur, x, y);
    } else {
      cur' := cur;
      BounceSkip(nx, ny, before, cur', idx);
    }
  }

  /** The nine writes of the barrier at `(x, y)`, in `all_dirs` order. */
  method BounceBarrier(nx: int, ny: int, ghost before: seq<Grid>, cur: seq<Grid>, x: int, y: int)
    returns (cur': seq<Grid>)
    requires 0 <= x < nx && 0 <= y < ny && 0 <= y * nx + x < |cur|
    requires BouncedUpTo(nx, ny, before, cur, y * nx + x, 0)
    requires IsBarrier(cur[y * nx + x])
    ensures BouncedUpTo(nx, ny, before, cur', y * nx + x + 1, 0)
  {
    var idx := IdxOf(nx, ny, x, y);
    cur' := cur;
    var k := 0;
    while k < |AllDirs|
      invariant 0 <= k <= |AllDirs|
      invariant BouncedUpTo(nx, ny, before, cur', idx, k)
    {
      var dir := AllDirs[k];
      var back := BounceBack(dir);
      var (dx, dy) := Offset(back);
      var t := IdxOf(nx, ny, x + dx, y + dy);
      NeighbourInRange(nx, ny, x, y, back);
      IndexAt(k);
      BounceWrite(nx, ny, before, cur', idx, dir, k, t);
      cur' := cur'[t := SetDistribution(cur'[t], back, Distribution(cur'[idx], dir))];
      k := k + 1;
    }
    BounceNextNode(nx, ny, before, cur', idx);
  }

  /** The bounce phase over the streamed buffer, node by node in row order. */
  method BouncePhase(nx: int, ny: int, buffer: seq<Grid>) returns (after: seq<Grid>)
    requires 1 <= nx && 1 <= ny && |buffer| == nx * ny
    ensures Bounced(nx, ny, buffer, after)
  {
    after := buffer;
    BounceStart(nx, ny, buffer);
    var y := 0;
    while y < ny
      invariant 0 <= y <= ny
      invariant BouncedUpTo(nx, ny, buffer, after, y * nx, 0)
    {
      after := BounceRow(nx, ny, buffer, after, y);
      y := y + 1;
    }
    BounceFinish(nx, ny, buffer, after);
  }

  /** Row `y` of the bounce phase, from the left. */
  method BounceRow(nx: int, ny: int, ghost before: seq<Grid>, cur: seq<Grid>, y: int) returns (cur': seq<Grid>)
    requires 0 <= y < ny
    requires BouncedUpTo(nx, ny, before, cur, y * nx, 0)
    ensures BouncedUpTo(nx, ny, before, cur', (y + 1) * nx, 0)
  {
    cur' := cur;
    var x := 0;
    while x < nx
      invariant 0 <= x <= nx
      invariant BouncedUpTo(nx, ny, before, cur', y * nx + x, 0)
    {
      cur' := BounceNode(nx, ny, before, cur', x, y);
      x := x + 1;
    }
    NextRow(nx, y);
  }

  /** Before any node is visited nothing has been bounced. */
  lemma BounceStart(nx: int, ny: int, before: seq<Grid>)
    requires 1 <= nx && 1 <= ny && |before| == nx * ny
    ensures BouncedUpTo(nx, ny, before, before, 0 * nx, 0)
  {
    forall j, e | 0 <= j < nx * ny
      ensures Untouched(nx, ny, before, before, j, e) && EchoSlot(nx, ny, before, before, 0 * nx, 0, j, e)
    {
      NeighbourOnLattice(nx, ny, j, BounceBack(e));
    }
  }

  /** Once every node has been visited, every fluid slot next to a barrier has been bounced. */
  lemma BounceFinish(nx: int, ny: int, before: seq<Grid>, cur: seq<Grid>)
    requires BouncedUpTo(nx, ny, before, cur, ny * nx, 0)
    ensures Bounced(nx, ny, before, cur)
  {
    var all := ny * nx;
    forall j, e | 0 <= j < nx * ny && !BarrierAt(before, j) && BarrierAt(before, Neighbour(nx, ny, j, BounceBack(e)))
      ensures Slot(cur, j, e) == Slot(before, Neighbour(nx, ny, j, BounceBack(e)), BounceBack(e))
    {
      assert EchoSlot(nx, ny, before, cur, all, 0, j, e);
    }
    forall j, e | 0 <= j < nx * ny && !BarrierAt(before, Neighbour(nx, ny, j, BounceBack(e)))
      ensures Slot(cur, j, e) == Slot(before, j, e)
    {
      assert Untouched(nx, ny, before, cur, j, e);
    }
  }

  // -------------------------------------------------------------- recompute

  /** The caches hold each node's density and its velocity at that density. A
      fluid node of density zero, where the division has no real value, caches
      the zero vector. */
  ghost predicate Cached(gs: seq<Grid>, density: seq<real>, velocity: seq<Vector>)
  {
    |density| == |gs| && |velocity| == |gs| &&
    forall i | 0 <= i < |gs| ::
      density[i] == Density(gs[i]) &&
      velocity[i] == if IsBarrier(gs[i]) || density[i] != 0.0 then Velocity(gs[i], density[i]) else Zero
  }

  /** The recompute phase: each node's density, then its velocity at that density. */
  method RecomputePhase(gs: seq<Grid>) returns (density: seq<real>, velocity: seq<Vector>)
    ensures Cached(gs, density, velocity)
  {
    density := seq(|gs|, _ => 0.0);
    velocity := seq(|gs|, _ => Zero);
    var i := 0;
    while i < |gs|
      invariant 0 <= i <= |gs| && |density| == |gs| && |velocity| == |gs|
      invariant forall j | 0 <= j < i ::
        density[j] == Density(gs[j]) &&
        velocity[j] == if IsBarrier(gs[j]) || density[j] != 0.0 then Velocity(gs[j], density[j]) else Zero
    {
      var rho := Density(gs[i]);
      density := density[i := rho];
      if IsBarrier(gs[i]) || rho != 0.0 {
        velocity := velocity[i := Velocity(gs[i], rho)];
      } else {
        velocity := velocity[i := Zero];
      }
      i := i + 1;
    }
  }

}
