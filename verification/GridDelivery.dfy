/** Where wavelets go, by coordinates: one hop in each direction, past the edge, there and back, and along a routed straight line. */
module GridDeliveries {
  import opened Wavelets
  import opened Mesh
  import opened Routers
  import opened Grids
  import opened FabricTheorems
  import opened FabricRuns

  // The PE in column x and row y, counted row by row.
  ghost predicate Sits(f: Fabric, i: nat, x: int, y: int) {
    0 <= x < f.w && 0 <= y < f.h && i == y * f.w + x
  }

  // All the grid holds is q: on color c, at the PE in column x and row y, in the given output channel or, without one, in the input channel.
  ghost predicate Alone(f: Fabric, x: int, y: int, out: Option<Dir>, c: Color, q: Queue) {
    && f.Valid() && 0 <= x < f.w && 0 <= y < f.h && Routable(c)
    && (forall i, o: Color | 0 <= i < |f.pes| && Routable(o) ::
          f.In(i, o) == if Sits(f, i, x, y) && out.None? && o == c then q else [])
    && (forall i, d: Dir, o: Color | 0 <= i < |f.pes| && Routable(o) ::
          f.Out(i, d, o) == if Sits(f, i, x, y) && out == Some(d) && o == c then q else [])
  }

  ghost predicate Silent(f: Fabric) {
    && f.Valid()
    && (forall i, o: Color | 0 <= i < |f.pes| && Routable(o) :: f.In(i, o) == [])
    && (forall i, d: Dir, o: Color | 0 <= i < |f.pes| && Routable(o) :: f.Out(i, d, o) == [])
  }

  ghost predicate SameRoutes(f: Fabric, g: Fabric) {
    g.SameShape(f) && |g.pes| == |f.pes| && forall i | 0 <= i < |f.pes| :: g.pes[i].config == f.pes[i].config
  }

  ghost predicate Leads(f: Fabric, x: int, y: int, d: Dir, x': int, y': int) {
    f.Valid() && forall i: nat | i < |f.pes| && Sits(f, i, x, y) :: LeadsFrom(f, i, d, x', y')
  }

  ghost predicate LeadsFrom(f: Fabric, i: nat, d: Dir, x': int, y': int)
    requires f.Valid() && i < |f.pes|
  {
    var t := f.Target(i, d);
    if 0 <= x' < f.w && 0 <= y' < f.h then t.Some? && Sits(f, t.value, x', y') else t.None?
  }

  // ----- The hop phase -----

  lemma Somewhere(f: Fabric, x: int, y: int) returns (i: nat)
    requires f.Valid() && 0 <= x < f.w && 0 <= y < f.h
    ensures Sits(f, i, x, y) && i < |f.pes| && i % f.w == x && i / f.w == y && i == Index(f.w, x, y)
  {
    i := Index(f.w, x, y);
    IndexInverse(f.w, f.h, x, y);
  }

  lemma OnlyMove(f: Fabric, i: nat, d: Dir, c: Color, q: Queue)
    requires f.Valid() && i < |f.pes| && Routable(c) && q != []
    requires forall j, e: Dir, o: Color | 0 <= j < |f.pes| && Routable(o) :: f.Out(j, e, o) == if j == i && e == d && o == c then q else []
    ensures f.SnapshotFrom(0, 0, 0) == [Move(i, d, c, |q|)]
  {
    var ms := f.SnapshotFrom(0, 0, 0);
    SnapshotExact(f);
    hide Fabric.SnapshotFrom;
    assert f.Out(i, d, c) == q;
    assert Move(i, d, c, |q|) in ms;
    forall k | 0 <= k < |ms|
      ensures ms[k] == Move(i, d, c, |q|)
    {
      assert f.Out(ms[k].pe, ms[k].d, ms[k].c) != [];
    }
    RankGrows(ms, |ms| - 1);
  }

  lemma {:induction false} RankGrows(ms: seq<Move>, k: nat)
    requires Ascending(ms) && k < |ms|
    ensures Rank(ms[k]) >= Rank(ms[0]) + k
  {
    if k > 0 {
      RankGrows(ms, k - 1);
      assert Rank(ms[k - 1]) < Rank(ms[k]);
    }
  }

  lemma OneMove(f: Fabric, m: Move)
    requires f.Valid() && f.Ranged(m)
    ensures f.HopAll([m]) == f.HopMove(m)
  {
    assert [m][1..] == [];
    HopAllNone(f.HopMove(m));
  }

  // The hop phase takes a lone queue to the one place its direction leads to.
  lemma LoneHop(f: Fabric, x: int, y: int, d: Dir, c: Color, q: Queue, x': int, y': int)
    requires Alone(f, x, y, Some(d), c, q) && q != []
    requires Leads(f, x, y, d, x', y')
    ensures var g := f.HopAll(f.SnapshotFrom(0, 0, 0));
      && SameRoutes(f, g)
      && (if 0 <= x' < f.w && 0 <= y' < f.h then Alone(g, x', y', None, c, q) && g.dropped == f.dropped
          else Silent(g) && g.dropped == f.dropped + |q|)
  {
    hide Fabric.Target, Fabric.SnapshotFrom, Fabric.HopAll, Fabric.HopMove, LeadsFrom;
    var i := Somewhere(f, x, y);
    var m := Move(i, d, c, |q|);
    assert f.Out(i, d, c) == q;
    OnlyMove(f, i, d, c, q);
    OneMove(f, m);
    assert LeadsFrom(f, i, d, x', y');
    LoneMove(f, m, q);
    LandsAt(f, f.HopMove(m), i, x, y, d, c, q, x', y');
  }

  // The queue is gone from its output channel, and in the target's input channel if there is one.
  ghost predicate Handed(f: Fabric, g: Fabric, i: nat, d: Dir, c: Color, q: Queue)
    requires f.Valid() && i < |f.pes|
  {
    var t := f.Target(i, d);
    && g.Valid() && SameRoutes(f, g)
    && (forall j, e: Dir, o: Color | 0 <= j < |g.pes| && Routable(o) :: g.Out(j, e, o) == [])
    && (forall j, o: Color | 0 <= j < |g.pes| && Routable(o) :: g.In(j, o) == if t == Some(j) && o == c then q else [])
    && g.dropped == f.dropped + if t.None? then |q| else 0
  }

  lemma LoneMove(f: Fabric, m: Move, q: Queue)
    requires f.Valid() && f.Ranged(m) && m.count == |q|
    requires forall j, o: Color | 0 <= j < |f.pes| && Routable(o) :: f.In(j, o) == []
    requires forall j, e: Dir, o: Color | 0 <= j < |f.pes| && Routable(o) :: f.Out(j, e, o) == if j == m.pe && e == m.d && o == m.c then q else []
    ensures Handed(f, f.HopMove(m), m.pe, m.d, m.c, q)
  {
    hide Fabric.Target, Fabric.HopMove, Fabric.Crossing;
    HopMoveEffect(f, m);
    WholeQueueCrosses(f, m, q);
    assert q[..|q|] == q && q[|q|..] == [];
  }

  lemma LandsAt(f: Fabric, g: Fabric, i: nat, x: int, y: int, d: Dir, c: Color, q: Queue, x': int, y': int)
    requires f.Valid() && Sits(f, i, x, y) && i < |f.pes| && Routable(c)
    requires LeadsFrom(f, i, d, x', y') && Handed(f, g, i, d, c, q)
    ensures SameRoutes(f, g)
    ensures if 0 <= x' < f.w && 0 <= y' < f.h then Alone(g, x', y', None, c, q) && g.dropped == f.dropped
            else Silent(g) && g.dropped == f.dropped + |q|
  {
    hide Fabric.Target;
  }

  lemma WholeQueueCrosses(f: Fabric, m: Move, q: Queue)
    requires f.Valid() && f.Ranged(m) && f.Out(m.pe, m.d, m.c) == q && m.count == |q|
    requires f.Target(m.pe, m.d).Some? ==> f.In(f.Target(m.pe, m.d).value, m.c) == []
    ensures f.Crossing(m, m.count) == |q|
  {
  }

  // ----- Nothing to forward -----

  lemma {:induction false} IdleForwards(r: RouterState, id: nat)
    requires r.Shaped() && id <= NUM_ROUTABLE && forall c | id <= c < NUM_ROUTABLE :: r.inVc[c] == []
    ensures r.ForwardFrom(id) == r
    decreases NUM_ROUTABLE - id
  {
    if id < NUM_ROUTABLE {
      IdleForwards(r, id + 1);
    }
  }

  lemma IdlePhase(f: Fabric)
    requires f.Valid() && forall i, o: Color | 0 <= i < |f.pes| && Routable(o) :: f.In(i, o) == []
    ensures f.ForwardAll() == f
  {
    forall i | 0 <= i < |f.pes|
      ensures f.pes[i].ForwardAll() == f.pes[i]
    {
      forall c | 0 <= c < NUM_ROUTABLE
        ensures f.pes[i].inVc[c] == []
      {
        assert f.In(i, c) == [];
      }
      IdleForwards(f.pes[i], 0);
    }
    assert f.ForwardAll().pes == f.pes;
  }

  // ----- One cycle -----

  lemma StepIs(f: Fabric, h: Fabric)
    requires f.Valid() && h == f.ForwardAll()
    ensures f.Step() == h.HopAll(h.SnapshotFrom(0, 0, 0)).(cycle := f.cycle + 1)
  {
  }

  lemma CycleAside(g: Fabric, n: nat, x: int, y: int, out: Option<Dir>, c: Color, q: Queue)
    ensures Alone(g, x, y, out, c, q) ==> Alone(g.(cycle := n), x, y, out, c, q)
    ensures Silent(g) ==> Silent(g.(cycle := n))
  {
    var h := g.(cycle := n);
    if g.Valid() {
      assert forall i, o: Color | 0 <= i < |g.pes| && Routable(o) :: h.In(i, o) == g.In(i, o);
      assert forall i, d: Dir, o: Color | 0 <= i < |g.pes| && Routable(o) :: h.Out(i, d, o) == g.Out(i, d, o);
      assert forall i: nat :: Sits(h, i, x, y) == Sits(g, i, x, y);
    }
  }

  // A wavelet that leaves (x, y) and belongs at (x', y') is there after the cycle, or dropped if that is off the grid.
  ghost predicate Arrives(f: Fabric, g: Fabric, x': int, y': int, c: Color, q: Queue) {
    && SameRoutes(f, g) && g.cycle == f.cycle + 1
    && if 0 <= x' < f.w && 0 <= y' < f.h then Alone(g, x', y', None, c, q) && g.dropped == f.dropped
       else Silent(g) && g.dropped == f.dropped + |q|
  }

  lemma LoneStep(f: Fabric, x: int, y: int, d: Dir, c: Color, q: Queue, x': int, y': int)
    requires Alone(f, x, y, Some(d), c, q) && q != []
    requires Leads(f, x, y, d, x', y')
    ensures Arrives(f, f.Step(), x', y', c, q)
  {
    hide Fabric.Target, Fabric.SnapshotFrom, Fabric.HopAll, Fabric.Step, Fabric.ForwardAll;
    IdlePhase(f);
    StepIs(f, f);
    LoneHop(f, x, y, d, c, q, x', y');
    CycleAside(f.HopAll(f.SnapshotFrom(0, 0, 0)), f.cycle + 1, x', y', None, c, q);
    hide Alone, Silent;
  }

  /** On an otherwise empty grid, what waits at (x, y) to leave east is after one cycle at (x + 1, y), west at (x - 1, y), north at (x, y + 1),
      south at (x, y - 1), and to the ramp at (x, y) itself; past the edge it is dropped and counted. */
  lemma StepDelivers(f: Fabric, x: int, y: int, d: Dir, c: Color, q: Queue)
    requires Alone(f, x, y, Some(d), c, q) && q != []
    ensures d == EAST ==> Arrives(f, f.Step(), x + 1, y, c, q)
    ensures d == WEST ==> Arrives(f, f.Step(), x - 1, y, c, q)
    ensures d == NORTH ==> Arrives(f, f.Step(), x, y + 1, c, q)
    ensures d == SOUTH ==> Arrives(f, f.Step(), x, y - 1, c, q)
    ensures d == RAMP ==> Arrives(f, f.Step(), x, y, c, q)
  {
    var i := Somewhere(f, x, y);
    hide Alone, Arrives, Fabric.Step, Fabric.Valid, Index;
    var x', y' := if d == EAST then x + 1 else if d == WEST then x - 1 else x, if d == NORTH then y + 1 else if d == SOUTH then y - 1 else y;
    Compass(f, i, x, y, d, x', y');
    LoneStep(f, x, y, d, c, q, x', y');
  }

  lemma OneAt(f: Fabric, i: nat, x: int, y: int)
    requires Sits(f, i, x, y)
    ensures forall j: nat | Sits(f, j, x, y) :: j == i
  {
  }

  lemma Compass(f: Fabric, i: nat, x: nat, y: nat, d: Dir, x': int, y': int)
    requires f.Valid() && x < f.w && y < f.h && i < |f.pes| && i % f.w == x && i / f.w == y && Sits(f, i, x, y)
    requires x' == (if d == EAST then x + 1 else if d == WEST then x - 1 else x)
    requires y' == (if d == NORTH then y + 1 else if d == SOUTH then y - 1 else y)
    ensures Leads(f, x, y, d, x', y')
  {
    assert LeadsFrom(f, i, d, x', y');
    OneAt(f, i, x, y);
  }

  // Going out in one direction and back in the opposite one ends where it began.
  lemma ThereAndBack(f: Fabric, g: Fabric, h: Fabric, x: int, y: int, d: Dir, e: Dir, x': int, y': int, c: Color, q: Queue)
    requires Alone(f, x, y, Some(d), c, q) && q != [] && Alone(f.Step(), x', y', None, c, q)
    requires (d == EAST && e == WEST) || (d == WEST && e == EAST) || (d == NORTH && e == SOUTH) || (d == SOUTH && e == NORTH)
    requires Alone(h, x', y', Some(e), c, q) && h.w == f.w && h.h == f.h
    ensures Alone(h.Step(), x, y, None, c, q)
  {
    hide Fabric.Step;
    StepDelivers(f, x, y, d, c, q);
    StepDelivers(h, x', y', e, c, q);
    var x1 := if d == EAST then x + 1 else if d == WEST then x - 1 else x;
    var y1 := if d == NORTH then y + 1 else if d == SOUTH then y - 1 else y;
    SameSpot(f.Step(), x1, y1, x', y', c, q);
    hide Alone, Silent;
  }

  // A queue is in one place only.
  lemma SameSpot(g: Fabric, x: int, y: int, x': int, y': int, c: Color, q: Queue)
    requires Alone(g, x', y', None, c, q) && q != []
    ensures !Silent(g)
    ensures Alone(g, x, y, None, c, q) ==> x == x' && y == y'
  {
    var i := Somewhere(g, x', y');
    assert g.In(i, c) == q;
    if Alone(g, x, y, None, c, q) {
      var j := Somewhere(g, x, y);
      assert g.In(j, c) == q;
      assert i == j;
    }
  }

  // ----- Along a routed line -----

  ghost function Emitted(r: RouterState, c: Color, d: Dir, q: Queue): RouterState
    requires r.Shaped() && Routable(c)
  {
    r.(inVc := r.inVc[c := []], outVc := r.outVc[d := r.outVc[d][c := q]])
  }

  lemma {:induction false} Drains(r: RouterState, c: Color, d: Dir, q: Queue, j: nat)
    requires r.Shaped() && Routable(c) && j <= |q| <= VC_DEPTH && r.config[c].Some? && r.config[c].value.tx == {d}
    requires r.inVc[c] == q[j..] && r.outVc[d][c] == q[..j]
    ensures r.ForwardColor(c) == Emitted(r, c, d, q)
    decreases |q| - j
  {
    if j < |q| {
      assert r.CanForward(c);
      var s := r.ForwardOne(c);
      assert q[j..][1..] == q[j + 1..] && q[..j] + [q[j]] == q[..j + 1];
      assert s.inVc == r.inVc[c := q[j + 1..]];
      assert s.outVc == r.outVc[d := r.outVc[d][c := q[..j + 1]]];
      hide RouterState.ForwardOne, RouterState.CanForward;
      Drains(s, c, d, q, j + 1);
      assert s.inVc[c := []] == r.inVc[c := []];
      assert s.outVc[d][c := q] == r.outVc[d][c := q];
      assert s.outVc[d := r.outVc[d][c := q]] == r.outVc[d := r.outVc[d][c := q]];
    } else {
      assert r.inVc == r.inVc[c := []];
      assert q[..j] == q && r.outVc[d][c := q] == r.outVc[d];
      assert r.outVc == r.outVc[d := r.outVc[d]];
    }
  }

  lemma {:induction false} ForwardsOnly(r: RouterState, id: nat, c: Color)
    requires r.Shaped() && id <= c && Routable(c) && forall o | id <= o < c :: r.inVc[o] == []
    ensures r.ForwardFrom(id) == r.ForwardColor(c).ForwardFrom(c + 1)
    decreases c - id
  {
    if id < c {
      ForwardsOnly(r, id + 1, c);
    }
  }

  // A router whose only wavelets are on a color it sends one way emits them all that way.
  lemma LoneForwards(r: RouterState, c: Color, d: Dir, q: Queue)
    requires r.Valid() && Routable(c) && r.config[c].Some? && r.config[c].value.tx == {d}
    requires r.inVc[c] == q && r.outVc[d][c] == [] && forall o | 0 <= o < NUM_ROUTABLE && o != c :: r.inVc[o] == []
    ensures r.ForwardAll() == Emitted(r, c, d, q)
  {
    hide RouterState.ForwardColor, RouterState.ForwardFrom;
    assert q[0..] == q && q[..0] == [];
    Drains(r, c, d, q, 0);
    ForwardsOnly(r, 0, c);
    IdleForwards(r.ForwardColor(c), c + 1);
  }

  // The PE at (x, y) sends color c on in direction d.
  ghost predicate SendsOn(f: Fabric, x: int, y: int, c: Color, d: Dir)
    requires f.Valid() && Routable(c)
  {
    forall i: nat | i < |f.pes| && Sits(f, i, x, y) :: f.pes[i].config[c].Some? && f.pes[i].config[c].value.tx == {d}
  }

  lemma RoutePhase(f: Fabric, x: int, y: int, c: Color, d: Dir, q: Queue)
    requires Alone(f, x, y, None, c, q) && SendsOn(f, x, y, c, d)
    ensures Alone(f.ForwardAll(), x, y, Some(d), c, q) && SameRoutes(f, f.ForwardAll())
  {
    var g := f.ForwardAll();
    var i := Somewhere(f, x, y);
    forall j | 0 <= j < |f.pes|
      ensures g.pes[j] == if j == i then Emitted(f.pes[j], c, d, q) else f.pes[j]
    {
      ForwardedPe(f, x, y, c, d, q, j);
    }
    forall j, e: Dir, o: Color | 0 <= j < |g.pes| && Routable(o)
      ensures g.Out(j, e, o) == if j == i && e == d && o == c then q else []
    {
      assert f.Out(j, e, o) == [];
    }
    forall j, o: Color | 0 <= j < |g.pes| && Routable(o)
      ensures g.In(j, o) == []
    {
      assert f.In(j, o) == if j == i && o == c then q else [];
    }
  }

  lemma ForwardedPe(f: Fabric, x: int, y: int, c: Color, d: Dir, q: Queue, j: nat)
    requires Alone(f, x, y, None, c, q) && SendsOn(f, x, y, c, d) && j < |f.pes|
    ensures f.pes[j].ForwardAll() == if Sits(f, j, x, y) then Emitted(f.pes[j], c, d, q) else f.pes[j]
  {
    var r := f.pes[j];
    forall o | 0 <= o < NUM_ROUTABLE
      ensures r.inVc[o] == if Sits(f, j, x, y) && o == c then q else []
    {
      assert f.In(j, o) == r.inVc[o];
    }
    assert f.Out(j, d, c) == [];
    if Sits(f, j, x, y) {
      LoneForwards(r, c, d, q);
    } else {
      IdleForwards(r, 0);
    }
  }

  ghost predicate InGrid(f: Fabric, x: int, y: int) {
    0 <= x < f.w && 0 <= y < f.h
  }

  // k hops ahead of (x, y).
  function AheadX(x: int, d: Dir, k: int): int {
    if d == EAST then x + k else if d == WEST then x - k else x
  }

  function AheadY(y: int, d: Dir, k: int): int {
    if d == NORTH then y + k else if d == SOUTH then y - k else y
  }

  // What waits in an input channel goes on to the next PE its color is sent to.
  lemma RoutedStep(f: Fabric, x: int, y: int, c: Color, d: Dir, q: Queue)
    requires Alone(f, x, y, None, c, q) && q != [] && SendsOn(f, x, y, c, d)
    ensures Arrives(f, f.Step(), AheadX(x, d, 1), AheadY(y, d, 1), c, q)
  {
    hide Fabric.SnapshotFrom, Fabric.HopAll, Fabric.Step, Fabric.ForwardAll, Fabric.Target;
    var h := f.ForwardAll();
    RoutePhase(f, x, y, c, d, q);
    ForwardKeepsCounters(f);
    StepIs(f, h);
    var i := Somewhere(h, x, y);
    var x', y' := AheadX(x, d, 1), AheadY(y, d, 1);
    Compass(h, i, x, y, d, x', y');
    LoneHop(h, x, y, d, c, q, x', y');
    CycleAside(h.HopAll(h.SnapshotFrom(0, 0, 0)), f.cycle + 1, x', y', None, c, q);
    hide Alone, Silent;
  }

  lemma ForwardKeepsCounters(f: Fabric)
    requires f.Valid()
    ensures f.ForwardAll().dropped == f.dropped
  {
  }

  ghost function Cycles(f: Fabric, n: nat): (g: Fabric)
    requires f.Valid()
    ensures g.Valid()
  {
    if n == 0 then f else Apply(Cycles(f, n - 1), Tick)
  }

  lemma {:induction false} FirstCycle(f: Fabric, n: nat)
    requires f.Valid() && n > 0
    ensures Cycles(f, n) == Cycles(f.Step(), n - 1)
  {
    hide Fabric.Step, Fabric.Valid;
    if n > 1 {
      FirstCycle(f, n - 1);
    }
  }

  /** Down a line of n PEs that send a color on in one direction, wavelets that enter at its start are n cycles later at its end, n hops away,
      in order and complete. */
  lemma {:induction false} StraightRoute(f: Fabric, x: int, y: int, c: Color, d: Dir, q: Queue, n: nat)
    requires Alone(f, x, y, None, c, q) && q != [] && InGrid(f, AheadX(x, d, n), AheadY(y, d, n))
    requires forall k | 0 <= k < n :: SendsOn(f, AheadX(x, d, k), AheadY(y, d, k), c, d)
    ensures Reached(f, Cycles(f, n), AheadX(x, d, n), AheadY(y, d, n), c, q, n)
    decreases n
  {
    hide Fabric.Step, Fabric.Valid, SendsOn, Alone, Arrives, Reached, InGrid, Cycles;
    ValidOf(f, x, y, c, q);
    if n == 0 {
      ReachedNow(f, x, y, d, c, q);
    } else {
      var g, x', y' := f.Step(), AheadX(x, d, 1), AheadY(y, d, 1);
      assert SendsOn(f, AheadX(x, d, 0), AheadY(y, d, 0), c, d);
      RoutedStep(f, x, y, c, d, q);
      InGridAlong(f, x, y, d, n);
      ArrivesInside(f, g, x', y', c, q);
      RouteAhead(f, g, x, y, c, d, n);
      InGridKept(f, g, AheadX(x, d, n), AheadY(y, d, n));
      StraightRoute(g, x', y', c, d, q, n - 1);
      FirstCycle(f, n);
      ReachedLater(f, g, Cycles(g, n - 1), AheadX(x, d, n), AheadY(y, d, n), c, q, n);
    }
  }

  // After n cycles the queue is at (x, y), and nothing else has changed.
  ghost predicate Reached(f: Fabric, g: Fabric, x: int, y: int, c: Color, q: Queue, n: nat) {
    Alone(g, x, y, None, c, q) && SameRoutes(f, g) && g.cycle == f.cycle + n && g.dropped == f.dropped
  }

  lemma ValidOf(f: Fabric, x: int, y: int, c: Color, q: Queue)
    requires Alone(f, x, y, None, c, q)
    ensures f.Valid() && InGrid(f, x, y) && Routable(c)
  {
  }

  lemma ReachedNow(f: Fabric, x: int, y: int, d: Dir, c: Color, q: Queue)
    requires Alone(f, x, y, None, c, q)
    ensures Reached(f, Cycles(f, 0), AheadX(x, d, 0), AheadY(y, d, 0), c, q, 0)
  {
    hide Alone, Fabric.Valid;
  }

  lemma ArrivesInside(f: Fabric, g: Fabric, x: int, y: int, c: Color, q: Queue)
    requires Arrives(f, g, x, y, c, q) && InGrid(f, x, y)
    ensures Alone(g, x, y, None, c, q) && g.Valid() && SameRoutes(f, g) && g.cycle == f.cycle + 1 && g.dropped == f.dropped
  {
    hide Silent;
  }

  lemma InGridKept(f: Fabric, g: Fabric, x: int, y: int)
    requires SameRoutes(f, g) && InGrid(f, x, y)
    ensures InGrid(g, x, y)
  {
  }

  lemma ReachedLater(f: Fabric, g: Fabric, h: Fabric, x: int, y: int, c: Color, q: Queue, n: nat)
    requires n > 0 && SameRoutes(f, g) && g.cycle == f.cycle + 1 && g.dropped == f.dropped && Reached(g, h, x, y, c, q, n - 1)
    ensures Reached(f, h, x, y, c, q, n)
  {
    hide Alone;
  }

  // The rest of the line, seen from its second PE.
  lemma RouteAhead(f: Fabric, g: Fabric, x: int, y: int, c: Color, d: Dir, n: nat)
    requires f.Valid() && g.Valid() && Routable(c) && SameRoutes(f, g) && n > 0
    requires forall k | 0 <= k < n :: SendsOn(f, AheadX(x, d, k), AheadY(y, d, k), c, d)
    ensures forall k | 0 <= k < n - 1 :: SendsOn(g, AheadX(AheadX(x, d, 1), d, k), AheadY(AheadY(y, d, 1), d, k), c, d)
  {
    hide Fabric.Valid, SendsOn, SameRoutes;
    forall k | 0 <= k < n - 1
      ensures SendsOn(g, AheadX(AheadX(x, d, 1), d, k), AheadY(AheadY(y, d, 1), d, k), c, d)
    {
      assert SendsOn(f, AheadX(x, d, k + 1), AheadY(y, d, k + 1), c, d);
      SendsOnKept(f, g, AheadX(x, d, k + 1), AheadY(y, d, k + 1), c, d);
    }
  }

  lemma InGridAlong(f: Fabric, x: int, y: int, d: Dir, n: nat)
    requires n > 0 && InGrid(f, x, y) && InGrid(f, AheadX(x, d, n), AheadY(y, d, n))
    ensures InGrid(f, AheadX(x, d, 1), AheadY(y, d, 1))
  {
  }

  lemma SendsOnKept(f: Fabric, g: Fabric, x: int, y: int, c: Color, d: Dir)
    requires f.Valid() && g.Valid() && Routable(c) && SameRoutes(f, g) && SendsOn(f, x, y, c, d)
    ensures SendsOn(g, x, y, c, d)
  {
    assert forall i: nat :: Sits(g, i, x, y) == Sits(f, i, x, y);
  }
}
