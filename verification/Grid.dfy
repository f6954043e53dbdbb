/** The PE mesh: one router per PE, advanced one cycle at a time (routing phase, then hop phase). */
module Grids {
  import opened Wavelets
  import opened Mesh
  import opened Arithmetic
  import opened Routers

  // One snapshotted output channel: `count` wavelets of color c wait at PE `pe` to leave in direction d.
  datatype Move = Move(pe: nat, d: Dir, c: Color, count: nat)

  /** The contents of a grid as a value; every grid operation is specified on it. */
  datatype Fabric = Fabric(w: nat, h: nat, pes: seq<RouterState>, dropped: nat, cycle: nat)
  {
    ghost predicate Valid() {
      && 0 < w && 0 < h
      && |pes| == w * h
      && (forall i | 0 <= i < |pes| :: pes[i].Valid())
    }

    ghost predicate SameShape(f: Fabric) {
      f.w == w && f.h == h && |f.pes| == |pes|
    }

    ghost function In(i: nat, c: Color): Queue
      requires Valid() && i < |pes| && Routable(c)
    {
      pes[i].inVc[c]
    }

    ghost function Out(i: nat, d: Dir, c: Color): Queue
      requires Valid() && i < |pes| && Routable(c)
    {
      pes[i].outVc[d][c]
    }

    ghost function SetIn(i: nat, c: Color, q: Queue): (f: Fabric)
      requires Valid() && i < |pes| && Routable(c) && |q| <= VC_DEPTH
      ensures f.Valid() && SameShape(f) && f.dropped == dropped && f.cycle == cycle
    {
      this.(pes := pes[i := pes[i].(inVc := pes[i].inVc[c := q])])
    }

    ghost function SetOut(i: nat, d: Dir, c: Color, q: Queue): (f: Fabric)
      requires Valid() && i < |pes| && Routable(c) && |q| <= VC_DEPTH
      ensures f.Valid() && SameShape(f) && f.dropped == dropped && f.cycle == cycle
    {
      this.(pes := pes[i := pes[i].(outVc := pes[i].outVc[d := pes[i].outVc[d][c := q]])])
    }

    // Where a wavelet leaving PE i in direction d lands; the ramp delivers to the PE itself.
    ghost function Target(i: nat, d: Dir): (t: Option<nat>)
      requires Valid() && i < |pes|
      ensures t.Some? ==> t.value < |pes|
    {
      NeighborInGrid(w, h, i, d);
      if d == RAMP then Some(i) else Neighbor(w, h, i, d)
    }

    ghost predicate Ranged(m: Move) {
      m.pe < |pes| && Routable(m.c)
    }

    // How many of the `n` wavelets waiting for move m cross its link now.
    ghost function Crossing(m: Move, n: nat): (k: nat)
      requires Valid() && Ranged(m)
      ensures k <= m.count && k <= |Out(m.pe, m.d, m.c)|
    {
      var k := Min(m.count, |Out(m.pe, m.d, m.c)|);
      var t := Target(m.pe, m.d);
      Min(n, if t.None? then k else Min(k, VC_DEPTH - |In(t.value, m.c)|))
    }

    // The state after n wavelets of move m have crossed (or, past the edge, been dropped).
    ghost function AfterCrossing(m: Move, n: nat): (f: Fabric)
      requires Valid() && Ranged(m) && n <= |Out(m.pe, m.d, m.c)|
      requires Target(m.pe, m.d).Some? ==> |In(Target(m.pe, m.d).value, m.c)| + n <= VC_DEPTH
      ensures f.Valid() && SameShape(f) && f.cycle == cycle
    {
      var q := Out(m.pe, m.d, m.c);
      var t := Target(m.pe, m.d);
      if t.None? then
        SetOut(m.pe, m.d, m.c, q[n..]).(dropped := dropped + n)
      else
        SetOut(m.pe, m.d, m.c, q[n..]).SetIn(t.value, m.c, In(t.value, m.c) + q[..n])
    }

    ghost function HopMove(m: Move): (f: Fabric)
      requires Valid() && Ranged(m)
      ensures f.Valid() && SameShape(f) && f.cycle == cycle
    {
      AfterCrossing(m, Crossing(m, m.count))
    }

    ghost predicate AllRanged(ms: seq<Move>) {
      forall k | 0 <= k < |ms| :: Ranged(ms[k])
    }

    ghost function HopAll(ms: seq<Move>): (f: Fabric)
      requires Valid() && AllRanged(ms)
      ensures f.Valid() && SameShape(f) && f.cycle == cycle
      decreases |ms|
    {
      if ms == [] then this else HopMove(ms[0]).HopAll(ms[1..])
    }

    // The nonempty output channels from (i, d, c) on, in row-major PE, direction, color order.
    ghost function SnapshotFrom(i: nat, d: nat, c: nat): (ms: seq<Move>)
      requires Valid() && i <= |pes| && d <= NUM_DIRS && c <= NUM_ROUTABLE
      ensures AllRanged(ms)
      decreases |pes| - i, NUM_DIRS - d, NUM_ROUTABLE - c
    {
      if i == |pes| then []
      else if d == NUM_DIRS then SnapshotFrom(i + 1, 0, 0)
      else if c == NUM_ROUTABLE then SnapshotFrom(i, d + 1, 0)
      else
        var n := |Out(i, d, c)|;
        (if n > 0 then [Move(i, d, c, n)] else []) + SnapshotFrom(i, d, c + 1)
    }

    ghost function ForwardAll(): (f: Fabric)
      requires Valid()
      ensures f.Valid() && SameShape(f)
    {
      this.(pes := seq(|pes|, i requires 0 <= i < |pes| && Valid() => pes[i].ForwardAll()))
    }

    ghost predicate InBounds(x: int, y: int) {
      0 <= x < w && 0 <= y < h
    }

    ghost function WithRouter(i: nat, r: RouterState): (f: Fabric)
      requires Valid() && i < |pes| && r.Valid()
      ensures f.Valid() && SameShape(f)
    {
      this.(pes := pes[i := r])
    }

    ghost function Step(): (f: Fabric)
      requires Valid()
      ensures f.Valid() && SameShape(f)
    {
      var g := ForwardAll();
      g.HopAll(g.SnapshotFrom(0, 0, 0)).(cycle := cycle + 1)
    }
  }

  lemma HopAllNone(f: Fabric)
    requires f.Valid()
    ensures f.HopAll([]) == f
  {
  }

  lemma HopAllSnoc(f: Fabric, ms: seq<Move>, m: Move)
    requires f.Valid() && f.AllRanged(ms) && f.Ranged(m)
    ensures f.HopAll(ms + [m]) == f.HopAll(ms).HopMove(m)
    decreases |ms|
  {
    if ms == [] {
      assert [] + [m] == [m];
    } else {
      assert (ms + [m])[1..] == ms[1..] + [m];
      HopAllSnoc(f.HopMove(ms[0]), ms[1..], m);
    }
  }

  lemma CrossingNone(f: Fabric, m: Move)
    requires f.Valid() && f.Ranged(m)
    ensures f.AfterCrossing(m, 0) == f
  {
    var q := f.Out(m.pe, m.d, m.c);
    var r := f.pes[m.pe];
    assert q[0..] == q;
    assert r.outVc[m.d][m.c := q] == r.outVc[m.d];
    assert r.outVc[m.d := r.outVc[m.d]] == r.outVc;
    assert f.pes[m.pe := r] == f.pes;
    assert f.SetOut(m.pe, m.d, m.c, q) == f;
    var t := f.Target(m.pe, m.d);
    if t.Some? {
      var p := f.In(t.value, m.c);
      assert p + q[..0] == p;
      assert f.pes[t.value].inVc[m.c := p] == f.pes[t.value].inVc;
      assert f.pes[t.value := f.pes[t.value]] == f.pes;
    }
  }

  // A fabric is determined by its queues, configurations and counters.
  lemma SameContents(f: Fabric, g: Fabric)
    requires f.Valid() && g.Valid() && f.SameShape(g)
    requires f.dropped == g.dropped && f.cycle == g.cycle
    requires forall i, c: Color | 0 <= i < |f.pes| && Routable(c) :: f.In(i, c) == g.In(i, c)
    requires forall i, d: Dir, c: Color | 0 <= i < |f.pes| && Routable(c) :: f.Out(i, d, c) == g.Out(i, d, c)
    requires forall i | 0 <= i < |f.pes| :: f.pes[i].config == g.pes[i].config
    ensures f == g
  {
    forall i | 0 <= i < |f.pes|
      ensures f.pes[i] == g.pes[i]
    {
      forall c: Color | Routable(c)
        ensures f.pes[i].inVc[c] == g.pes[i].inVc[c]
      {
        assert f.In(i, c) == g.In(i, c);
      }
      forall d: Dir
        ensures f.pes[i].outVc[d] == g.pes[i].outVc[d]
      {
        forall c: Color | Routable(c)
          ensures f.pes[i].outVc[d][c] == g.pes[i].outVc[d][c]
        {
          assert f.Out(i, d, c) == g.Out(i, d, c);
        }
      }
      assert f.pes[i].inVc == g.pes[i].inVc;
      assert f.pes[i].outVc == g.pes[i].outVc;
    }
    assert f.pes == g.pes;
  }

  // One wavelet crossing a link, as the router operations that carry it out.
  ghost function CrossByRouters(f: Fabric, m: Move): Fabric
    requires f.Valid() && f.Ranged(m) && f.Crossing(m.(count := 1), 1) == 1
  {
    var t := f.Target(m.pe, m.d);
    if t.None? then
      f.WithRouter(m.pe, f.pes[m.pe].PopOutSpec(m.d, m.c)).(dropped := f.dropped + 1)
    else
      var g := f.WithRouter(t.value, f.pes[t.value].RxSpec(m.c, f.Out(m.pe, m.d, m.c)[0]));
      g.WithRouter(m.pe, g.pes[m.pe].PopOutSpec(m.d, m.c))
  }

  lemma CrossByRoutersIsCrossing(f: Fabric, m: Move)
    requires f.Valid() && f.Ranged(m) && f.Crossing(m.(count := 1), 1) == 1
    ensures CrossByRouters(f, m) == f.AfterCrossing(m, 1)
  {
    var q := f.Out(m.pe, m.d, m.c);
    assert q[..1] == [q[0]];
    SameContents(CrossByRouters(f, m), f.AfterCrossing(m, 1));
  }

  lemma CrossingZero(f: Fabric, m: Move)
    requires f.Valid() && f.Ranged(m)
    ensures f.Crossing(m, 0) == 0
  {
  }

  // After i crossings one more is possible exactly when the move as a whole allows i + 1.
  lemma CrossingCounts(f: Fabric, m: Move, i: nat)
    requires f.Valid() && f.Ranged(m) && i < m.count && i == f.Crossing(m, i)
    ensures var more := f.AfterCrossing(m, i).Crossing(m.(count := 1), 1) == 1;
      && (more <==> f.Crossing(m, i + 1) == i + 1)
      && (!more ==> f.Crossing(m, m.count) == i)
  {
    var g := f.AfterCrossing(m, i);
    assert |g.Out(m.pe, m.d, m.c)| == |f.Out(m.pe, m.d, m.c)| - i;
    var t := f.Target(m.pe, m.d);
    assert t.Some? ==> |g.In(t.value, m.c)| == |f.In(t.value, m.c)| + i;
  }

  // Every channel, configuration and counter after n crossings.
  lemma CrossingEffect(f: Fabric, m: Move, n: nat)
    requires f.Valid() && f.Ranged(m) && n <= |f.Out(m.pe, m.d, m.c)|
    requires f.Target(m.pe, m.d).Some? ==> |f.In(f.Target(m.pe, m.d).value, m.c)| + n <= VC_DEPTH
    ensures var g, q, t := f.AfterCrossing(m, n), f.Out(m.pe, m.d, m.c), f.Target(m.pe, m.d);
      && (forall j, c: Color | 0 <= j < |f.pes| && Routable(c) ::
            g.In(j, c) == if t == Some(j) && c == m.c then f.In(j, c) + q[..n] else f.In(j, c))
      && (forall j, d: Dir, c: Color | 0 <= j < |f.pes| && Routable(c) ::
            g.Out(j, d, c) == if j == m.pe && d == m.d && c == m.c then q[n..] else f.Out(j, d, c))
      && (forall j | 0 <= j < |f.pes| :: g.pes[j].config == f.pes[j].config)
      && g.dropped == f.dropped + if t.None? then n else 0
  {
  }

  lemma TakeOneMore(q: Queue, i: nat)
    requires i < |q|
    ensures q[i..][1..] == q[i + 1..] && q[..i] + q[i..][..1] == q[..i + 1]
  {
  }

  // Crossing i wavelets and then one more is crossing i + 1.
  lemma CrossingStep(f: Fabric, m: Move, i: nat)
    requires f.Valid() && f.Ranged(m) && i + 1 == f.Crossing(m, i + 1)
    ensures f.AfterCrossing(m, i).Crossing(m.(count := 1), 1) == 1
    ensures f.AfterCrossing(m, i).AfterCrossing(m, 1) == f.AfterCrossing(m, i + 1)
  {
    var g := f.AfterCrossing(m, i);
    var q := f.Out(m.pe, m.d, m.c);
    CrossingEffect(f, m, i);
    CrossingEffect(f, m, i + 1);
    assert g.Out(m.pe, m.d, m.c) == q[i..] && g.Target(m.pe, m.d) == f.Target(m.pe, m.d);
    CrossingEffect(g, m, 1);
    TakeOneMore(q, i);
    hide Fabric.AfterCrossing, Fabric.In, Fabric.Out, Fabric.Valid, Fabric.Target;
    SameContents(g.AfterCrossing(m, 1), f.AfterCrossing(m, i + 1));
  }

  ghost function Entry(f: Fabric, i: nat, d: Dir, c: Color): (ms: seq<Move>)
    requires f.Valid() && i < |f.pes| && Routable(c)
    ensures f.AllRanged(ms)
  {
    if f.Out(i, d, c) != [] then [Move(i, d, c, |f.Out(i, d, c)|)] else []
  }

  lemma SnapshotEnd(f: Fabric, d: nat, c: nat)
    requires f.Valid() && d <= NUM_DIRS && c <= NUM_ROUTABLE
    ensures f.SnapshotFrom(|f.pes|, d, c) == []
  {
  }

  lemma SnapshotNextPe(f: Fabric, i: nat, c: nat)
    requires f.Valid() && i < |f.pes| && c <= NUM_ROUTABLE
    ensures f.SnapshotFrom(i, NUM_DIRS, c) == f.SnapshotFrom(i + 1, 0, 0)
  {
  }

  lemma SnapshotNextDir(f: Fabric, i: nat, d: Dir)
    requires f.Valid() && i < |f.pes|
    ensures f.SnapshotFrom(i, d, NUM_ROUTABLE) == f.SnapshotFrom(i, d + 1, 0)
  {
  }

  lemma SnapshotCons(f: Fabric, i: nat, d: Dir, id: Color)
    requires f.Valid() && i < |f.pes| && Routable(id)
    ensures f.SnapshotFrom(i, d, id) == Entry(f, i, d, id) + f.SnapshotFrom(i, d, id + 1)
  {
  }

  class Grid {
    const w: nat
    const h: nat
    const pes: seq<Router>
    var dropped: nat
    var cycle: nat

    ghost predicate Wired() {
      && 0 < w && 0 < h && |pes| == w * h
      && (forall i, j | 0 <= i < j < |pes| :: pes[i] != pes[j])
    }

    ghost function Routers(): seq<RouterState>
      reads pes
    {
      seq(|pes|, i requires 0 <= i < |pes| reads pes => pes[i].State())
    }

    ghost function State(): Fabric
      reads this, pes
    {
      Fabric(w, h, Routers(), dropped, cycle)
    }

    ghost predicate Valid()
      reads this, pes
      ensures Valid() ==> State().Valid()
    {
      Wired() && (forall i | 0 <= i < |pes| :: pes[i].Valid())
    }

    constructor (width: nat, height: nat)
      requires 0 < width && 0 < height
      ensures Valid() && fresh(pes)
      ensures State() == Fabric(width, height, seq(width * height, _ => Empty()), 0, 0)
    {
      var rs: seq<Router> := [];
      while |rs| < width * height
        invariant |rs| <= width * height
        invariant fresh(rs)
        invariant forall i | 0 <= i < |rs| :: rs[i].Valid() && rs[i].State() == Empty()
        invariant forall i, j | 0 <= i < j < |rs| :: rs[i] != rs[j]
        decreases width * height - |rs|
      {
        var r := new Router();
        rs := rs + [r];
      }
      w, h, pes, dropped, cycle := width, height, rs, 0, 0;
    }

    predicate InBounds(x: int, y: int) {
      0 <= x < w && 0 <= y < h
    }

    function At(x: nat, y: nat): (r: Router)
      requires Wired() && InBounds(x, y)
      ensures r in pes
    {
      IndexInverse(w, h, x, y);
      pes[Index(w, x, y)]
    }

    // Transmit on PE (x, y)'s router; false past the edge or under backpressure.
    method Inject(x: int, y: int, c: Color, dirs: DirMask, wv: Wavelet) returns (ok: bool)
      requires Valid()
      modifies if InBounds(x, y) then {At(x, y)} else {}
      ensures Valid()
      ensures ok == (InBounds(x, y) && old(At(x, y).State()).TxAccepts(c, dirs))
      ensures InBounds(x, y) ==> At(x, y).State() == old(At(x, y).State()).TxSpec(c, dirs, wv)
    {
      if !InBounds(x, y) {
        return false;
      }
      ok := At(x, y).Tx(c, dirs, wv);
    }

    method SetRoute(x: int, y: int, c: Color, rx: Dir, tx: DirMask) returns (ok: bool)
      requires Valid()
      modifies if InBounds(x, y) then {At(x, y)} else {}
      ensures Valid()
      ensures ok == (InBounds(x, y) && Routable(c))
      ensures ok ==>
        At(x, y).State() == old(At(x, y).State()).(config := old(At(x, y).config)[c := Some(ColorConfig(c, rx, tx))])
      ensures InBounds(x, y) && !ok ==> At(x, y).State() == old(At(x, y).State())
    {
      if !InBounds(x, y) {
        return false;
      }
      ok := At(x, y).SetColorConfig(ColorConfig(c, rx, tx));
    }

    // Phase 1: every router applies its color configuration.
    method ForwardPhase()
      requires Valid()
      modifies pes
      ensures Valid() && State() == old(State()).ForwardAll()
    {
      hide Held, RouterState.ForwardAll;
      for i := 0 to |pes|
        invariant forall j | 0 <= j < |pes| :: pes[j].Valid()
        invariant forall j | 0 <= j < |pes| ::
          pes[j].State() == if j < i then old(pes[j].State()).ForwardAll() else old(pes[j].State())
      {
        var _ := pes[i].ApplyForwarding();
      }
    }

    // Record every nonempty output channel, in row-major PE, direction, color order.
    method Snapshot() returns (moves: seq<Move>)
      requires Valid()
      ensures moves == State().SnapshotFrom(0, 0, 0)
    {
      hide Fabric.SnapshotFrom;
      moves := [];
      ghost var f := State();
      ghost var whole := f.SnapshotFrom(0, 0, 0);
      for i := 0 to |pes|
        invariant moves + f.SnapshotFrom(i, 0, 0) == whole
      {
        for d := 0 to NUM_DIRS
          invariant moves + f.SnapshotFrom(i, d, 0) == whole
        {
          for id := 0 to NUM_ROUTABLE
            invariant moves + f.SnapshotFrom(i, d, id) == whole
          {
            var n := pes[i].OutputSize(d, id);
            SnapshotCons(f, i, d, id);
            assert Entry(f, i, d, id) == if n > 0 then [Move(i, d, id, n)] else [];
            if n > 0 {
              moves := moves + [Move(i, d, id, n)];
            }
          }
          SnapshotNextDir(f, i, d);
        }
        SnapshotNextPe(f, i, 0);
      }
      SnapshotEnd(f, 0, 0);
    }

    // Cross m's link with one wavelet; false when there is none or the far side is full.
    method CrossOne(m: Move, t: Option<nat>) returns (ok: bool)
      requires Valid() && State().Ranged(m) && t == State().Target(m.pe, m.d)
      modifies this`dropped, pes
      ensures Valid()
      ensures ok == (old(State()).Crossing(m.(count := 1), 1) == 1)
      ensures ok ==> State() == CrossByRouters(old(State()), m)
      ensures !ok ==> State() == old(State())
    {
      var wv := pes[m.pe].PeekOutput(m.d, m.c);
      if wv.None? {
        return false;
      }
      if t.Some? {
        ok := Deliver(t.value, m.d, m.c, wv.value);
        if !ok {
          return;
        }
      } else {
        dropped := dropped + 1;
      }
      ghost var mid := State();
      var _ := pes[m.pe].PopOutput(m.d, m.c);
      assert Routers() == mid.pes[m.pe := mid.pes[m.pe].PopOutSpec(m.d, m.c)];
      return true;
    }

    method Deliver(i: nat, d: Dir, c: Color, wv: Wavelet) returns (ok: bool)
      requires Valid() && i < |pes|
      modifies pes[i]
      ensures Valid()
      ensures ok == old(State()).pes[i].RxAccepts(c)
      ensures State() == old(State()).WithRouter(i, old(State()).pes[i].RxSpec(c, wv))
    {
      ok := pes[i].Rx(d, c, wv);
      assert Routers() == old(Routers())[i := old(pes[i].State()).RxSpec(c, wv)];
    }

    // Cross one link with up to m.count wavelets, one at a time.
    method HopMove(m: Move)
      requires Valid() && State().Ranged(m)
      modifies this`dropped, pes
      ensures Valid() && State() == old(State()).HopMove(m)
    {
      hide Fabric.AfterCrossing, CrossByRouters, RouterState.Valid, Router.State;
      NeighborInGrid(w, h, m.pe, m.d);
      var t := if m.d == RAMP then Some(m.pe) else Neighbor(w, h, m.pe, m.d);
      ghost var before := State();
      CrossingNone(before, m);
      CrossingZero(before, m);
      var i := 0;
      while i < m.count
        invariant 0 <= i <= m.count && Valid() && State().SameShape(before)
        invariant i == before.Crossing(m, i)
        invariant State() == before.AfterCrossing(m, i)
        decreases m.count - i
      {
        CrossingCounts(before, m, i);
        if State().Crossing(m.(count := 1), 1) == 1 {
          CrossingStep(before, m, i);
          CrossByRoutersIsCrossing(State(), m);
        }
        var ok := CrossOne(m, t);
        if !ok {
          break;
        }
        i := i + 1;
      }
    }

    // Phase 2: one hop per snapshotted wavelet.
    method HopPhase(moves: seq<Move>)
      requires Valid() && State().AllRanged(moves)
      modifies this, pes
      ensures Valid() && State() == old(State()).HopAll(moves)
    {
      hide Fabric.HopMove, Fabric.HopAll;
      ghost var before := State();
      HopAllNone(before);
      for k := 0 to |moves|
        invariant Valid() && State().SameShape(before)
        invariant State() == before.HopAll(moves[..k])
      {
        assert moves[..k + 1] == moves[..k] + [moves[k]];
        HopAllSnoc(before, moves[..k], moves[k]);
        HopMove(moves[k]);
      }
      assert moves[..|moves|] == moves;
    }

    // One cycle: routing, snapshot, hop.
    method Step()
      requires Valid()
      modifies this, pes
      ensures Valid() && State() == old(State()).Step()
    {
      hide Fabric.HopAll, Fabric.SnapshotFrom, Fabric.ForwardAll;
      ForwardPhase();
      var moves := Snapshot();
      HopPhase(moves);
      ghost var hopped := State();
      cycle := cycle + 1;
      assert State() == hopped.(cycle := hopped.cycle + 1);
    }
  }
}
