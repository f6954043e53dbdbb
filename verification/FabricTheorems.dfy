/** Laws of one fabric cycle: what a hop moves, what the snapshot lists, isolation of colors. */
module FabricTheorems {
  import opened Wavelets
  import opened Routers
  import opened Grids

  // ----- One move -----

  // A move touches exactly its own output channel and the input channel it leads to.
  lemma HopMoveEffect(f: Fabric, m: Move)
    requires f.Valid() && f.Ranged(m)
    ensures var g := f.HopMove(m); var k := f.Crossing(m, m.count); var t := f.Target(m.pe, m.d);
      && (forall i, d: Dir, c: Color | 0 <= i < |f.pes| && Routable(c) ::
            g.Out(i, d, c) == if i == m.pe && d == m.d && c == m.c then f.Out(i, d, c)[k..] else f.Out(i, d, c))
      && (forall i, c: Color | 0 <= i < |f.pes| && Routable(c) ::
            g.In(i, c) == if t == Some(i) && c == m.c then f.In(i, c) + f.Out(m.pe, m.d, m.c)[..k] else f.In(i, c))
      && (forall i | 0 <= i < |f.pes| :: g.pes[i].config == f.pes[i].config)
      && g.dropped == f.dropped + if t.None? then k else 0
  {
  }

  // ----- The snapshot -----

  function Rank(m: Move): nat {
    m.pe * 120 + m.d * 24 + m.c
  }

  ghost predicate Exact(f: Fabric, ms: seq<Move>)
    requires f.Valid() && f.AllRanged(ms)
  {
    forall k | 0 <= k < |ms| :: ms[k].count == |f.Out(ms[k].pe, ms[k].d, ms[k].c)| > 0
  }

  ghost predicate Ascending(ms: seq<Move>) {
    forall k, l | 0 <= k < l < |ms| :: Rank(ms[k]) < Rank(ms[l])
  }

  // A snapshot suffix all of whose entries rank r or more.
  ghost predicate Shape(f: Fabric, ms: seq<Move>, r: nat)
    requires f.Valid()
  {
    f.AllRanged(ms) && Exact(f, ms) && Ascending(ms) && forall k | 0 <= k < |ms| :: r <= Rank(ms[k])
  }

  lemma EntryShape(f: Fabric, i: nat, d: Dir, c: Color)
    requires f.Valid() && i < |f.pes| && Routable(c)
    ensures var ms := Entry(f, i, d, c); var r := i * 120 + d * 24 + c;
      Shape(f, ms, r) && |ms| <= 1 && (ms != [] ==> Rank(ms[0]) == r)
  {
  }

  lemma {:induction false} SnapshotShape(f: Fabric, i: nat, d: nat, c: nat)
    requires f.Valid() && i <= |f.pes| && d <= NUM_DIRS && c <= NUM_ROUTABLE
    requires d == NUM_DIRS ==> c == 0
    ensures Shape(f, f.SnapshotFrom(i, d, c), i * 120 + d * 24 + c)
    decreases |f.pes| - i, NUM_DIRS - d, NUM_ROUTABLE - c
  {
    if i == |f.pes| {
    } else if d == NUM_DIRS {
      SnapshotShape(f, i + 1, 0, 0);
    } else if c == NUM_ROUTABLE {
      SnapshotShape(f, i, d + 1, 0);
    } else {
      SnapshotShape(f, i, d, c + 1);
      EntryShape(f, i, d, c);
      ShapeConcat(f, Entry(f, i, d, c), f.SnapshotFrom(i, d, c + 1), i * 120 + d * 24 + c);
      SnapshotCons(f, i, d, c);
    }
  }

  lemma ShapeConcat(f: Fabric, ms: seq<Move>, ns: seq<Move>, r: nat)
    requires f.Valid() && Shape(f, ms, r) && Shape(f, ns, r + 1)
    requires |ms| <= 1 && (ms != [] ==> Rank(ms[0]) == r)
    ensures Shape(f, ms + ns, r)
  {
  }

  lemma {:induction false} SnapshotLists(f: Fabric, i: nat, d: nat, c: nat, m: Move)
    requires f.Valid() && i <= |f.pes| && d <= NUM_DIRS && c <= NUM_ROUTABLE
    requires f.Ranged(m) && m.count == |f.Out(m.pe, m.d, m.c)| > 0
    requires i * 120 + d * 24 + c <= Rank(m)
    ensures m in f.SnapshotFrom(i, d, c)
    decreases |f.pes| - i, NUM_DIRS - d, NUM_ROUTABLE - c
  {
    if i == |f.pes| {
      assert false;
    } else if d == NUM_DIRS {
      SnapshotLists(f, i + 1, 0, 0, m);
    } else if c == NUM_ROUTABLE {
      SnapshotLists(f, i, d + 1, 0, m);
    } else {
      assert f.SnapshotFrom(i, d, c) == Entry(f, i, d, c) + f.SnapshotFrom(i, d, c + 1);
      if Rank(m) == i * 120 + d * 24 + c {
        assert m.pe == i && m.d == d && m.c == c;
        assert m in Entry(f, i, d, c);
      } else {
        SnapshotLists(f, i, d, c + 1, m);
      }
    }
  }

  // The snapshot names every nonempty output channel exactly once, with its whole length.
  lemma SnapshotExact(f: Fabric)
    requires f.Valid()
    ensures var ms := f.SnapshotFrom(0, 0, 0);
      && Exact(f, ms) && Ascending(ms)
      && (forall i, d: Dir, c: Color | 0 <= i < |f.pes| && Routable(c) && f.Out(i, d, c) != [] ::
            Move(i, d, c, |f.Out(i, d, c)|) in ms)
  {
    SnapshotShape(f, 0, 0, 0);
    forall i, d: Dir, c: Color | 0 <= i < |f.pes| && Routable(c) && f.Out(i, d, c) != []
      ensures Move(i, d, c, |f.Out(i, d, c)|) in f.SnapshotFrom(0, 0, 0)
    {
      SnapshotLists(f, 0, 0, 0, Move(i, d, c, |f.Out(i, d, c)|));
    }
  }

  // ----- Isolation of virtual channels -----

  // The two grids hold the same queues and routes on color c; other colors are arbitrary.
  ghost predicate AgreeOn(f: Fabric, g: Fabric, c: Color)
    requires f.Valid() && g.Valid() && Routable(c)
  {
    && f.SameShape(g)
    && (forall i | 0 <= i < |f.pes| :: RoutersAgree(f.pes[i], g.pes[i], c))
  }

  ghost predicate RoutersAgree(r: RouterState, s: RouterState, c: Color)
    requires r.Shaped() && s.Shaped() && Routable(c)
  {
    && r.inVc[c] == s.inVc[c]
    && (forall d: Dir :: r.outVc[d][c] == s.outVc[d][c])
    && r.config[c] == s.config[c]
  }

  lemma {:induction false} OtherColorsUntouched(r: RouterState, id: Color, c: Color)
    requires r.Shaped() && Routable(id) && Routable(c) && id != c
    ensures RoutersAgree(r, r.ForwardColor(id), c)
    decreases |r.inVc[id]|
  {
    if r.CanForward(id) {
      OtherColorsUntouched(r.ForwardOne(id), id, c);
    }
  }

  lemma {:induction false} ForwardColorIsolated(r: RouterState, s: RouterState, c: Color)
    requires r.Shaped() && s.Shaped() && Routable(c) && RoutersAgree(r, s, c)
    ensures RoutersAgree(r.ForwardColor(c), s.ForwardColor(c), c)
    decreases |r.inVc[c]|
  {
    if r.CanForward(c) {
      assert s.CanForward(c) by {
        forall d | d in s.config[c].value.tx
          ensures |s.outVc[d][c]| < VC_DEPTH
        {
          assert |r.outVc[d][c]| < VC_DEPTH;
        }
      }
      ForwardColorIsolated(r.ForwardOne(c), s.ForwardOne(c), c);
    } else if s.CanForward(c) {
      forall d | d in r.config[c].value.tx
        ensures |r.outVc[d][c]| < VC_DEPTH
      {
        assert |s.outVc[d][c]| < VC_DEPTH;
      }
      assert false;
    }
  }

  lemma {:induction false} ForwardFromIsolated(r: RouterState, s: RouterState, id: nat, c: Color)
    requires r.Shaped() && s.Shaped() && Routable(c) && id <= NUM_ROUTABLE && RoutersAgree(r, s, c)
    ensures RoutersAgree(r.ForwardFrom(id), s.ForwardFrom(id), c)
    decreases NUM_ROUTABLE - id
  {
    if id < NUM_ROUTABLE {
      if id == c {
        ForwardColorIsolated(r, s, c);
      } else {
        OtherColorsUntouched(r, id, c);
        OtherColorsUntouched(s, id, c);
      }
      ForwardFromIsolated(r.ForwardColor(id), s.ForwardColor(id), id + 1, c);
    }
  }

  ghost function OnColor(ms: seq<Move>, c: Color): seq<Move> {
    if ms == [] then [] else (if ms[0].c == c then [ms[0]] else []) + OnColor(ms[1..], c)
  }

  lemma {:induction false} OnColorConcat(ms: seq<Move>, ns: seq<Move>, c: Color)
    ensures OnColor(ms + ns, c) == OnColor(ms, c) + OnColor(ns, c)
    decreases |ms|
  {
    if ms == [] {
      assert ms + ns == ns;
    } else {
      assert (ms + ns)[0] == ms[0] && (ms + ns)[1..] == ms[1..] + ns;
      OnColorConcat(ms[1..], ns, c);
      var head := if ms[0].c == c then [ms[0]] else [];
      assert OnColor(ms + ns, c) == head + (OnColor(ms[1..], c) + OnColor(ns, c));
    }
  }

  lemma {:induction false} SnapshotIsolated(f: Fabric, g: Fabric, c: Color, i: nat, d: nat, id: nat)
    requires f.Valid() && g.Valid() && Routable(c) && AgreeOn(f, g, c)
    requires i <= |f.pes| && d <= NUM_DIRS && id <= NUM_ROUTABLE
    ensures OnColor(f.SnapshotFrom(i, d, id), c) == OnColor(g.SnapshotFrom(i, d, id), c)
    decreases |f.pes| - i, NUM_DIRS - d, NUM_ROUTABLE - id
  {
    hide Fabric.SnapshotFrom;
    if i == |f.pes| {
      SnapshotEnd(f, d, id);
      SnapshotEnd(g, d, id);
    } else if d == NUM_DIRS {
      SnapshotNextPe(f, i, id);
      SnapshotNextPe(g, i, id);
      SnapshotIsolated(f, g, c, i + 1, 0, 0);
    } else if id == NUM_ROUTABLE {
      SnapshotNextDir(f, i, d);
      SnapshotNextDir(g, i, d);
      SnapshotIsolated(f, g, c, i, d + 1, 0);
    } else {
      SnapshotIsolated(f, g, c, i, d, id + 1);
      SnapshotCons(f, i, d, id);
      SnapshotCons(g, i, d, id);
      OnColorConcat(Entry(f, i, d, id), f.SnapshotFrom(i, d, id + 1), c);
      OnColorConcat(Entry(g, i, d, id), g.SnapshotFrom(i, d, id + 1), c);
      EntryIsolated(f, g, c, i, d, id);
    }
  }

  lemma EntryIsolated(f: Fabric, g: Fabric, c: Color, i: nat, d: Dir, id: Color)
    requires f.Valid() && g.Valid() && Routable(c) && AgreeOn(f, g, c) && i < |f.pes| && Routable(id)
    ensures OnColor(Entry(f, i, d, id), c) == OnColor(Entry(g, i, d, id), c)
  {
    assert RoutersAgree(f.pes[i], g.pes[i], c);
  }

  lemma OtherMovesUntouched(f: Fabric, m: Move, c: Color)
    requires f.Valid() && f.Ranged(m) && Routable(c) && m.c != c
    ensures AgreeOn(f, f.HopMove(m), c)
  {
    HopMoveEffect(f, m);
    var g := f.HopMove(m);
    forall i | 0 <= i < |f.pes|
      ensures RoutersAgree(f.pes[i], g.pes[i], c)
    {
      assert f.In(i, c) == g.In(i, c);
      forall d: Dir
        ensures f.pes[i].outVc[d][c] == g.pes[i].outVc[d][c]
      {
        assert f.Out(i, d, c) == g.Out(i, d, c);
      }
    }
  }

  lemma SameMoveIsolated(f: Fabric, g: Fabric, m: Move)
    requires f.Valid() && g.Valid() && f.Ranged(m) && AgreeOn(f, g, m.c)
    ensures AgreeOn(f.HopMove(m), g.HopMove(m), m.c)
  {
    hide Fabric.HopMove;
    HopMoveEffect(f, m);
    HopMoveEffect(g, m);
    var f', g' := f.HopMove(m), g.HopMove(m);
    assert RoutersAgree(f.pes[m.pe], g.pes[m.pe], m.c);
    assert f.Target(m.pe, m.d) == g.Target(m.pe, m.d);
    assert f.Out(m.pe, m.d, m.c) == g.Out(m.pe, m.d, m.c);
    forall i | 0 <= i < |f.pes|
      ensures RoutersAgree(f'.pes[i], g'.pes[i], m.c)
    {
      assert RoutersAgree(f.pes[i], g.pes[i], m.c);
      assert f.In(i, m.c) == g.In(i, m.c);
      assert f'.In(i, m.c) == g'.In(i, m.c);
      forall d: Dir
        ensures f'.pes[i].outVc[d][m.c] == g'.pes[i].outVc[d][m.c]
      {
        assert f.Out(i, d, m.c) == g.Out(i, d, m.c);
        assert f'.Out(i, d, m.c) == g'.Out(i, d, m.c);
      }
    }
  }

  lemma {:induction false} HopsIsolated(f: Fabric, ms: seq<Move>, g: Fabric, ns: seq<Move>, c: Color)
    requires f.Valid() && g.Valid() && f.AllRanged(ms) && g.AllRanged(ns)
    requires Routable(c) && AgreeOn(f, g, c) && OnColor(ms, c) == OnColor(ns, c)
    ensures AgreeOn(f.HopAll(ms), g.HopAll(ns), c)
    decreases |ms| + |ns|
  {
    if ms != [] && ms[0].c != c {
      OtherMovesUntouched(f, ms[0], c);
      AgreeOnTrans(f.HopMove(ms[0]), f, g, c);
      HopsIsolated(f.HopMove(ms[0]), ms[1..], g, ns, c);
    } else if ns != [] && ns[0].c != c {
      OtherMovesUntouched(g, ns[0], c);
      AgreeOnTrans(f, g, g.HopMove(ns[0]), c);
      HopsIsolated(f, ms, g.HopMove(ns[0]), ns[1..], c);
    } else if ms != [] && ns != [] {
      assert ms[0] == OnColor(ms, c)[0] == OnColor(ns, c)[0] == ns[0];
      assert OnColor(ms[1..], c) == OnColor(ms, c)[1..] == OnColor(ns, c)[1..] == OnColor(ns[1..], c);
      SameMoveIsolated(f, g, ms[0]);
      HopsIsolated(f.HopMove(ms[0]), ms[1..], g.HopMove(ms[0]), ns[1..], c);
    }
  }

  lemma AgreeOnTrans(f: Fabric, g: Fabric, h: Fabric, c: Color)
    requires f.Valid() && g.Valid() && h.Valid() && Routable(c)
    requires AgreeOn(f, g, c) || AgreeOn(g, f, c)
    requires AgreeOn(g, h, c)
    ensures AgreeOn(f, h, c)
  {
    forall i | 0 <= i < |f.pes|
      ensures RoutersAgree(f.pes[i], h.pes[i], c)
    {
      assert RoutersAgree(g.pes[i], h.pes[i], c);
      assert RoutersAgree(f.pes[i], g.pes[i], c) || RoutersAgree(g.pes[i], f.pes[i], c);
    }
  }

  /** Virtual channels are isolated: what a cycle does on color c is a function of color c alone. */
  lemma StepIsolated(f: Fabric, g: Fabric, c: Color)
    requires f.Valid() && g.Valid() && Routable(c) && AgreeOn(f, g, c)
    ensures AgreeOn(f.Step(), g.Step(), c)
  {
    var f', g' := f.ForwardAll(), g.ForwardAll();
    forall i | 0 <= i < |f.pes|
      ensures RoutersAgree(f'.pes[i], g'.pes[i], c)
    {
      assert RoutersAgree(f.pes[i], g.pes[i], c);
      ForwardFromIsolated(f.pes[i], g.pes[i], 0, c);
    }
    SnapshotIsolated(f', g', c, 0, 0, 0);
    HopsIsolated(f', f'.SnapshotFrom(0, 0, 0), g', g'.SnapshotFrom(0, 0, 0), c);
    var f'', g'' := f'.HopAll(f'.SnapshotFrom(0, 0, 0)), g'.HopAll(g'.SnapshotFrom(0, 0, 0));
    forall i | 0 <= i < |f.pes|
      ensures RoutersAgree(f.Step().pes[i], g.Step().pes[i], c)
    {
      assert RoutersAgree(f''.pes[i], g''.pes[i], c);
    }
  }

  // The grid with every color but c removed.
  ghost function ProjectRouter(r: RouterState, c: Color): (s: RouterState)
    requires r.Valid() && Routable(c)
    ensures s.Valid() && RoutersAgree(r, s, c)
  {
    RouterState(
      Empty().inVc[c := r.inVc[c]],
      seq(NUM_DIRS, d requires 0 <= d < NUM_DIRS && r.Valid() => Empty().outVc[d][c := r.outVc[d][c]]),
      Empty().config[c := r.config[c]])
  }

  ghost function Project(f: Fabric, c: Color): (g: Fabric)
    requires f.Valid() && Routable(c)
    ensures g.Valid() && g.SameShape(f)
    ensures AgreeOn(f, g, c)
  {
    f.(pes := seq(|f.pes|, i requires 0 <= i < |f.pes| && f.Valid() => ProjectRouter(f.pes[i], c)))
  }

  ghost function EmptyGrid(f: Fabric): (g: Fabric)
    requires f.Valid()
    ensures g.Valid() && g.SameShape(f)
  {
    f.(pes := seq(|f.pes|, _ => Empty()))
  }

  lemma {:induction false} EmptyForwards(id: nat)
    requires id <= NUM_ROUTABLE
    ensures Empty().ForwardFrom(id) == Empty()
    decreases NUM_ROUTABLE - id
  {
    if id < NUM_ROUTABLE {
      EmptyForwards(id + 1);
    }
  }

  lemma MovesNeedWavelets(f: Fabric)
    requires f.Valid() && f.SnapshotFrom(0, 0, 0) != []
    ensures exists i, d: Dir, c: Color :: 0 <= i < |f.pes| && Routable(c) && f.Out(i, d, c) != []
  {
    SnapshotExact(f);
    var m := f.SnapshotFrom(0, 0, 0)[0];
    assert f.Out(m.pe, m.d, m.c) != [];
  }

  lemma NoMovesWhenEmpty(f: Fabric)
    requires f.Valid()
    requires forall i, d: Dir, c: Color | 0 <= i < |f.pes| && Routable(c) :: f.Out(i, d, c) == []
    ensures f.SnapshotFrom(0, 0, 0) == []
  {
    if f.SnapshotFrom(0, 0, 0) != [] {
      MovesNeedWavelets(f);
    }
  }

  // An empty router holds nothing on any channel.
  lemma EmptyOut(f: Fabric, i: nat, d: Dir, c: Color)
    requires f.Valid() && i < |f.pes| && Routable(c) && f.pes[i] == Empty()
    ensures f.Out(i, d, c) == []
  {
  }

  lemma EmptyGridForwards(f: Fabric)
    requires f.Valid() && f == EmptyGrid(f)
    ensures f.ForwardAll() == f && forall i | 0 <= i < |f.pes| :: f.pes[i] == Empty()
  {
    hide RouterState.ForwardFrom;
    EmptyForwards(0);
    assert f.ForwardAll().pes == f.pes;
  }

  lemma EmptyGridStep(f: Fabric)
    requires f.Valid() && f == EmptyGrid(f)
    ensures f.Step().pes == f.pes
  {
    hide Fabric.HopAll, Fabric.SnapshotFrom, EmptyGrid;
    EmptyGridForwards(f);
    var g := f.ForwardAll();
    forall i, d: Dir, c: Color | 0 <= i < |g.pes| && Routable(c)
      ensures g.Out(i, d, c) == []
    {
      EmptyOut(g, i, d, c);
    }
    NoMovesWhenEmpty(g);
    HopAllNone(g);
  }

  lemma RoutersAgreeOnAll(r: RouterState, s: RouterState)
    requires r.Valid() && s.Valid()
    requires forall c: Color | Routable(c) :: RoutersAgree(r, s, c)
    ensures r == s
  {
    forall d: Dir
      ensures r.outVc[d] == s.outVc[d]
    {
      forall c: Color | Routable(c)
        ensures r.outVc[d][c] == s.outVc[d][c]
      {
        assert RoutersAgree(r, s, c);
      }
    }
    assert r.outVc == s.outVc;
    assert forall c: Color | Routable(c) :: RoutersAgree(r, s, c) ==> r.inVc[c] == s.inVc[c] && r.config[c] == s.config[c];
    assert r.inVc == s.inVc && r.config == s.config;
  }

  // The projected grid stays empty on every other color.
  lemma ProjectionStaysPure(f: Fabric, c: Color, o: Color)
    requires f.Valid() && Routable(c) && Routable(o) && o != c
    ensures forall i | 0 <= i < |f.pes| :: RoutersAgree(Project(f, c).Step().pes[i], Empty(), o)
  {
    hide Fabric.Step;
    var p, e := Project(f, c), EmptyGrid(f);
    EmptyGridStep(e);
    StepIsolated(p, e, o);
    forall i | 0 <= i < |f.pes|
      ensures RoutersAgree(p.Step().pes[i], Empty(), o)
    {
      assert RoutersAgree(p.Step().pes[i], e.Step().pes[i], o);
    }
  }

  /** Projecting to a color and advancing a cycle commute, router for router. */
  lemma ProjectionCommutesWithStep(f: Fabric, c: Color)
    requires f.Valid() && Routable(c)
    ensures Project(f.Step(), c).pes == Project(f, c).Step().pes
  {
    hide Fabric.Step;
    StepIsolated(f, Project(f, c), c);
    var g, l, r := f.Step(), Project(f.Step(), c), Project(f, c).Step();
    forall i | 0 <= i < |f.pes|
      ensures l.pes[i] == r.pes[i]
    {
      forall o: Color | Routable(o)
        ensures RoutersAgree(l.pes[i], r.pes[i], o)
      {
        if o == c {
          assert RoutersAgree(g.pes[i], r.pes[i], c);
        } else {
          ProjectionStaysPure(f, c, o);
        }
      }
      RoutersAgreeOnAll(l.pes[i], r.pes[i]);
    }
    assert l.pes == r.pes;
  }
}
