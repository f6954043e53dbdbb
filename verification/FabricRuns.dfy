/** Whole runs of the fabric: conservation of wavelets and first-in-first-out delivery per link. */
module FabricRuns {
  import opened Wavelets
  import opened Sums
  import opened Mesh
  import opened Routers
  import opened Grids
  import opened FabricTheorems

  // ----- Runs -----

  datatype Event =
    | Inject(x: int, y: int, c: Color, dirs: DirMask, w: Wavelet)
    | SetRoute(x: int, y: int, c: Color, rx: Dir, tx: DirMask)
    | Deliver(pe: nat, c: Color, w: Wavelet)
    | Pop(pe: nat, c: Color)
    | Tick

  ghost function Apply(f: Fabric, e: Event): (g: Fabric)
    requires f.Valid()
    ensures g.Valid() && g.SameShape(f)
  {
    match e
    case Inject(x, y, c, dirs, w) =>
      if f.InBounds(x, y) then
        IndexInverse(f.w, f.h, x, y);
        var i := Index(f.w, x, y);
        f.WithRouter(i, f.pes[i].TxSpec(c, dirs, w))
      else f
    case SetRoute(x, y, c, rx, tx) =>
      if f.InBounds(x, y) && Routable(c) then
        IndexInverse(f.w, f.h, x, y);
        var i := Index(f.w, x, y);
        f.WithRouter(i, f.pes[i].(config := f.pes[i].config[c := Some(ColorConfig(c, rx, tx))]))
      else f
    case Deliver(i, c, w) =>
      if i < |f.pes| then f.WithRouter(i, f.pes[i].RxSpec(c, w)) else f
    case Pop(i, c) =>
      if i < |f.pes| then f.WithRouter(i, f.pes[i].PopInSpec(c)) else f
    case Tick => f.Step()
  }

  ghost function Run(f: Fabric, es: seq<Event>): (g: Fabric)
    requires f.Valid()
    ensures g.Valid() && g.SameShape(f)
    decreases |es|
  {
    if es == [] then f else Run(Apply(f, es[0]), es[1..])
  }

  // ----- Counting buffered wavelets -----

  ghost function BufferedPerPe(f: Fabric): seq<nat> {
    seq(|f.pes|, i requires 0 <= i < |f.pes| => f.pes[i].Buffered())
  }

  ghost function Total(f: Fabric): nat {
    Sum(BufferedPerPe(f))
  }

  lemma InUpdate(r: RouterState, c: Color, q: Queue)
    requires r.Shaped() && Routable(c)
    ensures r.(inVc := r.inVc[c := q]).Buffered() == r.Buffered() - |r.inVc[c]| + |q|
  {
    HeldUpdate(r.inVc, c, q);
  }

  ghost function SetOutVc(r: RouterState, d: Dir, c: Color, q: Queue): (s: RouterState)
    requires r.Shaped() && Routable(c)
    ensures s.Shaped()
  {
    r.(outVc := r.outVc[d := r.outVc[d][c := q]])
  }

  lemma OutUpdate(r: RouterState, d: Dir, c: Color, q: Queue)
    requires r.Shaped() && Routable(c)
    ensures SetOutVc(r, d, c, q).Buffered() == r.Buffered() - |r.outVc[d][c]| + |q|
  {
    HeldUpdate(r.outVc[d], c, q);
    var qs := r.outVc[d][c := q];
    assert HeldPerDir(r.outVc[d := qs]) == HeldPerDir(r.outVc)[d := Held(qs)];
    SumUpdate(HeldPerDir(r.outVc), d, Held(qs));
  }

  lemma {:induction false} PushOutCount(r: RouterState, c: Color, dirs: DirMask, w: Wavelet)
    requires r.Shaped() && Routable(c)
    ensures r.PushOut(c, dirs, w).Buffered() == r.Buffered() + |dirs|
    decreases dirs
  {
    if dirs == {} {
      assert r.PushOut(c, dirs, w).outVc == r.outVc;
    } else {
      var d :| d in dirs;
      var rest := dirs - {d};
      PushOutCount(r, c, rest, w);
      var s := r.PushOut(c, rest, w);
      OutUpdate(s, d, c, s.outVc[d][c] + [w]);
      assert r.PushOut(c, dirs, w).outVc == SetOutVc(s, d, c, s.outVc[d][c] + [w]).outVc;
      assert |dirs| == |rest| + 1;
    }
  }

  // Extra copies a multicast forward of color c makes, and of all colors from id on.
  ghost function ColorCopies(r: RouterState, c: Color): nat
    requires r.Shaped() && Routable(c)
    decreases |r.inVc[c]|
  {
    if r.CanForward(c) then |r.config[c].value.tx| - 1 + ColorCopies(r.ForwardOne(c), c) else 0
  }

  ghost function CopiesFrom(r: RouterState, id: nat): nat
    requires r.Shaped() && id <= NUM_ROUTABLE
    decreases NUM_ROUTABLE - id
  {
    if id == NUM_ROUTABLE then 0 else ColorCopies(r, id) + CopiesFrom(r.ForwardColor(id), id + 1)
  }

  ghost function CopiesPerPe(f: Fabric): seq<nat>
    requires f.Valid()
  {
    seq(|f.pes|, i requires 0 <= i < |f.pes| && f.Valid() => CopiesFrom(f.pes[i], 0))
  }

  lemma {:induction false} ForwardColorCount(r: RouterState, c: Color)
    requires r.Shaped() && Routable(c)
    ensures r.ForwardColor(c).Buffered() == r.Buffered() + ColorCopies(r, c)
    decreases |r.inVc[c]|
  {
    if r.CanForward(c) {
      InUpdate(r, c, r.inVc[c][1..]);
      PushOutCount(r.PopInSpec(c), c, r.config[c].value.tx, r.inVc[c][0]);
      ForwardColorCount(r.ForwardOne(c), c);
    }
  }

  lemma {:induction false} ForwardFromCount(r: RouterState, id: nat)
    requires r.Shaped() && id <= NUM_ROUTABLE
    ensures r.ForwardFrom(id).Buffered() == r.Buffered() + CopiesFrom(r, id)
    decreases NUM_ROUTABLE - id
  {
    if id < NUM_ROUTABLE {
      ForwardColorCount(r, id);
      ForwardFromCount(r.ForwardColor(id), id + 1);
    }
  }

  lemma ForwardPhaseCount(f: Fabric)
    requires f.Valid()
    ensures Total(f.ForwardAll()) == Total(f) + Sum(CopiesPerPe(f))
  {
    forall i | 0 <= i < |f.pes|
      ensures f.ForwardAll().pes[i].Buffered() == f.pes[i].Buffered() + CopiesPerPe(f)[i]
    {
      ForwardFromCount(f.pes[i], 0);
    }
    SumAdd(BufferedPerPe(f), CopiesPerPe(f), BufferedPerPe(f.ForwardAll()));
  }

  lemma RouterCount(f: Fabric, i: nat, r: RouterState)
    requires f.Valid() && i < |f.pes| && r.Valid()
    ensures Total(f.WithRouter(i, r)) == Total(f) - f.pes[i].Buffered() + r.Buffered()
  {
    assert BufferedPerPe(f.WithRouter(i, r)) == BufferedPerPe(f)[i := r.Buffered()];
    SumUpdate(BufferedPerPe(f), i, r.Buffered());
  }

  lemma SetInCount(f: Fabric, i: nat, c: Color, q: Queue)
    requires f.Valid() && i < |f.pes| && Routable(c) && |q| <= VC_DEPTH
    ensures Total(f.SetIn(i, c, q)) == Total(f) - |f.In(i, c)| + |q|
  {
    var r := f.pes[i].(inVc := f.pes[i].inVc[c := q]);
    InUpdate(f.pes[i], c, q);
    RouterCount(f, i, r);
  }

  lemma SetOutCount(f: Fabric, i: nat, d: Dir, c: Color, q: Queue)
    requires f.Valid() && i < |f.pes| && Routable(c) && |q| <= VC_DEPTH
    ensures Total(f.SetOut(i, d, c, q)) == Total(f) - |f.Out(i, d, c)| + |q|
  {
    OutUpdate(f.pes[i], d, c, q);
    RouterCount(f, i, SetOutVc(f.pes[i], d, c, q));
  }

  lemma DroppedOnly(f: Fabric, n: nat)
    ensures Total(f.(dropped := n)) == Total(f)
  {
    assert BufferedPerPe(f.(dropped := n)) == BufferedPerPe(f);
  }

  lemma HopMoveCount(f: Fabric, m: Move)
    requires f.Valid() && f.Ranged(m)
    ensures Total(f.HopMove(m)) + f.HopMove(m).dropped == Total(f) + f.dropped
  {
    var k := f.Crossing(m, m.count);
    var q := f.Out(m.pe, m.d, m.c);
    var t := f.Target(m.pe, m.d);
    var g := f.SetOut(m.pe, m.d, m.c, q[k..]);
    SetOutCount(f, m.pe, m.d, m.c, q[k..]);
    if t.Some? {
      SetInCount(g, t.value, m.c, f.In(t.value, m.c) + q[..k]);
      assert g.In(t.value, m.c) == f.In(t.value, m.c);
    } else {
      DroppedOnly(g, f.dropped + k);
    }
  }

  lemma {:induction false} HopAllCount(f: Fabric, ms: seq<Move>)
    requires f.Valid() && f.AllRanged(ms)
    ensures Total(f.HopAll(ms)) + f.HopAll(ms).dropped == Total(f) + f.dropped
    decreases |ms|
  {
    if ms != [] {
      HopMoveCount(f, ms[0]);
      HopAllCount(f.HopMove(ms[0]), ms[1..]);
    }
  }

  lemma TickCount(f: Fabric)
    requires f.Valid()
    ensures Total(f.Step()) + f.Step().dropped == Total(f) + f.dropped + Sum(CopiesPerPe(f))
  {
    hide Fabric.HopAll, Fabric.SnapshotFrom;
    ForwardPhaseCount(f);
    var g := f.ForwardAll();
    assert g.dropped == f.dropped;
    var h := g.HopAll(g.SnapshotFrom(0, 0, 0));
    HopAllCount(g, g.SnapshotFrom(0, 0, 0));
    assert BufferedPerPe(f.Step()) == BufferedPerPe(h);
  }

  // Copies entering the fabric, copies made by multicast forwarding, and wavelets leaving it, per event.
  ghost function Entered(f: Fabric, e: Event): nat
    requires f.Valid()
  {
    match e
    case Inject(x, y, c, dirs, w) =>
      if f.InBounds(x, y) then
        IndexInverse(f.w, f.h, x, y);
        if f.pes[Index(f.w, x, y)].TxAccepts(c, dirs) then |dirs| else 0
      else 0
    case Deliver(i, c, w) => if i < |f.pes| && f.pes[i].RxAccepts(c) then 1 else 0
    case _ => 0
  }

  ghost function Copied(f: Fabric, e: Event): nat
    requires f.Valid()
  {
    if e.Tick? then Sum(CopiesPerPe(f)) else 0
  }

  ghost function Popped(f: Fabric, e: Event): nat
    requires f.Valid()
  {
    match e
    case Pop(i, c) => if i < |f.pes| && Routable(c) && f.In(i, c) != [] then 1 else 0
    case _ => 0
  }

  lemma EventCount(f: Fabric, e: Event)
    requires f.Valid()
    ensures var g := Apply(f, e);
      Total(g) + Popped(f, e) + g.dropped == Total(f) + f.dropped + Entered(f, e) + Copied(f, e)
  {
    hide Fabric.Step, Total;
    match e
    case Inject(x, y, c, dirs, w) =>
      if f.InBounds(x, y) {
        IndexInverse(f.w, f.h, x, y);
        var i := Index(f.w, x, y);
        RouterCount(f, i, f.pes[i].TxSpec(c, dirs, w));
        if f.pes[i].TxAccepts(c, dirs) {
          PushOutCount(f.pes[i], c, dirs, w);
        }
      }
    case SetRoute(x, y, c, rx, tx) =>
      if f.InBounds(x, y) && Routable(c) {
        IndexInverse(f.w, f.h, x, y);
        var i := Index(f.w, x, y);
        RouterCount(f, i, f.pes[i].(config := f.pes[i].config[c := Some(ColorConfig(c, rx, tx))]));
      }
    case Deliver(i, c, w) =>
      if i < |f.pes| {
        RouterCount(f, i, f.pes[i].RxSpec(c, w));
        if f.pes[i].RxAccepts(c) {
          InUpdate(f.pes[i], c, f.pes[i].inVc[c] + [w]);
        }
      }
    case Pop(i, c) =>
      if i < |f.pes| {
        RouterCount(f, i, f.pes[i].PopInSpec(c));
        if Routable(c) && f.In(i, c) != [] {
          InUpdate(f.pes[i], c, f.pes[i].inVc[c][1..]);
        }
      }
    case Tick =>
      TickCount(f);
  }

  ghost function EnteredIn(f: Fabric, es: seq<Event>): nat
    requires f.Valid()
    decreases |es|
  {
    if es == [] then 0 else Entered(f, es[0]) + EnteredIn(Apply(f, es[0]), es[1..])
  }

  ghost function CopiedIn(f: Fabric, es: seq<Event>): nat
    requires f.Valid()
    decreases |es|
  {
    if es == [] then 0 else Copied(f, es[0]) + CopiedIn(Apply(f, es[0]), es[1..])
  }

  ghost function PoppedIn(f: Fabric, es: seq<Event>): nat
    requires f.Valid()
    decreases |es|
  {
    if es == [] then 0 else Popped(f, es[0]) + PoppedIn(Apply(f, es[0]), es[1..])
  }

  /** Over every run, buffered + popped + dropped past the edge == accepted copies + multicast copies. */
  lemma {:induction false} Conservation(f: Fabric, es: seq<Event>)
    requires f.Valid()
    ensures var g := Run(f, es);
      Total(g) + PoppedIn(f, es) + g.dropped == Total(f) + f.dropped + EnteredIn(f, es) + CopiedIn(f, es)
    decreases |es|
  {
    hide Apply, Total, Entered, Copied, Popped;
    if es != [] {
      EventCount(f, es[0]);
      Conservation(Apply(f, es[0]), es[1..]);
    }
  }
}
