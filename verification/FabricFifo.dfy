/** Order is kept per source link and color over every run, and a cycle crosses at most one link. */
module FabricFifo {
  import opened Wavelets
  import opened Mesh
  import opened Routers
  import opened Grids
  import opened FabricTheorems
  import opened FabricRuns

  // An output channel; the wavelets that leave it all cross the same physical link.
  datatype Link = Link(pe: nat, d: Dir, c: Color)

  // A wavelet together with the link it arrived over (None: delivered by the PE itself).
  datatype Arrival = Arrival(via: Option<Link>, w: Wavelet)

  ghost predicate Exists(f: Fabric, l: Link) {
    l.pe < |f.pes| && Routable(l.c)
  }

  ghost function Waiting(f: Fabric, l: Link): Queue
    requires f.Valid() && Exists(f, l)
  {
    f.Out(l.pe, l.d, l.c)
  }

  ghost function TagAll(via: Option<Link>, q: Queue): (s: seq<Arrival>)
    ensures |s| == |q|
  {
    seq(|q|, k requires 0 <= k < |q| => Arrival(via, q[k]))
  }

  ghost function Untag(s: seq<Arrival>): (q: Queue)
    ensures |q| == |s|
  {
    seq(|s|, k requires 0 <= k < |s| => s[k].w)
  }

  // The wavelets of `s` that came over link l, in order.
  ghost function Over(s: seq<Arrival>, l: Link): Queue {
    if s == [] then [] else Over(s[..|s| - 1], l) + if s[|s| - 1].via == Some(l) then [s[|s| - 1].w] else []
  }

  lemma {:induction false} OverConcat(s: seq<Arrival>, t: seq<Arrival>, l: Link)
    ensures Over(s + t, l) == Over(s, l) + Over(t, l)
    decreases |t|
  {
    if t == [] {
      assert s + t == s;
    } else {
      var n := |t| - 1;
      assert (s + t)[..|s + t| - 1] == s + t[..n];
      OverConcat(s, t[..n], l);
    }
  }

  lemma {:induction false} OverTagged(via: Option<Link>, q: Queue, l: Link)
    ensures Over(TagAll(via, q), l) == if via == Some(l) then q else []
    decreases |q|
  {
    if q != [] {
      var n := |q| - 1;
      assert TagAll(via, q)[..n] == TagAll(via, q[..n]);
      OverTagged(via, q[..n], l);
      assert q == q[..n] + [q[n]];
    }
  }

  lemma UntagTagged(via: Option<Link>, q: Queue)
    ensures Untag(TagAll(via, q)) == q
  {
  }

  // ----- The hop phase -----

  ghost predicate Leaves(m: Move, l: Link) {
    m.pe == l.pe && m.d == l.d && m.c == l.c
  }

  // What one move takes across link l, and what it puts into color c's input channel at PE t.
  ghost function LeftBy(f: Fabric, m: Move, l: Link): Queue
    requires f.Valid() && f.Ranged(m) && Exists(f, l)
  {
    if Leaves(m, l) then Waiting(f, l)[..f.Crossing(m, m.count)] else []
  }

  ghost function LandedBy(f: Fabric, m: Move, t: nat, c: Color): seq<Arrival>
    requires f.Valid() && f.Ranged(m) && t < |f.pes| && Routable(c)
  {
    if f.Target(m.pe, m.d) == Some(t) && m.c == c
    then TagAll(Some(Link(m.pe, m.d, m.c)), f.Out(m.pe, m.d, m.c)[..f.Crossing(m, m.count)])
    else []
  }

  // The same for a sequence of moves.
  ghost function Left(f: Fabric, ms: seq<Move>, l: Link): Queue
    requires f.Valid() && f.AllRanged(ms) && Exists(f, l)
    decreases |ms|
  {
    if ms == [] then [] else LeftBy(f, ms[0], l) + Left(f.HopMove(ms[0]), ms[1..], l)
  }

  ghost function Landed(f: Fabric, ms: seq<Move>, t: nat, c: Color): seq<Arrival>
    requires f.Valid() && f.AllRanged(ms) && t < |f.pes| && Routable(c)
    decreases |ms|
  {
    if ms == [] then [] else LandedBy(f, ms[0], t, c) + Landed(f.HopMove(ms[0]), ms[1..], t, c)
  }

  lemma MoveIsFifo(f: Fabric, m: Move, l: Link)
    requires f.Valid() && f.Ranged(m) && Exists(f, l)
    ensures Waiting(f, l) == LeftBy(f, m, l) + Waiting(f.HopMove(m), l)
  {
    HopMoveEffect(f, m);
  }

  lemma MoveAppends(f: Fabric, m: Move, t: nat, c: Color)
    requires f.Valid() && f.Ranged(m) && t < |f.pes| && Routable(c)
    ensures f.HopMove(m).In(t, c) == f.In(t, c) + Untag(LandedBy(f, m, t, c))
  {
    HopMoveEffect(f, m);
    UntagTagged(Some(Link(m.pe, m.d, m.c)), f.Out(m.pe, m.d, m.c)[..f.Crossing(m, m.count)]);
  }

  lemma MoveLandsWhatLeft(f: Fabric, m: Move, l: Link, t: nat, c: Color)
    requires f.Valid() && f.Ranged(m) && Exists(f, l) && t < |f.pes| && Routable(c)
    ensures Over(LandedBy(f, m, t, c), l) == if f.Target(l.pe, l.d) == Some(t) && l.c == c then LeftBy(f, m, l) else []
  {
    OverTagged(Some(Link(m.pe, m.d, m.c)), f.Out(m.pe, m.d, m.c)[..f.Crossing(m, m.count)], l);
  }

  lemma {:induction false} HopsAreFifo(f: Fabric, ms: seq<Move>, l: Link)
    requires f.Valid() && f.AllRanged(ms) && Exists(f, l)
    ensures Waiting(f, l) == Left(f, ms, l) + Waiting(f.HopAll(ms), l)
    decreases |ms|
  {
    hide Fabric.HopMove, LeftBy, Waiting;
    if ms != [] {
      MoveIsFifo(f, ms[0], l);
      HopsAreFifo(f.HopMove(ms[0]), ms[1..], l);
    }
  }

  lemma {:induction false} HopsAppend(f: Fabric, ms: seq<Move>, t: nat, c: Color)
    requires f.Valid() && f.AllRanged(ms) && t < |f.pes| && Routable(c)
    ensures f.HopAll(ms).In(t, c) == f.In(t, c) + Untag(Landed(f, ms, t, c))
    decreases |ms|
  {
    hide Fabric.HopMove, LandedBy, Fabric.In;
    if ms != [] {
      MoveAppends(f, ms[0], t, c);
      HopsAppend(f.HopMove(ms[0]), ms[1..], t, c);
      UntagConcat(LandedBy(f, ms[0], t, c), Landed(f.HopMove(ms[0]), ms[1..], t, c));
    } else {
      assert Landed(f, ms, t, c) == [];
    }
  }

  lemma UntagConcat(a: seq<Arrival>, b: seq<Arrival>)
    ensures Untag(a + b) == Untag(a) + Untag(b)
  {
  }

  lemma {:induction false} LandedIsLeft(f: Fabric, ms: seq<Move>, l: Link, t: nat, c: Color)
    requires f.Valid() && f.AllRanged(ms) && Exists(f, l) && t < |f.pes| && Routable(c)
    ensures Over(Landed(f, ms, t, c), l) == if f.Target(l.pe, l.d) == Some(t) && l.c == c then Left(f, ms, l) else []
    decreases |ms|
  {
    hide Fabric.HopMove, LandedBy, LeftBy;
    if ms != [] {
      MoveLandsWhatLeft(f, ms[0], l, t, c);
      LandedIsLeft(f.HopMove(ms[0]), ms[1..], l, t, c);
      OverConcat(LandedBy(f, ms[0], t, c), Landed(f.HopMove(ms[0]), ms[1..], t, c), l);
    }
  }

  // ----- The routing phase -----

  // Forwarding only appends to output channels and only consumes from the front of input channels.
  ghost predicate Forwarded(r: RouterState, s: RouterState, c: Color)
    requires r.Shaped() && s.Shaped() && Routable(c)
  {
    && (forall d: Dir :: r.outVc[d][c] <= s.outVc[d][c])
    && |s.inVc[c]| <= |r.inVc[c]|
    && s.inVc[c] == r.inVc[c][|r.inVc[c]| - |s.inVc[c]|..]
  }

  lemma {:induction false} ForwardColorShifts(r: RouterState, id: Color, c: Color)
    requires r.Shaped() && Routable(id) && Routable(c)
    ensures Forwarded(r, r.ForwardColor(id), c)
    decreases |r.inVc[id]|
  {
    if r.CanForward(id) {
      ForwardColorShifts(r.ForwardOne(id), id, c);
    }
  }

  lemma {:induction false} ForwardFromShifts(r: RouterState, id: nat, c: Color)
    requires r.Shaped() && Routable(c) && id <= NUM_ROUTABLE
    ensures Forwarded(r, r.ForwardFrom(id), c)
    decreases NUM_ROUTABLE - id
  {
    if id < NUM_ROUTABLE {
      ForwardColorShifts(r, id, c);
      ForwardFromShifts(r.ForwardColor(id), id + 1, c);
    }
  }

  // ----- Events -----

  // Wavelets appended to link l's output channel by an event.
  ghost function Pushed(f: Fabric, e: Event, l: Link): Queue
    requires f.Valid() && Exists(f, l)
  {
    match e
    case Inject(x, y, c, dirs, w) =>
      if f.InBounds(x, y) then
        IndexInverse(f.w, f.h, x, y);
        var i := Index(f.w, x, y);
        if f.pes[i].TxAccepts(c, dirs) && l.pe == i && l.c == c && l.d in dirs then [w] else []
      else []
    case Tick =>
      ForwardFromShifts(f.pes[l.pe], 0, l.c);
      Waiting(f.ForwardAll(), l)[|Waiting(f, l)|..]
    case _ => []
  }

  // Wavelets that cross link l (or are dropped past the edge) during an event.
  ghost function Crossed(f: Fabric, e: Event, l: Link): Queue
    requires f.Valid() && Exists(f, l)
  {
    if e.Tick? then
      var g := f.ForwardAll();
      Left(g, g.SnapshotFrom(0, 0, 0), l)
    else []
  }

  ghost function Arrived(f: Fabric, e: Event, t: nat, c: Color): seq<Arrival>
    requires f.Valid() && t < |f.pes| && Routable(c)
  {
    match e
    case Deliver(i, c', w) => if i == t && c' == c && f.pes[i].RxAccepts(c) then [Arrival(None, w)] else []
    case Tick =>
      var g := f.ForwardAll();
      Landed(g, g.SnapshotFrom(0, 0, 0), t, c)
    case _ => []
  }

  // How many wavelets leave the front of an input channel during an event (popped or forwarded).
  ghost function Consumed(f: Fabric, e: Event, t: nat, c: Color): nat
    requires f.Valid() && t < |f.pes| && Routable(c)
  {
    match e
    case Pop(i, c') => if i == t && c' == c && f.In(t, c) != [] then 1 else 0
    case Tick =>
      ForwardFromShifts(f.pes[t], 0, c);
      |f.In(t, c)| - |f.ForwardAll().In(t, c)|
    case _ => 0
  }

  lemma TickLink(f: Fabric, l: Link)
    requires f.Valid() && Exists(f, l)
    ensures Waiting(f, l) + Pushed(f, Tick, l) == Crossed(f, Tick, l) + Waiting(f.Step(), l)
  {
    hide Fabric.HopAll, Fabric.SnapshotFrom;
    ForwardFromShifts(f.pes[l.pe], 0, l.c);
    var g := f.ForwardAll();
    HopsAreFifo(g, g.SnapshotFrom(0, 0, 0), l);
    assert Waiting(g, l) == Waiting(f, l) + Pushed(f, Tick, l);
  }

  lemma TickInput(f: Fabric, t: nat, c: Color)
    requires f.Valid() && t < |f.pes| && Routable(c)
    ensures Consumed(f, Tick, t, c) <= |f.In(t, c)|
    ensures f.Step().In(t, c) == f.In(t, c)[Consumed(f, Tick, t, c)..] + Untag(Arrived(f, Tick, t, c))
  {
    hide Fabric.HopAll, Fabric.SnapshotFrom;
    ForwardFromShifts(f.pes[t], 0, c);
    var g := f.ForwardAll();
    HopsAppend(g, g.SnapshotFrom(0, 0, 0), t, c);
    assert g.In(t, c) == f.In(t, c)[Consumed(f, Tick, t, c)..];
  }

  // Replacing one router leaves the other routers' channels alone.
  lemma RouterChannels(f: Fabric, i: nat, r: RouterState, t: nat, d: Dir, c: Color)
    requires f.Valid() && i < |f.pes| && r.Valid() && t < |f.pes| && Routable(c)
    ensures f.WithRouter(i, r).In(t, c) == if i == t then r.inVc[c] else f.In(t, c)
    ensures f.WithRouter(i, r).Out(t, d, c) == if i == t then r.outVc[d][c] else f.Out(t, d, c)
  {
  }

  lemma NothingMoves(q: Queue)
    ensures q[0..] + Untag([]) == q && q + [] == q && [] + q == q
  {
  }

  ghost predicate LinkStep(f: Fabric, e: Event, l: Link)
    requires f.Valid() && Exists(f, l)
  {
    Waiting(f, l) + Pushed(f, e, l) == Crossed(f, e, l) + Waiting(Apply(f, e), l)
  }

  ghost predicate InputStep(f: Fabric, e: Event, t: nat, c: Color)
    requires f.Valid() && t < |f.pes| && Routable(c)
  {
    && Consumed(f, e, t, c) <= |f.In(t, c)|
    && Apply(f, e).In(t, c) == f.In(t, c)[Consumed(f, e, t, c)..] + Untag(Arrived(f, e, t, c))
  }

  lemma InjectLink(f: Fabric, e: Event, l: Link)
    requires f.Valid() && Exists(f, l) && e.Inject?
    ensures LinkStep(f, e, l)
  {
    hide Fabric.WithRouter, Fabric.Step;
    if f.InBounds(e.x, e.y) {
      IndexInverse(f.w, f.h, e.x, e.y);
      var i := Index(f.w, e.x, e.y);
      hide Index;
      RouterChannels(f, i, f.pes[i].TxSpec(e.c, e.dirs, e.w), l.pe, l.d, l.c);
    }
    NothingMoves(Waiting(f, l));
  }

  lemma RouteChannels(f: Fabric, e: Event, t: nat, d: Dir, c: Color)
    requires f.Valid() && t < |f.pes| && Routable(c) && e.SetRoute?
    ensures Apply(f, e).In(t, c) == f.In(t, c) && Apply(f, e).Out(t, d, c) == f.Out(t, d, c)
  {
  }

  lemma OtherLink(f: Fabric, e: Event, l: Link)
    requires f.Valid() && Exists(f, l) && (e.SetRoute? || e.Deliver? || e.Pop?)
    ensures LinkStep(f, e, l)
  {
    hide Fabric.WithRouter, Fabric.Step;
    NothingMoves(Waiting(f, l));
    if e.SetRoute? {
      RouteChannels(f, e, l.pe, l.d, l.c);
      hide Apply;
    } else if e.pe < |f.pes| {
      RouterChannels(f, e.pe, if e.Deliver? then f.pes[e.pe].RxSpec(e.c, e.w) else f.pes[e.pe].PopInSpec(e.c), l.pe, l.d, l.c);
    }
  }

  lemma LinkEvolves(f: Fabric, e: Event, l: Link)
    requires f.Valid() && Exists(f, l)
    ensures LinkStep(f, e, l)
  {
    if e.Tick? {
      TickLink(f, l);
    } else if e.Inject? {
      hide LinkStep;
      InjectLink(f, e, l);
    } else {
      hide LinkStep;
      OtherLink(f, e, l);
    }
  }

  lemma InjectInput(f: Fabric, e: Event, t: nat, c: Color)
    requires f.Valid() && t < |f.pes| && Routable(c) && e.Inject?
    ensures InputStep(f, e, t, c)
  {
    hide Fabric.WithRouter, Fabric.Step;
    if f.InBounds(e.x, e.y) {
      IndexInverse(f.w, f.h, e.x, e.y);
      var i := Index(f.w, e.x, e.y);
      hide Index;
      RouterChannels(f, i, f.pes[i].TxSpec(e.c, e.dirs, e.w), t, RAMP, c);
    }
    NothingMoves(f.In(t, c));
  }

  lemma RouteInput(f: Fabric, e: Event, t: nat, c: Color)
    requires f.Valid() && t < |f.pes| && Routable(c) && e.SetRoute?
    ensures InputStep(f, e, t, c)
  {
    RouteChannels(f, e, t, RAMP, c);
    hide Apply;
    NothingMoves(f.In(t, c));
  }

  lemma DeliverInput(f: Fabric, e: Event, t: nat, c: Color)
    requires f.Valid() && t < |f.pes| && Routable(c) && e.Deliver?
    ensures InputStep(f, e, t, c)
  {
    hide Fabric.WithRouter, Fabric.Step;
    if e.pe < |f.pes| {
      RouterChannels(f, e.pe, f.pes[e.pe].RxSpec(e.c, e.w), t, RAMP, c);
    }
    NothingMoves(f.In(t, c));
    UntagOne(e.w);
  }

  lemma PopInput(f: Fabric, e: Event, t: nat, c: Color)
    requires f.Valid() && t < |f.pes| && Routable(c) && e.Pop?
    ensures InputStep(f, e, t, c)
  {
    hide Fabric.WithRouter, Fabric.Step;
    if e.pe < |f.pes| {
      RouterChannels(f, e.pe, f.pes[e.pe].PopInSpec(e.c), t, RAMP, c);
    }
    NothingMoves(f.In(t, c));
  }

  lemma UntagOne(w: Wavelet)
    ensures Untag([Arrival(None, w)]) == [w]
  {
  }

  lemma InputEvolves(f: Fabric, e: Event, t: nat, c: Color)
    requires f.Valid() && t < |f.pes| && Routable(c)
    ensures InputStep(f, e, t, c)
  {
    match e
    case Tick => TickInput(f, t, c);
    case Inject(_, _, _, _, _) =>
      hide InputStep;
      InjectInput(f, e, t, c);
    case SetRoute(_, _, _, _, _) =>
      hide InputStep;
      RouteInput(f, e, t, c);
    case Deliver(_, _, _) =>
      hide InputStep;
      DeliverInput(f, e, t, c);
    case Pop(_, _) =>
      hide InputStep;
      PopInput(f, e, t, c);
  }

  lemma ArrivedIsCrossed(f: Fabric, e: Event, l: Link, t: nat)
    requires f.Valid() && Exists(f, l) && f.Target(l.pe, l.d) == Some(t)
    ensures Over(Arrived(f, e, t, l.c), l) == Crossed(f, e, l)
  {
    if e.Tick? {
      var g := f.ForwardAll();
      assert g.Target(l.pe, l.d) == Some(t);
      LandedIsLeft(g, g.SnapshotFrom(0, 0, 0), l, t, l.c);
    } else if e.Deliver? {
      OverTagged(None, [e.w], l);
      assert TagAll(None, [e.w]) == [Arrival(None, e.w)];
    }
  }

  // ----- Runs -----

  ghost function PushedIn(f: Fabric, es: seq<Event>, l: Link): Queue
    requires f.Valid() && Exists(f, l)
    decreases |es|
  {
    if es == [] then [] else Pushed(f, es[0], l) + PushedIn(Apply(f, es[0]), es[1..], l)
  }

  ghost function CrossedIn(f: Fabric, es: seq<Event>, l: Link): Queue
    requires f.Valid() && Exists(f, l)
    decreases |es|
  {
    if es == [] then [] else Crossed(f, es[0], l) + CrossedIn(Apply(f, es[0]), es[1..], l)
  }

  ghost function ArrivedIn(f: Fabric, es: seq<Event>, t: nat, c: Color): seq<Arrival>
    requires f.Valid() && t < |f.pes| && Routable(c)
    decreases |es|
  {
    if es == [] then [] else Arrived(f, es[0], t, c) + ArrivedIn(Apply(f, es[0]), es[1..], t, c)
  }

  ghost function ConsumedIn(f: Fabric, es: seq<Event>, t: nat, c: Color): nat
    requires f.Valid() && t < |f.pes| && Routable(c)
    decreases |es|
  {
    if es == [] then 0 else Consumed(f, es[0], t, c) + ConsumedIn(Apply(f, es[0]), es[1..], t, c)
  }

  /** Each output channel is a lossless FIFO over every run. */
  lemma {:induction false} LinkFifo(f: Fabric, es: seq<Event>, l: Link)
    requires f.Valid() && Exists(f, l)
    ensures Waiting(f, l) + PushedIn(f, es, l) == CrossedIn(f, es, l) + Waiting(Run(f, es), l)
    decreases |es|
  {
    hide Apply, Pushed, Crossed, Waiting;
    if es != [] {
      var g := Apply(f, es[0]);
      LinkEvolves(f, es[0], l);
      LinkFifo(g, es[1..], l);
      calc {
        Waiting(f, l) + PushedIn(f, es, l);
        (Waiting(f, l) + Pushed(f, es[0], l)) + PushedIn(g, es[1..], l);
        Crossed(f, es[0], l) + (Waiting(g, l) + PushedIn(g, es[1..], l));
        Crossed(f, es[0], l) + (CrossedIn(g, es[1..], l) + Waiting(Run(f, es), l));
        CrossedIn(f, es, l) + Waiting(Run(f, es), l);
      }
    }
  }

  /** Each input channel is a lossless FIFO over every run. */
  lemma {:induction false} InputFifo(f: Fabric, es: seq<Event>, t: nat, c: Color)
    requires f.Valid() && t < |f.pes| && Routable(c)
    ensures ConsumedIn(f, es, t, c) <= |f.In(t, c)| + |ArrivedIn(f, es, t, c)|
    ensures Run(f, es).In(t, c) == (f.In(t, c) + Untag(ArrivedIn(f, es, t, c)))[ConsumedIn(f, es, t, c)..]
    decreases |es|
  {
    hide Apply, Arrived, Consumed, Fabric.In;
    if es != [] {
      var g := Apply(f, es[0]);
      var n, a := Consumed(f, es[0], t, c), Arrived(f, es[0], t, c);
      var m, b := ConsumedIn(g, es[1..], t, c), ArrivedIn(g, es[1..], t, c);
      InputEvolves(f, es[0], t, c);
      InputFifo(g, es[1..], t, c);
      var whole := f.In(t, c) + Untag(a + b);
      UntagConcat(a, b);
      assert g.In(t, c) + Untag(b) == whole[n..];
      assert whole[n..][m..] == whole[n + m..];
    }
  }

  lemma {:induction false} ArrivalsAreCrossings(f: Fabric, es: seq<Event>, l: Link, t: nat)
    requires f.Valid() && Exists(f, l) && f.Target(l.pe, l.d) == Some(t)
    ensures Over(ArrivedIn(f, es, t, l.c), l) == CrossedIn(f, es, l)
    decreases |es|
  {
    hide Apply, Arrived, Crossed;
    if es != [] {
      var g := Apply(f, es[0]);
      ArrivedIsCrossed(f, es[0], l, t);
      ArrivalsAreCrossings(g, es[1..], l, t);
      OverConcat(Arrived(f, es[0], t, l.c), ArrivedIn(g, es[1..], t, l.c), l);
    }
  }

  /** Over every run, what a PE has consumed from a link is a prefix, in order, of what was pushed onto that link. */
  lemma FifoDelivery(f: Fabric, es: seq<Event>, l: Link, t: nat)
    requires f.Valid() && Exists(f, l) && f.Target(l.pe, l.d) == Some(t)
    ensures var seen := TagAll(None, f.In(t, l.c)) + ArrivedIn(f, es, t, l.c);
      && ConsumedIn(f, es, t, l.c) <= |seen|
      && Over(seen[..ConsumedIn(f, es, t, l.c)], l) <= Waiting(f, l) + PushedIn(f, es, l)
  {
    hide Fabric.In, Waiting, Arrived, Consumed, Pushed, Crossed, Run, PushedIn, CrossedIn, ArrivedIn, ConsumedIn, Over, TagAll, Untag;
    var old_, new_ := TagAll(None, f.In(t, l.c)), ArrivedIn(f, es, t, l.c);
    var seen, n := old_ + new_, ConsumedIn(f, es, t, l.c);
    InputFifo(f, es, t, l.c);
    ArrivalsAreCrossings(f, es, l, t);
    LinkFifo(f, es, l);
    OverTagged(None, f.In(t, l.c), l);
    OverConcat(old_, new_, l);
    assert seen == seen[..n] + seen[n..];
    OverConcat(seen[..n], seen[n..], l);
    assert Over(old_, l) == [];
    assert Over(seen, l) == CrossedIn(f, es, l);
    assert Waiting(f, l) + PushedIn(f, es, l) == (Over(seen[..n], l) + Over(seen[n..], l)) + Waiting(Run(f, es), l);
    assert Waiting(f, l) + PushedIn(f, es, l) == Over(seen[..n], l) + (Over(seen[n..], l) + Waiting(Run(f, es), l));
  }

  // The k-th arrival takes its place among the arrivals over its own link.
  lemma PlaceOver(s: seq<Arrival>, k: nat, l: Link)
    requires k < |s| && s[k].via == Some(l)
    ensures var p := |Over(s[..k], l)|; p < |Over(s, l)| && Over(s, l)[p] == s[k].w
  {
    assert s == s[..k + 1] + s[k + 1..];
    OverConcat(s[..k + 1], s[k + 1..], l);
    assert s[..k + 1][..k] == s[..k];
    assert Over(s[..k + 1], l) == Over(s[..k], l) + [s[k].w];
  }

  /** In one cycle everything that lands anywhere was already waiting, at the head of the one link it crossed: the p-th arrival over a link
      is the p-th wavelet of that link's output channel as the hop phase found it. */
  lemma OneHopPerStep(f: Fabric, t: nat, c: Color, k: nat)
    requires f.Valid() && t < |f.pes| && Routable(c) && k < |Arrived(f, Tick, t, c)|
    ensures var s := Arrived(f, Tick, t, c);
      && s[k].via.Some? && Exists(f, s[k].via.value) && s[k].via.value.c == c
      && f.Target(s[k].via.value.pe, s[k].via.value.d) == Some(t)
      && var p, queue := |Over(s[..k], s[k].via.value)|, Waiting(f.ForwardAll(), s[k].via.value);
        p < |queue| && queue[p] == s[k].w
  {
    hide Fabric.HopAll, Fabric.SnapshotFrom, Left, Landed, Over;
    var g := f.ForwardAll();
    LandedOrigin(g, g.SnapshotFrom(0, 0, 0), t, c, k);
    var s := Arrived(f, Tick, t, c);
    var l := s[k].via.value;
    HopsAreFifo(g, g.SnapshotFrom(0, 0, 0), l);
    ArrivedIsCrossed(f, Tick, l, t);
    PlaceOver(s, k, l);
  }

  lemma {:induction false} LandedOrigin(f: Fabric, ms: seq<Move>, t: nat, c: Color, k: nat)
    requires f.Valid() && f.AllRanged(ms) && t < |f.pes| && Routable(c) && k < |Landed(f, ms, t, c)|
    ensures var a := Landed(f, ms, t, c)[k];
      && a.via.Some? && Exists(f, a.via.value) && a.via.value.c == c
      && f.Target(a.via.value.pe, a.via.value.d) == Some(t)
    decreases |ms|
  {
    var here := LandedBy(f, ms[0], t, c);
    if k >= |here| {
      LandedOrigin(f.HopMove(ms[0]), ms[1..], t, c, k - |here|);
    } else {
      MoveOrigin(f, ms[0], t, c, k);
    }
  }

  lemma MoveOrigin(f: Fabric, m: Move, t: nat, c: Color, k: nat)
    requires f.Valid() && f.Ranged(m) && t < |f.pes| && Routable(c) && k < |LandedBy(f, m, t, c)|
    ensures var a := LandedBy(f, m, t, c)[k];
      && a.via.Some? && Exists(f, a.via.value) && a.via.value.c == c
      && f.Target(a.via.value.pe, a.via.value.d) == Some(t)
  {
  }
}
