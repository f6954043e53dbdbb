/** The dataflow task model: a picker that fires the first runnable task, and a scheduler that drains to quiescence. */
module Schedulers {
  import opened Wavelets
  import opened Routers
  import opened FabricRuns

  datatype TaskKind = Data | Local | Control

  datatype Task = Task(
    id: nat, kind: TaskKind, inputs: seq<Color>,
    activated: bool, blocked: bool, fireCount: nat, lastInputs: seq<Wavelet>)
  {
    predicate Eligible() {
      activated && !blocked
    }

    // Needs no wavelet to run, so once eligible it is runnable for ever.
    predicate SelfTriggered() {
      kind != Data || inputs == []
    }
  }

  ghost function Arrivals(r: RouterState, c: Color): nat
    requires r.Shaped()
  {
    if Routable(c) then |r.inVc[c]| else 0
  }

  ghost predicate Runnable(t: Task, r: RouterState)
    requires r.Shaped()
  {
    t.Eligible() && (t.kind == Data ==> forall c | c in t.inputs :: Arrivals(r, c) > 0)
  }

  // Pop one wavelet from each listed color, in order; an empty channel contributes nothing.
  ghost function PopEach(r: RouterState, cs: seq<Color>): (RouterState, seq<Wavelet>)
    requires r.Shaped()
    ensures PopEach(r, cs).0.Shaped()
    ensures r.Valid() ==> PopEach(r, cs).0.Valid()
    decreases |cs|
  {
    if cs == [] then (r, [])
    else
      var c := cs[0];
      var (s, ws) := PopEach(r.PopInSpec(c), cs[1..]);
      (s, (if Arrivals(r, c) > 0 then [r.inVc[c][0]] else []) + ws)
  }

  /** One PE as its scheduler sees it: router, registered tasks, and the state their handlers update. */
  datatype Tile<!S> = Tile(router: RouterState, tasks: seq<Task>, state: S)

  ghost predicate IsPick(tasks: seq<Task>, r: RouterState, k: nat)
    requires r.Shaped()
  {
    && k < |tasks| && Runnable(tasks[k], r)
    && (forall j | 0 <= j < k :: !Runnable(tasks[j], r))
  }

  ghost predicate Quiet(tasks: seq<Task>, r: RouterState)
    requires r.Shaped()
  {
    forall j | 0 <= j < |tasks| :: !Runnable(tasks[j], r)
  }

  lemma PickUnique(tasks: seq<Task>, r: RouterState, k: nat, l: nat)
    requires r.Shaped() && IsPick(tasks, r, k) && IsPick(tasks, r, l)
    ensures k == l
  {
  }

  lemma PickExists(tasks: seq<Task>, r: RouterState)
    requires r.Shaped() && !Quiet(tasks, r)
    ensures exists k :: IsPick(tasks, r, k)
  {
    var j :| 0 <= j < |tasks| && Runnable(tasks[j], r);
    FirstRunnable(tasks, r, j);
  }

  lemma {:induction false} FirstRunnable(tasks: seq<Task>, r: RouterState, j: nat)
    requires r.Shaped() && j < |tasks| && Runnable(tasks[j], r)
    ensures exists k :: IsPick(tasks, r, k)
    decreases j
  {
    if i :| 0 <= i < j && Runnable(tasks[i], r) {
      FirstRunnable(tasks, r, i);
    } else {
      assert IsPick(tasks, r, j);
    }
  }

  // Fire task k: consume its operands, record them, run its handler.
  ghost function FireSpec<S>(tile: Tile<S>, handler: (Task, S) -> S, k: nat): (t': Tile<S>)
    requires tile.router.Shaped() && k < |tile.tasks|
    ensures t'.router.Shaped() && |t'.tasks| == |tile.tasks|
    ensures tile.router.Valid() ==> t'.router.Valid()
  {
    var t := tile.tasks[k];
    var (r, ws) := if t.kind == Data then PopEach(tile.router, t.inputs) else (tile.router, t.lastInputs);
    var fired := t.(lastInputs := ws, fireCount := t.fireCount + 1);
    Tile(r, tile.tasks[k := fired], handler(fired, tile.state))
  }

  // One scheduling step, as a relation: fire the first runnable task.
  ghost predicate Stepped<S(!new)>(tile: Tile<S>, handler: (Task, S) -> S, t': Tile<S>)
    requires tile.router.Shaped()
  {
    exists k: nat :: IsPick(tile.tasks, tile.router, k) && t' == FireSpec(tile, handler, k)
  }

  // No eligible task can run without consuming a wavelet.
  ghost predicate Bound(tasks: seq<Task>) {
    forall j | 0 <= j < |tasks| && tasks[j].Eligible() :: !tasks[j].SelfTriggered()
  }

  lemma {:induction false} PopEachShrinks(r: RouterState, cs: seq<Color>)
    requires r.Shaped()
    ensures Held(PopEach(r, cs).0.inVc) <= Held(r.inVc)
    decreases |cs|
  {
    if cs != [] {
      PopInShrinks(r, cs[0]);
      PopEachShrinks(r.PopInSpec(cs[0]), cs[1..]);
    }
  }

  lemma PopInShrinks(r: RouterState, c: Color)
    requires r.Shaped()
    ensures Held(r.PopInSpec(c).inVc) + (if Arrivals(r, c) > 0 then 1 else 0) == Held(r.inVc)
  {
    if Arrivals(r, c) > 0 {
      HeldUpdate(r.inVc, c, r.inVc[c][1..]);
    }
  }

  // Firing a runnable data task with a bound color strictly lowers the input occupancy.
  lemma FireShrinks<S>(tile: Tile<S>, handler: (Task, S) -> S, k: nat)
    requires tile.router.Shaped() && k < |tile.tasks|
    requires Runnable(tile.tasks[k], tile.router) && Bound(tile.tasks)
    ensures Held(FireSpec(tile, handler, k).router.inVc) < Held(tile.router.inVc)
    ensures Bound(FireSpec(tile, handler, k).tasks)
  {
    var t := tile.tasks[k];
    assert t.inputs[0] in t.inputs;
    PopInShrinks(tile.router, t.inputs[0]);
    PopEachShrinks(tile.router.PopInSpec(t.inputs[0]), t.inputs[1..]);
  }

  lemma SteppedShrinks<S(!new)>(tile: Tile<S>, handler: (Task, S) -> S, t': Tile<S>)
    requires tile.router.Shaped() && Bound(tile.tasks) && Stepped(tile, handler, t')
    ensures Held(t'.router.inVc) < Held(tile.router.inVc)
    ensures Bound(t'.tasks)
  {
    var k: nat :| IsPick(tile.tasks, tile.router, k) && t' == FireSpec(tile, handler, k);
    FireShrinks(tile, handler, k);
  }

  // n scheduling steps lead from one tile to another.
  ghost predicate Reaches<S(!new)>(tile: Tile<S>, handler: (Task, S) -> S, n: nat, t': Tile<S>)
    requires tile.router.Shaped()
    decreases n
  {
    if n == 0 then t' == tile
    else exists k: nat :: IsPick(tile.tasks, tile.router, k) && Reaches(FireSpec(tile, handler, k), handler, n - 1, t')
  }

  lemma ReachesNone<S(!new)>(tile: Tile<S>, handler: (Task, S) -> S)
    requires tile.router.Shaped()
    ensures Reaches(tile, handler, 0, tile)
  {
  }

  lemma ReachesCons<S(!new)>(tile: Tile<S>, handler: (Task, S) -> S, k: nat, n: nat, t': Tile<S>)
    requires tile.router.Shaped() && IsPick(tile.tasks, tile.router, k)
    requires Reaches(FireSpec(tile, handler, k), handler, n, t')
    ensures Reaches(tile, handler, n + 1, t')
  {
    hide FireSpec, Runnable;
  }

  lemma {:induction false} ReachesSnoc<S(!new)>(tile: Tile<S>, handler: (Task, S) -> S, n: nat, mid: Tile<S>, t': Tile<S>)
    requires tile.router.Shaped() && mid.router.Shaped()
    requires Reaches(tile, handler, n, mid) && Stepped(mid, handler, t')
    ensures Reaches(tile, handler, n + 1, t')
    decreases n
  {
    hide FireSpec, Runnable;
    if n == 0 {
      var k: nat :| IsPick(mid.tasks, mid.router, k) && t' == FireSpec(mid, handler, k);
      assert Reaches(FireSpec(tile, handler, k), handler, 0, t');
    } else {
      var k: nat :| IsPick(tile.tasks, tile.router, k) && Reaches(FireSpec(tile, handler, k), handler, n - 1, mid);
      ReachesSnoc(FireSpec(tile, handler, k), handler, n - 1, mid, t');
    }
  }

  lemma {:induction false} ReachesTrans<S(!new)>(tile: Tile<S>, handler: (Task, S) -> S, m: nat, mid: Tile<S>, n: nat, t': Tile<S>)
    requires tile.router.Shaped() && mid.router.Shaped()
    requires Reaches(tile, handler, m, mid) && Reaches(mid, handler, n, t')
    ensures Reaches(tile, handler, m + n, t')
    decreases m
  {
    hide FireSpec, Quiet, Runnable;
    if m > 0 {
      var k: nat :| IsPick(tile.tasks, tile.router, k) && Reaches(FireSpec(tile, handler, k), handler, m - 1, mid);
      ReachesTrans(FireSpec(tile, handler, k), handler, m - 1, mid, n, t');
    }
  }

  /** A scheduling run is determined by where it starts: two runs that both end quiet end in the same tile after as many fires. */
  lemma {:induction false} QuietIsUnique<S(!new)>(tile: Tile<S>, handler: (Task, S) -> S, m: nat, a: Tile<S>, n: nat, b: Tile<S>)
    requires tile.router.Shaped() && a.router.Shaped() && b.router.Shaped()
    requires Reaches(tile, handler, m, a) && Quiet(a.tasks, a.router)
    requires Reaches(tile, handler, n, b) && Quiet(b.tasks, b.router)
    ensures m == n && a == b
    decreases m
  {
    hide FireSpec, Runnable;
    if m == 0 {
      QuietStops(tile, handler, n, b);
    } else {
      var k: nat :| IsPick(tile.tasks, tile.router, k) && Reaches(FireSpec(tile, handler, k), handler, m - 1, a);
      assert Runnable(tile.tasks[k], tile.router);
      var l: nat :| IsPick(tile.tasks, tile.router, l) && Reaches(FireSpec(tile, handler, l), handler, n - 1, b);
      PickUnique(tile.tasks, tile.router, k, l);
      QuietIsUnique(FireSpec(tile, handler, k), handler, m - 1, a, n - 1, b);
    }
  }

  lemma QuietStops<S(!new)>(tile: Tile<S>, handler: (Task, S) -> S, n: nat, b: Tile<S>)
    requires tile.router.Shaped() && Quiet(tile.tasks, tile.router) && Reaches(tile, handler, n, b)
    ensures n == 0 && b == tile
  {
  }

  ghost predicate Quiesces<S(!new)>(tile: Tile<S>, handler: (Task, S) -> S)
    requires tile.router.Shaped()
  {
    exists n: nat, t': Tile<S> :: t'.router.Shaped() && Reaches(tile, handler, n, t') && Quiet(t'.tasks, t'.router)
  }

  lemma {:induction false} BoundQuiesces<S(!new)>(tile: Tile<S>, handler: (Task, S) -> S)
    requires tile.router.Shaped() && Bound(tile.tasks)
    ensures Quiesces(tile, handler)
    decreases Held(tile.router.inVc)
  {
    if Quiet(tile.tasks, tile.router) {
      assert Reaches(tile, handler, 0, tile);
    } else {
      PickExists(tile.tasks, tile.router);
      var k: nat :| IsPick(tile.tasks, tile.router, k);
      FireShrinks(tile, handler, k);
      var next := FireSpec(tile, handler, k);
      BoundQuiesces(next, handler);
      var n: nat, t': Tile<S> :| t'.router.Shaped() && Reaches(next, handler, n, t') && Quiet(t'.tasks, t'.router);
      assert Reaches(tile, handler, n + 1, t');
    }
  }

  lemma {:induction false} SelfTriggeredForever<S(!new)>(tile: Tile<S>, handler: (Task, S) -> S, j: nat, n: nat, t': Tile<S>)
    requires tile.router.Shaped() && t'.router.Shaped()
    requires j < |tile.tasks| && tile.tasks[j].Eligible() && tile.tasks[j].SelfTriggered()
    requires Reaches(tile, handler, n, t')
    ensures !Quiet(t'.tasks, t'.router)
    decreases n
  {
    if n == 0 {
      assert Runnable(tile.tasks[j], tile.router);
    } else {
      var k: nat :| IsPick(tile.tasks, tile.router, k) && Reaches(FireSpec(tile, handler, k), handler, n - 1, t');
      SelfTriggeredForever(FireSpec(tile, handler, k), handler, j, n - 1, t');
    }
  }

  /** Draining ends exactly when no eligible task is local, control, or a data task with no bound color. */
  lemma QuiescesIffBound<S(!new)>(tile: Tile<S>, handler: (Task, S) -> S)
    requires tile.router.Shaped()
    ensures Quiesces(tile, handler) <==> Bound(tile.tasks)
  {
    if Bound(tile.tasks) {
      BoundQuiesces(tile, handler);
    } else {
      var j :| 0 <= j < |tile.tasks| && tile.tasks[j].Eligible() && tile.tasks[j].SelfTriggered();
      forall n: nat, t': Tile<S> | t'.router.Shaped() && Reaches(tile, handler, n, t')
        ensures !Quiet(t'.tasks, t'.router)
      {
        SelfTriggeredForever(tile, handler, j, n, t');
      }
    }
  }

  ghost predicate Registered(tasks: seq<Task>, id: nat) {
    exists j :: 0 <= j < |tasks| && tasks[j].id == id
  }

  // Position of the first task registered under `id`.
  ghost function Position(tasks: seq<Task>, id: nat): (k: nat)
    requires Registered(tasks, id)
    ensures k < |tasks| && tasks[k].id == id
    ensures forall j | 0 <= j < k :: tasks[j].id != id
  {
    if tasks[0].id == id then 0 else
      assert Registered(tasks[1..], id) by {
        var j :| 0 <= j < |tasks| && tasks[j].id == id;
        assert tasks[1..][j - 1].id == id;
      }
      1 + Position(tasks[1..], id)
  }

  class Scheduler<!S(!new)> {
    const router: Router
    const handler: (Task, S) -> S
    var tasks: seq<Task>
    var state: S

    ghost function View(): Tile<S>
      reads this, router
    {
      Tile(router.State(), tasks, state)
    }

    ghost predicate Valid()
      reads this, router
    {
      router.Valid()
    }

    constructor (r: Router, h: (Task, S) -> S, s: S)
      ensures router == r && handler == h && state == s && tasks == []
    {
      router, handler, state, tasks := r, h, s, [];
    }

    method AddTask(t: Task) returns (id: nat)
      modifies this`tasks
      ensures id == t.id && tasks == old(tasks) + [t]
    {
      tasks := tasks + [t];
      id := t.id;
    }

    method GetTask(id: nat) returns (k: nat)
      requires Registered(tasks, id)
      ensures k == Position(tasks, id)
    {
      k := 0;
      while tasks[k].id != id
        invariant k <= Position(tasks, id)
        decreases |tasks| - k
      {
        k := k + 1;
      }
    }

    method Activate(id: nat)
      requires Registered(tasks, id)
      modifies this`tasks
      ensures tasks == old(tasks)[Position(old(tasks), id) := old(tasks)[Position(old(tasks), id)].(activated := true)]
    {
      var k := GetTask(id);
      tasks := tasks[k := tasks[k].(activated := true)];
    }

    method Block(id: nat)
      requires Registered(tasks, id)
      modifies this`tasks
      ensures tasks == old(tasks)[Position(old(tasks), id) := old(tasks)[Position(old(tasks), id)].(blocked := true)]
    {
      var k := GetTask(id);
      tasks := tasks[k := tasks[k].(blocked := true)];
    }

    method Unblock(id: nat)
      requires Registered(tasks, id)
      modifies this`tasks
      ensures tasks == old(tasks)[Position(old(tasks), id) := old(tasks)[Position(old(tasks), id)].(blocked := false)]
    {
      var k := GetTask(id);
      tasks := tasks[k := tasks[k].(blocked := false)];
    }

    method IsRunnable(t: Task) returns (yes: bool)
      requires Valid()
      ensures yes == Runnable(t, router.State())
    {
      if t.blocked || !t.activated {
        return false;
      }
      if t.kind == Data {
        for i := 0 to |t.inputs|
          invariant forall j | 0 <= j < i :: Arrivals(router.State(), t.inputs[j]) > 0
        {
          if router.InputSize(t.inputs[i]) == 0 {
            assert t.inputs[i] in t.inputs;
            return false;
          }
        }
      }
      return true;
    }

    // May run now: activated, not blocked, and for a data task a wavelet waiting on every color it is bound to.
    ghost predicate MayRun(j: nat)
      requires Valid()
      reads this, router
    {
      && j < |tasks| && tasks[j].activated && !tasks[j].blocked
      && (tasks[j].kind == Data ==> forall c | c in tasks[j].inputs :: Routable(c) && router.inVc[c] != [])
    }

    // The first task that may run, lowest position first.
    method Pick() returns (k: Option<nat>)
      requires Valid()
      ensures k.None? ==> forall j: nat :: !MayRun(j)
      ensures k.Some? ==> MayRun(k.value) && forall j: nat | j < k.value :: !MayRun(j)
      ensures k.None? ==> Quiet(tasks, router.State())
      ensures k.Some? ==> IsPick(tasks, router.State(), k.value)
    {
      for i := 0 to |tasks|
        invariant forall j | 0 <= j < i :: !Runnable(tasks[j], router.State())
        invariant forall j: nat | j < i :: !MayRun(j)
      {
        var yes := IsRunnable(tasks[i]);
        if yes {
          return Some(i);
        }
      }
      return None;
    }

    method PopInputs(cs: seq<Color>) returns (ws: seq<Wavelet>)
      requires Valid()
      modifies router
      ensures Valid()
      ensures router.State() == old(PopEach(router.State(), cs)).0
      ensures ws == old(PopEach(router.State(), cs)).1
    {
      ws := [];
      ghost var all := PopEach(router.State(), cs);
      assert cs[0..] == cs;
      for i := 0 to |cs|
        invariant Valid()
        invariant all.0 == PopEach(router.State(), cs[i..]).0
        invariant all.1 == ws + PopEach(router.State(), cs[i..]).1
      {
        assert cs[i..][0] == cs[i] && cs[i..][1..] == cs[i + 1..];
        var w := router.PopInput(cs[i]);
        if w.Some? {
          ws := ws + [w.value];
        }
      }
      assert cs[|cs|..] == [];
      assert PopEach(router.State(), []) == (router.State(), []);
      assert ws + [] == ws;
    }

    // Fire the first runnable task; None when nothing is runnable.
    method Step() returns (fired: Option<nat>)
      requires Valid()
      modifies this`tasks, this`state, router
      ensures Valid()
      ensures fired.None? ==> View() == old(View()) && Quiet(tasks, router.State())
      ensures fired.Some? ==> Stepped(old(View()), handler, View())
      ensures fired.Some? ==> exists k: nat :: IsPick(old(tasks), old(router.State()), k) && fired.value == old(tasks)[k].id
    {
      var p := Pick();
      if p.None? {
        return None;
      }
      var k := p.value;
      if tasks[k].kind == Data {
        var ws := PopInputs(tasks[k].inputs);
        tasks := tasks[k := tasks[k].(lastInputs := ws)];
      }
      tasks := tasks[k := tasks[k].(fireCount := tasks[k].fireCount + 1)];
      state := handler(tasks[k], state);
      fired := Some(tasks[k].id);
      assert View() == FireSpec(old(View()), handler, k);
    }

    // Step until no task is runnable; the total input occupancy falls with every fire.
    method RunToQuiescence() returns (fired: nat)
      requires Valid() && Bound(tasks)
      modifies this`tasks, this`state, router
      ensures Valid() && Bound(tasks)
      ensures Reaches(old(View()), handler, fired, View())
      ensures Quiet(tasks, router.State())
    {
      ReachesNone(View(), handler);
      hide Stepped, Reaches, Bound, Quiet;
      fired := 0;
      while true
        invariant Valid() && Bound(tasks)
        invariant Reaches(old(View()), handler, fired, View())
        decreases Held(router.State().inVc)
      {
        ghost var before := View();
        var id := Step();
        if id.None? {
          return;
        }
        SteppedShrinks(before, handler, View());
        ReachesSnoc(old(View()), handler, fired, before, View());
        fired := fired + 1;
      }
    }
  }
}
