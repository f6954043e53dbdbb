/** The state every PE is in after n fabric cycles of SUMMA step s, in closed form, and the handlers that get it there. */
module SummaModels {
  import opened Wavelets
  import opened Mesh
  import opened Routers
  import opened Schedulers
  import opened SummaPlans

  // A consumed wavelet that still has to be passed on along the broadcast.
  datatype Retx = Retx(color: Color, dir: Dir, w: Wavelet)

  datatype PeState<!F> = PeState(
    aBuf: seq<F>, bBuf: seq<F>, cTile: seq<F>, outbox: seq<Retx>,
    aCount: nat, bCount: nat, stepsDone: nat, aToken: bool, bToken: bool)

  const TOKEN: Wavelet := Wavelet(1, 0)
  const COMPUTE: nat := 4

  function Store<F(!new)>(ar: Arith<F>, buf: seq<F>, w: Wavelet): (r: seq<F>)
    ensures |r| == |buf|
  {
    if w.control < |buf| then buf[w.control := ar.fromHalf(w.data)] else buf
  }

  ghost function StoreAll<F(!new)>(ar: Arith<F>, buf: seq<F>, q: Queue): (r: seq<F>)
    ensures |r| == |buf|
    decreases |q|
  {
    if q == [] then buf else StoreAll(ar, Store(ar, buf, q[0]), q[1..])
  }

  lemma {:induction false} StoreAllConcat<F(!new)>(ar: Arith<F>, buf: seq<F>, p: Queue, q: Queue)
    ensures StoreAll(ar, buf, p + q) == StoreAll(ar, StoreAll(ar, buf, p), q)
    decreases |p|
  {
    if p == [] {
      assert p + q == q;
    } else {
      assert (p + q)[0] == p[0] && (p + q)[1..] == p[1..] + q;
      StoreAllConcat(ar, Store(ar, buf, p[0]), p[1..], q);
    }
  }

  function Zeros<F(!new)>(ar: Arith<F>, n: nat): (r: seq<F>)
    ensures |r| == n
  {
    seq(n, _ => ar.zero)
  }

  // Input channels holding the given queues on four colors and nothing elsewhere.
  ghost function Slots(a: Color, b: Color, x: Color, y: Color, qa: Queue, qb: Queue, tx: Queue, ty: Queue): (r: seq<Queue>)
    ensures |r| == NUM_ROUTABLE
    ensures forall c | 0 <= c < NUM_ROUTABLE :: r[c] in [qa, qb, tx, ty, []]
  {
    seq(NUM_ROUTABLE, c requires 0 <= c < NUM_ROUTABLE =>
      if c == a then qa else if c == b then qb else if c == x then tx else if c == y then ty else [])
  }

  /** A matmul to execute: the plan, the datapath and the two row-major operands. */
  datatype Job<!F(!new)> = Job(plan: SummaPlan, ar: Arith<F>, a: seq<F>, b: seq<F>)
  {
    ghost predicate Valid() {
      plan.WellFormed() && |a| == plan.m * plan.k && |b| == plan.k * plan.n
    }

    function S(): nat { plan.PanelSize() }

    function X(i: nat): nat
      requires plan.gridP > 0
    {
      i % plan.gridP
    }

    function Y(i: nat): nat
      requires plan.gridP > 0
    {
      i / plan.gridP
    }

    // ----- Handlers -----

    function DrainA(i: nat, st: PeState<F>, c: Color, w: Wavelet): PeState<F>
      requires plan.gridP > 0
    {
      st.(aBuf := Store(ar, st.aBuf, w), aCount := st.aCount + 1,
          outbox := st.outbox + if X(i) < plan.gridP - 1 then [Retx(c, EAST, w)] else [])
    }

    function DrainB(i: nat, st: PeState<F>, c: Color, w: Wavelet): PeState<F>
      requires plan.gridP > 0
    {
      st.(bBuf := Store(ar, st.bBuf, w), bCount := st.bCount + 1,
          outbox := st.outbox + if Y(i) > 0 then [Retx(c, SOUTH, w)] else [])
    }

    predicate Shaped(st: PeState<F>) {
      && |st.cTile| == plan.tileM * plan.tileM
      && |st.aBuf| == plan.tileM * plan.tileK
      && |st.bBuf| == plan.tileK * plan.tileM
    }

    function Compute(st: PeState<F>): PeState<F>
      requires Shaped(st)
    {
      st.(cTile := Accumulated(ar, st.cTile, st.aBuf, st.bBuf, plan.tileM, plan.tileK),
          aBuf := Zeros(ar, |st.aBuf|), bBuf := Zeros(ar, |st.bBuf|),
          aCount := 0, bCount := 0, aToken := false, bToken := false,
          stepsDone := st.stepsDone + 1)
    }

    // The handler registered on PE i: two A drains, two B drains, then the panel accumulate.
    function Handle(i: nat, t: Task, st: PeState<F>): PeState<F>
      requires plan.gridP > 0
    {
      if t.id == COMPUTE then
        (if Shaped(st) then Compute(st) else st)
      else if t.lastInputs == [] || t.inputs == [] then st
      else if t.id < 2 then DrainA(i, st, t.inputs[0], t.lastInputs[0])
      else DrainB(i, st, t.inputs[0], t.lastInputs[0])
    }

    function HandlerOf(i: nat): (Task, PeState<F>) -> PeState<F>
      requires plan.gridP > 0
    {
      (t: Task, st: PeState<F>) => Handle(i, t, st)
    }

    ghost function DrainAs(i: nat, st: PeState<F>, c: Color, q: Queue): PeState<F>
      requires plan.gridP > 0
      decreases |q|
    {
      if q == [] then st else DrainAs(i, DrainA(i, st, c, q[0]), c, q[1..])
    }

    ghost function DrainBs(i: nat, st: PeState<F>, c: Color, q: Queue): PeState<F>
      requires plan.gridP > 0
      decreases |q|
    {
      if q == [] then st else DrainBs(i, DrainB(i, st, c, q[0]), c, q[1..])
    }

    // ----- Tasks -----

    ghost predicate TaskIs(t: Task, id: nat, inputs: seq<Color>) {
      t.id == id && t.kind == Data && t.inputs == inputs && !t.blocked
    }

    ghost predicate TasksOk(ts: seq<Task>) {
      && |ts| == 5
      && TaskIs(ts[0], 0, [plan.aColor0]) && ts[0].activated
      && TaskIs(ts[1], 1, [plan.aColor1]) && ts[1].activated
      && TaskIs(ts[2], 2, [plan.bColor0]) && ts[2].activated
      && TaskIs(ts[3], 3, [plan.bColor1]) && ts[3].activated
      && TaskIs(ts[4], COMPUTE, [plan.xDone, plan.yDone])
    }

    // ----- The wavelets of a step -----

    function AElem(s: nat, y: nat, t: nat): F
      requires Valid() && s < plan.steps && y < plan.gridP && t < S()
    {
      var row, col := t / plan.tileK, t % plan.tileK;
      CoordsInBounds(plan.tileK, plan.tileM, t);
      IndexInverse(plan.tileM, plan.gridP, row, y);
      IndexInverse(plan.tileK, plan.steps, col, s);
      Elem(a, plan.m, plan.k, Index(plan.tileM, row, y), Index(plan.tileK, col, s))
    }

    function BElem(s: nat, x: nat, t: nat): F
      requires Valid() && s < plan.steps && x < plan.gridP && t < S()
    {
      var row, col := t / plan.tileM, t % plan.tileM;
      CoordsInBounds(plan.tileM, plan.tileK, t);
      IndexInverse(plan.tileK, plan.steps, row, s);
      IndexInverse(plan.tileM, plan.gridP, col, x);
      Elem(b, plan.k, plan.n, Index(plan.tileK, row, s), Index(plan.tileM, col, x))
    }

    function AWave(s: nat, y: nat, t: nat): Wavelet
      requires Valid() && s < plan.steps && y < plan.gridP && t < S()
    {
      Wavelet(ar.toHalf(AElem(s, y, t)), ToU16(t))
    }

    function BWave(s: nat, x: nat, t: nat): Wavelet
      requires Valid() && s < plan.steps && x < plan.gridP && t < S()
    {
      Wavelet(ar.toHalf(BElem(s, x, t)), ToU16(t))
    }

    ghost function AWaves(s: nat, y: nat, lo: nat, hi: nat): (q: Queue)
      requires Valid() && s < plan.steps && y < plan.gridP && lo <= hi <= S()
      ensures |q| == hi - lo
    {
      seq(hi - lo, k requires 0 <= k < hi - lo && Valid() && s < plan.steps && y < plan.gridP && hi <= S() => AWave(s, y, lo + k))
    }

    ghost function BWaves(s: nat, x: nat, lo: nat, hi: nat): (q: Queue)
      requires Valid() && s < plan.steps && x < plan.gridP && lo <= hi <= S()
      ensures |q| == hi - lo
    {
      seq(hi - lo, k requires 0 <= k < hi - lo && Valid() && s < plan.steps && x < plan.gridP && hi <= S() => BWave(s, x, lo + k))
    }

    // ----- The closed form -----

    function Clamp(v: int): (r: nat)
      ensures r <= S()
    {
      if v < 0 then 0 else if v > S() then S() else v
    }

    // A and B elements PE i has received n cycles into a step.
    ghost function Ra(i: nat, n: int): (r: nat)
      requires plan.gridP > 0
      ensures r <= S()
    {
      Clamp(4 * (n - X(i)))
    }

    ghost function Rb(i: nat, n: int): (r: nat)
      requires plan.gridP > 0
      ensures r <= S()
    {
      Clamp(4 * (n - (plan.gridP - 1 - Y(i))))
    }

    ghost predicate Fired(i: nat, n: int)
      requires plan.gridP > 0
    {
      Ra(i, n) == S() && Rb(i, n) == S()
    }

    ghost predicate IsPe(i: nat) {
      plan.gridP > 0 && i < plan.gridP * plan.gridP && X(i) < plan.gridP && Y(i) < plan.gridP
    }

    ghost function BufA(s: nat, y: nat, r: nat): (q: seq<F>)
      requires Valid() && s < plan.steps && y < plan.gridP && r <= S()
      ensures |q| == S()
    {
      StoreAll(ar, Zeros(ar, S()), AWaves(s, y, 0, r))
    }

    ghost function BufB(s: nat, x: nat, r: nat): (q: seq<F>)
      requires Valid() && s < plan.steps && x < plan.gridP && r <= S()
      ensures |q| == S()
    {
      StoreAll(ar, Zeros(ar, S()), BWaves(s, x, 0, r))
    }

    // PE i's output tile after s steps.
    ghost function CTile(s: nat, i: nat): (q: seq<F>)
      requires Valid() && s <= plan.steps && IsPe(i)
      ensures |q| == plan.tileM * plan.tileM
    {
      if s == 0 then Zeros(ar, plan.tileM * plan.tileM)
      else Accumulated(ar, CTile(s - 1, i), BufA(s - 1, Y(i), S()), BufB(s - 1, X(i), S()), plan.tileM, plan.tileK)
    }

    ghost function RetxA(s: nat, i: nat, q: Queue): (r: seq<Retx>)
      requires IsPe(i)
      ensures |r| <= |q|
    {
      if X(i) < plan.gridP - 1 then seq(|q|, k requires 0 <= k < |q| => Retx(plan.AColor(s), EAST, q[k])) else []
    }

    ghost function RetxB(s: nat, i: nat, q: Queue): (r: seq<Retx>)
      requires IsPe(i)
      ensures |r| <= |q|
    {
      if Y(i) > 0 then seq(|q|, k requires 0 <= k < |q| => Retx(plan.BColor(s), SOUTH, q[k])) else []
    }

    // What PE i consumed in the last cycle.
    ghost function LastA(s: nat, n: int, i: nat): (q: Queue)
      requires Valid() && s < plan.steps && IsPe(i)
      ensures |q| <= 4
    {
      AWaves(s, Y(i), Ra(i, n - 1), Ra(i, n))
    }

    ghost function LastB(s: nat, n: int, i: nat): (q: Queue)
      requires Valid() && s < plan.steps && IsPe(i)
      ensures |q| <= 4
    {
      BWaves(s, X(i), Rb(i, n - 1), Rb(i, n))
    }

    ghost function Outbox(s: nat, n: int, i: nat): seq<Retx>
      requires Valid() && s < plan.steps && IsPe(i)
    {
      RetxA(s, i, LastA(s, n, i)) + RetxB(s, i, LastB(s, n, i))
    }

    // The buffers before the accumulate fires, whatever has arrived so far.
    ghost function Collecting(s: nat, n: int, i: nat): PeState<F>
      requires Valid() && s < plan.steps && IsPe(i)
    {
      PeState(BufA(s, Y(i), Ra(i, n)), BufB(s, X(i), Rb(i, n)), CTile(s, i), Outbox(s, n, i),
              Ra(i, n), Rb(i, n), s, Ra(i, n) == S(), Rb(i, n) == S())
    }

    ghost function Finished(s: nat, n: int, i: nat): PeState<F>
      requires Valid() && s < plan.steps && IsPe(i)
    {
      PeState(Zeros(ar, S()), Zeros(ar, S()), CTile(s + 1, i), Outbox(s, n, i), 0, 0, s + 1, false, false)
    }

    ghost function PeAt(s: nat, n: int, i: nat): PeState<F>
      requires Valid() && s < plan.steps && IsPe(i)
    {
      if Fired(i, n) then Finished(s, n, i) else Collecting(s, n, i)
    }

    // A router with the given input queues of a step and nothing waiting to leave.
    ghost function Inputs(s: nat, qa: Queue, qb: Queue, tx: Queue, ty: Queue): (r: RouterState)
      ensures r.Shaped()
      ensures |qa| <= 4 && |qb| <= 4 && |tx| <= 4 && |ty| <= 4 ==> r.Valid()
    {
      Empty().(inVc := Slots(plan.AColor(s), plan.BColor(s), plan.xDone, plan.yDone, qa, qb, tx, ty))
    }

    ghost function TokenX(n: int, i: nat): (q: Queue)
      requires plan.gridP > 0
      ensures |q| <= 1
    {
      if Ra(i, n) == S() && !Fired(i, n) then [TOKEN] else []
    }

    ghost function TokenY(n: int, i: nat): (q: Queue)
      requires plan.gridP > 0
      ensures |q| <= 1
    {
      if Rb(i, n) == S() && !Fired(i, n) then [TOKEN] else []
    }

    ghost function RouterAt(s: nat, n: int, i: nat): (r: RouterState)
      requires plan.gridP > 0
      ensures r.Valid()
    {
      Inputs(s, [], [], TokenX(n, i), TokenY(n, i))
    }

    // The rendezvous task is armed as soon as the A panel is complete.
    ghost predicate Armed(ts: seq<Task>, st: PeState<F>) {
      TasksOk(ts) && (st.aToken ==> ts[COMPUTE].activated)
    }

    // PE i between cycles: n cycles into step s.
    ghost predicate Ready(s: nat, n: int, i: nat, tile: Tile<PeState<F>>)
      requires Valid() && s < plan.steps && IsPe(i)
    {
      && tile.router == RouterAt(s, n, i)
      && tile.state == PeAt(s, n, i)
      && Armed(tile.tasks, tile.state)
    }

    // Cycles a step takes: fill the pipeline across the grid, four elements a cycle.
    function Cycles(): nat
      requires plan.gridP > 0
    {
      (S() + 3) / 4 + plan.gridP - 1
    }
  }
}
