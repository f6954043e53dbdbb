/** A thread block: units that interleave freely over shared cells and wait for one another at barriers. */
module BarrierBlocks {

  // One instruction stream for all units. `Act` steps may read and write cells; a `sync` step waits for every unit.
  datatype Kernel<!L, !V> = Kernel(
    units: nat, cells: nat, length: nat,
    sync: nat -> bool,
    loads: (nat, nat) -> set<nat>,
    stores: (nat, nat) -> set<nat>,
    act: (nat, nat, L, seq<V>) -> (L, seq<V>))

  // What a block holds: shared cells, and per unit its registers and program counter.
  datatype Block<L, V> = Block(mem: seq<V>, local: seq<L>, pc: seq<nat>)

  datatype Choice = Run(unit: nat) | Release

  ghost predicate Agree<V>(m: seq<V>, n: seq<V>, cs: set<nat>) {
    |m| == |n| && forall a | a in cs && a < |m| :: m[a] == n[a]
  }

  // An action touches only the cells it stores to.
  ghost predicate StoresOnly<L, V>(k: Kernel<L, V>, pc: nat, u: nat, l: L, m: seq<V>) {
    var n := k.act(pc, u, l, m).1;
    |n| == |m| && forall a | 0 <= a < |m| && a !in k.stores(pc, u) :: n[a] == m[a]
  }

  // An action depends only on the cells it loads.
  ghost predicate LoadsOnly<L, V>(k: Kernel<L, V>, pc: nat, u: nat, l: L, m: seq<V>, n: seq<V>) {
    Agree(m, n, k.loads(pc, u)) ==> Same(k.act(pc, u, l, m), k.act(pc, u, l, n), k.stores(pc, u))
  }

  ghost predicate Same<L, V>(x: (L, seq<V>), y: (L, seq<V>), cs: set<nat>) {
    x.0 == y.0 && Agree(x.1, y.1, cs)
  }

  ghost predicate Footprint<L(!new), V(!new)>(k: Kernel<L, V>) {
    && (forall pc, u, l, m | |m| == k.cells :: StoresOnly(k, pc, u, l, m))
    && (forall pc, u, l, m, n | |m| == |n| == k.cells :: LoadsOnly(k, pc, u, l, m, n))
  }

  // The barrier that ends the phase containing pc.
  ghost function PhaseEnd<L, V>(k: Kernel<L, V>, pc: nat): (e: nat)
    requires pc <= k.length
    ensures pc <= e <= k.length
    ensures e < k.length ==> k.sync(e)
    ensures forall q: nat | pc <= q < e :: !k.sync(q)
    decreases k.length - pc
  {
    if pc == k.length || k.sync(pc) then pc else PhaseEnd(k, pc + 1)
  }

  lemma {:induction false} PhaseEndsAt<L, V>(k: Kernel<L, V>, pc: nat, e: nat)
    requires pc <= e <= k.length && (e == k.length || k.sync(e)) && forall q: nat | pc <= q < e :: !k.sync(q)
    ensures PhaseEnd(k, pc) == e
    decreases e - pc
  {
    if pc < e {
      PhaseEndsAt(k, pc + 1, e);
    }
  }

  // Within a phase, what one unit writes no other unit reads or writes.
  ghost predicate RaceFree<L, V>(k: Kernel<L, V>) {
    forall p: nat, q: nat, u: nat, v: nat
      | p < k.length && q < k.length && u < k.units && v < k.units && u != v && PhaseEnd(k, p) == PhaseEnd(k, q) ::
      Apart(k, p, u, q, v)
  }

  ghost predicate Apart<L, V>(k: Kernel<L, V>, p: nat, u: nat, q: nat, v: nat) {
    k.stores(p, u) !! k.loads(q, v) && k.stores(p, u) !! k.stores(q, v)
  }

  ghost predicate Shaped<L, V>(k: Kernel<L, V>, b: Block<L, V>) {
    && |b.mem| == k.cells && |b.local| == k.units && |b.pc| == k.units
    && forall u | 0 <= u < k.units :: b.pc[u] <= k.length
  }

  ghost predicate Enabled<L, V>(k: Kernel<L, V>, b: Block<L, V>, c: Choice)
    requires Shaped(k, b)
  {
    match c
    case Run(u) => u < k.units && b.pc[u] < k.length && !k.sync(b.pc[u])
    case Release => k.units > 0 && forall u | 0 <= u < k.units :: b.pc[u] < k.length && k.sync(b.pc[u])
  }

  ghost function Stepped<L(!new), V(!new)>(k: Kernel<L, V>, b: Block<L, V>, c: Choice): (b': Block<L, V>)
    requires Footprint(k) && Shaped(k, b) && Enabled(k, b, c)
    ensures Shaped(k, b')
  {
    match c
    case Run(u) =>
      assert StoresOnly(k, b.pc[u], u, b.local[u], b.mem);
      var (l, m) := k.act(b.pc[u], u, b.local[u], b.mem);
      Block(m, b.local[u := l], b.pc[u := b.pc[u] + 1])
    case Release =>
      b.(pc := seq(k.units, u requires 0 <= u < k.units && |b.pc| == k.units => b.pc[u] + 1))
  }

  ghost predicate Finished<L, V>(k: Kernel<L, V>, b: Block<L, V>)
    requires Shaped(k, b)
  {
    forall u | 0 <= u < k.units :: b.pc[u] == k.length
  }

  ghost function Start<L, V>(k: Kernel<L, V>, mem: seq<V>, local: seq<L>): (b: Block<L, V>)
    requires |mem| == k.cells && |local| == k.units
    ensures Shaped(k, b)
  {
    Block(mem, local, seq(k.units, _ => 0))
  }

  // A schedule: some interleaving of the units' steps and barrier releases.
  ghost predicate Follows<L(!new), V(!new)>(k: Kernel<L, V>, b: Block<L, V>, cs: seq<Choice>, b': Block<L, V>)
    requires Footprint(k) && Shaped(k, b)
    decreases |cs|
  {
    if cs == [] then b' == b
    else Enabled(k, b, cs[0]) && Follows(k, Stepped(k, b, cs[0]), cs[1..], b')
  }

  // ----- The phase-by-phase outcome -----

  // Unit u alone, n steps from pc.
  ghost function Solo<L(!new), V(!new)>(k: Kernel<L, V>, u: nat, pc: nat, n: nat, l: L, m: seq<V>): (r: (L, seq<V>))
    requires Footprint(k) && |m| == k.cells
    ensures |r.1| == k.cells
    decreases n
  {
    if n == 0 then (l, m)
    else
      var s := Solo(k, u, pc, n - 1, l, m);
      assert StoresOnly(k, pc + n - 1, u, s.0, s.1);
      k.act(pc + n - 1, u, s.0, s.1)
  }

  lemma SoloOne<L(!new), V(!new)>(k: Kernel<L, V>, u: nat, pc: nat, l: L, m: seq<V>)
    requires Footprint(k) && |m| == k.cells
    ensures Solo(k, u, pc, 1, l, m) == k.act(pc, u, l, m)
  {
    assert Solo(k, u, pc, 0, l, m) == (l, m);
  }

  lemma SoloTwo<L(!new), V(!new)>(k: Kernel<L, V>, u: nat, pc: nat, l: L, m: seq<V>)
    requires Footprint(k) && |m| == k.cells
    ensures var x := k.act(pc, u, l, m); Solo(k, u, pc, 2, l, m) == k.act(pc + 1, u, x.0, x.1)
  {
    SoloOne(k, u, pc, l, m);
  }

  ghost predicate Writes<L, V>(k: Kernel<L, V>, u: nat, lo: nat, hi: nat, a: nat) {
    exists q :: lo <= q < hi && a in k.stores(q, u)
  }

  ghost predicate Written<L, V>(k: Kernel<L, V>, lo: nat, hi: nat, a: nat) {
    exists u: nat :: u < k.units && Writes(k, u, lo, hi, a)
  }

  ghost function PhaseLocal<L(!new), V(!new)>(k: Kernel<L, V>, lo: nat, hi: nat, mem: seq<V>, local: seq<L>): (r: seq<L>)
    requires Footprint(k) && |mem| == k.cells && |local| == k.units && lo <= hi
    ensures |r| == k.units
  {
    seq(k.units, u requires 0 <= u < k.units && Footprint(k) && |mem| == k.cells && |local| == k.units && lo <= hi =>
      Solo(k, u, lo, hi - lo, local[u], mem).0)
  }

  ghost function CellAfter<L(!new), V(!new)>(k: Kernel<L, V>, lo: nat, hi: nat, mem: seq<V>, local: seq<L>, a: nat): V
    requires Footprint(k) && |mem| == k.cells && |local| == k.units && lo <= hi && a < k.cells
  {
    if Written(k, lo, hi, a) then
      var u: nat :| u < k.units && Writes(k, u, lo, hi, a);
      Solo(k, u, lo, hi - lo, local[u], mem).1[a]
    else mem[a]
  }

  ghost function PhaseMem<L(!new), V(!new)>(k: Kernel<L, V>, lo: nat, hi: nat, mem: seq<V>, local: seq<L>): (r: seq<V>)
    requires Footprint(k) && |mem| == k.cells && |local| == k.units && lo <= hi
    ensures |r| == k.cells
  {
    seq(k.cells, a requires 0 <= a < k.cells && Footprint(k) && |mem| == k.cells && |local| == k.units && lo <= hi =>
      CellAfter(k, lo, hi, mem, local, a))
  }

  // Run every phase to its barrier, one unit at a time.
  ghost function Outcome<L(!new), V(!new)>(k: Kernel<L, V>, lo: nat, mem: seq<V>, local: seq<L>): (r: (seq<V>, seq<L>))
    requires Footprint(k) && |mem| == k.cells && |local| == k.units && lo <= k.length
    ensures |r.0| == k.cells && |r.1| == k.units
    decreases k.length - lo
  {
    var e := PhaseEnd(k, lo);
    var m, l := PhaseMem(k, lo, e, mem, local), PhaseLocal(k, lo, e, mem, local);
    if e == k.length then (m, l) else Outcome(k, e + 1, m, l)
  }

  lemma OutcomeUnfolds<L(!new), V(!new)>(k: Kernel<L, V>, lo: nat, e: nat, mem: seq<V>, local: seq<L>)
    requires Footprint(k) && |mem| == k.cells && |local| == k.units && lo <= k.length && e == PhaseEnd(k, lo) && e < k.length
    ensures Outcome(k, lo, mem, local) == Outcome(k, e + 1, PhaseMem(k, lo, e, mem, local), PhaseLocal(k, lo, e, mem, local))
  {
  }

  lemma OutcomeLast<L(!new), V(!new)>(k: Kernel<L, V>, lo: nat, mem: seq<V>, local: seq<L>)
    requires Footprint(k) && |mem| == k.cells && |local| == k.units && lo <= k.length && PhaseEnd(k, lo) == k.length
    ensures Outcome(k, lo, mem, local) == (PhaseMem(k, lo, k.length, mem, local), PhaseLocal(k, lo, k.length, mem, local))
  {
  }

  // ----- Every schedule does the same -----

  // The block is somewhere inside the phase that starts at lo from (mem, local).
  ghost predicate Inside<L(!new), V(!new)>(k: Kernel<L, V>, b: Block<L, V>, lo: nat, mem: seq<V>, local: seq<L>)
    requires Footprint(k) && |mem| == k.cells && |local| == k.units && lo <= k.length
  {
    && Shaped(k, b)
    && (forall u | 0 <= u < k.units :: lo <= b.pc[u] <= PhaseEnd(k, lo))
    && (forall u | 0 <= u < k.units :: b.local[u] == Solo(k, u, lo, b.pc[u] - lo, local[u], mem).0)
    && (forall a | 0 <= a < k.cells :: CellInside(k, b, lo, mem, local, a))
  }

  ghost predicate CellInside<L(!new), V(!new)>(k: Kernel<L, V>, b: Block<L, V>, lo: nat, mem: seq<V>, local: seq<L>, a: nat)
    requires Footprint(k) && |mem| == k.cells && |local| == k.units && lo <= k.length && a < k.cells && Shaped(k, b)
    requires forall u | 0 <= u < k.units :: lo <= b.pc[u]
  {
    && (forall u | 0 <= u < k.units && Writes(k, u, lo, PhaseEnd(k, lo), a) ::
          b.mem[a] == Solo(k, u, lo, b.pc[u] - lo, local[u], mem).1[a])
    && (!Written(k, lo, PhaseEnd(k, lo), a) ==> b.mem[a] == mem[a])
  }

  lemma {:induction false} PhaseEndInside<L, V>(k: Kernel<L, V>, lo: nat, q: nat)
    requires lo <= k.length && lo <= q <= PhaseEnd(k, lo)
    ensures PhaseEnd(k, q) == PhaseEnd(k, lo)
    decreases q - lo
  {
    if lo < q {
      PhaseEndInside(k, lo + 1, q);
    }
  }

  // A unit alone changes only the cells it writes.
  lemma {:induction false} SoloKeeps<L(!new), V(!new)>(k: Kernel<L, V>, u: nat, pc: nat, n: nat, l: L, m: seq<V>, hi: nat, a: nat)
    requires Footprint(k) && |m| == k.cells && a < k.cells && pc + n <= hi && !Writes(k, u, pc, hi, a)
    ensures Solo(k, u, pc, n, l, m).1[a] == m[a]
    decreases n
  {
    if n > 0 {
      SoloKeeps(k, u, pc, n - 1, l, m, hi, a);
      var s := Solo(k, u, pc, n - 1, l, m);
      assert a !in k.stores(pc + n - 1, u);
      assert StoresOnly(k, pc + n - 1, u, s.0, s.1);
    }
  }

  // In a race-free phase a cell that unit u touches has no other writer.
  lemma OnlyWriter<L, V>(k: Kernel<L, V>, lo: nat, p: nat, u: nat, a: nat)
    requires RaceFree(k) && lo <= k.length && lo <= p < PhaseEnd(k, lo) && u < k.units
    requires a in k.loads(p, u) || a in k.stores(p, u)
    ensures forall v: nat | v < k.units && v != u :: !Writes(k, v, lo, PhaseEnd(k, lo), a)
  {
    forall v: nat, q | v < k.units && v != u && lo <= q < PhaseEnd(k, lo)
      ensures a !in k.stores(q, v)
    {
      PhaseEndInside(k, lo, q);
      PhaseEndInside(k, lo, p);
      assert Apart(k, q, v, p, u);
    }
  }

  lemma ReadAgrees<L(!new), V(!new)>(k: Kernel<L, V>, b: Block<L, V>, lo: nat, mem: seq<V>, local: seq<L>, u: nat, a: nat)
    requires Footprint(k) && RaceFree(k) && |mem| == k.cells && |local| == k.units && lo <= k.length && Shaped(k, b)
    requires u < k.units && (forall v | 0 <= v < k.units :: lo <= b.pc[v]) && b.pc[u] < PhaseEnd(k, lo)
    requires a < k.cells && a in k.loads(b.pc[u], u) && CellInside(k, b, lo, mem, local, a)
    ensures b.mem[a] == Solo(k, u, lo, b.pc[u] - lo, local[u], mem).1[a]
  {
    OnlyWriter(k, lo, b.pc[u], u, a);
    if !Writes(k, u, lo, PhaseEnd(k, lo), a) {
      SoloKeeps(k, u, lo, b.pc[u] - lo, local[u], mem, PhaseEnd(k, lo), a);
    }
  }

  // What a unit reads next is the same in the block as in its own solo run.
  lemma ReadsAgree<L(!new), V(!new)>(k: Kernel<L, V>, b: Block<L, V>, lo: nat, mem: seq<V>, local: seq<L>, u: nat)
    requires Footprint(k) && RaceFree(k) && |mem| == k.cells && |local| == k.units && lo <= k.length
    requires Inside(k, b, lo, mem, local) && u < k.units && b.pc[u] < PhaseEnd(k, lo)
    ensures Agree(b.mem, Solo(k, u, lo, b.pc[u] - lo, local[u], mem).1, k.loads(b.pc[u], u))
  {
    hide CellInside, RaceFree, Footprint;
    forall a: nat | a in k.loads(b.pc[u], u) && a < |b.mem|
      ensures b.mem[a] == Solo(k, u, lo, b.pc[u] - lo, local[u], mem).1[a]
    {
      assert CellInside(k, b, lo, mem, local, a);
      ReadAgrees(k, b, lo, mem, local, u, a);
    }
  }

  // Unit u's next step, alone.
  lemma SoloNext<L(!new), V(!new)>(k: Kernel<L, V>, u: nat, lo: nat, p: nat, l: L, m: seq<V>)
    requires Footprint(k) && |m| == k.cells && lo <= p
    ensures var s := Solo(k, u, lo, p - lo, l, m);
      && Solo(k, u, lo, p + 1 - lo, l, m) == k.act(p, u, s.0, s.1)
      && StoresOnly(k, p, u, s.0, s.1)
  {
  }

  // One unit's step keeps the block inside the phase.
  lemma RunInside<L(!new), V(!new)>(k: Kernel<L, V>, b: Block<L, V>, lo: nat, mem: seq<V>, local: seq<L>, u: nat)
    requires Footprint(k) && RaceFree(k) && |mem| == k.cells && |local| == k.units && lo <= k.length
    requires Inside(k, b, lo, mem, local) && u < k.units && b.pc[u] < PhaseEnd(k, lo) && Enabled(k, b, Run(u))
    ensures Inside(k, Stepped(k, b, Run(u)), lo, mem, local)
  {
    ReadsAgree(k, b, lo, mem, local, u);
    var p, e := b.pc[u], PhaseEnd(k, lo);
    var s := Solo(k, u, lo, p - lo, local[u], mem);
    var b' := Stepped(k, b, Run(u));
    assert LoadsOnly(k, p, u, s.0, b.mem, s.1);
    assert StoresOnly(k, p, u, b.local[u], b.mem);
    SoloNext(k, u, lo, p, local[u], mem);
    hide Footprint, RaceFree;
    forall a | 0 <= a < k.cells
      ensures CellInside(k, b', lo, mem, local, a)
    {
      assert CellInside(k, b, lo, mem, local, a);
      if a in k.stores(p, u) {
        OnlyWriter(k, lo, p, u, a);
        assert Writes(k, u, lo, e, a);
      }
    }
  }

  // When every unit has reached the barrier, the phase has done exactly what it does one unit at a time.
  lemma PhaseDone<L(!new), V(!new)>(k: Kernel<L, V>, b: Block<L, V>, lo: nat, mem: seq<V>, local: seq<L>)
    requires Footprint(k) && |mem| == k.cells && |local| == k.units && lo <= k.length
    requires Inside(k, b, lo, mem, local) && forall u | 0 <= u < k.units :: b.pc[u] == PhaseEnd(k, lo)
    ensures b.mem == PhaseMem(k, lo, PhaseEnd(k, lo), mem, local)
    ensures b.local == PhaseLocal(k, lo, PhaseEnd(k, lo), mem, local)
  {
    hide Footprint, Solo;
    var e := PhaseEnd(k, lo);
    forall a | 0 <= a < k.cells
      ensures b.mem[a] == CellAfter(k, lo, e, mem, local, a)
    {
      assert CellInside(k, b, lo, mem, local, a);
    }
  }

  // At the start of a phase nothing has happened yet.
  lemma PhaseBegins<L(!new), V(!new)>(k: Kernel<L, V>, b: Block<L, V>, lo: nat)
    requires Footprint(k) && Shaped(k, b) && lo <= k.length && forall u | 0 <= u < k.units :: b.pc[u] == lo
    ensures Inside(k, b, lo, b.mem, b.local)
  {
    forall a | 0 <= a < k.cells
      ensures CellInside(k, b, lo, b.mem, b.local, a)
    {
    }
  }

  // The block is on its way to the outcome.
  ghost predicate OnTrack<L(!new), V(!new)>(k: Kernel<L, V>, b: Block<L, V>, mem: seq<V>, local: seq<L>)
    requires Footprint(k) && |mem| == k.cells && |local| == k.units
  {
    exists lo: nat, m: seq<V>, l: seq<L> ::
      && lo <= k.length && |m| == k.cells && |l| == k.units && Inside(k, b, lo, m, l)
      && Outcome(k, lo, m, l) == Outcome(k, 0, mem, local)
  }

  // A released barrier ends the phase and begins the next one.
  lemma ReleaseOnTrack<L(!new), V(!new)>(k: Kernel<L, V>, b: Block<L, V>, lo: nat, m: seq<V>, l: seq<L>)
    requires Footprint(k) && lo <= k.length && |m| == k.cells && |l| == k.units
    requires Inside(k, b, lo, m, l) && Shaped(k, b) && Enabled(k, b, Release)
    ensures var e := PhaseEnd(k, lo) + 1;
      e <= k.length && Inside(k, Stepped(k, b, Release), e, b.mem, b.local) && Outcome(k, e, b.mem, b.local) == Outcome(k, lo, m, l)
  {
    hide Footprint, Outcome, PhaseMem, PhaseLocal, CellInside;
    var e := PhaseEnd(k, lo);
    forall u | 0 <= u < k.units
      ensures b.pc[u] == e
    {
      assert k.sync(b.pc[u]);
    }
    assert b.pc[0] == e;
    PhaseDone(k, b, lo, m, l);
    OutcomeUnfolds(k, lo, e, m, l);
    PhaseBegins(k, Stepped(k, b, Release), e + 1);
  }

  lemma StepOnTrack<L(!new), V(!new)>(k: Kernel<L, V>, b: Block<L, V>, c: Choice, mem: seq<V>, local: seq<L>)
    requires Footprint(k) && RaceFree(k) && |mem| == k.cells && |local| == k.units
    requires OnTrack(k, b, mem, local) && Shaped(k, b) && Enabled(k, b, c)
    ensures OnTrack(k, Stepped(k, b, c), mem, local)
  {
    hide Footprint, RaceFree, Outcome;
    var lo: nat, m: seq<V>, l: seq<L> :|
      && lo <= k.length && |m| == k.cells && |l| == k.units && Inside(k, b, lo, m, l)
      && Outcome(k, lo, m, l) == Outcome(k, 0, mem, local);
    match c
    case Run(u) =>
      RunningBeforeEnd(k, b, lo, m, l, u);
      RunInside(k, b, lo, m, l, u);
    case Release =>
      ReleaseOnTrack(k, b, lo, m, l);
  }

  // A unit that may run has not reached the end of its phase.
  lemma RunningBeforeEnd<L(!new), V(!new)>(k: Kernel<L, V>, b: Block<L, V>, lo: nat, m: seq<V>, l: seq<L>, u: nat)
    requires Footprint(k) && lo <= k.length && |m| == k.cells && |l| == k.units
    requires Inside(k, b, lo, m, l) && Shaped(k, b) && Enabled(k, b, Run(u))
    ensures u < k.units && b.pc[u] < PhaseEnd(k, lo)
  {
    hide Footprint, CellInside;
  }

  lemma {:induction false} ScheduleOnTrack<L(!new), V(!new)>(k: Kernel<L, V>, b: Block<L, V>, cs: seq<Choice>, b': Block<L, V>,
      mem: seq<V>, local: seq<L>)
    requires Footprint(k) && RaceFree(k) && |mem| == k.cells && |local| == k.units
    requires Shaped(k, b) && OnTrack(k, b, mem, local) && Follows(k, b, cs, b')
    ensures Shaped(k, b') && OnTrack(k, b', mem, local)
    decreases |cs|
  {
    if cs != [] {
      StepOnTrack(k, b, cs[0], mem, local);
      ScheduleOnTrack(k, Stepped(k, b, cs[0]), cs[1..], b', mem, local);
    }
  }

  /** In a race-free block every schedule that finishes ends in the same state: the phase-by-phase outcome. */
  lemma Deterministic<L(!new), V(!new)>(k: Kernel<L, V>, mem: seq<V>, local: seq<L>, cs: seq<Choice>, b: Block<L, V>)
    requires Footprint(k) && RaceFree(k) && |mem| == k.cells && |local| == k.units
    requires Follows(k, Start(k, mem, local), cs, b) && Shaped(k, b) && Finished(k, b) && k.units > 0
    ensures (b.mem, b.local) == Outcome(k, 0, mem, local)
  {
    PhaseBegins(k, Start(k, mem, local), 0);
    ScheduleOnTrack(k, Start(k, mem, local), cs, b, mem, local);
    var lo: nat, m: seq<V>, l: seq<L> :|
      && lo <= k.length && |m| == k.cells && |l| == k.units && Inside(k, b, lo, m, l)
      && Outcome(k, lo, m, l) == Outcome(k, 0, mem, local);
    assert b.pc[0] == k.length;
    PhaseDone(k, b, lo, m, l);
  }

  lemma SomeStep<L(!new), V(!new)>(k: Kernel<L, V>, b: Block<L, V>, lo: nat, m: seq<V>, l: seq<L>)
    requires Footprint(k) && |m| == k.cells && |l| == k.units && lo <= k.length && Inside(k, b, lo, m, l) && k.units > 0
    ensures Finished(k, b) || exists c :: Enabled(k, b, c)
  {
    hide Footprint, CellInside, Outcome;
    var e := PhaseEnd(k, lo);
    if u :| 0 <= u < k.units && b.pc[u] < e {
      assert Enabled(k, b, Run(u));
    } else {
      assert forall u | 0 <= u < k.units :: b.pc[u] == e;
      if e < k.length {
        assert Enabled(k, b, Release);
      }
    }
  }

  /** No unit waits for ever: a block on its way always has a step to take until every unit has finished. */
  lemma NoDeadlock<L(!new), V(!new)>(k: Kernel<L, V>, mem: seq<V>, local: seq<L>, cs: seq<Choice>, b: Block<L, V>)
    requires Footprint(k) && RaceFree(k) && |mem| == k.cells && |local| == k.units && k.units > 0
    requires Follows(k, Start(k, mem, local), cs, b) && Shaped(k, b)
    ensures Finished(k, b) || exists c :: Enabled(k, b, c)
  {
    PhaseBegins(k, Start(k, mem, local), 0);
    ScheduleOnTrack(k, Start(k, mem, local), cs, b, mem, local);
    var lo: nat, m: seq<V>, l: seq<L> :|
      && lo <= k.length && |m| == k.cells && |l| == k.units && Inside(k, b, lo, m, l)
      && Outcome(k, lo, m, l) == Outcome(k, 0, mem, local);
    SomeStep(k, b, lo, m, l);
  }

  // Steps left: every step moves at least one unit on.
  ghost function Left(pcs: seq<nat>, length: nat): nat
    requires forall u | 0 <= u < |pcs| :: pcs[u] <= length
  {
    if pcs == [] then 0 else length - pcs[0] + Left(pcs[1..], length)
  }

  lemma {:induction false} LeftDrops(p: seq<nat>, q: seq<nat>, length: nat)
    requires |p| == |q| && forall u | 0 <= u < |p| :: p[u] <= q[u] <= length
    ensures Left(q, length) <= Left(p, length)
    ensures (exists u :: 0 <= u < |p| && p[u] < q[u]) ==> Left(q, length) < Left(p, length)
  {
    if p != [] {
      LeftDrops(p[1..], q[1..], length);
      if u :| 0 <= u < |p| && p[u] < q[u] {
        assert u > 0 ==> p[1..][u - 1] < q[1..][u - 1];
      }
    }
  }

  lemma StepMoves<L(!new), V(!new)>(k: Kernel<L, V>, b: Block<L, V>, c: Choice)
    requires Footprint(k) && Shaped(k, b) && Enabled(k, b, c)
    ensures Left(Stepped(k, b, c).pc, k.length) < Left(b.pc, k.length)
  {
    var next := Stepped(k, b, c);
    match c {
      case Run(u) => assert b.pc[u] < next.pc[u];
      case Release => assert b.pc[0] < next.pc[0];
    }
    LeftDrops(b.pc, next.pc, k.length);
  }

  /** Every schedule is finite: no longer than the instructions of all units together. */
  lemma {:induction false} SchedulesEnd<L(!new), V(!new)>(k: Kernel<L, V>, b: Block<L, V>, cs: seq<Choice>, b': Block<L, V>)
    requires Footprint(k) && Shaped(k, b) && Follows(k, b, cs, b')
    ensures |cs| <= Left(b.pc, k.length)
    decreases |cs|
  {
    if cs != [] {
      StepMoves(k, b, cs[0]);
      SchedulesEnd(k, Stepped(k, b, cs[0]), cs[1..], b');
    }
  }

  // From anywhere on its way the block has a schedule to the end.
  lemma {:induction false} CompletesFrom<L(!new), V(!new)>(k: Kernel<L, V>, b: Block<L, V>, mem: seq<V>, local: seq<L>)
      returns (cs: seq<Choice>, b': Block<L, V>)
    requires Footprint(k) && RaceFree(k) && |mem| == k.cells && |local| == k.units && k.units > 0
    requires Shaped(k, b) && OnTrack(k, b, mem, local)
    ensures Follows(k, b, cs, b') && Shaped(k, b') && Finished(k, b')
    decreases Left(b.pc, k.length)
  {
    hide Footprint, RaceFree, Outcome, Enabled, Left;
    if Finished(k, b) {
      cs, b' := [], b;
    } else {
      var lo: nat, m: seq<V>, l: seq<L> :|
        && lo <= k.length && |m| == k.cells && |l| == k.units && Inside(k, b, lo, m, l)
        && Outcome(k, lo, m, l) == Outcome(k, 0, mem, local);
      SomeStep(k, b, lo, m, l);
      var c :| Enabled(k, b, c);
      hide OnTrack, Stepped;
      StepOnTrack(k, b, c, mem, local);
      StepMoves(k, b, c);
      var rest;
      rest, b' := CompletesFrom(k, Stepped(k, b, c), mem, local);
      cs := [c] + rest;
      assert cs[1..] == rest;
    }
  }

  /** A race-free block has a schedule that finishes, from any shared memory. */
  lemma Completes<L(!new), V(!new)>(k: Kernel<L, V>, mem: seq<V>, local: seq<L>) returns (cs: seq<Choice>, b: Block<L, V>)
    requires Footprint(k) && RaceFree(k) && |mem| == k.cells && |local| == k.units && k.units > 0
    ensures Follows(k, Start(k, mem, local), cs, b) && Shaped(k, b) && Finished(k, b)
  {
    PhaseBegins(k, Start(k, mem, local), 0);
    cs, b := CompletesFrom(k, Start(k, mem, local), mem, local);
  }
}
