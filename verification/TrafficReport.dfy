/** The report on a normalised matmul, worked out in element counts: two ops before, one after, and the saving in between. */
module TrafficReports {
  import opened Wavelets
  import opened Arithmetic
  import opened SsaFunctions
  import opened Fusions
  import opened Traffics

  // %2 = rmsnorm %0 : M x K; %3 = matmul %2, %1 : M x K, K x N -> M x N; return %3
  function NormMatmul(M: nat, K: nat, N: nat, w: nat): Func {
    Func(map[0 := Type([M, K], w), 1 := Type([K, N], w)],
         [Op(2, RmsNorm(None), [0], Type([M, K], w), []), Op(3, MatMul, [2, 1], Type([M, N], w), [])], [3])
  }

  // %3 = fused_rmsnorm_matmul %0, %1 : M x K, K x N -> M x N, recording the M x K that is gone
  function FusedNormMatmul(M: nat, K: nat, N: nat, w: nat): Func {
    Func(map[0 := Type([M, K], w), 1 := Type([K, N], w)],
         [Op(3, FusedRmsNormMatMul(None), [0, 1], Type([M, N], w), [Type([M, K], w)])], [3])
  }

  lemma MatrixBytes(rows: nat, cols: nat, w: nat)
    ensures Type([rows, cols], w).Bytes() == rows * cols * w
  {
    assert [rows, cols][..1] == [rows] && [rows][..0] == [];
    assert Product([]) == 1 && Product([rows]) == rows && Product([rows, cols]) == rows * cols;
  }

  lemma NormMatmulTypes(M: nat, K: nat, N: nat, w: nat)
    ensures Types(NormMatmul(M, K, N, w)) == map[0 := Type([M, K], w), 1 := Type([K, N], w), 2 := Type([M, K], w), 3 := Type([M, N], w)]
  {
    var f := NormMatmul(M, K, N, w);
    var one := f.body[..1];
    assert one[..0] == [];
    assert TypesOf(f.args, []) == f.args;
    assert TypesOf(f.args, one) == f.args[2 := Type([M, K], w)];
    assert Types(f) == TypesOf(f.args, one)[3 := Type([M, N], w)];
  }

  lemma FusedTypes(M: nat, K: nat, N: nat, w: nat)
    ensures Types(FusedNormMatmul(M, K, N, w)) == map[0 := Type([M, K], w), 1 := Type([K, N], w), 3 := Type([M, N], w)]
  {
    var f := FusedNormMatmul(M, K, N, w);
    assert f.body[..0] == [];
    assert TypesOf(f.args, []) == f.args;
  }

  lemma TwoOps(types: map<nat, Type>, body: seq<Op>)
    requires |body| == 2
    ensures TotalTraffic(types, body) == OpTraffic(types, body[0]) + OpTraffic(types, body[1])
  {
    var rest := body[1..];
    assert rest[0] == body[1] && rest[1..] == [];
    assert TotalTraffic(types, rest) == OpTraffic(types, rest[0]) + TotalTraffic(types, []);
  }

  lemma OneOp(types: map<nat, Type>, body: seq<Op>)
    requires |body| == 1
    ensures TotalTraffic(types, body) == OpTraffic(types, body[0]) && TotalEliminated(body) == SumBytes(body[0].eliminated)
  {
    assert body[1..] == [];
    hide OpTraffic, SumBytes;
  }

  /** Before fusing: the rmsnorm reads and writes M*K elements, the matmul reads M*K and K*N and writes M*N. */
  lemma BytesBefore(M: nat, K: nat, N: nat, w: nat)
    ensures Bytes(NormMatmul(M, K, N, w)) == 2 * (M * K * w) + (M * K * w + K * N * w + M * N * w)
  {
    var f := NormMatmul(M, K, N, w);
    var types := Types(f);
    NormMatmulTypes(M, K, N, w);
    MatrixBytes(M, K, w);
    MatrixBytes(K, N, w);
    MatrixBytes(M, N, w);
    assert OpTyped(types, f.body[0]);
    SharedTraffic(types, f.body[0]);
    ArrowTraffic(types, f.body[1]);
    hide Types, OpTraffic, Type.Bytes, OpTyped;
    TwoOps(types, f.body);
  }

  /** After: the fused op reads M*K and K*N and writes M*N, and has recorded the M*K in between. */
  lemma BytesAfter(M: nat, K: nat, N: nat, w: nat)
    ensures Bytes(FusedNormMatmul(M, K, N, w)) == M * K * w + K * N * w + M * N * w
    ensures TotalEliminated(FusedNormMatmul(M, K, N, w).body) == M * K * w
  {
    var f := FusedNormMatmul(M, K, N, w);
    var types := Types(f);
    FusedTypes(M, K, N, w);
    MatrixBytes(M, K, w);
    MatrixBytes(K, N, w);
    MatrixBytes(M, N, w);
    ArrowTraffic(types, f.body[0]);
    SumsOfFew(Type([M, K], w), Type([M, K], w), Type([M, K], w));
    hide Types, OpTraffic, Type.Bytes, SumBytes;
    OneOp(types, f.body);
  }

  // ----- What the passes make of it -----

  lemma NormMatmulWellFormed(M: nat, K: nat, N: nat, w: nat)
    ensures WellFormed(NormMatmul(M, K, N, w))
  {
    var f := NormMatmul(M, K, N, w);
    assert Produces(f.body[0], 2) && Produces(f.body[1], 3);
    assert Defined(f, 0, 0) && Defined(f, 1, 2) && Defined(f, 1, 1) && Defined(f, 2, 3);
    assert OpWellFormed(f, 0) && OpWellFormed(f, 1);
  }

  // Where a value is used.
  lemma UsesOfTwo(f: Func, v: nat)
    requires |f.body| == 2
    ensures Uses(f, v) == Count(f.body[0].operands, v) + Count(f.body[1].operands, v) + Count(f.outs, v)
  {
    var rest := f.body[1..];
    assert rest[0] == f.body[1] && rest[1..] == [];
    assert BodyUses(rest, v) == Count(rest[0].operands, v) + BodyUses([], v);
  }

  lemma UsesOfOne(f: Func, v: nat)
    requires |f.body| == 1
    ensures Uses(f, v) == Count(f.body[0].operands, v) + Count(f.outs, v)
  {
    var rest := f.body[1..];
    assert rest == [];
    assert BodyUses(f.body, v) == Count(f.body[0].operands, v) + BodyUses(rest, v);
  }

  lemma CountOfTwo(a: nat, b: nat, v: nat)
    ensures Count([a], v) == (if a == v then 1 else 0)
    ensures Count([a, b], v) == (if a == v then 1 else 0) + if b == v then 1 else 0
  {
    var one, two, last := [a], [a, b], [b];
    assert one[1..] == [] && two[1..] == last && last[1..] == [];
    assert Count(one, v) == (if a == v then 1 else 0) + Count([], v);
    assert Count(last, v) == (if b == v then 1 else 0) + Count([], v);
    assert Count(two, v) == (if a == v then 1 else 0) + Count(last, v);
  }

  lemma NormMatmulUses(M: nat, K: nat, N: nat, w: nat)
    ensures var f := NormMatmul(M, K, N, w); Uses(f, 2) == 1 && Uses(f, 3) == 1
    ensures var g := FusedNormMatmul(M, K, N, w); Uses(g, 3) == 1
  {
    var f, g := NormMatmul(M, K, N, w), FusedNormMatmul(M, K, N, w);
    hide Uses, Count;
    forall v: nat
      ensures Uses(f, v) == (if v == 0 then 1 else 0) + (if v == 2 then 1 else 0) + (if v == 1 then 1 else 0) + if v == 3 then 1 else 0
      ensures Uses(g, v) == (if v == 0 then 1 else 0) + (if v == 1 then 1 else 0) + if v == 3 then 1 else 0
    {
      UsesOfTwo(f, v);
      UsesOfOne(g, v);
      CountOfTwo(0, 1, v);
      CountOfTwo(2, 1, v);
      CountOfTwo(3, 1, v);
    }
  }

  lemma NormMatmulDefs(M: nat, K: nat, N: nat, w: nat)
    ensures var f := NormMatmul(M, K, N, w); FindDef(f.body, 0) == None && FindDef(f.body, 2) == Some(0)
    ensures var g := FusedNormMatmul(M, K, N, w); FindDef(g.body, 0) == None
  {
    var f := NormMatmul(M, K, N, w);
    assert f.body[..1] == [f.body[0]] && [f.body[0]][..0] == [];
    assert !Produces(f.body[0], 0) && !Produces(f.body[1], 0) && Produces(f.body[0], 2);
  }

  // The rmsnorm can go into the matmul, and nothing else can be done.
  lemma OnlyStep(M: nat, K: nat, N: nat, w: nat, s: Step)
    ensures var f := NormMatmul(M, K, N, w);
      Enabled(f, s) <==> s == Pair(RmsNormMatMul, 1)
    ensures !Enabled(FusedNormMatmul(M, K, N, w), s)
  {
    NormMatmulUses(M, K, N, w);
    NormMatmulDefs(M, K, N, w);
    hide Uses, FindDef;
  }

  lemma StepMakes(M: nat, K: nat, N: nat, w: nat)
    requires WellFormed(NormMatmul(M, K, N, w)) && Enabled(NormMatmul(M, K, N, w), Pair(RmsNormMatMul, 1))
    ensures Apply(NormMatmul(M, K, N, w), Pair(RmsNormMatMul, 1)) == FusedNormMatmul(M, K, N, w)
  {
    var f := NormMatmul(M, K, N, w);
    NormMatmulDefs(M, K, N, w);
    assert ProducerOf(f, 1) == 0;
    var op := FusedOp(RmsNormMatMul, f.body[1], f.body[0]);
    assert f.body[1].operands[1..] == [1];
    assert op.operands == [0, 1];
    var g := Replaced(f, 1, op);
    assert g.body[..0] + g.body[1..] == [op];
  }

  /** Every run that leaves nothing to fuse turns the two ops into the one, and the report on it says that 2*M*K elements of traffic are
      saved, in both of its views. */
  lemma NormMatmulReport(M: nat, K: nat, N: nat, w: nat, steps: seq<Step>, g: Func)
    requires WellFormed(NormMatmul(M, K, N, w)) && Runs(NormMatmul(M, K, N, w), steps, g) && AllFused(g)
    ensures g == FusedNormMatmul(M, K, N, w)
    ensures Bytes(NormMatmul(M, K, N, w)) - Bytes(g) == 2 * TotalEliminated(g.body) == 2 * (M * K * w)
  {
    var f := NormMatmul(M, K, N, w);
    BytesBefore(M, K, N, w);
    BytesAfter(M, K, N, w);
    OnlyStep(M, K, N, w, Pair(RmsNormMatMul, 1));
    hide Bytes, TotalEliminated, WellFormed;
    if steps == [] {
      Unfused(M, K, N, w);
    } else {
      OnlyStep(M, K, N, w, steps[0]);
      StepMakes(M, K, N, w);
      if |steps| > 1 {
        OnlyStep(M, K, N, w, steps[1]);
      }
    }
  }

  lemma Unfused(M: nat, K: nat, N: nat, w: nat)
    ensures !AllFused(NormMatmul(M, K, N, w))
  {
    assert PairLeft(NormMatmul(M, K, N, w), RmsNormMatMul, 0, 1);
  }

  // ----- What the two functions mean -----

  lemma LastEnv<V(!new)>(sem: Sem<V>, f: Func, inputs: map<nat, V>, n: nat)
    requires n < |f.body|
    ensures Env(sem, f, inputs, n + 1) == Env(sem, f, inputs, n)[f.body[n].result := Value(sem, Env(sem, f, inputs, n), f.body[n])]
  {
  }

  /** On x and y the first returns the matmul of the rmsnorm of x with y, and the second its fused op on x and y. */
  lemma NormMatmulMeans<V(!new)>(sem: Sem<V>, M: nat, K: nat, N: nat, w: nat, x: V, y: V)
    ensures Results(sem, NormMatmul(M, K, N, w), map[0 := x, 1 := y]) ==
      [sem.interp(MatMul, Type([M, N], w), [sem.interp(RmsNorm(None), Type([M, K], w), [x]), y])]
    ensures Results(sem, FusedNormMatmul(M, K, N, w), map[0 := x, 1 := y]) ==
      [sem.interp(FusedRmsNormMatMul(None), Type([M, N], w), [x, y])]
  {
    var f, g, inputs := NormMatmul(M, K, N, w), FusedNormMatmul(M, K, N, w), map[0 := x, 1 := y];
    var normed := sem.interp(RmsNorm(None), Type([M, K], w), [x]);
    LastEnv(sem, f, inputs, 0);
    LastEnv(sem, f, inputs, 1);
    LastEnv(sem, g, inputs, 0);
    assert Env(sem, f, inputs, 0) == inputs && Env(sem, g, inputs, 0) == inputs;
    assert Values(sem, inputs, [0]) == [x] && Values(sem, inputs, [0, 1]) == [x, y];
    var env := inputs[2 := normed];
    assert Env(sem, f, inputs, 1) == env;
    assert Values(sem, env, [2, 1]) == [normed, y];
  }
}
