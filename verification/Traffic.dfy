/** The before/after global-traffic report of the fusion passes, and when its two views of the saving agree. */
module Traffics {
  import opened Wavelets
  import opened Sums
  import opened Arithmetic
  import opened SsaFunctions
  import opened Fusions
  import opened Liveness

  // ----- Per-op records, as read back from the printed IR -----

  // A printed type signature: one shared type, or operands -> results.
  datatype Signature = Shared(ty: Type) | Arrow(ins: seq<Type>, outs: seq<Type>)

  function SplitTypeSig(sig: Signature, operands: nat): (seq<Type>, seq<Type>) {
    match sig
    case Shared(ty) => (seq(operands, _ => ty), [ty])
    case Arrow(ins, outs) => (ins, outs)
  }

  function TypeIn(types: map<nat, Type>, v: nat): Type {
    if v in types then types[v] else Type([], 0)
  }

  function OperandTypes(types: map<nat, Type>, op: Op): (r: seq<Type>)
    ensures |r| == |op.operands|
  {
    seq(|op.operands|, k requires 0 <= k < |op.operands| => TypeIn(types, op.operands[k]))
  }

  // Shape-preserving ops print the type of their first operand; the others print everything.
  function PrintedSig(types: map<nat, Type>, op: Op): Signature {
    if op.kind.ShapePreserving() && op.operands != [] then Shared(TypeIn(types, op.operands[0]))
    else Arrow(OperandTypes(types, op), [op.ty])
  }

  datatype OpRecord = OpRecord(result: nat, kind: Kind, readBytes: nat, writeBytes: nat, eliminated: seq<Type>)
  {
    function Traffic(): nat {
      readBytes + writeBytes
    }
  }

  function SumBytes(tys: seq<Type>): nat {
    if tys == [] then 0 else tys[0].Bytes() + SumBytes(tys[1..])
  }

  function RecordOf(types: map<nat, Type>, op: Op): OpRecord {
    var (ins, outs) := SplitTypeSig(PrintedSig(types, op), |op.operands|);
    OpRecord(op.result, op.kind, SumBytes(ins), SumBytes(outs), op.eliminated)
  }

  // The type of every argument and op result.
  function TypesOf(args: map<nat, Type>, body: seq<Op>): map<nat, Type> {
    if body == [] then args
    else TypesOf(args, body[..|body| - 1])[body[|body| - 1].result := body[|body| - 1].ty]
  }

  // numel * element width.
  method TensorBytes(ty: Type) returns (n: nat)
    ensures n == ty.Bytes()
  {
    ProductNonNegative(ty.dims);
    var numel := ProductOf(ty.dims);
    n := numel * ty.width;
  }

  method ParseOps(f: Func) returns (records: seq<OpRecord>)
    ensures |records| == |f.body|
    ensures forall i | 0 <= i < |records| :: records[i] == RecordOf(TypesOf(f.args, f.body), f.body[i])
  {
    var types := TypesOf(f.args, f.body);
    records := [];
    for i := 0 to |f.body|
      invariant |records| == i && forall j | 0 <= j < i :: records[j] == RecordOf(types, f.body[j])
    {
      var op := f.body[i];
      var (ins, outs) := SplitTypeSig(PrintedSig(types, op), |op.operands|);
      var readBytes := SumTensorBytes(ins);
      var writeBytes := SumTensorBytes(outs);
      records := records + [OpRecord(op.result, op.kind, readBytes, writeBytes, op.eliminated)];
    }
  }

  method SumTensorBytes(tys: seq<Type>) returns (n: nat)
    ensures n == SumBytes(tys)
  {
    n := 0;
    assert tys[0..] == tys;
    for i := 0 to |tys|
      invariant n + SumBytes(tys[i..]) == SumBytes(tys)
    {
      assert tys[i..][0] == tys[i] && tys[i..][1..] == tys[i + 1..];
      var b := TensorBytes(tys[i]);
      n := n + b;
    }
    assert tys[|tys|..] == [];
  }

  // ----- Totals -----

  function OpTraffic(types: map<nat, Type>, op: Op): nat {
    RecordOf(types, op).Traffic()
  }

  function TotalTraffic(types: map<nat, Type>, body: seq<Op>): nat {
    if body == [] then 0 else OpTraffic(types, body[0]) + TotalTraffic(types, body[1..])
  }

  // Bytes of every recorded eliminated intermediate.
  function TotalEliminated(body: seq<Op>): nat {
    if body == [] then 0 else SumBytes(body[0].eliminated) + TotalEliminated(body[1..])
  }

  lemma {:induction false} TotalsConcat(types: map<nat, Type>, p: seq<Op>, q: seq<Op>)
    ensures TotalTraffic(types, p + q) == TotalTraffic(types, p) + TotalTraffic(types, q)
    ensures TotalEliminated(p + q) == TotalEliminated(p) + TotalEliminated(q)
    decreases |p|
  {
    if p == [] {
      assert p + q == q;
    } else {
      assert (p + q)[0] == p[0] && (p + q)[1..] == p[1..] + q;
      TotalsConcat(types, p[1..], q);
    }
  }

  lemma TotalsSplit(types: map<nat, Type>, body: seq<Op>, i: nat)
    requires i < |body|
    ensures TotalTraffic(types, body) == TotalTraffic(types, body[..i]) + OpTraffic(types, body[i]) + TotalTraffic(types, body[i + 1..])
    ensures TotalEliminated(body) == TotalEliminated(body[..i]) + SumBytes(body[i].eliminated) + TotalEliminated(body[i + 1..])
  {
    assert body == body[..i] + body[i..];
    TotalsConcat(types, body[..i], body[i..]);
    assert body[i..][0] == body[i] && body[i..][1..] == body[i + 1..];
  }

  // ----- Conservation -----

  // Types as the op definitions infer them: a shape-preserving op has one type throughout; only fused ops carry tags.
  ghost predicate OpTyped(types: map<nat, Type>, op: Op) {
    && TypeIn(types, op.result) == op.ty
    && (op.kind.ShapePreserving() ==> forall k | 0 <= k < |op.operands| :: TypeIn(types, op.operands[k]) == op.ty)
    && (op.eliminated != [] ==> op.kind.Fused())
  }

  ghost predicate TypedBy(types: map<nat, Type>, f: Func) {
    && (forall v | v in f.args :: TypeIn(types, v) == f.args[v])
    && (forall i | 0 <= i < |f.body| :: OpTyped(types, f.body[i]))
  }

  // An op's traffic plus twice what its fusion eliminated.
  function OpBytes(types: map<nat, Type>, op: Op): nat {
    OpTraffic(types, op) + 2 * SumBytes(op.eliminated)
  }

  // The bytes of the live ops, or of the dead ones, op by op.
  function Shares(types: map<nat, Type>, f: Func, live: bool): (s: seq<nat>)
    ensures |s| == |f.body|
  {
    seq(|f.body|, i requires 0 <= i < |f.body| => if Live(f, i) == live then OpBytes(types, f.body[i]) else 0)
  }

  function LiveBytes(types: map<nat, Type>, f: Func): nat {
    Sum(Shares(types, f, true))
  }

  // What the driver will delete: ops that no value of the return depends on.
  function DeadBytes(types: map<nat, Type>, f: Func): nat {
    Sum(Shares(types, f, false))
  }

  // Traffic plus twice what has been eliminated, over all ops.
  function Potential(types: map<nat, Type>, body: seq<Op>): nat {
    TotalTraffic(types, body) + 2 * TotalEliminated(body)
  }

  function EachBytes(types: map<nat, Type>, body: seq<Op>): seq<nat> {
    seq(|body|, i requires 0 <= i < |body| => OpBytes(types, body[i]))
  }

  lemma {:induction false} PotentialIsSum(types: map<nat, Type>, body: seq<Op>)
    ensures Sum(EachBytes(types, body)) == Potential(types, body)
    decreases |body|
  {
    if body != [] {
      var n := |body| - 1;
      PotentialIsSum(types, body[..n]);
      TotalsSplit(types, body, n);
      assert body[n + 1..] == [];
      assert EachBytes(types, body)[..n] == EachBytes(types, body[..n]);
    }
  }

  lemma LiveAndDead(types: map<nat, Type>, f: Func)
    ensures LiveBytes(types, f) + DeadBytes(types, f) == Potential(types, f.body)
  {
    SumAdd(Shares(types, f, true), Shares(types, f, false), EachBytes(types, f.body));
    PotentialIsSum(types, f.body);
  }

  lemma NothingDead(types: map<nat, Type>, f: Func)
    requires WellFormed(f) && NoDeadOps(f)
    ensures DeadBytes(types, f) == 0
  {
    forall i | 0 <= i < |f.body|
      ensures Shares(types, f, false)[i] == 0
    {
      AllLive(f, i);
    }
    SumOfZeros(Shares(types, f, false));
  }

  lemma ErasedShare(types: map<nat, Type>, f: Func, j: nat, n: nat, live: bool)
    requires Unused(f, j) && n < |f.body| - 1
    ensures |Erased(f, j).body| == |f.body| - 1 && Shares(types, Erased(f, j), live)[n] == Shares(types, f, live)[Before(j, n)]
  {
    hide Live, OpBytes, Uses;
    ErasedLive(f, j, n);
    assert Erased(f, j).body[n] == f.body[Before(j, n)];
  }

  lemma UnusedShare(types: map<nat, Type>, f: Func, j: nat, live: bool)
    requires Unused(f, j)
    ensures Shares(types, f, live)[j] == if live then 0 else OpBytes(types, f.body[j])
  {
    hide Live, OpBytes, Uses;
    UnusedIsDead(f, j);
  }

  // Deleting a dead op takes its own share away.
  lemma ErasedShares(types: map<nat, Type>, f: Func, j: nat, live: bool)
    requires Unused(f, j)
    ensures Sum(Shares(types, Erased(f, j), live)) == Sum(Shares(types, f, live)) - (if live then 0 else OpBytes(types, f.body[j]))
  {
    hide Shares, OpBytes, Uses;
    var g, s := Erased(f, j), Shares(types, f, live);
    UnusedShare(types, f, j, live);
    forall n | 0 <= n < |g.body|
      ensures Shares(types, g, live)[n] == s[Before(j, n)]
    {
      ErasedShare(types, f, j, n, live);
    }
    assert Shares(types, g, live) == s[..j] + s[j + 1..];
    SumRemove(s, j);
  }

  // A replacement changes the shares of the op and of what it absorbs.
  lemma ReplacedShares(types: map<nat, Type>, f: Func, i: nat, op: Op, absorbed: set<nat>, live: bool)
    requires WellFormed(f) && Absorbs(f, i, op, absorbed)
    ensures var s, t := Shares(types, f, live), Shares(types, Replaced(f, i, op), live);
      && (forall m: nat | m < |s| && m != i && m !in absorbed :: t[m] == s[m])
      && s[i] == (if Live(f, i) == live then OpBytes(types, f.body[i]) else 0)
      && t[i] == (if Live(f, i) == live then OpBytes(types, op) else 0)
      && (forall d | d in absorbed :: s[d] == (if Live(f, i) == live then OpBytes(types, f.body[d]) else 0))
      && (forall d | d in absorbed :: t[d] == (if live then 0 else OpBytes(types, f.body[d])))
  {
    hide WellFormed, Live, OpBytes;
    forall m: nat | m < |f.body| && m !in absorbed
      ensures Live(Replaced(f, i, op), m) <==> Live(f, m)
    {
      ReplacedLive(f, i, op, absorbed, m);
    }
  }

  lemma SumsOfFew(a: Type, b: Type, c: Type)
    ensures SumBytes([a]) == a.Bytes()
    ensures SumBytes([a, b]) == a.Bytes() + b.Bytes()
    ensures SumBytes([a, b, c]) == a.Bytes() + b.Bytes() + c.Bytes()
  {
    SumCons(a, []);
    SumCons(b, []);
    SumCons(c, []);
    SumCons(a, [b]);
    SumCons(b, [c]);
    SumCons(a, [b, c]);
    assert [a] + [] == [a] && [b] + [] == [b] && [c] + [] == [c];
    assert [a] + [b] == [a, b] && [b] + [c] == [b, c] && [a] + [b, c] == [a, b, c];
  }

  lemma SumCons(a: Type, rest: seq<Type>)
    ensures SumBytes([a] + rest) == a.Bytes() + SumBytes(rest)
  {
    assert ([a] + rest)[1..] == rest;
  }

  // The shared-type reading of a one- or two-operand op.
  lemma SharedTraffic(types: map<nat, Type>, op: Op)
    requires OpTyped(types, op) && op.kind.ShapePreserving() && 1 <= |op.operands| <= 2
    ensures OpTraffic(types, op) == (|op.operands| + 1) * op.ty.Bytes()
  {
    var ty := TypeIn(types, op.operands[0]);
    assert SplitTypeSig(PrintedSig(types, op), |op.operands|).0 == if |op.operands| == 1 then [ty] else [ty, ty];
    SumsOfFew(ty, ty, ty);
  }

  lemma ArrowTraffic(types: map<nat, Type>, op: Op)
    requires !op.kind.ShapePreserving() && 2 <= |op.operands| <= 3
    ensures OpTraffic(types, op) == TypeIn(types, op.operands[0]).Bytes() + TypeIn(types, op.operands[1]).Bytes()
      + (if |op.operands| == 3 then TypeIn(types, op.operands[2]).Bytes() else 0) + op.ty.Bytes()
  {
    var a, b := TypeIn(types, op.operands[0]), TypeIn(types, op.operands[1]);
    var c := if |op.operands| == 3 then TypeIn(types, op.operands[2]) else b;
    SumsOfFew(a, b, c);
    SumsOfFew(op.ty, a, b);
    assert OperandTypes(types, op) == if |op.operands| == 2 then [a, b] else [a, b, c];
    hide SumBytes, Type.Bytes;
  }

  // A fusion saves one write and one read of the intermediate.
  lemma PairSaves(types: map<nat, Type>, rule: Rule, root: Op, producer: Op)
    requires rule.Root(root.kind) && rule.Producer(producer.kind) && RightArity(root) && RightArity(producer)
    requires OpTyped(types, root) && OpTyped(types, producer) && root.operands[0] == producer.result
    ensures OpTraffic(types, root) + OpTraffic(types, producer) ==
      OpTraffic(types, FusedOp(rule, root, producer)) + 2 * producer.ty.Bytes()
  {
    var op := FusedOp(rule, root, producer);
    SharedTraffic(types, producer);
    ArrowTraffic(types, op);
    if rule.RmsNormMatMul? {
      ArrowTraffic(types, root);
    } else {
      SharedTraffic(types, root);
    }
    hide OpTraffic, Type.Bytes;
  }

  lemma PairTyped(types: map<nat, Type>, f: Func, rule: Rule, i: nat)
    requires WellFormed(f) && Matches(f, rule, i) && TypedBy(types, f)
    ensures TypedBy(types, Fuse(f, rule, i))
  {
    var d, root, g := ProducerOf(f, i), f.body[i], Fuse(f, rule, i);
    ProducerFirst(f, i);
    assert OpTyped(types, root);
    assert OpTyped(types, FusedOp(rule, root, f.body[d]));
    forall n | 0 <= n < |g.body|
      ensures OpTyped(types, g.body[n])
    {
      assert OpTyped(types, f.body[Before(d, n)]);
    }
  }

  // Everything the accounting needs to know of a matching pair.
  lemma PairOps(types: map<nat, Type>, f: Func, rule: Rule, i: nat) returns (d: nat)
    requires WellFormed(f) && Matches(f, rule, i) && TypedBy(types, f)
    ensures d < i < |f.body| && rule.Root(f.body[i].kind) && rule.Producer(f.body[d].kind)
    ensures RightArity(f.body[i]) && RightArity(f.body[d])
    ensures OpTyped(types, f.body[i]) && OpTyped(types, f.body[d])
    ensures |f.body[i].operands| > 0 && f.body[i].operands[0] == f.body[d].result
    ensures var op := FusedOp(rule, f.body[i], f.body[d]);
      && Absorbs(f, i, op, {d}) && Unused(Replaced(f, i, op), d) && Fuse(f, rule, i) == Erased(Replaced(f, i, op), d)
  {
    d := ProducerOf(f, i);
    PairAbsorbs(f, rule, i);
    NoUsesLeft(f, rule, i);
    hide Absorbs, Uses, Live;
    ProducerFirst(f, i);
    assert OpWellFormed(f, i) && OpWellFormed(f, d);
  }

  // A fused op accounts for the consumer and the producer.
  lemma PairBytes(types: map<nat, Type>, rule: Rule, root: Op, producer: Op)
    requires rule.Root(root.kind) && rule.Producer(producer.kind) && RightArity(root) && RightArity(producer)
    requires OpTyped(types, root) && OpTyped(types, producer) && root.operands[0] == producer.result
    ensures OpBytes(types, root) + OpBytes(types, producer) == OpBytes(types, FusedOp(rule, root, producer))
  {
    SumsOfFew(producer.ty, producer.ty, producer.ty);
    PairSaves(types, rule, root, producer);
    Untagged(types, root);
    Untagged(types, producer);
    NoBytes();
    hide OpTraffic, SumBytes, OpTyped, RightArity;
  }

  lemma PairConserves(types: map<nat, Type>, f: Func, rule: Rule, i: nat, live: bool)
    requires WellFormed(f) && Matches(f, rule, i) && TypedBy(types, f)
    ensures Sum(Shares(types, Fuse(f, rule, i), live)) == Sum(Shares(types, f, live))
  {
    hide WellFormed, OpTyped, TypedBy, Matches, Fuse, Erased, Unused, OpBytes, RightArity, Live, Shares, Absorbs;
    var d := PairOps(types, f, rule, i);
    var op := FusedOp(rule, f.body[i], f.body[d]);
    PairBytes(types, rule, f.body[i], f.body[d]);
    ReplacedShares(types, f, i, op, {d}, live);
    var s, t := Shares(types, f, live), Shares(types, Replaced(f, i, op), live);
    assert t == s[i := t[i]][d := t[d]];
    SumUpdate(s, i, t[i]);
    SumUpdate(s[i := t[i]], d, t[d]);
    ErasedShares(types, Replaced(f, i, op), d, live);
  }

  lemma NoBytes()
    ensures SumBytes([]) == 0
  {
  }

  lemma Untagged(types: map<nat, Type>, op: Op)
    requires OpTyped(types, op) && !op.kind.Fused()
    ensures op.eliminated == []
  {
  }

  lemma ChainSaves(types: map<nat, Type>, gelu: Op, bias: Op, matmul: Op)
    requires gelu.kind.Gelu? && bias.kind.Bias? && matmul.kind.MatMul?
    requires RightArity(gelu) && RightArity(bias) && RightArity(matmul)
    requires OpTyped(types, gelu) && OpTyped(types, bias) && OpTyped(types, matmul)
    requires gelu.operands[0] == bias.result && bias.operands[0] == matmul.result
    ensures OpTraffic(types, gelu) + OpTraffic(types, bias) + OpTraffic(types, matmul) ==
      OpTraffic(types, FusedGelu(gelu, bias, matmul)) + 2 * (matmul.ty.Bytes() + bias.ty.Bytes())
  {
    SharedTraffic(types, gelu);
    ArrowTraffic(types, bias);
    ArrowTraffic(types, matmul);
    ArrowTraffic(types, FusedGelu(gelu, bias, matmul));
    hide OpTraffic, Type.Bytes;
  }

  lemma GeluTyped(types: map<nat, Type>, gelu: Op, bias: Op, matmul: Op)
    requires gelu.kind.Gelu? && bias.kind.Bias? && matmul.kind.MatMul? && |gelu.operands| > 0 && |bias.operands| > 0
    requires OpTyped(types, gelu)
    ensures OpTyped(types, FusedGelu(gelu, bias, matmul))
  {
  }

  lemma ChainTyped(types: map<nat, Type>, f: Func, i: nat)
    requires WellFormed(f) && MatchesGelu(f, i) && TypedBy(types, f)
    ensures TypedBy(types, FuseGelu(f, i))
  {
    hide OpTyped, WellFormed, RightArity;
    var j, k := ChainOps(types, f, i);
    var op := FusedGelu(f.body[i], f.body[j], f.body[k]);
    GeluTyped(types, f.body[i], f.body[j], f.body[k]);
    ErasedTyped(types, Replaced(f, i, op), j);
    ErasedTyped(types, Erased(Replaced(f, i, op), j), k);
  }

  lemma ErasedTyped(types: map<nat, Type>, f: Func, j: nat)
    requires j < |f.body| && TypedBy(types, f)
    ensures TypedBy(types, Erased(f, j))
  {
    hide OpTyped;
    var g := Erased(f, j);
    forall n | 0 <= n < |g.body|
      ensures OpTyped(types, g.body[n])
    {
      assert g.body[n] == f.body[Before(j, n)];
    }
  }

  // Everything the accounting needs to know of a matching chain.
  lemma ChainOps(types: map<nat, Type>, f: Func, i: nat) returns (j: nat, k: nat)
    requires WellFormed(f) && MatchesGelu(f, i) && TypedBy(types, f)
    ensures k < j < i < |f.body|
    ensures f.body[i].kind.Gelu? && f.body[j].kind.Bias? && f.body[k].kind.MatMul?
    ensures RightArity(f.body[i]) && RightArity(f.body[j]) && RightArity(f.body[k])
    ensures OpTyped(types, f.body[i]) && OpTyped(types, f.body[j]) && OpTyped(types, f.body[k])
    ensures |f.body[i].operands| > 0 && f.body[i].operands[0] == f.body[j].result
    ensures |f.body[j].operands| > 0 && f.body[j].operands[0] == f.body[k].result
    ensures var op := FusedGelu(f.body[i], f.body[j], f.body[k]);
      var g := Replaced(f, i, op);
      && Absorbs(f, i, op, {j, k}) && Unused(g, j) && Unused(Erased(g, j), k) && FuseGelu(f, i) == Erased(Erased(g, j), k)
      && Erased(g, j).body[k] == f.body[k] && g.body[j] == f.body[j]
  {
    ChainFacts(f, i);
    j := ProducerOf(f, i);
    k := ProducerOf(f, j);
    ChainAbsorbs(f, i);
    ChainUses(f, i, j, k, 0);
    hide Absorbs, Uses, Live;
    assert OpWellFormed(f, i) && OpWellFormed(f, j) && OpWellFormed(f, k);
  }

  lemma ChainBytes(types: map<nat, Type>, gelu: Op, bias: Op, matmul: Op)
    requires gelu.kind.Gelu? && bias.kind.Bias? && matmul.kind.MatMul?
    requires RightArity(gelu) && RightArity(bias) && RightArity(matmul)
    requires OpTyped(types, gelu) && OpTyped(types, bias) && OpTyped(types, matmul)
    requires gelu.operands[0] == bias.result && bias.operands[0] == matmul.result
    ensures OpBytes(types, gelu) + OpBytes(types, bias) + OpBytes(types, matmul) == OpBytes(types, FusedGelu(gelu, bias, matmul))
  {
    SumsOfFew(matmul.ty, bias.ty, bias.ty);
    ChainSaves(types, gelu, bias, matmul);
    Untagged(types, gelu);
    Untagged(types, bias);
    Untagged(types, matmul);
    NoBytes();
    hide OpTraffic, SumBytes, OpTyped, RightArity;
  }

  lemma ChainConserves(types: map<nat, Type>, f: Func, i: nat, live: bool)
    requires WellFormed(f) && MatchesGelu(f, i) && TypedBy(types, f)
    ensures Sum(Shares(types, FuseGelu(f, i), live)) == Sum(Shares(types, f, live))
  {
    hide WellFormed, OpTyped, TypedBy, MatchesGelu, FuseGelu, Erased, Unused, OpBytes, RightArity, Live, Shares, Absorbs;
    var j, k := ChainOps(types, f, i);
    var op := FusedGelu(f.body[i], f.body[j], f.body[k]);
    var g := Replaced(f, i, op);
    ChainBytes(types, f.body[i], f.body[j], f.body[k]);
    ReplacedShares(types, f, i, op, {j, k}, live);
    var s, t := Shares(types, f, live), Shares(types, g, live);
    assert t == s[i := t[i]][j := t[j]][k := t[k]];
    SumUpdate(s, i, t[i]);
    SumUpdate(s[i := t[i]], j, t[j]);
    SumUpdate(s[i := t[i]][j := t[j]], k, t[k]);
    ErasedShares(types, g, j, live);
    ErasedShares(types, Erased(g, j), k, live);
  }

  // The bytes of the ops that a run deletes as dead, when it deletes them.
  ghost function Deleted(types: map<nat, Type>, f: Func, steps: seq<Step>): nat
    requires WellFormed(f)
    decreases |steps|
  {
    if steps == [] || !Enabled(f, steps[0]) then 0
    else DeletedBy(types, f, steps[0]) + Deleted(types, Apply(f, steps[0]), steps[1..])
  }

  ghost function DeletedBy(types: map<nat, Type>, f: Func, s: Step): nat
    requires Enabled(f, s)
  {
    if s.Dead? then OpBytes(types, f.body[s.i]) else 0
  }

  /** Over any sequence of fusions and deletions, in any order, the live ops' traffic plus twice their recorded eliminated bytes never
      changes: tags are never lost. The dead ops' shrinks by exactly what is deleted. */
  lemma {:induction false} TrafficConserved(types: map<nat, Type>, f: Func, steps: seq<Step>, g: Func)
    requires WellFormed(f) && TypedBy(types, f) && Runs(f, steps, g)
    ensures LiveBytes(types, g) == LiveBytes(types, f) && TypedBy(types, g)
    ensures DeadBytes(types, g) + Deleted(types, f, steps) == DeadBytes(types, f)
    decreases |steps|
  {
    hide WellFormed, Enabled, TypedBy, LiveBytes, DeadBytes, DeletedBy;
    if steps != [] {
      StepConserves(types, f, steps[0]);
      TrafficConserved(types, Apply(f, steps[0]), steps[1..], g);
    }
  }

  lemma StepConserves(types: map<nat, Type>, f: Func, s: Step)
    requires WellFormed(f) && TypedBy(types, f) && Enabled(f, s)
    ensures LiveBytes(types, Apply(f, s)) == LiveBytes(types, f) && TypedBy(types, Apply(f, s))
    ensures DeadBytes(types, Apply(f, s)) + DeletedBy(types, f, s) == DeadBytes(types, f)
  {
    hide WellFormed, TypedBy, Shares;
    match s
    case Pair(rule, i) =>
      PairConserves(types, f, rule, i, true);
      PairConserves(types, f, rule, i, false);
      PairTyped(types, f, rule, i);
    case Chain(i) =>
      ChainConserves(types, f, i, true);
      ChainConserves(types, f, i, false);
      ChainTyped(types, f, i);
    case Dead(i) =>
      ErasedShares(types, f, i, true);
      ErasedShares(types, f, i, false);
      ErasedTyped(types, f, i);
  }

  // ----- The report -----

  // Every value's type as written in the function; each op record reads only these.
  function Types(f: Func): map<nat, Type> {
    TypesOf(f.args, f.body)
  }

  ghost predicate WellTyped(f: Func) {
    TypedBy(Types(f), f)
  }

  lemma {:induction false} TypesAgree(types: map<nat, Type>, f: Func, n: nat)
    requires n <= |f.body| && TypedBy(types, f)
    ensures forall v | v in TypesOf(f.args, f.body[..n]) :: TypesOf(f.args, f.body[..n])[v] == TypeIn(types, v)
    ensures forall v | Defined(f, n, v) :: v in TypesOf(f.args, f.body[..n])
  {
    if n > 0 {
      var m := n - 1;
      TypesAgree(types, f, m);
      assert f.body[..n][..m] == f.body[..m] && OpTyped(types, f.body[m]);
      forall v | Defined(f, n, v)
        ensures v in TypesOf(f.args, f.body[..n])
      {
        if v != f.body[m].result {
          assert Defined(f, m, v);
        }
      }
    }
  }

  lemma {:induction false} SameTraffic(t: map<nat, Type>, u: map<nat, Type>, body: seq<Op>)
    requires forall i, k | 0 <= i < |body| && 0 <= k < |body[i].operands| :: TypeIn(t, body[i].operands[k]) == TypeIn(u, body[i].operands[k])
    ensures TotalTraffic(t, body) == TotalTraffic(u, body)
  {
    if body != [] {
      var op := body[0];
      assert OperandTypes(t, op) == OperandTypes(u, op);
      assert RecordOf(t, op) == RecordOf(u, op);
      SameTraffic(t, u, body[1..]);
    }
  }

  // A function's own types account for it like any table that types it.
  lemma OwnTypes(types: map<nat, Type>, f: Func)
    requires WellFormed(f) && TypedBy(types, f)
    ensures TotalTraffic(Types(f), f.body) == TotalTraffic(types, f.body)
  {
    TypesAgree(types, f, |f.body|);
    assert f.body[..|f.body|] == f.body;
    forall i, k | 0 <= i < |f.body| && 0 <= k < |f.body[i].operands|
      ensures TypeIn(Types(f), f.body[i].operands[k]) == TypeIn(types, f.body[i].operands[k])
    {
      assert OpWellFormed(f, i) && Defined(f, i, f.body[i].operands[k]);
      assert Defined(f, |f.body|, f.body[i].operands[k]);
    }
    SameTraffic(Types(f), types, f.body);
  }

  function Bytes(f: Func): nat {
    TotalTraffic(Types(f), f.body)
  }

  /** Once nothing dead is left, the report's two views of the saving agree exactly when the dead ops the function started with, their
      traffic and twice their tags, make up for twice the bytes it had recorded as eliminated before. */
  lemma ReportAgreesIff(f: Func, steps: seq<Step>, g: Func)
    requires WellFormed(f) && WellTyped(f) && Runs(f, steps, g) && NoDeadOps(g)
    ensures Bytes(f) - Bytes(g) == 2 * TotalEliminated(g.body) <==> DeadBytes(Types(f), f) == 2 * TotalEliminated(f.body)
    ensures Bytes(f) - Bytes(g) == DeadBytes(Types(f), f) + 2 * (TotalEliminated(g.body) - TotalEliminated(f.body))
  {
    hide WellFormed, TypedBy, NoDeadOps;
    TrafficConserved(Types(f), f, steps, g);
    RunWellFormed(f, steps, g);
    OwnTypes(Types(f), g);
    LiveAndDead(Types(f), f);
    LiveAndDead(Types(f), g);
    NothingDead(Types(f), g);
  }

  // One argument, an unused gelu of it, the argument returned.
  function UnusedGelu(ty: Type): Func {
    Func(map[0 := ty], [Op(1, Gelu, [0], ty, [])], [0])
  }

  lemma UnusedGeluTypes(ty: Type)
    ensures var types := Types(UnusedGelu(ty)); types == map[0 := ty, 1 := ty] && WellTyped(UnusedGelu(ty))
  {
    var f := UnusedGelu(ty);
    assert f.body[..0] == [];
    assert TypesOf(f.args, []) == f.args;
    assert Types(f) == TypesOf(f.args, [])[1 := ty];
    assert OpTyped(Types(f), f.body[0]);
  }

  lemma UnusedGeluDead(ty: Type)
    ensures DeadBytes(Types(UnusedGelu(ty)), UnusedGelu(ty)) == 2 * ty.Bytes() && TotalEliminated(UnusedGelu(ty).body) == 0
  {
    var f := UnusedGelu(ty);
    var types := Types(f);
    UnusedGeluTypes(ty);
    SharedTraffic(types, f.body[0]);
    NoBytes();
    assert OpBytes(types, f.body[0]) == 2 * ty.Bytes();
    assert !Live(f, 0);
    hide Types, TypesOf, OpBytes, Live, Type.Bytes;
    assert Shares(types, f, false) == [OpBytes(types, f.body[0])];
    SumUpdate([0], 0, OpBytes(types, f.body[0]));
  }

  /** Nothing recorded, and yet no run on it gives agreeing views. */
  lemma UnusedGeluDisagrees(ty: Type, steps: seq<Step>, g: Func)
    requires ty.Bytes() > 0
    requires WellFormed(UnusedGelu(ty)) && Runs(UnusedGelu(ty), steps, g) && NoDeadOps(g)
    ensures TotalEliminated(UnusedGelu(ty).body) == 0
    ensures Bytes(UnusedGelu(ty)) - Bytes(g) != 2 * TotalEliminated(g.body)
  {
    hide *;
    UnusedGeluTypes(ty);
    UnusedGeluDead(ty);
    ReportAgreesIff(UnusedGelu(ty), steps, g);
  }

  datatype FusionRecord = FusionRecord(result: nat, kind: Kind, eliminated: seq<Type>, savedBytes: nat)

  datatype Report = Report(before: nat, after: nat, reduction: int, fusions: seq<FusionRecord>, eliminatedTotal: nat, consistent: bool)

  function SumSaved(fusions: seq<FusionRecord>): nat {
    if fusions == [] then 0 else SumSaved(fusions[..|fusions| - 1]) + fusions[|fusions| - 1].savedBytes
  }

  function SumTraffic(records: seq<OpRecord>): nat {
    if records == [] then 0 else SumTraffic(records[..|records| - 1]) + records[|records| - 1].Traffic()
  }

  method TotalOf(records: seq<OpRecord>) returns (n: nat)
    ensures n == SumTraffic(records)
  {
    n := 0;
    for i := 0 to |records|
      invariant n == SumTraffic(records[..i])
    {
      assert records[..i + 1][..i] == records[..i];
      n := n + records[i].readBytes + records[i].writeBytes;
    }
    assert records[..|records|] == records;
  }

  // One record per fused op, saving twice the bytes of what it eliminated.
  method ListFusions(records: seq<OpRecord>) returns (fusions: seq<FusionRecord>, total: nat)
    requires forall i | 0 <= i < |records| :: records[i].eliminated != [] ==> records[i].kind.Fused()
    ensures total == SumSaved(fusions) == 2 * SumEliminated(records)
    ensures forall r | r in records && r.kind.Fused() :: FusionRecord(r.result, r.kind, r.eliminated, 2 * SumBytes(r.eliminated)) in fusions
  {
    fusions, total := [], 0;
    for i := 0 to |records|
      invariant total == SumSaved(fusions) == 2 * SumEliminated(records[..i])
      invariant forall r | r in records[..i] && r.kind.Fused() ::
        FusionRecord(r.result, r.kind, r.eliminated, 2 * SumBytes(r.eliminated)) in fusions
    {
      assert records[..i + 1][..i] == records[..i];
      if records[i].kind.Fused() {
        var bytes := SumTensorBytes(records[i].eliminated);
        ghost var before := fusions;
        fusions := fusions + [FusionRecord(records[i].result, records[i].kind, records[i].eliminated, 2 * bytes)];
        assert fusions[..|fusions| - 1] == before;
        total := total + 2 * bytes;
      }
    }
    assert records[..|records|] == records;
  }

  function SumEliminated(records: seq<OpRecord>): nat {
    if records == [] then 0 else SumEliminated(records[..|records| - 1]) + SumBytes(records[|records| - 1].eliminated)
  }

  lemma {:induction false} RecordTotals(types: map<nat, Type>, body: seq<Op>, records: seq<OpRecord>)
    requires |records| == |body| && forall i | 0 <= i < |body| :: records[i] == RecordOf(types, body[i])
    ensures SumTraffic(records) == TotalTraffic(types, body) && SumEliminated(records) == TotalEliminated(body)
    decreases |body|
  {
    if body != [] {
      var n := |body| - 1;
      RecordTotals(types, body[..n], records[..n]);
      TotalsSplit(types, body, n);
      assert body[n + 1..] == [];
    }
  }

  lemma {:induction false} RunsConcat(f: Func, first: seq<Step>, g: Func, second: seq<Step>, h: Func)
    requires WellFormed(f) && Runs(f, first, g) && WellFormed(g) && Runs(g, second, h)
    ensures Runs(f, first + second, h)
    decreases |first|
  {
    hide WellFormed, Enabled, Apply;
    if first == [] {
      assert first + second == second;
    } else {
      assert (first + second)[0] == first[0] && (first + second)[1..] == first[1..] + second;
      RunsConcat(Apply(f, first[0]), first[1..], g, second, h);
    }
  }

  // The fusion passes in the order the report runs them.
  const FUSION_PASSES: seq<Pass> := [PairPass(RmsNormMatMul), ChainPass, PairPass(ResidualRmsNorm), PairPass(SoftmaxMask)]

  // None of the four passes has anything left to do.
  ghost predicate AllFused(f: Func) {
    && NothingLeft(f, PairPass(RmsNormMatMul)) && NothingLeft(f, ChainPass)
    && NothingLeft(f, PairPass(ResidualRmsNorm)) && NothingLeft(f, PairPass(SoftmaxMask))
  }

  method RunPasses(f: Func) returns (g: Func, ghost steps: seq<Step>)
    requires WellFormed(f)
    ensures WellFormed(g) && Runs(f, steps, g) && NoDeadOps(g) && AllFused(g)
  {
    hide WellFormed, Enabled, Apply, Runs, NoDeadOps, NothingLeft;
    var rewriter := new Rewriter(f);
    steps := [];
    RunsNothing(f);
    for p := 0 to |FUSION_PASSES|
      invariant WellFormed(rewriter.func) && Runs(f, steps, rewriter.func) && fresh(rewriter)
      invariant p > 0 ==> NoDeadOps(rewriter.func)
      invariant forall q | 0 <= q < p :: NothingLeft(rewriter.func, FUSION_PASSES[q])
    {
      ghost var before := rewriter.func;
      ghost var more := rewriter.RunPass(FUSION_PASSES[p]);
      RunsConcat(f, steps, before, more, rewriter.func);
      steps := steps + more;
      forall q | 0 <= q < p
        ensures NothingLeft(rewriter.func, FUSION_PASSES[q])
      {
        RunLeavesNothing(before, more, rewriter.func, FUSION_PASSES[q]);
      }
    }
    g := rewriter.func;
    assert FUSION_PASSES[0] == PairPass(RmsNormMatMul) && FUSION_PASSES[1] == ChainPass;
    assert FUSION_PASSES[2] == PairPass(ResidualRmsNorm) && FUSION_PASSES[3] == PairPass(SoftmaxMask);
  }

  /** The before/after report: it calls itself consistent exactly when its input's dead ops make up for what it had recorded as
      eliminated, and its reduction is the dead ops' bytes and twice those of the intermediates the passes removed. */
  method BuildReport(f: Func) returns (r: Report, g: Func, ghost steps: seq<Step>)
    requires WellFormed(f) && WellTyped(f)
    ensures WellFormed(g) && Runs(f, steps, g) && NoDeadOps(g) && AllFused(g)
    ensures r.before == Bytes(f) && r.after == Bytes(g) && r.reduction == r.before - r.after
    ensures r.eliminatedTotal == SumSaved(r.fusions) == 2 * TotalEliminated(g.body)
    ensures r.consistent <==> DeadBytes(Types(f), f) == 2 * TotalEliminated(f.body)
    ensures r.reduction == DeadBytes(Types(f), f) + 2 * (TotalEliminated(g.body) - TotalEliminated(f.body))
  {
    hide WellFormed, Runs, NoDeadOps, AllFused;
    g, steps := RunPasses(f);
    var unfused := ParseOps(f);
    var fused := ParseOps(g);
    var before := TotalOf(unfused);
    var after := TotalOf(fused);
    TagsOnlyOnFused(f, steps, g);
    assert forall i | 0 <= i < |fused| :: fused[i].eliminated == g.body[i].eliminated && fused[i].kind == g.body[i].kind;
    var fusions, total := ListFusions(fused);
    RecordTotals(Types(f), f.body, unfused);
    RecordTotals(Types(g), g.body, fused);
    ReportAgreesIff(f, steps, g);
    var reduction: int := before as int - after as int;
    r := Report(before, after, reduction, fusions, total, reduction == total);
  }

  lemma TagsOnlyOnFused(f: Func, steps: seq<Step>, g: Func)
    requires WellFormed(f) && WellTyped(f) && Runs(f, steps, g)
    ensures forall i | 0 <= i < |g.body| :: g.body[i].eliminated != [] ==> g.body[i].kind.Fused()
  {
    TrafficConserved(Types(f), f, steps, g);
    assert forall i | 0 <= i < |g.body| :: OpTyped(Types(f), g.body[i]);
  }
}
