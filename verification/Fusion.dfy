/** The four producer/consumer fusions, their meaning, and what any sequence of them keeps. */
module Fusions {
  import opened Wavelets
  import opened SsaFunctions

  // ----- Matching -----

  // The op defining v, if v is not an argument.
  function FindDef(body: seq<Op>, v: nat): (d: Option<nat>)
    ensures d.Some? ==> d.value < |body| && Produces(body[d.value], v)
    ensures d.None? ==> forall i | 0 <= i < |body| :: !Produces(body[i], v)
  {
    if body == [] then None
    else if Produces(body[|body| - 1], v) then Some(|body| - 1)
    else FindDef(body[..|body| - 1], v)
  }

  // The fusions that absorb one producer into its only consumer.
  datatype Rule = RmsNormMatMul | ResidualRmsNorm | SoftmaxMask
  {
    predicate Root(k: Kind) {
      match this
      case RmsNormMatMul => k.MatMul?
      case ResidualRmsNorm => k.RmsNorm?
      case SoftmaxMask => k.Softmax?
    }

    predicate Producer(k: Kind) {
      match this
      case RmsNormMatMul => k.RmsNorm?
      case ResidualRmsNorm => k.Add?
      case SoftmaxMask => k.Add?
    }

    // Epsilon is carried over from the rmsnorm; a softmax axis is dropped.
    function FusedKind(root: Kind, producer: Kind): Kind
      requires Root(root) && Producer(producer)
    {
      match this
      case RmsNormMatMul => FusedRmsNormMatMul(producer.epsilon)
      case ResidualRmsNorm => FusedResidualRmsNorm(root.epsilon)
      case SoftmaxMask => FusedSoftmaxMask
    }
  }

  // The consumer's first operand comes from a producer of the right kind that nothing else uses.
  predicate Matches(f: Func, rule: Rule, i: nat) {
    && i < |f.body| && rule.Root(f.body[i].kind) && |f.body[i].operands| > 0
    && var d := FindDef(f.body, f.body[i].operands[0]);
      d.Some? && rule.Producer(f.body[d.value].kind) && Uses(f, f.body[d.value].result) == 1
  }

  function ProducerOf(f: Func, i: nat): nat
    requires i < |f.body| && |f.body[i].operands| > 0 && FindDef(f.body, f.body[i].operands[0]).Some?
  {
    FindDef(f.body, f.body[i].operands[0]).value
  }

  function FusedOp(rule: Rule, root: Op, producer: Op): Op
    requires rule.Root(root.kind) && rule.Producer(producer.kind) && |root.operands| > 0
  {
    Op(root.result, rule.FusedKind(root.kind, producer.kind), producer.operands + root.operands[1..], root.ty, [producer.ty])
  }

  // Replace the consumer, then erase the producer.
  function Fuse(f: Func, rule: Rule, i: nat): Func
    requires Matches(f, rule, i)
  {
    var d := ProducerOf(f, i);
    var g := Replaced(f, i, FusedOp(rule, f.body[i], f.body[d]));
    Erased(g, d)
  }

  predicate MatchesGelu(f: Func, i: nat) {
    && i < |f.body| && f.body[i].kind.Gelu? && |f.body[i].operands| > 0
    && var j := FindDef(f.body, f.body[i].operands[0]);
      && j.Some? && f.body[j.value].kind.Bias? && |f.body[j.value].operands| > 0
      && var k := FindDef(f.body, f.body[j.value].operands[0]);
        && k.Some? && f.body[k.value].kind.MatMul?
        && Uses(f, f.body[k.value].result) == 1 && Uses(f, f.body[j.value].result) == 1
  }

  function FusedGelu(gelu: Op, bias: Op, matmul: Op): Op
    requires |bias.operands| > 0
  {
    Op(gelu.result, FusedMatMulBiasGelu, matmul.operands + bias.operands[1..], gelu.ty, [matmul.ty, bias.ty])
  }

  // Replace the gelu, then erase the bias, then the matmul.
  function FuseGelu(f: Func, i: nat): Func
    requires MatchesGelu(f, i) && WellFormed(f)
  {
    var j := ProducerOf(f, i);
    var k := ProducerOf(f, j);
    ProducerFirst(f, i);
    ProducerFirst(f, j);
    Erased(Erased(Replaced(f, i, FusedGelu(f.body[i], f.body[j], f.body[k])), j), k)
  }

  // A producer stands before its consumer, and its result is not its own operand.
  lemma ProducerFirst(f: Func, i: nat)
    requires WellFormed(f) && i < |f.body| && |f.body[i].operands| > 0 && FindDef(f.body, f.body[i].operands[0]).Some?
    ensures ProducerOf(f, i) < i && f.body[ProducerOf(f, i)].result == f.body[i].operands[0]
    ensures f.body[ProducerOf(f, i)].result !in f.body[ProducerOf(f, i)].operands
  {
    var d, v := ProducerOf(f, i), f.body[i].operands[0];
    assert OpWellFormed(f, i) && OpWellFormed(f, d);
    assert Defined(f, i, v);
    var j :| 0 <= j < i && Produces(f.body[j], v);
    assert j == d;
    forall k | 0 <= k < |f.body[d].operands|
      ensures f.body[d].operands[k] != v
    {
      assert Defined(f, d, f.body[d].operands[k]);
    }
  }

  // ----- One absorbed producer -----

  lemma {:induction false} CountConcat(p: seq<nat>, q: seq<nat>, v: nat)
    ensures Count(p + q, v) == Count(p, v) + Count(q, v)
    decreases |p|
  {
    if p == [] {
      assert p + q == q;
    } else {
      assert (p + q)[0] == p[0] && (p + q)[1..] == p[1..] + q;
      CountConcat(p[1..], q, v);
    }
  }

  lemma BodyUsesAtMost(f: Func, i: nat, v: nat)
    requires i < |f.body|
    ensures Count(f.body[i].operands, v) <= Uses(f, v)
  {
    BodyUsesSplit(f.body, i, v);
  }

  // The producer's value is the consumer's first operand and nothing else.
  lemma OnlyUse(f: Func, i: nat)
    requires WellFormed(f) && i < |f.body| && |f.body[i].operands| > 0 && FindDef(f.body, f.body[i].operands[0]).Some?
    requires Uses(f, f.body[i].operands[0]) == 1
    ensures var p, d := f.body[i].operands[0], ProducerOf(f, i);
      && p !in f.body[i].operands[1..] && Count(f.body[i].operands, p) == 1
      && Count(f.body[d].operands, p) == 0 && Count(f.body[d].operands + f.body[i].operands[1..], p) == 0
  {
    var p, d := f.body[i].operands[0], ProducerOf(f, i);
    ProducerFirst(f, i);
    BodyUsesAtMost(f, i, p);
    CountMember(f.body[i].operands[1..], p);
    CountMember(f.body[d].operands, p);
    CountConcat(f.body[d].operands, f.body[i].operands[1..], p);
  }

  // Operands of an earlier op, and the rest of this one's, are available here.
  lemma OperandsAvailable(f: Func, d: nat, i: nat)
    requires WellFormed(f) && d <= i < |f.body| && |f.body[i].operands| > 0
    ensures OperandsDefined(f, i, f.body[d].operands + f.body[i].operands[1..])
  {
    assert OpWellFormed(f, d) && OpWellFormed(f, i);
    var vs, ws := f.body[d].operands, f.body[i].operands;
    forall k | 0 <= k < |vs + ws[1..]|
      ensures Defined(f, i, (vs + ws[1..])[k])
    {
      if k < |vs| {
        assert Defined(f, d, vs[k]);
      } else {
        assert Defined(f, i, ws[k - |vs| + 1]);
      }
    }
  }

  /** One fusion keeps the function well-formed and removes exactly the producer; every other value keeps its use count. */
  lemma FuseWellFormed(f: Func, rule: Rule, i: nat)
    requires WellFormed(f) && Matches(f, rule, i)
    ensures WellFormed(Fuse(f, rule, i)) && |Fuse(f, rule, i).body| == |f.body| - 1
    ensures forall v: nat | v != f.body[ProducerOf(f, i)].result :: Uses(Fuse(f, rule, i), v) == Uses(f, v)
  {
    var d, root := ProducerOf(f, i), f.body[i];
    var op := FusedOp(rule, root, f.body[d]);
    var g := Replaced(f, i, op);
    ProducerFirst(f, i);
    OnlyUse(f, i);
    OperandsAvailable(f, d, i);
    assert OpWellFormed(f, i) && OpWellFormed(f, d);
    ReplaceWellFormed(f, i, op);
    ReplaceUses(f, i, op, f.body[d].result);
    EraseWellFormed(g, d);
    forall v: nat | v != f.body[d].result
      ensures Uses(Fuse(f, rule, i), v) == Uses(f, v)
    {
      ReplaceUses(f, i, op, v);
      EraseUses(g, d, v);
      CountConcat(f.body[d].operands, root.operands[1..], v);
    }
  }

  // ----- Meaning -----

  // Which intermediate types lose nothing a result of another type needs; say, those of equal element width.
  type Alike = (Type, Type) -> bool

  // A fused op denotes the composition it replaces, through any intermediate of a like type (softmax over the last axis).
  ghost predicate Lawful<V(!new)>(sem: Sem<V>, alike: Alike) {
    NormMatMulLaw(sem, alike) && ResidualLaw(sem, alike) && SoftmaxLaw(sem, alike) && GeluLaw(sem, alike)
  }

  ghost predicate NormMatMulLaw<V(!new)>(sem: Sem<V>, alike: Alike) {
    forall eps, ty, mid, x, w | alike(mid, ty) ::
      sem.interp(FusedRmsNormMatMul(eps), ty, [x, w]) == sem.interp(MatMul, ty, [sem.interp(RmsNorm(eps), mid, [x]), w])
  }

  ghost predicate ResidualLaw<V(!new)>(sem: Sem<V>, alike: Alike) {
    forall eps, ty, mid, r, x | alike(mid, ty) ::
      sem.interp(FusedResidualRmsNorm(eps), ty, [r, x]) == sem.interp(RmsNorm(eps), ty, [sem.interp(Add, mid, [r, x])])
  }

  ghost predicate SoftmaxLaw<V(!new)>(sem: Sem<V>, alike: Alike) {
    forall axis, ty, mid, x, m | LastAxis(axis, ty) && alike(mid, ty) ::
      sem.interp(FusedSoftmaxMask, ty, [x, m]) == sem.interp(Softmax(axis), ty, [sem.interp(Add, mid, [x, m])])
  }

  ghost predicate GeluLaw<V(!new)>(sem: Sem<V>, alike: Alike) {
    forall ty, mid, mid', a, b, c | alike(mid, ty) && alike(mid', ty) ::
      sem.interp(FusedMatMulBiasGelu, ty, [a, b, c]) ==
      sem.interp(Gelu, ty, [sem.interp(Bias, mid', [sem.interp(MatMul, mid, [a, b]), c])])
  }

  predicate LastAxis(axis: Option<int>, ty: Type) {
    axis.None? || axis.value == -1 || axis.value == |ty.dims| - 1
  }

  // The condition on a consumer and its producer under which the rewrite keeps the consumer's value.
  predicate Safe(alike: Alike, rule: Rule, root: Op, producer: Op) {
    alike(producer.ty, root.ty) && (rule.SoftmaxMask? && root.kind.Softmax? ==> LastAxis(root.kind.axis, root.ty))
  }

  predicate SafeChain(alike: Alike, gelu: Op, bias: Op, matmul: Op) {
    alike(matmul.ty, gelu.ty) && alike(bias.ty, gelu.ty)
  }

  lemma ComposedValue<V(!new)>(sem: Sem<V>, alike: Alike, rule: Rule, root: Op, producer: Op, env: map<nat, V>)
    requires Lawful(sem, alike) && rule.Root(root.kind) && rule.Producer(producer.kind) && Safe(alike, rule, root, producer)
    requires RightArity(root) && RightArity(producer) && root.operands[0] == producer.result
    requires Lookup(sem, env, producer.result) == Value(sem, env, producer)
    ensures Value(sem, env, FusedOp(rule, root, producer)) == Value(sem, env, root)
  {
    var p := Value(sem, env, producer);
    var ops := FusedOp(rule, root, producer).operands;
    match rule {
      case RmsNormMatMul =>
        var x, w := Lookup(sem, env, producer.operands[0]), Lookup(sem, env, root.operands[1]);
        assert Values(sem, env, producer.operands) == [x];
        assert Values(sem, env, root.operands) == [p, w];
        assert Values(sem, env, ops) == [x, w];
      case ResidualRmsNorm =>
        var x, y := Lookup(sem, env, producer.operands[0]), Lookup(sem, env, producer.operands[1]);
        assert Values(sem, env, producer.operands) == [x, y];
        assert Values(sem, env, root.operands) == [p];
        assert Values(sem, env, ops) == [x, y];
      case SoftmaxMask =>
        var x, y := Lookup(sem, env, producer.operands[0]), Lookup(sem, env, producer.operands[1]);
        assert Values(sem, env, producer.operands) == [x, y];
        assert Values(sem, env, root.operands) == [p];
        assert Values(sem, env, ops) == [x, y];
    }
  }

  // Replacing the consumer changes no value.
  lemma ReplacedAgrees<V(!new)>(sem: Sem<V>, alike: Alike, f: Func, inputs: map<nat, V>, rule: Rule, i: nat)
    requires Lawful(sem, alike) && WellFormed(f) && Matches(f, rule, i) && Safe(alike, rule, f.body[i], f.body[ProducerOf(f, i)])
    ensures var g := Replaced(f, i, FusedOp(rule, f.body[i], f.body[ProducerOf(f, i)]));
      Env(sem, g, inputs, |f.body|) == Env(sem, f, inputs, |f.body|)
  {
    var d, root := ProducerOf(f, i), f.body[i];
    var op, env := FusedOp(rule, root, f.body[d]), Env(sem, f, inputs, i);
    ProducerFirst(f, i);
    assert OpWellFormed(f, i) && OpWellFormed(f, d);
    ProducerValue(sem, f, inputs, d, i);
    hide Lawful, WellFormed, Uses, Safe;
    ComposedValue(sem, alike, rule, root, f.body[d], env);
    ReplaceEnv(sem, f, inputs, i, op, |f.body|);
  }

  /** One fusion returns the same values (through an intermediate of a like type; for softmax over the last axis). */
  lemma FuseSound<V(!new)>(sem: Sem<V>, alike: Alike, f: Func, inputs: map<nat, V>, rule: Rule, i: nat)
    requires Lawful(sem, alike) && WellFormed(f) && Matches(f, rule, i) && Safe(alike, rule, f.body[i], f.body[ProducerOf(f, i)])
    ensures Results(sem, Fuse(f, rule, i), inputs) == Results(sem, f, inputs)
  {
    var d := ProducerOf(f, i);
    ProducerFirst(f, i);
    ReplacedAgrees(sem, alike, f, inputs, rule, i);
    NoUsesLeft(f, rule, i);
    hide Lawful, WellFormed, Uses, Safe;
    EraseSound(sem, Replaced(f, i, FusedOp(rule, f.body[i], f.body[d])), inputs, d);
  }

  lemma NoUsesLeft(f: Func, rule: Rule, i: nat)
    requires WellFormed(f) && Matches(f, rule, i)
    ensures var d := ProducerOf(f, i); Uses(Replaced(f, i, FusedOp(rule, f.body[i], f.body[d])), f.body[d].result) == 0
  {
    var d := ProducerOf(f, i);
    ProducerFirst(f, i);
    OnlyUse(f, i);
    ReplaceUses(f, i, FusedOp(rule, f.body[i], f.body[d]), f.body[d].result);
  }

  // ----- The three-op chain -----

  // What the two absorbed producers of a matching gelu look like.
  lemma ChainFacts(f: Func, i: nat)
    requires WellFormed(f) && MatchesGelu(f, i)
    ensures var j := ProducerOf(f, i); j < i && |f.body[j].operands| > 0 && FindDef(f.body, f.body[j].operands[0]).Some?
    ensures var j := ProducerOf(f, i); var k := ProducerOf(f, j);
      && k < j && f.body[i].operands == [f.body[j].result] && f.body[j].operands[0] == f.body[k].result
      && RightArity(f.body[j]) && RightArity(f.body[k])
      && f.body[j].result != f.body[k].result
      && Count(f.body[j].operands, f.body[k].result) == 1
      && f.body[j].result !in f.body[k].operands && f.body[k].result !in f.body[k].operands
      && f.body[j].result !in f.body[j].operands && f.body[k].result !in f.body[j].operands[1..]
  {
    var j := ProducerOf(f, i);
    ProducerFirst(f, i);
    ProducerFirst(f, j);
    var k := ProducerOf(f, j);
    OnlyUse(f, i);
    OnlyUse(f, j);
    assert OpWellFormed(f, i) && OpWellFormed(f, j) && OpWellFormed(f, k);
    assert f.body[i].operands == [f.body[j].result];
    forall m | 0 <= m < |f.body[k].operands|
      ensures f.body[k].operands[m] != f.body[j].result
    {
      assert Defined(f, k, f.body[k].operands[m]);
    }
  }

  lemma ChainOperandsAvailable(f: Func, i: nat, j: nat, k: nat)
    requires WellFormed(f) && k < j < i < |f.body| && |f.body[j].operands| > 0
    ensures OperandsDefined(f, i, f.body[k].operands + f.body[j].operands[1..])
  {
    assert OpWellFormed(f, k) && OpWellFormed(f, j);
    var vs, ws := f.body[k].operands, f.body[j].operands;
    forall m | 0 <= m < |vs + ws[1..]|
      ensures Defined(f, i, (vs + ws[1..])[m])
    {
      if m < |vs| {
        assert Defined(f, k, vs[m]);
      } else {
        assert Defined(f, j, ws[m - |vs| + 1]);
      }
    }
  }

  // Use counts through the replacement and the two erasures.
  lemma ChainUses(f: Func, i: nat, j: nat, k: nat, v: nat)
    requires WellFormed(f) && MatchesGelu(f, i) && j == ProducerOf(f, i) && k < j && k == ProducerOf(f, j)
    ensures var g := Replaced(f, i, FusedGelu(f.body[i], f.body[j], f.body[k]));
      && Uses(g, f.body[j].result) == 0
      && Uses(Erased(g, j), f.body[k].result) == 0
      && (v != f.body[j].result && v != f.body[k].result ==> Uses(Erased(Erased(g, j), k), v) == Uses(f, v))
  {
    ChainFacts(f, i);
    var op := FusedGelu(f.body[i], f.body[j], f.body[k]);
    var g := Replaced(f, i, op);
    var bs, mm := f.body[j].result, f.body[k].result;
    ChainCounts(f.body[i].operands, f.body[j].operands, f.body[k].operands, bs, mm, v);
    ReplaceUses(f, i, op, bs);
    ReplaceUses(f, i, op, mm);
    ReplaceUses(f, i, op, v);
    EraseUses(g, j, mm);
    EraseUses(g, j, v);
    EraseUses(Erased(g, j), k, v);
    assert Erased(g, j).body[k] == f.body[k] && g.body[j] == f.body[j];
    hide WellFormed, Uses, Count, Replaced, Erased;
  }

  lemma ChainCounts(gelu: seq<nat>, bias: seq<nat>, matmul: seq<nat>, bs: nat, mm: nat, v: nat)
    requires gelu == [bs] && |bias| > 0 && bias[0] == mm && bs != mm
    requires bs !in matmul && mm !in matmul && bs !in bias && mm !in bias[1..]
    ensures Count(gelu, bs) == 1 && Count(gelu, mm) == 0 && Count(bias, mm) == 1
    ensures Count(matmul + bias[1..], bs) == 0 && Count(matmul + bias[1..], mm) == 0
    ensures v != bs && v != mm ==> Count(gelu, v) == 0 && Count(matmul + bias[1..], v) == Count(matmul, v) + Count(bias, v)
  {
    CountConcat(matmul, bias[1..], v);
    CountMember(matmul + bias[1..], bs);
    CountMember(matmul + bias[1..], mm);
    CountMember(bias[1..], mm);
    assert [bs][1..] == [];
    assert Count([], bs) == 0 && Count([], mm) == 0 && Count([], v) == 0;
  }

  /** The three-op fusion keeps the function well-formed and removes exactly its two producers. */
  lemma FuseGeluWellFormed(f: Func, i: nat)
    requires WellFormed(f) && MatchesGelu(f, i)
    ensures WellFormed(FuseGelu(f, i)) && |FuseGelu(f, i).body| == |f.body| - 2
    ensures forall v: nat | v != f.body[ProducerOf(f, i)].result && v != f.body[ProducerOf(f, ProducerOf(f, i))].result ::
              Uses(FuseGelu(f, i), v) == Uses(f, v)
  {
    ChainFacts(f, i);
    var j := ProducerOf(f, i);
    var k := ProducerOf(f, j);
    var op := FusedGelu(f.body[i], f.body[j], f.body[k]);
    var g := Replaced(f, i, op);
    ChainOperandsAvailable(f, i, j, k);
    ReplaceWellFormed(f, i, op);
    ChainUses(f, i, j, k, 0);
    EraseWellFormed(g, j);
    EraseWellFormed(Erased(g, j), k);
    forall v: nat | v != f.body[j].result && v != f.body[k].result
      ensures Uses(FuseGelu(f, i), v) == Uses(f, v)
    {
      ChainUses(f, i, j, k, v);
    }
  }

  lemma ComposedGelu<V(!new)>(sem: Sem<V>, alike: Alike, gelu: Op, bias: Op, matmul: Op, env: map<nat, V>)
    requires Lawful(sem, alike) && gelu.kind.Gelu? && bias.kind.Bias? && matmul.kind.MatMul? && SafeChain(alike, gelu, bias, matmul)
    requires RightArity(bias) && RightArity(matmul) && gelu.operands == [bias.result] && bias.operands[0] == matmul.result
    requires Lookup(sem, env, matmul.result) == Value(sem, env, matmul)
    requires Lookup(sem, env, bias.result) == Value(sem, env, bias)
    ensures Value(sem, env, FusedGelu(gelu, bias, matmul)) == Value(sem, env, gelu)
  {
    var a, b := Lookup(sem, env, matmul.operands[0]), Lookup(sem, env, matmul.operands[1]);
    var c := Lookup(sem, env, bias.operands[1]);
    assert Values(sem, env, matmul.operands) == [a, b];
    assert Values(sem, env, bias.operands) == [Value(sem, env, matmul), c];
    assert Values(sem, env, gelu.operands) == [Value(sem, env, bias)];
    assert Values(sem, env, FusedGelu(gelu, bias, matmul).operands) == [a, b, c];
  }

  /** The three-op fusion returns the same values, through intermediates of like types. */
  lemma FuseGeluSound<V(!new)>(sem: Sem<V>, alike: Alike, f: Func, inputs: map<nat, V>, i: nat)
    requires Lawful(sem, alike) && WellFormed(f) && MatchesGelu(f, i)
    requires SafeChain(alike, f.body[i], f.body[ProducerOf(f, i)], f.body[ProducerOf(f, ProducerOf(f, i))])
    ensures Results(sem, FuseGelu(f, i), inputs) == Results(sem, f, inputs)
  {
    ChainFacts(f, i);
    var j := ProducerOf(f, i);
    var k := ProducerOf(f, j);
    var op := FusedGelu(f.body[i], f.body[j], f.body[k]);
    var g, env := Replaced(f, i, op), Env(sem, f, inputs, i);
    ChainUses(f, i, j, k, 0);
    ProducerValue(sem, f, inputs, j, i);
    ProducerValue(sem, f, inputs, k, i);
    hide Lawful, WellFormed, Uses;
    ComposedGelu(sem, alike, f.body[i], f.body[j], f.body[k], env);
    ReplaceEnv(sem, f, inputs, i, op, |f.body|);
    EraseSound(sem, g, inputs, j);
    EraseSound(sem, Erased(g, j), inputs, k);
  }

  // ----- Any sequence of rewrites -----

  // A fusion, or the greedy driver deleting an op that nothing uses (every op of the dialect is pure).
  datatype Step = Pair(rule: Rule, i: nat) | Chain(i: nat) | Dead(i: nat)

  predicate Unused(f: Func, i: nat) {
    i < |f.body| && Uses(f, f.body[i].result) == 0
  }

  predicate Enabled(f: Func, s: Step) {
    match s
    case Pair(rule, i) => Matches(f, rule, i)
    case Chain(i) => MatchesGelu(f, i)
    case Dead(i) => Unused(f, i)
  }

  function Apply(f: Func, s: Step): (g: Func)
    requires WellFormed(f) && Enabled(f, s)
    ensures WellFormed(g) && |g.body| < |f.body| && g.args == f.args && g.outs == f.outs
  {
    match s
    case Pair(rule, i) =>
      FuseWellFormed(f, rule, i);
      Fuse(f, rule, i)
    case Chain(i) =>
      FuseGeluWellFormed(f, i);
      FuseGelu(f, i)
    case Dead(i) =>
      EraseWellFormed(f, i);
      Erased(f, i)
  }

  predicate SafeStep(alike: Alike, f: Func, s: Step)
    requires Enabled(f, s)
  {
    match s
    case Pair(rule, i) => Safe(alike, rule, f.body[i], f.body[ProducerOf(f, i)])
    case Chain(i) => SafeChain(alike, f.body[i], f.body[ProducerOf(f, i)], f.body[ProducerOf(f, ProducerOf(f, i))])
    case Dead(i) => true
  }

  // A run of the fusion passes, in whatever order their patterns apply and dead ops are deleted.
  ghost predicate Runs(f: Func, steps: seq<Step>, g: Func)
    requires WellFormed(f)
    decreases |steps|
  {
    if steps == [] then g == f else Enabled(f, steps[0]) && Runs(Apply(f, steps[0]), steps[1..], g)
  }

  ghost predicate AllSafe(alike: Alike, f: Func, steps: seq<Step>)
    requires WellFormed(f)
    decreases |steps|
  {
    steps == [] || (Enabled(f, steps[0]) && SafeStep(alike, f, steps[0]) && AllSafe(alike, Apply(f, steps[0]), steps[1..]))
  }

  /** Any sequence of fusions and deletions leaves a well-formed function, with at least one op fewer per step. */
  lemma {:induction false} RunWellFormed(f: Func, steps: seq<Step>, g: Func)
    requires WellFormed(f) && Runs(f, steps, g)
    ensures WellFormed(g) && |g.body| + |steps| <= |f.body| && g.args == f.args && g.outs == f.outs
    decreases |steps|
  {
    hide WellFormed, Enabled, Apply;
    if steps != [] {
      RunWellFormed(Apply(f, steps[0]), steps[1..], g);
    }
  }

  /** Any sequence of fusions and deletions returns the same values, as long as every fusion goes through like types and every fused
      softmax is over the last axis. */
  lemma {:induction false} RunSound<V(!new)>(sem: Sem<V>, alike: Alike, f: Func, inputs: map<nat, V>, steps: seq<Step>, g: Func)
    requires Lawful(sem, alike) && WellFormed(f) && Runs(f, steps, g) && AllSafe(alike, f, steps)
    ensures Results(sem, g, inputs) == Results(sem, f, inputs)
    decreases |steps|
  {
    hide Lawful, WellFormed, Results;
    if steps != [] {
      StepSound(sem, alike, f, inputs, steps[0]);
      RunSound(sem, alike, Apply(f, steps[0]), inputs, steps[1..], g);
    }
  }

  lemma StepSound<V(!new)>(sem: Sem<V>, alike: Alike, f: Func, inputs: map<nat, V>, s: Step)
    requires Lawful(sem, alike) && WellFormed(f) && Enabled(f, s) && SafeStep(alike, f, s)
    ensures Results(sem, Apply(f, s), inputs) == Results(sem, f, inputs)
  {
    hide Lawful, WellFormed, Results;
    match s
    case Pair(rule, i) => FuseSound(sem, alike, f, inputs, rule, i);
    case Chain(i) => FuseGeluSound(sem, alike, f, inputs, i);
    case Dead(i) => EraseSound(sem, f, inputs, i);
  }

  // Every op's value is used somewhere.
  ghost predicate NoDeadOps(f: Func) {
    forall i | 0 <= i < |f.body| :: Uses(f, f.body[i].result) > 0
  }

  lemma {:induction false} RunNoDeadOps(f: Func, steps: seq<Step>, g: Func)
    requires WellFormed(f) && Runs(f, steps, g) && NoDeadOps(f)
    ensures NoDeadOps(g)
    decreases |steps|
  {
    if steps != [] {
      hide WellFormed, Enabled, Apply, NoDeadOps;
      StepNoDeadOps(f, steps[0]);
      RunNoDeadOps(Apply(f, steps[0]), steps[1..], g);
    }
  }

  lemma PairNoDeadOps(f: Func, rule: Rule, i: nat)
    requires WellFormed(f) && Matches(f, rule, i) && NoDeadOps(f)
    ensures NoDeadOps(Fuse(f, rule, i))
  {
    var g, d := Fuse(f, rule, i), ProducerOf(f, i);
    ProducerFirst(f, i);
    FuseWellFormed(f, rule, i);
    forall n | 0 <= n < |g.body|
      ensures Uses(g, g.body[n].result) > 0
    {
      assert g.body[n].result == f.body[Before(d, n)].result;
      assert f.body[Before(d, n)].result != f.body[d].result;
      hide Uses, WellFormed, Fuse, Matches;
    }
  }

  lemma ChainNoDeadOps(f: Func, i: nat)
    requires WellFormed(f) && MatchesGelu(f, i) && NoDeadOps(f)
    ensures NoDeadOps(FuseGelu(f, i))
  {
    ChainFacts(f, i);
    FuseGeluWellFormed(f, i);
    var g, j := FuseGelu(f, i), ProducerOf(f, i);
    var k := ProducerOf(f, j);
    forall n | 0 <= n < |g.body|
      ensures Uses(g, g.body[n].result) > 0
    {
      var m := Before(j, Before(k, n));
      assert g.body[n].result == f.body[m].result;
      assert f.body[m].result != f.body[j].result && f.body[m].result != f.body[k].result;
      hide Uses, WellFormed, FuseGelu, MatchesGelu;
    }
  }

  lemma UsedOp(f: Func, i: nat)
    requires NoDeadOps(f) && i < |f.body|
    ensures !Unused(f, i)
  {
  }

  /** Fusing leaves nothing dead behind for the driver to clean up. */
  lemma StepNoDeadOps(f: Func, s: Step)
    requires WellFormed(f) && Enabled(f, s) && NoDeadOps(f)
    ensures NoDeadOps(Apply(f, s))
  {
    hide NoDeadOps;
    match s
    case Pair(rule, i) => PairNoDeadOps(f, rule, i);
    case Chain(i) => ChainNoDeadOps(f, i);
    case Dead(i) => UsedOp(f, i);
  }

  // ----- What is left to fuse -----

  // Op d's value is the first operand of op i, and is used nowhere else: by no other operand of any op, and not by the return.
  ghost predicate FeedsOnly(f: Func, d: nat, i: nat) {
    && d < |f.body| && i < |f.body| && f.body[i].operands != [] && f.body[i].operands[0] == f.body[d].result
    && f.body[d].result !in f.body[i].operands[1..] && f.body[d].result !in f.outs
    && forall j | 0 <= j < |f.body| && j != i :: f.body[d].result !in f.body[j].operands
  }

  // Two ops that a pass is there to fuse.
  ghost predicate PairLeft(f: Func, rule: Rule, d: nat, i: nat) {
    && FeedsOnly(f, d, i)
    && match rule
      case RmsNormMatMul => f.body[d].kind.RmsNorm? && f.body[i].kind.MatMul?
      case ResidualRmsNorm => f.body[d].kind.Add? && f.body[i].kind.RmsNorm?
      case SoftmaxMask => f.body[d].kind.Add? && f.body[i].kind.Softmax?
  }

  ghost predicate ChainLeft(f: Func, k: nat, j: nat, i: nat) {
    && FeedsOnly(f, k, j) && FeedsOnly(f, j, i)
    && f.body[k].kind.MatMul? && f.body[j].kind.Bias? && f.body[i].kind.Gelu?
  }

  ghost predicate NothingLeft(f: Func, p: Pass) {
    match p
    case PairPass(rule) => forall d: nat, i: nat :: !PairLeft(f, rule, d, i)
    case ChainPass => forall k: nat, j: nat, i: nat :: !ChainLeft(f, k, j, i)
  }

  lemma {:induction false} NotUsedInBody(body: seq<Op>, v: nat)
    requires forall j | 0 <= j < |body| :: v !in body[j].operands
    ensures BodyUses(body, v) == 0
  {
    if body != [] {
      CountMember(body[0].operands, v);
      NotUsedInBody(body[1..], v);
    }
  }

  // Being used there and nowhere else is being used once.
  lemma FeedsOnlyIff(f: Func, d: nat, i: nat)
    requires d < |f.body| && i < |f.body| && f.body[i].operands != [] && f.body[i].operands[0] == f.body[d].result
    ensures FeedsOnly(f, d, i) <==> Uses(f, f.body[d].result) == 1
  {
    var v, ops := f.body[d].result, f.body[i].operands;
    BodyUsesSplit(f.body, i, v);
    CountMember(ops[1..], v);
    CountMember(f.outs, v);
    assert Count(ops, v) == 1 + Count(ops[1..], v);
    if FeedsOnly(f, d, i) {
      NotUsedInBody(f.body[..i], v);
      NotUsedInBody(f.body[i + 1..], v);
    } else if Uses(f, v) == 1 {
      forall j | 0 <= j < |f.body| && j != i
        ensures v !in f.body[j].operands
      {
        EraseUses(f, i, v);
        if v in f.body[j].operands {
          var n := if j < i then j else j - 1;
          assert Erased(f, i).body[n] == f.body[j];
          UsedHere(Erased(f, i), n, v);
        }
      }
    }
  }

  lemma DefinedBy(f: Func, d: nat)
    requires WellFormed(f) && d < |f.body|
    ensures FindDef(f.body, f.body[d].result) == Some(d)
  {
    assert Produces(f.body[d], f.body[d].result);
  }

  lemma PairLeftMatches(f: Func, rule: Rule, d: nat, i: nat)
    requires WellFormed(f) && PairLeft(f, rule, d, i)
    ensures Matches(f, rule, i) && ProducerOf(f, i) == d
  {
    DefinedBy(f, d);
    FeedsOnlyIff(f, d, i);
  }

  lemma ChainLeftMatches(f: Func, k: nat, j: nat, i: nat)
    requires WellFormed(f) && ChainLeft(f, k, j, i)
    ensures MatchesGelu(f, i)
  {
    DefinedBy(f, j);
    DefinedBy(f, k);
    FeedsOnlyIff(f, j, i);
    FeedsOnlyIff(f, k, j);
  }

  // Where the pattern matches nowhere there is nothing left to fuse.
  lemma UnmatchedIsDone(f: Func, p: Pass)
    requires WellFormed(f) && forall i | 0 <= i < |f.body| :: !Enabled(f, StepAt(p, i))
    ensures NothingLeft(f, p)
  {
    hide WellFormed, Matches, MatchesGelu;
    match p {
      case PairPass(rule) =>
        forall d: nat, i: nat | PairLeft(f, rule, d, i)
          ensures i < |f.body| && Enabled(f, StepAt(p, i))
        {
          PairLeftMatches(f, rule, d, i);
        }
      case ChainPass =>
        forall k: nat, j: nat, i: nat | ChainLeft(f, k, j, i)
          ensures i < |f.body| && Enabled(f, StepAt(p, i))
        {
          ChainLeftMatches(f, k, j, i);
        }
    }
  }

  // g's ops are f's, except for those absorbed and the fused one at `at`, and every value is used as often as before.
  ghost predicate Shrunk(f: Func, g: Func, at: nat, from: nat -> nat) {
    && at < |g.body| && g.body[at].kind.Fused()
    && forall n | 0 <= n < |g.body| && n != at ::
         from(n) < |f.body| && g.body[n] == f.body[from(n)] && Uses(g, g.body[n].result) == Uses(f, g.body[n].result)
  }

  lemma FeedsOnlyBefore(f: Func, g: Func, at: nat, from: nat -> nat, d: nat, i: nat)
    requires Shrunk(f, g, at, from) && d != at && i != at && FeedsOnly(g, d, i)
    ensures FeedsOnly(f, from(d), from(i))
  {
    FeedsOnlyIff(g, d, i);
    assert g.body[i] == f.body[from(i)] && g.body[d] == f.body[from(d)];
    FeedsOnlyIff(f, from(d), from(i));
    hide Uses;
  }

  // A fusion makes no two ops fusable that were not.
  lemma ShrunkLeavesNothing(f: Func, g: Func, at: nat, from: nat -> nat, p: Pass)
    requires Shrunk(f, g, at, from) && NothingLeft(f, p)
    ensures NothingLeft(g, p)
  {
    match p {
      case PairPass(rule) =>
        forall d: nat, i: nat
          ensures !PairLeft(g, rule, d, i)
        {
          if PairLeft(g, rule, d, i) {
            FeedsOnlyBefore(f, g, at, from, d, i);
            assert PairLeft(f, rule, from(d), from(i));
          }
        }
      case ChainPass =>
        forall k: nat, j: nat, i: nat
          ensures !ChainLeft(g, k, j, i)
        {
          if ChainLeft(g, k, j, i) {
            FeedsOnlyBefore(f, g, at, from, k, j);
            FeedsOnlyBefore(f, g, at, from, j, i);
            assert ChainLeft(f, from(k), from(j), from(i));
          }
        }
    }
  }

  lemma FuseShrinks(f: Func, rule: Rule, i: nat)
    requires WellFormed(f) && Matches(f, rule, i)
    ensures i > 0 && ProducerOf(f, i) < i
    ensures var d := ProducerOf(f, i); Shrunk(f, Fuse(f, rule, i), i - 1, n => Before(d, n))
  {
    var g, d := Fuse(f, rule, i), ProducerOf(f, i);
    ProducerFirst(f, i);
    FuseWellFormed(f, rule, i);
    assert g.body[i - 1] == FusedOp(rule, f.body[i], f.body[d]);
    forall n | 0 <= n < |g.body| && n != i - 1
      ensures Before(d, n) < |f.body| && g.body[n] == f.body[Before(d, n)]
      ensures Uses(g, g.body[n].result) == Uses(f, g.body[n].result)
    {
      assert f.body[Before(d, n)].result != f.body[d].result;
      hide Uses, WellFormed;
    }
  }

  lemma FuseGeluShrinks(f: Func, i: nat)
    requires WellFormed(f) && MatchesGelu(f, i)
    ensures var j := ProducerOf(f, i); j < i && |f.body[j].operands| > 0 && FindDef(f.body, f.body[j].operands[0]).Some?
    ensures var j := ProducerOf(f, i); var k := ProducerOf(f, j);
      i > 1 && Shrunk(f, FuseGelu(f, i), i - 2, n => Before(j, Before(k, n)))
  {
    ChainFacts(f, i);
    FuseGeluWellFormed(f, i);
    var g, j := FuseGelu(f, i), ProducerOf(f, i);
    var k := ProducerOf(f, j);
    assert g.body[i - 2] == FusedGelu(f.body[i], f.body[j], f.body[k]);
    forall n | 0 <= n < |g.body| && n != i - 2
      ensures var m := Before(j, Before(k, n)); m < |f.body| && g.body[n] == f.body[m]
      ensures Uses(g, g.body[n].result) == Uses(f, g.body[n].result)
    {
      var m := Before(j, Before(k, n));
      assert f.body[m].result != f.body[j].result && f.body[m].result != f.body[k].result;
      hide Uses, WellFormed;
    }
  }

  lemma StepLeavesNothing(f: Func, s: Step, p: Pass)
    requires WellFormed(f) && Enabled(f, s) && NoDeadOps(f) && NothingLeft(f, p)
    ensures NothingLeft(Apply(f, s), p)
  {
    hide WellFormed, NothingLeft, Shrunk, Uses;
    match s
    case Pair(rule, i) =>
      FuseShrinks(f, rule, i);
      var d := ProducerOf(f, i);
      ShrunkLeavesNothing(f, Fuse(f, rule, i), i - 1, n => Before(d, n), p);
    case Chain(i) =>
      FuseGeluShrinks(f, i);
      var j := ProducerOf(f, i);
      var k := ProducerOf(f, j);
      ShrunkLeavesNothing(f, FuseGelu(f, i), i - 2, n => Before(j, Before(k, n)), p);
    case Dead(i) =>
      UsedOp(f, i);
  }

  /** Once a pass has nothing left to fuse and nothing is dead, no later fusion brings anything back for it. */
  lemma {:induction false} RunLeavesNothing(f: Func, steps: seq<Step>, g: Func, p: Pass)
    requires WellFormed(f) && Runs(f, steps, g) && NoDeadOps(f) && NothingLeft(f, p)
    ensures NothingLeft(g, p)
    decreases |steps|
  {
    hide WellFormed, Enabled, Apply, NoDeadOps, NothingLeft;
    if steps != [] {
      StepNoDeadOps(f, steps[0]);
      StepLeavesNothing(f, steps[0], p);
      RunLeavesNothing(Apply(f, steps[0]), steps[1..], g, p);
    }
  }

  // ----- The dropped softmax axis -----

  // What a value holds when the function returns.
  function FinalValue<V(!new)>(sem: Sem<V>, f: Func, inputs: map<nat, V>, v: nat): V {
    Lookup(sem, Env(sem, f, inputs, |f.body|), v)
  }

  // A meaning that tells a softmax over another axis, or of a sum of an unlike type, from all else.
  function AxisValue(alike: Alike, k: Kind, ty: Type, vs: seq<Option<Type>>): Option<Type> {
    if k.Add? then Some(ty)
    else if k.Softmax? then if LastAxis(k.axis, ty) && |vs| == 1 && vs[0].Some? && alike(vs[0].value, ty) then None else Some(ty)
    else None
  }

  function AxisSem(alike: Alike): Sem<Option<Type>> {
    Sem((k: Kind, ty: Type, vs: seq<Option<Type>>) => AxisValue(alike, k, ty, vs), None)
  }

  lemma AxisSemSoftmax(alike: Alike)
    ensures SoftmaxLaw(AxisSem(alike), alike)
  {
    var sem := AxisSem(alike);
    forall axis, ty, mid, x: Option<Type>, m: Option<Type> | LastAxis(axis, ty) && alike(mid, ty)
      ensures sem.interp(FusedSoftmaxMask, ty, [x, m]) == sem.interp(Softmax(axis), ty, [sem.interp(Add, mid, [x, m])])
    {
      assert AxisValue(alike, Add, mid, [x, m]) == Some(mid);
    }
  }

  lemma AxisSemLawful(alike: Alike)
    ensures Lawful(AxisSem(alike), alike)
  {
    AxisSemSoftmax(alike);
    hide LastAxis, SoftmaxLaw;
  }

  lemma RootValueKept<V(!new)>(sem: Sem<V>, alike: Alike, f: Func, inputs: map<nat, V>, i: nat)
    requires Lawful(sem, alike) && WellFormed(f) && Matches(f, SoftmaxMask, i)
    requires Safe(alike, SoftmaxMask, f.body[i], f.body[ProducerOf(f, i)])
    ensures FinalValue(sem, Fuse(f, SoftmaxMask, i), inputs, f.body[i].result) == FinalValue(sem, f, inputs, f.body[i].result)
  {
    var d, n := ProducerOf(f, i), |f.body| - 1;
    ProducerFirst(f, i);
    assert f.body[d].result != f.body[i].result;
    ReplacedAgrees(sem, alike, f, inputs, SoftmaxMask, i);
    NoUsesLeft(f, SoftmaxMask, i);
    hide Lawful, WellFormed, Uses, Safe;
    EraseEnv(sem, Replaced(f, i, FusedOp(SoftmaxMask, f.body[i], f.body[d])), inputs, d, n, f.body[i].result);
  }

  // Under AxisSem the two ops differ whatever they are applied to.
  lemma RootValueLost(alike: Alike, f: Func, i: nat)
    requires WellFormed(f) && Matches(f, SoftmaxMask, i) && !Safe(alike, SoftmaxMask, f.body[i], f.body[ProducerOf(f, i)])
    ensures FinalValue(AxisSem(alike), f, map[], f.body[i].result) == Some(f.body[i].ty)
    ensures FinalValue(AxisSem(alike), Fuse(f, SoftmaxMask, i), map[], f.body[i].result) == None
  {
    var d, root, g := ProducerOf(f, i), f.body[i], Fuse(f, SoftmaxMask, i);
    ProducerFirst(f, i);
    FuseWellFormed(f, SoftmaxMask, i);
    ProducerValue(AxisSem(alike), f, map[], d, |f.body|);
    ProducerValue(AxisSem(alike), f, map[], i, |f.body|);
    assert g.body[i - 1].result == root.result && g.body[i - 1].kind.FusedSoftmaxMask?;
    ProducerValue(AxisSem(alike), g, map[], i - 1, |g.body|);
  }

  ghost predicate KeepsRoot<V(!new)>(f: Func, i: nat, sem: Sem<V>, inputs: map<nat, V>)
    requires WellFormed(f) && Matches(f, SoftmaxMask, i)
  {
    FinalValue(sem, Fuse(f, SoftmaxMask, i), inputs, f.body[i].result) == FinalValue(sem, f, inputs, f.body[i].result)
  }

  /** In every function the softmax fusion keeps the value it rewrites, under every lawful meaning, exactly when the softmax has no
      axis or its axis is the last one, and the masked sum is of a like type. */
  lemma SoftmaxFusionIff(alike: Alike, f: Func, i: nat)
    requires WellFormed(f) && Matches(f, SoftmaxMask, i)
    ensures (forall sem: Sem<Option<Type>>, inputs: map<nat, Option<Type>> | Lawful(sem, alike) :: KeepsRoot(f, i, sem, inputs)) <==>
      LastAxis(f.body[i].kind.axis, f.body[i].ty) && alike(f.body[ProducerOf(f, i)].ty, f.body[i].ty)
  {
    if LastAxis(f.body[i].kind.axis, f.body[i].ty) && alike(f.body[ProducerOf(f, i)].ty, f.body[i].ty) {
      forall sem: Sem<Option<Type>>, inputs: map<nat, Option<Type>> | Lawful(sem, alike)
        ensures KeepsRoot(f, i, sem, inputs)
      {
        RootValueKept(sem, alike, f, inputs, i);
      }
    } else {
      AxisSemLawful(alike);
      RootValueLost(alike, f, i);
      assert !KeepsRoot(f, i, AxisSem(alike), map[]);
    }
  }

  // ----- The rewriter -----

  lemma {:induction false} RunsSnoc(f: Func, steps: seq<Step>, g: Func, s: Step)
    requires WellFormed(f) && Runs(f, steps, g) && WellFormed(g) && Enabled(g, s)
    ensures Runs(f, steps + [s], Apply(g, s))
    decreases |steps|
  {
    hide WellFormed, Enabled, Apply;
    if steps == [] {
      assert [] + [s] == [s];
      assert [s][1..] == [];
    } else {
      assert (steps + [s])[0] == steps[0] && (steps + [s])[1..] == steps[1..] + [s];
      RunsSnoc(Apply(f, steps[0]), steps[1..], g, s);
    }
  }

  // The passes: three that absorb one producer, one that absorbs a chain of two.
  datatype Pass = PairPass(rule: Rule) | ChainPass

  function StepAt(p: Pass, i: nat): Step {
    match p
    case PairPass(rule) => Pair(rule, i)
    case ChainPass => Chain(i)
  }

  /** The pattern rewriter: a function updated in place. */
  class Rewriter {
    var func: Func

    constructor (f: Func)
      ensures func == f
    {
      func := f;
    }

    method ReplaceOp(i: nat, op: Op)
      requires i < |func.body|
      modifies this
      ensures func == Replaced(old(func), i, op)
    {
      func := func.(body := func.body[i := op]);
    }

    // Only an op without uses may be erased.
    method EraseOp(j: nat)
      requires j < |func.body| && Uses(func, func.body[j].result) == 0
      modifies this
      ensures func == Erased(old(func), j)
    {
      func := func.(body := func.body[..j] + func.body[j + 1..]);
    }

    method MatchAndRewrite(p: Pass, i: nat) returns (ok: bool)
      requires WellFormed(func)
      modifies this
      ensures WellFormed(func)
      ensures ok == Enabled(old(func), StepAt(p, i))
      ensures func == if ok then Apply(old(func), StepAt(p, i)) else old(func)
    {
      match p {
        case PairPass(rule) =>
          if !Matches(func, rule, i) {
            return false;
          }
          var d := ProducerOf(func, i);
          NoUsesLeft(func, rule, i);
          ProducerFirst(func, i);
          FuseWellFormed(func, rule, i);
          ReplaceOp(i, FusedOp(rule, func.body[i], func.body[d]));
          EraseOp(d);
        case ChainPass =>
          if !MatchesGelu(func, i) {
            return false;
          }
          var j := ProducerOf(func, i);
          ChainFacts(func, i);
          var k := ProducerOf(func, j);
          ChainUses(func, i, j, k, 0);
          FuseGeluWellFormed(func, i);
          ReplaceOp(i, FusedGelu(func.body[i], func.body[j], func.body[k]));
          EraseOp(j);
          EraseOp(k);
      }
      return true;
    }

    // One visit of the driver to op i: delete it if nothing uses it, else try the pattern.
    method Visit(p: Pass, i: nat) returns (changed: bool, ghost step: Step)
      requires WellFormed(func) && i < |func.body|
      modifies this
      ensures WellFormed(func)
      ensures changed == (Enabled(old(func), Dead(i)) || Enabled(old(func), StepAt(p, i)))
      ensures changed ==> Enabled(old(func), step) && func == Apply(old(func), step)
      ensures !changed ==> func == old(func)
    {
      if Unused(func, i) {
        EraseWellFormed(func, i);
        EraseOp(i);
        return true, Dead(i);
      }
      changed := MatchAndRewrite(p, i);
      step := StepAt(p, i);
    }

    // Visit ops until the pass's pattern matches nowhere and nothing is dead; the op count falls with every rewrite.
    method RunPass(p: Pass) returns (ghost steps: seq<Step>)
      requires WellFormed(func)
      modifies this
      ensures WellFormed(func) && Runs(old(func), steps, func)
      ensures NoDeadOps(func) && NothingLeft(func, p)
    {
      hide WellFormed, Enabled, Apply, Runs, NoDeadOps, NothingLeft;
      steps := [];
      RunsNothing(func);
      var i := 0;
      while i < |func.body|
        invariant WellFormed(func) && Runs(old(func), steps, func)
        invariant 0 <= i <= |func.body|
        invariant forall j | 0 <= j < i :: !Enabled(func, StepAt(p, j)) && !Enabled(func, Dead(j))
        decreases |func.body|, |func.body| - i
      {
        ghost var before := func;
        var changed;
        ghost var step;
        changed, step := Visit(p, i);
        if changed {
          RunsSnoc(old(func), steps, before, step);
          steps := steps + [step];
          i := 0;
        } else {
          i := i + 1;
        }
      }
      AllUsed(func);
      UnmatchedIsDone(func, p);
    }
  }

  lemma AllUsed(f: Func)
    requires forall i | 0 <= i < |f.body| :: !Enabled(f, Dead(i))
    ensures NoDeadOps(f)
  {
    forall i | 0 <= i < |f.body|
      ensures Uses(f, f.body[i].result) > 0
    {
      assert !Enabled(f, Dead(i));
    }
  }

  lemma RunsNothing(f: Func)
    requires WellFormed(f)
    ensures Runs(f, [], f)
  {
  }
}
