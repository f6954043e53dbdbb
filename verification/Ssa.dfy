/** Straight-line SSA functions: well-formedness, use counts, meaning, and the two rewriter primitives (replace, erase). */
module SsaFunctions {
  import opened Wavelets
  import opened Arithmetic

  // A ranked tensor type and its element width in bytes.
  datatype Type = Type(dims: seq<nat>, width: nat)
  {
    function Bytes(): nat {
      ProductNonNegative(dims);
      Product(dims) * width
    }
  }

  datatype Kind =
    | RmsNorm(epsilon: Option<nat>)
    | Gelu
    | Silu
    | Add
    | Softmax(axis: Option<int>)
    | MatMul
    | Bias
    | Other(name: nat)
    | FusedRmsNormMatMul(epsilon: Option<nat>)
    | FusedMatMulBiasGelu
    | FusedResidualRmsNorm(epsilon: Option<nat>)
    | FusedSoftmaxMask
  {
    predicate Fused() {
      FusedRmsNormMatMul? || FusedMatMulBiasGelu? || FusedResidualRmsNorm? || FusedSoftmaxMask?
    }

    // Prints one type for its operands and its result.
    predicate ShapePreserving() {
      RmsNorm? || Gelu? || Silu? || Add? || Softmax?
    }

    // Number of operands, when the kind fixes it.
    function Arity(): Option<nat> {
      match this
      case RmsNorm(_) | Gelu | Silu | Softmax(_) => Some(1)
      case Add | MatMul | Bias | FusedRmsNormMatMul(_) | FusedResidualRmsNorm(_) | FusedSoftmaxMask => Some(2)
      case FusedMatMulBiasGelu => Some(3)
      case Other(_) => None
    }
  }

  // An operation: its one result value, its operands, and the intermediate types its fusion eliminated.
  datatype Op = Op(result: nat, kind: Kind, operands: seq<nat>, ty: Type, eliminated: seq<Type>)

  datatype Func = Func(args: map<nat, Type>, body: seq<Op>, outs: seq<nat>)

  predicate Produces(op: Op, v: nat) {
    op.result == v
  }

  // Value v is available before op i.
  ghost predicate Defined(f: Func, i: nat, v: nat) {
    v in f.args || exists j :: 0 <= j < i && j < |f.body| && Produces(f.body[j], v)
  }

  ghost predicate OperandsDefined(f: Func, i: nat, vs: seq<nat>) {
    forall k | 0 <= k < |vs| :: Defined(f, i, vs[k])
  }

  predicate RightArity(op: Op) {
    op.kind.Arity().Some? ==> |op.operands| == op.kind.Arity().value
  }

  ghost predicate OpWellFormed(f: Func, i: nat)
    requires i < |f.body|
  {
    RightArity(f.body[i]) && OperandsDefined(f, i, f.body[i].operands) && f.body[i].result !in f.args
  }

  // Definitions come before uses and every value has one.
  ghost predicate WellFormed(f: Func) {
    && (forall i | 0 <= i < |f.body| :: OpWellFormed(f, i))
    && (forall i, j | 0 <= i < j < |f.body| :: f.body[i].result != f.body[j].result)
    && OperandsDefined(f, |f.body|, f.outs)
  }

  // ----- Uses -----

  function Count(vs: seq<nat>, v: nat): nat {
    if vs == [] then 0 else (if vs[0] == v then 1 else 0) + Count(vs[1..], v)
  }

  function BodyUses(body: seq<Op>, v: nat): nat {
    if body == [] then 0 else Count(body[0].operands, v) + BodyUses(body[1..], v)
  }

  // Operand uses in the body and in the return.
  function Uses(f: Func, v: nat): nat {
    BodyUses(f.body, v) + Count(f.outs, v)
  }

  lemma {:induction false} CountMember(vs: seq<nat>, v: nat)
    ensures Count(vs, v) > 0 <==> v in vs
  {
    if vs != [] {
      CountMember(vs[1..], v);
      assert vs == [vs[0]] + vs[1..];
    }
  }

  lemma {:induction false} BodyUsesConcat(p: seq<Op>, q: seq<Op>, v: nat)
    ensures BodyUses(p + q, v) == BodyUses(p, v) + BodyUses(q, v)
    decreases |p|
  {
    if p == [] {
      assert p + q == q;
    } else {
      assert (p + q)[0] == p[0] && (p + q)[1..] == p[1..] + q;
      BodyUsesConcat(p[1..], q, v);
    }
  }

  lemma BodyUsesSplit(body: seq<Op>, i: nat, v: nat)
    requires i < |body|
    ensures BodyUses(body, v) == BodyUses(body[..i], v) + Count(body[i].operands, v) + BodyUses(body[i + 1..], v)
  {
    assert body == body[..i] + body[i..];
    BodyUsesConcat(body[..i], body[i..], v);
    assert body[i..][0] == body[i] && body[i..][1..] == body[i + 1..];
  }

  // A value used anywhere has uses.
  lemma UsedHere(f: Func, i: nat, v: nat)
    requires i < |f.body| && v in f.body[i].operands
    ensures Uses(f, v) > 0
  {
    BodyUsesSplit(f.body, i, v);
    CountMember(f.body[i].operands, v);
  }

  // ----- Meaning -----

  datatype Sem<!V(!new)> = Sem(interp: (Kind, Type, seq<V>) -> V, undef: V)

  function Lookup<V(!new)>(sem: Sem<V>, env: map<nat, V>, v: nat): V {
    if v in env then env[v] else sem.undef
  }

  function Values<V(!new)>(sem: Sem<V>, env: map<nat, V>, vs: seq<nat>): (r: seq<V>)
    ensures |r| == |vs|
  {
    seq(|vs|, k requires 0 <= k < |vs| => Lookup(sem, env, vs[k]))
  }

  function Value<V(!new)>(sem: Sem<V>, env: map<nat, V>, op: Op): V {
    sem.interp(op.kind, op.ty, Values(sem, env, op.operands))
  }

  // What every value holds after the first n ops.
  function Env<V(!new)>(sem: Sem<V>, f: Func, inputs: map<nat, V>, n: nat): map<nat, V>
    requires n <= |f.body|
  {
    if n == 0 then inputs
    else
      var env := Env(sem, f, inputs, n - 1);
      env[f.body[n - 1].result := Value(sem, env, f.body[n - 1])]
  }

  function Results<V(!new)>(sem: Sem<V>, f: Func, inputs: map<nat, V>): seq<V> {
    Values(sem, Env(sem, f, inputs, |f.body|), f.outs)
  }

  // Ops from j on leave other values alone.
  lemma {:induction false} EnvKeeps<V(!new)>(sem: Sem<V>, f: Func, inputs: map<nat, V>, j: nat, n: nat, v: nat)
    requires j <= n <= |f.body| && forall k | j <= k < n :: f.body[k].result != v
    ensures Lookup(sem, Env(sem, f, inputs, n), v) == Lookup(sem, Env(sem, f, inputs, j), v)
    decreases n
  {
    if j < n {
      EnvKeeps(sem, f, inputs, j, n - 1, v);
    }
  }

  // What is defined before op j is not redefined from j on.
  lemma NotRedefined(f: Func, j: nat, v: nat)
    requires WellFormed(f) && j <= |f.body| && Defined(f, j, v)
    ensures forall k | j <= k < |f.body| :: f.body[k].result != v
  {
    forall k | j <= k < |f.body|
      ensures f.body[k].result != v
    {
      assert OpWellFormed(f, k);
    }
  }

  // Op j's result is its value on whatever its operands still hold later.
  lemma ProducerValue<V(!new)>(sem: Sem<V>, f: Func, inputs: map<nat, V>, j: nat, i: nat)
    requires WellFormed(f) && j < i <= |f.body|
    ensures var env := Env(sem, f, inputs, i); Lookup(sem, env, f.body[j].result) == Value(sem, env, f.body[j])
  {
    var op, env := f.body[j], Env(sem, f, inputs, i);
    assert OpWellFormed(f, j);
    EnvKeeps(sem, f, inputs, j + 1, i, op.result);
    forall k | 0 <= k < |op.operands|
      ensures Lookup(sem, env, op.operands[k]) == Lookup(sem, Env(sem, f, inputs, j), op.operands[k])
    {
      assert Defined(f, j, op.operands[k]);
      NotRedefined(f, j, op.operands[k]);
      EnvKeeps(sem, f, inputs, j, i, op.operands[k]);
    }
    assert Values(sem, env, op.operands) == Values(sem, Env(sem, f, inputs, j), op.operands);
  }

  // ----- Replace -----

  function Replaced(f: Func, i: nat, op: Op): Func
    requires i < |f.body|
  {
    f.(body := f.body[i := op])
  }

  lemma ReplaceWellFormed(f: Func, i: nat, op: Op)
    requires WellFormed(f) && i < |f.body| && op.result == f.body[i].result && RightArity(op) && OperandsDefined(f, i, op.operands)
    ensures WellFormed(Replaced(f, i, op))
  {
    var g := Replaced(f, i, op);
    forall j: nat, v | j <= |f.body| && Defined(f, j, v)
      ensures Defined(g, j, v)
    {
      if v !in f.args {
        var k :| 0 <= k < j && k < |f.body| && Produces(f.body[k], v);
        assert Produces(g.body[k], v);
      }
    }
    forall j | 0 <= j < |g.body|
      ensures OpWellFormed(g, j)
    {
      assert OpWellFormed(f, j);
    }
  }

  lemma {:induction false} ReplaceEnv<V(!new)>(sem: Sem<V>, f: Func, inputs: map<nat, V>, i: nat, op: Op, n: nat)
    requires i < |f.body| && op.result == f.body[i].result && n <= |f.body|
    requires Value(sem, Env(sem, f, inputs, i), op) == Value(sem, Env(sem, f, inputs, i), f.body[i])
    ensures Env(sem, Replaced(f, i, op), inputs, n) == Env(sem, f, inputs, n)
    decreases n
  {
    if n > 0 {
      ReplaceEnv(sem, f, inputs, i, op, n - 1);
    }
  }

  lemma ReplaceUses(f: Func, i: nat, op: Op, v: nat)
    requires i < |f.body|
    ensures Uses(Replaced(f, i, op), v) + Count(f.body[i].operands, v) == Uses(f, v) + Count(op.operands, v)
  {
    var g := Replaced(f, i, op);
    BodyUsesSplit(f.body, i, v);
    BodyUsesSplit(g.body, i, v);
    assert g.body[..i] == f.body[..i] && g.body[i + 1..] == f.body[i + 1..];
  }

  // ----- Erase -----

  function Erased(f: Func, j: nat): Func
    requires j < |f.body|
  {
    f.(body := f.body[..j] + f.body[j + 1..])
  }

  // Where op n of the erased body was before.
  function Before(j: nat, n: nat): nat {
    if n < j then n else n + 1
  }

  lemma UnusedOperand(f: Func, r: nat, i: nat, k: nat)
    requires Uses(f, r) == 0 && i < |f.body| && k < |f.body[i].operands|
    ensures f.body[i].operands[k] != r
  {
    if f.body[i].operands[k] == r {
      UsedHere(f, i, r);
    }
  }

  lemma EraseWellFormed(f: Func, j: nat)
    requires WellFormed(f) && j < |f.body| && Uses(f, f.body[j].result) == 0
    ensures WellFormed(Erased(f, j))
  {
    var g, r := Erased(f, j), f.body[j].result;
    forall n: nat, v | n <= |g.body| && v != r && Defined(f, Before(j, n), v)
      ensures Defined(g, n, v)
    {
      if v !in f.args {
        var k :| 0 <= k < Before(j, n) && k < |f.body| && Produces(f.body[k], v);
        assert k != j;
        assert Produces(g.body[if k < j then k else k - 1], v);
      }
    }
    forall n | 0 <= n < |g.body|
      ensures OpWellFormed(g, n)
    {
      assert g.body[n] == f.body[Before(j, n)];
      assert OpWellFormed(f, Before(j, n));
      forall k | 0 <= k < |g.body[n].operands|
        ensures Defined(g, n, g.body[n].operands[k])
      {
        UnusedOperand(f, r, Before(j, n), k);
        assert Defined(f, Before(j, n), g.body[n].operands[k]);
      }
    }
    forall k | 0 <= k < |g.outs|
      ensures Defined(g, |g.body|, g.outs[k])
    {
      CountMember(f.outs, r);
      assert Defined(f, |f.body|, f.outs[k]);
      assert Defined(f, Before(j, |g.body|), f.outs[k]);
    }
  }

  // Away from the erased value the two functions compute alike.
  lemma {:induction false} EraseEnv<V(!new)>(sem: Sem<V>, f: Func, inputs: map<nat, V>, j: nat, n: nat, v: nat)
    requires j < |f.body| && Uses(f, f.body[j].result) == 0 && n < |f.body| && v != f.body[j].result
    ensures Lookup(sem, Env(sem, Erased(f, j), inputs, n), v) == Lookup(sem, Env(sem, f, inputs, Before(j, n)), v)
    decreases n
  {
    hide Uses;
    var g := Erased(f, j);
    if n > 0 {
      var m := n - 1;
      EraseEnv(sem, f, inputs, j, m, v);
      assert g.body[m] == f.body[Before(j, m)];
      forall k | 0 <= k < |g.body[m].operands|
        ensures Lookup(sem, Env(sem, g, inputs, m), g.body[m].operands[k]) ==
          Lookup(sem, Env(sem, f, inputs, Before(j, m)), g.body[m].operands[k])
      {
        UnusedOperand(f, f.body[j].result, Before(j, m), k);
        EraseEnv(sem, f, inputs, j, m, g.body[m].operands[k]);
      }
      assert Values(sem, Env(sem, g, inputs, m), g.body[m].operands) ==
        Values(sem, Env(sem, f, inputs, Before(j, m)), g.body[m].operands);
    }
  }

  lemma EraseUses(f: Func, j: nat, v: nat)
    requires j < |f.body|
    ensures Uses(Erased(f, j), v) + Count(f.body[j].operands, v) == Uses(f, v)
  {
    BodyUsesSplit(f.body, j, v);
    BodyUsesConcat(f.body[..j], f.body[j + 1..], v);
  }

  /** Erasing an op without uses returns the same values. */
  lemma EraseSound<V(!new)>(sem: Sem<V>, f: Func, inputs: map<nat, V>, j: nat)
    requires j < |f.body| && Uses(f, f.body[j].result) == 0
    ensures Results(sem, Erased(f, j), inputs) == Results(sem, f, inputs)
  {
    var g, n := Erased(f, j), |f.body| - 1;
    forall k | 0 <= k < |f.outs|
      ensures Lookup(sem, Env(sem, g, inputs, n), f.outs[k]) == Lookup(sem, Env(sem, f, inputs, |f.body|), f.outs[k])
    {
      CountMember(f.outs, f.body[j].result);
      EraseEnv(sem, f, inputs, j, n, f.outs[k]);
    }
    assert |g.body| == n;
  }
}
