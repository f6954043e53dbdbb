/** Which ops the return depends on, and why fusing and deleting dead ops never changes that. */
module Liveness {
  import opened Wavelets
  import opened SsaFunctions
  import opened Fusions

  predicate FeedsInto(f: Func, i: nat, j: nat) {
    i < j < |f.body| && f.body[i].result in f.body[j].operands
  }

  // Op i's value is returned, or used by an op of which that is true.
  predicate Live(f: Func, i: nat)
    requires i < |f.body|
    decreases |f.body| - i
  {
    f.body[i].result in f.outs || exists j | i < j < |f.body| :: FeedsInto(f, i, j) && Live(f, j)
  }

  // ----- Unused ops -----

  lemma UnusedIsDead(f: Func, i: nat)
    requires Unused(f, i)
    ensures !Live(f, i)
  {
    var v := f.body[i].result;
    CountMember(f.outs, v);
    forall j | 0 <= j < |f.body|
      ensures v !in f.body[j].operands
    {
      if v in f.body[j].operands {
        UsedHere(f, j, v);
      }
    }
  }

  lemma {:induction false} UserInBody(body: seq<Op>, v: nat) returns (j: nat)
    requires BodyUses(body, v) > 0
    ensures j < |body| && v in body[j].operands
  {
    CountMember(body[0].operands, v);
    if v in body[0].operands {
      j := 0;
    } else {
      var k := UserInBody(body[1..], v);
      j := k + 1;
    }
  }

  // A use comes after the definition.
  lemma UserIsLater(f: Func, i: nat, j: nat)
    requires WellFormed(f) && i < |f.body| && j < |f.body| && f.body[i].result in f.body[j].operands
    ensures FeedsInto(f, i, j)
  {
    var v := f.body[i].result;
    assert OpWellFormed(f, i) && OpWellFormed(f, j);
    var k :| 0 <= k < |f.body[j].operands| && f.body[j].operands[k] == v;
    assert Defined(f, j, v);
  }

  /** Where every value is used, every op is live. */
  lemma {:induction false} AllLive(f: Func, i: nat)
    requires WellFormed(f) && NoDeadOps(f) && i < |f.body|
    ensures Live(f, i)
    decreases |f.body| - i
  {
    var v := f.body[i].result;
    assert Uses(f, v) > 0;
    CountMember(f.outs, v);
    if v !in f.outs {
      var j := UserInBody(f.body, v);
      UserIsLater(f, i, j);
      AllLive(f, j);
    }
  }

  // ----- Erase -----

  function After(j: nat, m: nat): nat
    requires m != j
  {
    if m < j then m else m - 1
  }

  /** Erasing an unused op leaves the others as live as they were. */
  lemma {:induction false} ErasedLive(f: Func, j: nat, n: nat)
    requires Unused(f, j) && n < |f.body| - 1
    ensures Live(Erased(f, j), n) <==> Live(f, Before(j, n))
    decreases |f.body| - n
  {
    var g, m := Erased(f, j), Before(j, n);
    UnusedIsDead(f, j);
    hide Uses, Count;
    assert g.body[n] == f.body[m];
    forall k | n < k < |g.body|
      ensures FeedsInto(g, n, k) && Live(g, k) ==> FeedsInto(f, m, Before(j, k)) && Live(f, Before(j, k))
    {
      ErasedLive(f, j, k);
      assert g.body[k] == f.body[Before(j, k)];
    }
    forall k | m < k < |f.body|
      ensures FeedsInto(f, m, k) && Live(f, k) ==> k != j && FeedsInto(g, n, After(j, k)) && Live(g, After(j, k))
    {
      if k != j {
        var k' := After(j, k);
        ErasedLive(f, j, k');
        assert g.body[k'] == f.body[Before(j, k')] && Before(j, k') == k;
      }
    }
  }

  // ----- Replace -----

  // Whose values the new op i takes over: the absorbed ops, each as live as op i, die.
  ghost predicate Absorbs(f: Func, i: nat, op: Op, absorbed: set<nat>) {
    && i < |f.body| && op.result == f.body[i].result
    && (forall d | d in absorbed :: d < i && !Live(Replaced(f, i, op), d) && (Live(f, d) <==> Live(f, i)))
    && (forall v | v in op.operands :: v in f.body[i].operands || exists d :: d in absorbed && v in f.body[d].operands)
    && (forall v | v in f.body[i].operands :: v in op.operands || exists d :: d in absorbed && Produces(f.body[d], v))
    && (forall d, v | d in absorbed && v in f.body[d].operands ::
          v in op.operands || exists e :: e in absorbed && Produces(f.body[e], v))
  }

  /** Replacing an op leaves every op but the absorbed ones as live as it was. */
  lemma {:induction false} ReplacedLive(f: Func, i: nat, op: Op, absorbed: set<nat>, m: nat)
    requires WellFormed(f) && Absorbs(f, i, op, absorbed) && m < |f.body| && m !in absorbed
    ensures Live(Replaced(f, i, op), m) <==> Live(f, m)
    decreases |f.body| - m
  {
    var g, v := Replaced(f, i, op), f.body[m].result;
    if Live(f, m) && v !in f.outs {
      var j :| m < j < |f.body| && FeedsInto(f, m, j) && Live(f, j);
      var k := if j in absorbed then i else j;
      assert Live(f, k);
      ReplacedLive(f, i, op, absorbed, k);
      if k == i {
        NotProducedBy(f, absorbed, m, i);
        assert v in op.operands;
      }
      assert FeedsInto(g, m, k);
    }
    if Live(g, m) && v !in f.outs {
      var j :| m < j < |f.body| && FeedsInto(g, m, j) && Live(g, j);
      ReplacedLive(f, i, op, absorbed, j);
      if j == i && v !in f.body[i].operands {
        var d :| d in absorbed && v in f.body[d].operands;
        UserIsLater(f, m, d);
        assert Live(f, d);
      } else {
        assert FeedsInto(f, m, j);
      }
    }
  }

  lemma NotProducedBy(f: Func, absorbed: set<nat>, m: nat, i: nat)
    requires WellFormed(f) && m < |f.body| && m !in absorbed && forall d | d in absorbed :: d < |f.body|
    ensures forall d | d in absorbed :: !Produces(f.body[d], f.body[m].result)
  {
  }

  // ----- The fusions -----

  // A value with one use is as live as its user.
  lemma OnlyUser(f: Func, d: nat, i: nat)
    requires WellFormed(f) && d < |f.body| && i < |f.body| && f.body[d].result in f.body[i].operands && Uses(f, f.body[d].result) == 1
    ensures Live(f, d) <==> Live(f, i)
  {
    var v := f.body[d].result;
    UserIsLater(f, d, i);
    CountMember(f.body[i].operands, v);
    EraseUses(f, i, v);
    CountMember(f.outs, v);
    forall j | 0 <= j < |f.body| && j != i
      ensures v !in f.body[j].operands
    {
      if v in f.body[j].operands {
        assert Erased(f, i).body[After(i, j)] == f.body[j];
        UsedHere(Erased(f, i), After(i, j), v);
      }
    }
  }

  lemma PairAbsorbs(f: Func, rule: Rule, i: nat)
    requires WellFormed(f) && Matches(f, rule, i)
    ensures Absorbs(f, i, FusedOp(rule, f.body[i], f.body[ProducerOf(f, i)]), {ProducerOf(f, i)})
  {
    var d := ProducerOf(f, i);
    ProducerFirst(f, i);
    NoUsesLeft(f, rule, i);
    UnusedIsDead(Replaced(f, i, FusedOp(rule, f.body[i], f.body[d])), d);
    OnlyUser(f, d, i);
    hide WellFormed, Uses, Live;
    assert f.body[i].operands == [f.body[d].result] + f.body[i].operands[1..];
    assert Produces(f.body[d], f.body[d].result);
  }

  // With the gelu replaced nothing uses the bias, and only the bias uses the matmul.
  lemma ChainDies(f: Func, i: nat, j: nat, k: nat)
    requires WellFormed(f) && MatchesGelu(f, i) && j == ProducerOf(f, i) && k < j && k == ProducerOf(f, j)
    ensures var g := Replaced(f, i, FusedGelu(f.body[i], f.body[j], f.body[k])); !Live(g, j) && !Live(g, k)
  {
    ChainFacts(f, i);
    var op := FusedGelu(f.body[i], f.body[j], f.body[k]);
    var g, mm := Replaced(f, i, op), f.body[k].result;
    ChainOperandsAvailable(f, i, j, k);
    ReplaceWellFormed(f, i, op);
    ChainUses(f, i, j, k, 0);
    UnusedIsDead(g, j);
    EraseUses(g, j, mm);
    OnlyUser(g, k, j);
  }

  lemma ChainAbsorbs(f: Func, i: nat)
    requires WellFormed(f) && MatchesGelu(f, i)
    ensures var j := ProducerOf(f, i); j < i && |f.body[j].operands| > 0 && FindDef(f.body, f.body[j].operands[0]).Some?
    ensures var j := ProducerOf(f, i); var k := ProducerOf(f, j);
      k < j && Absorbs(f, i, FusedGelu(f.body[i], f.body[j], f.body[k]), {j, k})
  {
    ChainFacts(f, i);
    var j := ProducerOf(f, i);
    var k := ProducerOf(f, j);
    var op := FusedGelu(f.body[i], f.body[j], f.body[k]);
    ChainUses(f, i, j, k, 0);
    OnlyUser(f, j, i);
    OnlyUser(f, k, j);
    ChainDies(f, i, j, k);
    hide WellFormed, Live, Uses;
    assert f.body[j].operands == [f.body[k].result] + f.body[j].operands[1..];
    assert Produces(f.body[j], f.body[j].result) && Produces(f.body[k], f.body[k].result);
  }
}
