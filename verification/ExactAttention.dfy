/** Prefill where arithmetic is exact: the softmax-weighted mean of the visible values, by scaled scores of the numbers in the flat tensors. */
module ExactAttentions {
  import opened Wavelets
  import opened Mesh
  import opened CpuReferences
  import opened Attentions
  import opened ExactResults
  import T = TiledGemms

  // Element d of row s of batch-head bh in a [BH, S, D] tensor.
  ghost function Flat(t: seq<real>, S: nat, D: nat, bh: nat, s: nat, d: nat): real {
    if (bh * S + s) * D + d < |t| then t[(bh * S + s) * D + d] else 0.0
  }

  lemma FlatIsAt(num: T.Numbers<real, real>, t: seq<real>, BH: nat, S: nat, D: nat, bh: nat, s: nat, d: nat)
    requires |t| == BH * S * D && bh < BH && s < S && d < D
    ensures At(num, t, S, D, bh, s, d) == Flat(t, S, D, bh, s, d)
  {
    PosInRange(BH, S, D, bh, s, d);
  }

  // q[bh, i, e] * k[bh, j, e], for each e.
  ghost function ScoreTerm(q: seq<real>, k: seq<real>, Sq: nat, Skv: nat, D: nat, bh: nat, i: nat, j: nat): nat -> real {
    (e: nat) => Times(Flat(q, Sq, D, bh, i, e), Flat(k, Skv, D, bh, j, e))
  }

  // Query i against key j: their product over the root of the depth.
  ghost function Scaled(a: Attn<real, real>, q: seq<real>, k: seq<real>, Sq: nat, Skv: nat, D: nat, bh: nat, i: nat, j: nat): real {
    Over(Sum(D, ScoreTerm(q, k, Sq, Skv, D, bh, i, j)), a.m.sqrt(D as real))
  }

  lemma {:induction false} DotIsScore(a: Attn<real, real>, x: Query<real>, j: nat, n: nat, f: nat -> real)
    requires Computes(a.m.num) && forall e: nat | e < n :: f(e) == Times(x.q(e), x.k(j, e))
    ensures x.Dot(a, j, n) == Sum(n, f)
  {
    hide Times;
    if n > 0 {
      DotIsScore(a, x, j, n - 1, f);
    }
  }

  lemma ScoreIsScaled(a: Attn<real, real>, q: seq<real>, k: seq<real>, v: seq<real>, BH: nat, Sq: nat, Skv: nat, D: nat, causal: bool,
      bh: nat, i: nat, j: nat)
    requires ExactMath(a.m) && |q| == BH * Sq * D && |k| == BH * Skv * D && bh < BH && i < Sq && j < Skv && a.m.sqrt(D as real) != 0.0
    ensures QueryAt(a.m.num, q, k, v, Sq, Skv, D, causal, bh, i).Score(a, j) == Scaled(a, q, k, Sq, Skv, D, bh, i, j)
  {
    var x := QueryAt(a.m.num, q, k, v, Sq, Skv, D, causal, bh, i);
    var f := ScoreTerm(q, k, Sq, Skv, D, bh, i, j);
    ExactDivides(a.m);
    hide ExactMath, Exact, Times, Over, At, Flat;
    forall e: nat | e < D
      ensures f(e) == Times(x.q(e), x.k(j, e))
    {
      FlatIsAt(a.m.num, q, BH, Sq, D, bh, i, e);
      FlatIsAt(a.m.num, k, BH, Skv, D, bh, j, e);
    }
    DotIsScore(a, x, j, D, f);
    MeanEitherWay(Sum(D, f), a.m.sqrt(D as real));
  }

  // exp(score(j) - mx), for each key j.
  ghost function WeightTerm(a: Attn<real, real>, score: nat -> real, mx: real): nat -> real {
    (j: nat) => a.m.exp(score(j) - mx)
  }

  ghost function ValueTerm(a: Attn<real, real>, score: nat -> real, mx: real, value: nat -> real): nat -> real {
    (j: nat) => Times(a.m.exp(score(j) - mx), value(j))
  }

  // Up to its limit a query's scores and values are these, and minus infinity is below them.
  ghost predicate Shows(x: Query<real>, a: Attn<real, real>, d: nat, score: nat -> real, value: nat -> real) {
    forall j: nat | j <= x.limit :: x.Score(a, j) == score(j) && x.v(j, d) == value(j) && a.negInf <= score(j)
  }

  lemma {:induction false} MaxIsLargest(x: Query<real>, a: Attn<real, real>, d: nat, score: nat -> real, value: nat -> real, n: nat) returns (p: nat)
    requires (forall y, z :: a.m.max(y, z) == if y < z then z else y) && Shows(x, a, d, score, value) && 0 < n <= x.limit + 1
    ensures p < n && x.MaxTo(a, n) == score(p) && forall j: nat | j < n :: score(j) <= score(p)
  {
    hide Query.Score;
    if n == 1 {
      p := 0;
      assert x.MaxTo(a, 0) == a.negInf;
    } else {
      p := MaxIsLargest(x, a, d, score, value, n - 1);
      if score(p) < score(n - 1) {
        p := n - 1;
      }
    }
  }

  lemma MaxIsMax(a: Attn<real, real>)
    requires ExactMath(a.m)
    ensures forall y, z :: a.m.max(y, z) == if y < z then z else y
  {
  }

  lemma {:induction false} WeighedSums(x: Query<real>, a: Attn<real, real>, d: nat, score: nat -> real, value: nat -> real, mx: real, n: nat)
    requires Computes(a.m.num) && (forall y, z :: a.m.sub(y, z) == y - z) && Shows(x, a, d, score, value) && n <= x.limit + 1
    ensures x.SumTo(a, mx, n) == Sum(n, WeightTerm(a, score, mx))
    ensures x.AccTo(a, mx, d, n) == Sum(n, ValueTerm(a, score, mx, value))
  {
    hide Times, Query.Score;
    if n > 0 {
      WeighedSums(x, a, d, score, value, mx, n - 1);
      assert x.Weight(a, mx, n - 1) == a.m.exp(score(n - 1) - mx);
    }
  }

  // Masked keys weigh nothing where the exponential of minus infinity below any score is zero.
  ghost predicate MaskVanishes(a: Attn<real, real>, score: nat -> real, limit: nat) {
    forall j: nat | j <= limit :: a.m.exp(a.negInf - score(j)) == 0.0
  }

  lemma {:induction false} MaskedAddNothing(x: Query<real>, a: Attn<real, real>, d: nat, mx: real, n: nat)
    requires Computes(a.m.num) && a.m.exp(a.m.sub(a.negInf, mx)) == 0.0 && 0 <= x.limit < n
    ensures x.SumTo(a, mx, n) == x.SumTo(a, mx, x.limit + 1) && x.AccTo(a, mx, d, n) == x.AccTo(a, mx, d, x.limit + 1)
    decreases n
  {
    if n > x.limit + 1 {
      MaskedAddNothing(x, a, d, mx, n - 1);
      assert Times(0.0, x.v(n - 1, d)) == 0.0;
      hide Times;
      assert x.Weight(a, mx, n - 1) == 0.0;
    }
  }

  lemma SumsToTheEnd(x: Query<real>, a: Attn<real, real>, d: nat, score: nat -> real, value: nat -> real, p: nat)
    requires ExactMath(a.m) && Shows(x, a, d, score, value) && 0 <= x.limit < x.kv && p <= x.limit
    requires x.limit + 1 < x.kv ==> MaskVanishes(a, score, x.limit)
    requires x.MaxTo(a, x.limit + 1) == score(p)
    ensures x.MaxTo(a, x.kv) == score(p)
    ensures x.SumTo(a, score(p), x.kv) == Sum(x.limit + 1, WeightTerm(a, score, score(p)))
    ensures x.AccTo(a, score(p), d, x.kv) == Sum(x.limit + 1, ValueTerm(a, score, score(p), value))
  {
    ExactDivides(a.m);
    hide ExactMath, Exact, Computes, Times, Shows, WeightTerm, ValueTerm, Query.Score, Query.SumTo, Query.AccTo, Query.MaxTo, Sum, MaskVanishes;
    MaxSkips(x, a, x.kv);
    WeighedSums(x, a, d, score, value, score(p), x.limit + 1);
    if x.limit + 1 < x.kv {
      VanishesAt(a, score, x.limit, p);
      MaskedAddNothing(x, a, d, score(p), x.kv);
    }
  }

  lemma VanishesAt(a: Attn<real, real>, score: nat -> real, limit: nat, p: nat)
    requires MaskVanishes(a, score, limit) && p <= limit
    ensures a.m.exp(a.negInf - score(p)) == 0.0
  {
  }

  lemma OutIs(x: Query<real>, a: Attn<real, real>, d: nat, score: nat -> real, value: nat -> real, p: nat)
    requires ExactMath(a.m) && Shows(x, a, d, score, value) && 0 <= x.limit < x.kv && p <= x.limit
    requires x.limit + 1 < x.kv ==> MaskVanishes(a, score, x.limit)
    requires x.MaxTo(a, x.limit + 1) == score(p) && Sum(x.limit + 1, WeightTerm(a, score, score(p))) != 0.0
    ensures x.Out(a, d) ==
      a.m.num.down(Over(Sum(x.limit + 1, ValueTerm(a, score, score(p), value)), Sum(x.limit + 1, WeightTerm(a, score, score(p)))))
  {
    SumsToTheEnd(x, a, d, score, value, p);
    ExactDivides(a.m);
    var acc, total := Sum(x.limit + 1, ValueTerm(a, score, score(p), value)), Sum(x.limit + 1, WeightTerm(a, score, score(p)));
    MeanEitherWay(acc, total);
    hide ExactMath, Exact, Times, Over, Shows, Query.SumTo, Query.AccTo, Query.MaxTo, Sum, MaskVanishes;
  }

  // The numbers a query row meets: its scaled scores, and column d of the values.
  ghost function ScoresOf(a: Attn<real, real>, q: seq<real>, k: seq<real>, Sq: nat, Skv: nat, D: nat, bh: nat, i: nat): nat -> real {
    (j: nat) => Scaled(a, q, k, Sq, Skv, D, bh, i, j)
  }

  ghost function ColumnOf(v: seq<real>, Skv: nat, D: nat, bh: nat, d: nat): nat -> real {
    (j: nat) => Flat(v, Skv, D, bh, j, d)
  }

  /** Every element of the output is the mean of the visible values of its column, weighted by the exponentials of the scaled scores' distances
      below the largest one, and rounded once: key j is visible to query i unless the mask is causal and j > Skv - Sq + i. */
  lemma PrefillIsAttention(a: Attn<real, real>, q: seq<real>, k: seq<real>, v: seq<real>, BH: nat, Sq: nat, Skv: nat, D: nat, causal: bool,
      out: seq<real>, bh: nat, i: nat, d: nat, limit: nat) returns (p: nat)
    requires ExactMath(a.m) && a.m.sqrt(D as real) != 0.0 && IsPrefill(a, q, k, v, BH, Sq, Skv, D, causal, out)
    requires |q| == BH * Sq * D && |k| == BH * Skv * D && |v| == BH * Skv * D && bh < BH && i < Sq && d < D
    requires limit < Skv && limit == if causal then Skv - Sq + i else Skv - 1
    requires forall j: nat | j <= limit :: a.negInf <= ScoresOf(a, q, k, Sq, Skv, D, bh, i)(j)
    requires limit + 1 < Skv ==> MaskVanishes(a, ScoresOf(a, q, k, Sq, Skv, D, bh, i), limit)
    ensures p <= limit && forall j: nat | j <= limit ::
      ScoresOf(a, q, k, Sq, Skv, D, bh, i)(j) <= ScoresOf(a, q, k, Sq, Skv, D, bh, i)(p)
    ensures var score, value := ScoresOf(a, q, k, Sq, Skv, D, bh, i), ColumnOf(v, Skv, D, bh, d);
      var total := Sum(limit + 1, WeightTerm(a, score, score(p)));
      total != 0.0 ==> Flat(out, Sq, D, bh, i, d) == a.m.num.down(Over(Sum(limit + 1, ValueTerm(a, score, score(p), value)), total))
  {
    hide *;
    QueryShows(a, q, k, v, BH, Sq, Skv, D, causal, bh, i, d, limit);
    OutCell(a, q, k, v, BH, Sq, Skv, D, causal, out, bh, i, d);
    p := Attends(QueryAt(a.m.num, q, k, v, Sq, Skv, D, causal, bh, i), a, d,
                 ScoresOf(a, q, k, Sq, Skv, D, bh, i), ColumnOf(v, Skv, D, bh, d));
  }

  lemma OutCell(a: Attn<real, real>, q: seq<real>, k: seq<real>, v: seq<real>, BH: nat, Sq: nat, Skv: nat, D: nat, causal: bool,
      out: seq<real>, bh: nat, i: nat, d: nat)
    requires IsPrefill(a, q, k, v, BH, Sq, Skv, D, causal, out) && bh < BH && i < Sq && d < D
    ensures Flat(out, Sq, D, bh, i, d) == QueryAt(a.m.num, q, k, v, Sq, Skv, D, causal, bh, i).Out(a, d)
  {
    FlatIsAt(a.m.num, out, BH, Sq, D, bh, i, d);
    hide Query.Out, Flat, QueryAt;
  }

  lemma Attends(x: Query<real>, a: Attn<real, real>, d: nat, score: nat -> real, value: nat -> real) returns (p: nat)
    requires ExactMath(a.m) && Shows(x, a, d, score, value) && 0 <= x.limit < x.kv
    requires x.limit + 1 < x.kv ==> MaskVanishes(a, score, x.limit)
    ensures p <= x.limit && forall j: nat | j <= x.limit :: score(j) <= score(p)
    ensures var total := Sum(x.limit + 1, WeightTerm(a, score, score(p)));
      total != 0.0 ==> x.Out(a, d) == a.m.num.down(Over(Sum(x.limit + 1, ValueTerm(a, score, score(p), value)), total))
  {
    hide *;
    MaxIsMax(a);
    p := MaxIsLargest(x, a, d, score, value, x.limit + 1);
    if Sum(x.limit + 1, WeightTerm(a, score, score(p))) != 0.0 {
      OutIs(x, a, d, score, value, p);
    }
  }

  lemma QueryShows(a: Attn<real, real>, q: seq<real>, k: seq<real>, v: seq<real>, BH: nat, Sq: nat, Skv: nat, D: nat, causal: bool,
      bh: nat, i: nat, d: nat, limit: nat)
    requires ExactMath(a.m) && a.m.sqrt(D as real) != 0.0
    requires |q| == BH * Sq * D && |k| == BH * Skv * D && |v| == BH * Skv * D && bh < BH && i < Sq && d < D
    requires limit < Skv && limit == if causal then Skv - Sq + i else Skv - 1
    requires forall j: nat | j <= limit :: a.negInf <= ScoresOf(a, q, k, Sq, Skv, D, bh, i)(j)
    ensures var x := QueryAt(a.m.num, q, k, v, Sq, Skv, D, causal, bh, i);
      x.limit == limit && x.kv == Skv && Shows(x, a, d, ScoresOf(a, q, k, Sq, Skv, D, bh, i), ColumnOf(v, Skv, D, bh, d))
  {
    var x := QueryAt(a.m.num, q, k, v, Sq, Skv, D, causal, bh, i);
    assert forall j: nat :: x.v(j, d) == At(a.m.num, v, Skv, D, bh, j, d);
    hide ExactMath, Scaled, Flat, At, Query.Score;
    forall j: nat | j <= limit
      ensures x.Score(a, j) == ScoresOf(a, q, k, Sq, Skv, D, bh, i)(j) && x.v(j, d) == ColumnOf(v, Skv, D, bh, d)(j)
    {
      ScoreIsScaled(a, q, k, v, BH, Sq, Skv, D, causal, bh, i, j);
      FlatIsAt(a.m.num, v, BH, Skv, D, bh, j, d);
    }
  }
}
