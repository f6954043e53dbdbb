/** Attention over a KV cache: the append and prefill loops, and why decoding token by token agrees with the one-shot causal prefill. */
module Attentions {
  import opened Wavelets
  import opened Mesh
  import opened TiledGemms
  import opened CpuReferences

  // The fp32 operations plus the -inf that masks a score.
  datatype Attn<!H(!new), !F(!new)> = Attn(m: Math<H, F>, negInf: F)

  /** One query row against `kv` keys and values; keys past `limit` are masked. */
  datatype Query<!H(!new)> = Query(q: nat -> H, k: (nat, nat) -> H, v: (nat, nat) -> H, depth: nat, kv: nat, limit: int)
  {
    function Dot<F(!new)>(a: Attn<H, F>, j: nat, n: nat): F {
      if n == 0 then a.m.num.zero else a.m.num.Mac(Dot(a, j, n - 1), q(n - 1), k(j, n - 1))
    }

    function Score<F(!new)>(a: Attn<H, F>, j: nat): F {
      a.m.num.mul(Dot(a, j, depth), a.m.div(a.m.one, a.m.sqrt(a.m.ofNat(depth))))
    }

    // The running maximum skips masked keys.
    function MaxTo<F(!new)>(a: Attn<H, F>, n: nat): F {
      if n == 0 then a.negInf
      else if n - 1 > limit then MaxTo(a, n - 1)
      else a.m.max(MaxTo(a, n - 1), Score(a, n - 1))
    }

    function Masked<F(!new)>(a: Attn<H, F>, j: nat): F {
      if j > limit then a.negInf else Score(a, j)
    }

    function Weight<F(!new)>(a: Attn<H, F>, mx: F, j: nat): F {
      a.m.exp(a.m.sub(Masked(a, j), mx))
    }

    function SumTo<F(!new)>(a: Attn<H, F>, mx: F, n: nat): F {
      if n == 0 then a.m.num.zero else a.m.num.add(SumTo(a, mx, n - 1), Weight(a, mx, n - 1))
    }

    function AccTo<F(!new)>(a: Attn<H, F>, mx: F, d: nat, n: nat): F {
      if n == 0 then a.m.num.zero
      else a.m.num.add(AccTo(a, mx, d, n - 1), a.m.num.mul(Weight(a, mx, n - 1), a.m.num.up(v(n - 1, d))))
    }

    function Out<F(!new)>(a: Attn<H, F>, d: nat): H {
      var mx := MaxTo(a, kv);
      a.m.num.down(a.m.num.mul(AccTo(a, mx, d, kv), a.m.div(a.m.one, SumTo(a, mx, kv))))
    }

    // Keys past the limit weigh nothing: their weight is zero, and adding it (times any masked value) changes nothing.
    ghost predicate MaskNeutral<F(!new)>(a: Attn<H, F>, d: nat)
      requires 0 <= limit
    {
      var mx := MaxTo(a, limit + 1);
      WeightsVanish(a) && forall j: nat | limit < j < kv :: Unmoved(a, mx, d, j)
    }

    ghost predicate WeightsVanish<F(!new)>(a: Attn<H, F>)
      requires 0 <= limit
    {
      var mx := MaxTo(a, limit + 1);
      && a.m.exp(a.m.sub(a.negInf, mx)) == a.m.num.zero
      && a.m.num.add(SumTo(a, mx, limit + 1), a.m.num.zero) == SumTo(a, mx, limit + 1)
    }

    ghost predicate Unmoved<F(!new)>(a: Attn<H, F>, mx: F, d: nat, j: nat)
      requires 0 <= limit
    {
      a.m.num.add(AccTo(a, mx, d, limit + 1), a.m.num.mul(a.m.num.zero, a.m.num.up(v(j, d)))) == AccTo(a, mx, d, limit + 1)
    }
  }

  // ----- Masked keys drop out -----

  // The value is infinite or NaN: a weight of zero does not make it vanish.
  ghost predicate Poisons<H(!new), F(!new)>(x: Query<H>, a: Attn<H, F>, nan: F, d: nat, j: nat) {
    a.m.num.mul(a.m.num.zero, a.m.num.up(x.v(j, d))) == nan
  }

  ghost predicate Absorbing<H(!new), F(!new)>(a: Attn<H, F>, nan: F) {
    forall y :: a.m.num.add(nan, y) == nan && a.m.num.add(y, nan) == nan && a.m.num.mul(nan, y) == nan
  }

  // Finite masked values drop out, others poison.
  ghost predicate VanishOrPoison<H(!new), F(!new)>(x: Query<H>, a: Attn<H, F>, nan: F, d: nat)
    requires 0 <= x.limit
  {
    var mx := x.MaxTo(a, x.limit + 1);
    forall j: nat | x.limit < j < x.kv :: x.Unmoved(a, mx, d, j) || Poisons(x, a, nan, d, j)
  }

  // From a poisoning key on, the accumulator is NaN.
  lemma {:induction false} StaysPoisoned<H(!new), F(!new)>(x: Query<H>, a: Attn<H, F>, nan: F, mx: F, d: nat, j: nat, n: nat)
    requires Absorbing(a, nan) && a.m.exp(a.m.sub(a.negInf, mx)) == a.m.num.zero
    requires x.limit < j < n && Poisons(x, a, nan, d, j)
    ensures x.AccTo(a, mx, d, n) == nan
    decreases n
  {
    if j < n - 1 {
      StaysPoisoned(x, a, nan, mx, d, j, n - 1);
    }
  }

  lemma PoisonedOut<H(!new), F(!new)>(x: Query<H>, a: Attn<H, F>, nan: F, d: nat, j: nat)
    requires Absorbing(a, nan) && 0 <= x.limit < j < x.kv && x.WeightsVanish(a) && Poisons(x, a, nan, d, j)
    ensures x.Out(a, d) == a.m.num.down(nan)
  {
    MaxSkips(x, a, x.kv);
    StaysPoisoned(x, a, nan, x.MaxTo(a, x.kv), d, j, x.kv);
  }

  lemma {:induction false} MaxSkips<H(!new), F(!new)>(x: Query<H>, a: Attn<H, F>, n: nat)
    requires 0 <= x.limit < n
    ensures x.MaxTo(a, n) == x.MaxTo(a, x.limit + 1)
    decreases n
  {
    if n > x.limit + 1 {
      MaxSkips(x, a, n - 1);
    }
  }

  lemma {:induction false} MaskedDropOut<H(!new), F(!new)>(x: Query<H>, a: Attn<H, F>, d: nat, n: nat)
    requires 0 <= x.limit < n <= x.kv && x.MaskNeutral(a, d)
    ensures var mx := x.MaxTo(a, x.limit + 1);
      x.SumTo(a, mx, n) == x.SumTo(a, mx, x.limit + 1) && x.AccTo(a, mx, d, n) == x.AccTo(a, mx, d, x.limit + 1)
    decreases n
  {
    if n > x.limit + 1 {
      MaskedDropOut(x, a, d, n - 1);
      assert x.Unmoved(a, x.MaxTo(a, x.limit + 1), d, n - 1);
    }
  }

  // Two queries that see the same keys up to the first one's limit.
  ghost predicate SameUpTo<H(!new)>(x: Query<H>, y: Query<H>, d: nat) {
    && x.depth == y.depth && x.limit == y.limit
    && (forall e: nat | e < x.depth :: x.q(e) == y.q(e))
    && (forall j: nat, e: nat | j <= x.limit && e < x.depth :: x.k(j, e) == y.k(j, e))
    && (forall j: nat | j <= x.limit :: x.v(j, d) == y.v(j, d))
  }

  lemma {:induction false} SameDots<H(!new), F(!new)>(x: Query<H>, y: Query<H>, a: Attn<H, F>, d: nat, j: nat, n: nat)
    requires SameUpTo(x, y, d) && j <= x.limit && n <= x.depth
    ensures x.Dot(a, j, n) == y.Dot(a, j, n)
    decreases n
  {
    if n > 0 {
      SameDots(x, y, a, d, j, n - 1);
    }
  }

  lemma {:induction false} SameMax<H(!new), F(!new)>(x: Query<H>, y: Query<H>, a: Attn<H, F>, d: nat, n: nat)
    requires SameUpTo(x, y, d) && n <= x.limit + 1
    ensures x.MaxTo(a, n) == y.MaxTo(a, n)
    decreases n
  {
    if n > 0 {
      SameMax(x, y, a, d, n - 1);
      SameDots(x, y, a, d, n - 1, x.depth);
    }
  }

  lemma {:induction false} SameSums<H(!new), F(!new)>(x: Query<H>, y: Query<H>, a: Attn<H, F>, d: nat, mx: F, n: nat)
    requires SameUpTo(x, y, d) && n <= x.limit + 1
    ensures x.SumTo(a, mx, n) == y.SumTo(a, mx, n) && x.AccTo(a, mx, d, n) == y.AccTo(a, mx, d, n)
    decreases n
  {
    if n > 0 {
      SameSums(x, y, a, d, mx, n - 1);
      SameDots(x, y, a, d, n - 1, x.depth);
      assert x.Weight(a, mx, n - 1) == y.Weight(a, mx, n - 1);
    }
  }

  /** A masked query over many keys computes what the query over just the visible keys computes. */
  lemma MaskingIsTruncating<H(!new), F(!new)>(x: Query<H>, y: Query<H>, a: Attn<H, F>, d: nat)
    requires 0 <= x.limit < x.kv && y.kv == x.limit + 1 && SameUpTo(x, y, d) && x.MaskNeutral(a, d)
    ensures x.Out(a, d) == y.Out(a, d)
  {
    MaxSkips(x, a, x.kv);
    SameMax(x, y, a, d, y.kv);
    MaskedDropOut(x, a, d, x.kv);
    SameSums(x, y, a, d, x.MaxTo(a, x.kv), y.kv);
  }

  // ----- Tensors [BH, S, D], flat and row-major -----

  function Pos(S: nat, D: nat, bh: nat, s: nat, d: nat): nat {
    Index(D, d, Index(S, s, bh))
  }

  lemma PosInRange(BH: nat, S: nat, D: nat, bh: nat, s: nat, d: nat)
    requires bh < BH && s < S && d < D
    ensures Index(S, s, bh) < BH * S && Pos(S, D, bh, s, d) < BH * S * D
    ensures Quot(Index(S, s, bh), S) == bh && Rem(Index(S, s, bh), S) == s
  {
    QuotRemOf(S, BH, s, bh);
    assert S * BH == BH * S;
    IndexInverse(D, BH * S, d, Index(S, s, bh));
  }

  // Element of a tensor; reads outside it are never used.
  function At<H(!new), F(!new)>(num: Numbers<H, F>, t: seq<H>, S: nat, D: nat, bh: nat, s: nat, d: nat): H {
    if Pos(S, D, bh, s, d) < |t| then t[Pos(S, D, bh, s, d)] else num.ZeroH()
  }

  // Query row i of batch-head bh.
  function QueryAt<H(!new), F(!new)>(num: Numbers<H, F>, q: seq<H>, k: seq<H>, v: seq<H>, Sq: nat, Skv: nat, D: nat, causal: bool,
      bh: nat, i: nat): Query<H> {
    Query((d: nat) => At(num, q, Sq, D, bh, i, d), (j: nat, d: nat) => At(num, k, Skv, D, bh, j, d),
          (j: nat, d: nat) => At(num, v, Skv, D, bh, j, d), D, Skv, if causal then Skv - Sq + i else Skv - 1)
  }

  lemma QueryShape<H(!new), F(!new)>(num: Numbers<H, F>, q: seq<H>, k: seq<H>, v: seq<H>, Sq: nat, Skv: nat, D: nat, causal: bool,
      bh: nat, i: nat)
    ensures var x := QueryAt(num, q, k, v, Sq, Skv, D, causal, bh, i); x.kv == Skv && x.depth == D
  {
  }

  ghost predicate IsPrefill<H(!new), F(!new)>(a: Attn<H, F>, q: seq<H>, k: seq<H>, v: seq<H>, BH: nat, Sq: nat, Skv: nat, D: nat,
      causal: bool, out: seq<H>) {
    && |out| == BH * Sq * D
    && forall bh, i, d | 0 <= bh < BH && 0 <= i < Sq && 0 <= d < D ::
         At(a.m.num, out, Sq, D, bh, i, d) == QueryAt(a.m.num, q, k, v, Sq, Skv, D, causal, bh, i).Out(a, d)
  }

  // Concatenation along the sequence axis.
  ghost predicate IsAppend<H(!new), F(!new)>(num: Numbers<H, F>, cache: seq<H>, neu: seq<H>, BH: nat, Sc: nat, Sn: nat, D: nat, out: seq<H>) {
    && |out| == BH * (Sc + Sn) * D
    && forall bh, s, d | 0 <= bh < BH && 0 <= s < Sc + Sn && 0 <= d < D :: Appended(num, cache, neu, Sc, Sn, D, out, bh, s, d)
  }

  ghost predicate Appended<H(!new), F(!new)>(num: Numbers<H, F>, cache: seq<H>, neu: seq<H>, Sc: nat, Sn: nat, D: nat, out: seq<H>,
      bh: nat, s: nat, d: nat) {
    At(num, out, Sc + Sn, D, bh, s, d) == if s < Sc then At(num, cache, Sc, D, bh, s, d) else At(num, neu, Sn, D, bh, s - Sc, d)
  }

  ghost predicate IsToken<H(!new), F(!new)>(num: Numbers<H, F>, whole: seq<H>, BH: nat, S: nat, D: nat, s: nat, token: seq<H>) {
    && |token| == BH * 1 * D
    && forall bh, d | 0 <= bh < BH && 0 <= d < D :: At(num, token, 1, D, bh, 0, d) == At(num, whole, S, D, bh, s, d)
  }

  ghost predicate GrownBy<H(!new), F(!new)>(num: Numbers<H, F>, whole: seq<H>, BH: nat, S: nat, D: nat, s: nat,
      before: seq<H>, token: seq<H>, cache: seq<H>) {
    IsToken(num, whole, BH, S, D, s, token) && IsAppend(num, before, token, BH, s, 1, D, cache)
  }

  // A cache grown from nothing by appending token 0, token 1, ... of a whole sequence, one at a time.
  ghost predicate GrownFrom<H(!new), F(!new)>(num: Numbers<H, F>, whole: seq<H>, BH: nat, S: nat, D: nat, n: nat, cache: seq<H>) {
    if n == 0 then cache == []
    else
      var s := n - 1;
      exists before: seq<H>, token: seq<H> ::
        GrownFrom(num, whole, BH, S, D, s, before) && GrownBy(num, whole, BH, S, D, s, before, token, cache)
  }

  // The cache holds the first n tokens of the sequence.
  ghost predicate HoldsFirst<H(!new), F(!new)>(num: Numbers<H, F>, whole: seq<H>, BH: nat, S: nat, D: nat, n: nat, cache: seq<H>) {
    forall bh, s, d | 0 <= bh < BH && 0 <= s < n && 0 <= d < D ::
      At(num, cache, n, D, bh, s, d) == At(num, whole, S, D, bh, s, d)
  }

  lemma AppendHolds<H(!new), F(!new)>(num: Numbers<H, F>, whole: seq<H>, BH: nat, S: nat, D: nat, p: nat,
      before: seq<H>, token: seq<H>, cache: seq<H>)
    requires HoldsFirst(num, whole, BH, S, D, p, before) && GrownBy(num, whole, BH, S, D, p, before, token, cache)
    ensures HoldsFirst(num, whole, BH, S, D, p + 1, cache)
  {
    hide At;
    forall bh, s, d | 0 <= bh < BH && 0 <= s < p + 1 && 0 <= d < D
      ensures At(num, cache, p + 1, D, bh, s, d) == At(num, whole, S, D, bh, s, d)
    {
      assert Appended(num, before, token, p, 1, D, cache, bh, s, d);
    }
  }

  /** A cache grown token by token holds exactly the first tokens of the sequence. */
  lemma {:induction false} GrownHolds<H(!new), F(!new)>(num: Numbers<H, F>, whole: seq<H>, BH: nat, S: nat, D: nat, n: nat, cache: seq<H>)
    requires GrownFrom(num, whole, BH, S, D, n, cache)
    ensures HoldsFirst(num, whole, BH, S, D, n, cache)
    decreases n
  {
    hide GrownBy;
    if n > 0 {
      var p: nat := n - 1;
      var before: seq<H>, token: seq<H> :|
        GrownFrom(num, whole, BH, S, D, p, before) && GrownBy(num, whole, BH, S, D, p, before, token, cache);
      GrownHolds(num, whole, BH, S, D, p, before);
      hide HoldsFirst;
      AppendHolds(num, whole, BH, S, D, p, before, token, cache);
    }
  }

  /** Row i of one causal prefill over S tokens is the single-query prefill against the cache grown from its first i + 1 tokens. */
  lemma DecodeMatchesPrefill<H(!new), F(!new)>(a: Attn<H, F>, q: seq<H>, k: seq<H>, v: seq<H>, BH: nat, S: nat, D: nat, i: nat,
      qi: seq<H>, ki: seq<H>, vi: seq<H>, full: seq<H>, step: seq<H>, bh: nat, d: nat)
    requires bh < BH && i < S && d < D
    requires IsPrefill(a, q, k, v, BH, S, S, D, true, full)
    requires IsToken(a.m.num, q, BH, S, D, i, qi)
    requires GrownFrom(a.m.num, k, BH, S, D, i + 1, ki) && GrownFrom(a.m.num, v, BH, S, D, i + 1, vi)
    requires IsPrefill(a, qi, ki, vi, BH, 1, i + 1, D, true, step)
    requires QueryAt(a.m.num, q, k, v, S, S, D, true, bh, i).MaskNeutral(a, d)
    ensures At(a.m.num, full, S, D, bh, i, d) == At(a.m.num, step, 1, D, bh, 0, d)
  {
    var x := QueryAt(a.m.num, q, k, v, S, S, D, true, bh, i);
    var y := QueryAt(a.m.num, qi, ki, vi, 1, i + 1, D, true, bh, 0);
    SameView(a, q, k, v, BH, S, D, i, qi, ki, vi, bh, d);
    assert At(a.m.num, full, S, D, bh, i, d) == x.Out(a, d);
    assert At(a.m.num, step, 1, D, bh, 0, d) == y.Out(a, d);
    hide GrownFrom, IsToken, IsPrefill, At, SameUpTo, Query.MaskNeutral, Query.Out;
    MaskingIsTruncating(x, y, a, d);
  }

  /** With vanishing masked weights the two agree exactly when no value behind the mask is infinite or NaN, or decoding gives NaN anyway. */
  lemma DecodeMatchesPrefillIff<H(!new), F(!new)>(a: Attn<H, F>, q: seq<H>, k: seq<H>, v: seq<H>, BH: nat, S: nat, D: nat, i: nat,
      qi: seq<H>, ki: seq<H>, vi: seq<H>, full: seq<H>, step: seq<H>, bh: nat, d: nat, nan: F)
    requires bh < BH && i < S && d < D
    requires IsPrefill(a, q, k, v, BH, S, S, D, true, full)
    requires IsToken(a.m.num, q, BH, S, D, i, qi)
    requires GrownFrom(a.m.num, k, BH, S, D, i + 1, ki) && GrownFrom(a.m.num, v, BH, S, D, i + 1, vi)
    requires IsPrefill(a, qi, ki, vi, BH, 1, i + 1, D, true, step)
    requires Absorbing(a, nan) && QueryAt(a.m.num, q, k, v, S, S, D, true, bh, i).WeightsVanish(a)
    requires VanishOrPoison(QueryAt(a.m.num, q, k, v, S, S, D, true, bh, i), a, nan, d)
    ensures At(a.m.num, full, S, D, bh, i, d) == At(a.m.num, step, 1, D, bh, 0, d) <==>
      (forall j | i < j < S :: !Poisons(QueryAt(a.m.num, q, k, v, S, S, D, true, bh, i), a, nan, d, j)) ||
      At(a.m.num, step, 1, D, bh, 0, d) == a.m.num.down(nan)
  {
    var x := QueryAt(a.m.num, q, k, v, S, S, D, true, bh, i);
    assert x.limit == i && x.kv == S;
    if j :| i < j < S && Poisons(x, a, nan, d, j) {
      assert At(a.m.num, full, S, D, bh, i, d) == x.Out(a, d);
      hide GrownFrom, IsToken, IsPrefill, At, Query.WeightsVanish, Query.Out, Absorbing, Poisons;
      PoisonedOut(x, a, nan, d, j);
    } else {
      assert x.MaskNeutral(a, d);
      hide GrownFrom, IsToken, IsPrefill, At, Query.MaskNeutral, Query.Out, Absorbing, Poisons;
      DecodeMatchesPrefill(a, q, k, v, BH, S, D, i, qi, ki, vi, full, step, bh, d);
    }
  }

  lemma SameView<H(!new), F(!new)>(a: Attn<H, F>, q: seq<H>, k: seq<H>, v: seq<H>, BH: nat, S: nat, D: nat, i: nat,
      qi: seq<H>, ki: seq<H>, vi: seq<H>, bh: nat, d: nat)
    requires bh < BH && i < S && d < D
    requires IsToken(a.m.num, q, BH, S, D, i, qi)
    requires GrownFrom(a.m.num, k, BH, S, D, i + 1, ki) && GrownFrom(a.m.num, v, BH, S, D, i + 1, vi)
    ensures SameUpTo(QueryAt(a.m.num, q, k, v, S, S, D, true, bh, i), QueryAt(a.m.num, qi, ki, vi, 1, i + 1, D, true, bh, 0), d)
  {
    GrownHolds(a.m.num, k, BH, S, D, i + 1, ki);
    GrownHolds(a.m.num, v, BH, S, D, i + 1, vi);
    hide GrownFrom, At;
  }

  // ----- The loops -----

  datatype Tensor<H> = Tensor(b: nat, h: nat, s: nat, d: nat, data: seq<H>)
  {
    predicate Valid() {
      |data| == b * h * s * d
    }
  }

  // Copy one row of D elements into row r of the output.
  method CopyRow<H(!new)>(out: array<H>, rows: nat, D: nat, r: nat, src: seq<H>, base: nat, ghost f: (nat, nat) -> H)
    requires out.Length == rows * D && r < rows && base + D <= |src|
    requires forall d: nat | d < D :: f(r, d) == src[base + d]
    requires D > 0 ==> FilledTo(out[..], D, Index(D, 0, r), f)
    modifies out
    ensures D > 0 ==> FilledTo(out[..], D, Index(D, 0, r + 1), f)
  {
    hide FilledTo, Index;
    for d := 0 to D
      invariant D > 0 ==> FilledTo(out[..], D, Index(D, d, r), f)
    {
      FillNext(out[..], rows, D, f, r, d);
      NextColumn(D, r, d);
      ghost var before := out[..];
      out[Index(D, d, r)] := src[base + d];
      assert out[..] == before[Index(D, d, r) := f(r, d)];
    }
    RowEnds(D, r);
  }

  // Where row s of batch-head bh starts.
  lemma RowBase(BH: nat, S: nat, D: nat, bh: nat, s: nat)
    requires bh < BH && s < S
    ensures Index(S, s, bh) < BH * S
    ensures Index(D, 0, Index(S, s, bh)) + D <= BH * S * D
    ensures S > 0 && Quot(Index(S, s, bh), S) == bh && Rem(Index(S, s, bh), S) == s
    ensures forall d: nat :: Pos(S, D, bh, s, d) == Index(D, 0, Index(S, s, bh)) + d
  {
    QuotRemOf(S, BH, s, bh);
    assert S * BH == BH * S;
    MulMonotone(Index(S, s, bh) + 1, BH * S, D);
    RowEnds(D, Index(S, s, bh));
  }

  function AppendedElem<H(!new), F(!new)>(num: Numbers<H, F>, cache: seq<H>, neu: seq<H>, Sc: nat, Sn: nat, D: nat, r: nat, d: nat): H
    requires Sc + Sn > 0
  {
    var bh, s := Quot(r, Sc + Sn), Rem(r, Sc + Sn);
    if s < Sc then At(num, cache, Sc, D, bh, s, d) else At(num, neu, Sn, D, bh, s - Sc, d)
  }

  lemma AppendFilled<H(!new), F(!new)>(num: Numbers<H, F>, cache: seq<H>, neu: seq<H>, BH: nat, Sc: nat, Sn: nat, D: nat, out: seq<H>,
      f: (nat, nat) -> H)
    requires |out| == BH * (Sc + Sn) * D
    requires D > 0 ==> FilledTo(out, D, Index(D, 0, BH * (Sc + Sn)), f)
    requires forall r: nat, d: nat | Sc + Sn > 0 :: f(r, d) == AppendedElem(num, cache, neu, Sc, Sn, D, r, d)
    ensures IsAppend(num, cache, neu, BH, Sc, Sn, D, out)
  {
    forall bh, s, d | 0 <= bh < BH && 0 <= s < Sc + Sn && 0 <= d < D
      ensures Appended(num, cache, neu, Sc, Sn, D, out, bh, s, d)
    {
      RowBase(BH, Sc + Sn, D, bh, s);
      FilledCell(out, BH * (Sc + Sn), D, f, Index(Sc + Sn, s, bh), d);
    }
  }

  // Copy `count` rows of each batch-head, from row `from` of the output on.
  method CopyRows<H(!new)>(out: array<H>, BH: nat, S: nat, D: nat, bh: nat, src: seq<H>, count: nat, from: nat, ghost f: (nat, nat) -> H)
    requires out.Length == BH * S * D && bh < BH && from + count <= S && |src| == BH * count * D
    requires forall s: nat, d: nat | s < count && d < D && Pos(count, D, bh, s, d) < |src| ::
               f(Index(S, from + s, bh), d) == src[Pos(count, D, bh, s, d)]
    requires D > 0 ==> FilledTo(out[..], D, Index(D, 0, Index(S, from, bh)), f)
    modifies out
    ensures D > 0 ==> FilledTo(out[..], D, Index(D, 0, Index(S, from + count, bh)), f)
  {
    hide FilledTo;
    for s := 0 to count
      invariant D > 0 ==> FilledTo(out[..], D, Index(D, 0, Index(S, from + s, bh)), f)
    {
      RowBase(BH, S, D, bh, from + s);
      RowBase(BH, count, D, bh, s);
      NextColumn(S, bh, from + s);
      hide Index;
      var r, base := Index(S, from + s, bh), Index(D, 0, Index(count, s, bh));
      forall d: nat | d < D
        ensures f(r, d) == src[base + d]
      {
        assert Pos(count, D, bh, s, d) == base + d;
      }
      CopyRow(out, BH * S, D, r, src, base, f);
    }
  }

  /** Append the new keys or values to the cache; a shape mismatch is reported. */
  method RunAppend<H(!new), F(!new)>(num: Numbers<H, F>, cache: Tensor<H>, neu: Tensor<H>) returns (r: Option<Tensor<H>>)
    requires cache.Valid() && neu.Valid()
    ensures r.None? <==> neu.b != cache.b || neu.h != cache.h || neu.d != cache.d
    ensures r.Some? ==>
      && r.value.Valid() && r.value.b == cache.b && r.value.h == cache.h && r.value.s == cache.s + neu.s && r.value.d == cache.d
      && IsAppend(num, cache.data, neu.data, cache.b * cache.h, cache.s, neu.s, cache.d, r.value.data)
  {
    if neu.b != cache.b || neu.h != cache.h || neu.d != cache.d {
      return None;
    }
    var BH, Sc, Sn, D := cache.b * cache.h, cache.s, neu.s, cache.d;
    var out := AppendRows(num, cache.data, neu.data, BH, Sc, Sn, D);
    return Some(Tensor(cache.b, cache.h, Sc + Sn, D, out[..]));
  }

  // Element d of row s of head bh, counted from the start.
  function FlatIndex(S: nat, D: nat, bh: nat, s: nat, d: nat): nat {
    (bh * S + s) * D + d
  }

  ghost predicate SameElement<H>(t: seq<H>, i: nat, u: seq<H>, j: nat) {
    i < |t| && j < |u| && t[i] == u[j]
  }

  /** In the flat buffers: row s of a head comes from row s of the same head of the cache, or else from the new rows. */
  lemma AppendedElement<H(!new), F(!new)>(num: Numbers<H, F>, cache: seq<H>, neu: seq<H>, BH: nat, Sc: nat, Sn: nat, D: nat, out: seq<H>,
      bh: nat, s: nat, d: nat)
    requires IsAppend(num, cache, neu, BH, Sc, Sn, D, out) && |cache| == BH * Sc * D && |neu| == BH * Sn * D
    requires bh < BH && s < Sc + Sn && d < D
    ensures s < Sc ==> SameElement(out, FlatIndex(Sc + Sn, D, bh, s, d), cache, FlatIndex(Sc, D, bh, s, d))
    ensures s >= Sc ==> SameElement(out, FlatIndex(Sc + Sn, D, bh, s, d), neu, FlatIndex(Sn, D, bh, s - Sc, d))
  {
    PosInRange(BH, Sc + Sn, D, bh, s, d);
    assert Appended(num, cache, neu, Sc, Sn, D, out, bh, s, d);
    if s < Sc {
      PosInRange(BH, Sc, D, bh, s, d);
    } else {
      PosInRange(BH, Sn, D, bh, s - Sc, d);
    }
  }

  method AppendRows<H(!new), F(!new)>(num: Numbers<H, F>, cache: seq<H>, neu: seq<H>, BH: nat, Sc: nat, Sn: nat, D: nat) returns (out: array<H>)
    requires |cache| == BH * Sc * D && |neu| == BH * Sn * D
    ensures fresh(out) && IsAppend(num, cache, neu, BH, Sc, Sn, D, out[..])
  {
    hide FilledTo, IsAppend;
    var S := Sc + Sn;
    out := new H[BH * S * D](_ => num.ZeroH());
    ghost var f := (r: nat, d: nat) => if S > 0 then AppendedElem(num, cache, neu, Sc, Sn, D, r, d) else num.ZeroH();
    FillStarts(out[..], D, f);
    for bh := 0 to BH
      invariant D > 0 ==> FilledTo(out[..], D, Index(D, 0, Index(S, 0, bh)), f)
    {
      RowsOf(num, cache, neu, BH, Sc, Sn, D, bh);
      RowEnds(S, bh);
      hide Index, AppendedElem;
      CopyRows(out, BH, S, D, bh, cache, Sc, 0, f);
      CopyRows(out, BH, S, D, bh, neu, Sn, Sc, f);
    }
    AppendFilled(num, cache, neu, BH, Sc, Sn, D, out[..], f);
  }

  lemma RowsOf<H(!new), F(!new)>(num: Numbers<H, F>, cache: seq<H>, neu: seq<H>, BH: nat, Sc: nat, Sn: nat, D: nat, bh: nat)
    requires |cache| == BH * Sc * D && |neu| == BH * Sn * D && bh < BH
    ensures forall s: nat, d: nat | s < Sc && d < D && Pos(Sc, D, bh, s, d) < |cache| ::
      AppendedElem(num, cache, neu, Sc, Sn, D, Index(Sc + Sn, s, bh), d) == cache[Pos(Sc, D, bh, s, d)]
    ensures forall s: nat, d: nat | s < Sn && d < D && Pos(Sn, D, bh, s, d) < |neu| ::
      AppendedElem(num, cache, neu, Sc, Sn, D, Index(Sc + Sn, Sc + s, bh), d) == neu[Pos(Sn, D, bh, s, d)]
  {
    var S := Sc + Sn;
    forall s: nat | s < S
      ensures Quot(Index(S, s, bh), S) == bh && Rem(Index(S, s, bh), S) == s
    {
      QuotRemOf(S, BH, s, bh);
    }
    hide Index, Quot, Rem;
  }

  // Raw scores of one query row; masked entries hold -inf and do not enter the maximum.
  method ScoreRow<H(!new), F(!new)>(a: Attn<H, F>, q: seq<H>, k: seq<H>, ghost v: seq<H>, BH: nat, Sq: nat, Skv: nat, D: nat, causal: bool,
      bh: nat, i: nat, score: array<F>) returns (mx: F)
    requires |q| == BH * Sq * D && |k| == BH * Skv * D && bh < BH && i < Sq && score.Length == Skv
    modifies score
    ensures var x := QueryAt(a.m.num, q, k, v, Sq, Skv, D, causal, bh, i);
      && mx == x.MaxTo(a, Skv)
      && forall j | 0 <= j < Skv :: score[j] == x.Masked(a, j)
  {
    ghost var x := QueryAt(a.m.num, q, k, v, Sq, Skv, D, causal, bh, i);
    var limit := if causal then Skv - Sq + i else Skv - 1;
    var scale := a.m.div(a.m.one, a.m.sqrt(a.m.ofNat(D)));
    hide Query.Score, Query.Dot, At, Numbers.Mac;
    mx := a.negInf;
    for j := 0 to Skv
      invariant mx == x.MaxTo(a, j)
      invariant forall l | 0 <= l < j :: score[l] == x.Masked(a, l)
    {
      if j > limit {
        score[j] := a.negInf;
      } else {
        score[j] := ScoreOne(a, q, k, v, BH, Sq, Skv, D, causal, bh, i, j, scale);
        mx := a.m.max(mx, score[j]);
      }
    }
  }

  method ScoreOne<H(!new), F(!new)>(a: Attn<H, F>, q: seq<H>, k: seq<H>, ghost v: seq<H>, BH: nat, Sq: nat, Skv: nat, D: nat, causal: bool,
      bh: nat, i: nat, j: nat, scale: F) returns (s: F)
    requires |q| == BH * Sq * D && |k| == BH * Skv * D && bh < BH && i < Sq && j < Skv
    requires scale == a.m.div(a.m.one, a.m.sqrt(a.m.ofNat(D)))
    ensures s == QueryAt(a.m.num, q, k, v, Sq, Skv, D, causal, bh, i).Score(a, j)
  {
    var dot := DotRow(a, q, k, v, BH, Sq, Skv, D, causal, bh, i, j);
    s := a.m.num.mul(dot, scale);
  }

  method DotRow<H(!new), F(!new)>(a: Attn<H, F>, q: seq<H>, k: seq<H>, ghost v: seq<H>, BH: nat, Sq: nat, Skv: nat, D: nat, causal: bool,
      bh: nat, i: nat, j: nat) returns (dot: F)
    requires |q| == BH * Sq * D && |k| == BH * Skv * D && bh < BH && i < Sq && j < Skv
    ensures dot == QueryAt(a.m.num, q, k, v, Sq, Skv, D, causal, bh, i).Dot(a, j, D)
  {
    ghost var x := QueryAt(a.m.num, q, k, v, Sq, Skv, D, causal, bh, i);
    dot := a.m.num.zero;
    for d := 0 to D
      invariant dot == x.Dot(a, j, d)
    {
      PosInRange(BH, Sq, D, bh, i, d);
      PosInRange(BH, Skv, D, bh, j, d);
      hide Pos;
      dot := a.m.num.add(dot, a.m.num.mul(a.m.num.up(q[Pos(Sq, D, bh, i, d)]), a.m.num.up(k[Pos(Skv, D, bh, j, d)])));
    }
  }

  // Scores to unnormalised weights, in place, and their sum.
  method WeighRow<H(!new), F(!new)>(a: Attn<H, F>, ghost x: Query<H>, score: array<F>, mx: F) returns (sum: F)
    requires score.Length == x.kv && forall j | 0 <= j < x.kv :: score[j] == x.Masked(a, j)
    modifies score
    ensures sum == x.SumTo(a, mx, x.kv) && forall j | 0 <= j < x.kv :: score[j] == x.Weight(a, mx, j)
  {
    hide Query.Masked;
    sum := a.m.num.zero;
    for j := 0 to score.Length
      invariant sum == x.SumTo(a, mx, j)
      invariant forall l | 0 <= l < j :: score[l] == x.Weight(a, mx, l)
      invariant forall l | j <= l < x.kv :: score[l] == x.Masked(a, l)
    {
      score[j] := a.m.exp(a.m.sub(score[j], mx));
      sum := a.m.num.add(sum, score[j]);
    }
  }

  method AccumulateValues<H(!new), F(!new)>(a: Attn<H, F>, ghost q: seq<H>, ghost k: seq<H>, v: seq<H>, BH: nat, Sq: nat, Skv: nat, D: nat,
      causal: bool, bh: nat, i: nat, d: nat, score: array<F>, ghost mx: F) returns (acc: F)
    requires |v| == BH * Skv * D && bh < BH && i < Sq && d < D && score.Length == Skv
    requires var x := QueryAt(a.m.num, q, k, v, Sq, Skv, D, causal, bh, i); forall j | 0 <= j < Skv :: score[j] == x.Weight(a, mx, j)
    ensures acc == QueryAt(a.m.num, q, k, v, Sq, Skv, D, causal, bh, i).AccTo(a, mx, d, Skv)
  {
    ghost var x := QueryAt(a.m.num, q, k, v, Sq, Skv, D, causal, bh, i);
    acc := a.m.num.zero;
    for j := 0 to Skv
      invariant acc == x.AccTo(a, mx, d, j)
    {
      PosInRange(BH, Skv, D, bh, j, d);
      hide Pos, Query.Weight;
      acc := a.m.num.add(acc, a.m.num.mul(score[j], a.m.num.up(v[Pos(Skv, D, bh, j, d)])));
    }
  }

  function PrefillElem<H(!new), F(!new)>(a: Attn<H, F>, q: seq<H>, k: seq<H>, v: seq<H>, Sq: nat, Skv: nat, D: nat, causal: bool, r: nat, d: nat): H
    requires Sq > 0
  {
    QueryAt(a.m.num, q, k, v, Sq, Skv, D, causal, Quot(r, Sq), Rem(r, Sq)).Out(a, d)
  }

  lemma ElemIs<H(!new), F(!new)>(a: Attn<H, F>, q: seq<H>, k: seq<H>, v: seq<H>, Sq: nat, Skv: nat, D: nat, causal: bool,
      r: nat, bh: nat, i: nat, d: nat)
    requires Sq > 0 && Quot(r, Sq) == bh && Rem(r, Sq) == i
    ensures var x := QueryAt(a.m.num, q, k, v, Sq, Skv, D, causal, bh, i); var mx := x.MaxTo(a, Skv);
      PrefillElem(a, q, k, v, Sq, Skv, D, causal, r, d) ==
        a.m.num.down(a.m.num.mul(x.AccTo(a, mx, d, Skv), a.m.div(a.m.one, x.SumTo(a, mx, Skv))))
  {
  }

  // One output row.
  method AttendRow<H(!new), F(!new)>(a: Attn<H, F>, q: seq<H>, k: seq<H>, v: seq<H>, BH: nat, Sq: nat, Skv: nat, D: nat, causal: bool,
      bh: nat, i: nat, score: array<F>, out: array<H>, ghost f: (nat, nat) -> H)
    requires |q| == BH * Sq * D && |k| == BH * Skv * D && |v| == BH * Skv * D && bh < BH && i < Sq
    requires score.Length == Skv && out.Length == BH * Sq * D && score as object != out as object
    requires forall r: nat, d: nat :: f(r, d) == PrefillElem(a, q, k, v, Sq, Skv, D, causal, r, d)
    requires D > 0 ==> FilledTo(out[..], D, Index(D, 0, Index(Sq, i, bh)), f)
    modifies score, out
    ensures D > 0 ==> FilledTo(out[..], D, Index(D, 0, Index(Sq, i + 1, bh)), f)
  {
    hide FilledTo, Index, Quot, Rem, QueryAt, Query.Masked, Query.Weight, PrefillElem;
    ghost var x := QueryAt(a.m.num, q, k, v, Sq, Skv, D, causal, bh, i);
    QueryShape(a.m.num, q, k, v, Sq, Skv, D, causal, bh, i);
    RowBase(BH, Sq, D, bh, i);
    NextColumn(Sq, bh, i);
    var r := Index(Sq, i, bh);
    var mx := ScoreRow(a, q, k, v, BH, Sq, Skv, D, causal, bh, i, score);
    var sum := WeighRow(a, x, score, mx);
    var inv := a.m.div(a.m.one, sum);
    for d := 0 to D
      invariant D > 0 ==> FilledTo(out[..], D, Index(D, d, r), f)
      invariant forall j | 0 <= j < Skv :: score[j] == x.Weight(a, mx, j)
    {
      var acc := AccumulateValues(a, q, k, v, BH, Sq, Skv, D, causal, bh, i, d, score, mx);
      FillNext(out[..], BH * Sq, D, f, r, d);
      NextColumn(D, r, d);
      ElemIs(a, q, k, v, Sq, Skv, D, causal, r, bh, i, d);
      ghost var before := out[..];
      out[Index(D, d, r)] := a.m.num.down(a.m.num.mul(acc, inv));
      assert out[..] == before[Index(D, d, r) := f(r, d)];
    }
    RowEnds(D, r);
  }

  lemma PrefillFilled<H(!new), F(!new)>(a: Attn<H, F>, q: seq<H>, k: seq<H>, v: seq<H>, BH: nat, Sq: nat, Skv: nat, D: nat, causal: bool,
      out: seq<H>, f: (nat, nat) -> H)
    requires |out| == BH * Sq * D && (D > 0 ==> FilledTo(out, D, Index(D, 0, BH * Sq), f))
    requires Sq > 0 ==> forall r: nat, d: nat :: f(r, d) == PrefillElem(a, q, k, v, Sq, Skv, D, causal, r, d)
    ensures IsPrefill(a, q, k, v, BH, Sq, Skv, D, causal, out)
  {
    hide Query.Out, QueryAt;
    forall bh, i, d | 0 <= bh < BH && 0 <= i < Sq && 0 <= d < D
      ensures At(a.m.num, out, Sq, D, bh, i, d) == QueryAt(a.m.num, q, k, v, Sq, Skv, D, causal, bh, i).Out(a, d)
    {
      RowBase(BH, Sq, D, bh, i);
      FilledCell(out, BH * Sq, D, f, Index(Sq, i, bh), d);
    }
  }

  /** Scaled dot-product attention; a shape mismatch is reported. */
  method RunPrefill<H(!new), F(!new)>(a: Attn<H, F>, q: Tensor<H>, k: Tensor<H>, v: Tensor<H>, causal: bool) returns (r: Option<Tensor<H>>)
    requires q.Valid() && k.Valid() && v.Valid()
    ensures r.None? <==>
      k.b != q.b || k.h != q.h || k.d != q.d || v.b != q.b || v.h != q.h || v.s != k.s || v.d != q.d
    ensures r.Some? ==>
      && r.value.Valid() && r.value.b == q.b && r.value.h == q.h && r.value.s == q.s && r.value.d == q.d
      && IsPrefill(a, q.data, k.data, v.data, q.b * q.h, q.s, k.s, q.d, causal, r.value.data)
  {
    if k.b != q.b || k.h != q.h || k.d != q.d || v.b != q.b || v.h != q.h || v.s != k.s || v.d != q.d {
      return None;
    }
    var out := PrefillRows(a, q.data, k.data, v.data, q.b * q.h, q.s, k.s, q.d, causal);
    return Some(Tensor(q.b, q.h, q.s, q.d, out[..]));
  }

  method PrefillRows<H(!new), F(!new)>(a: Attn<H, F>, q: seq<H>, k: seq<H>, v: seq<H>, BH: nat, Sq: nat, Skv: nat, D: nat, causal: bool)
      returns (out: array<H>)
    requires |q| == BH * Sq * D && |k| == BH * Skv * D && |v| == BH * Skv * D
    ensures fresh(out) && IsPrefill(a, q, k, v, BH, Sq, Skv, D, causal, out[..])
  {
    hide FilledTo, IsPrefill, PrefillElem;
    out := new H[BH * Sq * D](_ => a.m.num.ZeroH());
    var score := new F[Skv](_ => a.m.num.zero);
    ghost var f := (r: nat, d: nat) => if Sq > 0 then PrefillElem(a, q, k, v, Sq, Skv, D, causal, r, d) else a.m.num.ZeroH();
    FillStarts(out[..], D, f);
    for bh := 0 to BH
      invariant D > 0 ==> FilledTo(out[..], D, Index(D, 0, Index(Sq, 0, bh)), f)
    {
      for i := 0 to Sq
        invariant D > 0 ==> FilledTo(out[..], D, Index(D, 0, Index(Sq, i, bh)), f)
      {
        hide Index;
        AttendRow(a, q, k, v, BH, Sq, Skv, D, causal, bh, i, score, out, f);
      }
      RowEnds(Sq, bh);
    }
    PrefillFilled(a, q, k, v, BH, Sq, Skv, D, causal, out[..], f);
  }
}
