/** SUMMA schedules, the lane arithmetic they run on, and the panel accumulate. */
module SummaPlans {
  import opened Wavelets
  import opened Mesh

  /** The CE datapath: 32-bit values of type F carried as 16-bit halves, and the multiply-add on them. */
  datatype Arith<!F(!new)> = Arith(zero: F, toHalf: F -> U16, fromHalf: U16 -> F, mulAdd: (F, F, F) -> F)
  {
    // One FMAC lane.
    function Fma(x: U16, y: U16, acc: U16): U16 {
      toHalf(mulAdd(fromHalf(x), fromHalf(y), fromHalf(acc)))
    }

    // Halves that were produced by toHalf survive the trip through a 32-bit register.
    ghost predicate Lawful() {
      forall v: F :: toHalf(fromHalf(toHalf(v))) == toHalf(v)
    }
  }

  const LANES: nat := 4

  datatype SummaPlan = SummaPlan(
    m: nat, n: nat, k: nat,
    gridP: nat, tileM: nat, tileN: nat, tileK: nat, steps: nat,
    aColor0: Color, aColor1: Color, bColor0: Color, bColor1: Color,
    xDone: Color, yDone: Color)
  {
    // What the execution asserts of its plan, and what the lowering establishes.
    ghost predicate WellFormed() {
      && gridP > 0 && tileM > 0 && tileK > 0 && steps > 0
      && tileN == tileM
      && m == gridP * tileM && n == gridP * tileM && k == steps * tileK
      && (forall i | 0 <= i < 6 :: Routable(Colors()[i]))
      && (forall i, j | 0 <= i < j < 6 :: Colors()[i] != Colors()[j])
    }

    function Colors(): seq<Color> {
      [aColor0, aColor1, bColor0, bColor1, xDone, yDone]
    }

    function PanelSize(): nat {
      tileM * tileK
    }

    // Ping-pong colors of a step.
    function AColor(step: nat): Color {
      if step % 2 == 0 then aColor0 else aColor1
    }

    function BColor(step: nat): Color {
      if step % 2 == 0 then bColor0 else bColor1
    }
  }

  predicate Divides(d: nat, n: nat) {
    d > 0 && n % d == 0
  }

  // The widest slab no wider than the preference (8 when none is given) that tiles k exactly.
  method ChooseTileK(k: nat, pref: int) returns (t: nat)
    requires k > 0
    ensures Divides(t, k) && t <= k
    ensures var bound := if pref <= 0 then 8 else pref;
      t <= bound && forall d | t < d <= bound && d <= k :: !Divides(d, k)
  {
    var p := if pref <= 0 then 8 else pref;
    t := if p < k then p else k;
    while t > 1 && k % t != 0
      invariant 1 <= t <= p && t <= k
      invariant forall d | t < d <= p && d <= k :: !Divides(d, k)
    {
      t := t - 1;
    }
  }

  lemma DivExact(n: nat, d: nat)
    requires Divides(d, n)
    ensures n == (n / d) * d
    ensures n > 0 ==> n / d > 0
  {
  }

  // A plan whose dimensions divide the grid can be executed.
  method LowerMatmulToSumma(m: nat, n: nat, k: nat, gridP: nat, tileK: int) returns (plan: SummaPlan)
    requires m > 0 && n > 0 && k > 0 && gridP > 0
    requires Divides(gridP, m) && Divides(gridP, n) && m / gridP == n / gridP
    ensures plan.WellFormed() && plan.m == m && plan.n == n && plan.k == k && plan.gridP == gridP
    ensures tileK > 0 ==> plan.tileK <= tileK
  {
    var t := ChooseTileK(k, tileK);
    DivExact(m, gridP);
    DivExact(n, gridP);
    DivExact(k, t);
    plan := SummaPlan(m, n, k, gridP, m / gridP, n / gridP, t, k / t, 0, 1, 2, 3, 4, 5);
  }

  // ----- The panel accumulate -----

  // Element (r, c) of a row-major rows x cols matrix.
  function Elem<F>(a: seq<F>, rows: nat, cols: nat, r: nat, c: nat): F
    requires |a| == rows * cols && r < rows && c < cols
  {
    IndexInverse(cols, rows, c, r);
    a[Index(cols, c, r)]
  }

  // Multiply-accumulate row r of the A panel with column c of the B panel, left to right.
  function LaneFold<F(!new)>(ar: Arith<F>, ab: seq<F>, bb: seq<F>, T: nat, TK: nat, r: nat, c: nat, kk: nat, acc: U16): U16
    requires |ab| == T * TK && |bb| == TK * T && r < T && c < T && kk <= TK
    decreases kk
  {
    if kk == 0 then acc
    else
      ar.Fma(ar.toHalf(Elem(ab, T, TK, r, kk - 1)), ar.toHalf(Elem(bb, TK, T, kk - 1, c)),
             LaneFold(ar, ab, bb, T, TK, r, c, kk - 1, acc))
  }

  // The C tile after one panel accumulate, cell by cell.
  function Accumulated<F(!new)>(ar: Arith<F>, ct: seq<F>, ab: seq<F>, bb: seq<F>, T: nat, TK: nat): (r: seq<F>)
    requires |ct| == T * T && |ab| == T * TK && |bb| == TK * T
    ensures |r| == T * T
  {
    seq(T * T, q requires 0 <= q < T * T && |ct| == T * T && |ab| == T * TK && |bb| == TK * T =>
      CellAccumulated(ar, ct, ab, bb, T, TK, q))
  }

  function CellAccumulated<F(!new)>(ar: Arith<F>, ct: seq<F>, ab: seq<F>, bb: seq<F>, T: nat, TK: nat, q: nat): F
    requires |ct| == T * T && |ab| == T * TK && |bb| == TK * T && q < T * T
  {
    assert T > 0;
    CoordsInBounds(T, T, q);
    ar.fromHalf(LaneFold(ar, ab, bb, T, TK, q / T, q % T, TK, ar.toHalf(ct[q])))
  }

  // Row i, columns jb .. jb + 3 of the tile, reduced through the four lanes; columns past the tile are padded.
  method AccumulateLanes<F(!new)>(ar: Arith<F>, ct: seq<F>, ab: seq<F>, bb: seq<F>, T: nat, TK: nat, i: nat, jb: nat)
      returns (acc: seq<U16>)
    requires |ct| == T * T && |ab| == T * TK && |bb| == TK * T && i < T && jb < T
    ensures |acc| == LANES
    ensures forall l | 0 <= l < LANES && jb + l < T ::
      acc[l] == LaneFold(ar, ab, bb, T, TK, i, jb + l, TK, ar.toHalf(Elem(ct, T, T, i, jb + l)))
  {
    acc := [];
    for l := 0 to LANES
      invariant |acc| == l
      invariant forall e | 0 <= e < l && jb + e < T :: acc[e] == ar.toHalf(Elem(ct, T, T, i, jb + e))
    {
      acc := acc + [if jb + l < T then ar.toHalf(Elem(ct, T, T, i, jb + l)) else 0];
    }
    for kk := 0 to TK
      invariant |acc| == LANES
      invariant forall l | 0 <= l < LANES && jb + l < T ::
        acc[l] == LaneFold(ar, ab, bb, T, TK, i, jb + l, kk, ar.toHalf(Elem(ct, T, T, i, jb + l)))
    {
      var ah := ar.toHalf(Elem(ab, T, TK, i, kk));
      var next: seq<U16> := [];
      for l := 0 to LANES
        invariant |next| == l
        invariant forall e | 0 <= e < l && jb + e < T ::
          next[e] == ar.Fma(ah, ar.toHalf(Elem(bb, TK, T, kk, jb + e)), acc[e])
      {
        var bh := if jb + l < T then ar.toHalf(Elem(bb, TK, T, kk, jb + l)) else 0;
        next := next + [ar.Fma(ah, bh, acc[l])];
      }
      acc := next;
    }
  }

  // Cell q of a T x T tile comes before (i, j) in row-major order.
  ghost predicate Before(T: nat, i: nat, j: nat, q: nat) {
    T > 0 && (q / T < i || (q / T == i && q % T < j))
  }

  lemma BeforeNext(T: nat, i: nat, j: nat)
    requires i < T && j < T
    ensures Index(T, j, i) < T * T && !Before(T, i, j, Index(T, j, i))
    ensures forall q | 0 <= q < T * T :: Before(T, i, j + 1, q) <==> Before(T, i, j, q) || q == Index(T, j, i)
  {
    IndexInverse(T, T, j, i);
    forall q | 0 <= q < T * T
      ensures Before(T, i, j + 1, q) <==> Before(T, i, j, q) || q == Index(T, j, i)
    {
      CoordsInBounds(T, T, q);
    }
  }

  lemma BeforeRow(T: nat, i: nat, j: nat)
    requires i < T && T <= j
    ensures forall q | 0 <= q < T * T :: Before(T, i, j, q) <==> Before(T, i + 1, 0, q)
  {
    forall q | 0 <= q < T * T
      ensures Before(T, i, j, q) <==> Before(T, i + 1, 0, q)
    {
      CoordsInBounds(T, T, q);
    }
  }

  lemma BeforeEnds(T: nat)
    ensures forall q | 0 <= q < T * T :: !Before(T, 0, 0, q) && Before(T, T, 0, q)
  {
    forall q | 0 <= q < T * T
      ensures !Before(T, 0, 0, q) && Before(T, T, 0, q)
    {
      assert T > 0;
      CoordsInBounds(T, T, q);
    }
  }

  // The tile with every cell before (i, j) accumulated.
  ghost predicate Partly<F(!new)>(ar: Arith<F>, ct: seq<F>, before: seq<F>, ab: seq<F>, bb: seq<F>, T: nat, TK: nat, i: nat, j: nat)
    requires |before| == T * T && |ab| == T * TK && |bb| == TK * T
  {
    && |ct| == T * T
    && (forall q | 0 <= q < T * T ::
          ct[q] == if Before(T, i, j, q) then CellAccumulated(ar, before, ab, bb, T, TK, q) else before[q])
  }

  // Convert the lanes back and store them, in place, at columns jb .. of row i.
  method StoreLanes<F(!new)>(ar: Arith<F>, ct: array<F>, ghost before: seq<F>, ab: seq<F>, bb: seq<F>, T: nat, TK: nat,
      i: nat, jb: nat, acc: seq<U16>)
    requires |before| == T * T && |ab| == T * TK && |bb| == TK * T && i < T && jb < T && |acc| == LANES
    requires Partly(ar, ct[..], before, ab, bb, T, TK, i, jb)
    requires forall l | 0 <= l < LANES && jb + l < T ::
      acc[l] == LaneFold(ar, ab, bb, T, TK, i, jb + l, TK, ar.toHalf(Elem(before, T, T, i, jb + l)))
    modifies ct
    ensures Partly(ar, ct[..], before, ab, bb, T, TK, i, jb + LANES)
  {
    for l := 0 to LANES
      invariant Partly(ar, ct[..], before, ab, bb, T, TK, i, jb + l)
    {
      if jb + l < T {
        BeforeNext(T, i, jb + l);
        IndexInverse(T, T, jb + l, i);
        assert CellAccumulated(ar, before, ab, bb, T, TK, Index(T, jb + l, i)) == ar.fromHalf(acc[l]);
        hide Before, CellAccumulated;
        ct[Index(T, jb + l, i)] := ar.fromHalf(acc[l]);
      } else {
        BeforeRow(T, i, jb + l);
        BeforeRow(T, i, jb + l + 1);
      }
    }
  }

  lemma RowUntouched<F(!new)>(ar: Arith<F>, ct: seq<F>, before: seq<F>, ab: seq<F>, bb: seq<F>, T: nat, TK: nat, i: nat, jb: nat)
    requires |before| == T * T && |ab| == T * TK && |bb| == TK * T && i < T && jb < T
    requires Partly(ar, ct, before, ab, bb, T, TK, i, jb)
    ensures forall j | jb <= j < T :: Elem(ct, T, T, i, j) == Elem(before, T, T, i, j)
  {
    forall j | jb <= j < T
      ensures Elem(ct, T, T, i, j) == Elem(before, T, T, i, j)
    {
      IndexInverse(T, T, j, i);
    }
  }

  // C_tile += A_panel * B_panel, in place, four columns at a time.
  method PanelAccumulate<F(!new)>(ar: Arith<F>, ct: array<F>, ab: seq<F>, bb: seq<F>, T: nat, TK: nat)
    requires ct.Length == T * T && |ab| == T * TK && |bb| == TK * T
    modifies ct
    ensures ct[..] == Accumulated(ar, old(ct[..]), ab, bb, T, TK)
  {
    hide Before, CellAccumulated;
    ghost var before := ct[..];
    BeforeEnds(T);
    for i := 0 to T
      invariant Partly(ar, ct[..], before, ab, bb, T, TK, i, 0)
    {
      var jb := 0;
      while jb < T
        invariant Partly(ar, ct[..], before, ab, bb, T, TK, i, jb)
      {
        RowUntouched(ar, ct[..], before, ab, bb, T, TK, i, jb);
        var acc := AccumulateLanes(ar, ct[..], ab, bb, T, TK, i, jb);
        StoreLanes(ar, ct, before, ab, bb, T, TK, i, jb, acc);
        jb := jb + LANES;
      }
      BeforeRow(T, i, jb);
    }
  }
}
