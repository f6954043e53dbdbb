/** Row-major coordinates of the PE mesh. */
module Mesh {
  import opened Wavelets

  function Index(w: nat, x: nat, y: nat): nat {
    y * w + x
  }

  lemma IndexInverse(w: nat, h: nat, x: nat, y: nat)
    requires x < w && y < h
    ensures Index(w, x, y) < w * h
    ensures Index(w, x, y) % w == x && Index(w, x, y) / w == y
  {
    calc <= {
      Index(w, x, y) + 1;
      y * w + w;
      (y + 1) * w;
      { MulMonotone(y + 1, h, w); }
      h * w;
    }
    DivModUnique(w, Index(w, x, y), y, x);
  }

  lemma MulMonotone(a: nat, b: nat, k: nat)
    requires a <= b
    ensures a * k <= b * k
  {
  }

  lemma RowUp(w: nat, x: nat, y: nat)
    ensures Index(w, x, y + 1) == Index(w, x, y) + w
  {
  }

  lemma RowEnds(w: nat, y: nat)
    ensures Index(w, w, y) == Index(w, 0, y + 1)
  {
  }

  lemma DivModUnique(w: nat, n: nat, q: nat, r: nat)
    requires r < w && n == q * w + r
    ensures n / w == q && n % w == r
  {
    if n / w < q {
      MulMonotone(n / w + 1, q, w);
    } else if q < n / w {
      MulMonotone(q + 1, n / w, w);
    }
  }

  lemma CoordsInBounds(w: nat, h: nat, i: nat)
    requires 0 < w && i < w * h
    ensures 0 <= i % w < w && 0 <= i / w < h
    ensures i == Index(w, i % w, i / w)
  {
    if h <= i / w {
      MulMonotone(h, i / w, w);
    }
  }

  function Quot(n: nat, d: nat): nat
    requires d > 0
  {
    n / d
  }

  function Rem(n: nat, d: nat): nat
    requires d > 0
  {
    n % d
  }

  lemma QuotRem(w: nat, h: nat, n: nat)
    requires 0 < w && n < w * h
    ensures Rem(n, w) < w && Quot(n, w) < h && n == Index(w, Rem(n, w), Quot(n, w))
  {
    CoordsInBounds(w, h, n);
  }

  lemma QuotRemOf(w: nat, h: nat, x: nat, y: nat)
    requires x < w && y < h
    ensures Index(w, x, y) < w * h && Rem(Index(w, x, y), w) == x && Quot(Index(w, x, y), w) == y
  {
    IndexInverse(w, h, x, y);
  }

  // The grid neighbour of PE i in direction d; None for the ramp and past the edge.
  function Neighbor(w: nat, h: nat, i: nat, d: Dir): Option<nat>
    requires 0 < w
  {
    var x, y := i % w, i / w;
    if d == EAST then (if x + 1 < w then Some(Index(w, x + 1, y)) else None)
    else if d == WEST then (if 0 < x then Some(Index(w, x - 1, y)) else None)
    else if d == NORTH then (if y + 1 < h then Some(Index(w, x, y + 1)) else None)
    else if d == SOUTH then (if 0 < y then Some(Index(w, x, y - 1)) else None)
    else None
  }

  lemma NeighborInGrid(w: nat, h: nat, i: nat, d: Dir)
    requires 0 < w && i < w * h
    ensures var n := Neighbor(w, h, i, d); n.Some? ==> n.value < w * h
  {
    CoordsInBounds(w, h, i);
    var x, y := i % w, i / w;
    if d == EAST && x + 1 < w {
      IndexInverse(w, h, x + 1, y);
    } else if d == WEST && 0 < x {
      IndexInverse(w, h, x - 1, y);
    } else if d == NORTH && y + 1 < h {
      IndexInverse(w, h, x, y + 1);
    } else if d == SOUTH && 0 < y {
      IndexInverse(w, h, x, y - 1);
    }
  }
}
