/** Collecting the output-stationary tiles into the m x n result. */
module SummaGathering {
  import opened Wavelets
  import opened Mesh
  import opened SummaPlans
  import opened SummaModels
  import opened SummaResults

  // A grid of p x p tiles of t x t cells, laid out row-major n wide: the tile and the cell of position q.
  ghost function TileX(t: nat, n: nat, q: nat): nat
    requires t > 0 && n > 0
  {
    Quot(Rem(q, n), t)
  }

  ghost function TileY(t: nat, n: nat, q: nat): nat
    requires t > 0 && n > 0
  {
    Quot(Quot(q, n), t)
  }

  ghost function CellX(t: nat, n: nat, q: nat): nat
    requires t > 0 && n > 0
  {
    Rem(Rem(q, n), t)
  }

  ghost function CellY(t: nat, n: nat, q: nat): nat
    requires t > 0 && n > 0
  {
    Rem(Quot(q, n), t)
  }

  ghost function TileOf(p: nat, t: nat, n: nat, q: nat): nat
    requires t > 0 && n > 0
  {
    Index(p, TileX(t, n, q), TileY(t, n, q))
  }

  ghost function CellOf(t: nat, n: nat, q: nat): nat
    requires t > 0 && n > 0
  {
    Index(t, CellX(t, n, q), CellY(t, n, q))
  }

  // Every position belongs to one cell of one tile.
  lemma CoordsOf(p: nat, t: nat, n: nat, q: nat)
    requires t > 0 && n > 0 && n == p * t && q < n * n
    ensures TileX(t, n, q) < p && TileY(t, n, q) < p && CellX(t, n, q) < t && CellY(t, n, q) < t
    ensures TileOf(p, t, n, q) < p * p && CellOf(t, n, q) < t * t
    ensures Rem(q, n) == Index(t, CellX(t, n, q), TileX(t, n, q)) && Quot(q, n) == Index(t, CellY(t, n, q), TileY(t, n, q))
    ensures q == Index(n, Rem(q, n), Quot(q, n))
  {
    hide Quot, Rem, Index;
    QuotRem(n, n, q);
    assert t * p == n;
    QuotRem(t, p, Quot(q, n));
    QuotRem(t, p, Rem(q, n));
    QuotRemOf(p, p, TileX(t, n, q), TileY(t, n, q));
    QuotRemOf(t, t, CellX(t, n, q), CellY(t, n, q));
  }

  // Every cell of every tile has one position.
  lemma PositionOf(p: nat, t: nat, n: nat, y: nat, x: nat, i: nat, j: nat) returns (q: nat)
    requires t > 0 && n > 0 && n == p * t && y < p && x < p && i < t && j < t
    ensures q == Index(n, Index(t, j, x), Index(t, i, y)) && q < n * n
    ensures TileOf(p, t, n, q) == Index(p, x, y) && CellOf(t, n, q) == Index(t, j, i)
    ensures forall r | 0 <= r < n * n && TileOf(p, t, n, r) == TileOf(p, t, n, q) && CellOf(t, n, r) == CellOf(t, n, q) :: r == q
  {
    hide Quot, Rem, Index;
    assert t * p == n;
    QuotRemOf(t, p, j, x);
    QuotRemOf(t, p, i, y);
    q := Index(n, Index(t, j, x), Index(t, i, y));
    QuotRemOf(n, n, Index(t, j, x), Index(t, i, y));
    forall r | 0 <= r < n * n && TileOf(p, t, n, r) == TileOf(p, t, n, q) && CellOf(t, n, r) == CellOf(t, n, q)
      ensures r == q
    {
      SamePosition(p, t, n, q, r);
    }
  }

  lemma SamePosition(p: nat, t: nat, n: nat, q: nat, r: nat)
    requires t > 0 && n > 0 && n == p * t && q < n * n && r < n * n
    requires TileOf(p, t, n, r) == TileOf(p, t, n, q) && CellOf(t, n, r) == CellOf(t, n, q)
    ensures r == q
  {
    hide Quot, Rem, Index;
    CoordsOf(p, t, n, q);
    CoordsOf(p, t, n, r);
    QuotRemOf(p, p, TileX(t, n, q), TileY(t, n, q));
    QuotRemOf(p, p, TileX(t, n, r), TileY(t, n, r));
    QuotRemOf(t, t, CellX(t, n, q), CellY(t, n, q));
    QuotRemOf(t, t, CellX(t, n, r), CellY(t, n, r));
  }

  // Tiles before `pe`, and the first `cell` cells of tile `pe`, are in place.
  ghost predicate Gathered<F>(p: nat, t: nat, n: nat, tiles: seq<seq<F>>, c: seq<F>, pe: nat, cell: nat)
    requires t > 0 && n > 0 && n == p * t
  {
    && |c| == n * n && |tiles| == p * p && (forall k | 0 <= k < |tiles| :: |tiles[k]| == t * t)
    && forall q | 0 <= q < n * n :: InPlace(p, t, n, tiles, c, pe, cell, q)
  }

  ghost predicate InPlace<F>(p: nat, t: nat, n: nat, tiles: seq<seq<F>>, c: seq<F>, pe: nat, cell: nat, q: nat)
    requires t > 0 && n > 0 && n == p * t && |c| == n * n && |tiles| == p * p && (forall k | 0 <= k < |tiles| :: |tiles[k]| == t * t)
    requires q < n * n
  {
    CoordsOf(p, t, n, q);
    var k, l := TileOf(p, t, n, q), CellOf(t, n, q);
    k < pe || (k == pe && l < cell) ==> c[q] == tiles[k][l]
  }

  lemma GatherNext<F>(p: nat, t: nat, n: nat, tiles: seq<seq<F>>, c: seq<F>, y: nat, x: nat, i: nat, j: nat)
    requires t > 0 && n > 0 && n == p * t && y < p && x < p && i < t && j < t
    requires Gathered(p, t, n, tiles, c, Index(p, x, y), Index(t, j, i))
    ensures var q, pe, cell := Index(n, Index(t, j, x), Index(t, i, y)), Index(p, x, y), Index(t, j, i);
      && q < |c| && pe < |tiles| && cell < |tiles[pe]|
      && Gathered(p, t, n, tiles, c[q := tiles[pe][cell]], pe, cell + 1)
  {
    var q := PositionOf(p, t, n, y, x, i, j);
    var pe, cell := Index(p, x, y), Index(t, j, i);
    hide Index;
    CoordsOf(p, t, n, q);
    var d, next := c[q := tiles[pe][cell]], cell + 1;
    forall r | 0 <= r < n * n
      ensures InPlace(p, t, n, tiles, d, pe, next, r)
    {
      assert InPlace(p, t, n, tiles, c, pe, cell, r);
    }
  }

  lemma TileFull<F>(p: nat, t: nat, n: nat, tiles: seq<seq<F>>, c: seq<F>, pe: nat)
    requires t > 0 && n > 0 && n == p * t && Gathered(p, t, n, tiles, c, pe, t * t)
    ensures Gathered(p, t, n, tiles, c, pe + 1, 0)
  {
    var next := pe + 1;
    forall q | 0 <= q < n * n
      ensures InPlace(p, t, n, tiles, c, next, 0, q)
    {
      assert InPlace(p, t, n, tiles, c, pe, t * t, q);
      hide Index, TileOf, CellOf;
      CoordsOf(p, t, n, q);
    }
  }

  lemma NothingYet<F>(p: nat, t: nat, n: nat, tiles: seq<seq<F>>, c: seq<F>)
    requires t > 0 && n > 0 && n == p * t
    requires |c| == n * n && |tiles| == p * p && (forall k | 0 <= k < |tiles| :: |tiles[k]| == t * t)
    ensures Gathered(p, t, n, tiles, c, 0, 0)
  {
  }
}
