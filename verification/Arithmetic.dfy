/** Shared arithmetic: minima, distances, quotients, products of dimensions. */
module Arithmetic {
  import opened Mesh

  function Min(a: int, b: int): int {
    if a <= b then a else b
  }

  function Distance(a: nat, b: nat): nat {
    if a <= b then b - a else a - b
  }

  lemma DivMod(w: nat, n: nat)
    requires w > 0
    ensures n == Quot(n, w) * w + Rem(n, w) && Rem(n, w) < w
  {
  }

  lemma OneMore(a: nat, b: nat)
    ensures (a + 1) * b == a * b + b
  {
  }

  lemma MulAssociates(a: nat, b: nat, c: nat)
    ensures a * b * c == a * (b * c)
  {
  }

  // The number of elements of a shape, multiplied up left to right.
  function Product(dims: seq<int>): int {
    if dims == [] then 1 else Product(dims[..|dims| - 1]) * dims[|dims| - 1]
  }

  lemma {:induction false} ProductNonNegative(dims: seq<int>)
    requires forall d | d in dims :: d >= 0
    ensures Product(dims) >= 0
  {
    if dims != [] {
      var n := |dims| - 1;
      assert forall d | d in dims[..n] :: d in dims;
      assert dims[n] in dims;
      ProductNonNegative(dims[..n]);
    }
  }

  method ProductOf(dims: seq<int>) returns (n: int)
    ensures n == Product(dims)
  {
    n := 1;
    for i := 0 to |dims|
      invariant n == Product(dims[..i])
    {
      assert dims[..i + 1][..i] == dims[..i];
      n := n * dims[i];
    }
    assert dims[..|dims|] == dims;
  }
}
