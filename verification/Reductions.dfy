/** The kernels' reductions: strided per-thread folds, the xor butterfly, and why they add up to the whole row. */
module Reductions {
  import opened Mesh
  import opened Halves

  // A combiner with the value its loops start from: the sums with 0, the maxima with the least finite float.
  datatype Monoid<!F(!new)> = Monoid(unit: F, op: (F, F) -> F)
  {
    ghost predicate Commutative() {
      forall x, y :: op(x, y) == op(y, x)
    }

    // The start need not be neutral to every value (-FLT_MAX is not to negative infinity, nor 0 to -0), only to itself.
    ghost predicate Lawful() {
      && Commutative()
      && Keeps(unit)
      && (forall x, y, z :: op(op(x, y), z) == op(x, op(y, z)))
    }

    ghost predicate Keeps(x: F) {
      op(unit, x) == x
    }

    // Left to right, as a sequential loop accumulates.
    function Total(s: seq<F>): F {
      if s == [] then unit else op(Total(s[..|s| - 1]), s[|s| - 1])
    }
  }

  lemma Assoc<F(!new)>(M: Monoid<F>, x: F, y: F, z: F)
    requires M.Lawful()
    ensures M.op(M.op(x, y), z) == M.op(x, M.op(y, z))
  {
  }

  lemma Commute<F(!new)>(M: Monoid<F>, x: F, y: F)
    requires M.Commutative()
    ensures M.op(x, y) == M.op(y, x)
  {
  }

  lemma Laws<F(!new)>(M: Monoid<F>)
    requires M.Lawful()
    ensures M.Commutative() && M.Keeps(M.unit)
  {
  }

  lemma Unit<F(!new)>(M: Monoid<F>, x: F)
    requires M.Lawful() && M.Keeps(x)
    ensures M.op(M.unit, x) == x && M.op(x, M.unit) == x
  {
    Commute(M, x, M.unit);
  }

  lemma OpKeeps<F(!new)>(M: Monoid<F>, x: F, y: F)
    requires M.Lawful() && M.Keeps(x)
    ensures M.Keeps(M.op(x, y)) && M.Keeps(M.op(y, x))
  {
    Assoc(M, M.unit, x, y);
    Commute(M, x, y);
  }

  // What a loop has accumulated, its start is neutral to.
  lemma {:induction false} TotalKeeps<F(!new)>(M: Monoid<F>, s: seq<F>)
    requires M.Lawful()
    ensures M.Keeps(M.Total(s))
  {
    if s == [] {
      Laws(M);
    } else {
      TotalKeeps(M, s[..|s| - 1]);
      OpKeeps(M, M.Total(s[..|s| - 1]), s[|s| - 1]);
    }
    hide Monoid.Lawful;
  }

  lemma TotalSnoc<F(!new)>(M: Monoid<F>, s: seq<F>, x: F)
    ensures M.Total(s + [x]) == M.op(M.Total(s), x)
  {
    assert (s + [x])[..|s|] == s;
  }

  lemma {:induction false} TotalConcat<F(!new)>(M: Monoid<F>, s: seq<F>, t: seq<F>)
    requires M.Lawful()
    ensures M.Total(s + t) == M.op(M.Total(s), M.Total(t))
    decreases |t|
  {
    hide Monoid.Lawful;
    if t == [] {
      assert s + t == s;
      TotalKeeps(M, s);
      Unit(M, M.Total(s));
    } else {
      var init, x := t[..|t| - 1], t[|t| - 1];
      assert s + t == (s + init) + [x];
      TotalSnoc(M, s + init, x);
      TotalConcat(M, s, init);
      Assoc(M, M.Total(s), M.Total(init), x);
    }
  }

  lemma TotalThree<F(!new)>(M: Monoid<F>, a: seq<F>, x: F, b: seq<F>)
    requires M.Lawful()
    ensures M.Total(a + [x] + b) == M.op(M.op(M.Total(a), x), M.Total(b))
  {
    hide Monoid.Lawful;
    TotalConcat(M, a + [x], b);
    TotalSnoc(M, a, x);
  }

  lemma SlipOut<F(!new)>(M: Monoid<F>, p: F, q: F, x: F, r: F)
    requires M.Lawful()
    ensures M.op(M.op(p, M.op(q, x)), r) == M.op(M.op(M.op(p, q), r), x)
  {
    Laws(M);
    hide Monoid.Lawful, Monoid.Commutative;
    Assoc(M, p, q, x);
    Assoc(M, M.op(p, q), x, r);
    Commute(M, x, r);
    Assoc(M, M.op(p, q), r, x);
  }

  // Combining one position's value with x combines the total with x.
  lemma TotalUpdate<F(!new)>(M: Monoid<F>, s: seq<F>, i: nat, x: F)
    requires M.Lawful() && i < |s|
    ensures M.Total(s[i := M.op(s[i], x)]) == M.op(M.Total(s), x)
  {
    hide Monoid.Lawful;
    var a, b := s[..i], s[i + 1..];
    TotalThree(M, a, s[i], b);
    TotalThree(M, a, M.op(s[i], x), b);
    SlipOut(M, M.Total(a), s[i], x, M.Total(b));
    assert s == a + [s[i]] + b;
    assert s[i := M.op(s[i], x)] == a + [M.op(s[i], x)] + b;
  }

  lemma {:induction false} TotalOfUnits<F(!new)>(M: Monoid<F>, s: seq<F>)
    requires M.Lawful() && forall i | 0 <= i < |s| :: s[i] == M.unit
    ensures M.Total(s) == M.unit
  {
    hide Monoid.Lawful, Monoid.Commutative;
    Laws(M);
    if s != [] {
      TotalOfUnits(M, s[..|s| - 1]);
    }
  }

  // The pointwise combination of two halves totals what the halves total together.
  lemma {:induction false} TotalPairs<F(!new)>(M: Monoid<F>, s: seq<F>, t: seq<F>, u: seq<F>)
    requires M.Lawful() && |s| == |t| == |u| && forall i | 0 <= i < |s| :: u[i] == M.op(s[i], t[i])
    ensures M.Total(u) == M.op(M.Total(s), M.Total(t))
    decreases |s|
  {
    if s == [] {
      Laws(M);
    } else {
      var n := |s| - 1;
      var a, b, x, y := M.Total(s[..n]), M.Total(t[..n]), s[n], t[n];
      assert u[n] == M.op(x, y);
      TotalPairs(M, s[..n], t[..n], u[..n]);
      Laws(M);
      hide Monoid.Lawful, Monoid.Commutative;
      calc {
        M.op(M.op(a, b), M.op(x, y));
        { Assoc(M, a, b, M.op(x, y)); }
        M.op(a, M.op(b, M.op(x, y)));
        { Assoc(M, b, x, y); Commute(M, b, x); }
        M.op(a, M.op(M.op(x, b), y));
        { Assoc(M, x, b, y); }
        M.op(a, M.op(x, M.op(b, y)));
        { Assoc(M, a, x, M.op(b, y)); }
        M.op(M.op(a, x), M.op(b, y));
      }
    }
  }

  // ----- The xor butterfly -----

  // Lane i's partner at a power-of-two offset: the lane whose number differs from i in that one bit.
  function Partner(i: nat, off: nat): (j: nat)
    requires off > 0
  {
    if Quot(i, off) % 2 == 0 then i + off
    else
      assert i == Index(off, i % off, i / off);
      i - off
  }

  lemma PartnerOf(i: nat, off: nat, q: nat, r: nat)
    requires off > 0 && r < off && i == Index(off, r, q)
    ensures Partner(i, off) == if q % 2 == 0 then i + off else i - off
  {
    DivModUnique(off, i, q, r);
  }

  lemma PartnerInRange(i: nat, off: nat, n: nat)
    requires off > 0 && i < n * (2 * off)
    ensures Partner(i, off) < n * (2 * off)
  {
    var q, r := Quot(i, off), Rem(i, off);
    assert i == Index(off, r, q);
    QuotRem(off, 2 * n, i);
    if q % 2 == 0 {
      MulMonotone(q + 2, 2 * n, off);
    }
  }

  // n groups of 2 * off lanes: every lane combines with its partner.
  function Round<F(!new)>(M: Monoid<F>, v: seq<F>, off: nat, n: nat): (r: seq<F>)
    requires off > 0 && |v| == n * (2 * off)
    ensures |r| == |v|
  {
    seq(|v|, i requires 0 <= i < |v| && off > 0 && |v| == n * (2 * off) => PartnerInRange(i, off, n); M.op(v[i], v[Partner(i, off)]))
  }

  // The g-th of n aligned groups of w lanes.
  ghost function Group<F>(v: seq<F>, w: nat, n: nat, g: nat): (r: seq<F>)
    requires |v| == n * w && g < n
    ensures |r| == w
  {
    MulMonotone(g + 1, n, w);
    v[Index(w, 0, g)..Index(w, w, g)]
  }

  lemma DoubleIndex(off: nat, a: nat)
    ensures Index(2 * off, 0, a) == Index(off, 0, 2 * a)
    ensures Index(2 * off, 2 * off, a) == Index(off, off, 2 * a + 1)
    ensures Index(off, off, 2 * a) == Index(off, 0, 2 * a + 1) == Index(off, 0, 2 * a) + off
  {
  }

  lemma GroupSplits<F>(v: seq<F>, off: nat, n: nat, a: nat)
    requires |v| == n * (2 * off) && |v| == 2 * n * off && a < n
    ensures Group(v, 2 * off, n, a) == Group(v, off, 2 * n, 2 * a) + Group(v, off, 2 * n, 2 * a + 1)
  {
    DoubleIndex(off, a);
    MulMonotone(a + 1, n, 2 * off);
    MulMonotone(2 * a + 1, 2 * n, off);
    MulMonotone(2 * a + 2, 2 * n, off);
    hide Index;
  }

  function Sibling(g: nat): nat {
    if g % 2 == 0 then g + 1 else g - 1
  }

  // In a round every lane of a group combines with the same lane of the sibling group.
  lemma RoundAt<F(!new)>(M: Monoid<F>, v: seq<F>, off: nat, n: nat, g: nat, j: nat)
    requires off > 0 && |v| == n * (2 * off) && |v| == 2 * n * off && g < 2 * n && j < off
    ensures Group(Round(M, v, off, n), off, 2 * n, g)[j] ==
      M.op(Group(v, off, 2 * n, g)[j], Group(v, off, 2 * n, Sibling(g))[j])
  {
    var i := Index(off, j, g);
    QuotRemOf(off, 2 * n, j, g);
    PartnerOf(i, off, g, j);
    RowUp(off, j, g);
    if g % 2 == 1 {
      RowUp(off, j, g - 1);
    }
    assert Partner(i, off) == Index(off, j, Sibling(g));
    GroupAt(Round(M, v, off, n), off, 2 * n, g, j);
    GroupAt(v, off, 2 * n, g, j);
    GroupAt(v, off, 2 * n, Sibling(g), j);
    hide Partner, Group, Index;
  }

  lemma GroupAt<F>(v: seq<F>, w: nat, n: nat, g: nat, j: nat)
    requires |v| == n * w && g < n && j < w
    ensures Index(w, j, g) < |v| && Group(v, w, n, g)[j] == v[Index(w, j, g)]
  {
    MulMonotone(g + 1, n, w);
    RowEnds(w, g);
    assert Index(w, j, g) == Index(w, 0, g) + j && Index(w, w, g) == Index(w, 0, g) + w;
    hide Index;
  }

  // First half combined with second half.
  function Halved<F(!new)>(M: Monoid<F>, s: seq<F>, off: nat): (r: seq<F>)
    requires |s| == 2 * off
    ensures |r| == off
  {
    seq(off, j requires 0 <= j < off && |s| == 2 * off => M.op(s[j], s[j + off]))
  }

  // The order in which a group's values are combined.
  function Tree<F(!new)>(M: Monoid<F>, s: seq<F>, k: nat): F
    requires |s| == Pow2(k)
    decreases k
  {
    if k == 0 then s[0] else Tree(M, Halved(M, s, Pow2(k - 1)), k - 1)
  }

  // Both halves of a group hold the same values after a round.
  lemma RoundHalves<F(!new)>(M: Monoid<F>, v: seq<F>, off: nat, n: nat, g: nat)
    requires M.Commutative() && off > 0 && |v| == n * (2 * off) && |v| == 2 * n * off && g < 2 * n
    ensures Group(Round(M, v, off, n), off, 2 * n, g) == Halved(M, Group(v, 2 * off, n, g / 2), off)
  {
    hide Monoid.Commutative, Group, Round;
    var s, t := Group(v, off, 2 * n, g), Group(v, off, 2 * n, Sibling(g));
    var part, whole := Group(Round(M, v, off, n), off, 2 * n, g), Group(v, 2 * off, n, g / 2);
    GroupSplits(v, off, n, g / 2);
    forall j | 0 <= j < off
      ensures part[j] == Halved(M, whole, off)[j]
    {
      RoundAt(M, v, off, n, g, j);
      Commute(M, s[j], t[j]);
    }
  }

  // Rounds at offsets 2^(k-1), ..., 2, 1.
  function Butterfly<F(!new)>(M: Monoid<F>, v: seq<F>, k: nat, n: nat): (r: seq<F>)
    requires |v| == n * Pow2(k)
    ensures |r| == |v|
    decreases k
  {
    if k == 0 then v
    else
      Twice(n, Pow2(k - 1));
      Butterfly(M, Round(M, v, Pow2(k - 1), n), k - 1, 2 * n)
  }

  /** With nothing but a commutative combiner every lane of an aligned group ends up with the same value, the group's tree. */
  lemma {:induction false} ButterflyIsTree<F(!new)>(M: Monoid<F>, v: seq<F>, k: nat, n: nat, i: nat)
    requires M.Commutative() && |v| == n * Pow2(k) && i < |v|
    ensures Quot(i, Pow2(k)) < n
    ensures Butterfly(M, v, k, n)[i] == Tree(M, Group(v, Pow2(k), n, Quot(i, Pow2(k))), k)
    decreases k
  {
    hide Monoid.Commutative;
    QuotRem(Pow2(k), n, i);
    if k == 0 {
      assert Pow2(0) == 1;
      assert Index(1, 0, i) == i && Index(1, 1, i) == i + 1 && Quot(i, 1) == i;
      assert Group(v, 1, n, i) == [v[i]];
    } else {
      var off := Pow2(k - 1);
      Twice(n, off);
      ButterflyIsTree(M, Round(M, v, off, n), k - 1, 2 * n, i);
      RoundHalves(M, v, off, n, Quot(i, off));
      HalfQuot(i, off);
    }
  }

  // Over a commutative monoid the tree adds up to the left-to-right total.
  lemma {:induction false} TreeTotals<F(!new)>(M: Monoid<F>, s: seq<F>, k: nat)
    requires M.Lawful() && |s| == Pow2(k) && forall i | 0 <= i < |s| :: M.Keeps(s[i])
    ensures Tree(M, s, k) == M.Total(s)
    decreases k
  {
    hide Monoid.Lawful, Monoid.Keeps;
    if k == 0 {
      assert s == [] + [s[0]];
      TotalSnoc(M, [], s[0]);
      Unit(M, s[0]);
    } else {
      var off := Pow2(k - 1);
      forall i | 0 <= i < off
        ensures M.Keeps(Halved(M, s, off)[i])
      {
        OpKeeps(M, s[i], s[i + off]);
      }
      TreeTotals(M, Halved(M, s, off), k - 1);
      HalvedTotals(M, s, off);
    }
  }

  lemma HalvedTotals<F(!new)>(M: Monoid<F>, s: seq<F>, off: nat)
    requires M.Lawful() && |s| == 2 * off
    ensures M.Total(Halved(M, s, off)) == M.Total(s)
  {
    hide Monoid.Lawful;
    TotalPairs(M, s[..off], s[off..], Halved(M, s, off));
    TotalConcat(M, s[..off], s[off..]);
    assert s == s[..off] + s[off..];
  }

  /** For any power-of-two width every lane of an aligned group ends up with that group's total. */
  lemma ButterflyTotals<F(!new)>(M: Monoid<F>, v: seq<F>, k: nat, n: nat, i: nat)
    requires M.Lawful() && |v| == n * Pow2(k) && i < |v| && forall j | 0 <= j < |v| :: M.Keeps(v[j])
    ensures Quot(i, Pow2(k)) < n
    ensures Butterfly(M, v, k, n)[i] == M.Total(Group(v, Pow2(k), n, Quot(i, Pow2(k))))
  {
    hide Monoid.Lawful, Monoid.Commutative, Monoid.Keeps, Group, Index, Tree, Monoid.Total;
    Laws(M);
    ButterflyIsTree(M, v, k, n, i);
    var q := Quot(i, Pow2(k));
    forall j | 0 <= j < Pow2(k)
      ensures M.Keeps(Group(v, Pow2(k), n, q)[j])
    {
      GroupAt(v, Pow2(k), n, q, j);
    }
    TreeTotals(M, Group(v, Pow2(k), n, q), k);
  }

  lemma HalfQuot(i: nat, off: nat)
    requires off > 0
    ensures Quot(i, 2 * off) == Quot(i, off) / 2
  {
    var q, r, a := Quot(i, off), Rem(i, off), Quot(i, off) / 2;
    assert i == q * off + r;
    Twice(a, off);
    if q == 2 * a {
      DivModUnique(2 * off, i, a, r);
    } else {
      assert q == 2 * a + 1;
      assert q * off == 2 * a * off + off;
      DivModUnique(2 * off, i, a, r + off);
    }
  }

  lemma Twice(a: nat, off: nat)
    ensures a * (2 * off) == 2 * a * off
  {
  }

  // The kernels' loop: for (offset = width / 2; offset > 0; offset >>= 1) every lane combines with its partner.
  method WarpReduce<F(!new)>(M: Monoid<F>, v: seq<F>, k: nat, n: nat) returns (r: seq<F>)
    requires |v| == n * Pow2(k)
    ensures r == Butterfly(M, v, k, n)
  {
    r := v;
    var offset, groups := Pow2(k) / 2, n;
    ghost var j := k;
    while offset > 0
      invariant offset == Pow2(j) / 2 && |r| == groups * Pow2(j)
      invariant Butterfly(M, r, j, groups) == Butterfly(M, v, k, n)
      decreases j
    {
      Twice(groups, offset);
      r := Round(M, r, offset, groups);
      groups := 2 * groups;
      j := j - 1;
      offset := offset / 2;
    }
  }

  // ----- From warps to the block -----

  ghost function GroupTotals<F(!new)>(M: Monoid<F>, v: seq<F>, w: nat, n: nat): (r: seq<F>)
    requires |v| == n * w
    ensures |r| == n
  {
    seq(n, g requires 0 <= g < n && |v| == n * w => M.Total(Group(v, w, n, g)))
  }

  // All groups but the last are the groups of the prefix.
  lemma PrefixTotals<F(!new)>(M: Monoid<F>, v: seq<F>, w: nat, n: nat)
    requires n > 0 && |v| == n * w
    ensures Index(w, 0, n - 1) <= |v| && |v[..Index(w, 0, n - 1)]| == (n - 1) * w
    ensures GroupTotals(M, v, w, n)[..n - 1] == GroupTotals(M, v[..Index(w, 0, n - 1)], w, n - 1)
    ensures GroupTotals(M, v, w, n)[n - 1] == M.Total(v[Index(w, 0, n - 1)..])
  {
    LastGroup(v, w, n);
    var init, ts := v[..Index(w, 0, n - 1)], GroupTotals(M, v, w, n);
    forall g | 0 <= g < n - 1
      ensures GroupTotals(M, init, w, n - 1)[g] == ts[g]
    {
      GroupOfPrefix(v, w, n, g);
      hide Index, Group, Monoid.Total;
    }
    hide Index, Group, Monoid.Total;
  }

  // The total of the group totals is the total of everything.
  lemma {:induction false} TotalOfGroups<F(!new)>(M: Monoid<F>, v: seq<F>, w: nat, n: nat)
    requires M.Lawful() && |v| == n * w
    ensures M.Total(GroupTotals(M, v, w, n)) == M.Total(v)
    decreases n
  {
    hide Monoid.Lawful, Index, Group, GroupTotals;
    if n == 0 {
      assert v == [];
      assert GroupTotals(M, v, w, 0) == [];
    } else {
      var lo := Index(w, 0, n - 1);
      PrefixTotals(M, v, w, n);
      TotalOfGroups(M, v[..lo], w, n - 1);
      TotalConcat(M, v[..lo], v[lo..]);
      assert v == v[..lo] + v[lo..];
    }
  }

  lemma LastGroup<F>(v: seq<F>, w: nat, n: nat)
    requires n > 0 && |v| == n * w
    ensures Index(w, 0, n - 1) <= |v| && |v[..Index(w, 0, n - 1)]| == (n - 1) * w
    ensures Group(v, w, n, n - 1) == v[Index(w, 0, n - 1)..]
  {
    RowEnds(w, n - 1);
    assert Index(w, w, n - 1) == n * w;
  }

  lemma GroupOfPrefix<F>(v: seq<F>, w: nat, n: nat, g: nat)
    requires n > 0 && |v| == n * w && g < n - 1
    ensures Index(w, 0, n - 1) <= |v| && |v[..Index(w, 0, n - 1)]| == (n - 1) * w
    ensures Group(v[..Index(w, 0, n - 1)], w, n - 1, g) == Group(v, w, n, g)
  {
    LastGroup(v, w, n);
    MulMonotone(g + 1, n - 1, w);
    RowEnds(w, g);
  }

  // Padding with the identity changes nothing.
  lemma TotalPadded<F(!new)>(M: Monoid<F>, s: seq<F>, pad: seq<F>)
    requires M.Lawful() && forall i | 0 <= i < |pad| :: pad[i] == M.unit
    ensures M.Total(s + pad) == M.Total(s)
  {
    TotalConcat(M, s, pad);
    TotalOfUnits(M, pad);
    TotalKeeps(M, s);
    Unit(M, M.Total(s));
  }

  // ----- Strided loops -----

  // What thread tid of t accumulates over the first n items, taking every t-th.
  function Strided<F(!new)>(M: Monoid<F>, f: nat -> F, t: nat, tid: nat, n: nat): F
    requires t > 0
  {
    if n == 0 then M.unit
    else if (n - 1) % t == tid then M.op(Strided(M, f, t, tid, n - 1), f(n - 1))
    else Strided(M, f, t, tid, n - 1)
  }

  lemma {:induction false} StridedKeeps<F(!new)>(M: Monoid<F>, f: nat -> F, t: nat, tid: nat, n: nat)
    requires M.Lawful() && t > 0
    ensures M.Keeps(Strided(M, f, t, tid, n))
    decreases n
  {
    hide Monoid.Lawful, Monoid.Keeps;
    Laws(M);
    if n > 0 {
      StridedKeeps(M, f, t, tid, n - 1);
      OpKeeps(M, Strided(M, f, t, tid, n - 1), f(n - 1));
    }
  }

  lemma {:induction false} StridedSkips<F(!new)>(M: Monoid<F>, f: nat -> F, t: nat, tid: nat, lo: nat, hi: nat)
    requires t > 0 && lo <= hi && forall i | lo <= i < hi :: i % t != tid
    ensures Strided(M, f, t, tid, hi) == Strided(M, f, t, tid, lo)
    decreases hi - lo
  {
    if lo < hi {
      assert (hi - 1) % t != tid;
      StridedSkips(M, f, t, tid, lo, hi - 1);
    }
  }

  lemma NoneBetween(t: nat, tid: nat, i: nat, j: nat)
    requires t > 0 && i % t == tid && i < j < i + t
    ensures j % t != tid
  {
    if j % t == tid {
      var p, q := i / t, j / t;
      assert i == p * t + tid && j == q * t + tid;
      if q <= p {
        MulMonotone(q, p, t);
      } else {
        MulMonotone(p + 1, q, t);
      }
    }
  }

  lemma NextStride(t: nat, tid: nat, i: nat)
    requires t > 0 && i % t == tid
    ensures (i + t) % t == tid
    ensures forall j | i < j < i + t :: j % t != tid
  {
    var q := i / t;
    assert i == q * t + tid && (q + 1) * t == q * t + t;
    DivModUnique(t, i + t, q + 1, tid);
    forall j | i < j < i + t
      ensures j % t != tid
    {
      NoneBetween(t, tid, i, j);
    }
  }

  lemma FirstStride(t: nat, tid: nat)
    requires tid < t
    ensures tid % t == tid && forall j | 0 <= j < tid :: j % t != tid
  {
    DivModUnique(t, tid, 0, tid);
    forall j | 0 <= j < tid
      ensures j % t != tid
    {
      DivModUnique(t, j, 0, j);
    }
  }

  // for (i = tid; i < n; i += t) acc = op(acc, f(i))
  method StridedLoop<F(!new)>(M: Monoid<F>, f: nat -> F, t: nat, tid: nat, n: nat) returns (acc: F)
    requires tid < t
    ensures acc == Strided(M, f, t, tid, n)
  {
    acc := M.unit;
    var i := tid;
    FirstStride(t, tid);
    StridedSkips(M, f, t, tid, 0, if tid <= n then tid else n);
    while i < n
      invariant i % t == tid
      invariant acc == Strided(M, f, t, tid, if i <= n then i else n)
    {
      acc := M.op(acc, f(i));
      NextStride(t, tid, i);
      StridedSkips(M, f, t, tid, i + 1, if i + t <= n then i + t else n);
      i := i + t;
    }
  }

  ghost function AllStrided<F(!new)>(M: Monoid<F>, f: nat -> F, t: nat, n: nat): (r: seq<F>)
    requires t > 0
    ensures |r| == t
  {
    seq(t, tid requires 0 <= tid < t => Strided(M, f, t, tid, n))
  }

  /** Whatever the number of threads, the strided partial results together count every item exactly once. */
  lemma {:induction false} StridedTotals<F(!new)>(M: Monoid<F>, f: nat -> F, t: nat, n: nat)
    requires M.Lawful() && t > 0
    ensures M.Total(AllStrided(M, f, t, n)) == M.Total(seq(n, i requires i >= 0 => f(i)))
    decreases n
  {
    hide Monoid.Lawful;
    if n == 0 {
      TotalOfUnits(M, AllStrided(M, f, t, 0));
      assert seq(0, i requires i >= 0 => f(i)) == [];
    } else {
      var tid, before := (n - 1) % t, AllStrided(M, f, t, n - 1);
      StridedTotals(M, f, t, n - 1);
      TotalUpdate(M, before, tid, f(n - 1));
      assert AllStrided(M, f, t, n) == before[tid := M.op(before[tid], f(n - 1))];
      assert seq(n, i requires i >= 0 => f(i)) == seq(n - 1, i requires i >= 0 => f(i)) + [f(n - 1)];
      TotalSnoc(M, seq(n - 1, i requires i >= 0 => f(i)), f(n - 1));
    }
  }
}
