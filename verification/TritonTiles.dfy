/** The grouped ordering of output tiles over program ids, and the tiled kernel launched with it. */
module TritonTiles {
  import opened Wavelets
  import opened Mesh
  import opened Arithmetic
  import opened TiledGemms

  // ----- The ordering -----

  function CeilDiv(a: nat, b: nat): nat
    requires b > 0
  {
    (a + b - 1) / b
  }

  /** A grid of numM x numN output tiles, visited in groups of groupM tile rows. */
  datatype Ordering = Ordering(numM: nat, numN: nat, groupM: nat)
  {
    predicate Valid() {
      numM > 0 && numN > 0 && groupM > 0
    }

    function FirstRow(group: nat): nat {
      group * groupM
    }

    // Rows in a group: the last one may be short.
    function GroupRows(group: nat): int {
      Min(numM - FirstRow(group), groupM)
    }

    function Group(pid: nat): nat
      requires Valid()
    {
      Quot(pid, groupM * numN)
    }

    function Rank(pid: nat): nat
      requires Valid()
    {
      Rem(pid, groupM * numN)
    }

    function TileOf(pid: nat): (nat, nat)
      requires Valid() && GroupRows(Group(pid)) > 0
    {
      var rows := GroupRows(Group(pid));
      (FirstRow(Group(pid)) + Rem(Rank(pid), rows), Quot(Rank(pid), rows))
    }

    // Its inverse: which program owns a tile.
    function PidOf(m: nat, n: nat): nat
      requires Valid() && m < numM
    {
      var group := Quot(m, groupM);
      GroupBelow(this, m);
      group * (groupM * numN) + n * GroupRows(group) + (m - FirstRow(group))
    }
  }

  lemma GroupBelow(o: Ordering, m: nat)
    requires o.Valid() && m < o.numM
    ensures var group := Quot(m, o.groupM); o.FirstRow(group) <= m < o.FirstRow(group) + o.GroupRows(group) && o.GroupRows(group) > 0
  {
    DivMod(o.groupM, m);
  }

  lemma QuotRemUnique(w: nat, n: nat, q: nat, r: nat)
    requires r < w && n == q * w + r
    ensures Quot(n, w) == q && Rem(n, w) == r
  {
    DivModUnique(w, n, q, r);
  }

  // A pid in range lies in a group with rows, at a rank inside it.
  lemma PidInGroup(o: Ordering, pid: nat)
    requires o.Valid() && pid < o.numM * o.numN
    ensures o.groupM * o.numN > 0
    ensures var g, r := o.Group(pid), o.Rank(pid);
      pid == g * (o.groupM * o.numN) + r && o.GroupRows(g) > 0 && r < o.GroupRows(g) * o.numN && o.FirstRow(g) < o.numM
  {
    var size := o.groupM * o.numN;
    MulMonotone(1, o.groupM, o.numN);
    DivMod(size, pid);
    var g, r := o.Group(pid), o.Rank(pid);
    hide Quot, Rem;
    MulAssociates(g, o.groupM, o.numN);
    if o.numM <= g * o.groupM {
      MulMonotone(o.numM, g * o.groupM, o.numN);
    }
    Distribute(o.numM, g * o.groupM, o.numN);
  }

  lemma Distribute(a: nat, b: nat, c: nat)
    ensures (a - b) * c == a * c - b * c
  {
  }

  /** Every program id gets a tile of the grid. */
  lemma TileInGrid(o: Ordering, pid: nat)
    requires o.Valid() && pid < o.numM * o.numN
    ensures o.GroupRows(o.Group(pid)) > 0
    ensures var (m, n) := o.TileOf(pid); m < o.numM && n < o.numN
  {
    PidInGroup(o, pid);
    QuotRem(o.GroupRows(o.Group(pid)), o.numN, o.Rank(pid));
  }

  /** The owner of a tile is a program id of the launch, and it computes that tile. */
  lemma OwnerComputesTile(o: Ordering, m: nat, n: nat)
    requires o.Valid() && m < o.numM && n < o.numN
    ensures o.PidOf(m, n) < o.numM * o.numN
    ensures o.GroupRows(o.Group(o.PidOf(m, n))) > 0 && o.TileOf(o.PidOf(m, n)) == (m, n)
  {
    var group, size := Quot(m, o.groupM), o.groupM * o.numN;
    GroupBelow(o, m);
    var rows, lane := o.GroupRows(group), m - o.FirstRow(group);
    var rank := n * rows + lane;
    QuotRemOf(rows, o.numN, lane, n);
    assert rank == Index(rows, lane, n);
    hide Quot, Rem;
    assert rows * o.numN <= size by { MulMonotone(rows, o.groupM, o.numN); }
    QuotRemUnique(size, o.PidOf(m, n), group, rank);
    InRange(o, group, rows, rank);
  }

  lemma InRange(o: Ordering, group: nat, rows: nat, rank: nat)
    requires o.FirstRow(group) + rows <= o.numM && rank < rows * o.numN
    ensures group * (o.groupM * o.numN) + rank < o.numM * o.numN
  {
    MulAssociates(group, o.groupM, o.numN);
    MulMonotone(o.FirstRow(group) + rows, o.numM, o.numN);
    Distribute(o.FirstRow(group) + rows, o.FirstRow(group), o.numN);
  }

  /** A program id owns the tile it computes: with OwnerComputesTile, ids and tiles correspond one to one, short last group included. */
  lemma PidOwnsItsTile(o: Ordering, pid: nat)
    requires o.Valid() && pid < o.numM * o.numN
    ensures o.GroupRows(o.Group(pid)) > 0 && o.TileOf(pid).0 < o.numM
    ensures o.PidOf(o.TileOf(pid).0, o.TileOf(pid).1) == pid
  {
    TileInGrid(o, pid);
    PidInGroup(o, pid);
    var g, r := o.Group(pid), o.Rank(pid);
    var rows := o.GroupRows(g);
    var (m, n) := o.TileOf(pid);
    DivMod(rows, r);
    assert m == g * o.groupM + Rem(r, rows) && Rem(r, rows) < o.groupM;
    QuotRemUnique(o.groupM, m, g, Rem(r, rows));
    hide Quot, Rem;
  }

  // The tile visited after (m, n): down its group's rows, then to the top of the next column, then to the next group.
  function NextTile(numM: nat, numN: nat, groupM: nat, m: nat, n: nat): (nat, nat)
    requires groupM > 0
  {
    if m + 1 < numM && (m + 1) % groupM != 0 then (m + 1, n)
    else if n + 1 < numN then (m - m % groupM, n + 1)
    else (m + 1, 0)
  }

  lemma RowOfGroup(o: Ordering, m: nat)
    requires o.Valid() && m < o.numM
    ensures var g := Quot(m, o.groupM); o.FirstRow(g) == m - m % o.groupM && o.FirstRow(g) <= m < o.FirstRow(g) + o.GroupRows(g)
    ensures var g := Quot(m, o.groupM);
      !(m + 1 < o.numM && (m + 1) % o.groupM != 0) ==> m + 1 == o.FirstRow(g) + o.GroupRows(g)
    ensures var g := Quot(m, o.groupM); m + 1 < o.numM && (m + 1) % o.groupM != 0 ==> Quot(m + 1, o.groupM) == g
    ensures var g := Quot(m, o.groupM); m + 1 < o.numM && (m + 1) % o.groupM == 0 ==> Quot(m + 1, o.groupM) == g + 1 && o.GroupRows(g) == o.groupM
  {
    GroupBelow(o, m);
    DivMod(o.groupM, m);
    var g, r := Quot(m, o.groupM), Rem(m, o.groupM);
    assert r == m % o.groupM;
    if r + 1 < o.groupM {
      QuotRemUnique(o.groupM, m + 1, g, r + 1);
      assert (m + 1) % o.groupM == Rem(m + 1, o.groupM);
    } else {
      OneMore(g, o.groupM);
      QuotRemUnique(o.groupM, m + 1, g + 1, 0);
      assert (m + 1) % o.groupM == Rem(m + 1, o.groupM);
    }
    hide Quot, Rem;
  }

  lemma NextPid(o: Ordering, m: nat, n: nat)
    requires o.Valid() && m < o.numM && n < o.numN && (m + 1 < o.numM || n + 1 < o.numN)
    ensures var (m', n') := NextTile(o.numM, o.numN, o.groupM, m, n); m' < o.numM && n' < o.numN && o.PidOf(m', n') == o.PidOf(m, n) + 1
  {
    RowOfGroup(o, m);
    var g := Quot(m, o.groupM);
    var first, rows := o.FirstRow(g), o.GroupRows(g);
    if m + 1 < o.numM && (m + 1) % o.groupM != 0 {
      hide Quot;
    } else if n + 1 < o.numN {
      QuotRemUnique(o.groupM, first, g, 0);
      hide Quot;
      OneMore(n, rows);
    } else if m + 1 < o.numM {
      hide Quot;
      OneMore(g, o.groupM * o.numN);
      OneMore(n, rows);
      assert (n + 1) * rows == o.groupM * o.numN;
    }
  }

  /** Program ids walk the tiles group by group of groupM rows, within a group column by column, within a column from top to bottom. */
  lemma GroupedOrder(o: Ordering, pid: nat)
    requires o.Valid() && pid + 1 < o.numM * o.numN
    ensures o.GroupRows(o.Group(0)) > 0 && o.TileOf(0) == (0, 0)
    ensures o.GroupRows(o.Group(pid)) > 0 && o.GroupRows(o.Group(pid + 1)) > 0
    ensures o.TileOf(pid + 1) == NextTile(o.numM, o.numN, o.groupM, o.TileOf(pid).0, o.TileOf(pid).1)
  {
    FirstPid(o);
    TileInGrid(o, pid);
    PidOwnsItsTile(o, pid);
    var (m, n) := o.TileOf(pid);
    hide Ordering.TileOf, Ordering.Group, Ordering.Rank, Quot, Rem;
    LastPid(o, m, n);
    NextPid(o, m, n);
    var (m', n') := NextTile(o.numM, o.numN, o.groupM, m, n);
    OwnerComputesTile(o, m', n');
  }

  lemma FirstPid(o: Ordering)
    requires o.Valid()
    ensures o.GroupRows(o.Group(0)) > 0 && o.TileOf(0) == (0, 0)
  {
    OwnerComputesTile(o, 0, 0);
    QuotRemUnique(o.groupM, 0, 0, 0);
    assert o.PidOf(0, 0) == 0;
  }

  // The last tile belongs to the last id.
  lemma LastPid(o: Ordering, m: nat, n: nat)
    requires o.Valid() && m < o.numM && n < o.numN && o.PidOf(m, n) + 1 < o.numM * o.numN
    ensures m + 1 < o.numM || n + 1 < o.numN
  {
    if m + 1 == o.numM && n + 1 == o.numN {
      RowOfGroup(o, m);
      var g := Quot(m, o.groupM);
      var rows := o.GroupRows(g);
      hide Quot, Rem;
      OneMore(n, rows);
      MulAssociates(g, o.groupM, o.numN);
      Distribute(o.FirstRow(g) + rows, o.FirstRow(g), o.numN);
    }
  }

  // ----- The kernel -----

  /** One launch: the product, its epilogue, and the block sizes. */
  datatype Launch<!H(!new), !F(!new)> = Launch(g: Gemm<H, F>, blockM: nat, blockN: nat, blockK: nat, groupM: nat)
  {
    predicate Valid() {
      blockM > 0 && blockN > 0 && blockK > 0 && groupM > 0 && g.M > 0 && g.N > 0
    }

    function Order(): (o: Ordering)
      requires Valid()
      ensures o.Valid()
    {
      CeilPositive(g.M, blockM);
      CeilPositive(g.N, blockN);
      Ordering(CeilDiv(g.M, blockM), CeilDiv(g.N, blockN), groupM)
    }

    // Operand tiles of K step k: rows and columns wrap around, positions past K read as zero.
    function TileA(m: nat, k: nat): (nat, nat) -> H
      requires Valid()
    {
      (i: nat, kk: nat) => if kk < g.K - k * blockK then g.a(Rem(m * blockM + i, g.M), k * blockK + kk) else g.num.ZeroH()
    }

    function TileB(n: nat, k: nat): (nat, nat) -> H
      requires Valid()
    {
      (kk: nat, j: nat) => if kk < g.K - k * blockK then g.b(k * blockK + kk, Rem(n * blockN + j, g.N)) else g.num.ZeroH()
    }
  }

  lemma CeilPositive(a: nat, b: nat)
    requires a > 0 && b > 0
    ensures CeilDiv(a, b) > 0
  {
  }

  // `tl.dot`: each lane accumulates its row against its column, in order.
  function Contract<H(!new), F(!new)>(num: Numbers<H, F>, acc: F, x: (nat, nat) -> H, y: (nat, nat) -> H, i: nat, j: nat, n: nat): F {
    if n == 0 then acc else num.Mac(Contract(num, acc, x, y, i, j, n - 1), x(i, n - 1), y(n - 1, j))
  }

  function TlDot<H(!new), F(!new)>(num: Numbers<H, F>, acc: (nat, nat) -> F, x: (nat, nat) -> H, y: (nat, nat) -> H, depth: nat): (nat, nat) -> F {
    (i: nat, j: nat) => Contract(num, acc(i, j), x, y, i, j, depth)
  }

  // An in-range lane's K step extends its padded dot product.
  lemma {:induction false} LaneStep<H(!new), F(!new)>(l: Launch<H, F>, m: nat, n: nat, i: nat, j: nat, k: nat, d: nat)
    requires l.Valid() && m * l.blockM + i < l.g.M && n * l.blockN + j < l.g.N
    ensures var row, col := m * l.blockM + i, n * l.blockN + j;
      Contract(l.g.num, l.g.PaddedDot(row, col, k * l.blockK), l.TileA(m, k), l.TileB(n, k), i, j, d) ==
        l.g.PaddedDot(row, col, k * l.blockK + d)
  {
    if d > 0 {
      LaneStep(l, m, n, i, j, k, d - 1);
      QuotRemUnique(l.g.M, m * l.blockM + i, 0, m * l.blockM + i);
      QuotRemUnique(l.g.N, n * l.blockN + j, 0, n * l.blockN + j);
      hide Quot, Rem;
    }
  }

  ghost predicate TileHolds<H(!new), F(!new)>(l: Launch<H, F>, m: nat, n: nat, acc: (nat, nat) -> F, depth: nat)
    requires l.Valid()
  {
    forall i: nat, j: nat | m * l.blockM + i < l.g.M && n * l.blockN + j < l.g.N ::
      acc(i, j) == l.g.PaddedDot(m * l.blockM + i, n * l.blockN + j, depth)
  }

  method Accumulate<H(!new), F(!new)>(l: Launch<H, F>, m: nat, n: nat) returns (acc: (nat, nat) -> F)
    requires l.Valid()
    ensures TileHolds(l, m, n, acc, CeilDiv(l.g.K, l.blockK) * l.blockK)
  {
    acc := (i: nat, j: nat) => l.g.num.zero;
    for k := 0 to CeilDiv(l.g.K, l.blockK)
      invariant TileHolds(l, m, n, acc, k * l.blockK)
    {
      ghost var before := acc;
      acc := TlDot(l.g.num, acc, l.TileA(m, k), l.TileB(n, k), l.blockK);
      forall i: nat, j: nat | m * l.blockM + i < l.g.M && n * l.blockN + j < l.g.N
        ensures acc(i, j) == l.g.PaddedDot(m * l.blockM + i, n * l.blockN + j, k * l.blockK + l.blockK)
      {
        LaneStep(l, m, n, i, j, k, l.blockK);
      }
      assert (k + 1) * l.blockK == k * l.blockK + l.blockK;
    }
  }

  // What the launch has to leave in cell (row, col).
  function Final<H(!new), F(!new)>(l: Launch<H, F>, row: nat, col: nat): H
    requires l.Valid()
  {
    l.g.store(row, col, l.g.PaddedDot(row, col, CeilDiv(l.g.K, l.blockK) * l.blockK))
  }

  predicate InTile<H(!new), F(!new)>(l: Launch<H, F>, m: nat, n: nat, row: nat, col: nat)
    requires l.Valid()
  {
    Quot(row, l.blockM) == m && Quot(col, l.blockN) == n
  }

  // Cells for which stored holds carry their final value, the others are as before.
  ghost predicate Stored<H(!new), F(!new)>(l: Launch<H, F>, c: seq<H>, before: seq<H>, stored: (nat, nat) -> bool)
    requires l.Valid()
  {
    && |c| == |before| == l.g.M * l.g.N
    && forall row, col | 0 <= row < l.g.M && 0 <= col < l.g.N ::
         CellAt(c, l.g.M, l.g.N, row, col) == if stored(row, col) then Final(l, row, col) else CellAt(before, l.g.M, l.g.N, row, col)
  }

  lemma SameStored<H(!new), F(!new)>(l: Launch<H, F>, c: seq<H>, before: seq<H>, s: (nat, nat) -> bool, t: (nat, nat) -> bool)
    requires l.Valid() && Stored(l, c, before, s)
    requires forall row, col | 0 <= row < l.g.M && 0 <= col < l.g.N :: s(row, col) == t(row, col)
    ensures Stored(l, c, before, t)
  {
  }

  lemma CellUpdate<H>(c: seq<H>, rows: nat, cols: nat, row: nat, col: nat, v: H, r: nat, q: nat)
    requires |c| == rows * cols && row < rows && col < cols && r < rows && q < cols
    ensures Index(cols, col, row) < |c|
    ensures CellAt(c[Index(cols, col, row) := v], rows, cols, r, q) == if r == row && q == col then v else CellAt(c, rows, cols, r, q)
  {
    IndexInverse(cols, rows, col, row);
    IndexInverse(cols, rows, q, r);
    hide Index;
  }

  lemma StoreOne<H(!new), F(!new)>(l: Launch<H, F>, c: seq<H>, before: seq<H>, s: (nat, nat) -> bool, row: nat, col: nat)
    requires l.Valid() && Stored(l, c, before, s) && row < l.g.M && col < l.g.N
    ensures Index(l.g.N, col, row) < |c|
    ensures Stored(l, c[Index(l.g.N, col, row) := Final(l, row, col)], before, (r: nat, q: nat) => s(r, q) || (r == row && q == col))
  {
    hide Index, CellAt, Final;
    CellUpdate(c, l.g.M, l.g.N, row, col, Final(l, row, col), row, col);
    var d := c[Index(l.g.N, col, row) := Final(l, row, col)];
    forall r, q | 0 <= r < l.g.M && 0 <= q < l.g.N
      ensures CellAt(d, l.g.M, l.g.N, r, q) == if r == row && q == col then Final(l, row, col) else CellAt(c, l.g.M, l.g.N, r, q)
    {
      CellUpdate(c, l.g.M, l.g.N, row, col, Final(l, row, col), r, q);
    }
  }

  // Lanes before (i, j) of tile (m, n), row by row.
  function UpTo<H(!new), F(!new)>(l: Launch<H, F>, m: nat, n: nat, i: nat, j: nat): (nat, nat) -> bool
    requires l.Valid()
  {
    (row: nat, col: nat) => InTile(l, m, n, row, col) && (row < m * l.blockM + i || (row == m * l.blockM + i && col < n * l.blockN + j))
  }

  function WholeTile<H(!new), F(!new)>(l: Launch<H, F>, m: nat, n: nat): (nat, nat) -> bool
    requires l.Valid()
  {
    (row: nat, col: nat) => InTile(l, m, n, row, col)
  }

  lemma InTileBounds<H(!new), F(!new)>(l: Launch<H, F>, m: nat, n: nat, row: nat, col: nat)
    requires l.Valid() && InTile(l, m, n, row, col)
    ensures m * l.blockM <= row < m * l.blockM + l.blockM && n * l.blockN <= col < n * l.blockN + l.blockN
  {
    DivMod(l.blockM, row);
    DivMod(l.blockN, col);
  }

  lemma TileEnds<H(!new), F(!new)>(l: Launch<H, F>, m: nat, n: nat, i: nat, row: nat, col: nat)
    requires l.Valid()
    ensures !UpTo(l, m, n, 0, 0)(row, col)
    ensures UpTo(l, m, n, i, l.blockN)(row, col) == UpTo(l, m, n, i + 1, 0)(row, col)
    ensures UpTo(l, m, n, l.blockM, 0)(row, col) == WholeTile(l, m, n)(row, col)
  {
    if InTile(l, m, n, row, col) {
      InTileBounds(l, m, n, row, col);
    }
  }

  // The next lane joins those stored, if it is inside the matrix.
  lemma NextLane<H(!new), F(!new)>(l: Launch<H, F>, m: nat, n: nat, i: nat, j: nat, row: nat, col: nat)
    requires l.Valid() && i < l.blockM && j < l.blockN
    ensures UpTo(l, m, n, i, j + 1)(row, col) ==
      (UpTo(l, m, n, i, j)(row, col) || (row == m * l.blockM + i && col == n * l.blockN + j))
  {
    QuotRemUnique(l.blockM, m * l.blockM + i, m, i);
    QuotRemUnique(l.blockN, n * l.blockN + j, n, j);
    hide Quot, Rem;
  }

  // Store one row of lanes, masked at the matrix edge.
  method StoreRow<H(!new), F(!new)>(l: Launch<H, F>, m: nat, n: nat, acc: (nat, nat) -> F, i: nat, c: array<H>, ghost before: seq<H>)
    requires l.Valid() && i < l.blockM && TileHolds(l, m, n, acc, CeilDiv(l.g.K, l.blockK) * l.blockK)
    requires Stored(l, c[..], before, UpTo(l, m, n, i, 0))
    modifies c
    ensures Stored(l, c[..], before, UpTo(l, m, n, i + 1, 0))
  {
    hide Stored, InTile, UpTo, Index, CeilDiv, Final;
    StoredLength(l, c[..], before, UpTo(l, m, n, i, 0));
    var row := m * l.blockM + i;
    for j := 0 to l.blockN
      invariant c.Length == l.g.M * l.g.N && Stored(l, c[..], before, UpTo(l, m, n, i, j))
    {
      var col := n * l.blockN + j;
      forall r: nat, q: nat
        ensures UpTo(l, m, n, i, j + 1)(r, q) == (UpTo(l, m, n, i, j)(r, q) || (r == row && q == col))
      {
        NextLane(l, m, n, i, j, r, q);
      }
      if row < l.g.M && col < l.g.N {
        StoreOne(l, c[..], before, UpTo(l, m, n, i, j), row, col);
        FinalIs(l, m, n, acc, i, j);
        ghost var was := c[..];
        c[Index(l.g.N, col, row)] := l.g.store(row, col, acc(i, j));
        assert c[..] == was[Index(l.g.N, col, row) := Final(l, row, col)];
        SameStored(l, c[..], before, (r: nat, q: nat) => UpTo(l, m, n, i, j)(r, q) || (r == row && q == col), UpTo(l, m, n, i, j + 1));
      } else {
        SameStored(l, c[..], before, UpTo(l, m, n, i, j), UpTo(l, m, n, i, j + 1));
      }
    }
    forall r: nat, q: nat
      ensures UpTo(l, m, n, i, l.blockN)(r, q) == UpTo(l, m, n, i + 1, 0)(r, q)
    {
      TileEnds(l, m, n, i, r, q);
    }
    SameStored(l, c[..], before, UpTo(l, m, n, i, l.blockN), UpTo(l, m, n, i + 1, 0));
  }

  lemma StoredLength<H(!new), F(!new)>(l: Launch<H, F>, c: seq<H>, before: seq<H>, s: (nat, nat) -> bool)
    requires l.Valid() && Stored(l, c, before, s)
    ensures |c| == l.g.M * l.g.N
  {
  }

  lemma FinalIs<H(!new), F(!new)>(l: Launch<H, F>, m: nat, n: nat, acc: (nat, nat) -> F, i: nat, j: nat)
    requires l.Valid() && TileHolds(l, m, n, acc, CeilDiv(l.g.K, l.blockK) * l.blockK)
    requires m * l.blockM + i < l.g.M && n * l.blockN + j < l.g.N
    ensures l.g.store(m * l.blockM + i, n * l.blockN + j, acc(i, j)) == Final(l, m * l.blockM + i, n * l.blockN + j)
  {
  }

  // Nothing stored yet.
  lemma NothingStored<H(!new), F(!new)>(l: Launch<H, F>, c: seq<H>, s: (nat, nat) -> bool)
    requires l.Valid() && |c| == l.g.M * l.g.N
    requires forall row, col | 0 <= row < l.g.M && 0 <= col < l.g.N :: !s(row, col)
    ensures Stored(l, c, c, s)
  {
  }

  /** One program: it writes exactly the cells of its own tile. */
  method RunProgram<H(!new), F(!new)>(l: Launch<H, F>, pid: nat, c: array<H>)
    requires l.Valid() && c.Length == l.g.M * l.g.N && pid < l.Order().numM * l.Order().numN
    modifies c
    ensures l.Order().GroupRows(l.Order().Group(pid)) > 0
    ensures Stored(l, c[..], old(c[..]), WholeTile(l, l.Order().TileOf(pid).0, l.Order().TileOf(pid).1))
  {
    hide Stored, InTile, UpTo, WholeTile, CeilDiv;
    TileInGrid(l.Order(), pid);
    var (m, n) := l.Order().TileOf(pid);
    var acc := Accumulate(l, m, n);
    ghost var before := c[..];
    forall r: nat, q: nat
      ensures !UpTo(l, m, n, 0, 0)(r, q) && UpTo(l, m, n, l.blockM, 0)(r, q) == WholeTile(l, m, n)(r, q)
    {
      TileEnds(l, m, n, 0, r, q);
    }
    NothingStored(l, before, UpTo(l, m, n, 0, 0));
    for i := 0 to l.blockM
      invariant Stored(l, c[..], before, UpTo(l, m, n, i, 0))
    {
      StoreRow(l, m, n, acc, i, c, before);
    }
    SameStored(l, c[..], before, UpTo(l, m, n, l.blockM, 0), WholeTile(l, m, n));
  }

  // ----- The launch -----

  lemma BlockBelow(M: nat, b: nat, row: nat)
    requires b > 0 && row < M
    ensures Quot(row, b) < CeilDiv(M, b)
  {
    DivMod(b, row);
    DivMod(b, M + b - 1);
    assert CeilDiv(M, b) == Quot(M + b - 1, b);
    hide Quot, Rem, CeilDiv;
    if CeilDiv(M, b) <= Quot(row, b) {
      MulMonotone(CeilDiv(M, b), Quot(row, b), b);
    }
  }

  // The program whose tile holds a cell.
  function Owner<H(!new), F(!new)>(l: Launch<H, F>, row: nat, col: nat): nat
    requires l.Valid() && row < l.g.M
  {
    BlockBelow(l.g.M, l.blockM, row);
    l.Order().PidOf(Quot(row, l.blockM), Quot(col, l.blockN))
  }

  /** A cell lies in the tile of exactly one program of the launch. */
  lemma OneOwner<H(!new), F(!new)>(l: Launch<H, F>, pid: nat, row: nat, col: nat)
    requires l.Valid() && row < l.g.M && col < l.g.N && pid < l.Order().numM * l.Order().numN
    ensures Owner(l, row, col) < l.Order().numM * l.Order().numN
    ensures l.Order().GroupRows(l.Order().Group(pid)) > 0
    ensures InTile(l, l.Order().TileOf(pid).0, l.Order().TileOf(pid).1, row, col) <==> pid == Owner(l, row, col)
  {
    BlockBelow(l.g.M, l.blockM, row);
    BlockBelow(l.g.N, l.blockN, col);
    hide Quot, Rem, CeilDiv, Ordering.GroupRows, Ordering.Group, Ordering.TileOf, Ordering.PidOf;
    OwnerComputesTile(l.Order(), Quot(row, l.blockM), Quot(col, l.blockN));
    TileInGrid(l.Order(), pid);
    PidOwnsItsTile(l.Order(), pid);
  }

  function OwnedBy<H(!new), F(!new)>(l: Launch<H, F>, pids: seq<nat>): (nat, nat) -> bool
    requires l.Valid()
  {
    (row: nat, col: nat) => row < l.g.M && Owner(l, row, col) in pids
  }

  lemma StoredThen<H(!new), F(!new)>(l: Launch<H, F>, c: seq<H>, mid: seq<H>, before: seq<H>, pids: seq<nat>, pid: nat, tile: (nat, nat) -> bool)
    requires l.Valid() && Stored(l, mid, before, OwnedBy(l, pids)) && Stored(l, c, mid, tile)
    requires forall row, col | 0 <= row < l.g.M && 0 <= col < l.g.N :: tile(row, col) == (Owner(l, row, col) == pid)
    ensures Stored(l, c, before, OwnedBy(l, pids + [pid]))
  {
    hide CellAt, Owner, Final;
  }

  // Either no K step is padded, or adding a product of padding zeros leaves the finished accumulator alone.
  ghost predicate PaddingNeutral<H(!new), F(!new)>(l: Launch<H, F>)
    requires l.Valid()
  {
    Rem(l.g.K, l.blockK) == 0 || forall row: nat, col: nat | row < l.g.M && col < l.g.N :: l.g.Settled(row, col)
  }

  lemma FinalIsReference<H(!new), F(!new)>(l: Launch<H, F>, row: nat, col: nat)
    requires l.Valid() && PaddingNeutral(l) && row < l.g.M && col < l.g.N
    ensures Final(l, row, col) == l.g.store(row, col, l.g.Dot(row, col, l.g.K))
  {
    var n := CeilDiv(l.g.K, l.blockK) * l.blockK;
    Covered(l.g.K, l.blockK);
    hide CeilDiv, Rem, Gemm.PaddedDot, Gemm.Dot;
    PaddingDropsOut(l.g, row, col, n);
  }

  lemma Covered(K: nat, b: nat)
    requires b > 0
    ensures K <= CeilDiv(K, b) * b && (Rem(K, b) == 0 ==> CeilDiv(K, b) * b == K)
  {
    DivMod(b, K);
    DivMod(b, K + b - 1);
    assert CeilDiv(K, b) == Quot(K + b - 1, b);
    hide Quot, Rem, CeilDiv;
    var q := Quot(K, b);
    if Rem(K, b) == 0 {
      QuotRemUnique(b, K + b - 1, q, b - 1);
    }
  }

  lemma SomeProgram<H(!new), F(!new)>(l: Launch<H, F>)
    requires l.Valid()
    ensures 0 < l.Order().numM * l.Order().numN
  {
    MulMonotone(1, l.Order().numM, l.Order().numN);
  }

  /** For every order in which the programs run, every cell ends as the epilogue of the reference dot product. */
  method LaunchKernel<H(!new), F(!new)>(l: Launch<H, F>, order: seq<nat>, c: array<H>)
    requires l.Valid() && PaddingNeutral(l) && c.Length == l.g.M * l.g.N
    requires forall pid: nat :: pid in order <==> pid < l.Order().numM * l.Order().numN
    modifies c
    ensures forall row, col | 0 <= row < l.g.M && 0 <= col < l.g.N ::
      CellAt(c[..], l.g.M, l.g.N, row, col) == l.g.store(row, col, l.g.Dot(row, col, l.g.K))
  {
    hide Launch.Order, InTile, Quot, Rem, CeilDiv, Owner, Final, PaddingNeutral, CellAt;
    ghost var before := c[..];
    NothingStored(l, before, OwnedBy(l, []));
    for p := 0 to |order|
      invariant Stored(l, c[..], before, OwnedBy(l, order[..p]))
    {
      ghost var mid := c[..];
      var pid := order[p];
      assert pid in order;
      RunProgram(l, pid, c);
      ghost var (m, n) := l.Order().TileOf(pid);
      forall row, col | 0 <= row < l.g.M && 0 <= col < l.g.N
        ensures WholeTile(l, m, n)(row, col) == (Owner(l, row, col) == pid)
      {
        OneOwner(l, pid, row, col);
      }
      StoredThen(l, c[..], mid, before, order[..p], pid, WholeTile(l, m, n));
      assert order[..p + 1] == order[..p] + [pid];
    }
    assert order[..|order|] == order;
    forall row, col | 0 <= row < l.g.M && 0 <= col < l.g.N
      ensures CellAt(c[..], l.g.M, l.g.N, row, col) == l.g.store(row, col, l.g.Dot(row, col, l.g.K))
    {
      SomeProgram(l);
      OneOwner(l, 0, row, col);
      FinalIsReference(l, row, col);
    }
  }
}
