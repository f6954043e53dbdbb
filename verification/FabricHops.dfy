/** A cycle without contention: every waiting wavelet crosses exactly its one link. */
module FabricHops {
  import opened Wavelets
  import opened Routers
  import opened Grids
  import opened FabricTheorems

  ghost predicate Names(m: Move, i: nat, d: Dir, c: Color) {
    m.pe == i && m.d == d && m.c == c
  }

  ghost predicate Listed(ms: seq<Move>, i: nat, d: Dir, c: Color) {
    exists k :: 0 <= k < |ms| && Names(ms[k], i, d, c)
  }

  ghost predicate Aimed(f: Fabric, ms: seq<Move>, t: nat, c: Color)
    requires f.Valid() && f.AllRanged(ms)
  {
    exists k :: 0 <= k < |ms| && ms[k].c == c && f.Target(ms[k].pe, ms[k].d) == Some(t)
  }

  // Every move leads to an empty input channel, and no two lead to the same one.
  ghost predicate Free(f: Fabric, ms: seq<Move>)
    requires f.Valid() && f.AllRanged(ms)
  {
    && (forall k | 0 <= k < |ms| ::
          f.Target(ms[k].pe, ms[k].d).Some? && f.In(f.Target(ms[k].pe, ms[k].d).value, ms[k].c) == [])
    && (forall k, l | 0 <= k < l < |ms| ::
          ms[k].c == ms[l].c ==> f.Target(ms[k].pe, ms[k].d) != f.Target(ms[l].pe, ms[l].d))
  }

  ghost predicate Moved(f: Fabric, ms: seq<Move>, g: Fabric)
    requires f.Valid() && g.Valid() && g.SameShape(f) && f.AllRanged(ms)
  {
    && (forall i, d: Dir, c: Color | 0 <= i < |f.pes| && Routable(c) ::
          g.Out(i, d, c) == if Listed(ms, i, d, c) then [] else f.Out(i, d, c))
    && (forall k | 0 <= k < |ms| ::
          f.Target(ms[k].pe, ms[k].d).Some? ==>
          g.In(f.Target(ms[k].pe, ms[k].d).value, ms[k].c) == f.Out(ms[k].pe, ms[k].d, ms[k].c))
    && (forall t, c: Color | 0 <= t < |f.pes| && Routable(c) ::
          !Aimed(f, ms, t, c) ==> g.In(t, c) == f.In(t, c))
    && (forall i | 0 <= i < |f.pes| :: g.pes[i].config == f.pes[i].config)
    && g.dropped == f.dropped
  }

  lemma MoveUncontended(f: Fabric, m: Move)
    requires f.Valid() && f.Ranged(m) && Exact(f, [m]) && Free(f, [m])
    ensures Moved(f, [m], f.HopMove(m))
  {
    HopMoveEffect(f, m);
    assert [m][0] == m;
    var t := f.Target(m.pe, m.d).value;
    assert m.count == |f.Out(m.pe, m.d, m.c)|;
    assert f.In(t, m.c) == [];
    assert f.Crossing(m, m.count) == m.count;
    assert f.Out(m.pe, m.d, m.c)[..m.count] == f.Out(m.pe, m.d, m.c);
    var g := f.HopMove(m);
    forall i, d: Dir, c: Color | 0 <= i < |f.pes| && Routable(c)
      ensures g.Out(i, d, c) == if Listed([m], i, d, c) then [] else f.Out(i, d, c)
    {
      if Names(m, i, d, c) {
        assert Names([m][0], i, d, c);
      }
    }
    forall t', c: Color | 0 <= t' < |f.pes| && Routable(c) && !Aimed(f, [m], t', c)
      ensures g.In(t', c) == f.In(t', c)
    {
      assert [m][0] == m;
    }
  }

  lemma {:induction false} HopsUncontended(f: Fabric, ms: seq<Move>)
    requires f.Valid() && f.AllRanged(ms) && Exact(f, ms) && Ascending(ms) && Free(f, ms)
    ensures Moved(f, ms, f.HopAll(ms))
    decreases |ms|
  {
    if ms != [] {
      var m, rest := ms[0], ms[1..];
      assert f.Ranged(m) && f.AllRanged(rest);
      MoveUncontended(f, m);
      var g := f.HopMove(m);
      RestStillFree(f, ms, g);
      HopsUncontended(g, rest);
      MovedCompose(f, ms, g, g.HopAll(rest));
    }
  }

  // A later move's channels are not touched by the first one.
  lemma StillFree(f: Fabric, ms: seq<Move>, g: Fabric, k: nat)
    requires f.Valid() && f.AllRanged(ms) && Exact(f, ms) && Ascending(ms) && Free(f, ms) && 0 < k < |ms|
    requires g.Valid() && g.SameShape(f) && Moved(f, [ms[0]], g)
    ensures g.Ranged(ms[k]) && ms[k].count == |g.Out(ms[k].pe, ms[k].d, ms[k].c)|
    ensures g.Target(ms[k].pe, ms[k].d).Some? && g.In(g.Target(ms[k].pe, ms[k].d).value, ms[k].c) == []
  {
    assert Rank(ms[0]) < Rank(ms[k]);
    assert !Names([ms[0]][0], ms[k].pe, ms[k].d, ms[k].c);
    assert f.Target(ms[k].pe, ms[k].d) == g.Target(ms[k].pe, ms[k].d);
  }

  lemma RestStillFree(f: Fabric, ms: seq<Move>, g: Fabric)
    requires f.Valid() && f.AllRanged(ms) && Exact(f, ms) && Ascending(ms) && Free(f, ms) && ms != []
    requires g.Valid() && g.SameShape(f) && Moved(f, [ms[0]], g)
    ensures g.AllRanged(ms[1..]) && Exact(g, ms[1..]) && Ascending(ms[1..]) && Free(g, ms[1..])
  {
    var rest := ms[1..];
    assert Ascending(rest);
    hide Fabric.Valid, Fabric.Target, Fabric.In, Fabric.Out, Moved, Ascending;
    forall k | 0 <= k < |rest|
      ensures g.Ranged(rest[k]) && rest[k].count == |g.Out(rest[k].pe, rest[k].d, rest[k].c)|
      ensures g.Target(rest[k].pe, rest[k].d).Some? && g.In(g.Target(rest[k].pe, rest[k].d).value, rest[k].c) == []
    {
      assert rest[k] == ms[k + 1];
      StillFree(f, ms, g, k + 1);
    }
  }

  lemma MovedCompose(f: Fabric, ms: seq<Move>, g: Fabric, h: Fabric)
    requires f.Valid() && f.AllRanged(ms) && Ascending(ms) && Free(f, ms) && ms != []
    requires g.Valid() && g.SameShape(f) && Moved(f, [ms[0]], g)
    requires h.Valid() && h.SameShape(f) && g.AllRanged(ms[1..]) && Moved(g, ms[1..], h)
    ensures Moved(f, ms, h)
  {
    var m, rest := ms[0], ms[1..];
    assert [m][0] == m;
    forall i, d: Dir, c: Color | 0 <= i < |f.pes| && Routable(c)
      ensures h.Out(i, d, c) == if Listed(ms, i, d, c) then [] else f.Out(i, d, c)
    {
      ComposeOut(f, ms, g, h, i, d, c);
    }
    forall k | 0 <= k < |ms| && f.Target(ms[k].pe, ms[k].d).Some?
      ensures h.In(f.Target(ms[k].pe, ms[k].d).value, ms[k].c) == f.Out(ms[k].pe, ms[k].d, ms[k].c)
    {
      ComposeIn(f, ms, g, h, k);
    }
    forall t, c: Color | 0 <= t < |f.pes| && Routable(c) && !Aimed(f, ms, t, c)
      ensures h.In(t, c) == f.In(t, c)
    {
      if Aimed(f, [m], t, c) {
        AimedHead(f, ms, t, c);
      }
      forall k | 0 <= k < |rest|
        ensures !(rest[k].c == c && g.Target(rest[k].pe, rest[k].d) == Some(t))
      {
        assert rest[k] == ms[k + 1];
        assert g.Target(rest[k].pe, rest[k].d) == f.Target(rest[k].pe, rest[k].d);
      }
      assert !Aimed(g, rest, t, c);
    }
  }

  lemma AimedHead(f: Fabric, ms: seq<Move>, t: nat, c: Color)
    requires f.Valid() && f.AllRanged(ms) && ms != [] && Aimed(f, [ms[0]], t, c)
    ensures Aimed(f, ms, t, c)
  {
  }

  lemma ComposeOut(f: Fabric, ms: seq<Move>, g: Fabric, h: Fabric, i: nat, d: Dir, c: Color)
    requires f.Valid() && f.AllRanged(ms) && ms != []
    requires g.Valid() && g.SameShape(f) && Moved(f, [ms[0]], g)
    requires h.Valid() && h.SameShape(f) && g.AllRanged(ms[1..]) && Moved(g, ms[1..], h)
    requires i < |f.pes| && Routable(c)
    ensures h.Out(i, d, c) == if Listed(ms, i, d, c) then [] else f.Out(i, d, c)
  {
    var rest := ms[1..];
    if Listed(ms, i, d, c) {
      var k :| 0 <= k < |ms| && Names(ms[k], i, d, c);
      if k == 0 {
        assert Names([ms[0]][0], i, d, c);
        assert Listed([ms[0]], i, d, c);
        assert g.Out(i, d, c) == [];
      } else {
        assert Names(rest[k - 1], i, d, c);
        assert Listed(rest, i, d, c);
      }
    } else {
      assert !Names(ms[0], i, d, c);
      assert !Listed([ms[0]], i, d, c);
      forall k | 0 <= k < |rest|
        ensures !Names(rest[k], i, d, c)
      {
        assert rest[k] == ms[k + 1];
      }
      assert !Listed(rest, i, d, c);
    }
  }

  lemma ComposeIn(f: Fabric, ms: seq<Move>, g: Fabric, h: Fabric, k: nat)
    requires f.Valid() && f.AllRanged(ms) && Ascending(ms) && Free(f, ms) && k < |ms|
    requires g.Valid() && g.SameShape(f) && Moved(f, [ms[0]], g)
    requires h.Valid() && h.SameShape(f) && g.AllRanged(ms[1..]) && Moved(g, ms[1..], h)
    requires f.Target(ms[k].pe, ms[k].d).Some?
    ensures h.In(f.Target(ms[k].pe, ms[k].d).value, ms[k].c) == f.Out(ms[k].pe, ms[k].d, ms[k].c)
  {
    var rest := ms[1..];
    var t := f.Target(ms[k].pe, ms[k].d).value;
    assert [ms[0]][0] == ms[0];
    if k == 0 {
      forall l | 0 <= l < |rest|
        ensures !(rest[l].c == ms[0].c && g.Target(rest[l].pe, rest[l].d) == Some(t))
      {
        assert rest[l] == ms[l + 1];
      }
      assert !Aimed(g, rest, t, ms[0].c);
      assert h.In(t, ms[0].c) == g.In(t, ms[0].c);
    } else {
      assert rest[k - 1] == ms[k];
      assert Rank(ms[0]) < Rank(ms[k]);
      assert !Names([ms[0]][0], ms[k].pe, ms[k].d, ms[k].c);
      assert g.Out(ms[k].pe, ms[k].d, ms[k].c) == f.Out(ms[k].pe, ms[k].d, ms[k].c);
      assert g.Target(ms[k].pe, ms[k].d) == Some(t);
    }
  }

  // No router forwards on its own.
  ghost predicate NoRoutes(f: Fabric) {
    forall i | 0 <= i < |f.pes| :: f.pes[i].config == Empty().config
  }

  lemma {:induction false} UnroutedForwards(r: RouterState, id: nat)
    requires r.Shaped() && r.config == Empty().config && id <= NUM_ROUTABLE
    ensures r.ForwardFrom(id) == r
    decreases NUM_ROUTABLE - id
  {
    if id < NUM_ROUTABLE {
      UnroutedForwards(r, id + 1);
    }
  }

  lemma UnroutedPhase(f: Fabric)
    requires f.Valid() && NoRoutes(f)
    ensures f.ForwardAll() == f
  {
    forall i | 0 <= i < |f.pes|
      ensures f.pes[i].ForwardAll() == f.pes[i]
    {
      UnroutedForwards(f.pes[i], 0);
    }
    assert f.ForwardAll().pes == f.pes;
  }

  // Every waiting wavelet has an empty input channel ahead that nobody else aims at.
  ghost predicate Uncontended(f: Fabric)
    requires f.Valid()
  {
    && (forall i, d: Dir, c: Color | 0 <= i < |f.pes| && Routable(c) && f.Out(i, d, c) != [] ::
          f.Target(i, d).Some? && f.In(f.Target(i, d).value, c) == [])
    && (forall i, d: Dir, j, e: Dir, c: Color
          | 0 <= i < |f.pes| && 0 <= j < |f.pes| && Routable(c) && f.Out(i, d, c) != [] && f.Out(j, e, c) != [] ::
          f.Target(i, d) == f.Target(j, e) ==> i == j && d == e)
  }

  // One cycle took every waiting wavelet across its link and dropped nothing.
  ghost predicate Delivered(f: Fabric, g: Fabric)
    requires f.Valid() && g.Valid() && g.SameShape(f)
  {
    && NoRoutes(g) && g.dropped == f.dropped && g.cycle == f.cycle + 1
    && (forall i, d: Dir, c: Color | 0 <= i < |f.pes| && Routable(c) :: g.Out(i, d, c) == [])
    && (forall i, d: Dir, c: Color | 0 <= i < |f.pes| && Routable(c) && f.Out(i, d, c) != [] && f.Target(i, d).Some? ::
          g.In(f.Target(i, d).value, c) == f.Out(i, d, c))
    && (forall t, c: Color | 0 <= t < |f.pes| && Routable(c) &&
          (forall i, d: Dir | 0 <= i < |f.pes| && f.Target(i, d) == Some(t) :: f.Out(i, d, c) == []) ::
          g.In(t, c) == f.In(t, c))
  }

  /** Without contention one cycle empties every output channel across its link, and drops nothing. */
  lemma UncontendedStep(f: Fabric)
    requires f.Valid() && NoRoutes(f) && Uncontended(f)
    ensures Delivered(f, f.Step())
  {
    hide Fabric.HopAll, Fabric.SnapshotFrom;
    UnroutedPhase(f);
    SnapshotExact(f);
    var ms := f.SnapshotFrom(0, 0, 0);
    SnapshotFree(f, ms);
    HopsUncontended(f, ms);
    var h := f.HopAll(ms);
    SnapshotMoved(f, ms, h);
    var g := f.Step();
    assert g.pes == h.pes && g.dropped == h.dropped;
    assert forall i, d: Dir, c: Color | 0 <= i < |f.pes| && Routable(c) :: g.Out(i, d, c) == h.Out(i, d, c);
    assert forall i, c: Color | 0 <= i < |f.pes| && Routable(c) :: g.In(i, c) == h.In(i, c);
  }

  lemma SnapshotFree(f: Fabric, ms: seq<Move>)
    requires f.Valid() && f.AllRanged(ms) && Exact(f, ms) && Ascending(ms) && Uncontended(f)
    ensures Free(f, ms)
  {
    forall k | 0 <= k < |ms|
      ensures f.Target(ms[k].pe, ms[k].d).Some? && f.In(f.Target(ms[k].pe, ms[k].d).value, ms[k].c) == []
    {
      assert f.Out(ms[k].pe, ms[k].d, ms[k].c) != [];
    }
    forall k, l | 0 <= k < l < |ms| && ms[k].c == ms[l].c
      ensures f.Target(ms[k].pe, ms[k].d) != f.Target(ms[l].pe, ms[l].d)
    {
      assert f.Out(ms[k].pe, ms[k].d, ms[k].c) != [] && f.Out(ms[l].pe, ms[l].d, ms[l].c) != [];
      assert Rank(ms[k]) < Rank(ms[l]);
    }
  }

  lemma SnapshotMoved(f: Fabric, ms: seq<Move>, g: Fabric)
    requires f.Valid() && f.AllRanged(ms) && Exact(f, ms)
    requires forall i, d: Dir, c: Color | 0 <= i < |f.pes| && Routable(c) && f.Out(i, d, c) != [] ::
               Move(i, d, c, |f.Out(i, d, c)|) in ms
    requires g.Valid() && g.SameShape(f) && Moved(f, ms, g)
    ensures forall i, d: Dir, c: Color | 0 <= i < |f.pes| && Routable(c) :: g.Out(i, d, c) == []
    ensures forall i, d: Dir, c: Color | 0 <= i < |f.pes| && Routable(c) && f.Out(i, d, c) != [] && f.Target(i, d).Some? ::
              g.In(f.Target(i, d).value, c) == f.Out(i, d, c)
    ensures forall t, c: Color | 0 <= t < |f.pes| && Routable(c) &&
              (forall i, d: Dir | 0 <= i < |f.pes| && f.Target(i, d) == Some(t) :: f.Out(i, d, c) == []) ::
              g.In(t, c) == f.In(t, c)
  {
    forall i, d: Dir, c: Color | 0 <= i < |f.pes| && Routable(c)
      ensures g.Out(i, d, c) == []
      ensures f.Out(i, d, c) != [] && f.Target(i, d).Some? ==> g.In(f.Target(i, d).value, c) == f.Out(i, d, c)
    {
      if f.Out(i, d, c) != [] {
        var k :| 0 <= k < |ms| && ms[k] == Move(i, d, c, |f.Out(i, d, c)|);
        assert Names(ms[k], i, d, c);
        assert Listed(ms, i, d, c);
      }
    }
    forall t, c: Color | 0 <= t < |f.pes| && Routable(c) &&
        (forall i, d: Dir | 0 <= i < |f.pes| && f.Target(i, d) == Some(t) :: f.Out(i, d, c) == [])
      ensures g.In(t, c) == f.In(t, c)
    {
      forall k | 0 <= k < |ms|
        ensures !(ms[k].c == c && f.Target(ms[k].pe, ms[k].d) == Some(t))
      {
        assert f.Out(ms[k].pe, ms[k].d, ms[k].c) != [];
      }
      assert !Aimed(f, ms, t, c);
    }
  }
}
