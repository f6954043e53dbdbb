/** The tuning database: entries in key order, the gpu leading, so that each gpu's entries form one run. */
module TuningDbs {
  import opened Wavelets
  import opened Texts
  import opened JsonTrees
  import opened TuningCaches

  datatype Key = Key(gpu: string, op: string, shape: Shape)

  function KeyOf(e: CacheEntry): Key {
    Key(e.gpu, e.op, e.shape)
  }

  // The key order: gpu, then op, then shape.
  predicate Less(a: Key, b: Key) {
    if a.gpu != b.gpu then TextLess(a.gpu, b.gpu)
    else if a.op != b.op then TextLess(a.op, b.op)
    else if a.shape.m != b.shape.m then a.shape.m < b.shape.m
    else if a.shape.n != b.shape.n then a.shape.n < b.shape.n
    else if a.shape.k != b.shape.k then a.shape.k < b.shape.k
    else TextLess(a.shape.dtype, b.shape.dtype)
  }

  /** The key order is a strict total order. */
  lemma LessIsStrictTotal(a: Key, b: Key, c: Key)
    ensures !Less(a, a)
    ensures a == b || Less(a, b) || Less(b, a)
    ensures Less(a, b) && Less(b, c) ==> Less(a, c)
  {
    TextOrder(a.gpu, b.gpu, c.gpu);
    TextOrder(a.op, b.op, c.op);
    TextOrder(a.shape.dtype, b.shape.dtype, c.shape.dtype);
    hide TextLess;
  }

  // What comes first decides: gpu, op, m, n, k, dtype.
  lemma LessByFirstDifference(a: Key, b: Key)
    ensures TextLess(a.gpu, b.gpu) ==> Less(a, b)
    ensures a.gpu == b.gpu && TextLess(a.op, b.op) ==> Less(a, b)
    ensures a.gpu == b.gpu && a.op == b.op && a.shape.m < b.shape.m ==> Less(a, b)
    ensures a.gpu == b.gpu && a.op == b.op && a.shape.m == b.shape.m && a.shape.n < b.shape.n ==> Less(a, b)
    ensures a.gpu == b.gpu && a.op == b.op && a.shape.m == b.shape.m && a.shape.n == b.shape.n && a.shape.k < b.shape.k ==> Less(a, b)
    ensures a == b.(shape := a.shape) && a.shape == b.shape.(dtype := a.shape.dtype) && TextLess(a.shape.dtype, b.shape.dtype) ==> Less(a, b)
  {
    TextLessIrreflexive(a.gpu);
    TextLessIrreflexive(a.op);
    hide TextLess;
  }

  lemma TextOrder(a: string, b: string, c: string)
    ensures !TextLess(a, a)
    ensures a == b || TextLess(a, b) || TextLess(b, a)
    ensures TextLess(a, b) && TextLess(b, c) ==> TextLess(a, c)
    ensures TextLess(a, b) ==> !TextLess(b, a)
  {
    TextLessIrreflexive(a);
    TextLessTotal(a, b);
    if TextLess(a, b) && TextLess(b, a) {
      TextLessTransitive(a, b, a);
    }
    if TextLess(a, b) && TextLess(b, c) {
      TextLessTransitive(a, b, c);
    }
  }

  predicate Sorted(keys: seq<Key>) {
    forall i, j | 0 <= i < j < |keys| :: Less(keys[i], keys[j])
  }

  // A table: its keys in iteration order, and the entry stored under each.
  datatype Table = Table(keys: seq<Key>, entries: map<Key, CacheEntry>)
  {
    ghost predicate Valid() {
      && Sorted(keys)
      && (forall k :: k in keys <==> k in entries)
      && (forall k | k in entries :: KeyOf(entries[k]) == k && k.gpu != "")
    }

    // Every entry, in key order.
    function All(): (r: seq<CacheEntry>)
      requires forall k | k in keys :: k in entries
      ensures |r| == |keys|
    {
      seq(|keys|, i requires 0 <= i < |keys| => entries[keys[i]])
    }
  }

  lemma KeysStored(t: Table)
    requires t.Valid()
    ensures forall k | k in t.keys :: k in t.entries
  {
  }

  const EMPTY_TABLE: Table := Table([], map[])

  lemma {:induction false} SortedIsUnique(p: seq<Key>, q: seq<Key>)
    requires Sorted(p) && Sorted(q) && forall k :: k in p <==> k in q
    ensures p == q
    decreases |p|
  {
    if p == [] {
      if q != [] {
        SomeMember(q);
      }
    } else {
      assert p[0] in p && (q != [] ==> q[0] in q);
      var i :| 0 <= i < |q| && q[i] == p[0];
      var j :| 0 <= j < |p| && p[j] == q[0];
      LessIsStrictTotal(p[0], q[0], p[0]);
      assert p[0] == q[0];
      forall k
        ensures k in p[1..] <==> k in q[1..]
      {
        RestMembers(p, k);
        RestMembers(q, k);
      }
      SortedIsUnique(p[1..], q[1..]);
      assert p == [p[0]] + p[1..] && q == [q[0]] + q[1..];
    }
  }

  lemma SomeMember(q: seq<Key>)
    requires q != []
    ensures exists k :: k in q
  {
    assert q[0] in q;
  }

  lemma RestMembers(p: seq<Key>, k: Key)
    requires Sorted(p) && p != []
    ensures k in p[1..] <==> k in p && k != p[0]
  {
    LessIsStrictTotal(p[0], p[0], p[0]);
    assert p == [p[0]] + p[1..];
    if k in p[1..] {
      var i :| 0 <= i < |p[1..]| && p[1..][i] == k;
      assert Less(p[0], p[i + 1]);
    }
  }

  // ----- Namespaces -----

  // A gpu is listed whenever it differs from the previous key's.
  function NamespacesOf(keys: seq<Key>): seq<string> {
    if keys == [] then []
    else
      var before, gpu := NamespacesOf(keys[..|keys| - 1]), keys[|keys| - 1].gpu;
      if before == [] || before[|before| - 1] != gpu then before + [gpu] else before
  }

  // The entries of one gpu, in key order.
  function EntriesOf(keys: seq<Key>, entries: map<Key, CacheEntry>, gpu: string): seq<CacheEntry>
    requires forall k | k in keys :: k in entries
  {
    if keys == [] then []
    else
      var last := keys[|keys| - 1];
      EntriesOf(keys[..|keys| - 1], entries, gpu) + if last.gpu == gpu then [entries[last]] else []
  }

  // The entries of several namespaces, one namespace after the other.
  function Listing(keys: seq<Key>, entries: map<Key, CacheEntry>, gpus: seq<string>): seq<CacheEntry>
    requires forall k | k in keys :: k in entries
  {
    if gpus == [] then []
    else Listing(keys, entries, gpus[..|gpus| - 1]) + EntriesOf(keys, entries, gpus[|gpus| - 1])
  }

  predicate HasGpu(keys: seq<Key>, gpu: string) {
    exists i :: 0 <= i < |keys| && keys[i].gpu == gpu
  }

  // The namespaces found so far are increasing and end with the last key's gpu.
  lemma {:induction false} NamespacesSorted(keys: seq<Key>)
    requires Sorted(keys)
    ensures var ns := NamespacesOf(keys);
      && (forall i, j | 0 <= i < j < |ns| :: TextLess(ns[i], ns[j]))
      && (keys != [] ==> ns != [] && ns[|ns| - 1] == keys[|keys| - 1].gpu)
    decreases |keys|
  {
    if keys != [] {
      hide TextLess, Less;
      var n := |keys| - 1;
      NamespacesSorted(keys[..n]);
      if n > 0 {
        GpusGrow(keys, NamespacesOf(keys[..n]));
      }
    }
  }

  // Exactly the gpus of the keys are listed.
  lemma {:induction false} NamespacesComplete(keys: seq<Key>, gpu: string)
    ensures gpu in NamespacesOf(keys) <==> HasGpu(keys, gpu)
    decreases |keys|
  {
    if keys != [] {
      var n := |keys| - 1;
      NamespacesComplete(keys[..n], gpu);
      assert HasGpu(keys, gpu) <==> HasGpu(keys[..n], gpu) || keys[n].gpu == gpu by {
        if HasGpu(keys[..n], gpu) {
          var i :| 0 <= i < n && keys[..n][i].gpu == gpu;
          assert keys[i].gpu == gpu;
        }
        if HasGpu(keys, gpu) && keys[n].gpu != gpu {
          var i :| 0 <= i < |keys| && keys[i].gpu == gpu;
          assert keys[..n][i].gpu == gpu;
        }
      }
    }
  }

  // A new gpu is greater than every one listed before it.
  lemma GpusGrow(keys: seq<Key>, ns: seq<string>)
    requires Sorted(keys) && |keys| > 1 && ns != [] && ns[|ns| - 1] == keys[|keys| - 2].gpu
    requires forall i, j | 0 <= i < j < |ns| :: TextLess(ns[i], ns[j])
    ensures ns[|ns| - 1] != keys[|keys| - 1].gpu ==> forall i | 0 <= i < |ns| :: TextLess(ns[i], keys[|keys| - 1].gpu)
  {
    var n := |keys| - 1;
    assert Less(keys[n - 1], keys[n]);
    hide TextLess;
    if ns[|ns| - 1] != keys[n].gpu {
      forall i | 0 <= i < |ns|
        ensures TextLess(ns[i], keys[n].gpu)
      {
        TextOrder(ns[i], ns[|ns| - 1], keys[n].gpu);
      }
    }
  }

  lemma {:induction false} ListingSnoc(keys: seq<Key>, entries: map<Key, CacheEntry>, gpus: seq<string>)
    requires keys != [] && forall k | k in keys :: k in entries
    requires keys[|keys| - 1].gpu !in gpus
    ensures Listing(keys, entries, gpus) == Listing(keys[..|keys| - 1], entries, gpus)
    decreases |gpus|
  {
    if gpus != [] {
      ListingSnoc(keys, entries, gpus[..|gpus| - 1]);
    }
  }

  // The last key's gpu is the last namespace and no earlier one; the namespaces before it are those of the other keys, or those but it.
  lemma LastNamespace(keys: seq<Key>)
    requires Sorted(keys) && keys != []
    ensures var ns, prior, last := NamespacesOf(keys), NamespacesOf(keys[..|keys| - 1]), keys[|keys| - 1].gpu;
      && ns != [] && ns[|ns| - 1] == last && last !in ns[..|ns| - 1]
      && (ns == prior || (ns[..|ns| - 1] == prior && !HasGpu(keys[..|keys| - 1], last)))
  {
    var n := |keys| - 1;
    var ns, prior, last := NamespacesOf(keys), NamespacesOf(keys[..n]), keys[n].gpu;
    NamespacesSorted(keys);
    NamespacesSorted(keys[..n]);
    NamespacesComplete(keys[..n], last);
    forall i | 0 <= i < |ns| - 1
      ensures ns[i] != last
    {
      TextLessIrreflexive(last);
    }
    hide TextLess, Less, HasGpu;
    assert ns != prior ==> ns == prior + [last];
  }

  /** Listing the namespaces one after the other lists every entry once, in key order. */
  lemma {:induction false} NamespacesPartition(keys: seq<Key>, entries: map<Key, CacheEntry>)
    requires Sorted(keys) && forall k | k in keys :: k in entries
    ensures Listing(keys, entries, NamespacesOf(keys)) == Table(keys, entries).All()
    decreases |keys|
  {
    hide NamespacesOf, Less;
    if keys == [] {
      NoNamespaces();
    } else {
      var n := |keys| - 1;
      var before := keys[..n];
      NamespacesPartition(before, entries);
      LastNamespace(keys);
      var ns, prior := NamespacesOf(keys), NamespacesOf(before);
      LastListing(keys, entries, ns, prior);
      AllSnoc(keys, entries);
    }
  }

  lemma AllSnoc(keys: seq<Key>, entries: map<Key, CacheEntry>)
    requires keys != [] && forall k | k in keys :: k in entries
    ensures Table(keys, entries).All() == Table(keys[..|keys| - 1], entries).All() + [entries[keys[|keys| - 1]]]
  {
  }

  // Adding the last key adds its entry at the end of the listing.
  lemma LastListing(keys: seq<Key>, entries: map<Key, CacheEntry>, ns: seq<string>, prior: seq<string>)
    requires keys != [] && forall k | k in keys :: k in entries
    requires ns != [] && ns[|ns| - 1] == keys[|keys| - 1].gpu && keys[|keys| - 1].gpu !in ns[..|ns| - 1]
    requires ns == prior || (ns[..|ns| - 1] == prior && !HasGpu(keys[..|keys| - 1], keys[|keys| - 1].gpu))
    ensures Listing(keys, entries, ns) == Listing(keys[..|keys| - 1], entries, prior) + [entries[keys[|keys| - 1]]]
  {
    var before, last := keys[..|keys| - 1], keys[|keys| - 1];
    ListingSnoc(keys, entries, ns[..|ns| - 1]);
    assert EntriesOf(keys, entries, last.gpu) == EntriesOf(before, entries, last.gpu) + [entries[last]];
    if ns != prior {
      NoEntries(before, entries, last.gpu);
    }
    assert Listing(before, entries, ns[..|ns| - 1]) + EntriesOf(before, entries, last.gpu) == Listing(before, entries, prior);
  }

  lemma NoNamespaces()
    ensures NamespacesOf([]) == []
  {
  }

  lemma {:induction false} NoEntries(keys: seq<Key>, entries: map<Key, CacheEntry>, gpu: string)
    requires !HasGpu(keys, gpu) && forall k | k in keys :: k in entries
    ensures EntriesOf(keys, entries, gpu) == []
    decreases |keys|
  {
    if keys != [] {
      var n := |keys| - 1;
      assert forall i | 0 <= i < n :: keys[..n][i] == keys[i];
      NoEntries(keys[..n], entries, gpu);
    }
  }

  /** The database: an ordered map updated in place. */
  class AmdTuningDb {
    var table: Table

    ghost predicate Valid()
      reads this
    {
      table.Valid()
    }

    constructor ()
      ensures Valid() && table == EMPTY_TABLE
    {
      table := EMPTY_TABLE;
    }

    // Store the entry under its own key, replacing what was there; an entry without a gpu is refused.
    method Put(e: CacheEntry) returns (ok: bool)
      requires Valid()
      modifies this
      ensures Valid()
      ensures ok == (e.gpu != "")
      ensures table.entries == if ok then old(table.entries)[KeyOf(e) := e] else old(table.entries)
      ensures !ok ==> table == old(table)
    {
      if e.gpu == "" {
        return false;
      }
      var k, i := KeyOf(e), 0;
      while i < |table.keys| && Less(table.keys[i], k)
        invariant 0 <= i <= |table.keys|
        invariant forall j | 0 <= j < i :: Less(table.keys[j], k)
      {
        i := i + 1;
      }
      PlaceKeepsOrder(table.keys, i, k);
      table := Table(Placed(table.keys, i, k), table.entries[k := e]);
      return true;
    }

    function Get(gpu: string, op: string, shape: Shape): (r: Option<CacheEntry>)
      requires Valid()
      reads this
      ensures r.Some? ==> KeyOf(r.value) == Key(gpu, op, shape)
      ensures r.Some? <==> Key(gpu, op, shape) in table.entries
    {
      var k := Key(gpu, op, shape);
      if k in table.entries then Some(table.entries[k]) else None
    }

    method Entries(gpu: string) returns (out: seq<CacheEntry>)
      requires Valid()
      ensures out == EntriesOf(table.keys, table.entries, gpu)
    {
      hide Table.Valid;
      KeysStored(table);
      out := [];
      for i := 0 to |table.keys|
        invariant out == EntriesOf(table.keys[..i], table.entries, gpu)
      {
        assert table.keys[..i + 1][..i] == table.keys[..i];
        var k := table.keys[i];
        if k.gpu == gpu {
          out := out + [table.entries[k]];
        }
      }
      assert table.keys[..|table.keys|] == table.keys;
    }

    method Namespaces() returns (out: seq<string>)
      requires Valid()
      ensures out == NamespacesOf(table.keys)
    {
      hide Table.Valid;
      out := [];
      for i := 0 to |table.keys|
        invariant out == NamespacesOf(table.keys[..i])
      {
        assert table.keys[..i + 1][..i] == table.keys[..i];
        if out == [] || out[|out| - 1] != table.keys[i].gpu {
          out := out + [table.keys[i].gpu];
        }
      }
      assert table.keys[..|table.keys|] == table.keys;
    }

    method Serialize() returns (doc: Json)
      requires Valid()
      ensures doc == EncodeTable(table)
    {
      var entries := [];
      for i := 0 to |table.keys|
        invariant entries == table.All()[..i]
      {
        entries := entries + [table.entries[table.keys[i]]];
      }
      assert table.All()[..|table.keys|] == table.All();
      doc := SerializeTuningCache(TuningCache(VERSION, entries));
    }
  }

  // Where a key goes: before the first key not less than it, or over an equal one.
  function Placed(keys: seq<Key>, i: nat, k: Key): seq<Key>
    requires i <= |keys|
  {
    if i < |keys| && keys[i] == k then keys else keys[..i] + [k] + keys[i..]
  }

  lemma PlaceKeepsOrder(keys: seq<Key>, i: nat, k: Key)
    requires Sorted(keys) && i <= |keys|
    requires forall j | 0 <= j < i :: Less(keys[j], k)
    requires i < |keys| ==> !Less(keys[i], k)
    ensures Sorted(Placed(keys, i, k))
    ensures forall x :: x in Placed(keys, i, k) <==> x in keys || x == k
  {
    var p := Placed(keys, i, k);
    if p != keys {
      assert keys == keys[..i] + keys[i..];
      forall j | i <= j < |keys|
        ensures Less(k, keys[j])
      {
        LessIsStrictTotal(keys[i], k, k);
        LessIsStrictTotal(k, keys[i], keys[j]);
      }
      hide Less;
    } else {
      hide Less;
      assert i < |keys| && keys[i] == k ==> k in keys;
      if !(i < |keys| && keys[i] == k) {
        assert |p| == |keys| + 1;
      }
    }
  }

  // ----- Documents -----

  function EncodeTable(t: Table): Json
    requires forall k | k in t.keys :: k in t.entries
  {
    EncodeCache(TuningCache(VERSION, t.All()))
  }

  // The entries stored by putting them one after the other.
  function PutAll(entries: seq<CacheEntry>): map<Key, CacheEntry> {
    if entries == [] then map[]
    else PutAll(entries[..|entries| - 1])[KeyOf(entries[|entries| - 1]) := entries[|entries| - 1]]
  }

  function FirstWithoutGpu(entries: seq<CacheEntry>): (i: nat)
    ensures i <= |entries| && (i < |entries| ==> entries[i].gpu == "")
    ensures forall j | 0 <= j < i :: entries[j].gpu != ""
  {
    if entries == [] then 0
    else
      var i := FirstWithoutGpu(entries[..|entries| - 1]);
      if i < |entries| - 1 || entries[|entries| - 1].gpu == "" then i else |entries|
  }

  // What a document loads as.
  function DecodeTable(doc: Json): Result<map<Key, CacheEntry>> {
    var cache :- DecodeCache(doc);
    var i := FirstWithoutGpu(cache.entries);
    if i < |cache.entries| then Err(Error([Field(Entries), Item(i), Field(Gpu)], EmptyGpu))
    else Ok(PutAll(cache.entries))
  }

  // Parse a document into a new database.
  method ParseDb(doc: Json) returns (r: Result<AmdTuningDb>)
    ensures r.Ok? ==> fresh(r.value) && r.value.Valid() && DecodeTable(doc) == Ok(r.value.table.entries)
    ensures r.Err? ==> DecodeTable(doc) == Err(r.error)
  {
    hide DecodeCache, Table.Valid;
    var parsed := ParseTuningCache(doc);
    if parsed.Err? {
      return Err(parsed.error);
    }
    var entries := parsed.value.entries;
    var db := new AmdTuningDb();
    for i := 0 to |entries|
      invariant fresh(db) && db.Valid() && db.table.entries == PutAll(entries[..i])
      invariant forall j | 0 <= j < i :: entries[j].gpu != ""
    {
      var ok := db.Put(entries[i]);
      if !ok {
        return Err(Error([Field(Entries), Item(i), Field(Gpu)], EmptyGpu));
      }
      assert entries[..i + 1][..i] == entries[..i] && entries[..i + 1][i] == entries[i];
    }
    assert entries[..|entries|] == entries;
    return Ok(db);
  }

  // Putting the entries of a table in key order rebuilds it.
  lemma {:induction false} PutAllInOrder(t: Table, n: nat)
    requires t.Valid() && n <= |t.keys|
    ensures forall k :: k in PutAll(t.All()[..n]) <==> k in t.keys[..n]
    ensures forall k | k in t.keys[..n] :: PutAll(t.All()[..n])[k] == t.entries[k]
  {
    if n > 0 {
      PutAllInOrder(t, n - 1);
      var k := t.keys[n - 1];
      assert t.All()[..n][..n - 1] == t.All()[..n - 1] && t.All()[..n][n - 1] == t.entries[k];
      assert t.keys[..n] == t.keys[..n - 1] + [k];
      assert k in t.keys;
    }
  }

  /** Parsing a serialized database restores every entry. */
  lemma TableRoundTrip(t: Table)
    requires t.Valid()
    ensures DecodeTable(Reread(EncodeTable(t))) == Ok(t.entries)
  {
    hide DecodeCache, EncodeCache, Reread;
    RoundTrip(TuningCache(VERSION, t.All()));
    forall i | 0 <= i < |t.keys|
      ensures t.All()[i].gpu != ""
    {
      assert t.keys[i] in t.keys;
    }
    PutAllInOrder(t, |t.keys|);
    assert t.All()[..|t.keys|] == t.All() && t.keys[..|t.keys|] == t.keys;
    assert PutAll(t.All()) == t.entries;
  }

  ghost predicate TableFinite(t: Table) {
    forall k | k in t.entries :: EntryFinite(t.entries[k])
  }

  lemma TablePrintable(t: Table)
    requires t.Valid()
    ensures Printable(EncodeTable(t)) <==> TableFinite(t)
  {
    CachePrintable(TuningCache(VERSION, t.All()));
    hide EncodeCache, EntryFinite, Printable;
    if TableFinite(t) {
      assert forall i | 0 <= i < |t.keys| :: t.keys[i] in t.keys;
    }
    if forall i | 0 <= i < |t.keys| :: EntryFinite(t.All()[i]) {
      forall k | k in t.entries
        ensures EntryFinite(t.entries[k])
      {
        assert k in t.keys;
        var i :| 0 <= i < |t.keys| && t.keys[i] == k;
        assert t.All()[i] == t.entries[k];
      }
    }
  }
}
