/** The runtime's kernel cache: selection, the binary side table, invalidation, persistence. */
module KernelCaches {
  import opened Wavelets
  import opened JsonTrees
  import opened TuningCaches
  import opened TuningDbs
  import opened KernelKeys
  import opened KernelBinaries

  // ----- The host -----

  // Document text and file hashing, as the host provides them.
  datatype Host = Host(render: Json -> string, parse: string -> Option<Json>, hash: string -> string)

  // The text of a tree parses to it, whole doubles read as integers, unless a number in it is not finite.
  ghost predicate Prints(host: Host, j: Json) {
    host.parse(host.render(j)) == if Printable(j) then Some(Reread(j)) else None
  }

  /** Files by path; some paths cannot be opened for writing, some directories cannot be created. */
  class Disk {
    var files: map<string, string>
    const opens: string -> bool
    const creates: string -> bool

    constructor (files: map<string, string>, opens: string -> bool, creates: string -> bool)
      ensures this.files == files && this.opens == opens && this.creates == creates
    {
      this.files := files;
      this.opens := opens;
      this.creates := creates;
    }

    method WriteFile(path: string, content: string) returns (ok: bool)
      modifies this
      ensures ok == opens(path)
      ensures files == if ok then old(files)[path := content] else old(files)
    {
      ok := opens(path);
      if ok {
        files := files[path := content];
      }
    }
  }

  const TUNING_FILE: string := "/tuning_db.json"
  const BINARIES_FILE: string := "/binaries.json"

  lemma PathsDiffer(dir: string)
    ensures dir + TUNING_FILE != dir + BINARIES_FILE
  {
    assert |dir + TUNING_FILE| == |dir| + 15 && |dir + BINARIES_FILE| == |dir| + 14;
  }

  lemma PathsAre(dir: string)
    ensures dir + TUNING_FILE == dir + "/tuning_db.json" && dir + BINARIES_FILE == dir + "/binaries.json"
  {
  }

  // ----- Outcomes -----

  datatype Selection = Served(entry: CacheEntry) | NoKernel(key: string) | NotValidated(key: string)

  datatype Failure =
    | CannotCreate(dir: string)
    | CannotWrite(path: string)
    | CannotRead(path: string)
    | MalformedJson(file: string)
    | BadSchema(file: string, error: Error)

  datatype Outcome<+T> = Done(value: T) | Failed(failure: Failure)
  {
    predicate IsFailure() {
      Failed?
    }

    function PropagateFailure<U>(): Outcome<U>
      requires Failed?
    {
      Failed(failure)
    }

    function Extract(): T
      requires Done?
    {
      value
    }
  }

  function ReadFile(files: map<string, string>, path: string): Outcome<string> {
    if path in files then Done(files[path]) else Failed(CannotRead(path))
  }

  function ReadDocument(host: Host, text: string, file: string): Outcome<Json> {
    match host.parse(text)
    case None => Failed(MalformedJson(file))
    case Some(j) => Done(j)
  }

  function FromResult<T>(r: Result<T>, file: string): Outcome<T> {
    match r
    case Ok(v) => Done(v)
    case Err(e) => Failed(BadSchema(file, e))
  }

  // What a cache directory loads as; both files are read before either is parsed.
  function LoadResult(files: map<string, string>, host: Host, dir: string): Outcome<(map<Key, CacheEntry>, map<string, CachedBinary>)> {
    var tuningText :- ReadFile(files, dir + TUNING_FILE);
    var binariesText :- ReadFile(files, dir + BINARIES_FILE);
    var tuning :- ReadDocument(host, tuningText, TUNING_FILE);
    var entries :- FromResult(DecodeTable(tuning), TUNING_FILE);
    var binaries :- ReadDocument(host, binariesText, BINARIES_FILE);
    var bins :- FromResult(DecodeBinaries(binaries, entries), BINARIES_FILE);
    Done((entries, bins))
  }

  // A directory as Persist leaves it.
  function Persisted(files: map<string, string>, host: Host, dir: string, t: Table, bins: map<string, CachedBinary>): map<string, string>
    requires forall k | k in t.keys :: k in t.entries
  {
    files[dir + TUNING_FILE := host.render(EncodeTable(t))][dir + BINARIES_FILE := host.render(EncodeBinaries(t.All(), bins))]
  }

  lemma PersistedIs(files: map<string, string>, host: Host, dir: string, t: Table, bins: map<string, CachedBinary>)
    requires forall k | k in t.keys :: k in t.entries
    ensures Persisted(files, host, dir, t, bins) ==
      files[dir + TUNING_FILE := host.render(EncodeTable(t))][dir + BINARIES_FILE := host.render(EncodeBinaries(t.All(), bins))]
  {
  }

  /** What was persisted loads exactly when every number stored is finite, and then with every entry; the side table comes back as it was
      exactly when every binary belonged to an entry. */
  lemma PersistThenLoad(files: map<string, string>, host: Host, dir: string, t: Table, bins: map<string, CachedBinary>)
    requires t.Valid() && Prints(host, EncodeTable(t)) && Prints(host, EncodeBinaries(t.All(), bins))
    ensures var r := LoadResult(Persisted(files, host, dir, t, bins), host, dir);
      && (r.Done? <==> TableFinite(t))
      && (r.Done? ==> r.value.0 == t.entries && (r.value.1 == bins <==> Backed(t.entries, bins)))
  {
    hide Reread, Printable, DecodeTable, EncodeTable, DecodeBinaries, EncodeBinaries, Backed, TableFinite, TUNING_FILE, BINARIES_FILE;
    PathsDiffer(dir);
    TablePrintable(t);
    BinariesPrintable(t.All(), bins);
    TableRoundTrip(t);
    BinariesRoundTrip(t, bins);
  }

  // ----- The cache -----

  class KernelCache {
    var db: AmdTuningDb
    var binaries: map<string, CachedBinary>

    ghost predicate Valid()
      reads this, db
    {
      db.Valid()
    }

    constructor ()
      ensures Valid() && fresh(db) && db.table == EMPTY_TABLE && binaries == map[]
    {
      db := new AmdTuningDb();
      binaries := map[];
    }

    // Replaces the entries and keeps the binaries.
    method LoadTuningCache(host: Host, text: string) returns (r: Outcome<()>)
      requires Valid()
      modifies this`db
      ensures Valid()
      ensures r.Failed? ==> db == old(db)
      ensures match host.parse(text)
        case None => r.Failed?
        case Some(doc) => r.Failed? == DecodeTable(doc).Err? && (r.Done? ==> fresh(db) && DecodeTable(doc) == Ok(db.table.entries))
    {
      var doc :- ReadDocument(host, text, TUNING_FILE);
      var parsed := ParseDb(doc);
      if parsed.Err? {
        return Failed(BadSchema(TUNING_FILE, parsed.error));
      }
      db := parsed.value;
      return Done(());
    }

    method Put(e: CacheEntry) returns (ok: bool)
      requires Valid()
      modifies db
      ensures Valid() && ok == (e.gpu != "")
      ensures db.table.entries == if ok then old(db.table.entries)[KeyOf(e) := e] else old(db.table.entries)
    {
      ok := db.Put(e);
    }

    // Only a validated entry of the requested key is ever served.
    function Select(gpu: string, op: string, shape: Shape): (r: Selection)
      requires Valid()
      reads this, db
      ensures r.Served? <==> Key(gpu, op, shape) in db.table.entries && db.table.entries[Key(gpu, op, shape)].validated
      ensures r.Served? ==> r.entry == db.table.entries[Key(gpu, op, shape)] && KeyOf(r.entry) == Key(gpu, op, shape)
      ensures r.NoKernel? <==> Key(gpu, op, shape) !in db.table.entries
    {
      var entry := db.Get(gpu, op, shape);
      if entry.None? then NoKernel(FormatKey(gpu, op, shape))
      else if !entry.value.validated then NotValidated(FormatKey(gpu, op, shape))
      else Served(entry.value)
    }

    // One outcome per gpu, in the order asked.
    method SelectPerGpu(gpus: seq<string>, op: string, shape: Shape) returns (out: seq<(string, Selection)>)
      requires Valid()
      ensures |out| == |gpus| && forall i | 0 <= i < |gpus| :: out[i] == (gpus[i], Select(gpus[i], op, shape))
    {
      out := [];
      for i := 0 to |gpus|
        invariant |out| == i && forall j | 0 <= j < i :: out[j] == (gpus[j], Select(gpus[j], op, shape))
      {
        out := out + [(gpus[i], Select(gpus[i], op, shape))];
      }
    }

    // A binary is recorded only for an entry that is there.
    method PutBinary(gpu: string, op: string, shape: Shape, b: CachedBinary) returns (ok: bool)
      requires Valid()
      modifies this`binaries
      ensures Valid() && ok == (Key(gpu, op, shape) in db.table.entries)
      ensures binaries == if ok then old(binaries)[FormatKey(gpu, op, shape) := b] else old(binaries)
      ensures old(Backed(db.table.entries, binaries)) ==> Backed(db.table.entries, binaries)
      ensures ok && AllSlashFree(db.table.entries) ==>
        View(db.table.entries, binaries) == old(View(db.table.entries, binaries))[Key(gpu, op, shape) := b]
    {
      hide FormatKey;
      if gpu == "" || db.Get(gpu, op, shape).None? {
        return false;
      }
      ghost var k := Key(gpu, op, shape);
      if AllSlashFree(db.table.entries) {
        ViewAfterPutBinary(db.table.entries, binaries, k, b);
      }
      binaries := binaries[FormatKey(gpu, op, shape) := b];
      assert KeyText(k) == FormatKey(gpu, op, shape);
      return true;
    }

    function GetBinary(gpu: string, op: string, shape: Shape): (r: Option<CachedBinary>)
      requires Valid()
      reads this, db
      ensures Key(gpu, op, shape) in db.table.entries ==>
        r == var view := View(db.table.entries, binaries); if Key(gpu, op, shape) in view then Some(view[Key(gpu, op, shape)]) else None
    {
      var text := FormatKey(gpu, op, shape);
      assert text == KeyText(Key(gpu, op, shape));
      if text in binaries then Some(binaries[text]) else None
    }

    // ----- Invalidation -----

    // Hash every recorded file and collect the keys that no longer match.
    method FindStale(files: map<string, string>, host: Host) returns (stale: set<string>)
      ensures stale == Stale(files, host.hash, binaries)
    {
      stale := {};
      var todo := binaries.Keys;
      while todo != {}
        invariant todo <= binaries.Keys
        invariant forall text :: text in stale <==> text in binaries && text !in todo && !Current(files, host.hash, binaries[text])
        decreases |todo|
      {
        var text :| text in todo;
        todo := todo - {text};
        var hash := HashOf(files, host.hash, binaries[text].soPath);
        if hash.None? || hash.value != binaries[text].kernelHash {
          stale := stale + {text};
        }
      }
    }

    // The entries whose key is not stale, put one namespace after the other into a new database.
    method Rebuild(stale: set<string>) returns (rebuilt: AmdTuningDb)
      requires Valid()
      ensures fresh(rebuilt) && rebuilt.Valid()
      ensures rebuilt.table.entries == KeptEntries(db.table.entries, stale)
    {
      hide KeyText, FormatKey, Keeps, Listing, EntriesOf, NamespacesOf, KeptEntries;
      rebuilt := new AmdTuningDb();
      var t := db.table;
      var gpus := db.Namespaces();
      KeepNothing(t, stale);
      for n := 0 to |gpus|
        invariant fresh(rebuilt) && rebuilt.Valid() && db.table == t
        invariant Keeps(rebuilt.table.entries, Listing(t.keys, t.entries, gpus[..n]), stale)
      {
        var es := db.Entries(gpus[n]);
        ghost var before := Listing(t.keys, t.entries, gpus[..n]);
        assert before + es[..0] == before;
        ListingGrows(t, gpus, n);
        for i := 0 to |es|
          invariant fresh(rebuilt) && rebuilt.Valid() && db.table == t
          invariant Keeps(rebuilt.table.entries, before + es[..i], stale)
        {
          ghost var kept := rebuilt.table.entries;
          GpuPresent(t, gpus, n, es, i);
          if FormatKey(es[i].gpu, es[i].op, es[i].shape) !in stale {
            var ok := rebuilt.Put(es[i]);
          }
          TakeNext(before, es, i);
          KeepOne(kept, before + es[..i], stale, es[i]);
        }
        assert before + es[..|es|] == Listing(t.keys, t.entries, gpus[..n + 1]);
      }
      assert gpus[..|gpus|] == gpus;
      KeptAll(t, rebuilt.table.entries, stale);
    }

    /** Drop every entry whose recorded binary is gone or changed, from both tables: a binary stays exactly when its file is there and what
        the file holds hashes as recorded, an entry goes exactly when the binary under its key text went, and nothing else changes. */
    method InvalidateStale(disk: Disk, host: Host) returns (count: nat)
      requires Valid()
      modifies this
      ensures Valid() && (db == old(db) || fresh(db))
      ensures forall text :: text in binaries <==>
        && text in old(binaries) && old(binaries)[text].soPath in disk.files
        && host.hash(disk.files[old(binaries)[text].soPath]) == old(binaries)[text].kernelHash
      ensures forall text | text in binaries :: binaries[text] == old(binaries)[text]
      ensures forall k :: k in db.table.entries <==>
        k in old(db.table.entries) && (KeyText(k) in old(binaries) ==> KeyText(k) in binaries)
      ensures forall k | k in db.table.entries :: db.table.entries[k] == old(db.table.entries)[k]
      ensures count == |old(binaries).Keys - binaries.Keys|
      ensures var stale := Stale(disk.files, host.hash, old(binaries));
        && count == |stale|
        && binaries == old(binaries) - stale
        && db.table.entries == KeptEntries(old(db.table.entries), stale)
      ensures old(Backed(db.table.entries, binaries)) ==> Backed(db.table.entries, binaries)
      ensures old(Backed(db.table.entries, binaries)) ==> Stale(disk.files, host.hash, binaries) == {}
    {
      hide KeyText, Stale, KeptEntries, Backed;
      var stale := FindStale(disk.files, host);
      SurvivesIff(disk.files, host.hash, db.table.entries, binaries);
      if Backed(db.table.entries, binaries) {
        InvalidationSettles(disk.files, host.hash, db.table.entries, binaries);
      }
      if stale == {} {
        AllKept(db.table.entries, binaries);
        return 0;
      }
      var rebuilt := Rebuild(stale);
      db := rebuilt;
      binaries := binaries - stale;
      return |stale|;
    }

    // ----- Persistence -----

    // One record per entry that has a binary, one namespace after the other.
    method SerializeBinaries() returns (doc: Json)
      requires Valid()
      ensures doc == EncodeBinaries(db.table.All(), binaries)
    {
      hide KeyText, FormatKey, EncodeRecord, WithBinary, Listing, EntriesOf, NamespacesOf;
      NothingListed(db.table, binaries);
      var t := db.table;
      var gpus := db.Namespaces();
      var es := [];
      for n := 0 to |gpus|
        invariant es == WithBinary(Listing(t.keys, t.entries, gpus[..n]), binaries)
      {
        var some := db.Entries(gpus[n]);
        ghost var before := Listing(t.keys, t.entries, gpus[..n]);
        assert before + some[..0] == before;
        ListingGrows(t, gpus, n);
        for i := 0 to |some|
          invariant es == WithBinary(before + some[..i], binaries)
        {
          TakeNext(before, some, i);
          WithBinarySnoc(before + some[..i], some[i], binaries);
          FormatIsKeyText(some[i]);
          if FormatKey(some[i].gpu, some[i].op, some[i].shape) in binaries {
            es := es + [some[i]];
          }
        }
        assert before + some[..|some|] == Listing(t.keys, t.entries, gpus[..n + 1]);
      }
      assert gpus[..|gpus|] == gpus;
      NamespacesPartition(t.keys, t.entries);
      doc := Obj(map[Version := Int(VERSION), Binaries := Arr(Records(es, binaries))]);
    }

    // Write the two files, the database first.
    method Persist(disk: Disk, host: Host, dir: string) returns (r: Outcome<()>)
      requires Valid() && disk as object != this && disk as object != db
      modifies disk
      ensures Valid() && db.table == old(db.table)
      ensures r.Done? ==> disk.files == Persisted(old(disk.files), host, dir, db.table, binaries)
      ensures r.Done? ==> dir + "/tuning_db.json" in disk.files && dir + "/binaries.json" in disk.files
      ensures r.Done? <==> disk.creates(dir) && disk.opens(dir + TUNING_FILE) && disk.opens(dir + BINARIES_FILE)
      ensures !disk.creates(dir) || !disk.opens(dir + TUNING_FILE) ==> disk.files == old(disk.files)
    {
      PathsAre(dir);
      hide TUNING_FILE, BINARIES_FILE, Persisted;
      if !disk.creates(dir) {
        return Failed(CannotCreate(dir));
      }
      var tuning := db.Serialize();
      var ok := disk.WriteFile(dir + TUNING_FILE, host.render(tuning));
      if !ok {
        return Failed(CannotWrite(dir + TUNING_FILE));
      }
      var bins := SerializeBinaries();
      ok := disk.WriteFile(dir + BINARIES_FILE, host.render(bins));
      if !ok {
        return Failed(CannotWrite(dir + BINARIES_FILE));
      }
      PersistedIs(old(disk.files), host, dir, db.table, binaries);
      return Done(());
    }

    // Parse into temporaries; only a load that succeeded replaces anything.
    method LoadPersisted(disk: Disk, host: Host, dir: string) returns (r: Outcome<()>)
      requires Valid()
      modifies this
      ensures Valid()
      ensures match LoadResult(disk.files, host, dir)
        case Failed(f) => r == Failed(f) && db == old(db) && db.table == old(db.table) && binaries == old(binaries)
        case Done(loaded) => r.Done? && fresh(db) && db.table.entries == loaded.0 && binaries == loaded.1
      ensures r.Done? ==> Backed(db.table.entries, binaries)
    {
      hide TUNING_FILE, BINARIES_FILE, DecodeTable, DecodeBinaries, KeyText;
      var tuningText :- ReadFile(disk.files, dir + TUNING_FILE);
      var binariesText :- ReadFile(disk.files, dir + BINARIES_FILE);
      var tuning :- ReadDocument(host, tuningText, TUNING_FILE);
      var parsed := ParseDb(tuning);
      if parsed.Err? {
        return Failed(BadSchema(TUNING_FILE, parsed.error));
      }
      var doc :- ReadDocument(host, binariesText, BINARIES_FILE);
      var bins := ParseBinaries(doc, parsed.value);
      if bins.Err? {
        return Failed(BadSchema(BINARIES_FILE, bins.error));
      }
      LoadedIsBacked(doc, parsed.value.table.entries);
      db := parsed.value;
      binaries := bins.value;
      return Done(());
    }
  }

  lemma AllKept(entries: map<Key, CacheEntry>, bins: map<string, CachedBinary>)
    ensures KeptEntries(entries, {}) == entries && bins - {} == bins
  {
  }

  // A binary recorded with its file's present hash outlives an invalidation.
  method FreshBinary(cache: KernelCache, disk: Disk, host: Host, e: CacheEntry, path: string)
    requires cache.Valid() && KeyOf(e) in cache.db.table.entries && e.gpu != "" && path in disk.files
    modifies cache
    ensures cache.Valid() && (cache.db == old(cache.db) || fresh(cache.db))
    ensures KeyOf(e) in cache.db.table.entries
    ensures KeyText(KeyOf(e)) in cache.binaries && cache.binaries[KeyText(KeyOf(e))] == CachedBinary(path, host.hash(disk.files[path]))
  {
    hide KeyText, FormatKey, Stale, KeptEntries, Backed, View;
    FormatIsKeyText(e);
    var recorded := cache.PutBinary(e.gpu, e.op, e.shape, CachedBinary(path, host.hash(disk.files[path])));
    assert KeyText(KeyOf(e)) in cache.binaries && KeyOf(e) in cache.db.table.entries;
    var dropped := cache.InvalidateStale(disk, host);
    assert KeyText(KeyOf(e)) in cache.binaries;
  }

  /** It is dropped, entry and all, exactly when what is written to the file afterwards hashes otherwise. */
  method ChangedBinary(cache: KernelCache, disk: Disk, host: Host, e: CacheEntry, path: string, content: string)
    requires cache.Valid() && disk as object != cache && disk as object != cache.db
    requires KeyOf(e) in cache.db.table.entries && e.gpu != "" && path in disk.files && disk.opens(path)
    modifies cache, disk
    ensures cache.Valid()
    ensures KeyOf(e) in cache.db.table.entries <==> host.hash(content) == old(host.hash(disk.files[path]))
    ensures KeyText(KeyOf(e)) in cache.binaries <==> host.hash(content) == old(host.hash(disk.files[path]))
  {
    hide KeyText, FormatKey, Stale, KeptEntries, Backed, View;
    FreshBinary(cache, disk, host, e, path);
    ghost var text, b := KeyText(KeyOf(e)), CachedBinary(path, host.hash(disk.files[path]));
    var written := disk.WriteFile(path, content);
    assert text in cache.binaries && cache.binaries[text] == b && KeyOf(e) in cache.db.table.entries;
    var dropped := cache.InvalidateStale(disk, host);
    assert text in cache.binaries <==> host.hash(content) == b.kernelHash;
  }

  // ----- Rebuilding -----

  // kept holds exactly the listed entries whose key is not stale.
  ghost predicate Keeps(kept: map<Key, CacheEntry>, listed: seq<CacheEntry>, stale: set<string>) {
    && (forall k | k in kept :: KeyOf(kept[k]) == k && kept[k] in listed && KeyText(k) !in stale)
    && (forall e | e in listed && KeyText(KeyOf(e)) !in stale :: KeyOf(e) in kept)
  }

  lemma TakeNext(before: seq<CacheEntry>, es: seq<CacheEntry>, i: nat)
    requires i < |es|
    ensures before + es[..i + 1] == before + es[..i] + [es[i]]
  {
  }

  lemma WithBinarySnoc(es: seq<CacheEntry>, e: CacheEntry, bins: map<string, CachedBinary>)
    ensures WithBinary(es + [e], bins) == WithBinary(es, bins) + if KeyText(KeyOf(e)) in bins then [e] else []
  {
    assert (es + [e])[..|es|] == es;
  }

  lemma NothingListed(t: Table, bins: map<string, CachedBinary>)
    requires t.Valid()
    ensures WithBinary(Listing(t.keys, t.entries, []), bins) == []
  {
  }

  lemma FormatIsKeyText(e: CacheEntry)
    ensures FormatKey(e.gpu, e.op, e.shape) == KeyText(KeyOf(e))
  {
  }

  lemma KeepNothing(t: Table, stale: set<string>)
    requires t.Valid()
    ensures Keeps(map[], Listing(t.keys, t.entries, []), stale)
  {
  }

  lemma KeepOne(kept: map<Key, CacheEntry>, listed: seq<CacheEntry>, stale: set<string>, e: CacheEntry)
    requires Keeps(kept, listed, stale)
    ensures Keeps(if KeyText(KeyOf(e)) !in stale then kept[KeyOf(e) := e] else kept, listed + [e], stale)
    ensures FormatKey(e.gpu, e.op, e.shape) == KeyText(KeyOf(e))
  {
    hide FormatKey;
  }

  lemma ListingGrows(t: Table, gpus: seq<string>, n: nat)
    requires t.Valid() && n < |gpus|
    ensures Listing(t.keys, t.entries, gpus[..n + 1]) == Listing(t.keys, t.entries, gpus[..n]) + EntriesOf(t.keys, t.entries, gpus[n])
  {
    assert gpus[..n + 1][..n] == gpus[..n];
  }

  lemma {:induction false} EntriesMembers(keys: seq<Key>, entries: map<Key, CacheEntry>, gpu: string)
    requires forall k | k in keys :: k in entries
    ensures forall e | e in EntriesOf(keys, entries, gpu) :: exists k :: k in keys && k.gpu == gpu && entries[k] == e
    decreases |keys|
  {
    if keys != [] {
      var n := |keys| - 1;
      EntriesMembers(keys[..n], entries, gpu);
      forall e | e in EntriesOf(keys, entries, gpu)
        ensures exists k :: k in keys && k.gpu == gpu && entries[k] == e
      {
        if e in EntriesOf(keys[..n], entries, gpu) {
          var k :| k in keys[..n] && k.gpu == gpu && entries[k] == e;
          assert k in keys;
        } else {
          assert keys[n] in keys && entries[keys[n]] == e;
        }
      }
    }
  }

  // A stored entry has a gpu, so it can be put again.
  lemma GpuPresent(t: Table, gpus: seq<string>, n: nat, es: seq<CacheEntry>, i: nat)
    requires t.Valid() && n < |gpus| && es == EntriesOf(t.keys, t.entries, gpus[n]) && i < |es|
    ensures es[i].gpu != ""
  {
    EntriesMembers(t.keys, t.entries, gpus[n]);
    assert es[i] in es;
  }

  lemma KeptAll(t: Table, kept: map<Key, CacheEntry>, stale: set<string>)
    requires t.Valid() && Keeps(kept, Listing(t.keys, t.entries, NamespacesOf(t.keys)), stale)
    ensures kept == KeptEntries(t.entries, stale)
  {
    hide KeyText, Listing, NamespacesOf;
    NamespacesPartition(t.keys, t.entries);
    MembersAreEntries(t, map[]);
    forall k | k in t.entries
      ensures t.entries[k] in t.All()
    {
      assert KeyOf(t.entries[k]) == k;
    }
  }

  // ----- What keeps every binary backed -----

  lemma BackedExtends(entries: map<Key, CacheEntry>, bins: map<string, CachedBinary>, text: string, b: CachedBinary)
    requires Backed(entries, bins) && exists k :: k in entries && KeyText(k) == text
    ensures Backed(entries, bins[text := b])
  {
    hide KeyText;
  }

  lemma {:induction false} RecordsBacked(items: seq<Json>, n: nat, entries: map<Key, CacheEntry>)
    requires n <= |items|
    ensures DecodeRecords(items, n, entries).Ok? ==> Backed(entries, DecodeRecords(items, n, entries).value)
  {
    hide DecodeRecordAt, KeyText;
    if n > 0 && DecodeRecords(items, n, entries).Ok? {
      RecordsBacked(items, n - 1, entries);
      RecordBacked(items, n - 1, entries);
      var one := DecodeRecordAt(items, n - 1, entries).value;
      BackedExtends(entries, DecodeRecords(items, n - 1, entries).value, one.0, one.1);
    }
  }

  lemma RecordBacked(items: seq<Json>, i: nat, entries: map<Key, CacheEntry>)
    requires i < |items|
    ensures DecodeRecordAt(items, i, entries).Ok? ==> exists k :: k in entries && KeyText(k) == DecodeRecordAt(items, i, entries).value.0
  {
    hide FormatKey, DecodeShape;
    if DecodeRecordAt(items, i, entries).Ok? {
      var obj, path := items[i].fields, [Field(Binaries), Item(i)];
      var k := Key(obj[Gpu].s, obj[OpName].s, DecodeShape(obj[ShapeName].fields, path + [Field(ShapeName)]).value);
      assert k in entries && KeyText(k) == DecodeRecordAt(items, i, entries).value.0;
    }
  }

  lemma LoadedIsBacked(doc: Json, entries: map<Key, CacheEntry>)
    ensures DecodeBinaries(doc, entries).Ok? ==> Backed(entries, DecodeBinaries(doc, entries).value)
  {
    hide DecodeRecords, Backed;
    if DecodeBinaries(doc, entries).Ok? {
      RecordsBacked(doc.fields[Binaries].items, |doc.fields[Binaries].items|, entries);
    }
  }

  // Storing entries keeps binaries backed.
  lemma BackedAfterPut(entries: map<Key, CacheEntry>, bins: map<string, CachedBinary>, e: CacheEntry)
    requires Backed(entries, bins)
    ensures Backed(entries[KeyOf(e) := e], bins)
  {
    hide KeyText;
    forall text | text in bins
      ensures exists k :: k in entries[KeyOf(e) := e] && KeyText(k) == text
    {
      var k :| k in entries && KeyText(k) == text;
      assert k in entries[KeyOf(e) := e];
    }
  }

  /** Loading a tuning cache over recorded binaries leaves them all backed exactly when it brings an entry for every key that has one. */
  lemma LoadOverBinaries(before: map<Key, CacheEntry>, loaded: map<Key, CacheEntry>, bins: map<string, CachedBinary>)
    requires AllSlashFree(before) && AllSlashFree(loaded) && Backed(before, bins)
    ensures Backed(loaded, bins) <==> forall k | k in before && KeyText(k) in bins :: k in loaded
  {
    hide KeyText;
    if Backed(loaded, bins) {
      forall k | k in before && KeyText(k) in bins
        ensures k in loaded
      {
        var k' :| k' in loaded && KeyText(k') == KeyText(k);
        KeyTextInjective(k, k');
      }
    }
    if forall k | k in before && KeyText(k) in bins :: k in loaded {
      forall text | text in bins
        ensures exists k :: k in loaded && KeyText(k) == text
      {
        var k :| k in before && KeyText(k) == text;
        assert k in loaded;
      }
    }
  }

  /** A cache with one entry and its binary, then an empty tuning cache loaded: the binary is left without an entry, and persisting and
      reloading would drop it. */
  method LoadEmptyCache(host: Host, text: string, e: CacheEntry, b: CachedBinary) returns (cache: KernelCache)
    requires e.gpu != "" && host.parse(text) == Some(EncodeCache(TuningCache(VERSION, [])))
    ensures cache.Valid() && cache.db.table.entries == map[]
    ensures KeyText(KeyOf(e)) in cache.binaries && !Backed(cache.db.table.entries, cache.binaries)
  {
    hide FormatKey, Backed;
    FormatIsKeyText(e);
    cache := new KernelCache();
    var stored := cache.Put(e);
    var recorded := cache.PutBinary(e.gpu, e.op, e.shape, b);
    EmptyDocument();
    var r := cache.LoadTuningCache(host, text);
    NoneBacked(cache.binaries, KeyText(KeyOf(e)));
  }

  lemma EmptyDocument()
    ensures DecodeTable(EncodeCache(TuningCache(VERSION, []))) == Ok(map[])
  {
  }

  lemma NoneBacked(bins: map<string, CachedBinary>, text: string)
    requires text in bins
    ensures !Backed(map[], bins)
  {
  }
}
