/** The side table of compiled binaries: what it means, how it is stored, and what makes one stale. */
module KernelBinaries {
  import opened Wavelets
  import opened Texts
  import opened JsonTrees
  import opened TuningCaches
  import opened TuningDbs
  import opened KernelKeys

  datatype CachedBinary = CachedBinary(soPath: string, kernelHash: string)

  // Every recorded binary belongs to an entry.
  ghost predicate Backed(entries: map<Key, CacheEntry>, bins: map<string, CachedBinary>) {
    forall text | text in bins :: exists k :: k in entries && KeyText(k) == text
  }

  // The side table as a map on requests.
  ghost function View(entries: map<Key, CacheEntry>, bins: map<string, CachedBinary>): map<Key, CachedBinary> {
    map k | k in entries && KeyText(k) in bins :: bins[KeyText(k)]
  }

  ghost predicate AllSlashFree(entries: map<Key, CacheEntry>) {
    forall k | k in entries :: SlashFree(k)
  }

  /** Recording a binary changes the view of one request only. */
  lemma ViewAfterPutBinary(entries: map<Key, CacheEntry>, bins: map<string, CachedBinary>, k: Key, b: CachedBinary)
    requires AllSlashFree(entries) && k in entries
    ensures View(entries, bins[KeyText(k) := b]) == View(entries, bins)[k := b]
  {
    hide KeyText;
    forall k' | k' in entries && KeyText(k') == KeyText(k)
      ensures k' == k
    {
      KeyTextInjective(k', k);
    }
  }

  /** Storing an entry, new or replaced, attaches no binary to it. */
  lemma ViewAfterPut(entries: map<Key, CacheEntry>, bins: map<string, CachedBinary>, e: CacheEntry)
    requires AllSlashFree(entries) && SlashFree(KeyOf(e)) && Backed(entries, bins)
    ensures View(entries[KeyOf(e) := e], bins) == View(entries, bins)
  {
    hide KeyText;
    if KeyText(KeyOf(e)) in bins {
      var k :| k in entries && KeyText(k) == KeyText(KeyOf(e));
      KeyTextInjective(k, KeyOf(e));
    }
  }

  // ----- Staleness -----

  function HashOf(files: map<string, string>, hash: string -> string, path: string): Option<string> {
    if path in files then Some(hash(files[path])) else None
  }

  predicate Current(files: map<string, string>, hash: string -> string, b: CachedBinary) {
    HashOf(files, hash, b.soPath) == Some(b.kernelHash)
  }

  // The keys whose file is gone or hashes differently.
  function Stale(files: map<string, string>, hash: string -> string, bins: map<string, CachedBinary>): set<string> {
    set text | text in bins && !Current(files, hash, bins[text])
  }

  function KeptEntries(entries: map<Key, CacheEntry>, stale: set<string>): map<Key, CacheEntry> {
    map k | k in entries && KeyText(k) !in stale :: entries[k]
  }

  /** A binary survives exactly when its file is there and what the file holds hashes as recorded, and an entry exactly when it lost no
      binary. */
  lemma SurvivesIff(files: map<string, string>, hash: string -> string, entries: map<Key, CacheEntry>, bins: map<string, CachedBinary>)
    ensures var stale := Stale(files, hash, bins);
      && (forall text :: text in bins - stale <==>
            text in bins && bins[text].soPath in files && hash(files[bins[text].soPath]) == bins[text].kernelHash)
      && (forall text | text in bins - stale :: (bins - stale)[text] == bins[text])
      && (forall k :: k in KeptEntries(entries, stale) <==> k in entries && (KeyText(k) in bins ==> KeyText(k) in bins - stale))
      && (forall k | k in KeptEntries(entries, stale) :: KeptEntries(entries, stale)[k] == entries[k])
      && bins.Keys - (bins - stale).Keys == stale
  {
    hide KeyText;
  }

  /** After invalidation nothing recorded is stale, so a second one on the same files removes nothing; what is left is still backed. */
  lemma InvalidationSettles(files: map<string, string>, hash: string -> string, entries: map<Key, CacheEntry>, bins: map<string, CachedBinary>)
    requires Backed(entries, bins)
    ensures var stale := Stale(files, hash, bins);
      && Stale(files, hash, bins - stale) == {}
      && Backed(KeptEntries(entries, stale), bins - stale)
  {
    hide KeyText;
    var stale := Stale(files, hash, bins);
    forall text | text in bins - stale
      ensures exists k :: k in KeptEntries(entries, stale) && KeyText(k) == text
    {
      var k :| k in entries && KeyText(k) == text;
      assert k in KeptEntries(entries, stale);
    }
  }

  /** A request loses its entry exactly when it has a stale binary; one without a binary, or with a current one, keeps both. */
  lemma InvalidationPerRequest(files: map<string, string>, hash: string -> string, entries: map<Key, CacheEntry>,
      bins: map<string, CachedBinary>, k: Key)
    requires k in entries
    ensures var stale, view := Stale(files, hash, bins), View(entries, bins);
      && (k in KeptEntries(entries, stale) <==> (k in view ==> Current(files, hash, view[k])))
      && View(KeptEntries(entries, stale), bins - stale) == map k | k in view && Current(files, hash, view[k]) :: view[k]
  {
    hide KeyText;
  }

  // ----- Documents -----

  // The entries of es that have a binary.
  function WithBinary(es: seq<CacheEntry>, bins: map<string, CachedBinary>): (r: seq<CacheEntry>)
    ensures forall i | 0 <= i < |r| :: KeyText(KeyOf(r[i])) in bins
    ensures forall e :: e in r <==> e in es && KeyText(KeyOf(e)) in bins
  {
    if es == [] then []
    else
      var last := es[|es| - 1];
      assert es == es[..|es| - 1] + [last];
      WithBinary(es[..|es| - 1], bins) + if KeyText(KeyOf(last)) in bins then [last] else []
  }

  function EncodeRecord(e: CacheEntry, b: CachedBinary): map<Name, Json> {
    map[Gpu := Str(e.gpu), OpName := Str(e.op), ShapeName := Obj(EncodeShape(e.shape)), SoPath := Str(b.soPath), KernelHash := Str(b.kernelHash)]
  }

  function Records(es: seq<CacheEntry>, bins: map<string, CachedBinary>): (r: seq<Json>)
    requires forall i | 0 <= i < |es| :: KeyText(KeyOf(es[i])) in bins
    ensures |r| == |es|
  {
    seq(|es|, i requires 0 <= i < |es| => Obj(EncodeRecord(es[i], bins[KeyText(KeyOf(es[i]))])))
  }

  function EncodeBinaries(es: seq<CacheEntry>, bins: map<string, CachedBinary>): Json {
    Obj(map[Version := Int(VERSION), Binaries := Arr(Records(WithBinary(es, bins), bins))])
  }

  function DecodeRecord(obj: map<Name, Json>, path: seq<Step>, entries: map<Key, CacheEntry>): Result<(string, CachedBinary)> {
    var gpu :- GetString(obj, Gpu, path);
    var op :- GetString(obj, OpName, path);
    var shapeObj :- GetObject(obj, ShapeName, path);
    var shape :- DecodeShape(shapeObj, path + [Field(ShapeName)]);
    var soPath :- GetString(obj, SoPath, path);
    var kernelHash :- GetString(obj, KernelHash, path);
    if Key(gpu, op, shape) !in entries then Err(Error(path, NoTuningEntry))
    else Ok((FormatKey(gpu, op, shape), CachedBinary(soPath, kernelHash)))
  }

  function DecodeRecordAt(items: seq<Json>, i: nat, entries: map<Key, CacheEntry>): Result<(string, CachedBinary)>
    requires i < |items|
  {
    var path := [Field(Binaries), Item(i)];
    if !items[i].Obj? then Err(Error(path, Expected(AnObject))) else DecodeRecord(items[i].fields, path, entries)
  }

  function DecodeRecords(items: seq<Json>, n: nat, entries: map<Key, CacheEntry>): Result<map<string, CachedBinary>>
    requires n <= |items|
  {
    if n == 0 then Ok(map[])
    else
      var before :- DecodeRecords(items, n - 1, entries);
      var r :- DecodeRecordAt(items, n - 1, entries);
      Ok(before[r.0 := r.1])
  }

  function DecodeBinaries(doc: Json, entries: map<Key, CacheEntry>): Result<map<string, CachedBinary>> {
    if !doc.Obj? then Err(Error([], Expected(AnObject)))
    else
      var version :- GetInt(doc.fields, Version, []);
      if version != VERSION then Err(Error([Field(Version)], UnsupportedVersion(version)))
      else
        var items :- GetArray(doc.fields, Binaries, []);
        DecodeRecords(items, |items|, entries)
  }

  lemma {:induction false} FirstBadRecordDecides(items: seq<Json>, n: nat, entries: map<Key, CacheEntry>)
    requires n <= |items| && DecodeRecords(items, n, entries).Err?
    ensures DecodeRecords(items, |items|, entries) == DecodeRecords(items, n, entries)
    decreases |items| - n
  {
    hide DecodeRecordAt;
    if n < |items| {
      FirstBadRecordDecides(items, n + 1, entries);
    }
  }

  method ParseBinaries(doc: Json, db: AmdTuningDb) returns (r: Result<map<string, CachedBinary>>)
    requires db.Valid()
    ensures r == DecodeBinaries(doc, db.table.entries)
  {
    if !doc.Obj? {
      return Err(Error([], Expected(AnObject)));
    }
    var version :- GetInt(doc.fields, Version, []);
    if version != VERSION {
      return Err(Error([Field(Version)], UnsupportedVersion(version)));
    }
    var items :- GetArray(doc.fields, Binaries, []);
    var out := map[];
    hide DecodeRecord;
    for i := 0 to |items|
      invariant DecodeRecords(items, i, db.table.entries) == Ok(out)
    {
      var one := DecodeRecordAt(items, i, db.table.entries);
      if one.Err? {
        FirstBadRecordDecides(items, i + 1, db.table.entries);
        return Err(one.error);
      }
      out := out[one.value.0 := one.value.1];
    }
    r := Ok(out);
  }

  // The side table's document holds no doubles.
  lemma BinariesPrintable(es: seq<CacheEntry>, bins: map<string, CachedBinary>)
    ensures Printable(EncodeBinaries(es, bins))
  {
    hide KeyText;
    var items := Records(WithBinary(es, bins), bins);
    forall i | 0 <= i < |items|
      ensures Printable(items[i])
    {
      var e := WithBinary(es, bins)[i];
      RecordPrintable(e, bins[KeyText(KeyOf(e))]);
    }
    var fields := EncodeBinaries(es, bins).fields;
    assert Printable(Arr(items)) && Printable(Int(VERSION));
    forall k | k in fields
      ensures Printable(fields[k])
    {
    }
  }

  lemma RecordPrintable(e: CacheEntry, b: CachedBinary)
    ensures Printable(Obj(EncodeRecord(e, b)))
  {
    ShapePrintable(e.shape);
    hide EncodeShape;
    var fields := EncodeRecord(e, b);
    forall k | k in fields
      ensures Printable(fields[k])
    {
    }
  }

  // ----- Round trip -----

  lemma RecordField(e: CacheEntry, b: CachedBinary, k: Name)
    requires k in EncodeRecord(e, b)
    ensures Reread(Obj(EncodeRecord(e, b))).Obj?
    ensures var fields := Reread(Obj(EncodeRecord(e, b))).fields; k in fields && fields[k] == Reread(EncodeRecord(e, b)[k])
    ensures EncodeRecord(e, b)[k].Str? ==> Reread(EncodeRecord(e, b)[k]) == EncodeRecord(e, b)[k]
    ensures EncodeRecord(e, b)[k].Obj? ==> Reread(EncodeRecord(e, b)[k]).Obj?
  {
    RereadField(EncodeRecord(e, b), k);
  }

  lemma RecordRoundTrip(e: CacheEntry, b: CachedBinary, path: seq<Step>, entries: map<Key, CacheEntry>)
    requires KeyOf(e) in entries
    ensures DecodeRecord(Reread(Obj(EncodeRecord(e, b))).fields, path, entries) == Ok((KeyText(KeyOf(e)), b))
  {
    hide Reread, DecodeShape, EncodeShape, FormatKey;
    RecordField(e, b, Gpu);
    RecordField(e, b, OpName);
    RecordField(e, b, ShapeName);
    ShapeRoundTrip(e.shape, path + [Field(ShapeName)]);
    RecordField(e, b, SoPath);
    RecordField(e, b, KernelHash);
  }

  lemma {:induction false} RecordsRoundTrip(es: seq<CacheEntry>, bins: map<string, CachedBinary>, items: seq<Json>, n: nat,
      entries: map<Key, CacheEntry>)
    requires forall i | 0 <= i < |es| :: KeyText(KeyOf(es[i])) in bins && KeyOf(es[i]) in entries
    requires |items| == |es| && forall i | 0 <= i < |items| :: items[i] == Reread(Records(es, bins)[i])
    requires n <= |es|
    ensures DecodeRecords(items, n, entries).Ok?
    ensures var r := DecodeRecords(items, n, entries).value;
      && (forall text | text in r :: text in bins && r[text] == bins[text])
      && (forall text :: text in r <==> exists i :: 0 <= i < n && KeyText(KeyOf(es[i])) == text)
  {
    hide Reread, DecodeRecord, EncodeRecord, KeyText;
    if n > 0 {
      var e := es[n - 1];
      var b := bins[KeyText(KeyOf(e))];
      RecordsRoundTrip(es, bins, items, n - 1, entries);
      RereadObject(EncodeRecord(e, b));
      RecordRoundTrip(e, b, [Field(Binaries), Item(n - 1)], entries);
    }
  }

  /** What was written always loads, and it loads back as it was exactly when every binary belonged to an entry. */
  lemma BinariesRoundTrip(t: Table, bins: map<string, CachedBinary>)
    requires t.Valid()
    ensures DecodeBinaries(Reread(EncodeBinaries(t.All(), bins)), t.entries).Ok?
    ensures var r := DecodeBinaries(Reread(EncodeBinaries(t.All(), bins)), t.entries).value; r == bins <==> Backed(t.entries, bins)
  {
    hide Reread, KeyText, DecodeRecords, EncodeRecord;
    var es := WithBinary(t.All(), bins);
    var fields := EncodeBinaries(t.All(), bins).fields;
    RereadField(fields, Version);
    RereadField(fields, Binaries);
    RereadLeaf(fields[Version]);
    RereadItems(Records(es, bins));
    var items := Reread(Arr(Records(es, bins))).items;
    MembersAreEntries(t, bins);
    RecordsRoundTrip(es, bins, items, |items|, t.entries);
    var r := DecodeRecords(items, |items|, t.entries).value;
    assert DecodeBinaries(Reread(EncodeBinaries(t.All(), bins)), t.entries) == Ok(r);
    SameWhenBacked(t, bins, r, es);
  }

  lemma MembersAreEntries(t: Table, bins: map<string, CachedBinary>)
    requires t.Valid()
    ensures forall e :: e in t.All() <==> KeyOf(e) in t.entries && t.entries[KeyOf(e)] == e
    ensures var es := WithBinary(t.All(), bins); forall i | 0 <= i < |es| :: KeyOf(es[i]) in t.entries
  {
    hide KeyText;
    forall e
      ensures e in t.All() <==> KeyOf(e) in t.entries && t.entries[KeyOf(e)] == e
    {
      if e in t.All() {
        var i :| 0 <= i < |t.keys| && t.All()[i] == e;
        assert t.keys[i] in t.keys;
      }
      if KeyOf(e) in t.entries && t.entries[KeyOf(e)] == e {
        assert KeyOf(e) in t.keys;
        var i :| 0 <= i < |t.keys| && t.keys[i] == KeyOf(e);
        assert t.All()[i] == e;
      }
    }
  }

  lemma SameWhenBacked(t: Table, bins: map<string, CachedBinary>, r: map<string, CachedBinary>, es: seq<CacheEntry>)
    requires t.Valid() && es == WithBinary(t.All(), bins)
    requires forall text | text in r :: text in bins && r[text] == bins[text]
    requires forall text :: text in r <==> exists i :: 0 <= i < |es| && KeyText(KeyOf(es[i])) == text
    ensures r == bins <==> Backed(t.entries, bins)
  {
    hide KeyText;
    if Backed(t.entries, bins) {
      forall text | text in bins
        ensures text in r
      {
        var k :| k in t.entries && KeyText(k) == text;
        MemberOf(t, bins, es, k);
      }
    }
    if r == bins {
      forall text | text in bins
        ensures exists k :: k in t.entries && KeyText(k) == text
      {
        var i :| 0 <= i < |es| && KeyText(KeyOf(es[i])) == text;
        EntryOf(t, bins, es, i);
      }
    }
  }

  lemma MemberOf(t: Table, bins: map<string, CachedBinary>, es: seq<CacheEntry>, k: Key)
    requires t.Valid() && es == WithBinary(t.All(), bins) && k in t.entries && KeyText(k) in bins
    ensures exists i :: 0 <= i < |es| && KeyText(KeyOf(es[i])) == KeyText(k)
  {
    hide KeyText;
    MembersAreEntries(t, bins);
    assert t.entries[k] in t.All();
    var i :| 0 <= i < |es| && es[i] == t.entries[k];
    assert KeyOf(es[i]) == k;
  }

  lemma EntryOf(t: Table, bins: map<string, CachedBinary>, es: seq<CacheEntry>, i: nat)
    requires t.Valid() && es == WithBinary(t.All(), bins) && i < |es|
    ensures KeyOf(es[i]) in t.entries
  {
    hide KeyText;
    MembersAreEntries(t, bins);
  }
}
