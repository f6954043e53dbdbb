/** The tuning cache's JSON schema: a strict decoder, the serializer, and why they are inverse. */
module TuningCaches {
  import opened Wavelets
  import opened JsonTrees

  const VERSION: Int64 := 1

  datatype Shape = Shape(m: Int64, n: Int64, k: Int64, dtype: string)

  datatype Config = Config(blockM: Int32, blockN: Int32, blockK: Int32, numWarps: Int32, vectorWidth: Int32, unroll: Int32, stages: Int32)

  datatype Correctness = Correctness(cosine: Double, maxRelErr: Double, pcc: Double)

  datatype CacheEntry = CacheEntry(
    gpu: string, op: string, shape: Shape, best: Config, scoredBy: string, timeMs: Option<Double>, validated: bool, correctness: Correctness)

  datatype TuningCache = TuningCache(version: Int64, entries: seq<CacheEntry>)

  // ----- Decoding -----

  function DecodeShape(obj: map<Name, Json>, path: seq<Step>): Result<Shape> {
    var m :- GetInt(obj, M, path);
    var n :- GetInt(obj, N, path);
    var k :- GetInt(obj, K, path);
    var dtype :- GetString(obj, DType, path);
    Ok(Shape(m, n, k, dtype))
  }

  function DecodeConfig(obj: map<Name, Json>, path: seq<Step>): Result<Config> {
    var bm :- GetInt(obj, BlockM, path);
    var bn :- GetInt(obj, BlockN, path);
    var bk :- GetInt(obj, BlockK, path);
    var nw :- GetInt(obj, NumWarps, path);
    var vw :- GetInt(obj, VectorWidth, path);
    var un :- GetInt(obj, Unroll, path);
    var st :- GetInt(obj, Stages, path);
    Ok(Config(ToInt32(bm), ToInt32(bn), ToInt32(bk), ToInt32(nw), ToInt32(vw), ToInt32(un), ToInt32(st)))
  }

  function DecodeCorrectness(obj: map<Name, Json>, path: seq<Step>): Result<Correctness> {
    var cosine :- GetDouble(obj, Cosine, path);
    var maxRelErr :- GetDouble(obj, MaxRelErr, path);
    var pcc :- GetDouble(obj, Pcc, path);
    Ok(Correctness(cosine, maxRelErr, pcc))
  }

  function DecodeEntry(obj: map<Name, Json>, path: seq<Step>): Result<CacheEntry> {
    var gpu :- GetString(obj, Gpu, path);
    var op :- GetString(obj, OpName, path);
    var shapeObj :- GetObject(obj, ShapeName, path);
    var shape :- DecodeShape(shapeObj, path + [Field(ShapeName)]);
    var bestObj :- GetObject(obj, Best, path);
    var best :- DecodeConfig(bestObj, path + [Field(Best)]);
    var scoredBy :- GetString(obj, ScoredBy, path);
    var timeMs :- GetNullable(obj, TimeMs, path);
    var validated :- GetBool(obj, Validated, path);
    var corrObj :- GetObject(obj, CorrectnessName, path);
    var correctness :- DecodeCorrectness(corrObj, path + [Field(CorrectnessName)]);
    Ok(CacheEntry(gpu, op, shape, best, scoredBy, timeMs, validated, correctness))
  }

  function DecodeItem(items: seq<Json>, i: nat, path: seq<Step>): Result<CacheEntry>
    requires i < |items|
  {
    if !items[i].Obj? then Err(Error(path + [Item(i)], Expected(AnObject)))
    else DecodeEntry(items[i].fields, path + [Item(i)])
  }

  // The first n entries; the first bad one decides the error.
  function DecodeEntries(items: seq<Json>, n: nat, path: seq<Step>): (r: Result<seq<CacheEntry>>)
    requires n <= |items|
    ensures r.Ok? ==> |r.value| == n
  {
    if n == 0 then Ok([])
    else
      var before :- DecodeEntries(items, n - 1, path);
      var entry :- DecodeItem(items, n - 1, path);
      Ok(before + [entry])
  }

  function DecodeCache(doc: Json): Result<TuningCache> {
    if !doc.Obj? then Err(Error([], Expected(AnObject)))
    else
      var version :- GetInt(doc.fields, Version, []);
      if version != VERSION then Err(Error([Field(Version)], UnsupportedVersion(version)))
      else
        var items :- GetArray(doc.fields, Entries, []);
        var entries :- DecodeEntries(items, |items|, [Field(Entries)]);
        Ok(TuningCache(version, entries))
  }

  lemma {:induction false} FirstFailureDecides(items: seq<Json>, n: nat, path: seq<Step>)
    requires n <= |items| && DecodeEntries(items, n, path).Err?
    ensures DecodeEntries(items, |items|, path) == DecodeEntries(items, n, path)
    decreases |items| - n
  {
    hide DecodeItem;
    if n < |items| {
      FirstFailureDecides(items, n + 1, path);
    }
  }

  // The parser: it stops at the first field or entry that is not as required.
  method ParseTuningCache(doc: Json) returns (r: Result<TuningCache>)
    ensures r == DecodeCache(doc)
  {
    if !doc.Obj? {
      return Err(Error([], Expected(AnObject)));
    }
    var version :- GetInt(doc.fields, Version, []);
    if version != VERSION {
      return Err(Error([Field(Version)], UnsupportedVersion(version)));
    }
    var items :- GetArray(doc.fields, Entries, []);
    var path := [Field(Entries)];
    var entries := [];
    for i := 0 to |items|
      invariant DecodeEntries(items, i, path) == Ok(entries)
    {
      var entry := DecodeItem(items, i, path);
      if entry.Err? {
        FirstFailureDecides(items, i + 1, path);
        return Err(entry.error);
      }
      entries := entries + [entry.value];
    }
    r := Ok(TuningCache(version, entries));
  }

  // ----- Encoding -----

  function EncodeShape(s: Shape): map<Name, Json> {
    map[M := Int(s.m), N := Int(s.n), K := Int(s.k), DType := Str(s.dtype)]
  }

  function EncodeConfig(c: Config): map<Name, Json> {
    map[BlockM := Int(c.blockM), BlockN := Int(c.blockN), BlockK := Int(c.blockK), NumWarps := Int(c.numWarps),
        VectorWidth := Int(c.vectorWidth), Unroll := Int(c.unroll), Stages := Int(c.stages)]
  }

  function EncodeCorrectness(c: Correctness): map<Name, Json> {
    map[Cosine := Real(c.cosine), MaxRelErr := Real(c.maxRelErr), Pcc := Real(c.pcc)]
  }

  function EncodeEntry(e: CacheEntry): map<Name, Json> {
    map[Gpu := Str(e.gpu), OpName := Str(e.op), ShapeName := Obj(EncodeShape(e.shape)), Best := Obj(EncodeConfig(e.best)),
        ScoredBy := Str(e.scoredBy), TimeMs := if e.timeMs.Some? then Real(e.timeMs.value) else Null,
        Validated := Bool(e.validated), CorrectnessName := Obj(EncodeCorrectness(e.correctness))]
  }

  function EncodeEntries(entries: seq<CacheEntry>): (r: seq<Json>)
    ensures |r| == |entries|
  {
    seq(|entries|, i requires 0 <= i < |entries| => Obj(EncodeEntry(entries[i])))
  }

  function EncodeCache(c: TuningCache): Json {
    Obj(map[Version := Int(c.version), Entries := Arr(EncodeEntries(c.entries))])
  }

  method SerializeTuningCache(c: TuningCache) returns (doc: Json)
    ensures doc == EncodeCache(c)
  {
    var items := [];
    for i := 0 to |c.entries|
      invariant items == EncodeEntries(c.entries)[..i]
    {
      items := items + [Obj(EncodeEntry(c.entries[i]))];
    }
    assert EncodeEntries(c.entries)[..|c.entries|] == EncodeEntries(c.entries);
    doc := Obj(map[Version := Int(c.version), Entries := Arr(items)]);
  }

  ghost predicate FieldIs(j: Json, k: Name, v: Json) {
    j.Obj? && k in j.fields && j.fields[k] == v
  }

  ghost predicate Under(j: Json, k: Name, n: Name, v: Json) {
    j.Obj? && k in j.fields && FieldIs(j.fields[k], n, v)
  }

  /** In a serialized cache every value of an entry stands under its own name. */
  lemma EncodedFields(c: TuningCache, i: nat)
    requires i < |c.entries|
    ensures var doc, e := EncodeCache(c), c.entries[i];
      && FieldIs(doc, Version, Int(c.version)) && doc.Obj? && Entries in doc.fields && doc.fields[Entries].Arr?
      && i < |doc.fields[Entries].items|
      && var j := doc.fields[Entries].items[i];
        && FieldIs(j, Gpu, Str(e.gpu)) && FieldIs(j, OpName, Str(e.op)) && FieldIs(j, ScoredBy, Str(e.scoredBy))
        && FieldIs(j, Validated, Bool(e.validated)) && FieldIs(j, TimeMs, if e.timeMs.Some? then Real(e.timeMs.value) else Null)
        && Under(j, ShapeName, M, Int(e.shape.m)) && Under(j, ShapeName, N, Int(e.shape.n)) && Under(j, ShapeName, K, Int(e.shape.k))
        && Under(j, ShapeName, DType, Str(e.shape.dtype))
        && Under(j, Best, BlockM, Int(e.best.blockM)) && Under(j, Best, BlockN, Int(e.best.blockN))
        && Under(j, Best, BlockK, Int(e.best.blockK)) && Under(j, Best, NumWarps, Int(e.best.numWarps))
        && Under(j, Best, VectorWidth, Int(e.best.vectorWidth)) && Under(j, Best, Unroll, Int(e.best.unroll))
        && Under(j, Best, Stages, Int(e.best.stages))
        && Under(j, CorrectnessName, Cosine, Real(e.correctness.cosine)) && Under(j, CorrectnessName, MaxRelErr, Real(e.correctness.maxRelErr))
        && Under(j, CorrectnessName, Pcc, Real(e.correctness.pcc))
  {
    EncodedEntry(c.entries[i]);
    hide EncodeEntry;
  }

  lemma EncodedEntry(e: CacheEntry)
    ensures var j := Obj(EncodeEntry(e));
      && FieldIs(j, Gpu, Str(e.gpu)) && FieldIs(j, OpName, Str(e.op)) && FieldIs(j, ScoredBy, Str(e.scoredBy))
      && FieldIs(j, Validated, Bool(e.validated)) && FieldIs(j, TimeMs, if e.timeMs.Some? then Real(e.timeMs.value) else Null)
      && Under(j, ShapeName, M, Int(e.shape.m)) && Under(j, ShapeName, N, Int(e.shape.n)) && Under(j, ShapeName, K, Int(e.shape.k))
      && Under(j, ShapeName, DType, Str(e.shape.dtype))
      && Under(j, Best, BlockM, Int(e.best.blockM)) && Under(j, Best, BlockN, Int(e.best.blockN))
      && Under(j, Best, BlockK, Int(e.best.blockK)) && Under(j, Best, NumWarps, Int(e.best.numWarps))
      && Under(j, Best, VectorWidth, Int(e.best.vectorWidth)) && Under(j, Best, Unroll, Int(e.best.unroll))
      && Under(j, Best, Stages, Int(e.best.stages))
      && Under(j, CorrectnessName, Cosine, Real(e.correctness.cosine)) && Under(j, CorrectnessName, MaxRelErr, Real(e.correctness.maxRelErr))
      && Under(j, CorrectnessName, Pcc, Real(e.correctness.pcc))
  {
  }

  // ----- Round trip -----

  lemma RereadField(fields: map<Name, Json>, k: Name)
    requires k in fields
    ensures Reread(Obj(fields)).Obj? && k in Reread(Obj(fields)).fields && Reread(Obj(fields)).fields[k] == Reread(fields[k])
  {
  }

  lemma RereadNumber(d: Double)
    ensures Reread(Real(d)).AsNumber() == Some(d)
  {
  }

  lemma RereadLeaf(j: Json)
    requires j.Null? || j.Bool? || j.Int? || j.Str?
    ensures Reread(j) == j
  {
  }

  lemma ShapeRoundTrip(s: Shape, path: seq<Step>)
    ensures DecodeShape(Reread(Obj(EncodeShape(s))).fields, path) == Ok(s)
  {
    hide Reread;
    var fields := EncodeShape(s);
    RereadField(fields, M);
    RereadField(fields, N);
    RereadField(fields, K);
    RereadField(fields, DType);
    RereadLeaf(fields[M]);
    RereadLeaf(fields[N]);
    RereadLeaf(fields[K]);
    RereadLeaf(fields[DType]);
  }

  predicate Holds(obj: map<Name, Json>, k: Name, i: Int32) {
    k in obj && obj[k] == Int(i)
  }

  lemma ConfigField(c: Config, k: Name, i: Int32)
    requires Holds(EncodeConfig(c), k, i)
    ensures Reread(Obj(EncodeConfig(c))).Obj? && Holds(Reread(Obj(EncodeConfig(c))).fields, k, i)
  {
    RereadField(EncodeConfig(c), k);
    hide Reread;
    RereadLeaf(EncodeConfig(c)[k]);
  }

  lemma GetHeld(obj: map<Name, Json>, k: Name, i: Int32, path: seq<Step>)
    requires Holds(obj, k, i)
    ensures GetInt(obj, k, path) == Ok(i) && ToInt32(i) == i
  {
  }

  lemma ConfigRoundTrip(c: Config, path: seq<Step>)
    ensures DecodeConfig(Reread(Obj(EncodeConfig(c))).fields, path) == Ok(c)
  {
    ConfigField(c, BlockM, c.blockM);
    ConfigField(c, BlockN, c.blockN);
    ConfigField(c, BlockK, c.blockK);
    ConfigField(c, NumWarps, c.numWarps);
    ConfigField(c, VectorWidth, c.vectorWidth);
    ConfigField(c, Unroll, c.unroll);
    ConfigField(c, Stages, c.stages);
    hide Reread, EncodeConfig, GetInt, ToInt32, Holds;
    var obj := Reread(Obj(EncodeConfig(c))).fields;
    GetHeld(obj, BlockM, c.blockM, path);
    GetHeld(obj, BlockN, c.blockN, path);
    GetHeld(obj, BlockK, c.blockK, path);
    GetHeld(obj, NumWarps, c.numWarps, path);
    GetHeld(obj, VectorWidth, c.vectorWidth, path);
    GetHeld(obj, Unroll, c.unroll, path);
    GetHeld(obj, Stages, c.stages, path);
  }

  lemma CorrectnessRoundTrip(c: Correctness, path: seq<Step>)
    ensures DecodeCorrectness(Reread(Obj(EncodeCorrectness(c))).fields, path) == Ok(c)
  {
    hide Reread;
    var fields := EncodeCorrectness(c);
    RereadField(fields, Cosine);
    RereadField(fields, MaxRelErr);
    RereadField(fields, Pcc);
    RereadNumber(c.cosine);
    RereadNumber(c.maxRelErr);
    RereadNumber(c.pcc);
  }

  lemma RereadObject(fields: map<Name, Json>)
    ensures Reread(Obj(fields)).Obj?
  {
  }

  lemma EntryField(e: CacheEntry, k: Name)
    requires k in EncodeEntry(e)
    ensures Reread(Obj(EncodeEntry(e))).Obj?
    ensures var fields := Reread(Obj(EncodeEntry(e))).fields; k in fields && fields[k] == Reread(EncodeEntry(e)[k])
  {
    RereadField(EncodeEntry(e), k);
  }

  // The plain fields of a reread entry.
  lemma EntryLeaves(e: CacheEntry)
    ensures Reread(Obj(EncodeEntry(e))).Obj?
    ensures var fields := Reread(Obj(EncodeEntry(e))).fields;
      && Gpu in fields && fields[Gpu] == Str(e.gpu) && OpName in fields && fields[OpName] == Str(e.op)
      && ScoredBy in fields && fields[ScoredBy] == Str(e.scoredBy) && Validated in fields && fields[Validated] == Bool(e.validated)
      && TimeMs in fields && fields[TimeMs] == Reread(if e.timeMs.Some? then Real(e.timeMs.value) else Null)
  {
    EntryField(e, Gpu);
    EntryField(e, OpName);
    EntryField(e, ScoredBy);
    EntryField(e, Validated);
    EntryField(e, TimeMs);
    hide Reread, EncodeShape, EncodeConfig, EncodeCorrectness;
    RereadLeaf(Str(e.gpu));
    RereadLeaf(Str(e.op));
    RereadLeaf(Str(e.scoredBy));
    RereadLeaf(Bool(e.validated));
  }

  // Its nested objects.
  lemma EntryObjects(e: CacheEntry)
    ensures Reread(Obj(EncodeEntry(e))).Obj?
    ensures var fields := Reread(Obj(EncodeEntry(e))).fields;
      && ShapeName in fields && fields[ShapeName] == Reread(Obj(EncodeShape(e.shape))) && fields[ShapeName].Obj?
      && Best in fields && fields[Best] == Reread(Obj(EncodeConfig(e.best))) && fields[Best].Obj?
      && CorrectnessName in fields && fields[CorrectnessName] == Reread(Obj(EncodeCorrectness(e.correctness))) && fields[CorrectnessName].Obj?
  {
    EntryField(e, ShapeName);
    EntryField(e, Best);
    EntryField(e, CorrectnessName);
    hide Reread, EncodeShape, EncodeConfig, EncodeCorrectness;
    RereadObject(EncodeShape(e.shape));
    RereadObject(EncodeConfig(e.best));
    RereadObject(EncodeCorrectness(e.correctness));
  }

  lemma TimeRoundTrip(t: Option<Double>)
    ensures var j := Reread(if t.Some? then Real(t.value) else Null); ANumberOrNull.Accepts(j) && (if j.Null? then None else j.AsNumber()) == t
  {
    if t.Some? {
      RereadNumber(t.value);
    }
  }

  lemma EntryRoundTrip(e: CacheEntry, path: seq<Step>)
    ensures DecodeEntry(Reread(Obj(EncodeEntry(e))).fields, path) == Ok(e)
  {
    hide Reread, DecodeShape, DecodeConfig, DecodeCorrectness, EncodeEntry, EncodeShape, EncodeConfig, EncodeCorrectness;
    EntryLeaves(e);
    EntryObjects(e);
    TimeRoundTrip(e.timeMs);
    ShapeRoundTrip(e.shape, path + [Field(ShapeName)]);
    ConfigRoundTrip(e.best, path + [Field(Best)]);
    CorrectnessRoundTrip(e.correctness, path + [Field(CorrectnessName)]);
  }

  lemma {:induction false} EntriesRoundTrip(entries: seq<CacheEntry>, items: seq<Json>, n: nat, path: seq<Step>)
    requires n <= |entries| == |items|
    requires forall i | 0 <= i < |items| :: items[i] == Reread(Obj(EncodeEntry(entries[i])))
    ensures DecodeEntries(items, n, path) == Ok(entries[..n])
  {
    hide DecodeEntry, EncodeEntry, Reread;
    if n > 0 {
      EntriesRoundTrip(entries, items, n - 1, path);
      EntryRoundTrip(entries[n - 1], path + [Item(n - 1)]);
      assert entries[..n] == entries[..n - 1] + [entries[n - 1]];
      RereadObject(EncodeEntry(entries[n - 1]));
    }
  }

  lemma RereadItems(items: seq<Json>)
    ensures Reread(Arr(items)).Arr? && |Reread(Arr(items)).items| == |items|
    ensures forall i | 0 <= i < |items| :: Reread(Arr(items)).items[i] == Reread(items[i])
  {
  }

  /** Parsing what was serialized gives the cache back, also when the document went through text and its whole doubles came back as integers. */
  lemma RoundTrip(c: TuningCache)
    requires c.version == VERSION
    ensures DecodeCache(Reread(EncodeCache(c))) == Ok(c)
  {
    hide Reread, EncodeEntry, DecodeEntries;
    var fields := EncodeCache(c).fields;
    RereadField(fields, Version);
    RereadField(fields, Entries);
    RereadLeaf(fields[Version]);
    RereadItems(EncodeEntries(c.entries));
    var items := Reread(Arr(EncodeEntries(c.entries))).items;
    EntriesRoundTrip(c.entries, items, |items|, [Field(Entries)]);
    assert c.entries[..|items|] == c.entries;
  }

  // ----- Finite numbers -----

  predicate EntryFinite(e: CacheEntry) {
    && (e.timeMs.Some? ==> e.timeMs.value.Finite?)
    && e.correctness.cosine.Finite? && e.correctness.maxRelErr.Finite? && e.correctness.pcc.Finite?
  }

  lemma CorrectnessPrintable(c: Correctness)
    ensures Printable(Obj(EncodeCorrectness(c))) <==> c.cosine.Finite? && c.maxRelErr.Finite? && c.pcc.Finite?
  {
    var fields := EncodeCorrectness(c);
    assert Cosine in fields && MaxRelErr in fields && Pcc in fields;
    assert Printable(fields[Cosine]) <==> c.cosine.Finite?;
    assert Printable(fields[MaxRelErr]) <==> c.maxRelErr.Finite?;
    assert Printable(fields[Pcc]) <==> c.pcc.Finite?;
  }

  lemma ShapePrintable(s: Shape)
    ensures Printable(Obj(EncodeShape(s)))
  {
  }

  lemma ConfigPrintable(c: Config)
    ensures Printable(Obj(EncodeConfig(c)))
  {
  }

  // An entry prints as JSON exactly when its measured numbers are finite.
  lemma EntryPrintable(e: CacheEntry)
    ensures Printable(Obj(EncodeEntry(e))) <==> EntryFinite(e)
  {
    var fields := EncodeEntry(e);
    ShapePrintable(e.shape);
    ConfigPrintable(e.best);
    CorrectnessPrintable(e.correctness);
    hide EncodeShape, EncodeConfig, EncodeCorrectness;
    assert TimeMs in fields && CorrectnessName in fields;
    assert Printable(fields[TimeMs]) <==> (e.timeMs.Some? ==> e.timeMs.value.Finite?);
    assert fields[CorrectnessName] == Obj(EncodeCorrectness(e.correctness));
    if EntryFinite(e) {
      forall k | k in fields
        ensures Printable(fields[k])
      {
      }
    }
  }

  lemma CachePrintable(c: TuningCache)
    ensures Printable(EncodeCache(c)) <==> forall i | 0 <= i < |c.entries| :: EntryFinite(c.entries[i])
  {
    var fields := EncodeCache(c).fields;
    var items := EncodeEntries(c.entries);
    forall i | 0 <= i < |items|
      ensures Printable(items[i]) <==> EntryFinite(c.entries[i])
    {
      EntryPrintable(c.entries[i]);
    }
    hide EncodeEntry, EntryFinite;
    assert Entries in fields && fields[Entries] == Arr(items);
    assert Printable(Arr(items)) <==> forall i | 0 <= i < |items| :: Printable(items[i]);
    assert Printable(fields[Version]);
  }

  // ----- Strictness -----

  predicate HasField(obj: map<Name, Json>, key: Name, want: Want) {
    key in obj && want.Accepts(obj[key])
  }

  // The schema of one entry: every field present and of its kind, time_ms possibly null.
  predicate EntryConforms(j: Json) {
    && j.Obj?
    && HasField(j.fields, Gpu, AString) && HasField(j.fields, OpName, AString) && HasField(j.fields, ScoredBy, AString)
    && HasField(j.fields, TimeMs, ANumberOrNull) && HasField(j.fields, Validated, ABoolean)
    && HasField(j.fields, ShapeName, AnObject) && ShapeConforms(j.fields[ShapeName].fields)
    && HasField(j.fields, Best, AnObject) && ConfigConforms(j.fields[Best].fields)
    && HasField(j.fields, CorrectnessName, AnObject) && CorrectnessConforms(j.fields[CorrectnessName].fields)
  }

  predicate ShapeConforms(obj: map<Name, Json>) {
    HasField(obj, M, AnInteger) && HasField(obj, N, AnInteger) && HasField(obj, K, AnInteger) && HasField(obj, DType, AString)
  }

  predicate ConfigConforms(obj: map<Name, Json>) {
    && HasField(obj, BlockM, AnInteger) && HasField(obj, BlockN, AnInteger) && HasField(obj, BlockK, AnInteger)
    && HasField(obj, NumWarps, AnInteger) && HasField(obj, VectorWidth, AnInteger) && HasField(obj, Unroll, AnInteger)
    && HasField(obj, Stages, AnInteger)
  }

  predicate CorrectnessConforms(obj: map<Name, Json>) {
    HasField(obj, Cosine, ANumber) && HasField(obj, MaxRelErr, ANumber) && HasField(obj, Pcc, ANumber)
  }

  predicate Conforms(doc: Json) {
    && doc.Obj? && HasField(doc.fields, Version, AnInteger) && doc.fields[Version].AsInteger() == Some(VERSION)
    && HasField(doc.fields, Entries, AnArray)
    && forall i | 0 <= i < |doc.fields[Entries].items| :: EntryConforms(doc.fields[Entries].items[i])
  }

  lemma ItemStrict(items: seq<Json>, i: nat, path: seq<Step>)
    requires i < |items|
    ensures DecodeItem(items, i, path).Ok? <==> EntryConforms(items[i])
  {
    if items[i].Obj? {
      var obj, at := items[i].fields, path + [Item(i)];
      if ShapeName in obj && obj[ShapeName].Obj? {
        assert DecodeShape(obj[ShapeName].fields, at + [Field(ShapeName)]).Ok? <==> ShapeConforms(obj[ShapeName].fields);
      }
      if Best in obj && obj[Best].Obj? {
        assert DecodeConfig(obj[Best].fields, at + [Field(Best)]).Ok? <==> ConfigConforms(obj[Best].fields);
      }
      if CorrectnessName in obj && obj[CorrectnessName].Obj? {
        assert DecodeCorrectness(obj[CorrectnessName].fields, at + [Field(CorrectnessName)]).Ok? <==>
          CorrectnessConforms(obj[CorrectnessName].fields);
      }
    }
  }

  lemma {:induction false} EntriesStrict(items: seq<Json>, n: nat, path: seq<Step>)
    requires n <= |items|
    ensures DecodeEntries(items, n, path).Ok? <==> forall i | 0 <= i < n :: EntryConforms(items[i])
  {
    hide DecodeItem, EntryConforms;
    if n > 0 {
      EntriesStrict(items, n - 1, path);
      ItemStrict(items, n - 1, path);
    }
  }

  /** The decoder accepts exactly the documents of the schema: nothing missing is ever defaulted. */
  lemma DecodesIffConforms(doc: Json)
    ensures DecodeCache(doc).Ok? <==> Conforms(doc)
  {
    hide DecodeEntries, EntryConforms;
    if doc.Obj? && Entries in doc.fields && doc.fields[Entries].Arr? {
      var items := doc.fields[Entries].items;
      EntriesStrict(items, |items|, [Field(Entries)]);
    }
  }

  // An accessor's error is about the object at its path.
  lemma FieldError(doc: Json, path: seq<Step>, key: Name, want: Want)
    requires Resolve(doc, path).Some? && Resolve(doc, path).value.Obj?
    ensures var r := GetField(Resolve(doc, path).value.fields, key, path, want); r.Err? ==> Accurate(doc, r.error)
    ensures var obj := Resolve(doc, path).value.fields; key in obj ==> Resolve(doc, path + [Field(key)]) == Some(obj[key])
  {
    assert (path + [Field(key)])[..|path|] == path;
    ResolveConcat(doc, path, [Field(key)]);
  }

  lemma ShapeError(doc: Json, path: seq<Step>)
    requires Resolve(doc, path).Some? && Resolve(doc, path).value.Obj?
    ensures var r := DecodeShape(Resolve(doc, path).value.fields, path); r.Err? ==> Accurate(doc, r.error)
  {
    hide Resolve, Accurate;
    FieldError(doc, path, M, AnInteger);
    FieldError(doc, path, N, AnInteger);
    FieldError(doc, path, K, AnInteger);
    FieldError(doc, path, DType, AString);
  }

  lemma ConfigError(doc: Json, path: seq<Step>)
    requires Resolve(doc, path).Some? && Resolve(doc, path).value.Obj?
    ensures var r := DecodeConfig(Resolve(doc, path).value.fields, path); r.Err? ==> Accurate(doc, r.error)
  {
    hide Resolve, Accurate;
    FieldError(doc, path, BlockM, AnInteger);
    FieldError(doc, path, BlockN, AnInteger);
    FieldError(doc, path, BlockK, AnInteger);
    FieldError(doc, path, NumWarps, AnInteger);
    FieldError(doc, path, VectorWidth, AnInteger);
    FieldError(doc, path, Unroll, AnInteger);
    FieldError(doc, path, Stages, AnInteger);
  }

  lemma CorrectnessError(doc: Json, path: seq<Step>)
    requires Resolve(doc, path).Some? && Resolve(doc, path).value.Obj?
    ensures var r := DecodeCorrectness(Resolve(doc, path).value.fields, path); r.Err? ==> Accurate(doc, r.error)
  {
    hide Resolve, Accurate;
    FieldError(doc, path, Cosine, ANumber);
    FieldError(doc, path, MaxRelErr, ANumber);
    FieldError(doc, path, Pcc, ANumber);
  }

  lemma NestedErrors(doc: Json, path: seq<Step>)
    requires Resolve(doc, path).Some? && Resolve(doc, path).value.Obj?
    ensures var obj := Resolve(doc, path).value.fields;
      && (ShapeName in obj && obj[ShapeName].Obj? ==>
        var r := DecodeShape(obj[ShapeName].fields, path + [Field(ShapeName)]); r.Err? ==> Accurate(doc, r.error))
      && (Best in obj && obj[Best].Obj? ==>
        var r := DecodeConfig(obj[Best].fields, path + [Field(Best)]); r.Err? ==> Accurate(doc, r.error))
      && (CorrectnessName in obj && obj[CorrectnessName].Obj? ==>
        var r := DecodeCorrectness(obj[CorrectnessName].fields, path + [Field(CorrectnessName)]); r.Err? ==> Accurate(doc, r.error))
  {
    hide Resolve, Accurate, DecodeShape, DecodeConfig, DecodeCorrectness;
    var obj := Resolve(doc, path).value.fields;
    if ShapeName in obj && obj[ShapeName].Obj? {
      FieldError(doc, path, ShapeName, AnObject);
      ShapeError(doc, path + [Field(ShapeName)]);
    }
    if Best in obj && obj[Best].Obj? {
      FieldError(doc, path, Best, AnObject);
      ConfigError(doc, path + [Field(Best)]);
    }
    if CorrectnessName in obj && obj[CorrectnessName].Obj? {
      FieldError(doc, path, CorrectnessName, AnObject);
      CorrectnessError(doc, path + [Field(CorrectnessName)]);
    }
  }

  lemma EntryError(doc: Json, path: seq<Step>)
    requires Resolve(doc, path).Some? && Resolve(doc, path).value.Obj?
    ensures var r := DecodeEntry(Resolve(doc, path).value.fields, path); r.Err? ==> Accurate(doc, r.error)
  {
    hide Resolve, Accurate, DecodeShape, DecodeConfig, DecodeCorrectness;
    NestedErrors(doc, path);
    FieldError(doc, path, Gpu, AString);
    FieldError(doc, path, OpName, AString);
    FieldError(doc, path, ShapeName, AnObject);
    FieldError(doc, path, Best, AnObject);
    FieldError(doc, path, ScoredBy, AString);
    FieldError(doc, path, TimeMs, ANumberOrNull);
    FieldError(doc, path, Validated, ABoolean);
    FieldError(doc, path, CorrectnessName, AnObject);
  }

  lemma ItemError(doc: Json, path: seq<Step>, i: nat)
    requires Resolve(doc, path).Some? && Resolve(doc, path).value.Arr? && i < |Resolve(doc, path).value.items|
    ensures var r := DecodeItem(Resolve(doc, path).value.items, i, path); r.Err? ==> Accurate(doc, r.error)
  {
    hide DecodeEntry;
    ResolveConcat(doc, path, [Item(i)]);
    if Resolve(doc, path).value.items[i].Obj? {
      EntryError(doc, path + [Item(i)]);
    }
  }

  lemma {:induction false} EntriesError(doc: Json, path: seq<Step>, n: nat)
    requires Resolve(doc, path).Some? && Resolve(doc, path).value.Arr? && n <= |Resolve(doc, path).value.items|
    ensures var r := DecodeEntries(Resolve(doc, path).value.items, n, path); r.Err? ==> Accurate(doc, r.error)
  {
    hide DecodeItem, Accurate, Resolve;
    if n > 0 {
      EntriesError(doc, path, n - 1);
      ItemError(doc, path, n - 1);
    }
  }

  /** Every schema error is true of the document: the field its path names is missing, or there and of another kind. */
  lemma ErrorsAreAccurate(doc: Json)
    ensures var r := DecodeCache(doc); r.Err? ==> Accurate(doc, r.error)
  {
    if doc.Obj? {
      FieldError(doc, [], Version, AnInteger);
      FieldError(doc, [], Entries, AnArray);
      assert [] + [Field(Entries)] == [Field(Entries)];
      if Entries in doc.fields && doc.fields[Entries].Arr? {
        EntriesError(doc, [Field(Entries)], |doc.fields[Entries].items|);
      }
      hide DecodeEntries;
    }
  }

  // ----- The truncated config -----

  // The config's numbers as the document wrote them.
  function Written(obj: map<Name, Json>): seq<Int64>
    requires ConfigConforms(obj)
  {
    [obj[BlockM].AsInteger().value, obj[BlockN].AsInteger().value, obj[BlockK].AsInteger().value,
      obj[NumWarps].AsInteger().value, obj[VectorWidth].AsInteger().value, obj[Unroll].AsInteger().value,
      obj[Stages].AsInteger().value]
  }

  function Numbers(c: Config): seq<Int64> {
    [c.blockM, c.blockN, c.blockK, c.numWarps, c.vectorWidth, c.unroll, c.stages]
  }

  predicate FitsInt(i: Int64) {
    -0x8000_0000 <= i < 0x8000_0000
  }

  /** A config is read as written exactly when its numbers fit 32 bits: a larger one is truncated, not rejected. */
  lemma ConfigReadAsWrittenIff(obj: map<Name, Json>, path: seq<Step>)
    requires ConfigConforms(obj)
    ensures DecodeConfig(obj, path).Ok?
    ensures Numbers(DecodeConfig(obj, path).value) == Written(obj) <==> forall i | 0 <= i < 7 :: FitsInt(Written(obj)[i])
  {
    var w, c := Written(obj), DecodeConfig(obj, path).value;
    assert Numbers(c) == [ToInt32(w[0]), ToInt32(w[1]), ToInt32(w[2]), ToInt32(w[3]), ToInt32(w[4]), ToInt32(w[5]), ToInt32(w[6])];
    forall i: Int64
      ensures ToInt32(i) == i <==> FitsInt(i)
    {
    }
  }
}
