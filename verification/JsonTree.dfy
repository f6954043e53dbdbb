/** JSON values as trees, and strict field access whose errors name the offending path. */
module JsonTrees {
  import opened Wavelets

  const INT64_MIN: int := -0x8000_0000_0000_0000
  const INT64_MAX: int := 0x7fff_ffff_ffff_ffff

  type Int64 = i: int | INT64_MIN <= i <= INT64_MAX
  type Int32 = i: int | -0x8000_0000 <= i < 0x8000_0000

  // Models `static_cast<int>` of a 64-bit value.
  function ToInt32(i: Int64): Int32 {
    (i + 0x8000_0000) % 0x1_0000_0000 - 0x8000_0000
  }

  // The keys of the documents read and written here; any other key is a Word.
  datatype Name =
    | Version | Entries | Binaries
    | Gpu | OpName | ShapeName | Best | ScoredBy | TimeMs | Validated | CorrectnessName | SoPath | KernelHash
    | M | N | K | DType
    | BlockM | BlockN | BlockK | NumWarps | VectorWidth | Unroll | Stages
    | Cosine | MaxRelErr | Pcc
    | Word(text: string)

  // A double: NaN and the infinities print as words that are not JSON.
  datatype Double = Finite(r: real) | NonFinite(word: string)

  datatype Json =
    | Null
    | Bool(b: bool)
    | Int(i: int)
    | Real(d: Double)
    | Str(s: string)
    | Arr(items: seq<Json>)
    | Obj(fields: map<Name, Json>)
  {
    // A number of either kind that is a whole 64-bit value.
    function AsInteger(): Option<Int64> {
      match this
      case Int(i) => if INT64_MIN <= i <= INT64_MAX then Some(i) else None
      case Real(Finite(r)) => if r.Floor as real == r && INT64_MIN <= r.Floor <= INT64_MAX then Some(r.Floor) else None
      case _ => None
    }

    function AsNumber(): Option<Double> {
      match this
      case Int(i) => Some(Finite(i as real))
      case Real(d) => Some(d)
      case _ => None
    }
  }

  // Printing keeps a tree, except that a whole number of up to seventeen digits reads back as an integer.
  function Reread(j: Json): Json {
    match j
    case Real(Finite(r)) => if r.Floor as real == r && -100000000000000000.0 < r < 100000000000000000.0 then Int(r.Floor) else j
    case Arr(items) => Arr(seq(|items|, i requires 0 <= i < |items| => Reread(items[i])))
    case Obj(fields) => Obj(map k | k in fields :: Reread(fields[k]))
    case _ => j
  }

  // The text of a tree is JSON when every number in it is finite.
  predicate Printable(j: Json) {
    match j
    case Real(d) => d.Finite?
    case Arr(items) => forall i | 0 <= i < |items| :: Printable(items[i])
    case Obj(fields) => forall k | k in fields :: Printable(fields[k])
    case _ => true
  }

  // ----- Errors -----

  datatype Step = Field(name: Name) | Item(index: nat)

  datatype Want = AString | AnInteger | ANumber | ANumberOrNull | ABoolean | AnObject | AnArray
  {
    predicate Accepts(j: Json) {
      match this
      case AString => j.Str?
      case AnInteger => j.AsInteger().Some?
      case ANumber => j.AsNumber().Some?
      case ANumberOrNull => j.Null? || j.AsNumber().Some?
      case ABoolean => j.Bool?
      case AnObject => j.Obj?
      case AnArray => j.Arr?
    }
  }

  datatype Problem = Missing(want: Want) | Expected(want: Want) | UnsupportedVersion(found: int) | EmptyGpu | NoTuningEntry

  datatype Error = Error(path: seq<Step>, problem: Problem)

  datatype Result<+T> = Ok(value: T) | Err(error: Error)
  {
    predicate IsFailure() {
      Err?
    }

    function PropagateFailure<U>(): Result<U>
      requires Err?
    {
      Err(error)
    }

    function Extract(): T
      requires Ok?
    {
      value
    }
  }

  // ----- Strict accessors -----

  function GetField(obj: map<Name, Json>, key: Name, path: seq<Step>, want: Want): (r: Result<Json>)
    ensures r.Ok? <==> key in obj && want.Accepts(obj[key])
    ensures r.Ok? ==> r.value == obj[key]
    ensures r.Err? ==> r.error == Error(path + [Field(key)], if key in obj then Expected(want) else Missing(want))
  {
    if key !in obj then Err(Error(path + [Field(key)], Missing(want)))
    else if !want.Accepts(obj[key]) then Err(Error(path + [Field(key)], Expected(want)))
    else Ok(obj[key])
  }

  function GetString(obj: map<Name, Json>, key: Name, path: seq<Step>): Result<string> {
    var v :- GetField(obj, key, path, AString);
    Ok(v.s)
  }

  function GetInt(obj: map<Name, Json>, key: Name, path: seq<Step>): Result<Int64> {
    var v :- GetField(obj, key, path, AnInteger);
    Ok(v.AsInteger().value)
  }

  function GetDouble(obj: map<Name, Json>, key: Name, path: seq<Step>): Result<Double> {
    var v :- GetField(obj, key, path, ANumber);
    Ok(v.AsNumber().value)
  }

  function GetNullable(obj: map<Name, Json>, key: Name, path: seq<Step>): Result<Option<Double>> {
    var v :- GetField(obj, key, path, ANumberOrNull);
    Ok(if v.Null? then None else v.AsNumber())
  }

  function GetBool(obj: map<Name, Json>, key: Name, path: seq<Step>): Result<bool> {
    var v :- GetField(obj, key, path, ABoolean);
    Ok(v.b)
  }

  function GetObject(obj: map<Name, Json>, key: Name, path: seq<Step>): Result<map<Name, Json>> {
    var v :- GetField(obj, key, path, AnObject);
    Ok(v.fields)
  }

  function GetArray(obj: map<Name, Json>, key: Name, path: seq<Step>): Result<seq<Json>> {
    var v :- GetField(obj, key, path, AnArray);
    Ok(v.items)
  }

  // ----- What an error says -----

  // The subtree a path leads to.
  function Resolve(j: Json, path: seq<Step>): Option<Json> {
    if path == [] then Some(j)
    else match path[0]
      case Field(name) => if j.Obj? && name in j.fields then Resolve(j.fields[name], path[1..]) else None
      case Item(i) => if j.Arr? && i < |j.items| then Resolve(j.items[i], path[1..]) else None
  }

  // The error is right about the document: what it calls missing is absent from an object that is there, what it calls unexpected is there
  // and of another kind.
  predicate Accurate(doc: Json, e: Error) {
    match e.problem
    case Missing(_) =>
      && e.path != [] && e.path[|e.path| - 1].Field?
      && Resolve(doc, e.path[..|e.path| - 1]).Some? && Resolve(doc, e.path[..|e.path| - 1]).value.Obj?
      && e.path[|e.path| - 1].name !in Resolve(doc, e.path[..|e.path| - 1]).value.fields
    case Expected(want) => Resolve(doc, e.path).Some? && !want.Accepts(Resolve(doc, e.path).value)
    case _ => true
  }

  lemma {:induction false} ResolveConcat(j: Json, p: seq<Step>, q: seq<Step>)
    requires Resolve(j, p).Some?
    ensures Resolve(j, p + q) == Resolve(Resolve(j, p).value, q)
    decreases |p|
  {
    if p == [] {
      assert p + q == q;
    } else {
      assert (p + q)[0] == p[0] && (p + q)[1..] == p[1..] + q;
      match p[0]
      case Field(name) => ResolveConcat(j.fields[name], p[1..], q);
      case Item(i) => ResolveConcat(j.items[i], p[1..], q);
    }
  }
}
