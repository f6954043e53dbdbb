/** The .npy bridge for bf16 arrays: a header of text searched for its fields, then a little-endian payload. */
module NpyFiles {
  import opened Wavelets
  import opened Mesh
  import opened Arithmetic
  import opened JsonTrees
  import opened Texts

  datatype NpyError =
    | BadMagic | TruncatedHeader | TruncatedBody | TruncatedPayload
    | MissingKey | NoOpeningQuote | NoClosingQuote | UnsupportedDescr
    | MalformedShape | NonIntegerDimension | DimensionOutOfRange | SizeMismatch

  datatype Npy<+T> = Loaded(value: T) | Failed(error: NpyError)
  {
    predicate IsFailure() {
      Failed?
    }

    function PropagateFailure<U>(): Npy<U>
      requires Failed?
    {
      Npy.Failed(error)
    }

    function Extract(): T
      requires Loaded?
    {
      value
    }
  }

  datatype NpyArray = NpyArray(shape: seq<int>, data: seq<U16>)

  // ----- Searching -----

  predicate At(s: string, pat: string, i: nat) {
    i + |pat| <= |s| && s[i..i + |pat|] == pat
  }

  // Models `std::string::find`.
  function Find(s: string, pat: string, from: nat): (r: Option<nat>)
    ensures r.Some? ==> from <= r.value && At(s, pat, r.value) && forall j | from <= j < r.value :: !At(s, pat, j)
    ensures r.None? ==> forall j: nat | from <= j :: !At(s, pat, j)
    decreases |s| - from
  {
    if from + |pat| > |s| then None
    else if At(s, pat, from) then Some(from)
    else Find(s, pat, from + 1)
  }

  lemma FindsFirst(s: string, pat: string, from: nat, i: nat)
    requires from <= i && At(s, pat, i) && forall j: nat | from <= j < i :: !At(s, pat, j)
    ensures Find(s, pat, from) == Some(i)
  {
  }

  lemma AtChar(s: string, c: char, i: nat)
    ensures At(s, [c], i) <==> i < |s| && s[i] == c
  {
    if i < |s| {
      assert s[i..i + 1] == [s[i]];
    }
  }

  lemma FindsChar(s: string, c: char, from: nat, i: nat)
    requires from <= i < |s| && s[i] == c && forall j | from <= j < i :: s[j] != c
    ensures Find(s, [c], from) == Some(i)
  {
    AtChar(s, c, i);
    forall j: nat | from <= j < i
      ensures !At(s, [c], j)
    {
      AtChar(s, c, j);
    }
    FindsFirst(s, [c], from, i);
  }

  function QuotedValueAfter(header: string, key: string): Npy<string> {
    match Find(header, key, 0)
    case None => Npy.Failed(MissingKey)
    case Some(k) =>
      match Find(header, ['\''], k + |key|)
      case None => Npy.Failed(NoOpeningQuote)
      case Some(open) =>
        match Find(header, ['\''], open + 1)
        case None => Npy.Failed(NoClosingQuote)
        case Some(close) =>
          AtChar(header, '\'', close);
          Loaded(header[open + 1..close])
  }

  // ----- The shape tuple -----

  predicate Separator(c: char) {
    c == ' ' || c == ','
  }

  // The first position at or after i, up to close, that is no separator.
  function SkipSeparators(s: string, i: nat, close: nat): (r: nat)
    requires i <= close <= |s|
    ensures i <= r <= close && (r < close ==> !Separator(s[r]))
    ensures forall j | i <= j < r :: Separator(s[j])
    decreases close - i
  {
    if i < close && Separator(s[i]) then SkipSeparators(s, i + 1, close) else i
  }

  function SkipDigits(s: string, i: nat, close: nat): (r: nat)
    requires i <= close <= |s|
    ensures i <= r <= close && (r < close ==> !IsDigit(s[r]))
    ensures forall j | i <= j < r :: IsDigit(s[j])
    decreases close - i
  {
    if i < close && IsDigit(s[i]) then SkipDigits(s, i + 1, close) else i
  }

  // Models `std::stoll` of a run of digits: too large a number is an error.
  function ParseNumber(digits: string): Npy<int>
    requires AllDigits(digits)
  {
    if DigitsValue(digits) <= INT64_MAX then Loaded(DigitsValue(digits)) else Npy.Failed(DimensionOutOfRange)
  }

  function ParseDims(s: string, i: nat, close: nat): (r: Npy<seq<int>>)
    requires i <= close <= |s|
    ensures r.Loaded? ==> forall d | d in r.value :: d >= 0
    decreases close - i
  {
    var start := SkipSeparators(s, i, close);
    if start >= close then Loaded([])
    else
      var end := SkipDigits(s, start, close);
      if end == start then Npy.Failed(NonIntegerDimension)
      else
        var dim :- ParseNumber(s[start..end]);
        var rest :- ParseDims(s, end, close);
        Loaded([dim] + rest)
  }

  function ParseShape(header: string): (r: Npy<seq<int>>)
    ensures r.Loaded? ==> forall d | d in r.value :: d >= 0
  {
    match Find(header, "'shape'", 0)
    case None => Npy.Failed(MalformedShape)
    case Some(k) =>
      match Find(header, ['('], k)
      case None => Npy.Failed(MalformedShape)
      case Some(open) =>
        match Find(header, [')'], open)
        case None => Npy.Failed(MalformedShape)
        case Some(close) =>
          AtChar(header, '(', open);
          AtChar(header, ')', close);
          ParseDims(header, open + 1, close)
  }

  // Prefixing what was parsed before.
  function After(dims: seq<int>, rest: Npy<seq<int>>): Npy<seq<int>> {
    match rest
    case Loaded(more) => Loaded(dims + more)
    case Failed(e) => Npy.Failed(e)
  }

  lemma AfterFacts(dims: seq<int>, d: int, rest: Npy<seq<int>>)
    ensures After([], rest) == rest
    ensures After(dims, After([d], rest)) == After(dims + [d], rest)
    ensures After(dims, Loaded([])) == Loaded(dims)
  {
    assert dims + [] == dims;
    if rest.Loaded? {
      assert [] + rest.value == rest.value;
      assert dims + ([d] + rest.value) == dims + [d] + rest.value;
    }
  }

  method ParseDimensions(header: string, open: nat, close: nat) returns (r: Npy<seq<int>>)
    requires open < close < |header|
    ensures r == ParseDims(header, open + 1, close)
  {
    var shape: seq<int> := [];
    var i := open + 1;
    AfterFacts([], 0, ParseDims(header, i, close));
    while i < close
      invariant open < i <= close
      invariant ParseDims(header, open + 1, close) == After(shape, ParseDims(header, i, close))
      decreases close - i
    {
      hide After, ParseNumber;
      ghost var from := i;
      while i < close && Separator(header[i])
        invariant from <= i <= close && SkipSeparators(header, from, close) == SkipSeparators(header, i, close)
      {
        i := i + 1;
      }
      if i >= close {
        AfterFacts(shape, 0, Loaded([]));
        return Loaded(shape);
      }
      var start := i;
      while i < close && IsDigit(header[i])
        invariant start <= i <= close && SkipDigits(header, start, close) == SkipDigits(header, i, close)
      {
        i := i + 1;
      }
      StepFacts(header, from, close, start, i);
      if i == start {
        AfterFailure(shape, NonIntegerDimension);
        return Npy.Failed(NonIntegerDimension);
      }
      var dim := ParseNumber(header[start..i]);
      if dim.Failed? {
        AfterFailure(shape, dim.error);
        return Npy.Failed(dim.error);
      }
      AfterFacts(shape, dim.value, ParseDims(header, i, close));
      shape := shape + [dim.value];
    }
    AfterFacts(shape, 0, Loaded([]));
    return Loaded(shape);
  }

  method ParseShapeText(header: string) returns (r: Npy<seq<int>>)
    ensures r == ParseShape(header)
  {
    hide Find, ParseDims;
    var k := Find(header, "'shape'", 0);
    if k.None? {
      return Npy.Failed(MalformedShape);
    }
    var open := Find(header, ['('], k.value);
    if open.None? {
      return Npy.Failed(MalformedShape);
    }
    var close := Find(header, [')'], open.value);
    if close.None? {
      return Npy.Failed(MalformedShape);
    }
    AtChar(header, '(', open.value);
    AtChar(header, ')', close.value);
    r := ParseDimensions(header, open.value, close.value);
  }

  lemma AfterFailure(dims: seq<int>, e: NpyError)
    ensures After(dims, Npy.Failed(e)) == Npy.Failed(e)
  {
  }

  // One step of the parser: skip to a number, read it, go on behind it.
  lemma StepFacts(s: string, from: nat, close: nat, start: nat, end: nat)
    requires from <= start < close <= |s| && start <= end <= close
    requires SkipSeparators(s, from, close) == start && SkipDigits(s, start, close) == end
    ensures end == start ==> ParseDims(s, from, close) == Npy.Failed(NonIntegerDimension)
    ensures end > start ==> ParseDims(s, from, close) == match ParseNumber(s[start..end])
      case Failed(e) => Npy.Failed(e)
      case Loaded(dim) => After([dim], ParseDims(s, end, close))
  {
  }

  // ----- Writing -----

  // Every further dimension, each after a separator.
  function Tail(dims: seq<int>): string {
    if dims == [] then [] else [',', ' '] + Integer(dims[0]) + Tail(dims[1..])
  }

  function Inside(shape: seq<int>): string {
    if shape == [] then [] else Integer(shape[0]) + Tail(shape[1..]) + if |shape| == 1 then [','] else []
  }

  function ShapeText(shape: seq<int>): string {
    ['('] + Inside(shape) + [')']
  }

  const LEAD: string := "{'" + "descr" + "': '" + "<V2" + "', '" + "fortran_order" + "'" + ": False, "

  function Dict(shape: seq<int>): string {
    LEAD + "'shape'" + ": " + ShapeText(shape) + ", }"
  }

  const PREFIX: nat := 10

  // Prefix, dict and newline, rounded up to a multiple of 64, without the prefix.
  function HeaderLength(shape: seq<int>): nat {
    (PREFIX + |Dict(shape)| + 1 + 63) / 64 * 64 - PREFIX
  }

  function Header(shape: seq<int>): (h: string)
    ensures |h| == HeaderLength(shape)
  {
    Dict(shape) + seq(HeaderLength(shape) - |Dict(shape)| - 1, _ => ' ') + ['\n']
  }

  const MAGIC: string := [0x93 as char, 'N', 'U', 'M', 'P', 'Y']

  function LowByte(n: nat): char {
    (n % 0x100) as char
  }

  // The two bytes of a 16-bit field; a longer number loses its upper bits.
  function TwoBytes(n: nat): string {
    [LowByte(n), LowByte(n / 0x100)]
  }

  function Payload(data: seq<U16>): (s: string)
    ensures |s| == 2 * |data|
  {
    if data == [] then [] else Payload(data[..|data| - 1]) + TwoBytes(data[|data| - 1])
  }

  function NpyFile(shape: seq<int>, data: seq<U16>): string {
    MAGIC + [1 as char, 0 as char] + TwoBytes(HeaderLength(shape)) + Header(shape) + Payload(data)
  }

  lemma {:induction false} TailSnoc(dims: seq<int>, d: int)
    ensures Tail(dims + [d]) == Tail(dims) + [',', ' '] + Integer(d)
  {
    if dims == [] {
      assert [] + [d] == [d] && [d][1..] == [];
    } else {
      assert (dims + [d])[0] == dims[0] && (dims + [d])[1..] == dims[1..] + [d];
      TailSnoc(dims[1..], d);
    }
  }

  // The first n dimensions, separated.
  function Dims(shape: seq<int>, n: nat): string
    requires n <= |shape|
  {
    if n == 0 then [] else Integer(shape[0]) + Tail(shape[1..n])
  }

  lemma DimsSnoc(shape: seq<int>, n: nat)
    requires n < |shape|
    ensures Dims(shape, n + 1) == if n == 0 then Integer(shape[n]) else Dims(shape, n) + [',', ' '] + Integer(shape[n])
  {
    hide Integer;
    if n > 0 {
      hide Tail;
      TailSnoc(shape[1..n], shape[n]);
      assert shape[1..n + 1] == shape[1..n] + [shape[n]];
    } else {
      assert shape[1..1] == [];
      assert Integer(shape[0]) + [] == Integer(shape[0]);
    }
  }

  method WriteShape(shape: seq<int>) returns (text: string)
    ensures text == ShapeText(shape)
  {
    hide Integer, Tail;
    text := ['('];
    for i := 0 to |shape|
      invariant text == ['('] + Dims(shape, i)
    {
      DimsSnoc(shape, i);
      if i > 0 {
        text := text + [',', ' '];
      }
      text := text + Integer(shape[i]);
    }
    assert shape != [] ==> shape[1..|shape|] == shape[1..];
    if |shape| == 1 {
      text := text + [','];
    }
    text := text + [')'];
  }

  method WritePayload(data: seq<U16>) returns (out: string)
    ensures out == Payload(data)
  {
    hide TwoBytes;
    out := [];
    for i := 0 to |data|
      invariant out == Payload(data[..i])
    {
      assert data[..i + 1][..i] == data[..i];
      out := out + TwoBytes(data[i]);
    }
    assert data[..|data|] == data;
  }

  method WriteNpy(shape: seq<int>, data: seq<U16>) returns (r: Npy<string>)
    ensures r == if Product(shape) == |data| then Loaded(NpyFile(shape, data)) else Npy.Failed(SizeMismatch)
  {
    hide Integer, Tail, Inside, LEAD, MAGIC, Product, Payload, TwoBytes, ShapeText;
    var n := ProductOf(shape);
    if n != |data| {
      return Npy.Failed(SizeMismatch);
    }
    var shapeText := WriteShape(shape);
    var dict := LEAD + "'shape'" + ": " + shapeText + ", }";
    var unpadded := PREFIX + |dict| + 1;
    var padded := (unpadded + 63) / 64 * 64;
    var headerLength := padded - PREFIX;
    var header := dict + seq(headerLength - |dict| - 1, _ => ' ') + ['\n'];
    var payload := WritePayload(data);
    return Loaded(MAGIC + [1 as char, 0 as char] + TwoBytes(headerLength) + header + payload);
  }

  // ----- Reading -----

  // A byte as the stream delivers it.
  function Byte(c: char): nat {
    c as int % 0x100
  }

  function BytePair(s: string, i: nat): U16
    requires 2 * i + 1 < |s|
  {
    Byte(s[2 * i]) + 0x100 * Byte(s[2 * i + 1])
  }

  function ReadData(s: string, n: nat): (r: seq<U16>)
    requires 2 * n <= |s|
    ensures |r| == n
  {
    seq(n, i requires 0 <= i < n => BytePair(s, i))
  }

  // The header's length and where the header starts.
  function HeaderField(file: string): Npy<(nat, nat)> {
    if |file| < 6 || file[..6] != MAGIC then Npy.Failed(BadMagic)
    else if |file| < 8 then Npy.Failed(TruncatedHeader)
    else if file[6] == 1 as char then
      if |file| < 10 then Npy.Failed(TruncatedHeader)
      else Loaded((Byte(file[8]) + 0x100 * Byte(file[9]), 10))
    else if |file| < 12 then Npy.Failed(TruncatedHeader)
    else Loaded((Byte(file[8]) + 0x100 * Byte(file[9]) + 0x1_0000 * Byte(file[10]) + 0x100_0000 * Byte(file[11]), 12))
  }

  function ReadBody(header: string, payload: string): Npy<NpyArray> {
    var descr :- QuotedValueAfter(header, "'descr'");
    if descr != "<V2" && descr != "|V2" then Npy.Failed(UnsupportedDescr)
    else
      var shape :- ParseShape(header);
      ProductNonNegative(shape);
      if 2 * Product(shape) > |payload| then Npy.Failed(TruncatedPayload)
      else Loaded(NpyArray(shape, ReadData(payload, Product(shape))))
  }

  function DecodeNpy(file: string): Npy<NpyArray> {
    var (length, start) :- HeaderField(file);
    if start + length > |file| then Npy.Failed(TruncatedBody)
    else ReadBody(file[start..start + length], file[start + length..])
  }

  // ----- Round trip -----

  ghost predicate NonNegative(dims: seq<int>) {
    forall d | d in dims :: d >= 0
  }

  // What parsing printed dimensions gives: the dimensions, unless one prints with a sign.
  function Reparsed(dims: seq<int>): Npy<seq<int>> {
    if dims == [] then Loaded([])
    else if dims[0] < 0 then Npy.Failed(NonIntegerDimension)
    else After([dims[0]], Reparsed(dims[1..]))
  }

  lemma {:induction false} ReparsedIff(dims: seq<int>)
    ensures NonNegative(dims) ==> Reparsed(dims) == Loaded(dims)
    ensures !NonNegative(dims) ==> Reparsed(dims) == Npy.Failed(NonIntegerDimension)
  {
    if dims != [] {
      ReparsedIff(dims[1..]);
      assert dims[0] in dims && forall d | d in dims[1..] :: d in dims;
      assert [dims[0]] + dims[1..] == dims;
    }
  }

  lemma SkipsTo(s: string, i: nat, close: nat, r: nat)
    requires i <= r <= close <= |s| && forall j | i <= j < r :: Separator(s[j])
    requires r < close ==> !Separator(s[r])
    ensures SkipSeparators(s, i, close) == r
  {
  }

  lemma DigitsTo(s: string, i: nat, close: nat, r: nat)
    requires i <= r <= close <= |s| && forall j | i <= j < r :: IsDigit(s[j])
    requires r < close ==> !IsDigit(s[r])
    ensures SkipDigits(s, i, close) == r
  {
  }

  // A printed dimension, behind separators and before one or the end, is read back.
  lemma NumberParses(s: string, i: nat, start: nat, close: nat, d: Int64)
    requires i <= start && start + |Integer(d)| <= close <= |s|
    requires forall j | i <= j < start :: Separator(s[j])
    requires s[start..start + |Integer(d)|] == Integer(d)
    requires start + |Integer(d)| < close ==> !IsDigit(s[start + |Integer(d)|])
    ensures d < 0 ==> ParseDims(s, i, close) == Npy.Failed(NonIntegerDimension)
    ensures d >= 0 ==> ParseDims(s, i, close) == After([d], ParseDims(s, start + |Integer(d)|, close))
  {
    var text := Integer(d);
    var end := start + |text|;
    assert s[start] == text[0] by {
      assert s[start..end][0] == s[start];
    }
    if d < 0 {
      hide Decimal;
      SkipsTo(s, i, close, start);
      DigitsTo(s, start, close, start);
      StepFacts(s, i, close, start, start);
    } else {
      DecimalValue(d);
      hide Decimal;
      assert text == Decimal(d);
      SkipsTo(s, i, close, start);
      forall j | start <= j < end
        ensures IsDigit(s[j])
      {
        assert s[start..end][j - start] == s[j];
      }
      DigitsTo(s, start, close, end);
      StepFacts(s, i, close, start, end);
    }
  }

  lemma IntegerNonEmpty(i: int)
    ensures |Integer(i)| > 0
  {
  }

  lemma {:induction false} TailParses(s: string, i: nat, close: nat, dims: seq<Int64>)
    requires i <= close <= |s| && s[i..close] == Tail(dims)
    ensures ParseDims(s, i, close) == Reparsed(dims)
    decreases |dims|
  {
    hide Integer;
    if dims == [] {
      SkipsTo(s, i, close, close);
    } else {
      var start, n := i + 2, |Integer(dims[0])|;
      var end := start + n;
      Parts(s, i, close, [',', ' '], Integer(dims[0]), Tail(dims[1..]));
      assert s[i] == s[i..start][0] && s[i + 1] == s[i..start][1];
      TailStarts(dims[1..]);
      assert end < close ==> s[end] == s[end..close][0];
      NumberParses(s, i, start, close, dims[0]);
      TailParses(s, end, close, dims[1..]);
    }
  }

  // A slice of s that reads p + q + r holds its parts in order.
  lemma Parts(s: string, i: nat, close: nat, p: string, q: string, r: string)
    requires i <= close <= |s| && s[i..close] == p + q + r
    ensures i + |p| + |q| + |r| == close
    ensures s[i..i + |p|] == p && s[i + |p|..i + |p| + |q|] == q && s[i + |p| + |q|..close] == r
  {
    var t := s[i..close];
    assert forall j | 0 <= j < |t| :: t[j] == s[i + j];
    assert t[..|p|] == p && t[|p|..|p| + |q|] == q && t[|p| + |q|..] == r;
    assert s[i..i + |p|] == t[..|p|];
    assert s[i + |p|..i + |p| + |q|] == t[|p|..|p| + |q|];
    assert s[i + |p| + |q|..close] == t[|p| + |q|..];
  }

  lemma TailStarts(dims: seq<int>)
    ensures Tail(dims) != [] ==> Tail(dims)[0] == ','
  {
  }

  lemma EmptyParses(s: string, i: nat, close: nat)
    requires i <= close <= |s| && s[i..close] == Inside([])
    ensures ParseDims(s, i, close) == Reparsed([])
  {
    assert i == close;
    SkipsTo(s, i, i, i);
  }

  // The tuple's text: its first dimension, and whatever follows it, a comma if anything.
  lemma InsideSplits(s: string, i: nat, close: nat, shape: seq<Int64>)
    requires shape != [] && i <= close <= |s| && s[i..close] == Inside(shape)
    ensures var end := i + |Integer(shape[0])|;
      && end <= close && s[i..end] == Integer(shape[0])
      && s[end..close] == Tail(shape[1..]) + (if |shape| == 1 then [','] else [])
      && (end < close ==> !IsDigit(s[end]))
  {
    hide Integer, Tail;
    var rest := Tail(shape[1..]) + if |shape| == 1 then [','] else [];
    assert Inside(shape) == [] + Integer(shape[0]) + rest;
    Parts(s, i, close, [], Integer(shape[0]), rest);
    TailStarts(shape[1..]);
    var end := i + |Integer(shape[0])|;
    assert end < close ==> s[end] == s[end..close][0];
  }

  lemma ReparsedSteps(shape: seq<int>)
    requires shape != []
    ensures Reparsed(shape) == if shape[0] < 0 then Npy.Failed(NonIntegerDimension) else After([shape[0]], Reparsed(shape[1..]))
  {
  }

  lemma InsideParses(s: string, i: nat, close: nat, shape: seq<Int64>)
    requires i <= close <= |s| && s[i..close] == Inside(shape)
    ensures ParseDims(s, i, close) == Reparsed(shape)
  {
    hide *;
    if shape == [] {
      EmptyParses(s, i, close);
    } else {
      InsideSplits(s, i, close, shape);
      NumberParses(s, i, i, close, shape[0]);
      RestParses(s, i + |Integer(shape[0])|, close, shape);
      ReparsedSteps(shape);
    }
  }

  // Behind the first dimension come the others, or the lone comma of a one-element tuple.
  lemma RestParses(s: string, i: nat, close: nat, shape: seq<Int64>)
    requires shape != [] && i <= close <= |s|
    requires s[i..close] == Tail(shape[1..]) + if |shape| == 1 then [','] else []
    ensures ParseDims(s, i, close) == Reparsed(shape[1..])
  {
    if |shape| == 1 {
      assert shape[1..] == [];
      assert s[i..close] == [','];
      assert s[i] == s[i..close][0];
      SkipsTo(s, i, close, close);
    } else {
      assert Tail(shape[1..]) + [] == Tail(shape[1..]);
      TailParses(s, i, close, shape[1..]);
    }
  }

  // ----- The searched header -----

  // In the lead no quote is followed by an s, so the shape key is first found behind it.
  lemma LeadText()
    ensures |LEAD| == 41 && LEAD[..2] == "{'" && LEAD[2..7] == "descr" && LEAD[7..11] == "': '" && LEAD[11..14] == "<V2"
    ensures LEAD[14..18] == "', '" && LEAD[18..31] == "fortran_order" && LEAD[31] == '\'' && LEAD[32..41] == ": False, "
  {
  }

  lemma LeadQuotes(i: nat)
    requires i < 41 && |LEAD| == 41
    ensures LEAD[i] == '\'' ==> i < 40 && LEAD[i + 1] != 's'
    ensures LEAD[i] != ')'
  {
    LeadText();
    hide LEAD;
    if i < 2 {
      assert LEAD[i] == LEAD[..2][i] && LEAD[2] == LEAD[2..7][0];
    } else if i < 7 {
      assert LEAD[i] == LEAD[2..7][i - 2];
    } else if i < 11 {
      assert LEAD[i] == LEAD[7..11][i - 7] && LEAD[8] == LEAD[7..11][1] && LEAD[11] == LEAD[11..14][0];
    } else if i < 14 {
      assert LEAD[i] == LEAD[11..14][i - 11];
    } else if i < 18 {
      assert LEAD[i] == LEAD[14..18][i - 14] && LEAD[15] == LEAD[14..18][1] && LEAD[18] == LEAD[18..31][0];
    } else if i < 31 {
      assert LEAD[i] == LEAD[18..31][i - 18];
      NoQuotes();
      assert LEAD[i] in "fortran_order";
    } else {
      assert i > 31 ==> LEAD[i] == LEAD[32..41][i - 32];
      NoQuotes();
      assert i > 31 ==> LEAD[i] in ": False, ";
      assert LEAD[32] == LEAD[32..41][0];
    }
  }

  lemma NoQuotes()
    ensures '\'' !in "fortran_order" && ')' !in "fortran_order" && '\'' !in ": False, " && ')' !in ": False, "
  {
  }

  // A match starts with the pattern's characters.
  lemma MatchStarts(s: string, pat: string, i: nat)
    requires |pat| > 1
    ensures At(s, pat, i) ==> i + 1 < |s| && s[i] == pat[0] && s[i + 1] == pat[1]
  {
    if At(s, pat, i) {
      assert s[i..i + |pat|][0] == s[i] && s[i..i + |pat|][1] == s[i + 1];
    }
  }

  lemma DescrFound(header: string)
    requires LEAD <= header
    ensures QuotedValueAfter(header, "'descr'") == Loaded("<V2")
  {
    LeadText();
    var key := "'descr'";
    assert forall i | 0 <= i < |LEAD| :: header[i] == LEAD[i];
    hide LEAD;
    assert header[..2] == LEAD[..2] && header[2..7] == LEAD[2..7] && header[7..11] == LEAD[7..11];
    assert header[11..14] == LEAD[11..14] && header[14..18] == LEAD[14..18];
    assert header[0] == header[..2][0] && header[1] == header[..2][1];
    assert header[7] == header[7..11][0] && header[8] == header[7..11][1] && header[9] == header[7..11][2] && header[10] == header[7..11][3];
    assert header[1..8] == [header[1]] + header[2..7] + [header[7]];
    assert key == ['\''] + "descr" + ['\''];
    MatchStarts(header, key, 0);
    FindsFirst(header, key, 0, 1);
    FindsChar(header, '\'', 8, 10);
    assert header[11] == header[11..14][0] && header[12] == header[11..14][1] && header[13] == header[11..14][2];
    assert header[14] == header[14..18][0];
    FindsChar(header, '\'', 11, 14);
  }

  lemma ShapeKeyFound(header: string)
    requires LEAD + "'shape'" <= header
    ensures Find(header, "'shape'", 0) == Some(|LEAD|)
  {
    LeadText();
    var key := "'shape'";
    assert forall i | 0 <= i < |LEAD| :: header[i] == LEAD[i];
    assert header[|LEAD|..|LEAD| + 7] == key;
    hide LEAD;
    forall j: nat | j < |LEAD|
      ensures !At(header, key, j)
    {
      LeadQuotes(j);
      MatchStarts(header, key, j);
    }
    FindsFirst(header, key, 0, |LEAD|);
  }

  lemma {:induction false} TailChars(dims: seq<int>)
    ensures ')' !in Tail(dims)
  {
    if dims != [] {
      TailChars(dims[1..]);
      IntegerChars(dims[0], ')');
      hide Integer;
    }
  }

  lemma InsideChars(shape: seq<int>)
    ensures ')' !in Inside(shape)
  {
    if shape != [] {
      TailChars(shape[1..]);
      IntegerChars(shape[0], ')');
      hide Integer, Tail;
    }
  }

  // Where the tuple stands in the header.
  function OpenAt(): nat {
    |LEAD| + 9
  }

  function CloseAt(shape: seq<int>): nat {
    OpenAt() + 1 + |Inside(shape)|
  }

  lemma DictLayout(shape: seq<int>)
    ensures LEAD + "'shape'" <= Dict(shape) && |Dict(shape)| == CloseAt(shape) + 4
    ensures var d, open, close := Dict(shape), OpenAt(), CloseAt(shape);
      && d[|LEAD| + 7] == ':' && d[|LEAD| + 8] == ' ' && d[open] == '(' && d[open + 1..close] == Inside(shape) && d[close] == ')'
  {
    hide Inside, LEAD;
    var d, open, close := Dict(shape), OpenAt(), CloseAt(shape);
    var front := LEAD + "'shape'";
    assert d == front + (": " + (['('] + Inside(shape) + [')']) + ", }");
    assert d == (front + ": (") + Inside(shape) + "), }";
    assert |front + ": ("| == open + 1;
  }

  // The text before the closing parenthesis holds no other one.
  lemma OneClosing(shape: seq<int>)
    ensures forall i | 0 <= i < CloseAt(shape) :: Dict(shape)[i] != ')'
    ensures |Dict(shape)| == CloseAt(shape) + 4
  {
    LeadText();
    DictLayout(shape);
    InsideChars(shape);
    var d, open, close := Dict(shape), OpenAt(), CloseAt(shape);
    hide Inside, LEAD, Dict;
    var key := "'shape'";
    assert d[|LEAD|..|LEAD| + 7] == key;
    forall i | 0 <= i < close
      ensures d[i] != ')'
    {
      if i < |LEAD| {
        assert d[i] == LEAD[i];
        LeadQuotes(i);
      } else if i < |LEAD| + 7 {
        assert d[i] == d[|LEAD|..|LEAD| + 7][i - |LEAD|];
      } else if i > open {
        assert d[i] == d[open + 1..close][i - open - 1];
      }
    }
  }

  // A header that starts with the whole dict parses to the shape that was printed.
  lemma ShapeParses(header: string, shape: seq<Int64>)
    requires Dict(shape) <= header
    ensures ParseShape(header) == Reparsed(shape)
  {
    DictLayout(shape);
    OneClosing(shape);
    var d, open, close := Dict(shape), OpenAt(), CloseAt(shape);
    hide Dict, LEAD, Inside;
    assert forall i | 0 <= i < |d| :: header[i] == d[i];
    ShapeKeyFound(header);
    assert d[|LEAD|] == '\'';
    KeyHasNoParenthesis(d, open);
    FindsChar(header, '(', |LEAD|, open);
    FindsChar(header, ')', open, close);
    assert header[open + 1..close] == d[open + 1..close];
    InsideParses(header, open + 1, close, shape);
  }

  lemma KeyHasNoParenthesis(d: string, open: nat)
    requires LEAD + "'shape'" <= d && open == |LEAD| + 9 <= |d| && d[|LEAD| + 7] == ':' && d[|LEAD| + 8] == ' '
    ensures forall i | |LEAD| <= i < open :: d[i] != '('
  {
    hide LEAD;
    var key := "'shape'";
    forall i | |LEAD| <= i < |LEAD| + 7
      ensures d[i] != '('
    {
      assert d[i] == (LEAD + key)[i] == key[i - |LEAD|];
    }
  }

  // A header cut before the closing parenthesis parses to nothing.
  lemma CutHeaderFails(header: string, shape: seq<Int64>)
    requires header <= Dict(shape) && |header| <= CloseAt(shape)
    ensures ParseShape(header).Failed?
  {
    OneClosing(shape);
    assert forall i | 0 <= i < |header| :: header[i] == Dict(shape)[i];
    hide Dict, LEAD, Inside;
    match Find(header, "'shape'", 0)
    case None =>
    case Some(k) =>
      match Find(header, ['('], k)
      case None =>
      case Some(open) =>
        if Find(header, [')'], open).Some? {
          var close := Find(header, [')'], open).value;
          AtChar(header, ')', close);
        }
  }

  // ----- The whole file -----

  lemma {:induction false} PayloadAt(data: seq<U16>, i: nat)
    requires i < |data|
    ensures Payload(data)[2 * i] == LowByte(data[i]) && Payload(data)[2 * i + 1] == LowByte(data[i] / 0x100)
    decreases |data|
  {
    var n := |data| - 1;
    if i < n {
      PayloadAt(data[..n], i);
    }
  }

  lemma ByteOfLow(n: nat)
    ensures Byte(LowByte(n)) == n % 0x100
  {
  }

  lemma TwoDigits(n: nat)
    ensures n % 0x100 + 0x100 * (n / 0x100 % 0x100) == n % 0x1_0000
  {
    var a, low := n / 0x100, n % 0x100;
    assert n == a * 0x100 + low;
    var b, high := a / 0x100, a % 0x100;
    assert a == b * 0x100 + high;
    DivModUnique(0x1_0000, n, b, high * 0x100 + low);
  }

  lemma PayloadReads(data: seq<U16>)
    ensures ReadData(Payload(data), |data|) == data
  {
    hide Byte, LowByte, Payload;
    forall i | 0 <= i < |data|
      ensures ReadData(Payload(data), |data|)[i] == data[i]
    {
      PayloadAt(data, i);
      ByteOfLow(data[i]);
      ByteOfLow(data[i] / 0x100);
      TwoDigits(data[i]);
    }
  }

  lemma TwoBytesRead(n: nat)
    ensures Byte(TwoBytes(n)[0]) + 0x100 * Byte(TwoBytes(n)[1]) == n % 0x1_0000
  {
    ByteOfLow(n);
    ByteOfLow(n / 0x100);
    TwoDigits(n);
    hide Byte, LowByte;
  }

  /** The header ends with a newline and, with its prefix, fills a multiple of 64 bytes. */
  lemma HeaderAligned(shape: seq<int>)
    ensures (PREFIX + |Header(shape)|) % 64 == 0
    ensures |Dict(shape)| < |Header(shape)| <= |Dict(shape)| + 64 && Header(shape)[|Header(shape)| - 1] == '\n'
    ensures Dict(shape) <= Header(shape)
  {
    hide Dict;
  }

  function BytesAfterHeader(shape: seq<int>, data: seq<U16>): string {
    Header(shape) + Payload(data)
  }

  // The reader finds the length the writer stored: the true one modulo 65536.
  lemma HeaderFieldRead(shape: seq<int>, data: seq<U16>)
    ensures var file := NpyFile(shape, data);
      && HeaderField(file) == Loaded((HeaderLength(shape) % 0x1_0000, 10))
      && |file| == 10 + |BytesAfterHeader(shape, data)| && file[10..] == BytesAfterHeader(shape, data)
  {
    hide Header, Payload, HeaderLength;
    var file, n := NpyFile(shape, data), HeaderLength(shape);
    var front := MAGIC + [1 as char, 0 as char] + TwoBytes(n);
    assert file == front + BytesAfterHeader(shape, data);
    assert |front| == 10 && front[..6] == MAGIC && front[6] == 1 as char && front[8] == TwoBytes(n)[0] && front[9] == TwoBytes(n)[1];
    assert file[..6] == front[..6];
    TwoBytesRead(n);
    hide MAGIC, TwoBytes, Byte;
  }

  lemma Split(header: string, rest: string, n: nat)
    requires n <= |header|
    ensures (header + rest)[..n] == header[..n] && (n == |header| ==> header[..n] == header && (header + rest)[n..] == rest)
  {
  }

  // The reader takes n bytes as the header: all of it, or at least 65536 too few.
  lemma DecodeSplits(shape: seq<int>, data: seq<U16>) returns (n: nat)
    ensures n <= |Header(shape)| && n <= |BytesAfterHeader(shape, data)|
    ensures DecodeNpy(NpyFile(shape, data)) == ReadBody(Header(shape)[..n], BytesAfterHeader(shape, data)[n..])
    ensures if HeaderLength(shape) <= 0xFFFF then n == |Header(shape)| else n + 0x1_0000 <= |Header(shape)|
  {
    hide Header, Payload, HeaderLength, ReadBody, NpyFile;
    n := HeaderLength(shape) % 0x1_0000;
    var file := NpyFile(shape, data);
    HeaderFieldRead(shape, data);
    Split(Header(shape), Payload(data), n);
    assert file[10..10 + n] == file[10..][..n] && file[10 + n..] == file[10..][n..];
  }

  // A header longer than the length field can say is cut before the tuple closes.
  lemma LongHeaderFails(shape: seq<Int64>, n: nat, payload: string)
    requires n + 0x1_0000 <= |Header(shape)|
    ensures ReadBody(Header(shape)[..n], payload).Failed?
  {
    HeaderAligned(shape);
    DictLayout(shape);
    hide Header, Dict, CloseAt, ParseShape;
    assert Header(shape)[..n] <= Dict(shape);
    CutHeaderFails(Header(shape)[..n], shape);
  }

  lemma ShortHeaderReads(shape: seq<Int64>, data: seq<U16>)
    requires Product(shape) == |data|
    ensures ReadBody(Header(shape), Payload(data)) == if NonNegative(shape) then Loaded(NpyArray(shape, data)) else Npy.Failed(NonIntegerDimension)
  {
    HeaderAligned(shape);
    DictLayout(shape);
    hide Header, Dict, LEAD, Payload, Product, ParseShape;
    assert LEAD <= Header(shape) by {
      assert LEAD <= LEAD + "'shape'" <= Dict(shape);
    }
    DescrFound(Header(shape));
    ShapeParses(Header(shape), shape);
    ReparsedIff(shape);
    PayloadReads(data);
  }

  /** What is written reads back as the same shape and data exactly when no dimension is negative and the header's length fits 16 bits. */
  lemma NpyRoundTripIff(shape: seq<Int64>, data: seq<U16>)
    requires Product(shape) == |data|
    ensures DecodeNpy(NpyFile(shape, data)) == Loaded(NpyArray(shape, data)) <==> NonNegative(shape) && HeaderLength(shape) <= 0xFFFF
  {
    hide *;
    var n := DecodeSplits(shape, data);
    if HeaderLength(shape) > 0xFFFF {
      LongHeaderFails(shape, n, BytesAfterHeader(shape, data)[n..]);
    } else {
      Split(Header(shape), Payload(data), n);
      WholeHeader(shape, data);
      ShortHeaderReads(shape, data);
    }
  }

  lemma WholeHeader(shape: seq<int>, data: seq<U16>)
    ensures BytesAfterHeader(shape, data) == Header(shape) + Payload(data)
  {
  }

  method ReadPayload(payload: string, n: nat) returns (data: seq<U16>)
    requires 2 * n <= |payload|
    ensures data == ReadData(payload, n)
  {
    data := [];
    hide Byte;
    for i := 0 to n
      invariant data == ReadData(payload, n)[..i]
    {
      data := data + [BytePair(payload, i)];
    }
  }

  /** The reader: header fields, header, then the payload byte pairs. */
  method ReadNpy(file: string) returns (r: Npy<NpyArray>)
    ensures r == DecodeNpy(file)
  {
    hide Product, ReadData, QuotedValueAfter, ParseShape, HeaderField;
    var field := HeaderField(file);
    if field.Failed? {
      return Npy.Failed(field.error);
    }
    var (length, start) := field.value;
    if start + length > |file| {
      return Npy.Failed(TruncatedBody);
    }
    var header, payload := file[start..start + length], file[start + length..];
    var descr := QuotedValueAfter(header, "'descr'");
    if descr.Failed? {
      return Npy.Failed(descr.error);
    }
    if descr.value != "<V2" && descr.value != "|V2" {
      return Npy.Failed(UnsupportedDescr);
    }
    var shape := ParseShapeText(header);
    if shape.Failed? {
      return Npy.Failed(shape.error);
    }
    ProductNonNegative(shape.value);
    var n := ProductOf(shape.value);
    if 2 * n > |payload| {
      return Npy.Failed(TruncatedPayload);
    }
    var data := ReadPayload(payload, n);
    return Loaded(NpyArray(shape.value, data));
  }
}
