/** The bytes of a `.npy` file, one by one, and files of the later versions of the format, whose length field has four bytes. */
module NpyFormats {
  import opened Wavelets
  import opened Mesh
  import opened Arithmetic
  import opened Texts
  import opened JsonTrees
  import opened NpyFiles

  // ----- What a written file consists of -----

  // Ten bytes of prefix, the header, and the data low byte first.
  ghost predicate Laid(file: string, header: string, data: seq<U16>) {
    var n := |header|;
    && |file| == 10 + n + 2 * |data|
    && file[0] as int == 0x93 && file[1..6] == "NUMPY" && file[6] as int == 1 && file[7] as int == 0
    && file[8] as int == n % 256 && file[9] as int == n / 256 % 256 && file[10..10 + n] == header
    && forall i | 0 <= i < |data| :: file[10 + n + 2 * i] as int == data[i] % 256 && file[10 + n + 2 * i + 1] as int == data[i] / 256
  }

  /** A written file is the magic, version 1.0, the header's length in two bytes, the header, and every value in two bytes, low byte first. */
  lemma FileLaid(shape: seq<int>, data: seq<U16>)
    ensures Laid(NpyFile(shape, data), Header(shape), data)
  {
    hide Payload, Header, HeaderLength, NpyFile;
    PrefixLaid(shape, data);
    forall i | 0 <= i < |data|
      ensures NpyFile(shape, data)[10 + |Header(shape)| + 2 * i] as int == data[i] % 256
      ensures NpyFile(shape, data)[10 + |Header(shape)| + 2 * i + 1] as int == data[i] / 256
    {
      PayloadAt(data, i);
      var file, n := NpyFile(shape, data), |Header(shape)|;
      assert file[10 + n..][2 * i] == file[10 + n + 2 * i] && file[10 + n..][2 * i + 1] == file[10 + n + 2 * i + 1];
    }
  }

  lemma PrefixLaid(shape: seq<int>, data: seq<U16>)
    ensures var file, n := NpyFile(shape, data), |Header(shape)|;
      && |file| == 10 + n + 2 * |data|
      && file[0] as int == 0x93 && file[1..6] == "NUMPY" && file[6] as int == 1 && file[7] as int == 0
      && file[8] as int == n % 256 && file[9] as int == n / 256 % 256 && file[10..10 + n] == Header(shape) && file[10 + n..] == Payload(data)
  {
    hide Header, Payload, HeaderLength;
    var file, n := NpyFile(shape, data), HeaderLength(shape);
    var front := MAGIC + [1 as char, 0 as char] + TwoBytes(n);
    assert |front| == 10 && front[0] as int == 0x93 && front[1..6] == "NUMPY" && front[6] as int == 1 && front[7] as int == 0;
    assert front[8] as int == n % 256 && front[9] as int == n / 256 % 256;
    hide MAGIC, TwoBytes;
    assert file == front + (Header(shape) + Payload(data));
    Split(front, Header(shape) + Payload(data), 10);
    Split(Header(shape), Payload(data), n);
    assert file[10..] == Header(shape) + Payload(data);
    assert file[10..10 + n] == file[10..][..n] && file[10 + n..] == file[10..][n..];
    assert file[1..6] == front[1..6];
    assert file[0] == front[0] && file[6] == front[6] && file[7] == front[7] && file[8] == front[8] && file[9] == front[9];
  }

  lemma LeadIs()
    ensures LEAD + "'shape'" + ": " == "{'descr': '<V2', 'fortran_order': False, 'shape': "
  {
    assert LEAD == "{'descr': '<V2', 'fortran_order': False, ";
  }

  lemma MatrixInside()
    ensures Inside([2, 3]) == "2, 3"
  {
    assert Integer(2) == "2" && Integer(3) == "3";
    var two, one := [2, 3], [3];
    assert two[1..] == one && one[1..] == [];
    assert Tail([]) == "";
    assert Tail(one) == [',', ' '] + Integer(one[0]) + Tail(one[1..]);
    assert Inside(two) == Integer(two[0]) + Tail(one) + "";
    hide Integer, Tail;
  }

  lemma VectorInside()
    ensures Inside([5]) == "5," && Inside([]) == ""
  {
    assert Integer(5) == "5";
    assert [5][1..] == [] && Tail([]) == "";
    hide Integer, Tail;
  }

  // The dicts of a matrix, a vector and a scalar.
  lemma DictExamples()
    ensures Dict([2, 3]) == "{'descr': '<V2', 'fortran_order': False, 'shape': (2, 3), }"
    ensures Dict([5]) == "{'descr': '<V2', 'fortran_order': False, 'shape': (5,), }"
    ensures Dict([]) == "{'descr': '<V2', 'fortran_order': False, 'shape': (), }"
  {
    LeadIs();
    MatrixInside();
    VectorInside();
    hide Inside, LEAD;
    assert ['('] + "2, 3" + [')'] + ", }" == "(2, 3), }";
    assert ['('] + "5," + [')'] + ", }" == "(5,), }";
    assert ['('] + "" + [')'] + ", }" == "(), }";
  }

  // ----- Later versions -----

  // The length in four bytes, low byte first.
  function FourBytes(n: nat): string {
    TwoBytes(n % 0x1_0000) + TwoBytes(n / 0x1_0000)
  }

  function LaterFile(version: char, shape: seq<int>, data: seq<U16>): string {
    MAGIC + [version, 0 as char] + FourBytes(HeaderLength(shape)) + Header(shape) + Payload(data)
  }

  lemma FourBytesRead(n: nat)
    requires n < 0x1_0000_0000
    ensures var b := FourBytes(n);
      Byte(b[0]) + 0x100 * Byte(b[1]) + 0x1_0000 * Byte(b[2]) + 0x100_0000 * Byte(b[3]) == n
  {
    var low, high := n % 0x1_0000, n / 0x1_0000;
    TwoBytesRead(low);
    TwoBytesRead(high);
    hide Byte, TwoBytes;
    assert low % 0x1_0000 == low && high % 0x1_0000 == high;
  }

  lemma LaterHeader(version: char, shape: seq<int>, data: seq<U16>)
    requires version != 1 as char && HeaderLength(shape) < 0x1_0000_0000
    ensures var file := LaterFile(version, shape, data);
      && HeaderField(file) == Loaded((HeaderLength(shape), 12))
      && |file| == 12 + |BytesAfterHeader(shape, data)| && file[12..] == BytesAfterHeader(shape, data)
  {
    hide Header, Payload, HeaderLength;
    var file, n := LaterFile(version, shape, data), HeaderLength(shape);
    var front := MAGIC + [version, 0 as char] + FourBytes(n);
    assert file == front + BytesAfterHeader(shape, data);
    assert |front| == 12 && front[..6] == MAGIC && front[6] == version;
    assert front[8] == FourBytes(n)[0] && front[9] == FourBytes(n)[1] && front[10] == FourBytes(n)[2] && front[11] == FourBytes(n)[3];
    assert file[..6] == front[..6];
    FourBytesRead(n);
    hide MAGIC, FourBytes, Byte;
  }

  /** A file of any later version reads back whenever no dimension is negative, also where version 1.0 has no room for the header's length. */
  lemma LaterVersionReads(version: char, shape: seq<Int64>, data: seq<U16>)
    requires version != 1 as char && HeaderLength(shape) < 0x1_0000_0000 && Product(shape) == |data|
    ensures DecodeNpy(LaterFile(version, shape, data)) == Loaded(NpyArray(shape, data)) <==> NonNegative(shape)
  {
    var file, n := LaterFile(version, shape, data), HeaderLength(shape);
    LaterHeader(version, shape, data);
    Split(Header(shape), Payload(data), n);
    WholeHeader(shape, data);
    ShortHeaderReads(shape, data);
    hide Header, Payload, HeaderLength, ReadBody, LaterFile, HeaderField, NonNegative, Product;
    assert file[12..12 + n] == file[12..][..n] && file[12 + n..] == file[12..][n..];
  }
}
