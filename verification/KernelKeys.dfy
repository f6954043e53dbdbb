/** The text key of a (gpu, op, shape) request and when it can be read back. */
module KernelKeys {
  import opened Texts
  import opened JsonTrees
  import opened TuningCaches
  import opened TuningDbs

  function KText(s: Shape): string {
    "K=" + Integer(s.k) + [','] + s.dtype
  }

  function NText(s: Shape): string {
    "N=" + Integer(s.n) + [','] + KText(s)
  }

  function ShapeText(s: Shape): string {
    "M=" + Integer(s.m) + [','] + NText(s)
  }

  function FormatKey(gpu: string, op: string, shape: Shape): string {
    gpu + ['/'] + (op + ['/'] + ShapeText(shape))
  }

  function KeyText(k: Key): string {
    FormatKey(k.gpu, k.op, k.shape)
  }

  // The text of a key: names, then dimensions and dtype.
  lemma KeyTextExample()
    ensures FormatKey("gfx1100", "matmul", Shape(128, 4096, 7, "bf16")) == "gfx1100/matmul/M=128,N=4096,K=7,bf16"
  {
    assert Integer(128) == "128" && Integer(4096) == "4096" && Integer(7) == "7";
  }

  lemma NumberText(name: string, i: int, j: int, c: char, rest: string, rest': string)
    requires c !in name && !IsDigit(c) && c != '-'
    requires name + Integer(i) + [c] + rest == name + Integer(j) + [c] + rest'
    ensures i == j && rest == rest'
  {
    IntegerChars(i, c);
    IntegerChars(j, c);
    SplitUnique(name + Integer(i), name + Integer(j), c, rest, rest');
    assert Integer(i) == (name + Integer(i))[|name|..] && Integer(j) == (name + Integer(j))[|name|..];
    IntegerInjective(i, j);
  }

  lemma ShapeTextInjective(s: Shape, t: Shape)
    requires ShapeText(s) == ShapeText(t)
    ensures s == t
  {
    hide Integer;
    NumberText("M=", s.m, t.m, ',', NText(s), NText(t));
    NumberText("N=", s.n, t.n, ',', KText(s), KText(t));
    NumberText("K=", s.k, t.k, ',', s.dtype, t.dtype);
  }

  predicate SlashFree(k: Key) {
    '/' !in k.gpu && '/' !in k.op
  }

  lemma KeyTextInjective(k: Key, k': Key)
    requires SlashFree(k) && SlashFree(k') && KeyText(k) == KeyText(k')
    ensures k == k'
  {
    hide ShapeText;
    SplitUnique(k.gpu, k'.gpu, '/', k.op + ['/'] + ShapeText(k.shape), k'.op + ['/'] + ShapeText(k'.shape));
    SplitUnique(k.op, k'.op, '/', ShapeText(k.shape), ShapeText(k'.shape));
    ShapeTextInjective(k.shape, k'.shape);
  }

  // ----- Keys with slashes -----

  ghost predicate OnlyKeyWithItsText(k: Key) {
    forall k': Key :: KeyText(k') == KeyText(k) ==> k' == k
  }

  // Moving the separator one name over gives another request with the same text.
  lemma SlashCollides(k: Key) returns (k': Key)
    requires '/' in k.gpu || '/' in k.op
    ensures k' != k && KeyText(k') == KeyText(k)
  {
    hide ShapeText;
    if '/' in k.op {
      var i :| 0 <= i < |k.op| && k.op[i] == '/';
      k' := Key(k.gpu + ['/'] + k.op[..i], k.op[i + 1..], k.shape);
      assert k.op == k.op[..i] + ['/'] + k.op[i + 1..];
      assert KeyText(k') == KeyText(k);
    } else {
      var i :| 0 <= i < |k.gpu| && k.gpu[i] == '/';
      k' := Key(k.gpu[..i], k.gpu[i + 1..] + ['/'] + k.op, k.shape);
      assert k.gpu == k.gpu[..i] + ['/'] + k.gpu[i + 1..];
      assert KeyText(k') == KeyText(k);
    }
  }

  // A slash in the dtype, with the text of a whole shape behind it.
  ghost predicate EmbedsShape(dtype: string) {
    exists i, s: Shape | 0 <= i < |dtype| && dtype[i] == '/' :: dtype[i + 1..] == ShapeText(s)
  }

  lemma ShapeTextTail(s: Shape, i: nat)
    requires i <= |s.dtype|
    ensures ShapeText(s) == ShapeText(s.(dtype := s.dtype[..i])) + s.dtype[i..]
  {
    assert s.dtype == s.dtype[..i] + s.dtype[i..];
    hide Integer;
  }

  // Any slash in the text of a shape is one of its dtype.
  lemma SlashInDtype(s: Shape, j: nat) returns (i: nat)
    requires j < |ShapeText(s)| && ShapeText(s)[j] == '/'
    ensures i < |s.dtype| && s.dtype[i] == '/' && ShapeText(s)[j + 1..] == s.dtype[i + 1..]
  {
    var head := ShapeText(s.(dtype := ""));
    ShapeTextTail(s, 0);
    assert s.dtype[..0] == "" && s.dtype[0..] == s.dtype;
    IntegerChars(s.m, '/');
    IntegerChars(s.n, '/');
    IntegerChars(s.k, '/');
    hide Integer;
    assert '/' !in head;
    hide ShapeText;
    i := j - |head|;
  }

  // A dtype that embeds a shape lets the op swallow the real one.
  lemma EmbeddedCollides(k: Key) returns (k': Key)
    requires EmbedsShape(k.shape.dtype)
    ensures k' != k && KeyText(k') == KeyText(k)
  {
    hide ShapeText, KeyText;
    var d := k.shape.dtype;
    var i, s: Shape :| 0 <= i < |d| && d[i] == '/' && d[i + 1..] == ShapeText(s);
    k' := Swallowed(k, i, s);
  }

  lemma Swallowed(k: Key, i: nat, s: Shape) returns (k': Key)
    requires i < |k.shape.dtype| && k.shape.dtype[i] == '/' && k.shape.dtype[i + 1..] == ShapeText(s)
    ensures k' != k && KeyText(k') == KeyText(k)
  {
    hide ShapeText;
    var outer := k.shape.(dtype := k.shape.dtype[..i]);
    ShapeTextTail(k.shape, i);
    assert k.shape.dtype[i..] == ['/'] + ShapeText(s);
    k' := Key(k.gpu, k.op + ['/'] + ShapeText(outer), s);
    Reassociate(k.gpu, k.op, ShapeText(outer), ShapeText(s));
  }

  lemma Reassociate(gpu: string, op: string, outer: string, inner: string)
    ensures gpu + ['/'] + (op + ['/'] + (outer + (['/'] + inner))) == gpu + ['/'] + ((op + ['/'] + outer) + ['/'] + inner)
    ensures |op + ['/'] + outer| > |op|
  {
  }

  function Names(k: Key): string {
    k.gpu + ['/'] + k.op
  }

  lemma KeyTextParts(k: Key)
    ensures KeyText(k) == Names(k) + (['/'] + ShapeText(k.shape))
  {
    hide ShapeText;
  }

  lemma NamesInjective(k: Key, k': Key)
    requires SlashFree(k) && Names(k) == Names(k')
    ensures k.gpu == k'.gpu && k.op == k'.op
  {
    var p, p' := |k.gpu|, |k'.gpu|;
    assert Names(k)[p'] == '/';
    assert forall i | 0 <= i < p :: Names(k)[i] == k.gpu[i];
    assert forall i | p < i < |Names(k)| :: Names(k)[i] == k.op[i - p - 1];
    assert p == p';
    assert k.gpu == Names(k)[..p] && k.op == Names(k)[p + 1..];
    assert k'.gpu == Names(k')[..p'] && k'.op == Names(k')[p' + 1..];
  }

  // Where both names are slash-free, another reading of the text puts its shape inside the dtype.
  lemma OtherReading(k: Key, k': Key)
    requires SlashFree(k) && KeyText(k) == KeyText(k') && k != k'
    ensures EmbedsShape(k.shape.dtype)
  {
    KeyTextParts(k);
    KeyTextParts(k');
    hide KeyText, ShapeText;
    var p, p', text := |Names(k)|, |Names(k')|, KeyText(k);
    assert text[..p] == Names(k) && text[p + 1..] == ShapeText(k.shape);
    assert text[..p'] == Names(k') && text[p' + 1..] == ShapeText(k'.shape) && text[p'] == '/';
    if p' == p {
      NamesInjective(k, k');
      ShapeTextInjective(k.shape, k'.shape);
    } else if p' < p {
      assert Names(k)[p'] == '/' && Names(k')[|k'.gpu|] == '/';
      assert Names(k)[|k'.gpu|] == '/';
      TwoSlashes(k, |k'.gpu|, p');
    } else {
      var j := p' - p - 1;
      assert ShapeText(k.shape)[j] == '/';
      var i := SlashInDtype(k.shape, j);
      assert k.shape.dtype[i + 1..] == ShapeText(k'.shape);
    }
  }

  lemma TwoSlashes(k: Key, a: nat, b: nat)
    requires SlashFree(k) && a < b < |Names(k)|
    ensures !(Names(k)[a] == '/' && Names(k)[b] == '/')
  {
    assert forall i | 0 <= i < |k.gpu| :: Names(k)[i] == k.gpu[i];
    assert forall i | |k.gpu| < i < |Names(k)| :: Names(k)[i] == k.op[i - |k.gpu| - 1];
  }

  /** The text of a request names that request alone exactly when its gpu and op hold no slash and no slash of its dtype is followed by the
      text of a shape. */
  lemma UniquelyDecodableIff(k: Key)
    ensures OnlyKeyWithItsText(k) <==> SlashFree(k) && !EmbedsShape(k.shape.dtype)
  {
    hide KeyText, EmbedsShape;
    if !SlashFree(k) {
      var k' := SlashCollides(k);
    } else if EmbedsShape(k.shape.dtype) {
      var k' := EmbeddedCollides(k);
    } else {
      forall k': Key | KeyText(k') == KeyText(k)
        ensures k' == k
      {
        if k' != k {
          OtherReading(k, k');
        }
      }
    }
  }
}
