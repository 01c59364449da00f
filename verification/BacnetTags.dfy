/** BACnet tag encoding (ANSI/ASHRAE 135, clause 20.2): the bytes the encoders produce, the tag
    readers, and the round trip of every tag they share. A buffer is the sequence of the bytes the
    frame declares. */
module BacnetTags {
  type byte = x: int | 0 <= x < 256
  type uint32 = x: int | 0 <= x < 0x1_0000_0000

  const INSTANCE_MASK: int := 0x3F_FFFF
  const STR_MAX: nat := 63

  datatype ObjectId = ObjectId(kind: nat, instance: nat)

  // ---- Big-endian integers ---------------------------------------------------------------------

  function ReadBe(s: seq<byte>): nat {
    if s == [] then 0 else ReadBe(s[..|s| - 1]) * 256 + s[|s| - 1]
  }

  function Be(v: nat, n: nat): (s: seq<byte>)
    ensures |s| == n
  {
    if n == 0 then [] else Be(v / 256, n - 1) + [v % 256]
  }

  function Pow256(n: nat): nat {
    if n == 0 then 1 else 256 * Pow256(n - 1)
  }

  lemma {:induction false} ReadBeOfBe(v: nat, n: nat)
    requires v < Pow256(n)
    ensures ReadBe(Be(v, n)) == v
  {
    if n > 0 {
      ReadBeOfBe(v / 256, n - 1);
      assert Be(v, n)[..n - 1] == Be(v / 256, n - 1);
    }
  }

  lemma Powers()
    ensures Pow256(1) == 0x100 && Pow256(2) == 0x1_0000 && Pow256(3) == 0x100_0000 && Pow256(4) == 0x1_0000_0000
  {
    assert Pow256(0) == 1;
  }

  /** `read_be` as the loop it is. */
  method ReadBigEndian(p: seq<byte>) returns (v: nat)
    ensures v == ReadBe(p)
  {
    v := 0;
    for i := 0 to |p|
      invariant v == ReadBe(p[..i])
    {
      assert p[..i + 1][..i] == p[..i];
      v := v * 256 + p[i];
    }
    assert p[..|p|] == p;
  }

  // ---- Placement -------------------------------------------------------------------------------

  /** The bytes `s` are in `buf` at `pos`. */
  predicate At(buf: seq<byte>, pos: nat, s: seq<byte>) {
    pos + |s| <= |buf| && buf[pos..pos + |s|] == s
  }

  lemma AtSplit(buf: seq<byte>, pos: nat, s: seq<byte>, t: seq<byte>)
    requires At(buf, pos, s + t)
    ensures At(buf, pos, s) && At(buf, pos + |s|, t)
  {
    var st := s + t;
    assert buf[pos..pos + |st|][..|s|] == s;
    assert buf[pos..pos + |st|][|s|..] == t;
  }

  lemma AtByte(buf: seq<byte>, pos: nat, b: byte)
    requires At(buf, pos, [b])
    ensures pos < |buf| && buf[pos] == b
  {
    assert buf[pos..pos + 1][0] == b;
  }

  lemma AtWhole(prefix: seq<byte>, s: seq<byte>)
    ensures At(prefix + s, |prefix|, s)
  {
  }

  // ---- Encoders --------------------------------------------------------------------------------

  function ObjectWord(kind: nat, instance: nat): uint32 {
    (kind * 0x40_0000 + instance % 0x40_0000) % 0x1_0000_0000
  }

  /** Contents length of a context-tagged unsigned. */
  function ContextLen(v: uint32): nat {
    if v <= 0xFF then 1 else if v <= 0xFFFF then 2 else if v <= 0xFF_FFFF then 3 else 4
  }

  /** Contents length of an application unsigned or enumerated, which skips three bytes. */
  function AppLen(v: uint32): nat {
    if v <= 0xFF then 1 else if v <= 0xFFFF then 2 else 4
  }

  predicate TagNumber(tag: nat) {
    tag < 15
  }

  function TagByte(tag: nat, low: nat): byte
    requires TagNumber(tag) && low < 16
  {
    tag * 16 + low
  }

  function ContextUint(tag: nat, v: uint32): seq<byte>
    requires TagNumber(tag)
  {
    [TagByte(tag, 8 + ContextLen(v))] + Be(v, ContextLen(v))
  }

  function ContextObject(tag: nat, kind: nat, instance: nat): seq<byte>
    requires TagNumber(tag)
  {
    [TagByte(tag, 12)] + Be(ObjectWord(kind, instance), 4)
  }

  function Opening(tag: nat): byte
    requires TagNumber(tag)
  {
    TagByte(tag, 14)
  }

  function Closing(tag: nat): byte
    requires TagNumber(tag)
  {
    TagByte(tag, 15)
  }

  function AppTag(tag: nat, len: nat): seq<byte>
    requires TagNumber(tag)
  {
    if len < 5 then [TagByte(tag, len)] else [TagByte(tag, 5), len % 256]
  }

  function CutString(s: seq<byte>): seq<byte> {
    if |s| > STR_MAX then s[..STR_MAX] else s
  }

  /** Property values. REAL is its 32-bit pattern. */
  datatype Value =
    | Null
    | Bool(b: bool)
    | Unsigned(u: uint32)
    | Enumerated(e: uint32)
    | Real(pattern: uint32)
    | Str(s: seq<byte>)
    | BitString(count: byte, bits: byte)
    | Oid(obj: ObjectId)

  /** Values the writer has an encoder for, within the ranges it encodes faithfully. */
  predicate Encodable(v: Value) {
    match v
    case Null => false
    case Bool(_) => false
    case Str(s) => |s| <= STR_MAX
    case Oid(o) => o.kind < 1024 && o.instance <= INSTANCE_MASK
    case _ => true
  }

  function AppValue(v: Value): seq<byte>
    requires Encodable(v)
  {
    match v
    case Unsigned(u) => AppTag(2, AppLen(u)) + Be(u, AppLen(u))
    case Enumerated(e) => AppTag(9, AppLen(e)) + Be(e, AppLen(e))
    case Real(p) => AppTag(4, 4) + Be(p, 4)
    case Str(s) => AppTag(7, |s| + 1) + [0] + s
    case BitString(count, bits) => AppTag(8, 2) + [(8 - count) % 256, bits]
    case Oid(o) => AppTag(12, 4) + Be(ObjectWord(o.kind, o.instance), 4)
  }

  // ---- Tag readers -----------------------------------------------------------------------------

  // The readers index the whole receive buffer under the length of the frame in it.

  datatype Tag = NoTag | Tag(number: nat, context: bool, open: bool, close: bool, len: nat, pos: nat)

  /** One tag and its length; a tag whose contents run past `len` bytes is refused. */
  function DecodeTag(buf: seq<byte>, len: nat, pos: nat): (t: Tag)
    requires len <= |buf|
    ensures t.Tag? ==> pos < t.pos && t.pos + t.len <= len
  {
    if pos >= len then NoTag
    else
      var b := buf[pos];
      var context, lvt := b / 8 % 2 == 1, b % 8;
      if context && lvt >= 6 then Tag(b / 16, true, lvt == 6, lvt == 7, 0, pos + 1)
      else if lvt == 5 then
        if pos + 1 >= len || pos + 2 + buf[pos + 1] > len then NoTag
        else Tag(b / 16, context, false, false, buf[pos + 1], pos + 2)
      else if pos + 1 + lvt > len then NoTag
      else Tag(b / 16, context, false, false, lvt, pos + 1)
  }

  datatype Got<T> = Bad | Got(value: T, pos: nat)

  function ReadContextUint(buf: seq<byte>, len: nat, pos: nat, wanted: nat): (r: Got<nat>)
    requires len <= |buf|
    ensures r.Got? ==> pos < r.pos <= len
  {
    var t := DecodeTag(buf, len, pos);
    if t.NoTag? || !t.context || t.open || t.close || t.number != wanted || t.len == 0 || t.len > 4 then Bad
    else Got(ReadBe(buf[t.pos..t.pos + t.len]), t.pos + t.len)
  }

  function ToObject(word: nat): ObjectId {
    ObjectId(word / 0x40_0000, word % 0x40_0000)
  }

  function ReadContextObject(buf: seq<byte>, len: nat, pos: nat, wanted: nat): (r: Got<ObjectId>)
    requires len <= |buf|
    ensures r.Got? ==> pos < r.pos <= len
  {
    var r := ReadContextUint(buf, len, pos, wanted);
    if r.Bad? then Bad else Got(ToObject(r.value), r.pos)
  }

  /** The contents of an application tag. A Boolean is taken from the length of its contents, as the
      firmware does. */
  function Contents(number: nat, p: seq<byte>): Got<Value> {
    var n := |p|;
    if number == 0 then (if n == 0 then Got(Null, n) else Bad)
    else if number == 1 then Got(Bool(n != 0), n)
    else if number == 2 then (if 1 <= n <= 4 then ReadBeBound(p); Got(Unsigned(ReadBe(p)), n) else Bad)
    else if number == 4 then (if n == 4 then ReadBeBound(p); Got(Real(ReadBe(p)), n) else Bad)
    else if number == 7 then (if n >= 1 && p[0] == 0 then Got(Str(CutString(p[1..])), n) else Bad)
    else if number == 8 then
      (if n >= 1 then Got(BitString(((n - 1) * 8 - p[0]) % 256, if n > 1 then p[1] else 0), n) else Bad)
    else if number == 9 then (if 1 <= n <= 4 then ReadBeBound(p); Got(Enumerated(ReadBe(p)), n) else Bad)
    else if number == 12 then (if n == 4 then Got(Oid(ToObject(ReadBe(p))), n) else Bad)
    else Bad
  }

  lemma ReadBeBound(p: seq<byte>)
    requires |p| <= 4
    ensures ReadBe(p) < 0x1_0000_0000
  {
    ReadBeBelow(p);
    Powers();
    assert Pow256(0) == 1;
  }

  lemma {:induction false} ReadBeBelow(p: seq<byte>)
    ensures ReadBe(p) < Pow256(|p|)
  {
    if p != [] { ReadBeBelow(p[..|p| - 1]); }
  }

  function DecodeAppValue(buf: seq<byte>, len: nat, pos: nat): (r: Got<Value>)
    requires len <= |buf|
    ensures r.Got? ==> pos < r.pos <= len
  {
    var t := DecodeTag(buf, len, pos);
    if t.NoTag? || t.context || t.open || t.close then Bad
    else
      var c := Contents(t.number, buf[t.pos..t.pos + t.len]);
      if c.Bad? then Bad else Got(c.value, t.pos + t.len)
  }

  // ---- Round trips of single tags --------------------------------------------------------------

  lemma SplitTagByte(tag: nat, low: nat)
    requires TagNumber(tag) && low < 16
    ensures var b := TagByte(tag, low); b / 16 == tag && b % 8 == low % 8 && (b / 8 % 2 == 1 <==> low >= 8)
  {
    var b := TagByte(tag, low);
    assert b / 8 == tag * 2 + low / 8;
  }

  lemma ContextHead(buf: seq<byte>, pos: nat, tag: nat, n: nat)
    requires TagNumber(tag) && n <= 4 && pos + 1 + n <= |buf| && buf[pos] == TagByte(tag, 8 + n)
    ensures DecodeTag(buf, |buf|, pos) == Tag(tag, true, false, false, n, pos + 1)
  {
    SplitTagByte(tag, 8 + n);
  }

  /** A context tag with a short length is read back as written. */
  lemma {:induction false} ContextTagBack(buf: seq<byte>, pos: nat, tag: nat, contents: seq<byte>)
    requires TagNumber(tag) && 1 <= |contents| <= 4
    requires At(buf, pos, [TagByte(tag, 8 + |contents|)] + contents)
    ensures ReadContextUint(buf, |buf|, pos, tag) == Got(ReadBe(contents), pos + 1 + |contents|)
  {
    hide TagByte, ReadBe, DecodeTag;
    var head := TagByte(tag, 8 + |contents|);
    AtSplit(buf, pos, [head], contents);
    AtByte(buf, pos, head);
    ContextHead(buf, pos, tag, |contents|);
  }

  lemma ContextLenFits(v: uint32)
    ensures v < Pow256(ContextLen(v)) && v < Pow256(AppLen(v))
  {
    Powers();
  }

  lemma ContextUintBack(buf: seq<byte>, pos: nat, tag: nat, v: uint32)
    requires TagNumber(tag) && At(buf, pos, ContextUint(tag, v))
    ensures ReadContextUint(buf, |buf|, pos, tag) == Got(v, pos + |ContextUint(tag, v)|)
  {
    ContextLenFits(v);
    ReadBeOfBe(v, ContextLen(v));
    ContextTagBack(buf, pos, tag, Be(v, ContextLen(v)));
  }

  lemma WordBack(o: ObjectId)
    requires o.kind < 1024 && o.instance <= INSTANCE_MASK
    ensures ToObject(ObjectWord(o.kind, o.instance)) == o
  {
  }

  lemma ContextObjectBack(buf: seq<byte>, pos: nat, tag: nat, o: ObjectId)
    requires TagNumber(tag) && o.kind < 1024 && o.instance <= INSTANCE_MASK
    requires At(buf, pos, ContextObject(tag, o.kind, o.instance))
    ensures ReadContextObject(buf, |buf|, pos, tag) == Got(o, pos + 5)
  {
    var w := ObjectWord(o.kind, o.instance);
    Powers();
    ReadBeOfBe(w, 4);
    ContextTagBack(buf, pos, tag, Be(w, 4));
    WordBack(o);
  }

  /** An application tag, short or with an extended length byte, is read back as written. */
  lemma AppTagBack(buf: seq<byte>, pos: nat, tag: nat, contents: seq<byte>)
    requires TagNumber(tag) && |contents| < 256 && At(buf, pos, AppTag(tag, |contents|) + contents)
    ensures var at := pos + |AppTag(tag, |contents|)|;
            DecodeTag(buf, |buf|, pos) == Tag(tag, false, false, false, |contents|, at) &&
                buf[at..at + |contents|] == contents
  {
    var head := AppTag(tag, |contents|);
    AtSplit(buf, pos, head, contents);
    if |contents| < 5 {
      AtByte(buf, pos, TagByte(tag, |contents|));
      SplitTagByte(tag, |contents|);
    } else {
      AtSplit(buf, pos, [TagByte(tag, 5)], [|contents| % 256]);
      assert head == [TagByte(tag, 5)] + [|contents| % 256];
      AtByte(buf, pos, TagByte(tag, 5));
      AtByte(buf, pos + 1, |contents| % 256);
      SplitTagByte(tag, 5);
    }
  }

  /** The contents part of an encoded value, and its tag number. */
  function ValueTag(v: Value): nat
    requires Encodable(v)
  {
    match v
    case Unsigned(_) => 2
    case Enumerated(_) => 9
    case Real(_) => 4
    case Str(_) => 7
    case BitString(_, _) => 8
    case Oid(_) => 12
  }

  function ValueContents(v: Value): seq<byte>
    requires Encodable(v)
  {
    match v
    case Unsigned(u) => Be(u, AppLen(u))
    case Enumerated(e) => Be(e, AppLen(e))
    case Real(p) => Be(p, 4)
    case Str(s) => [0] + s
    case BitString(count, bits) => [(8 - count) % 256, bits]
    case Oid(o) => Be(ObjectWord(o.kind, o.instance), 4)
  }

  lemma AppValueParts(v: Value)
    requires Encodable(v)
    ensures |ValueContents(v)| <= 64
    ensures AppValue(v) == AppTag(ValueTag(v), |ValueContents(v)|) + ValueContents(v)
  {
    if v.Str? { assert AppTag(7, |v.s| + 1) + [0] + v.s == AppTag(7, |v.s| + 1) + ([0] + v.s); }
  }

  lemma ContentsBack(v: Value)
    requires Encodable(v)
    ensures Contents(ValueTag(v), ValueContents(v)) == Got(v, |ValueContents(v)|)
  {
    match v
    case Unsigned(u) => ContextLenFits(u); ReadBeOfBe(u, AppLen(u));
    case Enumerated(e) => ContextLenFits(e); ReadBeOfBe(e, AppLen(e));
    case Real(p) => Powers(); ReadBeOfBe(p, 4);
    case Oid(o) => Powers(); ReadBeOfBe(ObjectWord(o.kind, o.instance), 4); WordBack(o);
    case Str(s) => assert ([0] + s)[1..] == s;
    case BitString(count, _) =>
      assert (8 - (8 - count) % 256) % 256 == count;
  }

  /** Any encodable value is decoded to itself, with the cursor after it. */
  lemma AppValueBack(buf: seq<byte>, pos: nat, v: Value)
    requires Encodable(v) && At(buf, pos, AppValue(v))
    ensures DecodeAppValue(buf, |buf|, pos) == Got(v, pos + |AppValue(v)|)
  {
    hide Contents, AppTag, Be;
    AppValueParts(v);
    AppTagBack(buf, pos, ValueTag(v), ValueContents(v));
    ContentsBack(v);
  }
}
