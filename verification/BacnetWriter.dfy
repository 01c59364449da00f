/** The encoders as the firmware runs them: bytes written into a caller's buffer behind a cursor,
    refusing what does not fit. */
module BacnetWriter {
  import opened Basics
  import opened BacnetTags
  import opened BacnetFrames

  const MAX_FRAME: nat := 1500
  const EXPECTING_REPLY: byte := 0x04
  const CONFIRMED: byte := 0x00
  const MAX_APDU: byte := 0x05

  lemma Be1(v: nat)
    ensures Be(v, 1) == [v % 256]
  {
    assert Be(v / 256, 0) == [];
  }

  lemma Be2(v: nat)
    ensures Be(v, 2) == [v / 256 % 256, v % 256]
  {
    Be1(v / 256);
  }

  lemma Be3(v: nat)
    ensures Be(v, 3) == [v / 0x1_0000 % 256, v / 256 % 256, v % 256]
  {
    Be2(v / 256);
    assert v / 256 / 256 == v / 0x1_0000;
  }

  lemma Be4(v: nat)
    ensures Be(v, 4) == [v / 0x100_0000 % 256, v / 0x1_0000 % 256, v / 256 % 256, v % 256]
  {
    Be3(v / 256);
    assert v / 256 / 256 == v / 0x1_0000;
    assert v / 256 / 0x1_0000 == v / 0x100_0000;
  }

  /** memcpy into the buffer at `pos`. */
  method Copy(out: array<byte>, cap: nat, pos: nat, data: seq<byte>)
    requires pos + |data| <= cap <= out.Length
    modifies out
    ensures out[..pos + |data|] == old(out[..pos]) + data
    ensures out[cap..] == old(out[cap..])
  {
    for i := 0 to |data|
      invariant out[..pos + i] == old(out[..pos]) + data[..i]
      invariant out[cap..] == old(out[cap..])
    {
      out[pos + i] := data[i];
    }
  }

  // ---- Context encoders ------------------------------------------------------------------------

  /** The bytes of an unsigned, by size. */
  method ShortestBytes(value: uint32) returns (bytes: seq<byte>)
    ensures bytes == Be(value, ContextLen(value))
  {
    hide Be;
    if value <= 0xFF {
      bytes := [value];
      Be1(value);
    } else if value <= 0xFFFF {
      bytes := [value / 256, value % 256];
      Be2(value);
    } else if value <= 0xFF_FFFF {
      bytes := [value / 0x1_0000, value / 256 % 256, value % 256];
      Be3(value);
    } else {
      bytes := [value / 0x100_0000, value / 0x1_0000 % 256, value / 256 % 256, value % 256];
      Be4(value);
    }
  }

  /** Each encoder appends its bytes after `pos`, or refuses and changes nothing. */
  method ContextTag(out: array<byte>, cap: nat, pos: nat, tag: nat, value: uint32) returns (ok: bool, next: nat)
    requires pos <= cap <= out.Length && TagNumber(tag)
    modifies out
    ensures ok <==> pos + |ContextUint(tag, value)| <= cap
    ensures next == if ok then pos + |ContextUint(tag, value)| else pos
    ensures ok ==> out[..next] == old(out[..pos]) + ContextUint(tag, value)
    ensures !ok ==> out[..] == old(out[..])
    ensures out[cap..] == old(out[cap..])
  {
    hide Be;
    var bytes := ShortestBytes(value);
    if pos + 1 + |bytes| > cap { return false, pos; }
    Copy(out, cap, pos, [TagByte(tag, 8 + |bytes|)] + bytes);
    return true, pos + 1 + |bytes|;
  }

  method ContextObjectId(out: array<byte>, cap: nat, pos: nat, tag: nat, kind: nat, instance: nat)
    returns (ok: bool, next: nat)
    requires pos <= cap <= out.Length && TagNumber(tag)
    modifies out
    ensures ok <==> instance <= WILDCARD && pos + 5 <= cap
    ensures next == if ok then pos + 5 else pos
    ensures ok ==> out[..next] == old(out[..pos]) + ContextObject(tag, kind, instance)
    ensures !ok ==> out[..] == old(out[..])
    ensures out[cap..] == old(out[cap..])
  {
    if instance > WILDCARD || pos + 5 > cap { return false, pos; }
    var w := ObjectWord(kind, instance);
    Be4(w);
    assert ContextObject(tag, kind, instance)
        == [TagByte(tag, 12)] + [w / 0x100_0000, w / 0x1_0000 % 256, w / 256 % 256, w % 256];
    hide ContextObject, TagByte, ObjectWord;
    Copy(out, cap, pos, [TagByte(tag, 12)] + [w / 0x100_0000, w / 0x1_0000 % 256, w / 256 % 256, w % 256]);
    return true, pos + 5;
  }

  method PutByte(out: array<byte>, cap: nat, pos: nat, b: byte) returns (ok: bool, next: nat)
    requires pos <= cap <= out.Length
    modifies out
    ensures ok <==> pos + 1 <= cap
    ensures next == if ok then pos + 1 else pos
    ensures ok ==> out[..next] == old(out[..pos]) + [b]
    ensures !ok ==> out[..] == old(out[..])
    ensures out[cap..] == old(out[cap..])
  {
    if pos + 1 > cap { return false, pos; }
    Copy(out, cap, pos, [b]);
    return true, pos + 1;
  }

  // ---- Requests --------------------------------------------------------------------------------

  function RequestHead(total: nat, invoke: byte, service: byte): seq<byte> {
    [BVLC, UNICAST, total / 256 % 256, total % 256, NPDU, EXPECTING_REPLY, CONFIRMED, MAX_APDU, invoke, service]
  }

  function Frame(invoke: byte, service: byte, body: seq<byte>): seq<byte> {
    RequestHead(10 + |body|, invoke, service) + body
  }

  function PropertyBody(kind: nat, instance: nat, property: uint32, index: Option<uint32>): seq<byte> {
    ContextObject(0, kind, instance) + ContextUint(1, property) +
    if index.Some? then ContextUint(2, index.value) else []
  }

  function PropertyList(properties: seq<uint32>): seq<byte> {
    if properties == [] then []
    else PropertyList(properties[..|properties| - 1]) + ContextUint(0, properties[|properties| - 1])
  }

  function MultipleBody(kind: nat, instance: nat, properties: seq<uint32>): seq<byte> {
    ContextObject(0, kind, instance) + [Opening(1)] + PropertyList(properties) + [Closing(1)]
  }

  method Begin(out: array<byte>, cap: nat, invoke: byte, service: byte) returns (ok: bool)
    requires cap <= out.Length
    modifies out
    ensures ok <==> cap >= 10
    ensures ok ==> out[..10] == RequestHead(0, invoke, service)
    ensures out[cap..] == old(out[cap..])
  {
    if cap < 10 { return false; }
    Copy(out, cap, 0, [BVLC, UNICAST, 0, 0, NPDU, EXPECTING_REPLY, CONFIRMED, MAX_APDU, invoke, service]);
    return true;
  }

  /** Fill in the length. */
  method FinishFrame(out: array<byte>, cap: nat, pos: nat, ghost invoke: byte, ghost service: byte,
      ghost body: seq<byte>)
    returns (ok: bool)
    requires pos == 10 + |body| <= cap <= out.Length
    requires out[..pos] == RequestHead(0, invoke, service) + body
    modifies out
    ensures ok <==> pos <= MAX_FRAME
    ensures ok ==> out[..pos] == Frame(invoke, service, body)
    ensures out[cap..] == old(out[cap..])
  {
    if pos > MAX_FRAME { return false; }
    out[2] := pos / 256 % 256;
    out[3] := pos % 256;
    assert out[..pos] == RequestHead(pos, invoke, service) + body by {
      assert old(out[..pos])[10..] == body;
      assert old(out[..pos])[..10] == RequestHead(0, invoke, service);
    }
    return true;
  }

  /** Exactly what a ReadProperty request needs to fit, and its bytes. Nothing is written at or past
      `cap`. */
  method BuildReadProperty(invoke: byte, kind: nat, instance: nat, property: uint32, index: Option<uint32>,
                           out: array<byte>, cap: nat)
    returns (ok: bool, len: nat)
    requires cap <= out.Length
    modifies out
    ensures ok <==> instance <= WILDCARD && 10 + |PropertyBody(kind, instance, property, index)| <= cap
    ensures ok ==> len <= cap
    ensures ok ==> out[..len] == Frame(invoke, READ_PROPERTY, PropertyBody(kind, instance, property, index))
    ensures out[cap..] == old(out[cap..])
  {
    hide ContextUint, ContextObject, RequestHead, Frame;
    ghost var head := RequestHead(0, invoke, READ_PROPERTY);
    ghost var body := ContextObject(0, kind, instance);
    SmallBody(kind, instance, property, index);
    len := 0;
    ok := Begin(out, cap, invoke, READ_PROPERTY);
    if !ok { return; }
    var pos := 10;
    ok, pos := ContextObjectId(out, cap, pos, 0, kind, instance);
    if !ok { return; }
    ok, pos := ContextTag(out, cap, pos, 1, property);
    if !ok { return; }
    body := body + ContextUint(1, property);
    assert out[..pos] == head + body;
    if index.Some? {
      ok, pos := ContextTag(out, cap, pos, 2, index.value);
      if !ok { return; }
      body := body + ContextUint(2, index.value);
      assert out[..pos] == head + body;
    } else {
      assert body + [] == body;
    }
    assert body == PropertyBody(kind, instance, property, index);
    ok := FinishFrame(out, cap, pos, invoke, READ_PROPERTY, body);
    len := pos;
  }

  lemma SmallBody(kind: nat, instance: nat, property: uint32, index: Option<uint32>)
    ensures |ContextObject(0, kind, instance)| == 5 && forall b: byte, c: byte :: |RequestHead(0, b, c)| == 10
    ensures 10 + |PropertyBody(kind, instance, property, index)| <= MAX_FRAME
  {
  }

  lemma ListStep(properties: seq<uint32>, i: nat)
    requires i < |properties|
    ensures PropertyList(properties[..i + 1]) == PropertyList(properties[..i]) + ContextUint(0, properties[i])
    ensures |PropertyList(properties[..i + 1])| <= |PropertyList(properties)|
  {
    assert properties[..i + 1][..i] == properties[..i];
    ListGrows(properties, i + 1);
  }

  lemma {:induction false} ListGrows(properties: seq<uint32>, i: nat)
    requires i <= |properties|
    ensures |PropertyList(properties[..i])| <= |PropertyList(properties)|
  {
    if i == |properties| {
      assert properties[..i] == properties;
    } else {
      var init := properties[..|properties| - 1];
      ListGrows(init, i);
      assert init[..i] == properties[..i];
    }
  }

  /** The same for ReadPropertyMultiple, whose property list is written in a loop. */
  method BuildReadPropertyMultiple(invoke: byte, kind: nat, instance: nat,
      properties: seq<uint32>, out: array<byte>, cap: nat)
    returns (ok: bool, len: nat)
    requires cap <= out.Length
    modifies out
    ensures ok <==> instance <= WILDCARD && 10 + |MultipleBody(kind, instance, properties)| <= cap
                    && 10 + |MultipleBody(kind, instance, properties)| <= MAX_FRAME
    ensures ok ==> len <= cap
    ensures ok ==> out[..len] == Frame(invoke, READ_PROPERTY_MULTIPLE, MultipleBody(kind, instance, properties))
    ensures out[cap..] == old(out[cap..])
  {
    hide ContextUint, ContextObject, PropertyList, RequestHead, Frame;
    ghost var head := RequestHead(0, invoke, READ_PROPERTY_MULTIPLE);
    ghost var start := ContextObject(0, kind, instance) + [Opening(1)];
    SmallBody(kind, instance, 0, None);
    len := 0;
    ok := Begin(out, cap, invoke, READ_PROPERTY_MULTIPLE);
    if !ok { return; }
    var pos := 10;
    ok, pos := ContextObjectId(out, cap, pos, 0, kind, instance);
    if !ok { return; }
    ok, pos := PutByte(out, cap, pos, Opening(1));
    if !ok { return; }
    assert out[..pos] == head + start;
    ok, pos := PutProperties(out, cap, pos, properties);
    if !ok { return; }
    ok, pos := PutByte(out, cap, pos, Closing(1));
    if !ok { return; }
    assert out[..pos] == head + MultipleBody(kind, instance, properties);
    ok := FinishFrame(out, cap, pos, invoke, READ_PROPERTY_MULTIPLE, MultipleBody(kind, instance, properties));
    len := pos;
  }

  method PutProperties(out: array<byte>, cap: nat, pos: nat, properties: seq<uint32>) returns (ok: bool, next: nat)
    requires pos <= cap <= out.Length
    modifies out
    ensures ok <==> pos + |PropertyList(properties)| <= cap
    ensures ok ==> next == pos + |PropertyList(properties)| && out[..next] == old(out[..pos]) + PropertyList(properties)
    ensures out[cap..] == old(out[cap..])
  {
    hide ContextUint;
    ok, next := true, pos;
    for i := 0 to |properties|
      invariant ok && next == pos + |PropertyList(properties[..i])| <= cap
      invariant out[..next] == old(out[..pos]) + PropertyList(properties[..i])
      invariant out[cap..] == old(out[cap..])
    {
      ListStep(properties, i);
      ok, next := ContextTag(out, cap, next, 0, properties[i]);
      if !ok { return; }
    }
    assert properties[..|properties|] == properties;
  }

  // ---- The application-tag writer --------------------------------------------------------------

  /** Appends application-tagged values to a buffer; a refusal is remembered in `ok`. */
  class Writer {
    const buf: array<byte>
    const cap: nat
    var pos: nat
    var ok: bool

    ghost predicate Valid()
      reads this
    {
      pos <= cap <= buf.Length
    }

    /** What has been written. */
    ghost function Written(): seq<byte>
      reads this, buf
      requires Valid()
    {
      buf[..pos]
    }

    constructor (buf: array<byte>, cap: nat)
      requires cap <= buf.Length
      ensures Valid() && this.buf == buf && this.cap == cap && Written() == [] && ok
    {
      this.buf, this.cap, this.pos, this.ok := buf, cap, 0, true;
    }

    method U8(v: byte) returns (r: bool)
      requires Valid()
      modifies this, buf
      ensures Valid() && r == (old(pos) + 1 <= cap) && ok == (old(ok) && r)
      ensures Written() == if r then old(Written()) + [v] else old(Written())
      ensures buf[cap..] == old(buf[cap..])
    {
      if pos >= cap {
        ok := false;
        return false;
      }
      buf[pos] := v;
      pos := pos + 1;
      return true;
    }

    method Bytes(data: seq<byte>) returns (r: bool)
      requires Valid()
      modifies this, buf
      ensures Valid() && r == (old(pos) + |data| <= cap) && ok == (old(ok) && r)
      ensures Written() == if r then old(Written()) + data else old(Written())
      ensures buf[cap..] == old(buf[cap..])
    {
      if pos + |data| > cap {
        ok := false;
        return false;
      }
      Copy(buf, cap, pos, data);
      pos := pos + |data|;
      return true;
    }

    /** A tag and its contents: written whole exactly when they fit; otherwise the writer is marked
        and what was written before is kept. */
    method TagAndBytes(tag: nat, data: seq<byte>) returns (r: bool)
      requires Valid() && TagNumber(tag) && |data| < 256
      modifies this, buf
      ensures Valid() && r == (old(pos) + |AppTag(tag, |data|) + data| <= cap) && ok == (old(ok) && r)
      ensures old(Written()) <= Written()
      ensures r ==> Written() == old(Written()) + (AppTag(tag, |data|) + data)
      ensures buf[cap..] == old(buf[cap..])
    {
      if |data| < 5 {
        r := U8(TagByte(tag, |data|));
      } else {
        r := U8(TagByte(tag, 5));
        if r { r := U8(|data| % 256); }
      }
      if r { r := Bytes(data); }
    }

    method ApplicationUnsigned(v: uint32) returns (r: bool)
      requires Valid()
      modifies this, buf
      ensures Valid() && r == (old(pos) + |AppValue(Unsigned(v))| <= cap) && ok == (old(ok) && r)
      ensures r ==> Written() == old(Written()) + AppValue(Unsigned(v))
      ensures buf[cap..] == old(buf[cap..])
    {
      hide Be, AppTag;
      var b := AppBytes(v);
      r := TagAndBytes(2, b);
    }

    method ApplicationEnumerated(v: uint32) returns (r: bool)
      requires Valid()
      modifies this, buf
      ensures Valid() && r == (old(pos) + |AppValue(Enumerated(v))| <= cap) && ok == (old(ok) && r)
      ensures r ==> Written() == old(Written()) + AppValue(Enumerated(v))
      ensures buf[cap..] == old(buf[cap..])
    {
      hide Be, AppTag;
      var b := AppBytes(v);
      r := TagAndBytes(9, b);
    }

    method ApplicationReal(pattern: uint32) returns (r: bool)
      requires Valid()
      modifies this, buf
      ensures Valid() && r == (old(pos) + |AppValue(Real(pattern))| <= cap) && ok == (old(ok) && r)
      ensures r ==> Written() == old(Written()) + AppValue(Real(pattern))
      ensures buf[cap..] == old(buf[cap..])
    {
      hide Be, AppTag;
      Be4(pattern);
      r := TagAndBytes(4, [pattern / 0x100_0000, pattern / 0x1_0000 % 256, pattern / 256 % 256, pattern % 256]);
    }

    /** Longer strings are cut to 63 bytes. */
    method ApplicationString(s: seq<byte>) returns (r: bool)
      requires Valid()
      modifies this, buf
      ensures Valid() && r == (old(pos) + |AppValue(Str(CutString(s)))| <= cap) && ok == (old(ok) && r)
      ensures r ==> Written() == old(Written()) + AppValue(Str(CutString(s)))
      ensures buf[cap..] == old(buf[cap..])
    {
      hide AppTag;
      var t := if |s| > 63 then s[..63] else s;
      AppValueParts(Str(CutString(s)));
      r := TagAndBytes(7, [0] + t);
    }

    method ApplicationBitstring(bits: byte, count: byte) returns (r: bool)
      requires Valid()
      modifies this, buf
      ensures Valid() && r == (old(pos) + |AppValue(BitString(count, bits))| <= cap) && ok == (old(ok) && r)
      ensures r ==> Written() == old(Written()) + AppValue(BitString(count, bits))
      ensures buf[cap..] == old(buf[cap..])
    {
      r := TagAndBytes(8, [(8 - count) % 256, bits]);
    }

    method ApplicationObjectId(kind: nat, instance: nat) returns (r: bool)
      requires Valid()
      modifies this, buf
      ensures Valid() && r == (old(pos) + 5 <= cap) && ok == (old(ok) && r)
      ensures r ==> Written() == old(Written()) + (AppTag(12, 4) + Be(ObjectWord(kind, instance), 4))
      ensures buf[cap..] == old(buf[cap..])
    {
      hide Be, ObjectWord;
      var w := ObjectWord(kind, instance);
      Be4(w);
      r := TagAndBytes(12, [w / 0x100_0000, w / 0x1_0000 % 256, w / 256 % 256, w % 256]);
    }
  }

  /** One, two or four bytes, by size. */
  method AppBytes(v: uint32) returns (b: seq<byte>)
    ensures b == Be(v, AppLen(v))
  {
    hide Be;
    if v <= 0xFF {
      b := [v];
      Be1(v);
    } else if v <= 0xFFFF {
      b := [v / 256, v % 256];
      Be2(v);
    } else {
      b := [v / 0x100_0000, v / 0x1_0000 % 256, v / 256 % 256, v % 256];
      Be4(v);
    }
  }
}
