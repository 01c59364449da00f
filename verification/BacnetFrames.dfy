/** BACnet/IP frames: BVLL and NPDU headers (Annex J and clause 6.2 of ANSI/ASHRAE 135), the
    acknowledgements of ReadProperty and ReadPropertyMultiple (clauses 15.5 and 15.7) and I-Am
    (clause 16.10). `buf` holds the `len` bytes received; parsing works on the declared part of it. */
module BacnetFrames {
  import opened Basics
  import opened BacnetTags

  const BVLC: byte := 0x81
  const UNICAST: byte := 0x0A
  const BROADCAST: byte := 0x0B
  const NPDU: byte := 0x01
  const COMPLEX_ACK: int := 0x30
  const ERROR_PDU: int := 0x50
  const REJECT_PDU: int := 0x60
  const ABORT_PDU: int := 0x70
  const READ_PROPERTY: byte := 12
  const READ_PROPERTY_MULTIPLE: byte := 14
  const WILDCARD: nat := 4194303
  const DEVICE: nat := 8

  datatype Parse = Ok | Incomplete | BadFrame | WrongInvoke | WrongService | Error | Reject | Abort | Unsupported

  datatype ErrorInfo = ErrorInfo(cls: byte, code: byte, reason: byte)

  function Total(buf: seq<byte>): nat
    requires |buf| >= 4
  {
    var hi: int := buf[2];
    hi * 256 + buf[3]
  }

  /** The bytes the frame declares. */
  function Declared(buf: seq<byte>): seq<byte>
    requires |buf| >= 4 && Total(buf) <= |buf|
  {
    buf[..Total(buf)]
  }

  // ---- Header ----------------------------------------------------------------------------------

  datatype EnumRead = EnumRead(ok: bool, value: byte, pos: nat)

  /** Best-effort read of one enumerated value; the cursor keeps what a failed read consumed. */
  function ReadEnum(buf: seq<byte>, len: nat, p: nat): EnumRead
    requires len <= |buf|
  {
    if p >= len || buf[p] / 16 != 9 then EnumRead(false, 0, p)
    else
      var short := buf[p] % 8;
      if short == 5 && p + 1 >= len then EnumRead(false, 0, p + 1)
      else
        var n, q := if short == 5 then buf[p + 1] else short, if short == 5 then p + 2 else p + 1;
        if n == 0 || n > 4 || q + n > len then EnumRead(false, 0, q)
        else EnumRead(true, ReadBe(buf[q..q + n]) % 256, q + n)
  }

  function ReadError(buf: seq<byte>, len: nat, err: ErrorInfo): ErrorInfo
    requires len <= |buf|
  {
    var c := ReadEnum(buf, len, 9);
    var d := ReadEnum(buf, len, c.pos);
    ErrorInfo(if c.ok then c.value else err.cls, if d.ok then d.value else err.code, err.reason)
  }

  datatype Header = Header(parse: Parse, err: ErrorInfo)

  /** On Ok the body starts at byte 9. */
  function ParseHeader(buf: seq<byte>, invoke: byte, service: byte, err: ErrorInfo): (h: Header)
    ensures h.parse.Ok? ==> |buf| >= 9 && 9 <= Total(buf) <= |buf|
  {
    if |buf| < 7 then Header(Incomplete, err)
    else if buf[0] != BVLC || buf[1] != UNICAST then Header(BadFrame, err)
    else if Total(buf) > |buf| then Header(Incomplete, err)
    else if Total(buf) < 7 then Header(BadFrame, err)
    else if buf[4] != NPDU || buf[5] / 8 % 2 == 1 || buf[5] / 32 % 2 == 1 then Header(BadFrame, err)
    else ParsePdu(buf, Total(buf), invoke, service, err)
  }

  function ParsePdu(buf: seq<byte>, len: nat, invoke: byte, service: byte, err: ErrorInfo): (h: Header)
    requires 7 <= len <= |buf|
    ensures h.parse.Ok? ==> len >= 9
  {
    var pdu := buf[6] / 16 * 16;
    if pdu != COMPLEX_ACK && pdu != ERROR_PDU && pdu != REJECT_PDU && pdu != ABORT_PDU then Header(Unsupported, err)
    else if len < 9 then Header(Incomplete, err)
    else if buf[7] != invoke then Header(WrongInvoke, err)
    else if pdu == COMPLEX_ACK then Header(if buf[8] != service then WrongService else Ok, err)
    else if pdu == ERROR_PDU then Header(Error, ReadError(buf, len, err))
    else Header(if pdu == REJECT_PDU then Reject else Abort, err.(reason := buf[8]))
  }

  /** Does an object identifier answer the one asked for? */
  predicate Answers(o: ObjectId, expected: Option<ObjectId>) {
    expected.Some? ==>
      o.kind == expected.value.kind && (expected.value.instance == WILDCARD || o.instance == expected.value.instance)
  }

  // ---- ReadProperty ----------------------------------------------------------------------------

  datatype PropertyAck = PropertyAck(parse: Parse, value: Option<Value>, err: ErrorInfo)

  function AfterIndex(buf: seq<byte>, len: nat, pos: nat): Got<()>
    requires len <= |buf|
  {
    if pos < len && buf[pos] / 16 == 2 && buf[pos] / 8 % 2 == 1 then
      var r := ReadContextUint(buf, len, pos, 2);
      if r.Bad? then Bad else Got((), r.pos)
    else Got((), pos)
  }

  /** The value between opening and closing tag 3. */
  function WrappedValue(buf: seq<byte>, len: nat, pos: nat): Got<Value>
    requires len <= |buf|
  {
    if pos >= len || buf[pos] != Opening(3) then Bad
    else
      var v := DecodeAppValue(buf, len, pos + 1);
      if v.Bad? || v.pos >= len || buf[v.pos] != Closing(3) then Bad else v
  }

  function ParseReadPropertyAck(buf: seq<byte>, invoke: byte, property: nat,
      expected: Option<ObjectId>, err: ErrorInfo): PropertyAck {
    var h := ParseHeader(buf, invoke, READ_PROPERTY, err);
    if !h.parse.Ok? then PropertyAck(h.parse, None, h.err)
    else
      var len := Total(buf);
      var o := ReadContextObject(buf, len, 9, 0);
      if o.Bad? then PropertyAck(BadFrame, None, h.err)
      else
        var p := ReadContextUint(buf, len, o.pos, 1);
        if p.Bad? || !Answers(o.value, expected) then PropertyAck(BadFrame, None, h.err)
        else if p.value != property then PropertyAck(WrongService, None, h.err)
        else
          var i := AfterIndex(buf, len, p.pos);
          if i.Bad? then PropertyAck(BadFrame, None, h.err)
          else
            var v := WrappedValue(buf, len, i.pos);
            if v.Bad? then PropertyAck(BadFrame, None, h.err) else PropertyAck(Ok, Some(v.value), h.err)
  }

  /** Which reply a client waiting for `expected` takes as its own. */
  function FrameMatchesObject(buf: seq<byte>, invoke: byte, service: byte, expected: ObjectId): bool {
    var h := ParseHeader(buf, invoke, service, ErrorInfo(0, 0, 0));
    if h.parse.Error? || h.parse.Reject? || h.parse.Abort? then true
    else if !h.parse.Ok? then false
    else
      var o := ReadContextObject(buf, Total(buf), 9, 0);
      o.Got? && Answers(o.value, Some(expected))
  }

  // ---- ReadPropertyMultiple --------------------------------------------------------------------

  datatype PropertyValue = PropertyValue(obj: ObjectId, property: nat, error: bool, info: ErrorInfo, value: Value)

  const NO_PROPERTY: PropertyValue := PropertyValue(ObjectId(0, 0), 0, false, ErrorInfo(0, 0, 0), Null)

  /** The error between opening and closing tag 5. */
  function ReadAccessError(buf: seq<byte>, len: nat, pos: nat): (r: Got<(nat, nat)>)
    requires len <= |buf|
    ensures r.Got? ==> pos < r.pos <= len
  {
    var c := ReadContextUint(buf, len, pos, 0);
    if c.Bad? then Bad
    else
      var d := ReadContextUint(buf, len, c.pos, 1);
      if d.Bad? || d.pos >= len || buf[d.pos] != Closing(5) then Bad else Got((c.value, d.value), d.pos + 1)
  }

  /** One property result, written over what the output slot held before: an error leaves the old
      value, and a value leaves the old error flag. */
  function ReadPropertyResult(buf: seq<byte>, len: nat, pos: nat, obj: ObjectId,
      slot: PropertyValue): (r: Got<PropertyValue>)
    requires len <= |buf|
    ensures r.Got? ==> pos < r.pos <= len
  {
    var p := ReadContextUint(buf, len, pos, 2);
    if p.Bad? || p.pos >= len then Bad
    else
      var named := slot.(obj := obj, property := p.value);
      if buf[p.pos] == Opening(5) then
        var e := ReadAccessError(buf, len, p.pos + 1);
        if e.Bad? then Bad
        else Got(named.(error := true, info := named.info.(cls := e.value.0 % 256, code := e.value.1 % 256)), e.pos)
      else if buf[p.pos] == Opening(4) then
        var v := DecodeAppValue(buf, len, p.pos + 1);
        if v.Bad? || v.pos >= len || buf[v.pos] != Closing(4) then Bad else Got(named.(value := v.value), v.pos + 1)
      else Bad
  }

  /** What a decode that fails leaves in the value: nothing of it is touched before its tag is read. */
  function LeftValue(buf: seq<byte>, len: nat, pos: nat, value: Value): Value
    requires len <= |buf|
  {
    var v, t := DecodeAppValue(buf, len, pos), DecodeTag(buf, len, pos);
    if v.Got? then v.value
    else if t.NoTag? || t.context then value
    else if t.number == 7 && t.len > 0 then Str(CutString(buf[t.pos + 1..t.pos + t.len]))
    else Null
  }

  /** What a property result that cannot be read leaves in its slot. */
  function LeftSlot(buf: seq<byte>, len: nat, pos: nat, obj: ObjectId, slot: PropertyValue): PropertyValue
    requires len <= |buf|
  {
    var p := ReadContextUint(buf, len, pos, 2);
    if p.Bad? then slot
    else
      var named := slot.(obj := obj, property := p.value);
      if p.pos >= len || buf[p.pos] != Opening(4) then named
      else named.(value := LeftValue(buf, len, p.pos + 1, slot.value))
  }

  /** `out` is the whole output buffer; its first `count` entries are results. */
  datatype Results = Results(parse: Parse, out: seq<PropertyValue>, count: nat, pos: nat)

  function ParseProperties(buf: seq<byte>, len: nat, pos: nat, obj: ObjectId,
      out: seq<PropertyValue>, count: nat): (r: Results)
    requires len <= |buf|
    ensures r.parse.Ok? ==> pos < r.pos <= len
    ensures |r.out| == |out| && (count <= |out| ==> count <= r.count <= |out|)
    decreases len - pos
  {
    if pos >= len then Results(BadFrame, out, count, pos)
    else if buf[pos] == Closing(1) then Results(Ok, out, count, pos + 1)
    else if count >= |out| then Results(Unsupported, out, count, pos)
    else
      var r := ReadPropertyResult(buf, len, pos, obj, out[count]);
      if r.Bad? then Results(BadFrame, out[count := LeftSlot(buf, len, pos, obj, out[count])], count, pos)
      else ParseProperties(buf, len, r.pos, obj, out[count := r.value], count + 1)
  }

  function ParseObjects(buf: seq<byte>, len: nat, pos: nat,
      expected: Option<ObjectId>, out: seq<PropertyValue>, count: nat): (r: Results)
    requires len <= |buf|
    ensures |r.out| == |out| && (count <= |out| ==> count <= r.count <= |out|)
    decreases len - pos
  {
    if pos >= len then Results(Ok, out, count, pos)
    else
      var o := ReadContextObject(buf, len, pos, 0);
      if o.Bad? || o.pos >= len || buf[o.pos] != Opening(1) || !Answers(o.value, expected) then
          Results(BadFrame, out, count, pos)
      else
        var p := ParseProperties(buf, len, o.pos + 1, o.value, out, count);
        if !p.parse.Ok? then p else ParseObjects(buf, len, p.pos, expected, p.out, p.count)
  }

  datatype MultipleAck = MultipleAck(parse: Parse, out: seq<PropertyValue>, count: nat, err: ErrorInfo)

  function ParseMultipleAck(buf: seq<byte>, invoke: byte,
      out: seq<PropertyValue>, expected: Option<ObjectId>, err: ErrorInfo): (r: MultipleAck)
    ensures |r.out| == |out| && r.count <= |out|
  {
    var h := ParseHeader(buf, invoke, READ_PROPERTY_MULTIPLE, err);
    if !h.parse.Ok? then MultipleAck(h.parse, out, 0, h.err)
    else
      var r := ParseObjects(buf, Total(buf), 9, expected, out, 0);
      MultipleAck(r.parse, r.out, r.count, h.err)
  }

  /** The inner loop: the property results of one object, up to its closing tag. */
  method ParseObjectProperties(buf: seq<byte>, len: nat, start: nat, obj: ObjectId,
      out: array<PropertyValue>, filled: nat)
    returns (p: Parse, count: nat, pos: nat)
    requires filled <= out.Length && len <= |buf|
    modifies out
    ensures Results(p, out[..], count, pos) == ParseProperties(buf, len, start, obj, old(out[..]), filled)
  {
    hide ReadPropertyResult, LeftSlot;
    count, pos := filled, start;
    while pos < len && buf[pos] != Closing(1)
      invariant count <= out.Length
      invariant ParseProperties(buf, len, start, obj, old(out[..]), filled)
          == ParseProperties(buf, len, pos, obj, out[..], count)
      decreases len - pos
    {
      if count >= out.Length { return Unsupported, count, pos; }
      var r := ReadPropertyResult(buf, len, pos, obj, out[count]);
      ghost var before := out[..];
      if r.Bad? {
        out[count] := LeftSlot(buf, len, pos, obj, out[count]);
        assert out[..] == before[count := LeftSlot(buf, len, pos, obj, before[count])];
        return BadFrame, count, pos;
      }
      out[count] := r.value;
      assert out[..] == before[count := r.value];
      count := count + 1;
      pos := r.pos;
    }
    if pos >= len { return BadFrame, count, pos; }
    return Ok, count, pos + 1;
  }

  /** The parser as the firmware runs it: two nested loops that fill the caller's array. It
      terminates, never writes past the array, and computes exactly `ParseMultipleAck`. */
  method ParseReadPropertyMultipleAck(buf: seq<byte>, invoke: byte, out: array<PropertyValue>,
                                      expected: Option<ObjectId>, err: ErrorInfo)
    returns (p: Parse, count: nat, info: ErrorInfo)
    modifies out
    ensures MultipleAck(p, out[..], count, info) == ParseMultipleAck(buf, invoke, old(out[..]), expected, err)
  {
    hide ReadContextUint, ReadContextObject, ParseProperties, ParsePdu;
    count := 0;
    var h := ParseHeader(buf, invoke, READ_PROPERTY_MULTIPLE, err);
    info := h.err;
    if !h.parse.Ok? { return h.parse, count, info; }
    var len := Total(buf);
    var pos := 9;
    while pos < len
      invariant pos <= len && count <= out.Length
      invariant ParseObjects(buf, len, 9, expected, old(out[..]), 0)
          == ParseObjects(buf, len, pos, expected, out[..], count)
      decreases len - pos
    {
      var o := ReadContextObject(buf, len, pos, 0);
      if o.Bad? || o.pos >= len || buf[o.pos] != Opening(1) { return BadFrame, count, info; }
      if !Answers(o.value, expected) { return BadFrame, count, info; }
      p, count, pos := ParseObjectProperties(buf, len, o.pos + 1, o.value, out, count);
      if !p.Ok? { return; }
    }
    return Ok, count, info;
  }

  // ---- I-Am ------------------------------------------------------------------------------------

  function ReadAppUint(buf: seq<byte>, len: nat, pos: nat, tag: nat): Got<nat>
    requires len <= |buf|
  {
    if pos >= len || buf[pos] / 16 != tag then Bad
    else
      var short := buf[pos] % 8;
      if short == 5 && pos + 1 >= len then Bad
      else
        var n, q := if short == 5 then buf[pos + 1] else short, if short == 5 then pos + 2 else pos + 1;
        if n == 0 || n > 4 || q + n > len then Bad else Got(ReadBe(buf[q..q + n]), q + n)
  }

  datatype IAm = IAm(device: nat, maxApdu: nat, segmentation: nat, vendor: nat)

  datatype IAmResult = IAmResult(parse: Parse, iam: Option<IAm>)

  /** The four application values of an I-Am. */
  function ReadIAm(buf: seq<byte>, len: nat, pos: nat): Option<IAm>
    requires len <= |buf|
  {
    var o := ReadAppUint(buf, len, pos, 12);
    if o.Bad? || o.value / 0x40_0000 != DEVICE then None
    else
      var a := ReadAppUint(buf, len, o.pos, 2);
      if a.Bad? then None
      else
        var s := ReadAppUint(buf, len, a.pos, 9);
        if s.Bad? then None
        else
          var v := ReadAppUint(buf, len, s.pos, 2);
          if v.Bad? then None else Some(IAm(o.value % 0x40_0000, a.value, s.value, v.value))
  }

  /** Where the APDU starts after an optional destination specifier. */
  function AfterDestination(buf: seq<byte>, len: nat): Option<nat>
    requires 12 <= len <= |buf|
  {
    var dlen: nat := buf[8];
    if buf[5] / 32 % 2 == 1 then (if 9 + dlen + 1 > len then None else Some(9 + dlen + 1)) else Some(6)
  }

  function ParseIAm(buf: seq<byte>): IAmResult {
    if |buf| < 12 then IAmResult(Incomplete, None)
    else if buf[0] != BVLC || (buf[1] != UNICAST && buf[1] != BROADCAST) then IAmResult(BadFrame, None)
    else if Total(buf) > |buf| then IAmResult(Incomplete, None)
    else if Total(buf) < 12 || buf[4] != NPDU || buf[5] / 8 % 2 == 1 then IAmResult(BadFrame, None)
    else
      var len := Total(buf);
      var at := AfterDestination(buf, len);
      if at.None? || at.value + 2 > len then IAmResult(Incomplete, None)
      else if buf[at.value] / 16 != 1 || buf[at.value + 1] != 0 then IAmResult(WrongService, None)
      else
        var iam := ReadIAm(buf, len, at.value + 2);
        IAmResult(if iam.Some? then Ok else BadFrame, iam)
  }

  // ---- Locality --------------------------------------------------------------------------------

  /** Two receive buffers with the same first `len` bytes. */
  predicate Agree(a: seq<byte>, b: seq<byte>, len: nat) {
    len <= |a| && len <= |b| && forall i :: 0 <= i < len ==> a[i] == b[i]
  }

  lemma AgreeSlice(a: seq<byte>, b: seq<byte>, len: nat, from: nat, to: nat)
    requires Agree(a, b, len) && from <= to <= len
    ensures a[from..to] == b[from..to]
  {
  }

  lemma TagAgree(a: seq<byte>, b: seq<byte>, len: nat, pos: nat)
    requires Agree(a, b, len)
    ensures DecodeTag(a, len, pos) == DecodeTag(b, len, pos)
  {
  }

  lemma ContextUintAgree(a: seq<byte>, b: seq<byte>, len: nat, pos: nat, wanted: nat)
    requires Agree(a, b, len)
    ensures ReadContextUint(a, len, pos, wanted) == ReadContextUint(b, len, pos, wanted)
    ensures ReadContextObject(a, len, pos, wanted) == ReadContextObject(b, len, pos, wanted)
  {
    hide DecodeTag;
    TagAgree(a, b, len, pos);
    var t := DecodeTag(a, len, pos);
    if t.Tag? { AgreeSlice(a, b, len, t.pos, t.pos + t.len); }
  }

  lemma AppValueAgree(a: seq<byte>, b: seq<byte>, len: nat, pos: nat)
    requires Agree(a, b, len)
    ensures DecodeAppValue(a, len, pos) == DecodeAppValue(b, len, pos)
  {
    hide DecodeTag, Contents;
    TagAgree(a, b, len, pos);
    var t := DecodeTag(a, len, pos);
    if t.Tag? { AgreeSlice(a, b, len, t.pos, t.pos + t.len); }
  }

  lemma AccessErrorAgree(a: seq<byte>, b: seq<byte>, len: nat, pos: nat)
    requires Agree(a, b, len)
    ensures ReadAccessError(a, len, pos) == ReadAccessError(b, len, pos)
  {
    hide ReadContextUint;
    ContextUintAgree(a, b, len, pos, 0);
    var c := ReadContextUint(a, len, pos, 0);
    if c.Got? { ContextUintAgree(a, b, len, c.pos, 1); }
  }

  lemma PropertyResultAgree(a: seq<byte>, b: seq<byte>, len: nat, pos: nat, obj: ObjectId, slot: PropertyValue)
    requires Agree(a, b, len)
    ensures ReadPropertyResult(a, len, pos, obj, slot) == ReadPropertyResult(b, len, pos, obj, slot)
  {
    hide ReadContextUint, DecodeAppValue, ReadAccessError;
    ContextUintAgree(a, b, len, pos, 2);
    var p := ReadContextUint(a, len, pos, 2);
    if p.Got? {
      AccessErrorAgree(a, b, len, p.pos + 1);
      AppValueAgree(a, b, len, p.pos + 1);
    }
  }

  lemma LeftSlotAgree(a: seq<byte>, b: seq<byte>, len: nat, pos: nat, obj: ObjectId, slot: PropertyValue)
    requires Agree(a, b, len)
    ensures LeftSlot(a, len, pos, obj, slot) == LeftSlot(b, len, pos, obj, slot)
  {
    hide ReadContextUint, DecodeAppValue, DecodeTag;
    ContextUintAgree(a, b, len, pos, 2);
    var p := ReadContextUint(a, len, pos, 2);
    if p.Got? {
      AppValueAgree(a, b, len, p.pos + 1);
      TagAgree(a, b, len, p.pos + 1);
      var t := DecodeTag(a, len, p.pos + 1);
      if t.Tag? && t.len > 0 { AgreeSlice(a, b, len, t.pos + 1, t.pos + t.len); }
    }
  }

  lemma {:induction false} PropertiesAgree(a: seq<byte>,
      b: seq<byte>, len: nat, pos: nat, obj: ObjectId, out: seq<PropertyValue>, count: nat)
    requires Agree(a, b, len)
    ensures ParseProperties(a, len, pos, obj, out, count) == ParseProperties(b, len, pos, obj, out, count)
    decreases len - pos
  {
    hide ReadPropertyResult, LeftSlot;
    if pos < len && a[pos] != Closing(1) && count < |out| {
      LeftSlotAgree(a, b, len, pos, obj, out[count]);
      PropertyResultAgree(a, b, len, pos, obj, out[count]);
      var r := ReadPropertyResult(a, len, pos, obj, out[count]);
      if r.Got? { PropertiesAgree(a, b, len, r.pos, obj, out[count := r.value], count + 1); }
    }
  }

  lemma {:induction false} ObjectsAgree(a: seq<byte>,
      b: seq<byte>, len: nat, pos: nat, expected: Option<ObjectId>, out: seq<PropertyValue>, count: nat)
    requires Agree(a, b, len)
    ensures ParseObjects(a, len, pos, expected, out, count) == ParseObjects(b, len, pos, expected, out, count)
    decreases len - pos
  {
    hide ReadContextObject, ReadContextUint, ParseProperties, Answers;
    if pos < len {
      ContextUintAgree(a, b, len, pos, 0);
      var o := ReadContextObject(a, len, pos, 0);
      if o.Got? {
        PropertiesAgree(a, b, len, o.pos + 1, o.value, out, count);
        var p := ParseProperties(a, len, o.pos + 1, o.value, out, count);
        if p.parse.Ok? { ObjectsAgree(a, b, len, p.pos, expected, p.out, p.count); }
      }
    }
  }

  lemma EnumAgree(a: seq<byte>, b: seq<byte>, len: nat, p: nat)
    requires Agree(a, b, len)
    ensures ReadEnum(a, len, p) == ReadEnum(b, len, p)
    ensures forall tag :: ReadAppUint(a, len, p, tag) == ReadAppUint(b, len, p, tag)
  {
    if p + 1 < len {
      var n, q := if a[p] % 8 == 5 then a[p + 1] else a[p] % 8, if a[p] % 8 == 5 then p + 2 else p + 1;
      if q + n <= len { AgreeSlice(a, b, len, q, q + n); }
    }
  }

  lemma PduAgree(a: seq<byte>, b: seq<byte>, len: nat, invoke: byte, service: byte, err: ErrorInfo)
    requires Agree(a, b, len) && len >= 7
    ensures ParsePdu(a, len, invoke, service, err) == ParsePdu(b, len, invoke, service, err)
  {
    hide ReadEnum;
    EnumAgree(a, b, len, 9);
    EnumAgree(a, b, len, ReadEnum(a, len, 9).pos);
  }

  lemma IAmAgree(a: seq<byte>, b: seq<byte>, len: nat, pos: nat)
    requires Agree(a, b, len)
    ensures ReadIAm(a, len, pos) == ReadIAm(b, len, pos)
  {
    hide ReadAppUint;
    EnumAgree(a, b, len, pos);
    var o := ReadAppUint(a, len, pos, 12);
    if o.Got? {
      EnumAgree(a, b, len, o.pos);
      var n := ReadAppUint(a, len, o.pos, 2);
      if n.Got? {
        EnumAgree(a, b, len, n.pos);
        var s := ReadAppUint(a, len, n.pos, 9);
        if s.Got? { EnumAgree(a, b, len, s.pos); }
      }
    }
  }

  lemma IndexAgree(a: seq<byte>, b: seq<byte>, len: nat, pos: nat)
    requires Agree(a, b, len)
    ensures AfterIndex(a, len, pos) == AfterIndex(b, len, pos) && WrappedValue(a, len, pos) == WrappedValue(b, len, pos)
  {
    hide ReadContextUint, DecodeAppValue;
    ContextUintAgree(a, b, len, pos, 2);
    AppValueAgree(a, b, len, pos + 1);
  }

  /** Two receive buffers that hold the same complete frame: the length bytes and all it declares. */
  predicate SameFrame(a: seq<byte>, b: seq<byte>) {
    Agree(a, b, 4) && Total(a) <= |a| && Agree(a, b, Total(a))
  }

  /** A header is read alike, unless the frame declares fewer than 7 bytes and only one of the buffers
      has as many. */
  lemma HeaderAgree(a: seq<byte>, b: seq<byte>, invoke: byte, service: byte, err: ErrorInfo)
    requires SameFrame(a, b)
    ensures Total(a) == Total(b)
    ensures ParseHeader(a, invoke, service, err) == ParseHeader(b, invoke, service, err) <==>
              Total(a) >= 7 || (|a| < 7 <==> |b| < 7)
    ensures Total(a) < 7 ==>
              ParseHeader(a, invoke, service, err) == Header(if |a| < 7 then Incomplete else BadFrame, err)
  {
    hide ParsePdu;
    if Total(a) >= 7 { PduAgree(a, b, Total(a), invoke, service, err); }
  }

  lemma PropertyAckAgree(a: seq<byte>, b: seq<byte>, invoke: byte, property: nat,
                         expected: Option<ObjectId>, err: ErrorInfo)
    requires SameFrame(a, b) && Total(a) >= 7
    ensures ParseReadPropertyAck(a, invoke, property, expected, err)
        == ParseReadPropertyAck(b, invoke, property, expected, err)
  {
    hide ParseHeader, ReadContextUint, ReadContextObject, AfterIndex, WrappedValue;
    HeaderAgree(a, b, invoke, READ_PROPERTY, err);
    var len := Total(a);
    ContextUintAgree(a, b, len, 9, 0);
    var o := ReadContextObject(a, len, 9, 0);
    if o.Got? {
      ContextUintAgree(a, b, len, o.pos, 1);
      var p := ReadContextUint(a, len, o.pos, 1);
      if p.Got? {
        IndexAgree(a, b, len, p.pos);
        var i := AfterIndex(a, len, p.pos);
        if i.Got? { IndexAgree(a, b, len, i.pos); }
      }
    }
  }

  /** The four reply parsers on two receive buffers that hold the same frame. Nothing at or beyond the
      declared length is looked at, but a frame that declares less than a header's 7 bytes is called
      incomplete or malformed by how much else was received. */
  lemma ParsersAreLocal(a: seq<byte>, b: seq<byte>, invoke: byte, service: byte, property: nat,
                        out: seq<PropertyValue>, expected: Option<ObjectId>, asked: ObjectId, err: ErrorInfo)
    requires SameFrame(a, b)
    ensures var whole := Total(a) >= 7 || (|a| < 7 <==> |b| < 7);
            && (whole <==> ParseHeader(a, invoke, service, err) == ParseHeader(b, invoke, service, err))
            && (whole <==> ParseReadPropertyAck(a, invoke, property, expected, err) ==
                           ParseReadPropertyAck(b, invoke, property, expected, err))
            && (whole <==> ParseMultipleAck(a, invoke, out, expected, err) ==
                           ParseMultipleAck(b, invoke, out, expected, err))
    ensures FrameMatchesObject(a, invoke, service, asked) == FrameMatchesObject(b, invoke, service, asked)
  {
    HeaderAgree(a, b, invoke, service, err);
    HeaderAgree(a, b, invoke, service, ErrorInfo(0, 0, 0));
    HeaderAgree(a, b, invoke, READ_PROPERTY, err);
    HeaderAgree(a, b, invoke, READ_PROPERTY_MULTIPLE, err);
    HeaderAgree(b, a, invoke, service, err);
    HeaderAgree(b, a, invoke, service, ErrorInfo(0, 0, 0));
    HeaderAgree(b, a, invoke, READ_PROPERTY, err);
    HeaderAgree(b, a, invoke, READ_PROPERTY_MULTIPLE, err);
    if Total(a) >= 7 { PropertyAckAgree(a, b, invoke, property, expected, err); }
    ObjectsAgree(a, b, Total(a), 9, expected, out, 0);
    ContextUintAgree(a, b, Total(a), 9, 0);
    hide ParseHeader, ParseObjects, ReadContextObject, ReadContextUint, AfterIndex, WrappedValue;
  }

  /** The same for I-Am, whose parser asks for 12 bytes. */
  lemma IAmIsLocal(a: seq<byte>, b: seq<byte>)
    requires SameFrame(a, b)
    ensures ParseIAm(a) == ParseIAm(b) <==> Total(a) >= 12 || (|a| < 12 <==> |b| < 12)
  {
    if Total(a) >= 12 {
      IAmFrameAgree(a, b);
      hide ParseIAm;
    }
  }

  /** Four bytes that declare four: malformed with three more received, incomplete without. */
  lemma ShortHeaderDepends(invoke: byte, service: byte, err: ErrorInfo)
    ensures var a: seq<byte> := [BVLC, UNICAST, 0, 4];
            var b := a + [0, 0, 0];
            && SameFrame(a, b) && ParseHeader(a, invoke, service, err).parse == Incomplete
            && ParseHeader(b, invoke, service, err).parse == BadFrame
  {
  }

  /** An I-Am frame that declares 11 bytes, received alone and with one more byte. */
  lemma ShortIAmDepends()
    ensures var a: seq<byte> := [BVLC, UNICAST, 0, 11, NPDU, 0, 0x10, 0, 0xC4, 0, 0];
            var b := a + [0];
            SameFrame(a, b) && ParseIAm(a).parse == Incomplete && ParseIAm(b).parse == BadFrame
  {
  }

  lemma IAmFrameAgree(a: seq<byte>, b: seq<byte>)
    requires SameFrame(a, b) && Total(a) >= 12
    ensures ParseIAm(a) == ParseIAm(b)
  {
    hide ReadIAm;
    var at := AfterDestination(a, Total(a));
    if at.Some? { IAmAgree(a, b, Total(a), at.value + 2); }
  }

  /** A frame the ReadProperty parser accepts for an object is one the receive loop takes for it. */
  lemma AcceptedFramesMatch(buf: seq<byte>, invoke: byte, property: nat, expected: ObjectId, err: ErrorInfo)
    requires ParseReadPropertyAck(buf, invoke, property, Some(expected), err).parse.Ok?
    ensures FrameMatchesObject(buf, invoke, READ_PROPERTY, expected)
  {
    hide ReadContextUint, AfterIndex, WrappedValue, ReadError;
  }

  /** A ReadPropertyMultiple reply accepted for an object is taken for it exactly when it has any
      result: an empty acknowledgement is accepted by the parser and passed over by the receive loop. */
  lemma AcceptedMultipleMatches(buf: seq<byte>, invoke: byte, out: seq<PropertyValue>,
                                expected: ObjectId, err: ErrorInfo)
    requires ParseMultipleAck(buf, invoke, out, Some(expected), err).parse.Ok?
    ensures FrameMatchesObject(buf, invoke, READ_PROPERTY_MULTIPLE, expected) <==> Total(buf) > 9
  {
    hide ReadContextUint, ReadError, ParseProperties;
  }
}
