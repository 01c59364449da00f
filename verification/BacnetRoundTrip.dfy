/** What the encoders write, the parsers read back: requests, ReadProperty and ReadPropertyMultiple
    acknowledgements, and I-Am. */
module BacnetRoundTrip {
  import opened Basics
  import opened BacnetTags
  import opened BacnetFrames
  import opened BacnetWriter

  // ---- Requests --------------------------------------------------------------------------------

  lemma FrameTotal(invoke: byte, service: byte, body: seq<byte>)
    requires 10 + |body| < 0x1_0000
    ensures var f := Frame(invoke, service, body);
            |f| == 10 + |body| && Total(f) == |f| && f[8] == invoke && f[9] == service && At(f, 10, body)
  {
    AtWhole(RequestHead(10 + |body|, invoke, service), body);
  }

  predicate PlainObject(o: ObjectId) {
    o.kind < 1024 && o.instance <= INSTANCE_MASK
  }

  /** A built ReadProperty request reads back, through the context-tag readers, to its object,
      property and index, and ends there. */
  lemma ReadPropertyRequestBack(invoke: byte, o: ObjectId, property: uint32, index: Option<uint32>)
    requires PlainObject(o)
    ensures var f := Frame(invoke, READ_PROPERTY, PropertyBody(o.kind, o.instance, property, index));
            && Total(f) == |f| && f[8] == invoke && f[9] == READ_PROPERTY
            && ReadContextObject(f, |f|, 10, 0) == Got(o, 15)
            && var p := ReadContextUint(f, |f|, 15, 1);
            p.Got? && p.value == property &&
            if index.None? then p.pos == |f|
            else ReadContextUint(f, |f|, p.pos, 2) == Got(index.value, |f|)
  {
    hide ContextUint, ContextObject, ReadContextUint, ReadContextObject, RequestHead;
    var obj, prop := ContextObject(0, o.kind, o.instance), ContextUint(1, property);
    var idx := if index.Some? then ContextUint(2, index.value) else [];
    var body := PropertyBody(o.kind, o.instance, property, index);
    SmallBody(o.kind, o.instance, property, index);
    FrameTotal(invoke, READ_PROPERTY, body);
    var f := Frame(invoke, READ_PROPERTY, body);
    assert body == obj + (prop + idx);
    AtSplit(f, 10, obj, prop + idx);
    AtSplit(f, 15, prop, idx);
    ContextObjectBack(f, 10, 0, o);
    ContextUintBack(f, 15, 1, property);
    if index.Some? { ContextUintBack(f, 15 + |prop|, 2, index.value); }
  }

  /** Read context-tag-0 values until the closing tag 1. */
  function ReadList(f: seq<byte>, pos: nat): Got<seq<nat>>
    decreases |f| - pos
  {
    if pos >= |f| then Bad
    else if f[pos] == Closing(1) then Got([], pos + 1)
    else
      var r := ReadContextUint(f, |f|, pos, 0);
      if r.Bad? then Bad
      else
        var rest := ReadList(f, r.pos);
        if rest.Bad? then Bad else Got([r.value] + rest.value, rest.pos)
  }

  lemma {:induction false} ListOfConcat(ps: seq<uint32>)
    requires ps != []
    ensures PropertyList(ps) == ContextUint(0, ps[0]) + PropertyList(ps[1..])
  {
    hide ContextUint;
    var n := |ps| - 1;
    if n == 0 {
      assert ps[..0] == [] && ps[1..] == [];
    } else {
      ListOfConcat(ps[..n]);
      assert ps[..n][1..] == ps[1..][..n - 1];
      assert ps[1..][n - 1] == ps[n];
    }
  }

  lemma HeadByte(buf: seq<byte>, pos: nat, tag: nat, v: uint32)
    requires TagNumber(tag) && At(buf, pos, ContextUint(tag, v))
    ensures pos < |buf| && buf[pos] / 16 == tag && buf[pos] != Closing(1) && buf[pos] % 16 < 13
  {
    var head := TagByte(tag, 8 + ContextLen(v));
    assert ContextUint(tag, v)[0] == head;
    assert buf[pos..pos + |ContextUint(tag, v)|][0] == head;
  }

  lemma {:induction false} ReadListBack(f: seq<byte>, pos: nat, ps: seq<uint32>)
    requires At(f, pos, PropertyList(ps) + [Closing(1)])
    ensures var r := ReadList(f, pos);
            r.Got? && r.pos == pos + |PropertyList(ps)| + 1 && |r.value| == |ps| && forall i :: 0 <= i < |ps| ==>
                r.value[i] == ps[i]
    decreases |ps|
  {
    hide ContextUint, ReadContextUint, At;
    AtSplit(f, pos, PropertyList(ps), [Closing(1)]);
    AtByte(f, pos + |PropertyList(ps)|, Closing(1));
    if ps != [] {
      ListOfConcat(ps);
      var head, rest := ContextUint(0, ps[0]), PropertyList(ps[1..]);
      assert PropertyList(ps) + [Closing(1)] == head + (rest + [Closing(1)]);
      AtSplit(f, pos, head, rest + [Closing(1)]);
      HeadByte(f, pos, 0, ps[0]);
      ContextUintBack(f, pos, 0, ps[0]);
      ReadListBack(f, pos + |head|, ps[1..]);
    }
  }

  /** A built ReadPropertyMultiple request reads back to its object and its property list. */
  lemma ReadPropertyMultipleRequestBack(invoke: byte, o: ObjectId, ps: seq<uint32>)
    requires PlainObject(o) && 10 + |MultipleBody(o.kind, o.instance, ps)| < 0x1_0000
    ensures var f := Frame(invoke, READ_PROPERTY_MULTIPLE, MultipleBody(o.kind, o.instance, ps));
            && Total(f) == |f| && f[8] == invoke && f[9] == READ_PROPERTY_MULTIPLE
            && ReadContextObject(f, |f|, 10, 0) == Got(o, 15)
            && f[15] == Opening(1)
            && var r := ReadList(f, 16);
            r.Got? && r.pos == |f| && |r.value| == |ps| && forall i :: 0 <= i < |ps| ==> r.value[i] == ps[i]
  {
    hide ContextUint, ContextObject, ReadContextUint, ReadContextObject, RequestHead, PropertyList, ReadList;
    var obj, list := ContextObject(0, o.kind, o.instance), PropertyList(ps);
    var body := MultipleBody(o.kind, o.instance, ps);
    SmallBody(o.kind, o.instance, 0, None);
    FrameTotal(invoke, READ_PROPERTY_MULTIPLE, body);
    var f := Frame(invoke, READ_PROPERTY_MULTIPLE, body);
    assert body == obj + ([Opening(1)] + (list + [Closing(1)]));
    AtSplit(f, 10, obj, [Opening(1)] + (list + [Closing(1)]));
    AtSplit(f, 15, [Opening(1)], list + [Closing(1)]);
    AtByte(f, 15, Opening(1));
    ContextObjectBack(f, 10, 0, o);
    ReadListBack(f, 16, ps);
  }

  // ---- Acknowledgements ------------------------------------------------------------------------

  function Ack(invoke: byte, service: byte, body: seq<byte>): seq<byte> {
    var total := 9 + |body|;
    [BVLC, UNICAST, total / 256 % 256, total % 256, NPDU, 0, COMPLEX_ACK, invoke, service] + body
  }

  lemma AckHeader(invoke: byte, service: byte, body: seq<byte>, err: ErrorInfo)
    requires 9 + |body| < 0x1_0000
    ensures var f := Ack(invoke, service, body);
            && ParseHeader(f, invoke, service, err) == Header(Ok, err)
            && |f| == 9 + |body| && Declared(f) == f && At(f, 9, body)
  {
    var total := 9 + |body|;
    AtWhole([BVLC, UNICAST, total / 256 % 256, total % 256, NPDU, 0, COMPLEX_ACK, invoke, service], body);
  }

  /** A ReadProperty acknowledgement of an encodable value, with or without an array index. */
  function PropertyAckBody(o: ObjectId, property: uint32, index: Option<uint32>, v: Value): seq<byte>
    requires Encodable(v)
  {
    PropertyBody(o.kind, o.instance, property, index) + ([Opening(3)] + AppValue(v) + [Closing(3)])
  }

  lemma WrappedValueBack(f: seq<byte>, pos: nat, v: Value)
    requires Encodable(v) && At(f, pos, [Opening(3)] + AppValue(v) + [Closing(3)])
    ensures WrappedValue(f, |f|, pos) == Got(v, pos + 1 + |AppValue(v)|)
  {
    hide DecodeAppValue, AppValue;
    assert [Opening(3)] + AppValue(v) + [Closing(3)] == [Opening(3)] + (AppValue(v) + [Closing(3)]);
    AtSplit(f, pos, [Opening(3)], AppValue(v) + [Closing(3)]);
    AtSplit(f, pos + 1, AppValue(v), [Closing(3)]);
    AtByte(f, pos, Opening(3));
    AtByte(f, pos + 1 + |AppValue(v)|, Closing(3));
    AppValueBack(f, pos + 1, v);
  }

  lemma AfterIndexBack(f: seq<byte>, pos: nat, index: Option<uint32>, rest: seq<byte>)
    requires At(f, pos, (if index.Some? then ContextUint(2, index.value) else []) + rest)
    requires rest != [] && rest[0] == Opening(3)
    ensures AfterIndex(f, |f|, pos) == Got((), pos + if index.Some? then |ContextUint(2, index.value)| else 0)
  {
    hide ContextUint, ReadContextUint;
    if index.Some? {
      AtSplit(f, pos, ContextUint(2, index.value), rest);
      HeadByte(f, pos, 2, index.value);
      ContextBit(f, pos, 2, index.value);
      ContextUintBack(f, pos, 2, index.value);
    } else {
      assert [] + rest == rest;
      assert f[pos..pos + |rest|][0] == Opening(3);
    }
  }

  lemma ContextBit(buf: seq<byte>, pos: nat, tag: nat, v: uint32)
    requires TagNumber(tag) && At(buf, pos, ContextUint(tag, v))
    ensures buf[pos] / 8 % 2 == 1
  {
    var head := TagByte(tag, 8 + ContextLen(v));
    assert ContextUint(tag, v)[0] == head;
    assert buf[pos..pos + |ContextUint(tag, v)|][0] == head;
    SplitTagByte(tag, 8 + ContextLen(v));
  }

  function IndexPart(index: Option<uint32>): seq<byte> {
    if index.Some? then ContextUint(2, index.value) else []
  }

  /** Where the parts of an acknowledgement's body lie. */
  lemma AckBodyParts(f: seq<byte>, o: ObjectId, property: uint32, index: Option<uint32>, v: Value)
    requires PlainObject(o) && Encodable(v) && At(f, 9, PropertyAckBody(o, property, index, v))
    ensures var wrapped, p := [Opening(3)] + AppValue(v) + [Closing(3)], 14 + |ContextUint(1, property)|;
      && At(f, 9, ContextObject(0, o.kind, o.instance)) && At(f, 14, ContextUint(1, property))
      && At(f, p, IndexPart(index) + wrapped) && At(f, p + |IndexPart(index)|, wrapped)
  {
    hide ContextUint, ContextObject, AppValue, At;
    var obj, prop, idx := ContextObject(0, o.kind, o.instance), ContextUint(1, property), IndexPart(index);
    var wrapped := [Opening(3)] + AppValue(v) + [Closing(3)];
    assert PropertyAckBody(o, property, index, v) == obj + (prop + (idx + wrapped));
    AtSplit(f, 9, obj, prop + (idx + wrapped));
    ObjectSize(o);
    AtSplit(f, 14, prop, idx + wrapped);
    AtSplit(f, 14 + |prop|, idx, wrapped);
  }

  lemma ObjectSize(o: ObjectId)
    ensures |ContextObject(0, o.kind, o.instance)| == 5
  {
  }

  lemma ReadPropertyAckBack(invoke: byte, o: ObjectId, property: uint32, index: Option<uint32>, v: Value,
                            expected: Option<ObjectId>, err: ErrorInfo)
    requires PlainObject(o) && Encodable(v) && Answers(o, expected)
    ensures ParseReadPropertyAck(Ack(invoke, READ_PROPERTY, PropertyAckBody(o, property, index, v)), invoke, property,
        expected, err)
            == PropertyAck(Ok, Some(v), err)
  {
    hide ContextUint, ContextObject, ReadContextUint, ReadContextObject, AfterIndex, WrappedValue, AppValue,
        ParseHeader, Ack, At, PropertyAckBody;
    var body := PropertyAckBody(o, property, index, v);
    AckBodySize(o, property, index, v);
    AckHeader(invoke, READ_PROPERTY, body, err);
    var f := Ack(invoke, READ_PROPERTY, body);
    AckBodyParts(f, o, property, index, v);
    ContextObjectBack(f, 9, 0, o);
    ContextUintBack(f, 14, 1, property);
    AfterIndexBack(f, 14 + |ContextUint(1, property)|, index, [Opening(3)] + AppValue(v) + [Closing(3)]);
    WrappedValueBack(f, 14 + |ContextUint(1, property)| + |IndexPart(index)|, v);
  }

  lemma AckBodySize(o: ObjectId, property: uint32, index: Option<uint32>, v: Value)
    requires Encodable(v)
    ensures |PropertyAckBody(o, property, index, v)| < 1000
  {
    SmallBody(o.kind, o.instance, property, index);
    SmallValue(v);
    hide AppValue, PropertyBody;
  }

  lemma SmallValue(v: Value)
    requires Encodable(v)
    ensures |AppValue(v)| <= 66
  {
    AppValueParts(v);
  }

  // ---- ReadPropertyMultiple --------------------------------------------------------------------

  /** One property result on the wire. */
  datatype Entry = ValueEntry(property: uint32, value: Value) | ErrorEntry(property: uint32, cls: byte, code: byte)

  predicate EntryOk(e: Entry) {
    e.ValueEntry? ==> Encodable(e.value)
  }

  predicate EntriesOk(es: seq<Entry>) {
    forall i :: 0 <= i < |es| ==> EntryOk(es[i])
  }

  function EntryTail(e: Entry): seq<byte>
    requires EntryOk(e)
  {
    match e
    case ValueEntry(_, v) => [Opening(4)] + (AppValue(v) + [Closing(4)])
    case ErrorEntry(_, cls, code) => [Opening(5)] + (ContextUint(0, cls) + (ContextUint(1, code) + [Closing(5)]))
  }

  function EntryBytes(e: Entry): seq<byte>
    requires EntryOk(e)
  {
    ContextUint(2, e.property) + EntryTail(e)
  }

  function EntriesBytes(es: seq<Entry>): seq<byte>
    requires EntriesOk(es)
  {
    if es == [] then [] else EntryBytes(es[0]) + EntriesBytes(es[1..])
  }

  /** What parsing an entry makes of the output slot it lands in. */
  function Applied(slot: PropertyValue, o: ObjectId, e: Entry): PropertyValue {
    match e
    case ValueEntry(p, v) => slot.(obj := o, property := p, value := v)
    case ErrorEntry(p, cls, code) => slot.(obj := o, property := p, error := true,
        info := slot.info.(cls := cls, code := code))
  }

  lemma ErrorTailBack(f: seq<byte>, pos: nat, cls: byte, code: byte)
    requires At(f, pos, ContextUint(0, cls) + (ContextUint(1, code) + [Closing(5)]))
    ensures ReadAccessError(f, |f|, pos) == Got((cls, code), pos + |ContextUint(0, cls)| + |ContextUint(1, code)| + 1)
  {
    hide ContextUint, ReadContextUint;
    var a, b := ContextUint(0, cls), ContextUint(1, code);
    AtSplit(f, pos, a, b + [Closing(5)]);
    AtSplit(f, pos + |a|, b, [Closing(5)]);
    AtByte(f, pos + |a| + |b|, Closing(5));
    ContextUintBack(f, pos, 0, cls);
    ContextUintBack(f, pos + |a|, 1, code);
  }

  lemma EntryBack(f: seq<byte>, pos: nat, o: ObjectId, slot: PropertyValue, e: Entry)
    requires EntryOk(e) && At(f, pos, EntryBytes(e))
    ensures ReadPropertyResult(f, |f|, pos, o, slot) == Got(Applied(slot, o, e), pos + |EntryBytes(e)|)
    ensures pos < |f| && f[pos] != Closing(1)
  {
    hide ContextUint, ReadPropertyResult, At, EntryTail, Applied;
    AtSplit(f, pos, ContextUint(2, e.property), EntryTail(e));
    HeadByte(f, pos, 2, e.property);
    if e.ValueEntry? { ValueEntryBack(f, pos, o, slot, e); } else { ErrorEntryBack(f, pos, o, slot, e); }
  }

  lemma ValueEntryBack(f: seq<byte>, pos: nat, o: ObjectId, slot: PropertyValue, e: Entry)
    requires e.ValueEntry? && EntryOk(e)
    requires At(f, pos, ContextUint(2, e.property)) && At(f, pos + |ContextUint(2, e.property)|, EntryTail(e))
    ensures ReadPropertyResult(f, |f|, pos, o, slot) == Got(Applied(slot, o, e), pos + |EntryBytes(e)|)
  {
    hide ContextUint, ReadContextUint, DecodeAppValue, AppValue, ReadAccessError, At;
    ContextUintBack(f, pos, 2, e.property);
    var q, v := pos + |ContextUint(2, e.property)|, e.value;
    AtSplit(f, q, [Opening(4)], AppValue(v) + [Closing(4)]);
    AtByte(f, q, Opening(4));
    AtSplit(f, q + 1, AppValue(v), [Closing(4)]);
    AtByte(f, q + 1 + |AppValue(v)|, Closing(4));
    AppValueBack(f, q + 1, v);
  }

  lemma ErrorEntryBack(f: seq<byte>, pos: nat, o: ObjectId, slot: PropertyValue, e: Entry)
    requires e.ErrorEntry?
    requires At(f, pos, ContextUint(2, e.property)) && At(f, pos + |ContextUint(2, e.property)|, EntryTail(e))
    ensures ReadPropertyResult(f, |f|, pos, o, slot) == Got(Applied(slot, o, e), pos + |EntryBytes(e)|)
  {
    hide ContextUint, ReadContextUint, DecodeAppValue, ReadAccessError, At;
    ContextUintBack(f, pos, 2, e.property);
    var q := pos + |ContextUint(2, e.property)|;
    AtSplit(f, q, [Opening(5)], ContextUint(0, e.cls) + (ContextUint(1, e.code) + [Closing(5)]));
    AtByte(f, q, Opening(5));
    ErrorTailBack(f, q + 1, e.cls, e.code);
  }

  /** Fill the slots from `count` on with entries. */
  function Fill(out: seq<PropertyValue>, count: nat, o: ObjectId, es: seq<Entry>): (r: seq<PropertyValue>)
    requires count + |es| <= |out|
    ensures |r| == |out|
    decreases |es|
  {
    if es == [] then out else Fill(out[count := Applied(out[count], o, es[0])], count + 1, o, es[1..])
  }

  lemma {:induction false} EntriesBack(f: seq<byte>, pos: nat, o: ObjectId,
      out: seq<PropertyValue>, count: nat, es: seq<Entry>)
    requires EntriesOk(es) && count + |es| <= |out| && At(f, pos, EntriesBytes(es) + [Closing(1)])
    ensures ParseProperties(f, |f|, pos, o, out, count)
            == Results(Ok, Fill(out, count, o, es), count + |es|, pos + |EntriesBytes(es)| + 1)
    decreases |es|
  {
    hide EntryBytes, ReadPropertyResult, Applied;
    AtSplit(f, pos, EntriesBytes(es), [Closing(1)]);
    AtByte(f, pos + |EntriesBytes(es)|, Closing(1));
    if es != [] {
      var head, rest := EntryBytes(es[0]), EntriesBytes(es[1..]);
      assert EntriesBytes(es) + [Closing(1)] == head + (rest + [Closing(1)]);
      AtSplit(f, pos, head, rest + [Closing(1)]);
      EntryBack(f, pos, o, out[count], es[0]);
      EntriesBack(f, pos + |head|, o, out[count := Applied(out[count], o, es[0])], count + 1, es[1..]);
    }
  }

  /** Results grouped by object, as the service returns them. */
  datatype Group = Group(o: ObjectId, entries: seq<Entry>)

  predicate GroupsOk(gs: seq<Group>, expected: Option<ObjectId>) {
    forall i :: 0 <= i < |gs| ==> PlainObject(gs[i].o) && Answers(gs[i].o, expected) && EntriesOk(gs[i].entries)
  }

  function GroupBytes(g: Group): seq<byte>
    requires EntriesOk(g.entries)
  {
    ContextObject(0, g.o.kind, g.o.instance) + ([Opening(1)] + (EntriesBytes(g.entries) + [Closing(1)]))
  }

  function GroupsBytes(gs: seq<Group>, expected: Option<ObjectId>): seq<byte>
    requires GroupsOk(gs, expected)
  {
    if gs == [] then [] else GroupBytes(gs[0]) + GroupsBytes(gs[1..], expected)
  }

  function EntryCount(gs: seq<Group>): nat {
    if gs == [] then 0 else |gs[0].entries| + EntryCount(gs[1..])
  }

  function FillGroups(out: seq<PropertyValue>, count: nat, gs: seq<Group>): (r: seq<PropertyValue>)
    requires count + EntryCount(gs) <= |out|
    ensures |r| == |out|
    decreases |gs|
  {
    if gs == [] then out
    else FillGroups(Fill(out, count, gs[0].o, gs[0].entries), count + |gs[0].entries|, gs[1..])
  }

  lemma {:induction false} GroupsBack(f: seq<byte>, pos: nat,
      expected: Option<ObjectId>, out: seq<PropertyValue>, count: nat, gs: seq<Group>)
    requires GroupsOk(gs, expected) && count + EntryCount(gs) <= |out|
    requires At(f, pos, GroupsBytes(gs, expected)) && pos + |GroupsBytes(gs, expected)| == |f|
    ensures var r := ParseObjects(f, |f|, pos, expected, out, count);
            r.parse == Ok && r.out == FillGroups(out, count, gs) && r.count == count + EntryCount(gs)
    decreases |gs|
  {
    hide ContextObject, ReadContextObject, EntriesBytes, ParseProperties, Fill, EntriesOk, At, GroupBytes;
    if gs != [] {
      var g := gs[0];
      var props := EntriesBytes(g.entries) + [Closing(1)];
      var rest := GroupsBytes(gs[1..], expected);
      GroupParts(f, pos, g, rest);
      GroupStep(f, pos, expected, out, count, g, rest);
      EntriesBack(f, pos + 6, g.o, out, count, g.entries);
      GroupsBack(f, pos + 6 + |props|, expected, Fill(out, count, g.o, g.entries), count + |g.entries|, gs[1..]);
    }
  }

  lemma GroupParts(f: seq<byte>, pos: nat, g: Group, rest: seq<byte>)
    requires PlainObject(g.o) && EntriesOk(g.entries) && At(f, pos, GroupBytes(g) + rest)
    ensures ReadContextObject(f, |f|, pos, 0) == Got(g.o, pos + 5)
    ensures pos + 5 < |f| && f[pos + 5] == Opening(1)
    ensures var props := EntriesBytes(g.entries) + [Closing(1)];
            At(f, pos + 6, props) && At(f, pos + 6 + |props|, rest) && |GroupBytes(g)| == 6 + |props|
  {
    hide ContextObject, ReadContextObject, EntriesBytes, EntriesOk, At;
    var obj := ContextObject(0, g.o.kind, g.o.instance);
    SmallBody(g.o.kind, g.o.instance, 0, None);
    var props := EntriesBytes(g.entries) + [Closing(1)];
    AtSplit(f, pos, GroupBytes(g), rest);
    AtSplit(f, pos, obj, [Opening(1)] + props);
    AtSplit(f, pos + 5, [Opening(1)], props);
    AtByte(f, pos + 5, Opening(1));
    ContextObjectBack(f, pos, 0, g.o);
  }

  /** Any list of property results that fits the output parses back entry by entry, over whatever the
      output slots held. */
  lemma MultipleAckBack(invoke: byte,
      gs: seq<Group>, expected: Option<ObjectId>, out: seq<PropertyValue>, err: ErrorInfo)
    requires GroupsOk(gs, expected) && EntryCount(gs) <= |out| && 9 + |GroupsBytes(gs, expected)| < 0x1_0000
    ensures ParseMultipleAck(Ack(invoke, READ_PROPERTY_MULTIPLE, GroupsBytes(gs, expected)), invoke, out, expected, err)
            == MultipleAck(Ok, FillGroups(out, 0, gs), EntryCount(gs), err)
  {
    hide GroupsBytes, ParseHeader, ParseObjects, FillGroups, Ack, GroupsOk;
    var body := GroupsBytes(gs, expected);
    AckHeader(invoke, READ_PROPERTY_MULTIPLE, body, err);
    GroupsBack(Ack(invoke, READ_PROPERTY_MULTIPLE, body), 9, expected, out, 0, gs);
  }

  /** An acknowledgement without results: the parser accepts it, the receive loop does not take it. */
  lemma EmptyAckPassedOver(invoke: byte, expected: ObjectId, out: seq<PropertyValue>, err: ErrorInfo)
    ensures var f := Ack(invoke, READ_PROPERTY_MULTIPLE, []);
            && ParseMultipleAck(f, invoke, out, Some(expected), err) == MultipleAck(Ok, out, 0, err)
            && !FrameMatchesObject(f, invoke, READ_PROPERTY_MULTIPLE, expected)
  {
    hide ParseMultipleAck, FrameMatchesObject, Ack, ParseHeader;
    MultipleAckBack(invoke, [], Some(expected), out, err);
    AckHeader(invoke, READ_PROPERTY_MULTIPLE, [], err);
    var f := Ack(invoke, READ_PROPERTY_MULTIPLE, []);
    assert Total(f) == 9;
    AcceptedMultipleMatches(f, invoke, out, expected, err);
  }

  // ---- What the caller reads from the slots ----------------------------------------------------

  /** The slot says what the entry said. */
  predicate ReadsAs(pv: PropertyValue, o: ObjectId, e: Entry) {
    && pv.obj == o && pv.property == e.property
    && match e
       case ValueEntry(_, v) => !pv.error && pv.value == v
       case ErrorEntry(_, cls, code) => pv.error && pv.info.cls == cls && pv.info.code == code
  }

  /** The results as one list of object and entry. */
  function Flat(gs: seq<Group>): seq<(ObjectId, Entry)> {
    if gs == [] then []
    else
      var es := gs[0].entries;
      seq(|es|, i requires 0 <= i < |es| => (gs[0].o, es[i])) + Flat(gs[1..])
  }

  lemma {:induction false} FillSlots(out: seq<PropertyValue>, count: nat, o: ObjectId, es: seq<Entry>)
    requires count + |es| <= |out|
    ensures forall k :: 0 <= k < |out| ==>
              Fill(out, count, o, es)[k] ==
              if count <= k < count + |es| then Applied(out[k], o, es[k - count]) else out[k]
    decreases |es|
  {
    hide Applied;
    if es != [] {
      var next := out[count := Applied(out[count], o, es[0])];
      FillSlots(next, count + 1, o, es[1..]);
    }
  }

  lemma {:induction false} FlatLength(gs: seq<Group>)
    ensures |Flat(gs)| == EntryCount(gs)
  {
    if gs != [] { FlatLength(gs[1..]); }
  }

  lemma {:induction false} FillGroupsSlots(out: seq<PropertyValue>, count: nat, gs: seq<Group>)
    requires count + EntryCount(gs) <= |out|
    ensures |Flat(gs)| == EntryCount(gs)
    ensures forall k :: 0 <= k < |out| ==>
              FillGroups(out, count, gs)[k] ==
              if count <= k < count + EntryCount(gs) then Applied(out[k], Flat(gs)[k - count].0, Flat(gs)[k - count].1)
                  else out[k]
    decreases |gs|
  {
    hide Applied, Fill;
    FlatLength(gs);
    if gs != [] {
      var g := gs[0];
      var next := Fill(out, count, g.o, g.entries);
      FillSlots(out, count, g.o, g.entries);
      FlatLength(gs[1..]);
      FillGroupsSlots(next, count + |g.entries|, gs[1..]);
    }
  }

  /** The round trip for the caller: the parsed slots read as exactly the list that was sent if and
      only if every slot a value lands in came in with its error flag clear. The parser sets that
      flag but never clears it, so a reused output buffer keeps a stale error. */
  lemma MultipleAckReadsBack(invoke: byte,
      gs: seq<Group>, expected: Option<ObjectId>, out: seq<PropertyValue>, err: ErrorInfo)
    requires GroupsOk(gs, expected) && EntryCount(gs) <= |out| && 9 + |GroupsBytes(gs, expected)| < 0x1_0000
    ensures |Flat(gs)| == EntryCount(gs)
    ensures var r := ParseMultipleAck(Ack(invoke, READ_PROPERTY_MULTIPLE, GroupsBytes(gs, expected)), invoke, out,
        expected, err);
            && r.parse == Ok && r.count == EntryCount(gs)
            && ((forall k :: 0 <= k < r.count ==> ReadsAs(r.out[k], Flat(gs)[k].0, Flat(gs)[k].1)) <==>
                (forall k :: 0 <= k < r.count && Flat(gs)[k].1.ValueEntry? ==> !out[k].error))
  {
    hide GroupsBytes, ParseMultipleAck, Flat, FillGroups, GroupsOk, EntryCount;
    MultipleAckBack(invoke, gs, expected, out, err);
    FillGroupsSlots(out, 0, gs);
    var flat := Flat(gs);
    var got := FillGroups(out, 0, gs);
    forall k | 0 <= k < |flat|
      ensures ReadsAs(got[k], flat[k].0, flat[k].1) <==> (flat[k].1.ValueEntry? ==> !out[k].error)
    {
      assert got[k] == Applied(out[k], flat[k].0, flat[k].1);
    }
  }

  /** One object's results that do not all fit: those that do are stored. */
  lemma {:induction false} EntriesOverflow(f: seq<byte>, pos: nat, o: ObjectId,
      out: seq<PropertyValue>, count: nat, es: seq<Entry>)
    requires EntriesOk(es) && count <= |out| < count + |es| && At(f, pos, EntriesBytes(es) + [Closing(1)])
    ensures var r := ParseProperties(f, |f|, pos, o, out, count);
            && r.parse == Unsupported && r.count == |out|
            && forall k :: 0 <= k < |out| ==>
                r.out[k] == if count <= k then Applied(out[k], o, es[k - count]) else out[k]
    decreases |es|
  {
    hide EntryBytes, ReadPropertyResult, Applied, At;
    var head, rest := EntryBytes(es[0]), EntriesBytes(es[1..]);
    assert EntriesBytes(es) + [Closing(1)] == head + (rest + [Closing(1)]);
    AtSplit(f, pos, head, rest + [Closing(1)]);
    var slot := if count < |out| then out[count] else NO_PROPERTY;
    EntryBack(f, pos, o, slot, es[0]);
    if count < |out| {
      var next := out[count := Applied(slot, o, es[0])];
      EntriesOverflow(f, pos + |head|, o, next, count + 1, es[1..]);
    }
  }

  /** The slots after `count` hold the first entries of the list. */
  predicate HoldsFirst(was: seq<PropertyValue>, now: seq<PropertyValue>, count: nat, flat: seq<(ObjectId, Entry)>) {
    && |now| == |was| && |was| <= count + |flat|
    && forall k :: 0 <= k < |was| ==>
        now[k] == if count <= k then Applied(was[k], flat[k - count].0, flat[k - count].1) else was[k]
  }

  lemma FirstGroupHeld(out: seq<PropertyValue>, now: seq<PropertyValue>, count: nat, gs: seq<Group>)
    requires gs != [] && count + |gs[0].entries| <= |out|
    requires HoldsFirst(Fill(out, count, gs[0].o, gs[0].entries), now, count + |gs[0].entries|, Flat(gs[1..]))
    ensures HoldsFirst(out, now, count, Flat(gs))
  {
    hide Applied, Fill;
    FillSlots(out, count, gs[0].o, gs[0].entries);
  }

  lemma LastGroupHeld(out: seq<PropertyValue>, now: seq<PropertyValue>, count: nat, gs: seq<Group>)
    requires gs != [] && |now| == |out| <= count + |gs[0].entries|
    requires forall k :: 0 <= k < |out| ==>
        now[k] == if count <= k then Applied(out[k], gs[0].o, gs[0].entries[k - count]) else out[k]
    ensures HoldsFirst(out, now, count, Flat(gs))
  {
    hide Applied;
  }

  /** Parsing one group, then the rest. */
  lemma GroupStep(f: seq<byte>, pos: nat,
      expected: Option<ObjectId>, out: seq<PropertyValue>, count: nat, g: Group, rest: seq<byte>)
    requires PlainObject(g.o) && Answers(g.o, expected) && EntriesOk(g.entries) && At(f, pos, GroupBytes(g) + rest)
    ensures var p := ParseProperties(f, |f|, pos + 6, g.o, out, count);
            ParseObjects(f, |f|, pos, expected, out, count)
            == if p.parse.Ok? then ParseObjects(f, |f|, p.pos, expected, p.out, p.count) else p
  {
    hide ReadContextObject, ParseProperties, EntriesOk, At, GroupBytes, Answers;
    GroupParts(f, pos, g, rest);
  }

  lemma {:induction false} GroupsOverflow(f: seq<byte>, pos: nat,
      expected: Option<ObjectId>, out: seq<PropertyValue>, count: nat, gs: seq<Group>)
    requires GroupsOk(gs, expected) && count <= |out| < count + EntryCount(gs)
    requires At(f, pos, GroupsBytes(gs, expected)) && pos + |GroupsBytes(gs, expected)| == |f|
    ensures var r := ParseObjects(f, |f|, pos, expected, out, count);
            r.parse == Unsupported && r.count == |out| && HoldsFirst(out, r.out, count, Flat(gs))
    decreases |gs|
  {
    hide EntriesBytes, ParseProperties, EntriesOk, At, Applied, Fill, ParseObjects, HoldsFirst, Flat, GroupBytes;
    var g := gs[0];
    var props := EntriesBytes(g.entries) + [Closing(1)];
    var rest := GroupsBytes(gs[1..], expected);
    GroupParts(f, pos, g, rest);
    GroupStep(f, pos, expected, out, count, g, rest);
    var r := ParseObjects(f, |f|, pos, expected, out, count);
    if count + |g.entries| <= |out| {
      EntriesBack(f, pos + 6, g.o, out, count, g.entries);
      GroupsOverflow(f, pos + 6 + |props|, expected, Fill(out, count, g.o, g.entries), count + |g.entries|, gs[1..]);
      FirstGroupHeld(out, r.out, count, gs);
    } else {
      EntriesOverflow(f, pos + 6, g.o, out, count, g.entries);
      LastGroupHeld(out, r.out, count, gs);
    }
  }

  /** A list of results longer than the output, over any number of objects: the parser reports it as
      unsupported, with the output full of the first results. */
  lemma MultipleAckOverflow(invoke: byte,
      gs: seq<Group>, expected: Option<ObjectId>, out: seq<PropertyValue>, err: ErrorInfo)
    requires GroupsOk(gs, expected) && EntryCount(gs) > |out| && 9 + |GroupsBytes(gs, expected)| < 0x1_0000
    ensures var r := ParseMultipleAck(Ack(invoke, READ_PROPERTY_MULTIPLE, GroupsBytes(gs, expected)), invoke, out,
        expected, err);
            r.parse == Unsupported && r.count == |out| && HoldsFirst(out, r.out, 0, Flat(gs))
  {
    hide GroupsBytes, ParseHeader, ParseObjects, Ack, GroupsOk, Flat, HoldsFirst;
    var body := GroupsBytes(gs, expected);
    AckHeader(invoke, READ_PROPERTY_MULTIPLE, body, err);
    GroupsOverflow(Ack(invoke, READ_PROPERTY_MULTIPLE, body), 9, expected, out, 0, gs);
  }

  /** Concretely: one present-value of 7 parsed into a slot left over from an error. */
  lemma StaleErrorSurvives(invoke: byte, err: ErrorInfo)
    ensures var e := ValueEntry(85, Unsigned(7));
            var gs := [Group(ObjectId(0, 1), [e])];
            && GroupsOk(gs, None)
            && var r := ParseMultipleAck(Ack(invoke, READ_PROPERTY_MULTIPLE, GroupsBytes(gs, None)), invoke,
                                         [NO_PROPERTY.(error := true)], None, err);
            r.parse == Ok && r.count == 1 && r.out[0].error && r.out[0].value == Unsigned(7)
  {
    hide ParseMultipleAck, EntriesBytes;
    var e := ValueEntry(85, Unsigned(7));
    var gs := [Group(ObjectId(0, 1), [e])];
    var out := [NO_PROPERTY.(error := true)];
    assert gs[1..] == [];
    OneGroupSmall(e);
    MultipleAckBack(invoke, gs, None, out, err);
    FillGroupsSlots(out, 0, gs);
    assert Flat(gs)[0] == (ObjectId(0, 1), e);
  }

  lemma OneGroupSmall(e: Entry)
    requires EntryOk(e)
    ensures |GroupsBytes([Group(ObjectId(0, 1), [e])], None)| < 200
  {
    hide AppValue, ContextUint, ContextObject;
    var g := Group(ObjectId(0, 1), [e]);
    assert [g][1..] == [] && [e][1..] == [];
    SmallBody(0, 1, e.property, None);
    ContextSize(2, e.property);
    if e.ValueEntry? {
      SmallValue(e.value);
    } else {
      ContextSize(0, e.cls);
      ContextSize(1, e.code);
    }
    assert EntriesBytes([e]) == EntryBytes(e) + [];
    assert GroupsBytes([g], None) == GroupBytes(g) + [];
  }

  lemma ContextSize(tag: nat, v: uint32)
    requires TagNumber(tag)
    ensures |ContextUint(tag, v)| <= 5
  {
  }

  // ---- I-Am ------------------------------------------------------------------------------------

  lemma {:induction false} ReadAppUintBack(f: seq<byte>, pos: nat, tag: nat, contents: seq<byte>)
    requires TagNumber(tag) && 1 <= |contents| <= 4 && At(f, pos, AppTag(tag, |contents|) + contents)
    ensures ReadAppUint(f, |f|, pos, tag) == Got(ReadBe(contents), pos + 1 + |contents|)
  {
    hide ReadBe, TagByte;
    var head := TagByte(tag, |contents|);
    AtSplit(f, pos, [head], contents);
    AtByte(f, pos, head);
    SplitTagByte(tag, |contents|);
  }

  predicate IAmEncodable(iam: IAm) {
    && iam.maxApdu < 0x1_0000_0000 && iam.segmentation < 0x1_0000_0000 && iam.vendor < 0x1_0000_0000
    && iam.device <= INSTANCE_MASK
  }

  function IAmBody(iam: IAm): seq<byte>
    requires IAmEncodable(iam)
  {
    AppValue(Oid(ObjectId(DEVICE, iam.device))) +
    (AppValue(Unsigned(iam.maxApdu)) + (AppValue(Enumerated(iam.segmentation)) + AppValue(Unsigned(iam.vendor))))
  }

  function IAmHead(source: byte, total: nat): seq<byte> {
    [BVLC, source, total / 256 % 256, total % 256, NPDU, 0, 0x10, 0]
  }

  function IAmFrame(source: byte, iam: IAm): seq<byte>
    requires IAmEncodable(iam)
  {
    IAmHead(source, 8 + |IAmBody(iam)|) + IAmBody(iam)
  }

  lemma UintBack(f: seq<byte>, pos: nat, v: Value)
    requires (v.Unsigned? || v.Enumerated?) && At(f, pos, AppValue(v))
    ensures var u := if v.Unsigned? then v.u else v.e;
            ReadAppUint(f, |f|, pos, ValueTag(v)) == Got(u, pos + |AppValue(v)|)
    ensures 2 <= |AppValue(v)| <= 5
  {
    var u := if v.Unsigned? then v.u else v.e;
    ContextLenFits(u);
    ReadBeOfBe(u, AppLen(u));
    ReadAppUintBack(f, pos, ValueTag(v), Be(u, AppLen(u)));
  }

  lemma DeviceBack(f: seq<byte>, pos: nat, device: nat)
    requires device <= INSTANCE_MASK && At(f, pos, AppValue(Oid(ObjectId(DEVICE, device))))
    ensures var r := ReadAppUint(f, |f|, pos, 12);
            r.Got? && r.value / 0x40_0000 == DEVICE && r.value % 0x40_0000 == device && r.pos == pos + 5
    ensures |AppValue(Oid(ObjectId(DEVICE, device)))| == 5
  {
    hide ReadAppUint;
    var w := ObjectWord(DEVICE, device);
    Powers();
    ReadBeOfBe(w, 4);
    ReadAppUintBack(f, pos, 12, Be(w, 4));
    WordBack(ObjectId(DEVICE, device));
  }

  /** An I-Am built from the writer's encoders, unicast or broadcast, is read back whole. */
  lemma IAmBack(source: byte, iam: IAm)
    requires IAmEncodable(iam)
    requires source == UNICAST || source == BROADCAST
    ensures ParseIAm(IAmFrame(source, iam)) == IAmResult(Ok, Some(iam))
  {
    hide IAmBody, ReadIAm, At;
    var body := IAmBody(iam);
    var f := IAmFrame(source, iam);
    var total := 8 + |body|;
    AtWhole(IAmHead(source, total), body);
    ReadIAmBack(f, 8, iam);
    assert Total(f) == |f| && Declared(f) == f;
  }

  lemma ReadIAmBack(f: seq<byte>, pos: nat, iam: IAm)
    requires IAmEncodable(iam)
    requires At(f, pos, IAmBody(iam))
    ensures ReadIAm(f, |f|, pos) == Some(iam)
    ensures 11 <= |IAmBody(iam)| <= 20
  {
    hide AppValue, ReadAppUint, At;
    var d, a, s, v := AppValue(Oid(ObjectId(DEVICE, iam.device))), AppValue(Unsigned(iam.maxApdu)),
                      AppValue(Enumerated(iam.segmentation)), AppValue(Unsigned(iam.vendor));
    AtSplit(f, pos, d, a + (s + v));
    DeviceBack(f, pos, iam.device);
    AtSplit(f, pos + 5, a, s + v);
    AtSplit(f, pos + 5 + |a|, s, v);
    UintBack(f, pos + 5, Unsigned(iam.maxApdu));
    UintBack(f, pos + 5 + |a|, Enumerated(iam.segmentation));
    UintBack(f, pos + 5 + |a| + |s|, Unsigned(iam.vendor));
  }

  // ---- Error, Reject and Abort -----------------------------------------------------------------

  /** A reply other than an acknowledgement: `last` is the service of an error, or the reason. */
  function Refusal(pdu: byte, invoke: byte, last: byte, body: seq<byte>): seq<byte> {
    var total := 9 + |body|;
    [BVLC, UNICAST, total / 256 % 256, total % 256, NPDU, 0, pdu, invoke, last] + body
  }

  lemma RefusalHeader(pdu: byte, invoke: byte, last: byte, body: seq<byte>)
    requires 9 + |body| < 0x1_0000
    ensures var f := Refusal(pdu, invoke, last, body);
            && |f| == 9 + |body| == Total(f) && Declared(f) == f && At(f, 9, body)
            && f[..2] == [BVLC, UNICAST] && f[4..9] == [NPDU, 0, pdu, invoke, last]
  {
    var total := 9 + |body|;
    AtWhole([BVLC, UNICAST, total / 256 % 256, total % 256, NPDU, 0, pdu, invoke, last], body);
  }

  lemma EnumBack(f: seq<byte>, pos: nat, e: uint32)
    requires At(f, pos, AppValue(Enumerated(e)))
    ensures ReadEnum(f, |f|, pos) == EnumRead(true, e % 256, pos + |AppValue(Enumerated(e))|)
    ensures |AppValue(Enumerated(e))| <= 5
  {
    UintBack(f, pos, Enumerated(e));
    hide AppValue, At;
  }

  /** An Error reply gives the caller its class and code, cut to a byte each, and keeps the reason. */
  lemma ErrorReplyBack(invoke: byte, service: byte, cls: uint32, code: uint32, asked: byte, err: ErrorInfo)
    ensures ParseHeader(Refusal(ERROR_PDU, invoke, service, AppValue(Enumerated(cls)) + AppValue(Enumerated(code))),
        invoke, asked, err)
            == Header(Error, ErrorInfo(cls % 256, code % 256, err.reason))
  {
    hide AppValue, At, ReadEnum, Refusal;
    var c, d := AppValue(Enumerated(cls)), AppValue(Enumerated(code));
    EnumSize(cls);
    EnumSize(code);
    RefusalHeader(ERROR_PDU, invoke, service, c + d);
    var f := Refusal(ERROR_PDU, invoke, service, c + d);
    AtSplit(f, 9, c, d);
    EnumBack(f, 9, cls);
    EnumBack(f, 9 + |c|, code);
    RefusalBytes(f, ERROR_PDU, invoke, service);
  }

  lemma RefusalBytes(f: seq<byte>, pdu: byte, invoke: byte, last: byte)
    requires |f| >= 9 && f[..2] == [BVLC, UNICAST] && f[4..9] == [NPDU, 0, pdu, invoke, last]
    ensures f[0] == BVLC && f[1] == UNICAST && f[4] == NPDU && f[5] == 0 && f[6] == pdu && f[7] == invoke &&
        f[8] == last
  {
    assert f[0] == f[..2][0] && f[1] == f[..2][1];
    assert f[4] == f[4..9][0] && f[5] == f[4..9][1] && f[6] == f[4..9][2] && f[7] == f[4..9][3] && f[8] == f[4..9][4];
  }

  lemma EnumSize(e: uint32)
    ensures |AppValue(Enumerated(e))| <= 5
  {
    var bytes := AppValue(Enumerated(e));
    AtWhole([], bytes);
    assert [] + bytes == bytes;
    EnumBack(bytes, 0, e);
  }

  /** Reject and Abort replies give the reason and keep the rest; a reply to another request is
      reported as such, whatever it says. */
  lemma RefusalReasonBack(invoke: byte, reason: byte, asked: byte, other: byte, err: ErrorInfo)
    requires other != invoke
    ensures ParseHeader(Refusal(REJECT_PDU, invoke, reason, []), invoke, asked, err)
        == Header(Reject, err.(reason := reason))
    ensures ParseHeader(Refusal(ABORT_PDU, invoke, reason, []), invoke, asked, err)
        == Header(Abort, err.(reason := reason))
    ensures ParseHeader(Refusal(ABORT_PDU, other, reason, []), invoke, asked, err) == Header(WrongInvoke, err)
  {
    RefusalHeader(REJECT_PDU, invoke, reason, []);
    RefusalHeader(ABORT_PDU, invoke, reason, []);
    RefusalHeader(ABORT_PDU, other, reason, []);
    RefusalBytes(Refusal(REJECT_PDU, invoke, reason, []), REJECT_PDU, invoke, reason);
    RefusalBytes(Refusal(ABORT_PDU, invoke, reason, []), ABORT_PDU, invoke, reason);
    RefusalBytes(Refusal(ABORT_PDU, other, reason, []), ABORT_PDU, other, reason);
    hide Refusal, ReadEnum;
  }
}
