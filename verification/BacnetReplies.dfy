/** Which replies a waiting client takes, what it makes of replies that are not the one it asked for,
    and what a parse leaves untouched. */
module BacnetReplies {
  import opened Basics
  import opened BacnetTags
  import opened BacnetFrames
  import opened BacnetWriter
  import opened BacnetRoundTrip

  // ---- Which reply is taken --------------------------------------------------------------------

  /** Error, Reject or Abort; the low half of the byte is ignored. */
  predicate Refuses(pdu: byte) {
    pdu / 16 == 5 || pdu / 16 == 6 || pdu / 16 == 7
  }

  lemma RefusalParsed(pdu: byte, invoke: byte, last: byte, body: seq<byte>, asked: byte, service: byte, err: ErrorInfo)
    requires 9 + |body| < 0x1_0000
    ensures var p := ParseHeader(Refusal(pdu, invoke, last, body), asked, service, err).parse;
            p == if Refuses(pdu) then
                   if invoke != asked then WrongInvoke
                   else if pdu / 16 == 5 then Error else if pdu / 16 == 6 then Reject else Abort
                 else if pdu / 16 != 3 then Unsupported
                 else if invoke != asked then WrongInvoke else if last != service then WrongService else Ok
  {
    hide ReadError, Refusal, At;
    RefusalHeader(pdu, invoke, last, body);
    RefusalBytes(Refusal(pdu, invoke, last, body), pdu, invoke, last);
  }

  /** An Error, Reject or Abort is taken exactly if it names the request's invoke id, whatever object
      or service was asked for and whatever the reply says. */
  lemma RefusalTaken(pdu: byte, invoke: byte, last: byte, body: seq<byte>, asked: byte, service: byte,
      expected: ObjectId)
    requires Refuses(pdu) && 9 + |body| < 0x1_0000
    ensures FrameMatchesObject(Refusal(pdu, invoke, last, body), asked, service, expected) <==> invoke == asked
  {
    RefusalParsed(pdu, invoke, last, body, asked, service, ErrorInfo(0, 0, 0));
    hide ParseHeader, Refusal, ReadContextObject, Refuses;
  }

  /** A reply that is neither a refusal nor an acknowledgement is never taken. */
  lemma OtherKindsPassedOver(pdu: byte, invoke: byte, last: byte, body: seq<byte>, asked: byte, service: byte,
      expected: ObjectId)
    requires !Refuses(pdu) && pdu / 16 != 3 && 9 + |body| < 0x1_0000
    ensures !FrameMatchesObject(Refusal(pdu, invoke, last, body), asked, service, expected)
  {
    RefusalParsed(pdu, invoke, last, body, asked, service, ErrorInfo(0, 0, 0));
    hide ParseHeader, Refusal, ReadContextObject, Refuses;
  }

  /** An acknowledgement is taken exactly if it answers the request's invoke id and service and its
      object is the one asked for, or of its kind when any instance was asked for. */
  lemma AckTaken(invoke: byte, service: byte, o: ObjectId, rest: seq<byte>, asked: byte, wanted: byte,
      expected: ObjectId)
    requires PlainObject(o) && 14 + |rest| < 0x1_0000
    ensures var f := Ack(invoke, service, ContextObject(0, o.kind, o.instance) + rest);
            FrameMatchesObject(f, asked, wanted, expected) <==>
            invoke == asked && service == wanted && o.kind == expected.kind &&
            (expected.instance == WILDCARD || o.instance == expected.instance)
  {
    hide ContextObject, ReadContextObject, ParseHeader, At;
    var obj := ContextObject(0, o.kind, o.instance);
    ObjectSize(o);
    var f := Ack(invoke, service, obj + rest);
    assert f == Refusal(COMPLEX_ACK, invoke, service, obj + rest);
    RefusalParsed(COMPLEX_ACK, invoke, service, obj + rest, asked, wanted, ErrorInfo(0, 0, 0));
    AckHeader(invoke, service, obj + rest, ErrorInfo(0, 0, 0));
    hide Ack, Refusal;
    AtSplit(f, 9, obj, rest);
    ContextObjectBack(f, 9, 0, o);
  }

  // ---- Replies to another question -------------------------------------------------------------

  /** A ReadProperty acknowledgement of another property, object, request or service. */
  lemma OtherReplyRefused(invoke: byte, service: byte, o: ObjectId, property: uint32, index: Option<uint32>, v: Value,
      asked: byte, wanted: uint32, expected: Option<ObjectId>, err: ErrorInfo)
    requires PlainObject(o) && Encodable(v)
    ensures var r := ParseReadPropertyAck(Ack(invoke, service, PropertyAckBody(o, property, index, v)), asked, wanted,
                expected, err);
            r == if invoke != asked then PropertyAck(WrongInvoke, None, err)
                 else if service != READ_PROPERTY then PropertyAck(WrongService, None, err)
                 else if !Answers(o, expected) then PropertyAck(BadFrame, None, err)
                 else if property != wanted then PropertyAck(WrongService, None, err)
                 else PropertyAck(Ok, Some(v), err)
  {
    hide ContextUint, ContextObject, ReadContextUint, ReadContextObject, AfterIndex, WrappedValue, AppValue,
        ParseHeader, At, PropertyAckBody;
    var body := PropertyAckBody(o, property, index, v);
    AckBodySize(o, property, index, v);
    var f := Ack(invoke, service, body);
    AckParsed(invoke, service, body, asked, err);
    hide Ack;
    AckBodyParts(f, o, property, index, v);
    ContextObjectBack(f, 9, 0, o);
    ContextUintBack(f, 14, 1, property);
    AfterIndexBack(f, 14 + |ContextUint(1, property)|, index, [Opening(3)] + AppValue(v) + [Closing(3)]);
    WrappedValueBack(f, 14 + |ContextUint(1, property)| + |IndexPart(index)|, v);
  }

  lemma AckParsed(invoke: byte, service: byte, body: seq<byte>, asked: byte, err: ErrorInfo)
    requires 9 + |body| < 0x1_0000
    ensures var f := Ack(invoke, service, body);
            && |f| == 9 + |body| == Total(f) && At(f, 9, body)
            && ParseHeader(f, asked, READ_PROPERTY, err) == Header(
                 if invoke != asked then WrongInvoke else if service != READ_PROPERTY then WrongService else Ok, err)
  {
    hide ReadError;
    AckHeader(invoke, service, body, err);
    hide At;
  }

  /** A frame cut short anywhere, down to nothing, is reported as incomplete, and never taken. */
  lemma CutShortIsIncomplete(f: seq<byte>, k: nat, invoke: byte, service: byte, property: nat,
      expected: Option<ObjectId>, out: seq<PropertyValue>, err: ErrorInfo)
    requires |f| >= 7 && f[0] == BVLC && f[1] == UNICAST && Total(f) == |f| && k < |f|
    ensures ParseHeader(f[..k], invoke, service, err) == Header(Incomplete, err)
    ensures ParseReadPropertyAck(f[..k], invoke, property, expected, err) == PropertyAck(Incomplete, None, err)
    ensures ParseMultipleAck(f[..k], invoke, out, expected, err) == MultipleAck(Incomplete, out, 0, err)
    ensures expected.Some? ==> !FrameMatchesObject(f[..k], invoke, service, expected.value)
  {
    assert k >= 7 ==> Total(f[..k]) == |f|;
    hide ParsePdu, ReadContextObject, ReadContextUint, ParseObjects;
  }

  // ---- What a parse leaves untouched -----------------------------------------------------------

  lemma {:induction false} PropertiesWriteOnly(buf: seq<byte>, len: nat, pos: nat, obj: ObjectId,
      out: seq<PropertyValue>, count: nat)
    requires len <= |buf| && count <= |out|
    ensures var r := ParseProperties(buf, len, pos, obj, out, count);
            var end := if r.parse.BadFrame? && r.count < |out| then r.count + 1 else r.count;
            r.out[..count] == out[..count] && r.out[end..] == out[end..]
    decreases len - pos
  {
    hide ReadPropertyResult, LeftSlot;
    if pos < len && buf[pos] != Closing(1) && count < |out| {
      var r := ReadPropertyResult(buf, len, pos, obj, out[count]);
      if r.Got? {
        var next := out[count := r.value];
        PropertiesWriteOnly(buf, len, r.pos, obj, next, count + 1);
        var p := ParseProperties(buf, len, r.pos, obj, next, count + 1);
        assert p.out[..count] == p.out[..count + 1][..count] == next[..count + 1][..count] == out[..count];
        var end := if p.parse.BadFrame? && p.count < |out| then p.count + 1 else p.count;
        assert next[end..] == out[end..];
      }
    }
  }

  lemma SameTail(a: seq<PropertyValue>, b: seq<PropertyValue>, from: nat, to: nat)
    requires |a| == |b| && from <= to <= |a| && a[from..] == b[from..]
    ensures a[to..] == b[to..]
  {
    assert a[to..] == a[from..][to - from..];
    assert b[to..] == b[from..][to - from..];
  }

  lemma {:induction false} ObjectsWriteOnly(buf: seq<byte>, len: nat, pos: nat, expected: Option<ObjectId>,
      out: seq<PropertyValue>, count: nat)
    requires len <= |buf| && count <= |out|
    ensures var r := ParseObjects(buf, len, pos, expected, out, count);
            var end := if r.parse.BadFrame? && r.count < |out| then r.count + 1 else r.count;
            r.out[end..] == out[end..]
    decreases len - pos
  {
    hide ReadContextObject, ParseProperties, Answers;
    if pos < len {
      var o := ReadContextObject(buf, len, pos, 0);
      if o.Got? && o.pos < len && buf[o.pos] == Opening(1) && Answers(o.value, expected) {
        var p := ParseProperties(buf, len, o.pos + 1, o.value, out, count);
        PropertiesWriteOnly(buf, len, o.pos + 1, o.value, out, count);
        if p.parse.Ok? {
          ObjectsWriteOnly(buf, len, p.pos, expected, p.out, p.count);
          var r := ParseObjects(buf, len, p.pos, expected, p.out, p.count);
          var end := if r.parse.BadFrame? && r.count < |out| then r.count + 1 else r.count;
          SameTail(p.out, out, p.count, end);
        }
      }
    }
  }

  /** Whatever was received, only the reported results are written, and on a malformed reply at most
      one entry after them: the rest of the caller's array stays as it was. */
  lemma WritesOnlyResults(buf: seq<byte>, invoke: byte, out: seq<PropertyValue>, expected: Option<ObjectId>,
      err: ErrorInfo)
    ensures var r := ParseMultipleAck(buf, invoke, out, expected, err);
            && (r.parse != BadFrame ==> r.out[r.count..] == out[r.count..])
            && (r.count < |out| ==> r.out[r.count + 1..] == out[r.count + 1..])
  {
    hide ParseHeader, ParseObjects;
    if ParseHeader(buf, invoke, READ_PROPERTY_MULTIPLE, err).parse.Ok? {
      ObjectsWriteOnly(buf, Total(buf), 9, expected, out, 0);
      var r := ParseObjects(buf, Total(buf), 9, expected, out, 0);
      if r.count < |out| && !r.parse.BadFrame? { SameTail(r.out, out, r.count, r.count + 1); }
    }
  }

  /** A result that cannot be read leaves its slot's error as it was, names it for the object and the
      property as soon as that is read, and touches the value only after an opening tag 4. */
  lemma UnreadableSlot(f: seq<byte>, pos: nat, o: ObjectId, slot: PropertyValue, property: uint32, rest: seq<byte>)
    requires At(f, pos, ContextUint(2, property) + rest)
    ensures var left := LeftSlot(f, |f|, pos, o, slot);
            && left.(value := slot.value) == slot.(obj := o, property := property)
            && (rest != [] && rest[0] != Opening(4) ==> left.value == slot.value)
  {
    hide ContextUint, ReadContextUint, LeftValue;
    AtSplit(f, pos, ContextUint(2, property), rest);
    ContextUintBack(f, pos, 2, property);
    if rest != [] {
      var q := pos + |ContextUint(2, property)|;
      assert f[q..q + |rest|][0] == f[q];
    }
  }

  // ---- Routed I-Am -----------------------------------------------------------------------------

  /** An I-Am broadcast with a destination: network, address and hop count precede it. */
  function RoutedHead(source: byte, total: nat, net: seq<byte>, address: seq<byte>, hops: byte): seq<byte>
    requires |net| == 2 && |address| < 256
  {
    [BVLC, source, total / 256 % 256, total % 256, NPDU, 0x20] + net + [|address|] + address + [hops, 0x10, 0]
  }

  function RoutedIAm(source: byte, net: seq<byte>, address: seq<byte>, hops: byte, iam: IAm): seq<byte>
    requires |net| == 2 && |address| < 256 && IAmEncodable(iam)
  {
    RoutedHead(source, 12 + |address| + |IAmBody(iam)|, net, address, hops) + IAmBody(iam)
  }

  /** An I-Am sent to a network, with any destination address, reads back whole. */
  lemma RoutedIAmBack(source: byte, net: seq<byte>, address: seq<byte>, hops: byte, iam: IAm)
    requires |net| == 2 && |address| < 256 && IAmEncodable(iam)
    requires source == UNICAST || source == BROADCAST
    ensures ParseIAm(RoutedIAm(source, net, address, hops, iam)) == IAmResult(Ok, Some(iam))
  {
    hide IAmBody, ReadIAm, At;
    var body := IAmBody(iam);
    var total := 12 + |address| + |body|;
    var head := RoutedHead(source, total, net, address, hops);
    var f := RoutedIAm(source, net, address, hops, iam);
    AtWhole(head, body);
    ReadIAmBack(f, 12 + |address|, iam);
    assert |f| == total;
    HeadBytes(source, total, net, address, hops, body);
    hide RoutedHead, RoutedIAm;
  }

  lemma HeadBytes(source: byte, total: nat, net: seq<byte>, address: seq<byte>, hops: byte, body: seq<byte>)
    requires |net| == 2 && |address| < 256 && total < 0x1_0000
    ensures var f := RoutedHead(source, total, net, address, hops) + body;
            && |f| == 12 + |address| + |body| && f[0] == BVLC && f[1] == source && Total(f) == total
            && f[4] == NPDU && f[5] == 0x20 && f[8] == |address|
            && f[10 + |address|] == 0x10 && f[11 + |address|] == 0
  {
  }
}
