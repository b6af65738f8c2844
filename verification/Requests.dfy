/** Requests: the two encode forms of src/att.cc and the fields lib/att.js reads from them. */
module Requests {
  import opened Bytes
  import opened AttTypes
  import opened Search

  /** The client's UUID union (src/uuid.h). */
  datatype BtUuid = U16(v: u16) | U32(quad: Quad) | U128(long: Long) | Unspecified

  type Quad = s: seq<byte> | |s| == 4 witness [0, 0, 0, 0]

  function BtUuidBytes(u: BtUuid): seq<byte> {
    match u
    case U16(v) => Put16(v)
    case U32(q) => q
    case U128(l) => l
    case Unspecified => []
  }

  /** The buffer Connection::getBuffer hands out on the LE channel. */
  const LE_BUFFER: nat := 23

  /** opcode, handle, value: the value is cut to what the buffer holds. */
  function EncodeHandle(op: byte, h: u16, value: seq<byte>, buflen: nat): Pdu {
    if buflen < 3 then [] else [op] + Put16(h) + value[..Min(|value|, buflen - 3)]
  }

  /** How far the range form writes into the buffer, and how much of the buffer it sends. */
  function RangeSent(uuid: Option<BtUuid>, value: Option<seq<byte>>): nat {
    5 + (if uuid.Some? then |BtUuidBytes(uuid.value)| else 0) + (if value.Some? then |value.value| else 0)
  }

  function RangeWritten(uuid: Option<BtUuid>, value: Option<seq<byte>>): nat {
    if value.None? then RangeSent(uuid, value)
    else var v := 7 + |value.value|; if v > RangeSent(uuid, value) then v else RangeSent(uuid, value)
  }

  /**
   * opcode, start, end, optional type, optional value. The value always goes to offset 7, over the tail
   * of a type wider than two bytes. None when the writes leave the buffer, which the code does not check.
   */
  function EncodeRange(op: byte, s: u16, e: u16, uuid: Option<BtUuid>, value: Option<seq<byte>>,
                       buf: seq<byte>): Option<Pdu> {
    if |buf| < 5 then Some([])
    else if uuid == Some(Unspecified) then Some([])
    else if RangeWritten(uuid, value) > |buf| then None
    else
      var front := Overlay(buf, 0, [op] + Put16(s) + Put16(e) + (if uuid.Some? then BtUuidBytes(uuid.value) else []));
      var full := if value.Some? then Overlay(front, 7, value.value) else front;
      Some(full[..RangeSent(uuid, value)])
  }

  /** The bytes of the base UUID below its 16-bit slot, little endian. */
  const BASE_LOW: seq<byte> := [0xFB, 0x34, 0x9B, 0x5F, 0x80, 0x00, 0x00, 0x80, 0x00, 0x10, 0x00, 0x00]

  /** A 128-bit type as an attribute table keeps it: short when it is a 16-bit number on the base UUID. */
  function Kept(l: Long): Uuid {
    if l[..12] == BASE_LOW && l[14..] == [0, 0] then Uuid16(Get16(l, 12)) else Uuid128(l)
  }

  /** UUID.getUUID of a buffer: a 16-byte form of a short UUID is that short UUID; odd lengths match nothing. */
  function BufferArg(b: seq<byte>): TypeArg {
    if |b| == 2 then OneType(Uuid16(Get16(b, 0)))
    else if |b| == 16 then OneType(Kept(b))
    else NoType
  }

  /** UUID.getUUID of a number: 0 is refused, and a missing type matches every attribute. */
  function NumberArg(n: u16): TypeArg {
    if n == 0 then AnyType else OneType(Uuid16(n))
  }

  datatype Fields = Fields(start: u16, end: u16, query: Query)

  /** What the four list handlers read from a request with its opcode removed; None when a read throws. */
  function ReadFields(p: Procedure, data: seq<byte>): (f: Option<Fields>)
    ensures f.Some? ==> f.value.query.proc == p
  {
    if |data| < 4 then None
    else
      var s, e := Get16(data, 0), Get16(data, 2);
      match p
      case FindInfo => Some(Fields(s, e, Query(p, AnyType, None)))
      case ReadByGroup => Some(Fields(s, e, Query(p, BufferArg(data[4..]), None)))
      case FindByType =>
        if |data| < 6 then None else Some(Fields(s, e, Query(p, NumberArg(Get16(data, 4)), Some(data[6..]))))
      case ReadByType =>
        if |data| < 6 then None else Some(Fields(s, e, Query(p, NumberArg(Get16(data, 4)), None)))
  }

  /** What a client asks of a procedure: the optional type and value it passes to encode. */
  datatype Ask = Ask(proc: Procedure, kind: Option<BtUuid>, value: Option<seq<byte>>)

  predicate AskOk(a: Ask) {
    && (a.proc == FindInfo <==> a.kind.None?)
    && (a.proc == FindByType <==> a.value.Some?)
  }

  function TypeBytes(a: Ask): seq<byte> {
    if a.kind.Some? then BtUuidBytes(a.kind.value) else []
  }

  function ValueBytes(a: Ask): seq<byte> {
    if a.value.Some? then a.value.value else []
  }

  /** Asks whose packet fits the buffer and does not depend on what the buffer held before. */
  predicate Settled(a: Ask) {
    && AskOk(a) && a.kind != Some(Unspecified) && RangeSent(a.kind, a.value) <= LE_BUFFER
    && (ValueBytes(a) != [] ==> a.kind.value.U16?)
  }

  /**
   * Read By Type and Find By Type Value take the first two bytes behind the range for the type
   * (lib/att.js:309, lib/att.js:346).
   */
  function NumberRead(rest: seq<byte>): TypeArg {
    if |rest| < 2 then NoType else NumberArg(Get16(rest, 0))
  }

  /** The search that the server makes of an ask. */
  function Understood(a: Ask): (q: Query)
    ensures q.proc == a.proc
  {
    var rest := TypeBytes(a) + ValueBytes(a);
    match a.proc
    case FindInfo => Query(a.proc, AnyType, None)
    case ReadByGroup => Query(a.proc, BufferArg(rest), None)
    case ReadByType => Query(a.proc, NumberRead(rest), None)
    case FindByType => Query(a.proc, NumberRead(rest), Some(if |rest| < 2 then [] else rest[2..]))
  }

  /** The 128-bit value of a type: shorter ones are numbers on the base UUID (Vol 3 Part B section 2.5.1). */
  function Full(u: BtUuid): Long
    requires !u.Unspecified?
  {
    match u
    case U16(v) => BASE_LOW + Put16(v) + [0, 0]
    case U32(q) => BASE_LOW + q
    case U128(l) => l
  }

  /** The search that an ask stands for: its type is the UUID it was given, whatever its width. */
  function Meant(a: Ask): (q: Query)
    requires AskOk(a) && a.kind != Some(Unspecified)
    ensures q.proc == a.proc
  {
    Query(a.proc, if a.kind.None? then AnyType else OneType(Kept(Full(a.kind.value))), a.value)
  }

  /**
   * Asks that the server understands as they are meant. Behind the base UUID a 32-bit or 128-bit type has to
   * pass for the number that its first two bytes make; of the long ones only the expansion of 0x34FB does.
   */
  predicate Carried(a: Ask)
    requires AskOk(a)
  {
    match a.proc
    case FindInfo => true
    case ReadByGroup => a.kind.value.U16? || a.kind.value.U128?
    case FindByType => a.kind.value.U16? && a.kind.value.v != 0
    case ReadByType =>
      match a.kind.value
      case U16(v) => v != 0
      case U32(q) => q[2..] == [0, 0] && q[..2] != [0, 0]
      case U128(l) => l == BASE_LOW + Put16(0x34FB) + [0, 0]
      case Unspecified => false
  }

  function RequestPdu(a: Ask, s: u16, e: u16, buf: seq<byte>): Option<Pdu> {
    EncodeRange(RequestOp(a.proc), s, e, a.kind, a.value, buf)
  }

  /** The range form is defined exactly when it fits; without a value behind a wide type it is its fields joined. */
  lemma EncodedFields(a: Ask, s: u16, e: u16, buf: seq<byte>)
    requires AskOk(a) && a.kind != Some(Unspecified) && 5 <= |buf|
    ensures RequestPdu(a, s, e, buf).Some? <==> RangeSent(a.kind, a.value) <= |buf|
    ensures RequestPdu(a, s, e, buf).Some? && (ValueBytes(a) != [] ==> a.kind.value.U16?) ==>
      RequestPdu(a, s, e, buf).value == [RequestOp(a.proc)] + Put16(s) + Put16(e) + TypeBytes(a) + ValueBytes(a)
  {
  }

  lemma FieldsOfConcat(s: u16, e: u16, rest: seq<byte>)
    ensures var data := Put16(s) + Put16(e) + rest;
            |data| >= 4 && Get16(data, 0) == s && Get16(data, 2) == e && data[4..] == rest
  {
    var data := Put16(s) + Put16(e) + rest;
    Field16RoundTrip([], s, Put16(e) + rest, [0, 0], 0);
    assert data == [] + Put16(s) + (Put16(e) + rest);
    Field16RoundTrip(Put16(s), e, rest, [0, 0], 0);
  }

  lemma FieldsRead(a: Ask, s: u16, e: u16, data: seq<byte>)
    requires Settled(a) && data == Put16(s) + Put16(e) + (TypeBytes(a) + ValueBytes(a))
    ensures ReadFields(a.proc, data) == Some(Fields(s, e, Understood(a)))
  {
    var rest := TypeBytes(a) + ValueBytes(a);
    FieldsOfConcat(s, e, rest);
    if a.proc == ReadByType || a.proc == FindByType {
      assert |rest| >= 2;
      assert data[4] == data[4..][0] && data[5] == data[4..][1] && data[6..] == data[4..][2..];
    }
  }

  /** A settled ask reaches the server as the search that the server understands by it. */
  lemma RequestUnderstood(a: Ask, s: u16, e: u16, buf: seq<byte>)
    requires Settled(a) && |buf| == LE_BUFFER
    ensures var pdu := RequestPdu(a, s, e, buf);
            pdu.Some? && pdu.value != [] && |pdu.value| <= LE_BUFFER && pdu.value[0] == RequestOp(a.proc) &&
            ReadFields(a.proc, pdu.value[1..]) == Some(Fields(s, e, Understood(a)))
  {
    hide EncodeRange, ReadFields, Understood;
    var data := Put16(s) + Put16(e) + (TypeBytes(a) + ValueBytes(a));
    EncodedFields(a, s, e, buf);
    assert RequestPdu(a, s, e, buf).value == [RequestOp(a.proc)] + data;
    assert ([RequestOp(a.proc)] + data)[1..] == data;
    FieldsRead(a, s, e, data);
  }

  /** The value behind a wide type leaves the last byte that is sent as the buffer had it. */
  lemma BufferShows(a: Ask, s: u16, e: u16, buf: seq<byte>)
    requires AskOk(a) && a.kind != Some(Unspecified) && RangeSent(a.kind, a.value) <= LE_BUFFER == |buf|
    requires ValueBytes(a) != [] && !a.kind.value.U16?
    ensures var n := RangeSent(a.kind, a.value); var p := RequestPdu(a, s, e, buf);
            p.Some? && |p.value| == n && p.value[n - 1] == buf[n - 1]
  {
    var n, fixed := RangeSent(a.kind, a.value), [RequestOp(a.proc)] + Put16(s) + Put16(e) + TypeBytes(a);
    var front := Overlay(buf, 0, fixed);
    assert |fixed| < n && front[n - 1] == buf[n - 1];
    var full := Overlay(front, 7, ValueBytes(a));
    assert 7 + |ValueBytes(a)| < n && full[n - 1] == front[n - 1];
    assert RequestPdu(a, s, e, buf) == Some(full[..n]);
  }

  /** The packet of an ask that fits is the same from every buffer if and only if the ask is settled. */
  lemma SettledIff(a: Ask, s: u16, e: u16)
    requires AskOk(a) && a.kind != Some(Unspecified) && RangeSent(a.kind, a.value) <= LE_BUFFER
    ensures Settled(a) <==>
            forall buf: seq<byte>, buf': seq<byte> :: |buf| == |buf'| == LE_BUFFER ==>
              RequestPdu(a, s, e, buf) == RequestPdu(a, s, e, buf')
  {
    hide EncodeRange;
    if Settled(a) {
      forall buf: seq<byte>, buf': seq<byte> | |buf| == |buf'| == LE_BUFFER
        ensures RequestPdu(a, s, e, buf) == RequestPdu(a, s, e, buf')
      {
        EncodedFields(a, s, e, buf);
        EncodedFields(a, s, e, buf');
      }
    } else {
      var zeros: seq<byte>, ones: seq<byte> := seq(LE_BUFFER, _ => 0), seq(LE_BUFFER, _ => 1);
      BufferShows(a, s, e, zeros);
      BufferShows(a, s, e, ones);
      assert zeros[RangeSent(a.kind, a.value) - 1] != ones[RangeSent(a.kind, a.value) - 1];
    }
  }

  lemma KeptShort(v: u16)
    ensures Kept(BASE_LOW + Put16(v) + [0, 0]) == Uuid16(v)
  {
    var l := BASE_LOW + Put16(v) + [0, 0];
    assert l[..12] == BASE_LOW && l[14..] == [0, 0];
    Field16RoundTrip(BASE_LOW, v, [0, 0], [0, 0], 0);
  }

  /** The 128-bit value behind a kept type: no two values are kept alike. */
  lemma KeptIsExact(l: Long)
    ensures Kept(l).Uuid16? ==> l == BASE_LOW + Put16(Kept(l).short) + [0, 0]
    ensures Kept(l).Uuid128? ==> Kept(l).long == l
  {
    if Kept(l).Uuid16? {
      Field16RoundTrip([], 0, [], l, 12);
      assert l == l[..12] + l[12..14] + l[14..];
    }
  }

  lemma NumberReadLong(l: Long)
    ensures OneType(Kept(l)) == NumberRead(l) <==> l == BASE_LOW + Put16(0x34FB) + [0, 0]
  {
    KeptIsExact(l);
    KeptShort(0x34FB);
    var w := BASE_LOW + Put16(0x34FB) + [0, 0];
    assert w[0] == 0xFB && w[1] == 0x34;
    if OneType(Kept(l)) == NumberRead(l) {
      assert l[0] == BASE_LOW[0] && l[1] == BASE_LOW[1];
    }
  }

  lemma NumberReadQuad(q: Quad)
    ensures OneType(Kept(BASE_LOW + q)) == NumberRead(q) <==> q[2..] == [0, 0] && q[..2] != [0, 0]
  {
    var l, v := BASE_LOW + q, Get16(q, 0);
    Field16RoundTrip([], 0, [], q, 0);
    KeptIsExact(l);
    assert l[14..] == q[2..] && l[..12] == BASE_LOW;
    if q[2..] == [0, 0] {
      assert q == q[..2] + q[2..];
      assert l == BASE_LOW + Put16(v) + [0, 0];
      KeptShort(v);
      assert v == 0 <==> q[..2] == [0, 0];
    }
  }

  /** What is understood is what is meant exactly for the asks that are carried. */
  lemma UnderstoodAsMeantIff(a: Ask)
    requires Settled(a)
    ensures Understood(a) == Meant(a) <==> Carried(a)
  {
    hide Kept;
    var rest := TypeBytes(a) + ValueBytes(a);
    if a.kind.Some? {
      match a.kind.value
      case U16(v) =>
        KeptShort(v);
        Field16RoundTrip([], v, ValueBytes(a), [0, 0], 0);
        assert rest == [] + Put16(v) + ValueBytes(a) && rest[2..] == ValueBytes(a);
        assert a.proc != FindByType ==> rest == Put16(v);
      case U32(q) =>
        NumberReadQuad(q);
        assert rest == q;
      case U128(l) =>
        NumberReadLong(l);
        assert rest == l;
    }
  }

  /** A value under a wider type never reaches the server: bytes of the type or of the buffer trail it. */
  lemma WideTypeSpoilsValue(s: u16, e: u16, kind: BtUuid, value: seq<byte>, buf: seq<byte>)
    requires |buf| == LE_BUFFER && 5 + |BtUuidBytes(kind)| + |value| <= LE_BUFFER
    ensures var pdu := RequestPdu(Ask(FindByType, Some(kind), Some(value)), s, e, buf);
            pdu.Some? &&
            ((pdu.value != [] && ReadFields(FindByType, pdu.value[1..]).Some? &&
              ReadFields(FindByType, pdu.value[1..]).value.query.value == Some(value)) <==> kind.U16?)
  {
    var a := Ask(FindByType, Some(kind), Some(value));
    if kind.U16? {
      EncodedFields(a, s, e, buf);
      var data := RequestPdu(a, s, e, buf).value[1..];
      assert data == Put16(s) + Put16(e) + Put16(kind.v) + value;
      assert data[6..] == value;
    }
  }

  lemma NothingEncoded(a: Ask, s: u16, e: u16, buf: seq<byte>)
    requires a.kind == Some(Unspecified) && |buf| == LE_BUFFER
    ensures RequestPdu(a, s, e, buf) == Some([])
  {
  }

  lemma EncodedSize(a: Ask, s: u16, e: u16, buf: seq<byte>)
    requires a.kind != Some(Unspecified) && RequestPdu(a, s, e, buf).Some? && |buf| >= 5
    ensures |RequestPdu(a, s, e, buf).value| == RangeSent(a.kind, a.value)
  {
  }

  lemma MeantValue(a: Ask)
    requires AskOk(a) && a.kind != Some(Unspecified)
    ensures Meant(a).value == a.value
  {
  }

  /** The server reads the fields that the client meant. */
  predicate ReadAsMeant(a: Ask, s: u16, e: u16, buf: seq<byte>)
    requires AskOk(a)
  {
    && a.kind != Some(Unspecified) && RequestPdu(a, s, e, buf).Some?
    && var pdu := RequestPdu(a, s, e, buf).value;
    pdu != [] && pdu[0] == RequestOp(a.proc) && ReadFields(a.proc, pdu[1..]) == Some(Fields(s, e, Meant(a)))
  }

  /**
   * The request round trip, for every procedure, type width and value: a request is defined exactly when it fits the
   * 23-byte buffer, and then the server reads what the client meant if and only if the ask is carried.
   */
  lemma RequestRoundTripIff(a: Ask, s: u16, e: u16, buf: seq<byte>)
    requires AskOk(a) && |buf| == LE_BUFFER
    ensures RequestPdu(a, s, e, buf).Some? <==> a.kind == Some(Unspecified) || RangeSent(a.kind, a.value) <= LE_BUFFER
    ensures RequestPdu(a, s, e, buf).Some? ==> |RequestPdu(a, s, e, buf).value| <= LE_BUFFER
    ensures RequestPdu(a, s, e, buf).Some? ==> (ReadAsMeant(a, s, e, buf) <==> Carried(a))
  {
    hide EncodeRange, ReadFields, Meant, Understood;
    if a.kind == Some(Unspecified) {
      NothingEncoded(a, s, e, buf);
    } else {
      EncodedFields(a, s, e, buf);
      if RangeSent(a.kind, a.value) <= LE_BUFFER {
        EncodedSize(a, s, e, buf);
        if Settled(a) {
          RequestUnderstood(a, s, e, buf);
          UnderstoodAsMeantIff(a);
        } else {
          WideTypeSpoilsValue(s, e, a.kind.value, a.value.value, buf);
          assert a == Ask(FindByType, a.kind, a.value);
          assert Meant(a).value == a.value by { MeantValue(a); }
        }
      }
    }
  }

  /** The single-handle form carries the longest prefix of the value that fits. */
  lemma HandleFormTruncates(op: byte, h: u16, value: seq<byte>, buflen: nat)
    requires 3 <= buflen
    ensures var pdu := EncodeHandle(op, h, value, buflen);
            |pdu| <= buflen && pdu[0] == op && Get16(pdu, 1) == h && pdu[3..] <= value &&
            (pdu[3..] == value || |pdu| == buflen)
  {
    var cut := value[..Min(|value|, buflen - 3)];
    Field16RoundTrip([op], h, cut, [0, 0], 0);
    assert EncodeHandle(op, h, value, buflen)[3..] == cut;
  }

  /** A Read Request, a Write Command: opcode, handle, and as much of the value as the buffer of 23 bytes holds. */
  lemma HandleBytes(op: byte, h: u16, value: seq<byte>)
    ensures EncodeHandle(op, h, value, LE_BUFFER) ==
            [op, h % 0x100, h / 0x100] + if |value| <= 20 then value else value[..20]
  {
    assert value[..|value|] == value;
  }
}
