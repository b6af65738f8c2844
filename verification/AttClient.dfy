/** The client of src/att.cc in its own form: an object whose methods update its request, lists and buffers. */
module AttClient {
  import opened Bytes
  import opened AttTypes
  import opened Requests
  import opened Responses
  import opened ClientModel

  /** encode, the form with one handle: the value is cut to the buffer. */
  method EncodeOne(op: byte, handle: u16, buffer: array<byte>, value: seq<byte>) returns (ret: nat)
    modifies buffer
    ensures ret <= buffer.Length && buffer[..ret] == EncodeHandle(op, handle, value, buffer.Length)
  {
    ret := 3;
    if buffer.Length < ret {
      return 0;
    }
    var vlen := |value|;
    if vlen > buffer.Length - ret {
      vlen := buffer.Length - ret;
    }
    buffer[0] := op;
    Copy(buffer, 1, Put16(handle));
    Copy(buffer, 3, value[..vlen]);
    ret := ret + vlen;
  }

  /** opcode, start and end, which every range request begins with. */
  method PutHeader(op: byte, start: u16, end: u16, buffer: array<byte>)
    requires buffer.Length >= 5
    modifies buffer
    ensures buffer[..] == Overlay(old(buffer[..]), 0, [op] + Put16(start) + Put16(end))
  {
    ghost var was := buffer[..];
    buffer[0] := op;
    assert buffer[..] == Overlay(was, 0, [op]);
    Copy(buffer, 1, Put16(start));
    OverlayJoins(was, 0, [op], Put16(start));
    Copy(buffer, 3, Put16(end));
    OverlayJoins(was, 0, [op] + Put16(start), Put16(end));
  }

  /** encode, the form with a range; it trusts its caller that type and value fit the buffer. */
  method EncodeMany(op: byte, start: u16, end: u16, uuid: Option<BtUuid>, buffer: array<byte>, value: Option<seq<byte>>)
    returns (ret: nat)
    requires EncodeRange(op, start, end, uuid, value, buffer[..]).Some?
    modifies buffer
    ensures ret <= buffer.Length && Some(buffer[..ret]) == EncodeRange(op, start, end, uuid, value, old(buffer[..]))
  {
    ret := 5;
    if buffer.Length < ret {
      return 0;
    }
    ghost var was, header := buffer[..], [op] + Put16(start) + Put16(end);
    PutHeader(op, start, end, buffer);
    if uuid.Some? {
      if uuid.value == Unspecified {
        return 0;
      }
      Copy(buffer, 5, BtUuidBytes(uuid.value));
      OverlayJoins(was, 0, header, BtUuidBytes(uuid.value));
      ret := ret + |BtUuidBytes(uuid.value)|;
    } else {
      assert header + [] == header;
    }
    if value.Some? {
      Copy(buffer, 7, value.value);
      ret := ret + |value.value|;
    }
  }

  /** The loop invariant of the parsers: what was read so far, and what the rest reads as, is what all reads as. */
  ghost predicate ParseRest(s: Shape, all: seq<byte>, list: seq<Entry>, rest: seq<byte>) {
    match ReadEntries(s, rest)
    case None => ReadEntries(s, all).None?
    case Some(es) => ReadEntries(s, all) == Some(list + es)
  }

  lemma ParseStart(s: Shape, all: seq<byte>)
    ensures ParseRest(s, all, [], all)
  {
    if ReadEntries(s, all).Some? {
      assert [] + ReadEntries(s, all).value == ReadEntries(s, all).value;
    }
  }

  lemma ParseStep(s: Shape, all: seq<byte>, list: seq<Entry>, rest: seq<byte>, e: Entry)
    requires ParseRest(s, all, list, rest) && ShapeOk(s) && 0 < ChunkSize(s) <= |rest|
    requires e == ReadEntry(s, rest[..ChunkSize(s)])
    ensures ParseRest(s, all, list + [e], rest[ChunkSize(s)..])
  {
    var next := ReadEntries(s, rest[ChunkSize(s)..]);
    if next.Some? {
      assert list + ([e] + next.value) == list + [e] + next.value;
    }
  }

  lemma ParseEnd(s: Shape, all: seq<byte>, list: seq<Entry>)
    requires ParseRest(s, all, list, [])
    ensures ReadEntries(s, all) == Some(list)
  {
    assert list + [] == list;
  }

  /** parseAttributeList: a format byte, then handle and type pairs up to len. */
  method ParseAttributeList(buf: seq<byte>) returns (ok: bool, list: seq<Entry>)
    ensures ok == ParseBody(FindInfo, buf).Some?
    ensures ok ==> ParseBody(FindInfo, buf) == Some(list)
  {
    list := [];
    if buf == [] {
      return false, [];
    }
    var format, ptr := buf[0], 1;
    ghost var shape, all := if format == FMT_16BIT then Infos16 else Infos128, buf[1..];
    ParseStart(shape, all);
    while ptr < |buf|
      invariant 1 <= ptr <= |buf|
      invariant ParseRest(shape, all, list, buf[ptr..])
    {
      var size := if format == FMT_16BIT then 4 else 18;
      if ptr + size > |buf| {
        return false, [];
      }
      var handle := Get16(buf, ptr);
      var kind := if format == FMT_16BIT then Uuid16(Get16(buf, ptr + 2)) else Uuid128(buf[ptr + 2..ptr + 18]);
      assert buf[ptr..][..size] == buf[ptr..ptr + size] && buf[ptr..][size..] == buf[ptr + size..];
      assert buf[ptr..ptr + size][2..] == buf[ptr + 2..ptr + size];
      ParseStep(shape, all, list, buf[ptr..], Info(handle, kind));
      list := list + [Info(handle, kind)];
      ptr := ptr + size;
    }
    ParseEnd(shape, all, list);
    ok := true;
  }

  /** parseHandlesInformationList: handle and group end pairs up to len. */
  method ParseHandlesInformationList(buf: seq<byte>) returns (ok: bool, list: seq<Entry>)
    ensures ok == ParseBody(FindByType, buf).Some?
    ensures ok ==> ParseBody(FindByType, buf) == Some(list)
  {
    list := [];
    var ptr := 0;
    ParseStart(Ranges, buf);
    assert buf[0..] == buf;
    while ptr < |buf|
      invariant 0 <= ptr <= |buf|
      invariant ParseRest(Ranges, buf, list, buf[ptr..])
    {
      if ptr + 4 > |buf| {
        return false, [];
      }
      var e := Range(Get16(buf, ptr), Get16(buf, ptr + 2));
      assert buf[ptr..][..4] == buf[ptr..ptr + 4] && buf[ptr..][4..] == buf[ptr + 4..];
      ParseStep(Ranges, buf, list, buf[ptr..], e);
      list := list + [e];
      ptr := ptr + 4;
    }
    ParseEnd(Ranges, buf, list);
    ok := true;
  }

  /** parseAttributeDataList: a length byte, then handle and value records of that length. */
  method ParseAttributeDataList(buf: seq<byte>) returns (ok: bool, list: seq<Entry>)
    ensures ok == ParseBody(ReadByType, buf).Some?
    ensures ok ==> ParseBody(ReadByType, buf) == Some(list)
  {
    list := [];
    if buf == [] {
      return false, [];
    }
    var length, ptr := buf[0], 1;
    ghost var all := buf[1..];
    ParseStart(Datas(length), all);
    while ptr < |buf|
      invariant 1 <= ptr <= |buf|
      invariant ParseRest(Datas(length), all, list, buf[ptr..])
    {
      if length < 2 || ptr + length > |buf| {
        return false, [];
      }
      var e := Data(Get16(buf, ptr), buf[ptr + 2..ptr + length]);
      assert buf[ptr..][..length] == buf[ptr..ptr + length] && buf[ptr..][length..] == buf[ptr + length..];
      assert buf[ptr..ptr + length][2..] == buf[ptr + 2..ptr + length];
      ParseStep(Datas(length), all, list, buf[ptr..], e);
      list := list + [e];
      ptr := ptr + length;
    }
    ParseEnd(Datas(length), all, list);
    ok := true;
  }

  /** parseGroupAttributeDataList: a length byte, then handle, group end and value records of that length. */
  method ParseGroupAttributeDataList(buf: seq<byte>) returns (ok: bool, list: seq<Entry>)
    ensures ok == ParseBody(ReadByGroup, buf).Some?
    ensures ok ==> ParseBody(ReadByGroup, buf) == Some(list)
  {
    list := [];
    if buf == [] {
      return false, [];
    }
    var length, ptr := buf[0], 1;
    ghost var all := buf[1..];
    ParseStart(Groups(length), all);
    while ptr < |buf|
      invariant 1 <= ptr <= |buf|
      invariant ParseRest(Groups(length), all, list, buf[ptr..])
    {
      if length < 4 || ptr + length > |buf| {
        return false, [];
      }
      var e := Group(Get16(buf, ptr), Get16(buf, ptr + 2), buf[ptr + 4..ptr + length]);
      assert buf[ptr..][..length] == buf[ptr..ptr + length] && buf[ptr..][length..] == buf[ptr + length..];
      assert buf[ptr..ptr + length][4..] == buf[ptr + 4..ptr + length];
      ParseStep(Groups(length), all, list, buf[ptr..], e);
      list := list + [e];
      ptr := ptr + length;
    }
    ParseEnd(Groups(length), all, list);
    ok := true;
  }

  /** class Att. sent and calls record what was handed to the connection and to the application. */
  class Att {
    var currentRequest: Option<Request>
    var attributeList: Option<seq<Entry>>
    var handlesInfoList: Option<seq<Entry>>
    var groupAttributeList: Option<seq<Entry>>
    var notificationMap: map<u16, nat>
    var errorHandler: bool
    var sent: seq<Pdu>
    var calls: seq<Call>

    function State(): Client
      reads this
    {
      Client(currentRequest, attributeList, handlesInfoList, groupAttributeList, notificationMap, errorHandler,
             BehindHandle)
    }

    constructor (errorHandler: bool)
      ensures State() == Client(None, None, None, None, map[], errorHandler, BehindHandle) && sent == [] && calls == []
    {
      this.errorHandler := errorHandler;
      currentRequest, attributeList, handlesInfoList, groupAttributeList := None, None, None, None;
      notificationMap, sent, calls := map[], [], [];
    }

    /** The object went through f. */
    twostate predicate Did(f: Effect)
      reads this
    {
      f.Effect? && State() == f.client && sent == old(sent) + f.sent && calls == old(calls) + f.calls
    }

    /** setCurrentRequest: a compare-and-swap against no request. */
    method SetCurrentRequest(rd: Request) returns (ret: bool)
      modifies this`currentRequest
      ensures ret == old(currentRequest).None?
      ensures currentRequest == if ret then Some(rd) else old(currentRequest)
    {
      ret := currentRequest.None?;
      if ret {
        currentRequest := Some(rd);
      }
    }

    /** doFindInformation, doFindByType, doReadByType, doReadByGroupType: encode into a fresh buffer and write. */
    method DoRequest(a: Ask, start: u16, end: u16) returns (ok: bool)
      modifies this`sent
      ensures ok == RequestPdu(a, start, end, Blank()).Some?
      ensures ok ==> sent == old(sent) + [RequestPdu(a, start, end, Blank()).value]
      ensures !ok ==> sent == old(sent)
    {
      var buf := new byte[LE_BUFFER](_ => 0);
      assert buf[..] == Blank();
      if a.kind != Some(Unspecified) && RangeWritten(a.kind, a.value) > buf.Length {
        return false;
      }
      var len := EncodeMany(RequestOp(a.proc), start, end, a.kind, buf, a.value);
      sent := sent + [buf[..len]];
      ok := true;
    }

    /** findInformation, findByTypeValue, readByType, readByGroupType. */
    method RequestList(a: Ask, start: u16, end: u16, token: nat) returns (ok: bool)
      modifies this
      ensures ok == IssueList(old(State()), a, start, end, token).Effect?
      ensures ok ==> Did(IssueList(old(State()), a, start, end, token))
    {
      var accepted := SetCurrentRequest(ListRequest(a, end, token));
      if accepted {
        ok := DoRequest(a, start, end);
      } else {
        calls := calls + [ListDone(token, 0, None, Some(Busy(currentRequest.value.op)))];
        ok := true;
      }
    }

    method ReadAttribute(handle: u16, token: nat)
      modifies this
      ensures Did(IssueRead(old(State()), handle, token))
      ensures old(currentRequest).None? ==> sent == old(sent) + [[0x0A, handle % 0x100, handle / 0x100]]
    {
      var accepted := SetCurrentRequest(ReadRequest(handle, token));
      if accepted {
        HandleBytes(OP_READ_REQ, handle, []);
        assert [OP_READ_REQ, handle % 0x100, handle / 0x100] + [] == [OP_READ_REQ, handle % 0x100, handle / 0x100];
        var buf := new byte[LE_BUFFER](_ => 0);
        var len := EncodeOne(OP_READ_REQ, handle, buf, []);
        sent := sent + [buf[..len]];
      } else {
        calls := calls + [ReadDone(token, 0, None, Some(Busy(currentRequest.value.op)))];
      }
    }

    method WriteCommand(handle: u16, value: seq<byte>)
      modifies this`sent
      ensures Did(ClientModel.WriteCommand(old(State()), handle, value))
      ensures sent == old(sent) + [[0x52, handle % 0x100, handle / 0x100] + if |value| <= 20 then value else value[..20]]
    {
      var buf := new byte[LE_BUFFER](_ => 0);
      HandleBytes(OP_WRITE_CMD, handle, value);
      var len := EncodeOne(OP_WRITE_CMD, handle, buf, value);
      sent := sent + [buf[..len]];
    }

    method ListenForNotifications(handle: u16, token: nat)
      modifies this`notificationMap
      ensures Did(Listen(old(State()), handle, token))
    {
      if handle !in notificationMap {
        notificationMap := notificationMap[handle := token];
      }
    }

    method HandleFindInfo(rd: Request, a: Ask, status: byte, buf: Option<seq<byte>>,
                          error: Option<ErrorText>) returns (ok: bool)
      requires a.proc == FindInfo
      modifies this
      ensures ok == HandleLooped(old(State()), rd, a, status, buf, error).Effect?
      ensures ok ==> Did(HandleLooped(old(State()), rd, a, status, buf, error))
    {
      hide RequestPdu, ParseBody;
      var list := attributeList;
      if status == 0 {
        if buf.None? {
          return false;
        }
        var parsed, more := ParseAttributeList(buf.value);
        if !parsed {
          return false;
        }
        var all := (if list.Some? then list.value else []) + more;
        if all == [] {
          return false;
        }
        attributeList := Some(all);
        if all[|all| - 1].handle < rd.handle {
          ok := DoRequest(a, all[|all| - 1].handle + 1, rd.handle);
        } else {
          currentRequest, attributeList := None, None;
          calls := calls + [ListDone(rd.token, status, Some(all), error)];
          ok := true;
        }
      } else if status == ECODE_ATTR_NOT_FOUND {
        currentRequest, attributeList := None, None;
        calls := calls + [ListDone(rd.token, 0, list, None)];
        ok := true;
      } else {
        currentRequest, attributeList := None, None;
        calls := calls + [ListDone(rd.token, status, list, error)];
        ok := true;
      }
    }

    method HandleFindByType(rd: Request, a: Ask, status: byte, buf: Option<seq<byte>>,
                            error: Option<ErrorText>) returns (ok: bool)
      requires a.proc == FindByType
      modifies this
      ensures ok == HandleLooped(old(State()), rd, a, status, buf, error).Effect?
      ensures ok ==> Did(HandleLooped(old(State()), rd, a, status, buf, error))
    {
      hide RequestPdu, ParseBody;
      var list := handlesInfoList;
      if status == 0 {
        var parsed, more := true, [];
        if buf.Some? {
          parsed, more := ParseHandlesInformationList(buf.value);
        }
        if !parsed {
          return false;
        }
        var all := (if list.Some? then list.value else []) + more;
        if all == [] {
          return false;
        }
        handlesInfoList := Some(all);
        if all[|all| - 1].handle < rd.handle {
          ok := DoRequest(a, all[|all| - 1].handle + 1, rd.handle);
        } else {
          handlesInfoList, currentRequest := None, None;
          calls := calls + [ListDone(rd.token, status, Some(all), error)];
          ok := true;
        }
      } else if status == ECODE_ATTR_NOT_FOUND {
        if handlesInfoList.None? {
          currentRequest := None;
          calls := calls + [ListDone(rd.token, 0, None, Some(NotFound))];
        } else {
          handlesInfoList, currentRequest := None, None;
          calls := calls + [ListDone(rd.token, 0, list, None)];
        }
        ok := true;
      } else {
        handlesInfoList, currentRequest := None, None;
        calls := calls + [ListDone(rd.token, status, list, error)];
        ok := true;
      }
    }

    method HandleReadByGroupType(rd: Request, a: Ask, status: byte, buf: Option<seq<byte>>,
                                 error: Option<ErrorText>) returns (ok: bool)
      requires a.proc == ReadByGroup
      modifies this
      ensures ok == HandleLooped(old(State()), rd, a, status, buf, error).Effect?
      ensures ok ==> Did(HandleLooped(old(State()), rd, a, status, buf, error))
    {
      hide RequestPdu, ParseBody;
      var list := groupAttributeList;
      if status == 0 {
        if buf.None? {
          return false;
        }
        var parsed, more := ParseGroupAttributeDataList(buf.value);
        if !parsed {
          return false;
        }
        var all := (if list.Some? then list.value else []) + more;
        if all == [] {
          return false;
        }
        groupAttributeList := Some(all);
        if all[|all| - 1].handle < rd.handle {
          ok := DoRequest(a, all[|all| - 1].handle + 1, rd.handle);
        } else {
          groupAttributeList, currentRequest := None, None;
          calls := calls + [ListDone(rd.token, status, Some(all), error)];
          ok := true;
        }
      } else {
        groupAttributeList, currentRequest := None, None;
        calls := calls + [if status == ECODE_ATTR_NOT_FOUND then ListDone(rd.token, 0, list, None)
                          else ListDone(rd.token, status, list, error)];
        ok := true;
      }
    }

    method HandleReadByType(rd: Request, status: byte, buf: Option<seq<byte>>,
                            error: Option<ErrorText>) returns (ok: bool)
      modifies this
      ensures ok == ClientModel.HandleReadByType(old(State()), rd, status, buf, error).Effect?
      ensures ok ==> Did(ClientModel.HandleReadByType(old(State()), rd, status, buf, error))
    {
      if error.Some? {
        currentRequest := None;
        calls := calls + [ListDone(rd.token, status, Some([]), error)];
        return true;
      }
      if buf.None? {
        return false;
      }
      var parsed, list := ParseAttributeDataList(buf.value);
      if !parsed {
        return false;
      }
      currentRequest := None;
      calls := calls + [ListDone(rd.token, status, Some(list), error)];
      ok := true;
    }

    /** callbackCurrentRequest: the pending request's own callback gets the packet. */
    method CallbackCurrentRequest(status: byte, buf: Option<seq<byte>>, error: Option<ErrorText>) returns (ok: bool)
      modifies this
      ensures ok == Callback(old(State()), status, buf, error).Effect?
      ensures ok ==> Did(Callback(old(State()), status, buf, error))
    {
      if currentRequest.None? {
        return false;
      }
      var rd := currentRequest.value;
      match rd.handler
      case OnRead =>
        currentRequest := None;
        calls := calls + [ReadDone(rd.token, status, buf, error)];
        ok := true;
      case OnList(a) =>
        match a.proc {
          case FindInfo => ok := HandleFindInfo(rd, a, status, buf, error);
          case FindByType => ok := HandleFindByType(rd, a, status, buf, error);
          case ReadByGroup => ok := HandleReadByGroupType(rd, a, status, buf, error);
          case ReadByType => ok := HandleReadByType(rd, status, buf, error);
        }
    }

    /** handleRead with a transport error, which goes to the pending callback with status 0. */
    method HandleError() returns (ok: bool)
      modifies this
      ensures ok == HandleTransportError(old(State())).Effect?
      ensures ok ==> Did(HandleTransportError(old(State())))
    {
      ok := CallbackCurrentRequest(0, None, Some(Transport));
    }

    /** handleRead: the packet dispatcher. */
    method HandleRead(pdu: Pdu) returns (ok: bool)
      modifies this
      ensures ok == ClientModel.HandleRead(old(State()), pdu).Effect?
      ensures ok ==> Did(ClientModel.HandleRead(old(State()), pdu))
    {
      if pdu == [] {
        return false;
      }
      ok := true;
      if pdu[0] == OP_ERROR {
        if |pdu| < 5 {
          return false;
        }
        var message := Remote(pdu[1], Get16(pdu, 2), pdu[4]);
        if currentRequest.Some? && currentRequest.value.op == pdu[1] {
          ok := CallbackCurrentRequest(pdu[4], None, Some(message));
        } else if errorHandler {
          calls := calls + [ErrorRaised(message)];
        }
      } else if pdu[0] == OP_HANDLE_NOTIFY {
        if |pdu| < 3 {
          return false;
        }
        var handle := Get16(pdu, 1);
        if handle in notificationMap {
          calls := calls + [Notified(notificationMap[handle], pdu[3..])];
        } else if errorHandler {
          calls := calls + [ErrorRaised(Unexpected(pdu[0]))];
        }
      } else if currentRequest.Some? {
        ok := CallbackCurrentRequest(0, Some(pdu[1..]), None);
      } else if errorHandler {
        calls := calls + [ErrorRaised(Unexpected(pdu[0]))];
      }
    }
  }
}
