/** The attribute client of src/att.cc as a state machine. */
module ClientModel {
  import opened Bytes
  import opened AttTypes
  import opened Requests
  import opened Responses

  datatype ErrorText =
    | Busy(op: byte)
    | Remote(op: byte, handle: u16, code: byte)
    | NotFound
    | Transport
    | Unexpected(op: byte)

  /** Which of the callbacks onFindInfo, ..., onReadAttribute a request carries, and its arguments. */
  datatype Handler = OnList(ask: Ask) | OnRead

  /** struct readData; for a list request handle holds the end handle. */
  datatype Request = Request(op: byte, expected: byte, token: nat, handle: u16, handler: Handler)

  /** A call back into the application; token stands for the user data it was given. */
  datatype Call =
    | ListDone(token: nat, status: byte, list: Option<seq<Entry>>, error: Option<ErrorText>)
    | ReadDone(token: nat, status: byte, buf: Option<seq<byte>>, error: Option<ErrorText>)
    | Notified(token: nat, value: seq<byte>)
    | ErrorRaised(text: ErrorText)

  /**
   * Where a list request goes on: behind the last handle it has seen, as src/att.cc does, or behind the end of the
   * last group, as Part G section 4.4.1 prescribes for groups.
   */
  datatype Resume = BehindHandle | BehindEnd

  /** The last handle that an entry covers. */
  function Reach(rule: Resume, e: Entry): u16 {
    if rule == BehindEnd && e.Group? then e.end else e.handle
  }

  /** Where the next chunk behind a non-empty list starts. */
  function Behind(rule: Resume, list: seq<Entry>): nat
    requires list != []
  {
    Reach(rule, list[|list| - 1]) + 1
  }

  datatype Client = Client(
    current: Option<Request>,
    infos: Option<seq<Entry>>, ranges: Option<seq<Entry>>, groups: Option<seq<Entry>>,
    listeners: map<u16, nat>, errorHandler: bool, resume: Resume)

  /** Undefined: the C++ code reads outside its buffers or dereferences nothing. */
  datatype Effect = Undefined | Effect(client: Client, sent: seq<Pdu>, calls: seq<Call>)

  /** The buffer a request is encoded into; its previous content never reaches a packet that is meant to be sent. */
  function Blank(): (b: seq<byte>)
    ensures |b| == LE_BUFFER
  {
    seq(LE_BUFFER, _ => 0)
  }

  /** The accumulator of a procedure; Read By Type is answered in one go and has none. */
  function Acc(c: Client, p: Procedure): Option<seq<Entry>> {
    match p
    case FindInfo => c.infos
    case FindByType => c.ranges
    case ReadByGroup => c.groups
    case ReadByType => None
  }

  function WithAcc(c: Client, p: Procedure, list: Option<seq<Entry>>): Client {
    match p
    case FindInfo => c.(infos := list)
    case FindByType => c.(ranges := list)
    case ReadByGroup => c.(groups := list)
    case ReadByType => c
  }

  function Items(list: Option<seq<Entry>>): seq<Entry> {
    if list.Some? then list.value else []
  }

  function ListRequest(a: Ask, end: u16, token: nat): Request {
    Request(RequestOp(a.proc), ResponseOp(a.proc), token, end, OnList(a))
  }

  function ReadRequest(h: u16, token: nat): Request {
    Request(OP_READ_REQ, OP_READ_RESP, token, h, OnRead)
  }

  /** findInformation, findByTypeValue, readByType, readByGroupType. */
  function IssueList(c: Client, a: Ask, start: u16, end: u16, token: nat): Effect {
    if c.current.Some? then Effect(c, [], [ListDone(token, 0, None, Some(Busy(c.current.value.op)))])
    else
      match RequestPdu(a, start, end, Blank())
      case None => Undefined
      case Some(pdu) => Effect(c.(current := Some(ListRequest(a, end, token))), [pdu], [])
  }

  function IssueRead(c: Client, h: u16, token: nat): Effect {
    if c.current.Some? then Effect(c, [], [ReadDone(token, 0, None, Some(Busy(c.current.value.op)))])
    else Effect(c.(current := Some(ReadRequest(h, token))), [EncodeHandle(OP_READ_REQ, h, [], LE_BUFFER)], [])
  }

  function WriteCommand(c: Client, h: u16, value: seq<byte>): Effect {
    Effect(c, [EncodeHandle(OP_WRITE_CMD, h, value, LE_BUFFER)], [])
  }

  /** std::map::insert keeps the listener that is already there. */
  function Listen(c: Client, h: u16, token: nat): Effect {
    Effect(if h in c.listeners then c else c.(listeners := c.listeners[h := token]), [], [])
  }

  /** removeCurrentRequest and the callback, with the accumulator detached. */
  function Finish(c: Client, p: Procedure, call: Call): Effect {
    Effect(WithAcc(c, p, None).(current := None), [], [call])
  }

  /** The list so far decides: deliver it, or ask again from behind its last entry. */
  function Continue(c: Client, r: Request, a: Ask, list: seq<Entry>, error: Option<ErrorText>): Effect {
    if list == [] then Undefined
    else if Behind(c.resume, list) > r.handle then Finish(c, a.proc, ListDone(r.token, 0, Some(list), error))
    else
      match RequestPdu(a, Behind(c.resume, list), r.handle, Blank())
      case None => Undefined
      case Some(pdu) => Effect(WithAcc(c, a.proc, Some(list)), [pdu], [])
  }

  /** handleFindInfo, handleFindByType, handleReadByGroupType: a chunk of a list has arrived. */
  function Chunk(c: Client, r: Request, a: Ask, body: Option<seq<byte>>, error: Option<ErrorText>): Effect {
    var parsed := if body.Some? then ParseBody(a.proc, body.value) else if a.proc == FindByType then Some([]) else None;
    if parsed.None? then Undefined else Continue(c, r, a, Items(Acc(c, a.proc)) + parsed.value, error)
  }

  function HandleLooped(c: Client, r: Request, a: Ask, status: byte, body: Option<seq<byte>>,
                        error: Option<ErrorText>): Effect {
    var list := Acc(c, a.proc);
    if status == 0 then Chunk(c, r, a, body, error)
    else if status == ECODE_ATTR_NOT_FOUND then
      Finish(c, a.proc, ListDone(r.token, 0, list, if a.proc == FindByType && list.None? then Some(NotFound) else None))
    else Finish(c, a.proc, ListDone(r.token, status, list, error))
  }

  /** handleReadByType: no loop, and the error decides. */
  function HandleReadByType(c: Client, r: Request, status: byte, body: Option<seq<byte>>,
                            error: Option<ErrorText>): Effect {
    if error.Some? then Finish(c, ReadByType, ListDone(r.token, status, Some([]), error))
    else if body.None? || ParseBody(ReadByType, body.value).None? then Undefined
    else Finish(c, ReadByType, ListDone(r.token, status, ParseBody(ReadByType, body.value), error))
  }

  /** callbackCurrentRequest. */
  function Callback(c: Client, status: byte, body: Option<seq<byte>>, error: Option<ErrorText>): Effect {
    match c.current
    case None => Undefined
    case Some(r) =>
      match r.handler
      case OnRead => Effect(c.(current := None), [], [ReadDone(r.token, status, body, error)])
      case OnList(a) =>
        if a.proc == ReadByType then HandleReadByType(c, r, status, body, error)
        else HandleLooped(c, r, a, status, body, error)
  }

  function Raise(c: Client, text: ErrorText): Effect {
    Effect(c, [], if c.errorHandler then [ErrorRaised(text)] else [])
  }

  /** handleRead: one packet from the server. */
  function HandleRead(c: Client, pdu: Pdu): Effect {
    if pdu == [] then Undefined
    else if pdu[0] == OP_ERROR then
      if |pdu| < 5 then Undefined
      else
        var text := Remote(pdu[1], Get16(pdu, 2), pdu[4]);
        if c.current.Some? && c.current.value.op == pdu[1] then Callback(c, pdu[4], None, Some(text))
        else Raise(c, text)
    else if pdu[0] == OP_HANDLE_NOTIFY then
      if |pdu| < 3 then Undefined
      else
        var h := Get16(pdu, 1);
        if h in c.listeners then Effect(c, [], [Notified(c.listeners[h], pdu[3..])])
        else Raise(c, Unexpected(pdu[0]))
    else if c.current.Some? then Callback(c, 0, Some(pdu[1..]), None)
    else Raise(c, Unexpected(pdu[0]))
  }

  /** handleRead with a transport error: status 0 and no buffer go to the pending callback (src/att.cc:569-570). */
  function HandleTransportError(c: Client): Effect {
    Callback(c, 0, None, Some(Transport))
  }

  /** Everything that can happen to a client. */
  datatype Event =
    | List(ask: Ask, start: u16, end: u16, token: nat)
    | Read(handle: u16, token: nat)
    | Write(handle: u16, value: seq<byte>)
    | ListenFor(handle: u16, token: nat)
    | Packet(pdu: Pdu)
    | TransportFailed

  function Step(c: Client, e: Event): Effect {
    match e
    case List(a, s, end, token) => IssueList(c, a, s, end, token)
    case Read(h, token) => IssueRead(c, h, token)
    case Write(h, v) => WriteCommand(c, h, v)
    case ListenFor(h, token) => Listen(c, h, token)
    case Packet(pdu) => HandleRead(c, pdu)
    case TransportFailed => HandleTransportError(c)
  }
}
