/** The attribute server of lib/att.js as a state machine: one connected central, one attribute table. */
module ServerModel {
  import opened Bytes
  import opened AttTypes
  import opened Search
  import opened Requests
  import opened Responses

  /** MTU values: the LE minimum is 23 and the field has 16 bits. */
  type Mtu = m: nat | DEFAULT_MTU <= m < 0x1_0000 witness 23

  /** findAttributes as written stops below the end handle (lib/att.js:216); Part F section 3.4.3.1 includes it. */
  datatype Bound = BelowEnd | ThroughEnd

  function Limit(b: Bound, end: u16): nat {
    if b == BelowEnd then end else end + 1
  }

  /** The two readings of the code that the results distinguish: the range bound and the group size stop. */
  datatype Reading = Reading(bound: Bound, stop: GroupStop)

  datatype Kind = Notifying | Indicating

  datatype Listener = Listener(id: nat, kind: Kind)

  /** One attribute's emitter: the registered listeners in order, and its two listener fields. */
  datatype Emitter = Emitter(listeners: seq<Listener>, notify: Option<nat>, indicate: Option<nat>)

  const SILENT := Emitter([], None, None)

  /** mtu is the module variable mtuSize, stored is the central's own MTU. */
  datatype Server = Server(
    table: Table, emitters: map<u16, Emitter>, mtu: Mtu, stored: Mtu, waiting: bool, nextId: nat, reading: Reading)

  function EmitterOf(s: Server, h: u16): Emitter {
    if h in s.emitters then s.emitters[h] else SILENT
  }

  function ErrorPdu(op: byte, h: u16, code: byte): Pdu {
    [OP_ERROR, op] + Put16(h) + [code]
  }

  function ValuePdu(op: byte, h: u16, value: seq<byte>, mtu: Mtu): Pdu {
    [op] + Put16(h) + value[..Min(|value|, mtu - 3)]
  }

  /** A change of value calls the listeners in order; indications are held back while one is unconfirmed. */
  function Fire(ls: seq<Listener>, h: u16, value: seq<byte>, mtu: Mtu, waiting: bool): (r: (seq<Pdu>, bool)) {
    if ls == [] then ([], waiting)
    else if ls[0].kind == Notifying then
      var (out, w) := Fire(ls[1..], h, value, mtu, waiting);
      ([ValuePdu(OP_HANDLE_NOTIFY, h, value, mtu)] + out, w)
    else if waiting then Fire(ls[1..], h, value, mtu, true)
    else
      var (out, w) := Fire(ls[1..], h, value, mtu, true);
      ([ValuePdu(OP_HANDLE_IND, h, value, mtu)] + out, w)
  }

  function WithValue(t: Table, h: u16, v: seq<byte>): Table
    requires h in t
  {
    t[h := t[h].(value := v)]
  }

  /** The value setter of a registered attribute. */
  function SetValue(s: Server, h: u16, v: seq<byte>): (r: (Server, seq<Pdu>))
    requires h in s.table
  {
    var (out, w) := Fire(EmitterOf(s, h).listeners, h, v, s.mtu, s.waiting);
    (s.(table := WithValue(s.table, h, v), waiting := w), out)
  }

  predicate HasProp(props: byte, bit: byte)
    requires bit > 0
  {
    (props / bit) % 2 == 1
  }

  predicate MayWrite(a: Attr, respond: bool) {
    HasProp(a.props, if respond then PROP_WRITE else PROP_WRITE_WITHOUT_RESP)
  }

  /** Refusals of a Write Command, too, name the Write Request opcode. */
  function DoWrite(s: Server, h: u16, v: seq<byte>, respond: bool): (Server, seq<Pdu>) {
    if h !in s.table then (s, [ErrorPdu(OP_WRITE_REQ, h, ECODE_INVALID_HANDLE)])
    else if !MayWrite(s.table[h], respond) then (s, [ErrorPdu(OP_WRITE_REQ, h, ECODE_WRITE_NOT_PERM)])
    else
      var (s', out) := SetValue(s, h, v);
      (s', out + if respond then [[OP_WRITE_RESP]] else [])
  }

  /**
   * The loop of Find By Type Value compares the type once more (lib/att.js:331), and no attribute's type is the
   * null that the number 0 has become: such a search finds every attribute with the value and packs none.
   */
  predicate Packs(q: Query) {
    q.proc == FindByType ==> !q.kind.AnyType?
  }

  /** The reply to a list request whose fields were read: an error or a packed response. */
  function ListReply(t: Table, r: Reading, mtu: nat, f: Fields): Pdu {
    var p := f.query.proc;
    if (p == FindInfo || p == FindByType) && (f.start == 0 || f.start > f.end) then
      ErrorPdu(RequestOp(p), f.start, ECODE_INVALID_HANDLE)
    else
      var hits := Hits(t, f.query, f.start, Limit(r.bound, f.end));
      if hits == [] then ErrorPdu(RequestOp(p), f.start, ECODE_ATTR_NOT_FOUND)
      else if Packs(f.query) then Response(p, r.stop, hits, mtu)
      else [ResponseOp(p)]
  }

  function HandleList(s: Server, p: Procedure, data: seq<byte>): seq<Pdu> {
    match ReadFields(p, data)
    case None => []
    case Some(f) => [ListReply(s.table, s.reading, s.mtu, f)]
  }

  function HandleMtu(s: Server, data: seq<byte>): (Server, seq<Pdu>) {
    if |data| < 2 then (s, [])
    else
      var asked := Get16(data, 0);
      var out := [[OP_MTU_RESP] + Put16(s.stored)];
      if asked < DEFAULT_MTU then (s.(mtu := DEFAULT_MTU, stored := DEFAULT_MTU), out)
      else if asked < s.stored then (s.(mtu := asked, stored := asked), out)
      else (s.(mtu := s.stored), out)
  }

  function HandleReadRequest(s: Server, data: seq<byte>): seq<Pdu> {
    if |data| < 2 then []
    else
      var h := Get16(data, 0);
      if h !in s.table then [ErrorPdu(OP_READ_REQ, h, ECODE_ATTR_NOT_FOUND)]
      else
        var v := s.table[h].value;
        [[OP_READ_RESP] + v[..Min(|v|, s.mtu - 1)]]
  }

  /** The data handler: what one packet from the central does. A handler that throws sends nothing. */
  function Receive(s: Server, pdu: Pdu): (Server, seq<Pdu>) {
    if pdu == [] then (s, [ErrorPdu(0, 0, ECODE_REQ_NOT_SUPP)])
    else
      var op, data := pdu[0], pdu[1..];
      if op == OP_MTU_REQ then HandleMtu(s, data)
      else if op == OP_FIND_INFO_REQ then (s, HandleList(s, FindInfo, data))
      else if op == OP_FIND_BY_TYPE_REQ then (s, HandleList(s, FindByType, data))
      else if op == OP_READ_BY_TYPE_REQ then (s, HandleList(s, ReadByType, data))
      else if op == OP_READ_BY_GROUP_REQ then (s, HandleList(s, ReadByGroup, data))
      else if op == OP_READ_REQ then (s, HandleReadRequest(s, data))
      else if op == OP_WRITE_REQ || op == OP_WRITE_CMD then
        if |data| < 2 then (s, []) else DoWrite(s, Get16(data, 0), data[2..], op == OP_WRITE_REQ)
      else if op == OP_HANDLE_CNF then (s.(waiting := false), [])
      else if op == OP_ERROR || op == OP_READ_BLOB_REQ || op == OP_READ_MULTI_REQ then (s, [])
      else (s, [ErrorPdu(op, 0, ECODE_REQ_NOT_SUPP)])
  }

  /** What the application does on the server's side. */
  datatype Local =
    | SetLocal(h: u16, value: seq<byte>)
    | EnableNotify(h: u16)
    | DisableNotify(h: u16)
    | EnableIndicate(h: u16)
    | DisableIndicate(h: u16)

  function Without(ls: seq<Listener>, id: nat): seq<Listener> {
    Filter((l: Listener) => l.id != id, ls)
  }

  function Added(e: Emitter, l: Listener): Emitter {
    if l.kind == Notifying then e.(listeners := e.listeners + [l], notify := Some(l.id))
    else e.(listeners := e.listeners + [l], indicate := Some(l.id))
  }

  /** Only the listener that the field still names is removed. */
  function Removed(e: Emitter, k: Kind): Emitter {
    if k == Notifying then
      if e.notify.None? then e else e.(listeners := Without(e.listeners, e.notify.value), notify := None)
    else
      if e.indicate.None? then e else e.(listeners := Without(e.listeners, e.indicate.value), indicate := None)
  }

  predicate Blocked(e: Emitter, k: Kind) {
    (if k == Notifying then e.indicate else e.notify).Some?
  }

  function WithEmitter(m: map<u16, Emitter>, h: u16, e: Emitter): map<u16, Emitter> {
    m[h := e]
  }

  /** Enabling the one kind throws while a listener of the other kind is set; the first value is sent at once. */
  function Enable(s: Server, h: u16, k: Kind): (Server, seq<Pdu>)
    requires h in s.table
  {
    if Blocked(EmitterOf(s, h), k) then (s, [])
    else
      var l := Listener(s.nextId, k);
      var (out, w) := Fire([l], h, s.table[h].value, s.mtu, s.waiting);
      (s.(emitters := WithEmitter(s.emitters, h, Added(EmitterOf(s, h), l)), nextId := s.nextId + 1, waiting := w), out)
  }

  function Disable(s: Server, h: u16, k: Kind): Server {
    s.(emitters := WithEmitter(s.emitters, h, Removed(EmitterOf(s, h), k)))
  }

  function Do(s: Server, l: Local): (Server, seq<Pdu>) {
    if l.h !in s.table then (s, [])
    else
      match l
      case SetLocal(h, v) => SetValue(s, h, v)
      case EnableNotify(h) => Enable(s, h, Notifying)
      case EnableIndicate(h) => Enable(s, h, Indicating)
      case DisableNotify(h) => (Disable(s, h, Notifying), [])
      case DisableIndicate(h) => (Disable(s, h, Indicating), [])
  }
}
