/** What the four searches and a Read deliver, told in terms of the attribute table alone. */
module Results {
  import opened Bytes
  import opened AttTypes
  import opened Search
  import opened Requests
  import opened ServerModel
  import opened ServerRuns
  import opened ClientModel
  import opened ClientSafety
  import opened Conversation
  import opened Delivery

  /** The one callback of a search that is not refused: the list, or nothing when there is none. */
  function Done(token: nat, list: seq<Entry>, none: Option<ErrorText>): Call {
    if list == [] then ListDone(token, 0, None, none) else ListDone(token, 0, Some(list), None)
  }

  /** What comes of a search that an idle client makes. */
  function Outcome(s: Server, c: Client, a: Ask, start: u16, end: u16, token: nat): Effect {
    var f := IssueList(c, a, start, end, token);
    if f.Effect? && |f.sent| == 1 then Converse(s, f.client, f.sent[0], if start <= end then end - start + 1 else 1)
    else Undefined
  }

  /** The handles that a search of the server takes in: as written without the end handle. */
  predicate InRange(s: Server, start: u16, end: u16, h: int) {
    start <= h && if s.reading.bound == BelowEnd then h < end else h <= end
  }

  lemma DeliversOutcome(s: Server, c: Client, a: Ask, start: u16, end: u16, token: nat)
    requires Delivers(s, c, a, start, end, token)
    ensures Outcome(s, c, a, start, end, token) ==
            Effect(c, [], [Verdict(s.table, s.reading.bound, Fields(start, end, Understood(a)), token)])
  {
    hide Converse, Verdict, Understood;
  }

  /** The attribute under h is in the range, and has the type and the value that are asked for. */
  predicate Wanted(s: Server, q: Query, start: u16, end: u16, h: u16) {
    && InRange(s, start, end, h) && h in s.table
    && (q.kind.AnyType? || q.kind == OneType(s.table[h].kind))
    && (q.value.None? || q.value == Some(s.table[h].value))
  }

  /** The entry that a procedure has for an attribute. */
  predicate Tells(p: Procedure, e: Entry, a: Attr) {
    match e
    case Info(_, k) => p == FindInfo && k == a.kind
    case Range(_, g) => p == FindByType && g == a.end
    case Data(_, v) => p == ReadByType && v == a.value
    case Group(_, g, v) => p == ReadByGroup && g == a.end && v == a.value
  }

  /** What a scan finds, in terms of the table: the attributes that are wanted, each told by its own fields. */
  lemma ScanInTable(s: Server, q: Query, start: u16, end: u16)
    ensures var list := Matching(s.table, s.reading.bound, Fields(start, end, q));
            && Ascending(list)
            && (forall e :: e in list <==> Wanted(s, q, start, end, e.handle) && Tells(q.proc, e, s.table[e.handle]))
            && (list == [] <==> forall h: u16 :: !Wanted(s, q, start, end, h))
  {
    var t, lim := s.table, Limit(s.reading.bound, end);
    var list := Hits(t, q, start, lim);
    HitsAreTheFilter(t, q, start, lim);
    forall e
      ensures IsHit(t, q, start, lim, e) <==> Wanted(s, q, start, end, e.handle) && Tells(q.proc, e, t[e.handle])
    {
    }
    forall h: u16 | Wanted(s, q, start, end, h)
      ensures list != []
    {
      assert IsHit(t, q, start, lim, EntryOf(q.proc, h, t[h]));
    }
    if list != [] {
      assert list[0] in list;
    }
  }

  /**
   * Find Information, for every table, MTU, range, client and reading: the attributes of the range, in the order of
   * their handles, each with its type.
   */
  lemma FindInformationResult(s: Server, c: Client, start: u16, end: u16, token: nat) returns (list: seq<Entry>)
    requires Inv(c) && c.current.None?
    ensures Outcome(s, c, Ask(FindInfo, None, None), start, end, token) ==
            Effect(c, [], [if start == 0 || start > end then
                             ListDone(token, 0x01, None, Some(Remote(0x04, start, 0x01)))
                           else Done(token, list, None)])
    ensures Ascending(list) && AllFor(FindInfo, list)
    ensures forall h: u16, k: Uuid :: Info(h, k) in list <==>
              InRange(s, start, end, h) && h in s.table && s.table[h].kind == k
    ensures list == [] <==> forall h: u16 :: InRange(s, start, end, h) ==> h !in s.table
  {
    hide Hits, Delivers, Outcome, InRange, Ascending;
    var a := Ask(FindInfo, None, None);
    assert Understood(a) == Query(FindInfo, AnyType, None);
    FindInformationDelivers(s, c, start, end, token);
    DeliversOutcome(s, c, a, start, end, token);
    ScanInTable(s, Understood(a), start, end);
    list := Matching(s.table, s.reading.bound, Fields(start, end, Understood(a)));
    assert forall h: u16 :: InRange(s, start, end, h) && h in s.table ==> Wanted(s, Understood(a), start, end, h);
  }

  /** The number in the first two bytes of a type, low byte first. */
  function Number(u: BtUuid): u16
    requires !u.Unspecified?
  {
    match u
    case U16(v) => v
    case U32(q) => q[0] as int + 0x100 * q[1] as int
    case U128(l) => l[0] as int + 0x100 * l[1] as int
  }

  /** What a type holds behind its first two bytes. */
  function Rest(u: BtUuid): seq<byte>
    requires !u.Unspecified?
  {
    match u
    case U16(_) => []
    case U32(q) => q[2..]
    case U128(l) => l[2..]
  }

  lemma TypeUnderstood(p: Procedure, u: BtUuid, value: Option<seq<byte>>)
    requires !u.Unspecified? && (p == FindByType || p == ReadByType) && (p == FindByType <==> value.Some?)
    ensures Understood(Ask(p, Some(u), value)) ==
            Query(p, if Number(u) == 0 then AnyType else OneType(Uuid16(Number(u))),
                  if value.Some? then Some(Rest(u) + value.value) else None)
  {
    var v := if value.Some? then value.value else [];
    var bytes := BtUuidBytes(u) + v;
    assert Get16(bytes, 0) == Number(u);
    assert bytes[2..] == Rest(u) + v;
  }

  /**
   * Find By Type Value, for every request that does not depend on what the buffer held before: the attributes of the
   * range that have the type and the value, each with the end of its group. Of a type wider than two bytes the first
   * two are taken for the type and the others for the value. The type 0 is searched as any type, and what is found
   * then is not packed, on which the client reads past its list.
   */
  lemma FindByTypeValueResult(s: Server, c: Client, u: BtUuid, value: seq<byte>, start: u16, end: u16, token: nat)
    returns (list: seq<Entry>)
    requires Inv(c) && c.current.None? && !u.Unspecified? && if u.U16? then |value| <= 16 else value == []
    ensures Number(u) != 0 || start == 0 || start > end || list == [] ==>
              Outcome(s, c, Ask(FindByType, Some(u), Some(value)), start, end, token) ==
              Effect(c, [], [if start == 0 || start > end then
                               ListDone(token, 0x01, None, Some(Remote(0x06, start, 0x01)))
                             else Done(token, list, Some(NotFound))])
    ensures Number(u) == 0 && 0 != start <= end && list != [] ==>
              Outcome(s, c, Ask(FindByType, Some(u), Some(value)), start, end, token).Undefined?
    ensures Ascending(list) && AllFor(FindByType, list)
    ensures forall h: u16, g: u16 :: Range(h, g) in list <==>
              InRange(s, start, end, h) && h in s.table && (Number(u) == 0 || s.table[h].kind == Uuid16(Number(u))) &&
              s.table[h].value == Rest(u) + value && s.table[h].end == g
  {
    hide Hits, Delivers, Outcome, InRange, Ascending, AllChunked, Rest, Number;
    var a := Ask(FindByType, Some(u), Some(value));
    TypeUnderstood(FindByType, u, Some(value));
    var f := Fields(start, end, Understood(a));
    DeliversIff(s, c, a, start, end, token);
    ValuelessIsChunked(s, c.resume, f);
    ScanInTable(s, Understood(a), start, end);
    list := Matching(s.table, s.reading.bound, f);
    if Number(u) != 0 || start == 0 || start > end || list == [] {
      DeliversOutcome(s, c, a, start, end, token);
    } else {
      UnpackedOutcome(s, c, a, start, end, token);
    }
  }

  /** What is found and not packed makes an empty response, behind which the client looks for the last of no entries. */
  lemma UnpackedOutcome(s: Server, c: Client, a: Ask, start: u16, end: u16, token: nat)
    requires Inv(c) && c.current.None? && Settled(a) && !Packs(Understood(a)) && 0 != start <= end
    requires Matching(s.table, s.reading.bound, Fields(start, end, Understood(a))) != []
    ensures Outcome(s, c, a, start, end, token).Undefined?
  {
    hide RequestPdu, Hits, Receive, Understood, Settled;
    RequestSent(a, start, end);
    RequestIsAnswered(s, a, start, end);
    OneAccumulator(c, FindByType, FindByType);
  }

  /** The type that a group search looks for: no attribute has a type of four bytes. */
  function GroupType(u: BtUuid): Option<Uuid> {
    match u
    case U16(v) => Some(Uuid16(v))
    case U128(l) => Some(Kept(l))
    case _ => None
  }

  /** A search for groups: their handles, ends and values, if all of them get across. */
  lemma ReadByGroupTypeResult(s: Server, c: Client, u: BtUuid, start: u16, end: u16, token: nat)
    returns (list: seq<Entry>)
    requires Inv(c) && c.current.None? && !u.Unspecified?
    ensures Ascending(list) && AllFor(ReadByGroup, list)
    ensures Outcome(s, c, Ask(ReadByGroup, Some(u), None), start, end, token) ==
              Effect(c, [], [Done(token, list, None)]) <==>
            list == [] || Chunked(ReadByGroup, s.reading.stop, c.resume, list, s.mtu)
    ensures forall h: u16, g: u16, x: seq<byte> :: Group(h, g, x) in list <==>
              InRange(s, start, end, h) && h in s.table &&
              GroupType(u) == Some(s.table[h].kind) &&
              s.table[h].end == g && s.table[h].value == x
  {
    hide Hits, InRange, Ascending, Converse, Chunked;
    var a := Ask(ReadByGroup, Some(u), None);
    GroupUnderstood(u);
    DeliversIff(s, c, a, start, end, token);
    ScanInTable(s, Understood(a), start, end);
    list := Matching(s.table, s.reading.bound, Fields(start, end, Understood(a)));
    RequestSent(a, start, end);
  }

  lemma GroupUnderstood(u: BtUuid)
    requires !u.Unspecified?
    ensures Understood(Ask(ReadByGroup, Some(u), None)) ==
            Query(ReadByGroup, if GroupType(u).Some? then OneType(GroupType(u).value) else NoType, None)
    ensures Settled(Ask(ReadByGroup, Some(u), None))
  {
    assert BtUuidBytes(u) + [] == BtUuidBytes(u);
    if u.U16? {
      Field16RoundTrip([], u.v, [], [0, 0], 0);
      assert [] + Put16(u.v) + [] == Put16(u.v);
    }
  }

  /**
   * A Read By Type, its type taken from the first two bytes: the one answer is a first part of the list, if the first
   * value of that fits.
   */
  lemma ReadByTypeResult(s: Server, c: Client, u: BtUuid, start: u16, end: u16, token: nat)
    returns (list: seq<Entry>, k: nat)
    requires Inv(c) && c.current.None? && !u.Unspecified?
    ensures Ascending(list) && AllFor(ReadByType, list)
    ensures forall h: u16, x: seq<byte> :: Data(h, x) in list <==>
              InRange(s, start, end, h) && h in s.table && (Number(u) == 0 || s.table[h].kind == Uuid16(Number(u))) &&
              s.table[h].value == x
    ensures list == [] ==>
              Outcome(s, c, Ask(ReadByType, Some(u), None), start, end, token) ==
              Effect(c, [], [ListDone(token, 0x0A, Some([]), Some(Remote(0x08, start, 0x0A)))])
    ensures list != [] && |list[0].value| + 6 <= s.mtu && |list[0].value| + 2 < 0x100 ==>
              0 < k <= |list| &&
              Outcome(s, c, Ask(ReadByType, Some(u), None), start, end, token) ==
              Effect(c, [], [ListDone(token, 0, Some(list[..k]), None)])
  {
    hide Hits, InRange, Ascending, Receive, HandleRead, Number, Rest;
    var a := Ask(ReadByType, Some(u), None);
    TypeUnderstood(ReadByType, u, None);
    SingleDeliversIff(s, c, a, start, end, token);
    ScanInTable(s, Understood(a), start, end);
    list := Matching(s.table, s.reading.bound, Fields(start, end, Understood(a)));
    k := 0;
    SingleOutcome(s, c, a, start, end, token);
    var f := Outcome(s, c, a, start, end, token);
    if list != [] && |list[0].value| + 6 <= s.mtu && |list[0].value| + 2 < 0x100 {
      k := |f.calls[0].list.value|;
    }
  }

  /** A Read By Type is over after its one answer, however many more could be delivered. */
  lemma SingleOutcome(s: Server, c: Client, a: Ask, start: u16, end: u16, token: nat)
    requires Inv(c) && c.current.None? && Settled(a) && a.proc == ReadByType
    ensures var f := IssueList(c, a, start, end, token);
            f.Effect? && |f.sent| == 1 &&
            var one := Converse(s, f.client, f.sent[0], 1);
            one.Effect? && one.sent == [] ==> Outcome(s, c, a, start, end, token) == one
  {
    hide RequestPdu, Receive, HandleRead;
    RequestSent(a, start, end);
  }

  /** The first bytes of a value, as many as fit behind the opcode of a Read Response. */
  function Readable(v: seq<byte>, mtu: nat): seq<byte>
    requires mtu >= 1
  {
    if |v| <= mtu - 1 then v else v[..mtu - 1]
  }

  /** What a Read of handle h reports: its value as far as it fits, or that there is no such attribute. */
  function ReadReport(t: Table, mtu: Mtu, h: u16, token: nat): Call {
    if h in t then ReadDone(token, 0, Some(Readable(t[h].value, mtu)), None)
    else ReadDone(token, 0x0A, None, Some(Remote(0x0A, h, 0x0A)))
  }

  /** The packet that a Read sends. */
  function ReadPacket(h: u16): Pdu {
    [0x0A, h % 0x100, h / 0x100]
  }

  /** The packet that answers it. */
  function ReadAnswer(t: Table, mtu: Mtu, h: u16): Pdu {
    if h in t then [0x0B] + Readable(t[h].value, mtu) else [0x01, 0x0A, h % 0x100, h / 0x100, 0x0A]
  }

  lemma ReadIsAsked(c: Client, h: u16, token: nat)
    requires c.current.None?
    ensures IssueRead(c, h, token) ==
            Effect(c.(current := Some(Request(0x0A, 0x0B, token, h, OnRead))), [ReadPacket(h)], [])
  {
    HandleBytes(OP_READ_REQ, h, []);
    assert ReadPacket(h) + [] == ReadPacket(h);
  }

  lemma ReadIsAnswered(s: Server, h: u16)
    ensures Receive(s, ReadPacket(h)) == (s, [ReadAnswer(s.table, s.mtu, h)])
  {
    hide HandleList, HandleMtu, DoWrite;
    var data := ReadPacket(h)[1..];
    assert data == [h % 0x100, h / 0x100];
    assert Get16(data, 0) == h;
    if h in s.table {
      var v := s.table[h].value;
      assert v[..Min(|v|, s.mtu - 1)] == Readable(v, s.mtu);
      assert HandleReadRequest(s, data) == [[0x0B] + Readable(v, s.mtu)];
    } else {
      assert ErrorPdu(OP_READ_REQ, h, ECODE_ATTR_NOT_FOUND) == ReadAnswer(s.table, s.mtu, h);
    }
  }

  lemma ReadIsReported(c: Client, t: Table, mtu: Mtu, h: u16, token: nat)
    requires c.current == Some(Request(0x0A, 0x0B, token, h, OnRead))
    ensures HandleRead(c, ReadAnswer(t, mtu, h)) ==
            Effect(c.(current := None), [], [ReadReport(t, mtu, h, token)])
  {
    var p := ReadAnswer(t, mtu, h);
    if h in t {
      assert p[1..] == Readable(t[h].value, mtu);
    } else {
      assert Get16(p, 2) == h;
    }
  }

  /** A Read by an idle client: the value of the attribute under the handle of the call, or that there is none. */
  lemma ReadResult(s: Server, c: Client, h: u16, token: nat)
    requires Inv(c) && c.current.None?
    ensures var f := IssueRead(c, h, token);
            f.Effect? && f.sent == [ReadPacket(h)] &&
            Converse(s, f.client, ReadPacket(h), 1) == Effect(c, [], [ReadReport(s.table, s.mtu, h, token)])
  {
    hide Receive, HandleRead, ReadAnswer, ReadReport;
    ReadIsAsked(c, h, token);
    ReadIsAnswered(s, h);
    ReadIsReported(IssueRead(c, h, token).client, s.table, s.mtu, h, token);
  }

  /** A write command carries as much of the value as its packet holds. */
  function Part(v: seq<byte>): seq<byte> {
    if |v| <= 20 then v else v[..20]
  }

  /**
   * A Write Command from call to table: the value is stored as far as the packet carries it, if and only if the
   * attribute is there and allows it. Otherwise the server names a Write Request, which no pending request is, so
   * that the refusal reaches the error handler and leaves the client as it was.
   */
  lemma WriteCommandResult(s: Server, c: Client, h: u16, v: seq<byte>)
    requires Inv(c)
    ensures var f := WriteCommand(c, h, v);
            && f == Effect(c, [[0x52, h % 0x100, h / 0x100] + Part(v)], [])
            && var (s', out) := Receive(s, f.sent[0]);
            if h in s.table && Flag(s.table[h].props, WRITE_WITHOUT_RESP_FLAG) then
              s'.table == s.table[h := s.table[h].(value := Part(v))] && Replies(out) == []
            else
              var code := if h in s.table then 0x03 else 0x01;
              && s'.table == s.table
              && Replies(out) == [[0x01, 0x12, h % 0x100, h / 0x100, code]]
              && HandleRead(c, Replies(out)[0]) == Effect(c, [], Raised(c, Remote(0x12, h, code)))
  {
    hide Receive, Flag, HandleRead, Filter, EncodeHandle;
    HandleBytes(OP_WRITE_CMD, h, v);
    WriteReplies(s, h, Part(v), false);
    var code := if h in s.table then 0x03 else 0x01;
    StrayPacketsAreRaised(c, 0x12, h, code, []);
    assert [0x01, 0x12, h % 0x100, h / 0x100, code] + [] == [0x01, 0x12, h % 0x100, h / 0x100, code];
  }
}
