/**
 * Client and server joined by two FIFO channels, with write commands, notifications and local value changes
 * interleaved freely with the pending request.
 */
module Composed {
  import opened Bytes
  import opened AttTypes
  import opened Search
  import opened Requests
  import opened Responses
  import opened ServerModel
  import opened ClientModel
  import opened ClientSafety
  import opened Conversation
  import opened Delivery

  /** origin records the start handle of the pending list request; no component reads it. */
  datatype System = System(client: Client, server: Server, up: seq<Pdu>, down: seq<Pdu>, origin: u16)

  datatype Move = Issue(call: Event) | ServerTakes | ClientTakes | App(local: Local)

  /** One move and the callbacks it makes; None where the C++ code is undefined. */
  function Step(y: System, m: Move): Option<(System, seq<Call>)> {
    match m
    case Issue(e) =>
      (match ClientModel.Step(y.client, e)
       case Undefined => None
       case Effect(c, sent, calls) =>
         Some((y.(client := c, up := y.up + sent,
                  origin := if e.List? && y.client.current.None? then e.start else y.origin), calls)))
    case ServerTakes =>
      if y.up == [] then Some((y, []))
      else
        var (s, out) := Receive(y.server, y.up[0]);
        Some((y.(server := s, up := y.up[1..], down := y.down + out), []))
    case ClientTakes =>
      if y.down == [] then Some((y, []))
      else
        (match HandleRead(y.client, y.down[0])
         case Undefined => None
         case Effect(c, sent, calls) => Some((y.(client := c, up := y.up + sent, down := y.down[1..]), calls)))
    case App(l) =>
      var (s, out) := Do(y.server, l);
      Some((y.(server := s, down := y.down + out), []))
  }

  predicate NoIndicators(s: Server) {
    forall h: u16, l :: h in s.emitters && l in s.emitters[h].listeners ==> l.kind == Notifying
  }

  predicate CallAllowed(e: Event) {
    match e
    case List(a, _, _, _) => Settled(a)
    case Packet(_) => false
    case TransportFailed => false
    case _ => true
  }

  /** Any call, any delivery, and any local action except enabling indications. */
  predicate Allowed(m: Move) {
    match m
    case Issue(e) => CallAllowed(e)
    case App(l) => !l.EnableIndicate?
    case _ => true
  }

  predicate IsCommand(p: Pdu) {
    |p| >= 3 && p[0] == OP_WRITE_CMD
  }

  /** Traffic that concerns no request: notifications, and the refusals of write commands. */
  predicate IsBackground(p: Pdu) {
    (|p| >= 3 && p[0] == OP_HANDLE_NOTIFY) || (|p| == 5 && p[0] == OP_ERROR && p[1] == OP_WRITE_REQ)
  }

  predicate NotCommand(p: Pdu) {
    !IsCommand(p)
  }

  predicate NotBackground(p: Pdu) {
    !IsBackground(p)
  }

  function LiveUp(ps: seq<Pdu>): seq<Pdu> {
    Filter(NotCommand, ps)
  }

  function LiveDown(ps: seq<Pdu>): seq<Pdu> {
    Filter(NotBackground, ps)
  }

  // ---- One packet of the request in flight ----

  /** A packet that asks for r: a Read, or its list from some handle on. */
  predicate IsRequest(r: Request, p: Pdu) {
    if r.handler.OnRead? then p == EncodeHandle(OP_READ_REQ, r.handle, [], LE_BUFFER)
    else Settled(r.handler.ask) && exists x: u16 :: AsksFrom(r, x, p)
  }

  /** A packet that answers r: the expected opcode, or an error that names the request. */
  predicate AnswersBy(r: Request, p: Pdu) {
    p != [] && (p[0] == r.expected || (|p| == 5 && p[0] == OP_ERROR && p[1] == r.op && p[4] != 0))
  }

  /** While a request is pending, one packet of it is in flight: the request or its answer; otherwise none. */
  predicate OneInFlight(y: System) {
    var up, down := LiveUp(y.up), LiveDown(y.down);
    match y.client.current
    case None => up == [] && down == []
    case Some(r) =>
      (r.handler.OnList? ==> Settled(r.handler.ask)) &&
      ((|up| == 1 && down == [] && IsRequest(r, up[0])) || (up == [] && |down| == 1 && AnswersBy(r, down[0])))
  }

  predicate InFlight(y: System) {
    Inv(y.client) && NoIndicators(y.server) && OneInFlight(y)
  }

  lemma {:induction false} NotifyingFires(ls: seq<Listener>, h: u16, v: seq<byte>, mtu: Mtu, waiting: bool)
    requires forall l :: l in ls ==> l.kind == Notifying
    ensures forall p :: p in Fire(ls, h, v, mtu, waiting).0 ==> IsBackground(p)
  {
    if ls != [] {
      NotifyingFires(ls[1..], h, v, mtu, waiting);
    }
  }

  /** A server step that concerns no request. */
  predicate Quiet(s: Server, s': Server, out: seq<Pdu>) {
    && s'.table.Keys == s.table.Keys && s'.mtu == s.mtu && s'.reading == s.reading
    && NoIndicators(s') && (forall p :: p in out ==> IsBackground(p))
  }

  lemma SetValueIsQuiet(s: Server, h: u16, v: seq<byte>)
    requires NoIndicators(s) && h in s.table
    ensures var (s', out) := SetValue(s, h, v); Quiet(s, s', out)
  {
    NotifyingFires(EmitterOf(s, h).listeners, h, v, s.mtu, s.waiting);
  }

  lemma CommandIsQuiet(s: Server, p: Pdu)
    requires NoIndicators(s) && IsCommand(p)
    ensures var (s', out) := Receive(s, p); Quiet(s, s', out)
  {
    var h, v := Get16(p[1..], 0), p[1..][2..];
    assert Receive(s, p) == DoWrite(s, h, v, false);
    if h in s.table && MayWrite(s.table[h], false) {
      SetValueIsQuiet(s, h, v);
      var (s', out) := SetValue(s, h, v);
      assert out + [] == out;
    }
  }

  lemma LocalIsQuiet(s: Server, l: Local)
    requires NoIndicators(s) && !l.EnableIndicate?
    ensures var (s', out) := Do(s, l); Quiet(s, s', out)
  {
    if l.h in s.table {
      match l
      case SetLocal(h, v) => SetValueIsQuiet(s, h, v);
      case EnableNotify(h) => NotifyingFires([Listener(s.nextId, Notifying)], h, s.table[h].value, s.mtu, s.waiting);
      case _ =>
    }
  }

  lemma LiveOfBackground(ps: seq<Pdu>, out: seq<Pdu>)
    requires forall p :: p in out ==> IsBackground(p)
    ensures LiveDown(ps + out) == LiveDown(ps)
  {
    FilterConcat(NotBackground, ps, out);
    FilterNone(NotBackground, out);
  }

  lemma AnswerIsLive(r: Request, p: Pdu)
    requires RequestOk(r) && AnswersBy(r, p)
    ensures NotBackground(p)
  {
  }

  lemma ListReplyAnswers(t: Table, r: Reading, mtu: Mtu, f: Fields, req: Request)
    requires req.op == RequestOp(f.query.proc) && req.expected == ResponseOp(f.query.proc)
    ensures AnswersBy(req, ListReply(t, r, mtu, f))
  {
    hide Hits, Taken;
  }

  /** The server answers every request of a client with one packet, and stays as it is. */
  lemma RequestIsServed(s: Server, r: Request, p: Pdu)
    requires RequestOk(r) && IsRequest(r, p)
    ensures NotCommand(p)
    ensures var (s', out) := Receive(s, p); s' == s && |out| == 1 && AnswersBy(r, out[0]) && NotBackground(out[0])
  {
    hide ListReply, EncodeRange, ReadFields, Understood;
    if r.handler.OnRead? {
      ReadIsServed(s, r.handle, p);
    } else {
      var x: u16 :| AsksFrom(r, x, p);
      RequestUnderstood(r.handler.ask, x, r.handle, Blank());
      RequestIsAnswered(s, r.handler.ask, x, r.handle);
      ListReplyAnswers(s.table, s.reading, s.mtu, Fields(x, r.handle, Understood(r.handler.ask)), r);
    }
    AnswerIsLive(r, Receive(s, p).1[0]);
  }

  lemma ReadIsServed(s: Server, h: u16, p: Pdu)
    requires p == EncodeHandle(OP_READ_REQ, h, [], LE_BUFFER)
    ensures NotCommand(p)
    ensures Receive(s, p) ==
            (s, [if h in s.table then [OP_READ_RESP] + s.table[h].value[..Min(|s.table[h].value|, s.mtu - 1)]
                 else ErrorPdu(OP_READ_REQ, h, ECODE_ATTR_NOT_FOUND)])
  {
    var data := p[1..];
    Field16RoundTrip([], h, [], [0, 0], 0);
    assert data == [] + Put16(h) + [];
    assert Receive(s, p) == (s, HandleReadRequest(s, data));
  }

  /** Background packets do not touch the client's request. */
  lemma BackgroundPassesBy(c: Client, p: Pdu)
    requires Inv(c) && IsBackground(p)
    ensures var f := HandleRead(c, p);
            f.Effect? && f.client == c && f.sent == [] && forall k :: k in f.calls ==> k.Notified? || k.ErrorRaised?
  {
  }

  /** The client takes a chunk: it ends the request, or asks for the rest. */
  lemma ChunkEndsOrAsks(c: Client, body: seq<byte>)
    requires Inv(c) && c.current.Some? && Looping(c.current.value) && Settled(c.current.value.handler.ask)
    ensures var r := c.current.value; var f := Chunk(c, r, r.handler.ask, Some(body), None);
            f.Effect? ==>
              Inv(f.client) &&
              if f.client.current.None? then f.sent == []
              else f.client.current == c.current && |f.sent| == 1 && IsRequest(r, f.sent[0])
  {
    hide RequestPdu, ParseBody, Settled;
    var r := c.current.value;
    var a := r.handler.ask;
    ChunkKeepsInv(c, r, a, Some(body), None);
    var f := Chunk(c, r, a, Some(body), None);
    if f.Effect? && f.client.current.Some? {
      var list := Items(Acc(c, a.proc)) + ParseBody(a.proc, body).value;
      assert AsksFrom(r, Behind(c.resume, list), f.sent[0]);
    }
  }

  /** The client takes an answer: unless it runs out of its buffers, it ends the request, or asks for the rest. */
  lemma AnswerEndsOrAsks(c: Client, p: Pdu)
    requires Inv(c) && c.current.Some? && AnswersBy(c.current.value, p)
    requires c.current.value.handler.OnList? ==> Settled(c.current.value.handler.ask)
    ensures var f := HandleRead(c, p);
            f.Effect? ==>
              Inv(f.client) &&
              if f.client.current.None? then f.sent == []
              else f.client.current == c.current && |f.sent| == 1 && IsRequest(c.current.value, f.sent[0])
  {
    hide RequestPdu, ParseBody, Settled, Chunk;
    var r := c.current.value;
    PacketKeepsInv(c, p);
    if r.handler.OnList? && Looping(r) {
      ChunkEndsOrAsks(c, p[1..]);
    }
  }

  predicate Looping(r: Request) {
    r.handler.OnList? && r.handler.ask.proc != ReadByType
  }

  lemma LiveSnoc(ps: seq<Pdu>, p: Pdu)
    ensures LiveUp(ps + [p]) == LiveUp(ps) + (if IsCommand(p) then [] else [p])
    ensures LiveDown(ps + [p]) == LiveDown(ps) + (if IsBackground(p) then [] else [p])
  {
    hide IsCommand, IsBackground;
    FilterConcat(NotCommand, ps, [p]);
    FilterConcat(NotBackground, ps, [p]);
    assert [p][1..] == [];
  }

  lemma LiveTail(ps: seq<Pdu>)
    requires ps != []
    ensures LiveUp(ps) == (if IsCommand(ps[0]) then [] else [ps[0]]) + LiveUp(ps[1..])
    ensures LiveDown(ps) == (if IsBackground(ps[0]) then [] else [ps[0]]) + LiveDown(ps[1..])
  {
  }

  /** A request that finds the client idle puts its packet in flight. */
  lemma IssueKeepsFlight(y: System, e: Event)
    requires InFlight(y) && CallAllowed(e) && Step(y, Issue(e)).Some?
    ensures InFlight(Step(y, Issue(e)).value.0)
  {
    hide NoIndicators, RequestPdu, Settled, LiveUp, LiveDown, IsCommand, Inv;
    StepKeepsInv(y.client, e);
    var f := ClientModel.Step(y.client, e);
    assert y.up + [] == y.up;
    if (e.List? || e.Read?) && y.client.current.Some? {
      BusyRejects(y.client, e);
    } else if e.List? {
      RequestUnderstood(e.ask, e.start, e.end, Blank());
      var r := ListRequest(e.ask, e.end, e.token);
      assert AsksFrom(r, e.start, f.sent[0]);
      RequestIsServed(y.server, r, f.sent[0]);
      LiveSnoc(y.up, f.sent[0]);
    } else if e.Read? {
      RequestIsServed(y.server, ReadRequest(e.handle, e.token), f.sent[0]);
      LiveSnoc(y.up, f.sent[0]);
    } else if e.Write? {
      CommandIsCommand(e.handle, e.value);
      LiveSnoc(y.up, f.sent[0]);
    }
  }

  lemma CommandIsCommand(h: u16, v: seq<byte>)
    ensures IsCommand(EncodeHandle(OP_WRITE_CMD, h, v, LE_BUFFER))
  {
  }

  lemma QuietKeepsFlight(y: System, s': Server, out: seq<Pdu>)
    requires InFlight(y) && Quiet(y.server, s', out)
    ensures InFlight(y.(server := s', down := y.down + out))
  {
    hide Inv, NoIndicators, IsRequest, AnswersBy, LiveDown, LiveUp;
    LiveOfBackground(y.down, out);
  }

  lemma ServerTakesKeepsFlight(y: System)
    requires InFlight(y) && y.up != []
    ensures InFlight(Step(y, ServerTakes).value.0)
  {
    hide Inv, NoIndicators, IsRequest, AnswersBy, Receive, IsCommand, IsBackground, LiveDown, LiveUp;
    var p := y.up[0];
    LiveTail(y.up);
    var (s', out) := Receive(y.server, p);
    if IsCommand(p) {
      CommandIsQuiet(y.server, p);
      QuietKeepsFlight(y.(up := y.up[1..]), s', out);
    } else {
      InvKeepsRequestOk(y.client);
      RequestIsServed(y.server, y.client.current.value, p);
      assert out == [out[0]];
      LiveSnoc(y.down, out[0]);
    }
  }

  lemma InvKeepsRequestOk(c: Client)
    requires Inv(c)
    ensures c.current.Some? ==> RequestOk(c.current.value)
  {
  }

  lemma ClientTakesKeepsFlight(y: System)
    requires InFlight(y) && y.down != [] && Step(y, ClientTakes).Some?
    ensures InFlight(Step(y, ClientTakes).value.0)
  {
    hide Inv, NoIndicators, IsRequest, AnswersBy, HandleRead, IsCommand, IsBackground, Settled, LiveDown, LiveUp;
    var p := y.down[0];
    LiveTail(y.down);
    assert y.up + [] == y.up;
    if IsBackground(p) {
      BackgroundPassesBy(y.client, p);
    } else {
      AnswerEndsOrAsks(y.client, p);
      var f := HandleRead(y.client, p);
      if f.client.current.Some? {
        InvKeepsRequestOk(y.client);
        RequestIsServed(y.server, y.client.current.value, f.sent[0]);
        assert f.sent == [f.sent[0]];
        LiveSnoc(y.up, f.sent[0]);
      }
    }
  }

  /**
   * The protocol invariant, for every table, value, write and reading: each defined move of client, server,
   * application or channel keeps one packet of the pending request in flight, and none when nothing is pending.
   */
  lemma MoveKeepsFlight(y: System, m: Move)
    requires InFlight(y) && Allowed(m) && Step(y, m).Some?
    ensures InFlight(Step(y, m).value.0)
  {
    hide InFlight, NoIndicators;
    match m
    case Issue(e) => IssueKeepsFlight(y, e);
    case ServerTakes =>
      if y.up != [] {
        ServerTakesKeepsFlight(y);
      }
    case ClientTakes =>
      if y.down != [] {
        ClientTakesKeepsFlight(y);
      }
    case App(l) =>
      InFlightIsSilent(y);
      LocalIsQuiet(y.server, l);
      var (s', out) := Do(y.server, l);
      QuietKeepsFlight(y, s', out);
  }

  lemma InFlightIsSilent(y: System)
    requires InFlight(y)
    ensures NoIndicators(y.server)
  {
  }

  /** The state in which nothing has been asked yet, and no attribute indicates. */
  predicate Fresh(y: System) {
    y.client == Reset(y.client) && y.up == [] && y.down == [] && NoIndicators(y.server)
  }

  /** A run: each move allowed and defined where it happens, ending in z. */
  predicate Reaches(y: System, ms: seq<Move>, z: System)
    decreases |ms|
  {
    if ms == [] then y == z
    else Allowed(ms[0]) && Step(y, ms[0]).Some? && Reaches(Step(y, ms[0]).value.0, ms[1..], z)
  }

  lemma {:induction false} ReachableIsInFlight(y: System, ms: seq<Move>, z: System)
    requires InFlight(y) && Reaches(y, ms, z)
    ensures InFlight(z)
    decreases |ms|
  {
    hide InFlight, Step, Allowed;
    if ms != [] {
      MoveKeepsFlight(y, ms[0]);
      ReachableIsInFlight(Step(y, ms[0]).value.0, ms[1..], z);
    }
  }

  /**
   * What Part F section 3.3.2 asks for, in every reachable state: one packet of a request is in flight while it is
   * pending, none otherwise, and what reaches the client is background, the expected response, or an error that
   * names the request.
   */
  lemma OneRequestAtATime(y: System, ms: seq<Move>, z: System)
    requires Fresh(y) && Reaches(y, ms, z)
    ensures |LiveUp(z.up)| + |LiveDown(z.down)| == if z.client.current.Some? then 1 else 0
    ensures forall p :: p in z.down && !IsBackground(p) ==>
      z.client.current.Some? && AnswersBy(z.client.current.value, p)
  {
    hide AnswersBy, IsRequest, NoIndicators, Reaches, IsBackground;
    ReachableIsInFlight(y, ms, z);
    forall p | p in z.down && !IsBackground(p)
      ensures p in LiveDown(z.down)
    {
      assert NotBackground(p);
    }
  }

  // ---- What a finished request reports ----

  /** The search of the pending list request as a whole, and what of it is still due. */
  function Sought(c: Client, origin: u16): Fields
    requires c.current.Some? && c.current.value.handler.OnList?
  {
    From(c, origin)
  }

  function Due(c: Client, origin: u16): Fields
    requires c.current.Some? && c.current.value.handler.OnList?
    requires Looping(c.current.value) ==> Gathering(c, origin)
  {
    if Looping(c.current.value) then Rest(c, origin) else Sought(c, origin)
  }

  /** The server can get across what f finds: all of it, or for Read By Type the first packet of it. */
  predicate Across(s: Server, rule: Resume, f: Fields) {
    if f.query.proc == ReadByType then
      var hits := Matching(s.table, s.reading.bound, f);
      hits == [] || ChunkGood(ReadByType, s.reading.stop, hits, s.mtu)
    else AllChunked(s, rule, f)
  }

  /** The pending list request has gathered what it passed, and the server can get the rest across. */
  predicate OnCourse(c: Client, s: Server, origin: u16) {
    c.current.Some? && c.current.value.handler.OnList? ==>
      (Looping(c.current.value) ==> Midway(c, s.table, origin)) && Across(s, c.resume, Due(c, origin))
  }

  /** The request in flight asks for what is due. */
  predicate AsksDue(c: Client, s: Server, origin: u16, p: Pdu)
    requires c.current.Some? && OnCourse(c, s, origin)
  {
    c.current.value.handler.OnList? ==> AsksFrom(c.current.value, Due(c, origin).start, p)
  }

  /** The answer in flight is the reply to what is due; a Read is answered by whether its handle is there. */
  predicate RepliesDue(c: Client, s: Server, origin: u16, p: Pdu)
    requires c.current.Some? && OnCourse(c, s, origin)
  {
    var r := c.current.value;
    if r.handler.OnList? then p == ListReply(s.table, s.reading, s.mtu, Due(c, origin))
    else if r.handle in s.table then p != [] && p[0] == OP_READ_RESP
    else p == ErrorPdu(OP_READ_REQ, r.handle, ECODE_ATTR_NOT_FOUND)
  }

  predicate Sound(y: System) {
    && InFlight(y) && OnCourse(y.client, y.server, y.origin)
    && (y.client.current.Some? ==>
          var up, down := LiveUp(y.up), LiveDown(y.down);
          (up != [] ==> AsksDue(y.client, y.server, y.origin, up[0])) &&
          (down != [] ==> RepliesDue(y.client, y.server, y.origin, down[0])))
  }

  /** A change of the server that leaves alone what the pending list request finds. */
  predicate Steady(c: Client, origin: u16, s: Server, s': Server) {
    c.current.Some? && c.current.value.handler.OnList? ==>
      Matching(s'.table, s.reading.bound, Sought(c, origin)) == Matching(s.table, s.reading.bound, Sought(c, origin))
  }

  /**
   * Which stores are steady: exactly those that do not change the stored attribute's part in the search. A Find
   * Information, which reports no values, is left alone by all.
   */
  lemma StoreIsSteadyIff(s: Server, h: u16, v: seq<byte>, f: Fields)
    requires h in s.table
    ensures var t := WithValue(s.table, h, v); var b, q, was, now := s.reading.bound, f.query, s.table[h], t[h];
            Matching(t, b, f) == Matching(s.table, b, f) <==>
            (f.start <= h < Limit(b, f.end) ==>
               Matches(now, q) == Matches(was, q) &&
               (Matches(was, q) ==> EntryOf(q.proc, h, now) == EntryOf(q.proc, h, was)))
  {
    var t, q, lo, hi := WithValue(s.table, h, v), f.query, f.start, Limit(s.reading.bound, f.end);
    if lo <= h < hi && !(Matches(t[h], q) == Matches(s.table[h], q) &&
                         (Matches(s.table[h], q) ==> EntryOf(q.proc, h, t[h]) == EntryOf(q.proc, h, s.table[h]))) {
      HitsAreTheFilter(t, q, lo, hi);
      HitsAreTheFilter(s.table, q, lo, hi);
      var e := if Matches(s.table[h], q) then EntryOf(q.proc, h, s.table[h]) else EntryOf(q.proc, h, t[h]);
      assert (e in Hits(t, q, lo, hi)) != (e in Hits(s.table, q, lo, hi));
    } else {
      HitsFrame(s.table, t, q, lo, hi);
    }
  }

  /** Scans that agree on a range agree on both parts of it. */
  lemma PartsAgree(t: Table, t': Table, q: Query, lo: nat, mid: nat, hi: nat)
    requires lo <= mid <= 0x1_0000 && hi <= 0x1_0000 && (mid <= hi || mid == lo)
    requires Hits(t, q, lo, hi) == Hits(t', q, lo, hi)
    ensures Hits(t, q, lo, mid) == Hits(t', q, lo, mid) && Hits(t, q, mid, hi) == Hits(t', q, mid, hi)
  {
    hide EntryOf, Matches;
    if mid <= hi {
      HitsSplit(t, q, lo, mid, hi);
      HitsSplit(t', q, lo, mid, hi);
      FirstPartLength(t, q, lo, mid, hi);
      FirstPartLength(t', q, lo, mid, hi);
      var a, a' := Hits(t, q, lo, mid), Hits(t', q, lo, mid);
      var all := Hits(t, q, lo, hi);
      assert |a| < |all| ==> !(all[|a|].handle < mid);
      assert |a'| < |all| ==> !(all[|a'|].handle < mid);
      assert a == all[..|a|] && a' == all[..|a|] && Hits(t, q, mid, hi) == all[|a|..];
    }
  }

  lemma HandlesInRange(t: Table, q: Query, lo: nat, hi: nat)
    requires hi <= 0x1_0000
    ensures forall i :: 0 <= i < |Hits(t, q, lo, hi)| ==> lo <= Hits(t, q, lo, hi)[i].handle < hi
  {
    HitsAreTheFilter(t, q, lo, hi);
    hide Hits, EntryOf, Matches;
    forall i | 0 <= i < |Hits(t, q, lo, hi)|
      ensures lo <= Hits(t, q, lo, hi)[i].handle < hi
    {
      assert Hits(t, q, lo, hi)[i] in Hits(t, q, lo, hi);
    }
  }

  /** The first part of a scan is what lies below the cut. */
  lemma FirstPartLength(t: Table, q: Query, lo: nat, mid: nat, hi: nat)
    requires lo <= mid <= hi <= 0x1_0000
    ensures var n, all := |Hits(t, q, lo, mid)|, Hits(t, q, lo, hi);
            n <= |all| && (forall i :: 0 <= i < |all| ==> (all[i].handle < mid <==> i < n))
  {
    hide Hits;
    HitsSplit(t, q, lo, mid, hi);
    HandlesInRange(t, q, lo, mid);
    HandlesInRange(t, q, mid, hi);
  }

  /** What is due, and the reply to it, stay the same under a steady change. */
  lemma SteadyKeepsCourse(c: Client, s: Server, s': Server, origin: u16)
    requires OnCourse(c, s, origin) && Steady(c, origin, s, s') && s'.mtu == s.mtu && s'.reading == s.reading
    ensures OnCourse(c, s', origin)
    ensures c.current.Some? && c.current.value.handler.OnList? ==>
              ListReply(s'.table, s'.reading, s'.mtu, Due(c, origin)) ==
              ListReply(s.table, s.reading, s.mtu, Due(c, origin))
  {
    hide Inv, AccOk, Understood, Response, Settled, Ascending, Hits, Chunked, ChunkGood;
    if c.current.Some? && c.current.value.handler.OnList? && Looping(c.current.value) {
      var r := c.current.value;
      MidwayRange(c, s.table, s.reading.bound, origin);
      OriginFirst(c, origin);
      var limit := Limit(s.reading.bound, r.handle);
      PartsAgree(s.table, s'.table, Understood(r.handler.ask), origin, Next(c, origin), limit);
    }
  }

  lemma OriginFirst(c: Client, origin: u16)
    requires Gathering(c, origin)
    ensures origin <= Next(c, origin) && (Next(c, origin) <= c.current.value.handle || Next(c, origin) == origin)
  {
    assert AccOk(c, c.current.value.handler.ask.proc);
  }

  lemma QuietKeepsSound(y: System, s': Server, out: seq<Pdu>)
    requires Sound(y) && Quiet(y.server, s', out) && Steady(y.client, y.origin, y.server, s')
    ensures Sound(y.(server := s', down := y.down + out))
  {
    hide Inv, NoIndicators, IsRequest, AnswersBy, OnCourse, LiveDown, LiveUp, ListReply, AsksFrom;
    QuietKeepsFlight(y, s', out);
    LiveOfBackground(y.down, out);
    SteadyKeepsCourse(y.client, y.server, s', y.origin);
  }

  /** The reply that the server gives to the request in flight. */
  lemma DueIsServed(y: System, p: Pdu)
    requires Sound(y) && y.client.current.Some? && RequestOk(y.client.current.value)
    requires IsRequest(y.client.current.value, p) && AsksDue(y.client, y.server, y.origin, p)
    ensures Receive(y.server, p).1 != [] && RepliesDue(y.client, y.server, y.origin, Receive(y.server, p).1[0])
  {
    hide Inv, NoIndicators, ListReply, ReadFields, EncodeRange, Understood, LiveDown, LiveUp, Receive, Across;
    var r := y.client.current.value;
    if r.handler.OnRead? {
      ReadIsServed(y.server, r.handle, p);
    } else {
      RequestIsAnswered(y.server, r.handler.ask, Due(y.client, y.origin).start, r.handle);
    }
  }

  lemma ServerTakesKeepsSound(y: System)
    requires Sound(y) && y.up != [] && Steady(y.client, y.origin, y.server, Receive(y.server, y.up[0]).0)
    ensures Sound(Step(y, ServerTakes).value.0)
  {
    hide Inv, NoIndicators, IsRequest, AnswersBy, Receive, IsCommand, IsBackground, LiveDown, LiveUp, OnCourse,
         ListReply, AsksFrom;
    var p := y.up[0];
    LiveTail(y.up);
    var (s', out) := Receive(y.server, p);
    if IsCommand(p) {
      CommandIsQuiet(y.server, p);
      QuietKeepsSound(y.(up := y.up[1..]), s', out);
    } else {
      ServerTakesKeepsFlight(y);
      InvKeepsRequestOk(y.client);
      RequestIsServed(y.server, y.client.current.value, p);
      DueIsServed(y, p);
      assert out == [out[0]];
      LiveSnoc(y.down, out[0]);
    }
  }

  /** What the callbacks of a packet report: nothing on the pending request, or its true result. */
  predicate Reported(y: System, c: Client, calls: seq<Call>)
    requires Sound(y)
  {
    if c.current == y.client.current then forall k :: k in calls ==> k.Notified? || k.ErrorRaised?
    else
      && c.current.None? && |calls| == 1
      && var r, t, b := y.client.current.value, y.server.table, y.server.reading.bound;
      if r.handler.OnRead? then
        if r.handle in t then
          calls[0].ReadDone? && calls[0].buf.Some? && calls[0] == ReadDone(r.token, 0, calls[0].buf, None)
        else
          calls[0] == ReadDone(r.token, ECODE_ATTR_NOT_FOUND, None,
                               Some(Remote(OP_READ_REQ, r.handle, ECODE_ATTR_NOT_FOUND)))
      else if Looping(r) then calls[0] == Verdict(t, b, Sought(y.client, y.origin), r.token)
      else SingleVerdict(t, b, Sought(y.client, y.origin), r.token, calls[0])
  }

  lemma ReadAnswerTaken(c: Client, t: Table, r: Request, p: Pdu)
    requires Inv(c) && c.current == Some(r) && r.handler.OnRead?
    requires if r.handle in t then p != [] && p[0] == OP_READ_RESP
             else p == ErrorPdu(OP_READ_REQ, r.handle, ECODE_ATTR_NOT_FOUND)
    ensures HandleRead(c, p) ==
            Effect(c.(current := None), [],
                   [if r.handle in t then ReadDone(r.token, 0, Some(p[1..]), None)
                    else ReadDone(r.token, ECODE_ATTR_NOT_FOUND, None,
                                  Some(Remote(OP_READ_REQ, r.handle, ECODE_ATTR_NOT_FOUND)))])
  {
    if r.handle !in t {
      Field16RoundTrip([OP_ERROR, r.op], r.handle, [p[4]], [0, 0], 0);
      assert p == [OP_ERROR, r.op] + Put16(r.handle) + [p[4]];
    }
  }

  /** The client takes the reply to its looping request: the verdict, or the next request, still on course. */
  lemma LoopTakesReply(s: Server, c: Client, origin: u16)
    requires Inv(c) && c.current.Some? && Looping(c.current.value) && OnCourse(c, s, origin)
    ensures var r := c.current.value; var f := HandleRead(c, ListReply(s.table, s.reading, s.mtu, Due(c, origin)));
            f.Effect? && OnCourse(f.client, s, origin) &&
            if f.client.current.None? then f.calls == [Verdict(s.table, s.reading.bound, Sought(c, origin), r.token)]
            else
              && f.client.current == c.current && f.calls == [] && f.sent != []
              && AsksDue(f.client, s, origin, f.sent[0])
              && Next(c, origin) < Next(f.client, origin) <= r.handle
  {
    hide Inv, Understood, HandleRead, ListReply, EncodeRange, Verdict, AllChunked, Settled, Ascending;
    var r := c.current.value;
    RequestSent(r.handler.ask, Next(c, origin), r.handle);
    var pdu := RequestPdu(r.handler.ask, Next(c, origin), r.handle, Blank()).value;
    OneRound(s, c, origin, pdu);
    RequestIsAnswered(s, r.handler.ask, Next(c, origin), r.handle);
  }

  /** The client takes the reply to its request. */
  lemma ReplyIsTaken(y: System, p: Pdu)
    requires Sound(y) && y.client.current.Some? && RepliesDue(y.client, y.server, y.origin, p)
    ensures var f := HandleRead(y.client, p);
            f.Effect? && OnCourse(f.client, y.server, y.origin) && Reported(y, f.client, f.calls) &&
            (f.client.current.Some? ==>
               && f.sent != [] && AsksDue(f.client, y.server, y.origin, f.sent[0])
               && Looping(y.client.current.value) && f.client.current == y.client.current
               && Next(y.client, y.origin) < Next(f.client, y.origin) <= y.client.current.value.handle)
  {
    hide Inv, NoIndicators, ListReply, Verdict, SingleVerdict, Understood, HandleRead, LiveDown, LiveUp, Midway,
         AllChunked;
    var c, s := y.client, y.server;
    var r := c.current.value;
    if r.handler.OnRead? {
      ReadAnswerTaken(c, s.table, r, p);
    } else if Looping(r) {
      LoopTakesReply(s, c, y.origin);
    } else {
      ServerAnswersWell(s.table, s.reading, s.mtu, Sought(c, y.origin));
      SettledIsOk(r.handler.ask);
      SingleAbsorbed(c, s.table, s.reading.bound, y.origin, p);
    }
  }

  lemma SettledIsOk(a: Ask)
    requires Settled(a)
    ensures AskOk(a)
  {
  }

  lemma ClientTakesKeepsSound(y: System)
    requires Sound(y) && y.down != []
    ensures Step(y, ClientTakes).Some? && var (y', calls) := Step(y, ClientTakes).value;
            Sound(y') && Reported(y, y'.client, calls)
  {
    hide Inv, NoIndicators, IsRequest, AnswersBy, HandleRead, IsCommand, IsBackground, Settled, LiveDown, LiveUp,
         OnCourse, ListReply, AsksFrom;
    var p := y.down[0];
    LiveTail(y.down);
    assert y.up + [] == y.up;
    if IsBackground(p) {
      BackgroundPassesBy(y.client, p);
    } else {
      ReplyIsTaken(y, p);
      ClientTakesKeepsFlight(y);
      AnswerEndsOrAsks(y.client, p);
      var f := HandleRead(y.client, p);
      if f.client.current.Some? {
        InvKeepsRequestOk(y.client);
        RequestIsServed(y.server, y.client.current.value, f.sent[0]);
        assert f.sent == [f.sent[0]];
        LiveSnoc(y.up, f.sent[0]);
      }
    }
  }

  /** A list request that finds the client idle is on course from the start. */
  lemma ListStartsOnCourse(c: Client, s: Server, a: Ask, start: u16, end: u16, token: nat)
    requires Inv(c) && c.current.None? && Settled(a) && Across(s, c.resume, Fields(start, end, Understood(a)))
    ensures var f := IssueList(c, a, start, end, token);
            f.Effect? && |f.sent| == 1 && NotCommand(f.sent[0]) &&
            f.client.current.Some? && OnCourse(f.client, s, start) && AsksDue(f.client, s, start, f.sent[0])
  {
    hide EncodeRange, ReadFields, Understood, Across, NoIndicators;
    RequestUnderstood(a, start, end, Blank());
    OneAccumulator(c, a.proc, a.proc);
    var f := IssueList(c, a, start, end, token);
    StepKeepsInv(c, List(a, start, end, token));
    assert AccOk(c, FindInfo) && AccOk(c, FindByType) && AccOk(c, ReadByGroup);
  }

  /** The listener map plays no part in the pending request. */
  lemma ListenKeepsNext(c: Client, c': Client, t: Table, origin: u16)
    requires Inv(c) && Inv(c') && c' == c.(listeners := c'.listeners) && Gathering(c, origin)
    ensures Gathering(c', origin) && Next(c', origin) == Next(c, origin)
    ensures Midway(c', t, origin) == Midway(c, t, origin)
  {
    hide AccOk, Hits, Settled, Understood;
    var p := c.current.value.handler.ask.proc;
    assert Acc(c', p) == Acc(c, p);
  }

  lemma ListenKeepsCourse(c: Client, c': Client, s: Server, origin: u16)
    requires Inv(c) && Inv(c') && c' == c.(listeners := c'.listeners) && OnCourse(c, s, origin)
    ensures OnCourse(c', s, origin)
    ensures c.current.Some? && c.current.value.handler.OnList? ==> Due(c', origin) == Due(c, origin)
  {
    hide Inv, Hits, Settled, Understood, Across;
    if c.current.Some? && c.current.value.handler.OnList? && Looping(c.current.value) {
      ListenKeepsNext(c, c', s.table, origin);
    }
  }

  /** Calls that put no list request in flight: Reads, write commands, listeners, and whatever finds the client busy. */
  lemma OtherIssueKeepsSound(y: System, e: Event)
    requires Sound(y) && CallAllowed(e) && (e.List? ==> y.client.current.Some?)
    ensures Step(y, Issue(e)).Some? && Sound(Step(y, Issue(e)).value.0)
  {
    hide NoIndicators, RequestPdu, Settled, IsCommand, IsRequest, AnswersBy, OnCourse, ListReply, AsksFrom;
    assert Step(y, Issue(e)).Some?;
    IssueKeepsFlight(y, e);
    StepKeepsInv(y.client, e);
    assert y.up + [] == y.up;
    var c' := ClientModel.Step(y.client, e).client;
    if (e.List? || e.Read?) && y.client.current.Some? {
      BusyRejects(y.client, e);
    } else if e.Read? {
      ReadIsOnCourse(c', y.server, y.origin);
    } else if e.Write? {
      CommandIsCommand(e.handle, e.value);
      LiveSnoc(y.up, EncodeHandle(OP_WRITE_CMD, e.handle, e.value, LE_BUFFER));
    } else {
      ListenKeepsCourse(y.client, c', y.server, y.origin);
    }
  }

  lemma ReadIsOnCourse(c: Client, s: Server, origin: u16)
    requires c.current.Some? && c.current.value.handler.OnRead?
    ensures OnCourse(c, s, origin)
  {
  }

  /** A calm move: a list request only for what can get across, and no change of what a pending one finds. */
  predicate Calm(y: System, m: Move) {
    match m
    case Issue(e) =>
      e.List? && y.client.current.None? ==> Across(y.server, y.client.resume, Fields(e.start, e.end, Understood(e.ask)))
    case ServerTakes => y.up != [] ==> Steady(y.client, y.origin, y.server, Receive(y.server, y.up[0]).0)
    case App(l) => Steady(y.client, y.origin, y.server, Do(y.server, l).0)
    case ClientTakes => true
  }

  /**
   * The composed invariant: every calm move is defined and keeps it, and a packet the client takes either leaves the
   * pending request alone or ends it with its true result, the filter of the server's table.
   */
  lemma MoveKeepsSound(y: System, m: Move)
    requires Sound(y) && Allowed(m) && Calm(y, m)
    ensures Step(y, m).Some? && var (y', calls) := Step(y, m).value;
            Sound(y') && (m.ClientTakes? ==> Reported(y, y'.client, calls))
  {
    hide InFlight, NoIndicators, OnCourse, Steady, Across, AsksDue, RepliesDue;
    match m
    case Issue(e) =>
      if e.List? && y.client.current.None? {
        ListIssueKeepsSound(y, e.ask, e.start, e.end, e.token);
      } else {
        OtherIssueKeepsSound(y, e);
      }
    case ServerTakes =>
      if y.up != [] {
        ServerTakesKeepsSound(y);
      }
    case ClientTakes =>
      if y.down != [] {
        ClientTakesKeepsSound(y);
      }
    case App(l) =>
      InFlightIsSilent(y);
      LocalIsQuiet(y.server, l);
      var (s', out) := Do(y.server, l);
      QuietKeepsSound(y, s', out);
  }

  lemma ListIssueKeepsSound(y: System, a: Ask, start: u16, end: u16, token: nat)
    requires Sound(y) && y.client.current.None? && Settled(a)
    requires Across(y.server, y.client.resume, Fields(start, end, Understood(a)))
    ensures var m := Issue(List(a, start, end, token)); Step(y, m).Some? && Sound(Step(y, m).value.0)
  {
    hide NoIndicators, Settled, IsCommand, IsRequest, AnswersBy, OnCourse, ListReply, AsksDue, IssueList, LiveUp,
         LiveDown, Across, Inv;
    var e := List(a, start, end, token);
    InFlightInv(y);
    ListStartsOnCourse(y.client, y.server, a, start, end, token);
    IssueKeepsFlight(y, e);
    var f := IssueList(y.client, a, start, end, token);
    assert f.sent == [f.sent[0]];
    LiveSnoc(y.up, f.sent[0]);
  }

  lemma InFlightInv(y: System)
    requires InFlight(y)
    ensures Inv(y.client)
  {
  }

  /** A run of calm moves. */
  predicate CalmlyReaches(y: System, ms: seq<Move>, z: System)
    decreases |ms|
  {
    if ms == [] then y == z
    else
      && Allowed(ms[0]) && Calm(y, ms[0])
      && (Step(y, ms[0]).Some? ==> CalmlyReaches(Step(y, ms[0]).value.0, ms[1..], z))
  }

  /** Every state that calm moves reach is sound, and all of them are defined on the way. */
  lemma {:induction false} CalmRunsAreSound(y: System, ms: seq<Move>, z: System)
    requires (Fresh(y) || Sound(y)) && CalmlyReaches(y, ms, z)
    ensures Sound(z) && Reaches(y, ms, z)
    decreases |ms|
  {
    hide Sound, Step, Allowed, Calm, Fresh;
    if Fresh(y) {
      FreshIsSound(y);
    }
    if ms != [] {
      MoveKeepsSound(y, ms[0]);
      CalmRunsAreSound(Step(y, ms[0]).value.0, ms[1..], z);
    }
  }

  lemma FreshIsSound(y: System)
    requires Fresh(y)
    ensures Sound(y)
  {
    hide NoIndicators;
  }

  /**
   * The opcode of a response is never compared (src/att.cc:621-624), so an indication ends a pending Read with the
   * indication's bytes: the invariant needs NoIndicators.
   */
  lemma IndicationIsMistaken(c: Client, h: u16, v: seq<byte>, mtu: Mtu)
    requires c.current.Some? && c.current.value.handler.OnRead?
    ensures HandleRead(c, ValuePdu(OP_HANDLE_IND, h, v, mtu)) ==
            Effect(c.(current := None), [],
                   [ReadDone(c.current.value.token, 0, Some(Put16(h) + v[..Min(|v|, mtu - 3)]), None)])
  {
    assert ValuePdu(OP_HANDLE_IND, h, v, mtu)[1..] == Put16(h) + v[..Min(|v|, mtu - 3)];
  }

  /** An indication leaves the client as it was, and makes it send nothing, if and only if nothing is pending. */
  lemma IndicationHarmlessIff(c: Client, h: u16, v: seq<byte>, mtu: Mtu)
    requires Inv(c)
    ensures var f := HandleRead(c, ValuePdu(OP_HANDLE_IND, h, v, mtu));
            (f.Effect? && f.client == c && f.sent == []) <==> c.current.None?
  {
    hide EncodeRange, ReadEntries;
  }

  /** An error packet ends the pending request if and only if it names its opcode; otherwise nothing changes. */
  lemma ErrorEndsNamedRequestIff(c: Client, op: byte, h: u16, code: byte)
    requires Inv(c) && code != 0
    ensures var f := HandleRead(c, ErrorPdu(op, h, code)); var named := c.current.Some? && c.current.value.op == op;
            f.Effect? && f.sent == [] && (f.client.current != c.current <==> named) && (!named ==> f.client == c)
  {
    assert ErrorPdu(op, h, code) == [OP_ERROR, op] + Put16(h) + [code];
  }
}
