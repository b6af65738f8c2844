/** What every run of the client keeps, whatever packets arrive. */
module ClientSafety {
  import opened Bytes
  import opened AttTypes
  import opened Requests
  import opened Responses
  import opened ClientModel

  predicate RequestOk(r: Request) {
    match r.handler
    case OnRead => r.op == OP_READ_REQ && r.expected == OP_READ_RESP
    case OnList(a) => r.op == RequestOp(a.proc) && r.expected == ResponseOp(a.proc)
  }

  /** An accumulator is non-empty, belongs to the pending request and reaches short of its end handle. */
  predicate AccOk(c: Client, p: Procedure) {
    match Acc(c, p)
    case None => true
    case Some(list) =>
      && list != [] && c.current.Some? && c.current.value.handler.OnList? && c.current.value.handler.ask.proc == p
      && Behind(c.resume, list) <= c.current.value.handle
  }

  predicate Inv(c: Client) {
    && (c.current.Some? ==> RequestOk(c.current.value))
    && AccOk(c, FindInfo) && AccOk(c, FindByType) && AccOk(c, ReadByGroup)
  }

  /** At most one accumulator is in use; it is the pending request's; none is when the client is idle. */
  lemma OneAccumulator(c: Client, p: Procedure, q: Procedure)
    requires Inv(c)
    ensures Acc(c, p).Some? && Acc(c, q).Some? ==> p == q
    ensures Acc(c, p).Some? ==> c.current.Some? && c.current.value.op == RequestOp(p)
    ensures c.current.None? ==> c == Reset(c)
    ensures Items(Acc(c, p)) == [] <==> Acc(c, p).None?
  {
    assert AccOk(c, p) && AccOk(c, q);
  }

  lemma ChunkKeepsInv(c: Client, r: Request, a: Ask, body: Option<seq<byte>>, error: Option<ErrorText>)
    requires Inv(c) && c.current == Some(r) && r.handler == OnList(a) && a.proc != ReadByType
    ensures Chunk(c, r, a, body, error).Effect? ==> Inv(Chunk(c, r, a, body, error).client)
  {
    hide EncodeRange, ParseBody;
  }

  lemma CallbackKeepsInv(c: Client, status: byte, body: Option<seq<byte>>, error: Option<ErrorText>)
    requires Inv(c)
    ensures Callback(c, status, body, error).Effect? ==> Inv(Callback(c, status, body, error).client)
  {
    if c.current.Some? && c.current.value.handler.OnList? && c.current.value.handler.ask.proc != ReadByType {
      var r := c.current.value;
      ChunkKeepsInv(c, r, r.handler.ask, body, error);
    }
  }

  lemma PacketKeepsInv(c: Client, pdu: Pdu)
    requires Inv(c)
    ensures HandleRead(c, pdu).Effect? ==> Inv(HandleRead(c, pdu).client)
  {
    hide Callback;
    if |pdu| >= 5 && pdu[0] == OP_ERROR {
      CallbackKeepsInv(c, pdu[4], None, Some(Remote(pdu[1], Get16(pdu, 2), pdu[4])));
    } else if pdu != [] {
      CallbackKeepsInv(c, 0, Some(pdu[1..]), None);
    }
  }

  /** Every step keeps the invariant: any call, any packet, well formed or not. */
  lemma StepKeepsInv(c: Client, e: Event)
    requires Inv(c)
    ensures Step(c, e).Effect? ==> Inv(Step(c, e).client)
  {
    hide Callback, HandleRead, EncodeRange;
    match e
    case TransportFailed => CallbackKeepsInv(c, 0, None, Some(Transport));
    case Packet(pdu) => PacketKeepsInv(c, pdu);
    case _ =>
  }

  function Issued(e: Event): multiset<nat> {
    match e
    case List(_, _, _, token) => multiset{token}
    case Read(_, token) => multiset{token}
    case _ => multiset{}
  }

  function Outstanding(c: Client): multiset<nat> {
    if c.current.Some? then multiset{c.current.value.token} else multiset{}
  }

  function Token(call: Call): multiset<nat> {
    match call
    case ListDone(token, _, _, _) => multiset{token}
    case ReadDone(token, _, _, _) => multiset{token}
    case _ => multiset{}
  }

  /** The tokens of the requests that calls report back on. */
  function Returned(calls: seq<Call>): multiset<nat> {
    if calls == [] then multiset{} else Token(calls[0]) + Returned(calls[1..])
  }

  lemma {:induction false} ReturnedConcat(a: seq<Call>, b: seq<Call>)
    ensures Returned(a + b) == Returned(a) + Returned(b)
  {
    if a == [] {
      assert a + b == b;
    } else {
      assert (a + b)[1..] == a[1..] + b;
      ReturnedConcat(a[1..], b);
    }
  }

  /** The calls of one step: none, or one. */
  predicate AtMostOne(calls: seq<Call>, tokens: multiset<nat>) {
    (calls == [] && tokens == multiset{}) || (|calls| == 1 && Token(calls[0]) == tokens)
  }

  /** The pending request is kept, or ended with its one report. */
  predicate KeptOrEnded(c: Client, f: Effect) {
    f.Effect? ==> (f.calls == [] && f.client.current == c.current) ||
                  (f.client.current == None && AtMostOne(f.calls, Outstanding(c)))
  }

  lemma OneReport(c: Client, call: Call)
    requires c.current.Some? && Token(call) == multiset{c.current.value.token}
    ensures AtMostOne([call], Outstanding(c))
  {
  }

  lemma LoopedConserves(c: Client, r: Request, a: Ask, status: byte, body: Option<seq<byte>>, error: Option<ErrorText>)
    requires c.current == Some(r)
    ensures KeptOrEnded(c, HandleLooped(c, r, a, status, body, error))
  {
    hide ParseBody, RequestPdu, Behind, AtMostOne, Outstanding;
    var f := HandleLooped(c, r, a, status, body, error);
    if f.Effect? && f.calls != [] {
      assert f.calls == [f.calls[0]];
      OneReport(c, f.calls[0]);
    }
  }

  lemma CallbackConserves(c: Client, status: byte, body: Option<seq<byte>>, error: Option<ErrorText>)
    ensures KeptOrEnded(c, Callback(c, status, body, error))
  {
    hide ParseBody, HandleLooped, AtMostOne, Outstanding;
    var f := Callback(c, status, body, error);
    if c.current.Some? {
      var r := c.current.value;
      if r.handler.OnList? && r.handler.ask.proc != ReadByType {
        LoopedConserves(c, r, r.handler.ask, status, body, error);
      } else if f.Effect? {
        OneReport(c, f.calls[0]);
      }
    }
  }

  /** A step either keeps the pending request and reports on nothing old, or ends it with its one report. */
  predicate Accounted(c: Client, issued: multiset<nat>, f: Effect) {
    f.Effect? ==>
      if issued != multiset{} then
        || (f.calls == [] && c.current == None && Outstanding(f.client) == issued)
        || (f.client == c && AtMostOne(f.calls, issued))
      else
        || (f.client.current == c.current && AtMostOne(f.calls, multiset{}))
        || (f.client.current == None && AtMostOne(f.calls, Outstanding(c)))
  }

  lemma CallsAccounted(c: Client, e: Event)
    requires !e.Packet?
    ensures Accounted(c, Issued(e), Step(c, e))
  {
    if e.TransportFailed? {
      CallbackConserves(c, 0, None, Some(Transport));
    }
  }

  lemma PacketAccounted(c: Client, pdu: Pdu)
    ensures Accounted(c, multiset{}, HandleRead(c, pdu))
  {
    hide Callback, Get16;
    if |pdu| >= 5 && pdu[0] == OP_ERROR {
      CallbackConserves(c, pdu[4], None, Some(Remote(pdu[1], Get16(pdu, 2), pdu[4])));
    } else if |pdu| >= 1 {
      CallbackConserves(c, 0, Some(pdu[1..]), None);
    }
  }

  lemma ReturnedAre(calls: seq<Call>, tokens: multiset<nat>)
    requires AtMostOne(calls, tokens)
    ensures Returned(calls) == tokens
  {
    if calls != [] {
      assert calls[1..] == [];
      assert Returned(calls[1..]) == multiset{};
    }
  }

  lemma AccountedConserves(c: Client, issued: multiset<nat>, f: Effect)
    requires Accounted(c, issued, f) && f.Effect?
    ensures Outstanding(c) + issued == Outstanding(f.client) + Returned(f.calls)
  {
    hide Token, Outstanding, Returned, AtMostOne;
    if f.client == c && AtMostOne(f.calls, issued) {
      ReturnedAre(f.calls, issued);
    } else if issued != multiset{} {
      NothingReturned(c, f);
    } else if f.client.current == c.current && AtMostOne(f.calls, multiset{}) {
      ReturnedAre(f.calls, multiset{});
      SameOutstanding(c, f.client);
    } else {
      ReturnedAre(f.calls, Outstanding(c));
      SameOutstanding(f.client, f.client);
    }
  }

  lemma NothingReturned(c: Client, f: Effect)
    requires f.Effect? && f.calls == [] && c.current == None
    ensures Returned(f.calls) == Outstanding(c) == multiset{}
  {
  }

  lemma SameOutstanding(c: Client, d: Client)
    requires c.current == d.current
    ensures Outstanding(c) == Outstanding(d)
    ensures c.current == None ==> Outstanding(c) == multiset{}
  {
  }

  /** Nothing is lost and nothing reported twice: tokens only move from pending to returned. */
  lemma StepConserves(c: Client, e: Event)
    ensures var f := Step(c, e);
            f.Effect? ==> Outstanding(c) + Issued(e) == Outstanding(f.client) + Returned(f.calls)
  {
    var f := Step(c, e);
    if e.Packet? {
      PacketAccounted(c, e.pdu);
      assert Accounted(c, Issued(e), f);
    } else {
      CallsAccounted(c, e);
    }
    if f.Effect? {
      AccountedConserves(c, Issued(e), f);
    }
  }

  /** A request made while another is pending gets one error callback at once and changes nothing. */
  lemma BusyRejects(c: Client, e: Event)
    requires c.current.Some? && (e.List? || e.Read?)
    ensures var f := Step(c, e); var why := Some(Busy(c.current.value.op));
            f == Effect(c, [], [if e.List? then ListDone(e.token, 0, None, why) else ReadDone(e.token, 0, None, why)])
  {
  }

  function Run(c: Client, es: seq<Event>): Effect
    decreases |es|
  {
    if es == [] then Effect(c, [], [])
    else
      match Step(c, es[0])
      case Undefined => Undefined
      case Effect(c1, sent, calls) =>
        match Run(c1, es[1..])
        case Undefined => Undefined
        case Effect(c2, sent', calls') => Effect(c2, sent + sent', calls + calls')
  }

  function AllIssued(es: seq<Event>): multiset<nat> {
    if es == [] then multiset{} else Issued(es[0]) + AllIssued(es[1..])
  }

  lemma Regroup(r1: multiset<nat>, r2: multiset<nat>, mid: multiset<nat>, first: multiset<nat>,
                last: multiset<nat>, i1: multiset<nat>, i2: multiset<nat>)
    requires first + i1 == mid + r1 && r2 + last == mid + i2
    ensures r1 + r2 + last == first + (i1 + i2)
  {
    forall x: nat
      ensures (r1 + r2 + last)[x] == (first + (i1 + i2))[x]
    {
      assert (first + i1)[x] == (mid + r1)[x] && (r2 + last)[x] == (mid + i2)[x];
    }
  }

  /**
   * Over any run from an idle client every request, accepted or rejected, has been called back exactly
   * once, except the one that is pending.
   */
  lemma {:induction false} RunSafety(c: Client, es: seq<Event>)
    requires Inv(c)
    ensures var f := Run(c, es);
            f.Effect? ==> Inv(f.client) && Returned(f.calls) + Outstanding(f.client) == Outstanding(c) + AllIssued(es)
    decreases |es|
  {
    if es != [] && Step(c, es[0]).Effect? {
      StepKeepsInv(c, es[0]);
      StepConserves(c, es[0]);
      var f := Step(c, es[0]);
      RunSafety(f.client, es[1..]);
      var g := Run(f.client, es[1..]);
      if g.Effect? {
        ReturnedConcat(f.calls, g.calls);
        Regroup(Returned(f.calls), Returned(g.calls), Outstanding(f.client), Outstanding(c),
                Outstanding(g.client), Issued(es[0]), AllIssued(es[1..]));
      }
    }
  }

  /**
   * A transport error ends the pending request if and only if that is a Read or a Read By Type: the
   * looping handlers take its status 0 for a chunk (src/att.cc:248, 314, 430).
   */
  lemma TransportErrorEndsRequestIff(c: Client)
    requires Inv(c)
    ensures var f := HandleTransportError(c);
            f.Effect? && f.client.current.None? <==>
            c.current.Some? && (c.current.value.handler.OnRead? || c.current.value.handler.ask.proc == ReadByType)
  {
  }

  /** A list request is under way and what it has gathered is ascending and not below start. */
  predicate Gathering(c: Client, start: u16) {
    && Inv(c) && c.current.Some? && c.current.value.handler.OnList?
    && var a := c.current.value.handler.ask;
    && a.proc != ReadByType && Settled(a)
    && var list := Items(Acc(c, a.proc));
    && Ascending(list) && (list != [] ==> start <= list[0].handle && list[|list| - 1].handle < Behind(c.resume, list))
  }

  /** The handle the next chunk of the pending list starts at. */
  function Next(c: Client, start: u16): u16
    requires Gathering(c, start)
  {
    var p := c.current.value.handler.ask.proc;
    var list := Items(Acc(c, p));
    assert AccOk(c, p);
    if list == [] then start else Behind(c.resume, list)
  }

  /** The client with no request and nothing gathered. */
  function Reset(c: Client): Client {
    c.(current := None, infos := None, ranges := None, groups := None)
  }

  /** A response as Part F requires it: entries, ascending, inside the range, and no group ends before it starts. */
  predicate Conforms(c: Client, start: u16, pdu: Pdu)
    requires Gathering(c, start)
  {
    && pdu != [] && pdu[0] == c.current.value.expected
    && var es := ParseBody(c.current.value.handler.ask.proc, pdu[1..]);
    && es.Some? && es.value != [] && Ascending(es.value)
    && Next(c, start) <= es.value[0].handle && es.value[|es.value| - 1].handle <= c.current.value.handle
    && es.value[|es.value| - 1].handle < Behind(c.resume, es.value)
  }

  lemma AscendingConcat(a: seq<Entry>, b: seq<Entry>)
    requires Ascending(a) && Ascending(b) && (a != [] && b != [] ==> a[|a| - 1].handle < b[0].handle)
    ensures Ascending(a + b)
  {
    forall i, j | 0 <= i < j < |a + b|
      ensures (a + b)[i].handle < (a + b)[j].handle
    {
      if i < |a| <= j {
        assert a[i].handle <= a[|a| - 1].handle < b[0].handle <= b[j - |a|].handle;
      }
    }
  }

  lemma GatheringExtended(c: Client, start: u16, p: Procedure, list: seq<Entry>)
    requires Gathering(c, start) && p == c.current.value.handler.ask.proc
    requires list != [] && Ascending(list) && start <= list[0].handle
    requires list[|list| - 1].handle < Behind(c.resume, list) <= c.current.value.handle
    ensures var c' := WithAcc(c, p, Some(list));
            Acc(c', p) == Some(list) && c'.current == c.current && Gathering(c', start) &&
            Next(c', start) == Behind(c.resume, list)
  {
  }

  function Sent(pdu: Option<Pdu>): Option<seq<Pdu>> {
    if pdu.Some? then Some([pdu.value]) else None
  }

  /** f delivers list and ends the request, or keeps list and asks for the rest from a strictly higher handle. */
  predicate Grown(c: Client, start: u16, list: seq<Entry>, f: Effect)
    requires Gathering(c, start) && list != []
  {
    var r := c.current.value;
    var a := r.handler.ask;
    f.Effect? &&
    if Behind(c.resume, list) > r.handle then
      f.sent == [] && f.calls == [ListDone(r.token, 0, Some(list), None)] && f.client == Reset(c)
    else
      && f.calls == [] && f.client.current == c.current && Acc(f.client, a.proc) == Some(list) &&
        Reset(f.client) == Reset(c)
      && Gathering(f.client, start) && Next(c, start) < Next(f.client, start) <= r.handle
      && var next := Behind(c.resume, list);
      && next == Next(f.client, start) && Some(f.sent) == Sent(RequestPdu(a, next, r.handle, Blank()))
  }

  lemma RequestSent(a: Ask, start: u16, end: u16)
    requires Settled(a)
    ensures RequestPdu(a, start, end, Blank()).Some?
  {
    RequestUnderstood(a, start, end, Blank());
  }

  lemma ListDelivered(c: Client, start: u16, list: seq<Entry>)
    requires Gathering(c, start) && list != [] && Behind(c.resume, list) > c.current.value.handle
    ensures var r := c.current.value; Grown(c, start, list, Continue(c, r, r.handler.ask, list, None))
  {
  }

  lemma ListExtended(c: Client, start: u16, list: seq<Entry>)
    requires Gathering(c, start) && list != [] && Ascending(list) && start <= list[0].handle
    requires Next(c, start) <= list[|list| - 1].handle < Behind(c.resume, list) <= c.current.value.handle
    ensures var r := c.current.value; Grown(c, start, list, Continue(c, r, r.handler.ask, list, None))
  {
    var r := c.current.value;
    var a := r.handler.ask;
    var next := Behind(c.resume, list);
    hide EncodeRange;
    RequestSent(a, next, r.handle);
    GatheringExtended(c, start, a.proc, list);
  }

  /** A longer list either ends the request or moves its start strictly up, within 16 bits. */
  lemma ListGrows(c: Client, start: u16, list: seq<Entry>)
    requires Gathering(c, start) && list != [] && Ascending(list) && start <= list[0].handle
    requires Next(c, start) <= list[|list| - 1].handle < Behind(c.resume, list)
    ensures var r := c.current.value; Grown(c, start, list, Continue(c, r, r.handler.ask, list, None))
  {
    hide Continue, Grown;
    if Behind(c.resume, list) <= c.current.value.handle {
      ListExtended(c, start, list);
    } else {
      ListDelivered(c, start, list);
    }
  }

  /** Each conforming response either ends the request or moves its start strictly up, within 16 bits. */
  lemma ConformingStep(c: Client, start: u16, pdu: Pdu)
    requires Gathering(c, start) && Conforms(c, start, pdu)
    ensures var a := c.current.value.handler.ask;
            var list := Items(Acc(c, a.proc)) + ParseBody(a.proc, pdu[1..]).value;
            Ascending(list) && list != [] && Grown(c, start, list, HandleRead(c, pdu))
  {
    var r := c.current.value;
    var a := r.handler.ask;
    var had, es := Items(Acc(c, a.proc)), ParseBody(a.proc, pdu[1..]).value;
    AscendingConcat(had, es);
    hide Continue, Grown, ParseBody, EncodeRange;
    assert HandleRead(c, pdu) == Continue(c, r, a, had + es, None);
    assert (had + es)[0] == if had == [] then es[0] else had[0];
    assert (had + es)[|had + es| - 1] == es[|es| - 1];
    ListGrows(c, start, had + es);
  }

  /** Responses that each conform to the request outstanding when they arrive. */
  predicate ConformingRun(c: Client, start: u16, pdus: seq<Pdu>)
    decreases |pdus|
  {
    pdus != [] ==>
      && Gathering(c, start) && Conforms(c, start, pdus[0])
      && (ConformingStep(c, start, pdus[0]);
          var c' := HandleRead(c, pdus[0]).client;
          ConformingRun(c', start, pdus[1..]))
  }

  /** Against any conforming server a list request is over after at most end - start + 1 responses. */
  lemma {:induction false} ListRequestsTerminate(c: Client, start: u16, pdus: seq<Pdu>)
    requires Gathering(c, start) && ConformingRun(c, start, pdus) && start <= c.current.value.handle
    ensures |pdus| <= c.current.value.handle - Next(c, start) + 1
    decreases |pdus|
  {
    if pdus != [] {
      ConformingStep(c, start, pdus[0]);
      var c' := HandleRead(c, pdus[0]).client;
      if c'.current.Some? {
        ListRequestsTerminate(c', start, pdus[1..]);
      } else {
        assert pdus[1..] == [];
      }
    }
  }

  // ---- Packets that no request asked for ----

  function Raised(c: Client, text: ErrorText): seq<Call> {
    if c.errorHandler then [ErrorRaised(text)] else []
  }

  /** A notification: the bytes behind the handle go to the listener of the handle, pending request or not. */
  lemma NotificationReaches(c: Client, h: u16, v: seq<byte>)
    ensures HandleRead(c, [0x1B, h % 0x100, h / 0x100] + v) ==
            Effect(c, [], if h in c.listeners then [Notified(c.listeners[h], v)] else Raised(c, Unexpected(0x1B)))
  {
    var pdu := [0x1B, h % 0x100, h / 0x100] + v;
    assert Get16(pdu, 1) == h && pdu[3..] == v;
  }

  /** An error in the name of another request, or a packet when none is pending, is raised and changes nothing. */
  lemma StrayPacketsAreRaised(c: Client, op: byte, h: u16, code: byte, rest: seq<byte>)
    ensures c.current.None? || c.current.value.op != op ==>
              HandleRead(c, [0x01, op, h % 0x100, h / 0x100, code] + rest) ==
              Effect(c, [], Raised(c, Remote(op, h, code)))
    ensures c.current.None? && op != 0x01 && op != 0x1B ==>
              HandleRead(c, [op] + rest) == Effect(c, [], Raised(c, Unexpected(op)))
  {
    var pdu := [0x01, op, h % 0x100, h / 0x100, code] + rest;
    assert Get16(pdu, 2) == h;
  }

  /** What a transport error is reported as: to a Read or a Read By Type, with status 0. */
  lemma TransportErrorIsReported(c: Client)
    requires Inv(c) && c.current.Some?
    requires c.current.value.handler.OnRead? || c.current.value.handler.ask.proc == ReadByType
    ensures var r := c.current.value;
            HandleTransportError(c) ==
            Effect(c.(current := None), [],
                   [if r.handler.OnRead? then ReadDone(r.token, 0, None, Some(Transport))
                    else ListDone(r.token, 0, Some([]), Some(Transport))])
  {
  }

  /** The token of the first listener for a handle among the calls of a run. */
  function FirstListener(h: u16, es: seq<Event>): Option<nat> {
    if es == [] then None
    else if es[0].ListenFor? && es[0].handle == h then Some(es[0].token)
    else FirstListener(h, es[1..])
  }

  lemma CallbackKeepsListeners(c: Client, status: byte, body: Option<seq<byte>>, error: Option<ErrorText>)
    ensures var f := Callback(c, status, body, error); f.Effect? ==> f.client.listeners == c.listeners
  {
    hide RequestPdu, ParseBody, Behind, Reach;
  }

  lemma StepListeners(c: Client, e: Event, h: u16)
    ensures var f := Step(c, e);
            f.Effect? ==>
              (h in f.client.listeners <==> h in c.listeners || FirstListener(h, [e]).Some?) &&
              (h in c.listeners ==> f.client.listeners[h] == c.listeners[h]) &&
              (h !in c.listeners && FirstListener(h, [e]).Some? ==>
                 f.client.listeners[h] == FirstListener(h, [e]).value)
  {
    hide RequestPdu, Callback, Get16;
    assert [e][1..] == [];
    match e
    case Packet(pdu) =>
      if |pdu| >= 5 && pdu[0] == OP_ERROR {
        CallbackKeepsListeners(c, pdu[4], None, Some(Remote(pdu[1], Get16(pdu, 2), pdu[4])));
      } else if pdu != [] {
        CallbackKeepsListeners(c, 0, Some(pdu[1..]), None);
      }
    case TransportFailed => CallbackKeepsListeners(c, 0, None, Some(Transport));
    case _ =>
  }

  /** Over any run a handle's notifications go to the first listener that was added for it, whatever came later. */
  lemma {:induction false} FirstListenerStays(c: Client, es: seq<Event>, h: u16)
    ensures var f := Run(c, es); var first := FirstListener(h, es);
            f.Effect? ==>
              (h in f.client.listeners <==> h in c.listeners || first.Some?) &&
              (h in c.listeners ==> f.client.listeners[h] == c.listeners[h]) &&
              (h !in c.listeners && first.Some? ==> f.client.listeners[h] == first.value)
    decreases |es|
  {
    hide Step;
    if es != [] && Step(c, es[0]).Effect? {
      StepListeners(c, es[0], h);
      assert [es[0]][1..] == [];
      FirstListenerStays(Step(c, es[0]).client, es[1..], h);
    }
  }
}
