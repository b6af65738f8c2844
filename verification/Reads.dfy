/** A Read in the composed system, with everything else interleaved: it reports what its own handle held. */
module Reads {
  import opened Bytes
  import opened AttTypes
  import opened Requests
  import opened Search
  import opened ServerModel
  import opened ClientModel
  import opened ClientSafety
  import opened Composed
  import opened Progress
  import opened Results

  function After(y: System, m: Move): System
    requires Composed.Step(y, m).Some?
  {
    Composed.Step(y, m).value.0
  }

  lemma OwnIsAtHead(y: System, m: Move)
    requires InFlight(y) && y.client.current.Some?
    ensures TakesOwn(y, m) <==>
            (m.ServerTakes? && y.up != [] && NotCommand(y.up[0])) ||
            (m.ClientTakes? && y.down != [] && NotBackground(y.down[0]))
  {
    hide Inv, NoIndicators, IsRequest, AnswersBy, IsCommand, IsBackground, Filter;
    NothingLive();
    if y.up != [] {
      LiveTail(y.up);
      LeadTail(NotCommand, y.up);
    }
    if y.down != [] {
      LiveTail(y.down);
      LeadTail(NotBackground, y.down);
    }
  }

  /** Whatever else happens, the packet of a pending request stays in its channel, and no other joins it. */
  predicate Untouched(y: System, y': System) {
    y'.client.current == y.client.current && LiveUp(y'.up) == LiveUp(y.up) && LiveDown(y'.down) == LiveDown(y.down)
  }

  lemma OthersPassBy(y: System, m: Move)
    requires InFlight(y) && y.client.current.Some? && Allowed(m) && Composed.Step(y, m).Some? && !TakesOwn(y, m)
    ensures InFlight(After(y, m)) && Untouched(y, After(y, m))
  {
    hide InFlight, TakesOwn, LiveUp, LiveDown, NoIndicators, IsCommand, IsBackground, Receive, HandleRead, Do, Inv;
    MoveKeepsFlight(y, m);
    InFlightInv(y);
    InFlightIsSilent(y);
    OwnIsAtHead(y, m);
    assert y.up + [] == y.up;
    match m
    case Issue(e) =>
      if e.List? || e.Read? {
        BusyRejects(y.client, e);
      } else if e.Write? {
        CommandIsCommand(e.handle, e.value);
        UpGrows(y.up, EncodeHandle(OP_WRITE_CMD, e.handle, e.value, LE_BUFFER));
      }
    case ServerTakes =>
      if y.up != [] {
        LiveTail(y.up);
        CommandIsQuiet(y.server, y.up[0]);
        LiveOfBackground(y.down, Receive(y.server, y.up[0]).1);
      }
    case ClientTakes =>
      if y.down != [] {
        LiveTail(y.down);
        BackgroundPassesBy(y.client, y.down[0]);
      }
    case App(l) =>
      LocalIsQuiet(y.server, l);
      LiveOfBackground(y.down, Do(y.server, l).1);
  }

  /** A run of other moves: each allowed and defined where it happens, none the delivery of the request's packet. */
  predicate Idles(y: System, ms: seq<Move>, z: System)
    decreases |ms|
  {
    if ms == [] then y == z
    else
      && Allowed(ms[0]) && !TakesOwn(y, ms[0]) && Composed.Step(y, ms[0]).Some?
      && Idles(After(y, ms[0]), ms[1..], z)
  }

  lemma {:induction false} RunsPassBy(y: System, ms: seq<Move>, z: System)
    requires InFlight(y) && y.client.current.Some? && Idles(y, ms, z)
    ensures InFlight(z) && Untouched(y, z)
    decreases |ms|
  {
    hide InFlight, Allowed, TakesOwn, LiveUp, LiveDown;
    if ms != [] {
      OthersPassBy(y, ms[0]);
      RunsPassBy(After(y, ms[0]), ms[1..], z);
    }
  }

  /** The request waits to be served, or its answer to be taken. */
  lemma OwnHead(y: System, p: Pdu)
    requires InFlight(y) && y.client.current.Some?
    ensures TakesOwn(y, ServerTakes) && LiveUp(y.up) == [p] ==>
              y.up != [] && y.up[0] == p && LiveUp(y.up[1..]) == [] && LiveDown(y.down) == []
    ensures TakesOwn(y, ClientTakes) && LiveDown(y.down) == [p] ==> y.down != [] && y.down[0] == p
  {
    hide Inv, NoIndicators, IsRequest, AnswersBy, IsCommand, IsBackground, Filter, TakesOwn;
    OwnIsAtHead(y, ServerTakes);
    OwnIsAtHead(y, ClientTakes);
    if y.up != [] {
      LiveTail(y.up);
    }
    if y.down != [] {
      LiveTail(y.down);
    }
  }

  lemma ServerReads(y: System, h: u16)
    requires InFlight(y) && y.client.current.Some? && LiveUp(y.up) == [ReadPacket(h)] && TakesOwn(y, ServerTakes)
    ensures var y' := After(y, ServerTakes);
            InFlight(y') && y'.client == y.client && LiveDown(y'.down) == [ReadAnswer(y.server.table, y.server.mtu, h)]
  {
    hide InFlight, TakesOwn, LiveUp, LiveDown, Receive, IsBackground;
    MoveKeepsFlight(y, ServerTakes);
    OwnHead(y, ReadPacket(h));
    Results.ReadIsAnswered(y.server, h);
    LiveSnoc(y.down, ReadAnswer(y.server.table, y.server.mtu, h));
    AnswerIsNoBackground(y.server.table, y.server.mtu, h);
  }

  lemma AnswerIsNoBackground(t: Table, mtu: Mtu, h: u16)
    ensures !IsBackground(ReadAnswer(t, mtu, h))
  {
  }

  /**
   * A Read, with any table, any other calls, write commands, notifications and local changes around it: what is
   * reported is the value that the handle of the call had when the server took the request, as far as it fits the
   * MTU then, or that there was no such attribute.
   */
  lemma ReadReports(y: System, h: u16, token: nat, ms: seq<Move>, y1: System, ns: seq<Move>, y2: System)
    requires InFlight(y) && y.client.current.None?
    requires Composed.Step(y, Issue(Read(h, token))).Some? && Idles(After(y, Issue(Read(h, token))), ms, y1)
    requires TakesOwn(y1, ServerTakes) && Idles(After(y1, ServerTakes), ns, y2) && TakesOwn(y2, ClientTakes)
    ensures Composed.Step(y2, ClientTakes).Some? && var (z, calls) := Composed.Step(y2, ClientTakes).value;
            z.client.current.None? && calls == [ReadReport(y1.server.table, y1.server.mtu, h, token)]
  {
    hide InFlight, TakesOwn, Idles, LiveUp, LiveDown, Receive, HandleRead, ReadAnswer, ReadReport, IsCommand;
    var y0 := After(y, Issue(Read(h, token)));
    MoveKeepsFlight(y, Issue(Read(h, token)));
    ReadIsAsked(y.client, h, token);
    IdleIsEmpty(y);
    LiveSnoc(y.up, ReadPacket(h));
    RunsPassBy(y0, ms, y1);
    ServerReads(y1, h);
    RunsPassBy(After(y1, ServerTakes), ns, y2);
    OwnHead(y2, ReadAnswer(y1.server.table, y1.server.mtu, h));
    ReadIsReported(y2.client, y1.server.table, y1.server.mtu, h, token);
  }

  lemma IdleIsEmpty(y: System)
    requires InFlight(y) && y.client.current.None?
    ensures LiveUp(y.up) == [] && LiveDown(y.down) == []
    ensures forall h: u16 :: !IsCommand(ReadPacket(h))
  {
  }
}
