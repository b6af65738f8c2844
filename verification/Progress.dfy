/** The composed system comes to an end with every request: what each move brings, under any fair interleaving. */
module Progress {
  import opened Bytes
  import opened AttTypes
  import opened Requests
  import opened ServerModel
  import opened ClientModel
  import opened ClientSafety
  import opened Composed

  /** How many more packets of requests the pending request can need at most. */
  function Turns(c: Client, origin: u16): nat
    requires c.current.Some? && (Looping(c.current.value) ==> Gathering(c, origin))
  {
    var r := c.current.value;
    if Looping(r) && Next(c, origin) <= r.handle then r.handle - Next(c, origin) + 1 else 1
  }

  lemma SoundGathers(y: System)
    requires Sound(y)
    ensures y.client.current.Some? && Looping(y.client.current.value) ==> Gathering(y.client, y.origin)
  {
  }

  /** How often a packet of the pending request can be delivered yet: each turn is a request and its answer. */
  function Left(y: System): (n: nat)
    requires Sound(y)
    ensures n == 0 <==> y.client.current.None?
  {
    if y.client.current.None? then 0
    else
      SoundGathers(y);
      2 * Turns(y.client, y.origin) - if LiveUp(y.up) == [] then 1 else 0
  }

  /** The packets in front of the first that is kept. */
  function Lead(keep: Pdu -> bool, ps: seq<Pdu>): (n: nat)
    ensures n <= |ps|
  {
    if ps == [] || keep(ps[0]) then 0 else 1 + Lead(keep, ps[1..])
  }

  /** How many packets are in front of the pending request's own one. */
  function Wait(y: System): nat {
    if LiveUp(y.up) != [] then Lead(NotCommand, y.up) else Lead(NotBackground, y.down)
  }

  /** The move takes a packet from the channel that carries the pending request's own one. */
  predicate Serves(y: System, m: Move) {
    if LiveUp(y.up) != [] then m.ServerTakes? else m.ClientTakes?
  }

  /** The move delivers the pending request's own packet. */
  predicate TakesOwn(y: System, m: Move) {
    Serves(y, m) && Wait(y) == 0
  }

  lemma {:induction false} LeadStays(keep: Pdu -> bool, ps: seq<Pdu>, more: seq<Pdu>)
    requires Filter(keep, ps) != []
    ensures Lead(keep, ps + more) == Lead(keep, ps) < |ps|
  {
    if !keep(ps[0]) {
      assert (ps + more)[1..] == ps[1..] + more;
      LeadStays(keep, ps[1..], more);
    }
  }

  /** One packet of the pending request is in flight, in one of the channels. */
  lemma OnePacket(y: System)
    requires Sound(y) && y.client.current.Some?
    ensures LiveUp(y.up) == [] <==> LiveDown(y.down) != []
  {
  }

  /** What a move brings to the pending request: its own packet's delivery counts, any other at most moves it up. */
  predicate Brings(y: System, m: Move, y': System)
    requires Sound(y) && Sound(y') && y.client.current.Some?
  {
    if TakesOwn(y, m) then
      y'.client.current.None? || (y'.client.current == y.client.current && Left(y') < Left(y))
    else
      && y'.client.current == y.client.current && Left(y') == Left(y)
      && Wait(y') == Wait(y) - if Serves(y, m) then 1 else 0
  }

  lemma SameLeft(y: System, y': System)
    requires Sound(y) && Sound(y') && y.client.current.Some? && y'.client == y.client && y'.origin == y.origin
    requires LiveUp(y'.up) == LiveUp(y.up)
    ensures Left(y') == Left(y)
  {
    hide Sound, LiveUp, Turns;
    SoundGathers(y);
  }

  /** The move is defined, keeps the invariant, and brings what it should. */
  predicate Advances(y: System, m: Move)
    requires Sound(y) && y.client.current.Some?
  {
    Composed.Step(y, m).Some? && var y' := Composed.Step(y, m).value.0; Sound(y') && Brings(y, m, y')
  }

  lemma AppAdvances(y: System, l: Local)
    requires Sound(y) && y.client.current.Some? && Allowed(App(l)) && Calm(y, App(l))
    ensures Advances(y, App(l))
  {
    hide Sound, Left, NoIndicators, Calm, LiveUp, LiveDown;
    MoveKeepsSound(y, App(l));
    OnePacket(y);
    InFlightOf(y);
    InFlightIsSilent(y);
    LocalIsQuiet(y.server, l);
    var (s', out) := Do(y.server, l);
    DownGrows(y.up, y.down, out);
    SameLeft(y, Composed.Step(y, App(l)).value.0);
  }

  /** Background behind the request's packet changes nothing for it. */
  lemma DownGrows(up: seq<Pdu>, down: seq<Pdu>, out: seq<Pdu>)
    requires forall p :: p in out ==> IsBackground(p)
    requires LiveUp(up) == [] ==> LiveDown(down) != []
    ensures LiveDown(down + out) == LiveDown(down)
    ensures LiveUp(up) == [] ==> Lead(NotBackground, down + out) == Lead(NotBackground, down)
  {
    LiveOfBackground(down, out);
    if LiveUp(up) == [] {
      LeadStays(NotBackground, down, out);
    }
  }

  lemma InFlightOf(y: System)
    requires Sound(y)
    ensures InFlight(y)
  {
  }

  /** Taking from the front of a channel: a packet of the other kind, or the first that is kept. */
  lemma LeadTail(keep: Pdu -> bool, ps: seq<Pdu>)
    requires ps != []
    ensures keep(ps[0]) ==> Lead(keep, ps) == 0
    ensures !keep(ps[0]) ==> Lead(keep, ps) == 1 + Lead(keep, ps[1..]) && Filter(keep, ps) == Filter(keep, ps[1..])
  {
    assert [] + Filter(keep, ps[1..]) == Filter(keep, ps[1..]);
  }

  lemma ServerAdvances(y: System)
    requires Sound(y) && y.client.current.Some? && Calm(y, ServerTakes)
    ensures Advances(y, ServerTakes)
  {
    hide Sound, Left, NoIndicators, Calm, IsCommand, IsBackground, Receive, Lead, Filter, Turns;
    MoveKeepsSound(y, ServerTakes);
    OnePacket(y);
    InFlightOf(y);
    var y' := Composed.Step(y, ServerTakes).value.0;
    OnePacket(y');
    if y.up != [] {
      LeadTail(NotCommand, y.up);
      var (s', out) := Receive(y.server, y.up[0]);
      if IsCommand(y.up[0]) {
        InFlightIsSilent(y);
        CommandIsQuiet(y.server, y.up[0]);
        DownGrows(y.up, y.down, out);
        SameLeft(y, y');
      } else {
        OwnServed(y);
      }
    } else {
      NothingLive();
      SameLeft(y, y');
    }
  }

  lemma NothingLive()
    ensures LiveUp([]) == [] && LiveDown([]) == []
  {
  }

  lemma LeftIs(y: System)
    requires Sound(y) && y.client.current.Some?
    ensures Looping(y.client.current.value) ==> Gathering(y.client, y.origin)
    ensures Left(y) == 2 * Turns(y.client, y.origin) - if LiveUp(y.up) == [] then 1 else 0
  {
    hide Turns, Sound, LiveUp;
    SoundGathers(y);
  }

  lemma OwnAtHead(y: System)
    requires Sound(y) && y.client.current.Some?
    ensures y.up != [] && !IsCommand(y.up[0]) ==> LiveUp(y.up) != [] && LiveUp(y.up[1..]) == []
    ensures y.down != [] && !IsBackground(y.down[0]) ==> LiveUp(y.up) == [] && LiveDown(y.down[1..]) == []
    ensures y.down != [] && !IsBackground(y.down[0]) ==> RepliesDue(y.client, y.server, y.origin, y.down[0])
  {
    hide Inv, NoIndicators, OnCourse, IsCommand, IsBackground, AsksDue, RepliesDue, Filter;
    if y.up != [] {
      LiveTail(y.up);
    }
    if y.down != [] {
      LiveTail(y.down);
    }
  }

  /** The request's own packet is served: its answer is in flight instead. */
  lemma OwnServed(y: System)
    requires Sound(y) && y.client.current.Some? && y.up != [] && !IsCommand(y.up[0])
    requires Composed.Step(y, ServerTakes).Some? && Sound(Composed.Step(y, ServerTakes).value.0)
    ensures LiveUp(y.up) != [] && Left(Composed.Step(y, ServerTakes).value.0) == Left(y) - 1
  {
    hide Sound, Left, Receive, IsCommand, Turns, LiveUp, Gathering;
    var y' := Composed.Step(y, ServerTakes).value.0;
    OwnAtHead(y);
    LeftIs(y);
    LeftIs(y');
  }

  lemma ClientAdvances(y: System)
    requires Sound(y) && y.client.current.Some?
    ensures Advances(y, ClientTakes)
  {
    hide Sound, Left, NoIndicators, IsCommand, IsBackground, HandleRead, Lead, Filter, Turns, Reported;
    MoveKeepsSound(y, ClientTakes);
    OnePacket(y);
    InFlightOf(y);
    InFlightInv(y);
    var y' := Composed.Step(y, ClientTakes).value.0;
    if y.down != [] {
      LeadTail(NotBackground, y.down);
      if IsBackground(y.down[0]) {
        BackgroundPassesBy(y.client, y.down[0]);
        assert y.up + [] == y.up;
        SameLeft(y, y');
      } else {
        OwnAnswered(y);
      }
    } else {
      NothingLive();
      SameLeft(y, y');
    }
  }

  /** The answer is taken: it ends the request, or brings it forward by a turn at least. */
  lemma OwnAnswered(y: System)
    requires Sound(y) && y.client.current.Some? && y.down != [] && !IsBackground(y.down[0])
    requires Composed.Step(y, ClientTakes).Some? && Sound(Composed.Step(y, ClientTakes).value.0)
    ensures var y' := Composed.Step(y, ClientTakes).value.0;
            LiveUp(y.up) == [] &&
            (y'.client.current.None? || (y'.client.current == y.client.current && Left(y') < Left(y)))
  {
    hide Sound, Left, HandleRead, IsBackground, RepliesDue, AsksDue, OnCourse, Reported, Turns, LiveUp, Gathering, Next;
    var y' := Composed.Step(y, ClientTakes).value.0;
    OwnAtHead(y);
    LeftIs(y);
    OnCourseOf(y);
    ReplyIsTaken(y, y.down[0]);
    if y'.client.current.Some? {
      LeftIs(y');
      TurnsFall(y.client, y'.client, y.origin);
    }
  }

  lemma OnCourseOf(y: System)
    requires Sound(y)
    ensures OnCourse(y.client, y.server, y.origin)
  {
  }

  lemma TurnsFall(c: Client, c': Client, origin: u16)
    requires c.current.Some? && c'.current == c.current && Looping(c.current.value)
    requires Gathering(c, origin) && Gathering(c', origin)
    requires Next(c, origin) < Next(c', origin) <= c.current.value.handle
    ensures Turns(c', origin) < Turns(c, origin)
  {
    hide Gathering, Next;
  }

  /** Calls find the client busy, or send a command, or add a listener. */
  lemma IssueAdvances(y: System, e: Event)
    requires Sound(y) && y.client.current.Some? && Allowed(Issue(e)) && Calm(y, Issue(e))
    ensures Advances(y, Issue(e))
  {
    hide Sound, Left, NoIndicators, IsCommand, IsBackground, Lead, Filter, Turns, Settled, LiveUp, LiveDown;
    MoveKeepsSound(y, Issue(e));
    OnePacket(y);
    InFlightOf(y);
    InFlightInv(y);
    var y' := Composed.Step(y, Issue(e)).value.0;
    assert y.up + [] == y.up;
    if e.List? || e.Read? {
      BusyRejects(y.client, e);
      SameLeft(y, y');
    } else if e.Write? {
      CommandIsCommand(e.handle, e.value);
      UpGrows(y.up, EncodeHandle(OP_WRITE_CMD, e.handle, e.value, LE_BUFFER));
      SameLeft(y, y');
    } else {
      ListenSameLeft(y, y');
    }
  }

  lemma UpGrows(up: seq<Pdu>, p: Pdu)
    requires IsCommand(p)
    ensures LiveUp(up + [p]) == LiveUp(up)
    ensures LiveUp(up) != [] ==> Lead(NotCommand, up + [p]) == Lead(NotCommand, up)
  {
    LiveSnoc(up, p);
    if LiveUp(up) != [] {
      LeadStays(NotCommand, up, [p]);
    }
  }

  lemma ListenSameLeft(y: System, y': System)
    requires Sound(y) && Sound(y') && y.client.current.Some? && y'.origin == y.origin && y'.up == y.up
    requires y'.client == y.client.(listeners := y'.client.listeners)
    ensures Left(y') == Left(y)
  {
    hide Sound, LiveUp, Gathering, Next;
    SoundGathers(y);
    SoundGathers(y');
    InFlightOf(y);
    InFlightInv(y);
    InFlightOf(y');
    InFlightInv(y');
    if Looping(y.client.current.value) {
      ListenKeepsNext(y.client, y'.client, y.server.table, y.origin);
    }
  }

  /**
   * The variant of every pending request, under any interleaving: each calm move is defined, and what it brings is
   * fixed. The delivery of the request's own packet ends it or uses up one of a bounded number of deliveries; any
   * other packet taken from the channel that carries it brings it one place nearer to its delivery; and no other
   * move sets it back.
   */
  lemma MoveAdvances(y: System, m: Move)
    requires Sound(y) && y.client.current.Some? && Allowed(m) && Calm(y, m)
    ensures Advances(y, m)
  {
    hide Sound, Advances, Calm;
    match m
    case Issue(e) => IssueAdvances(y, e);
    case ServerTakes => ServerAdvances(y);
    case ClientTakes => ClientAdvances(y);
    case App(l) => AppAdvances(y, l);
  }

  /** The request that is pending in y stays pending in every state of the run. */
  predicate StaysPending(y: System, ms: seq<Move>)
    decreases |ms|
  {
    y.client.current.Some? &&
    (ms != [] ==>
       Composed.Step(y, ms[0]).Some? && Composed.Step(y, ms[0]).value.0.client.current == y.client.current &&
       StaysPending(Composed.Step(y, ms[0]).value.0, ms[1..]))
  }

  /** How often a run delivers the pending request's own packet, and how often it serves the channel carrying it. */
  function Delivered(y: System, ms: seq<Move>): nat
    decreases |ms|
  {
    if ms == [] then 0
    else
      (if TakesOwn(y, ms[0]) then 1 else 0) +
      if Composed.Step(y, ms[0]).Some? then Delivered(Composed.Step(y, ms[0]).value.0, ms[1..]) else 0
  }

  function Served(y: System, ms: seq<Move>): nat
    decreases |ms|
  {
    if ms == [] then 0
    else
      (if Serves(y, ms[0]) then 1 else 0) +
      if Composed.Step(y, ms[0]).Some? then Served(Composed.Step(y, ms[0]).value.0, ms[1..]) else 0
  }

  /** While the request stays pending, each delivery of its packet uses up one that was left. */
  lemma {:induction false} DeliveriesAreBounded(y: System, ms: seq<Move>, z: System)
    requires Sound(y) && CalmlyReaches(y, ms, z) && StaysPending(y, ms)
    ensures Sound(z) && z.client.current == y.client.current && Delivered(y, ms) + Left(z) <= Left(y)
    decreases |ms|
  {
    hide Sound, Left, Allowed, Calm, TakesOwn, Serves, Wait;
    if ms != [] {
      MoveAdvances(y, ms[0]);
      DeliveriesAreBounded(Composed.Step(y, ms[0]).value.0, ms[1..], z);
    }
  }

  /** Until the packet is delivered, each packet taken from its channel brings it one place forward. */
  lemma {:induction false} ServingBringsForward(y: System, ms: seq<Move>, z: System)
    requires Sound(y) && CalmlyReaches(y, ms, z) && StaysPending(y, ms) && Delivered(y, ms) == 0
    ensures Served(y, ms) + Wait(z) == Wait(y)
    decreases |ms|
  {
    hide Sound, Left, Allowed, Calm, TakesOwn, Serves, Wait;
    if ms != [] {
      MoveAdvances(y, ms[0]);
      ServingBringsForward(Composed.Step(y, ms[0]).value.0, ms[1..], z);
    }
  }

  /**
   * Every request is over in time, under any fair interleaving. A run that keeps serving the channel that carries
   * its packet delivers it after as many packets as are in front of it; and a list request for start..end is over
   * after at most 2 * (end - start + 1) deliveries of its own packets, a Read and a Read By Type after two.
   */
  lemma PendingIsOver(y: System, ms: seq<Move>, z: System)
    requires Sound(y) && CalmlyReaches(y, ms, z) && y.client.current.Some?
    ensures Delivered(y, ms) >= Left(y) ==> !StaysPending(y, ms)
    ensures Served(y, ms) > Wait(y) ==> Delivered(y, ms) > 0 || !StaysPending(y, ms)
    ensures Left(y) <= if Looping(y.client.current.value) && y.origin <= y.client.current.value.handle
                       then 2 * (y.client.current.value.handle - y.origin + 1) else 2
  {
    hide Sound, Left, Wait;
    if StaysPending(y, ms) {
      DeliveriesAreBounded(y, ms, z);
      if Delivered(y, ms) == 0 {
        ServingBringsForward(y, ms, z);
      }
    }
    LeftAtMost(y);
  }

  lemma LeftAtMost(y: System)
    requires Sound(y) && y.client.current.Some?
    ensures var r := y.client.current.value;
            Left(y) <= if Looping(r) && y.origin <= r.handle then 2 * (r.handle - y.origin + 1) else 2
  {
    hide Sound, Gathering, Next, LiveUp;
    SoundGathers(y);
    if Looping(y.client.current.value) {
      OriginFirst(y.client, y.origin);
    }
  }
}
