/** The client loop run against the server: the whole conversation equals one filter of the table. */
module Conversation {
  import opened Bytes
  import opened AttTypes
  import opened Packing
  import opened Search
  import opened Requests
  import opened Responses
  import opened ServerModel
  import opened ClientModel
  import opened ClientSafety

  /** Find Information and Find By Type Value refuse start 0 and reversed ranges; the others do not look. */
  predicate Refused(p: Procedure, start: u16, end: u16) {
    (p == FindInfo || p == FindByType) && (start == 0 || start > end)
  }

  function Matching(t: Table, b: Bound, f: Fields): seq<Entry> {
    Hits(t, f.query, f.start, Limit(b, f.end))
  }

  /** Entries whose values can be sent: each passes the fit test alone and its size fits the length byte. */
  predicate Sendable(es: seq<Entry>, mtu: nat, stop: GroupStop) {
    && (forall i :: 0 <= i < |es| ==> es[i].Data? || es[i].Group? ==> |es[i].value| + 6 <= mtu && Size(es[i]) < 0x100)
    && (stop == NoStop ==>
          forall i, j :: 0 <= i < j < |es| && es[i].Group? && es[j].Group? ==> Size(es[i]) == Size(es[j]))
  }

  /** What a correct answer to a list request is, whatever the MTU cut it to. */
  predicate GoodAnswer(t: Table, b: Bound, f: Fields, pdu: Pdu) {
    var p, hits := f.query.proc, Matching(t, b, f);
    if Refused(p, f.start, f.end) then pdu == ErrorPdu(RequestOp(p), f.start, ECODE_INVALID_HANDLE)
    else if hits == [] then pdu == ErrorPdu(RequestOp(p), f.start, ECODE_ATTR_NOT_FOUND)
    else
      && pdu != [] && pdu[0] == ResponseOp(p)
      && var es := ParseBody(p, pdu[1..]);
      && es.Some? && es.value != [] && |es.value| <= |hits| && es.value == hits[..|es.value|]
  }

  /** Can the next packet carry some of es, and will it be read back as what it carries? */
  predicate ChunkGood(p: Procedure, stop: GroupStop, es: seq<Entry>, mtu: Mtu)
    requires es != [] && EntryFor(p, es[0])
  {
    var taken := Taken(p, stop, es, mtu);
    && taken != []
    && (p == FindByType ||
        ((p == FindInfo || Size(es[0]) < 0x100) && forall i :: 0 <= i < |taken| ==> Size(taken[i]) == Size(es[0])))
  }

  predicate AllFor(p: Procedure, es: seq<Entry>) {
    forall i :: 0 <= i < |es| ==> EntryFor(p, es[i])
  }

  /** Going on behind the first k entries misses and repeats none of the others. */
  predicate Passed(rule: Resume, es: seq<Entry>, k: nat)
    requires 0 < k <= |es|
  {
    es[k - 1].handle < Behind(rule, es[..k]) && (k < |es| ==> Behind(rule, es[..k]) <= es[k].handle)
  }

  /** Packet after packet, each good and passed: what must hold for the whole list to get across. */
  predicate Chunked(p: Procedure, stop: GroupStop, rule: Resume, es: seq<Entry>, mtu: Mtu)
    requires AllFor(p, es)
    decreases |es|
  {
    es == [] ||
    (ChunkGood(p, stop, es, mtu) &&
     (ResponseFits(p, stop, es, mtu);
      var k := |Taken(p, stop, es, mtu)|;
      Passed(rule, es, k) && Chunked(p, stop, rule, es[k..], mtu)))
  }

  /** Each group ends behind its start and before the next one. */
  predicate Separated(es: seq<Entry>) {
    forall i :: 0 <= i < |es| && es[i].Group? ==>
      es[i].handle <= es[i].end && (i + 1 < |es| ==> es[i].end < es[i + 1].handle)
  }

  lemma SendableChunk(p: Procedure, stop: GroupStop, es: seq<Entry>, mtu: Mtu)
    requires es != [] && AllFor(p, es) && Sendable(es, mtu, stop)
    ensures ChunkGood(p, stop, es, mtu)
  {
    hide EntryBytes;
    var taken := Taken(p, stop, es, mtu);
    ResponseFits(p, stop, es, mtu);
    ResponseProgress(p, stop, es, mtu);
    var hdr := 1 + |Header(p, es[0])|;
    PackedIsLongestPrefix(es, hdr, Slack(p), mtu, SameRule(p, stop, es[0]));
    assert Admissible(es[..|taken|], hdr, Slack(p), mtu, SameRule(p, stop, es[0]));
    assert EntryFor(p, es[0]);
    assert es[0].Data? || es[0].Group? ==> |es[0].value| + 6 <= mtu;
    if p == ReadByGroup && stop == NoStop {
      forall i | 0 <= i < |taken|
        ensures Size(taken[i]) == Size(es[0])
      {
        assert taken[i] == es[i] && EntryFor(p, es[i]);
      }
    }
  }

  lemma SeparatedIsPassed(rule: Resume, es: seq<Entry>, k: nat)
    requires 0 < k <= |es| && Ascending(es) && (rule == BehindEnd ==> Separated(es))
    ensures Passed(rule, es, k) && Ascending(es[k..]) && (rule == BehindEnd ==> Separated(es[k..]))
  {
    assert es[..k][k - 1] == es[k - 1];
  }

  lemma SendableTail(p: Procedure, es: seq<Entry>, mtu: nat, stop: GroupStop, k: nat)
    requires k <= |es| && AllFor(p, es) && Sendable(es, mtu, stop)
    ensures AllFor(p, es[k..]) && Sendable(es[k..], mtu, stop)
  {
    hide EntryBytes;
  }

  /** Entries that can be sent one by one get across as a list. */
  lemma {:induction false} SendableIsChunked(p: Procedure, stop: GroupStop, rule: Resume, es: seq<Entry>, mtu: Mtu)
    requires AllFor(p, es) && Sendable(es, mtu, stop) && Ascending(es) && (rule == BehindEnd ==> Separated(es))
    ensures Chunked(p, stop, rule, es, mtu)
    decreases |es|
  {
    hide ChunkGood, Taken, Sendable, Separated, Passed, Response;
    if es != [] {
      SendableChunk(p, stop, es, mtu);
      ResponseFits(p, stop, es, mtu);
      ChunkCarries(p, stop, es, mtu);
      var k := |Taken(p, stop, es, mtu)|;
      SeparatedIsPassed(rule, es, k);
      SendableTail(p, es, mtu, stop, k);
      SendableIsChunked(p, stop, rule, es[k..], mtu);
    }
  }

  lemma ChunkCarries(p: Procedure, stop: GroupStop, es: seq<Entry>, mtu: Mtu)
    requires es != [] && EntryFor(p, es[0])
    ensures ChunkGood(p, stop, es, mtu) ==> Taken(p, stop, es, mtu) != []
  {
  }

  lemma PackedParses(p: Procedure, stop: GroupStop, hits: seq<Entry>, mtu: Mtu)
    requires hits != [] && AllFor(p, hits) && ChunkGood(p, stop, hits, mtu)
    ensures var taken := Taken(p, stop, hits, mtu);
            taken != [] && |taken| <= |hits| && taken == hits[..|taken|] &&
            ParseBody(p, Response(p, stop, hits, mtu)[1..]) == Some(taken)
  {
    ResponseFits(p, stop, hits, mtu);
    ResponseRoundTrip(p, stop, hits, mtu);
  }

  /** The server answers a list request well whenever its next packet is good. */
  lemma ServerAnswersWell(t: Table, r: Reading, mtu: Mtu, f: Fields)
    requires Matching(t, r.bound, f) == [] ||
             (Packs(f.query) && ChunkGood(f.query.proc, r.stop, Matching(t, r.bound, f), mtu))
    ensures GoodAnswer(t, r.bound, f, ListReply(t, r, mtu, f)) && |ListReply(t, r, mtu, f)| <= mtu
  {
    var p, hits := f.query.proc, Matching(t, r.bound, f);
    if !Refused(p, f.start, f.end) && hits != [] {
      PackedParses(p, r.stop, hits, mtu);
      ResponseFits(p, r.stop, hits, mtu);
    }
  }

  /** The callback a list request must end with: the filter of the table, or why there is none. */
  function Verdict(t: Table, b: Bound, f: Fields, token: nat): Call {
    var p, hits := f.query.proc, Matching(t, b, f);
    if Refused(p, f.start, f.end) then
      ListDone(token, ECODE_INVALID_HANDLE, None, Some(Remote(RequestOp(p), f.start, ECODE_INVALID_HANDLE)))
    else if hits == [] then ListDone(token, 0, None, if p == FindByType then Some(NotFound) else None)
    else ListDone(token, 0, Some(hits), None)
  }

  /** A looping request with what it has gathered so far: the filter of the handles it has passed. */
  predicate Midway(c: Client, t: Table, start: u16) {
    && Gathering(c, start)
    && var a := c.current.value.handler.ask;
    && Items(Acc(c, a.proc)) == Hits(t, Understood(a), start, Next(c, start))
    && (Items(Acc(c, a.proc)) != [] ==> !Refused(a.proc, start, c.current.value.handle))
  }

  function Goal(c: Client, start: u16): Fields
    requires Gathering(c, start)
  {
    Fields(start, c.current.value.handle, Understood(c.current.value.handler.ask))
  }

  function Rest(c: Client, start: u16): Fields
    requires Gathering(c, start)
  {
    Goal(c, start).(start := Next(c, start))
  }

  /** f ends the request with its verdict, or gathers more and asks for the rest. */
  predicate Absorbed(c: Client, t: Table, b: Bound, start: u16, f: Effect)
    requires Gathering(c, start)
  {
    var r := c.current.value;
    f.Effect? &&
    if f.client.current.None? then
      f.client == Reset(c) && f.sent == [] && f.calls == [Verdict(t, b, Goal(c, start), r.token)]
    else
      && f.calls == [] && f.client.current == c.current && Reset(f.client) == Reset(c)
      && Midway(f.client, t, start) && Next(c, start) < Next(f.client, start) <= r.handle
      && Some(f.sent) == Sent(RequestPdu(r.handler.ask, Next(f.client, start), r.handle, Blank()))
  }

  /** Once something was gathered, the rest starts inside the range, and the two together are the goal. */
  lemma MidwayRange(c: Client, t: Table, b: Bound, start: u16)
    requires Midway(c, t, start)
    ensures var p, end := c.current.value.handler.ask.proc, c.current.value.handle;
            var had, goal, rest := Items(Acc(c, p)), Goal(c, start), Rest(c, start);
            && (had == [] ==> rest == goal)
            && (had != [] ==> start < Next(c, start) <= end && !Refused(p, Next(c, start), end))
            && Matching(t, b, goal) == had + Matching(t, b, rest)
  {
    var r := c.current.value;
    var had := Items(Acc(c, r.handler.ask.proc));
    if had != [] {
      assert AccOk(c, r.handler.ask.proc);
      assert start <= had[0].handle <= had[|had| - 1].handle;
      HitsSplit(t, Understood(r.handler.ask), start, Next(c, start), Limit(b, r.handle));
    }
  }

  /** An error that names the pending list request, and is not code 0, ends it. */
  lemma NamedErrorEnds(c: Client, r: Request, h: u16, code: byte)
    requires Inv(c) && c.current == Some(r) && r.handler.OnList? && r.handler.ask.proc != ReadByType && code != 0
    ensures var list := Acc(c, r.handler.ask.proc);
            HandleRead(c, ErrorPdu(r.op, h, code)) == Effect(Reset(c), [],
              [if code != ECODE_ATTR_NOT_FOUND then ListDone(r.token, code, list, Some(Remote(r.op, h, code)))
               else
                 ListDone(r.token, 0, list,
                          if r.handler.ask.proc == FindByType && list.None? then Some(NotFound) else None)])
  {
    var pdu := ErrorPdu(r.op, h, code);
    Field16RoundTrip([OP_ERROR, r.op], h, [code], [0, 0], 0);
    assert pdu == [OP_ERROR, r.op] + Put16(h) + [code];
    assert HandleRead(c, pdu) == HandleLooped(c, r, r.handler.ask, code, None, Some(Remote(r.op, h, code)));
    OneAccumulator(c, FindInfo, FindByType);
    OneAccumulator(c, FindByType, ReadByGroup);
    OneAccumulator(c, FindInfo, ReadByGroup);
  }

  /** An error answer ends the request with its verdict. */
  lemma ErrorAbsorbed(c: Client, t: Table, b: Bound, start: u16, pdu: Pdu)
    requires Midway(c, t, start) && GoodAnswer(t, b, Rest(c, start), pdu)
    requires Refused(Rest(c, start).query.proc, Next(c, start), c.current.value.handle) ||
             Matching(t, b, Rest(c, start)) == []
    ensures Absorbed(c, t, b, start, HandleRead(c, pdu))
  {
    hide RequestPdu, ParseBody, Hits, HandleRead, AccOk, Settled;
    MidwayRange(c, t, b, start);
    var r, next := c.current.value, Next(c, start);
    var had := Items(Acc(c, r.handler.ask.proc));
    OneAccumulator(c, r.handler.ask.proc, r.handler.ask.proc);
    NamedErrorEnds(c, r, next, pdu[4]);
    assert pdu == ErrorPdu(r.op, next, pdu[4]);
    assert had + [] == had;
  }

  /** A good answer that the client's way of going on passes. */
  predicate GoodStep(c: Client, t: Table, b: Bound, start: u16, pdu: Pdu)
    requires Gathering(c, start)
  {
    var f := Rest(c, start);
    var p, hits := f.query.proc, Matching(t, b, f);
    && GoodAnswer(t, b, f, pdu)
    && (!Refused(p, f.start, f.end) && hits != [] ==> Passed(c.resume, hits, |ParseBody(p, pdu[1..]).value|))
  }

  /** What a chunk brings: a conforming stretch of the filter, up to the handle after its last. */
  lemma ChunkIsStretch(c: Client, t: Table, b: Bound, start: u16, pdu: Pdu)
    requires Midway(c, t, start) && GoodStep(c, t, b, start, pdu)
    requires !Refused(Rest(c, start).query.proc, Next(c, start), c.current.value.handle) &&
             Matching(t, b, Rest(c, start)) != []
    ensures Conforms(c, start, pdu)
    ensures var r := c.current.value; var q := Understood(r.handler.ask);
            var es := ParseBody(r.handler.ask.proc, pdu[1..]).value; var next' := Behind(c.resume, es);
            Next(c, start) < next' &&
            if next' <= r.handle then es == Hits(t, q, Next(c, start), next') else es == Matching(t, b, Rest(c, start))
  {
    hide EncodeRange, ParseBody, Matches, EntryOf, Hits, Understood;
    var r := c.current.value;
    var q, next, lim := Understood(r.handler.ask), Next(c, start), Limit(b, r.handle);
    var es := ParseBody(r.handler.ask.proc, pdu[1..]).value;
    var hits := Hits(t, q, next, lim);
    HitsAreTheFilter(t, q, next, lim);
    assert es[0] == hits[0] && hits[0] in hits && hits[|es| - 1] in hits;
    assert es[|es| - 1] == hits[|es| - 1] && es == hits[..|es|];
    HitsCut(t, q, next, lim, |es|, Behind(c.resume, es));
  }

  lemma GrownIsAbsorbed(c: Client, t: Table, b: Bound, start: u16, list: seq<Entry>, f: Effect)
    requires Midway(c, t, start) && list != [] && Grown(c, start, list, f)
    requires !Refused(c.current.value.handler.ask.proc, start, c.current.value.handle)
    requires var r := c.current.value; var next := Behind(c.resume, list); var q := Understood(r.handler.ask);
             list == if next <= r.handle then Hits(t, q, start, next) else Matching(t, b, Goal(c, start))
    requires start <= Behind(c.resume, list)
    ensures Absorbed(c, t, b, start, f)
  {
    hide RequestPdu, ReadFields, Inv, AccOk, Understood;
    var r := c.current.value;
  }

  lemma BehindJoin(rule: Resume, a: seq<Entry>, b: seq<Entry>)
    requires b != []
    ensures Behind(rule, a + b) == Behind(rule, b)
  {
    assert (a + b)[|a + b| - 1] == b[|b| - 1];
  }

  /** A chunk extends what was gathered to the filter of a longer range, or completes it. */
  lemma ChunkAbsorbed(c: Client, t: Table, b: Bound, start: u16, pdu: Pdu)
    requires Midway(c, t, start) && GoodStep(c, t, b, start, pdu)
    requires !Refused(Rest(c, start).query.proc, Next(c, start), c.current.value.handle) &&
             Matching(t, b, Rest(c, start)) != []
    ensures Absorbed(c, t, b, start, HandleRead(c, pdu))
  {
    hide RequestPdu, ParseBody, GoodAnswer, HandleRead, Absorbed, Grown, Matching, Inv, AccOk, Understood, Behind,
         Passed, Hits, Ascending;
    var r := c.current.value;
    var a, q := r.handler.ask, Understood(r.handler.ask);
    var had := Items(Acc(c, a.proc));
    ChunkIsStretch(c, t, b, start, pdu);
    ConformingStep(c, start, pdu);
    MidwayRange(c, t, b, start);
    var es := ParseBody(a.proc, pdu[1..]).value;
    var next' := Behind(c.resume, es);
    BehindJoin(c.resume, had, es);
    if next' <= r.handle {
      HitsSplit(t, q, start, Next(c, start), next');
    }
    GrownIsAbsorbed(c, t, b, start, had + es, HandleRead(c, pdu));
  }

  /** Every good answer that is passed is absorbed. */
  lemma GoodAnswerAbsorbed(c: Client, t: Table, b: Bound, start: u16, pdu: Pdu)
    requires Midway(c, t, start) && GoodStep(c, t, b, start, pdu)
    ensures Absorbed(c, t, b, start, HandleRead(c, pdu))
  {
    if Refused(Rest(c, start).query.proc, Next(c, start), c.current.value.handle) ||
       Matching(t, b, Rest(c, start)) == [] {
      ErrorAbsorbed(c, t, b, start, pdu);
    } else {
      ChunkAbsorbed(c, t, b, start, pdu);
    }
  }

  /** What a Read By Type may report: why there is nothing, or a non-empty first stretch of the filter. */
  predicate SingleVerdict(t: Table, b: Bound, f: Fields, token: nat, call: Call) {
    var hits := Matching(t, b, f);
    if hits == [] then
      call == ListDone(token, ECODE_ATTR_NOT_FOUND, Some([]),
                       Some(Remote(OP_READ_BY_TYPE_REQ, f.start, ECODE_ATTR_NOT_FOUND)))
    else
      && call.ListDone? && call.list.Some? && call == ListDone(token, 0, call.list, None)
      && call.list.value != [] && |call.list.value| <= |hits| && call.list.value == hits[..|call.list.value|]
  }

  /** A Read By Type ends with its one answer. */
  lemma SingleAbsorbed(c: Client, t: Table, b: Bound, start: u16, pdu: Pdu)
    requires Inv(c) && c.current.Some? && c.current.value.handler.OnList?
    requires c.current.value.handler.ask.proc == ReadByType && AskOk(c.current.value.handler.ask)
    requires GoodAnswer(t, b, Fields(start, c.current.value.handle, Understood(c.current.value.handler.ask)), pdu)
    ensures var f := HandleRead(c, pdu); var r := c.current.value;
            f.Effect? && f.client == Reset(c) && f.sent == [] && |f.calls| == 1 &&
            SingleVerdict(t, b, Fields(start, r.handle, Understood(r.handler.ask)), r.token, f.calls[0])
  {
    hide ParseBody, Hits, Understood;
    var r := c.current.value;
    OneAccumulator(c, FindInfo, FindByType);
    assert AccOk(c, FindInfo) && AccOk(c, FindByType) && AccOk(c, ReadByGroup);
    if Matching(t, b, Fields(start, r.handle, Understood(r.handler.ask))) == [] {
      Field16RoundTrip([OP_ERROR, r.op], start, [pdu[4]], [0, 0], 0);
      assert pdu == [OP_ERROR, r.op] + Put16(start) + [pdu[4]];
      assert HandleRead(c, pdu) == HandleReadByType(c, r, pdu[4], None, Some(Remote(r.op, start, pdu[4])));
    } else {
      assert HandleRead(c, pdu) == HandleReadByType(c, r, 0, Some(pdu[1..]), None);
    }
  }

  /**
   * Request, reply, request, reply ...: at most `rounds` requests are delivered. Undefined when a request is
   * not answered by exactly one packet, or the client runs out of its buffers.
   */
  function Converse(s: Server, c: Client, pdu: Pdu, rounds: nat): Effect
    decreases rounds
  {
    if rounds == 0 then Effect(c, [pdu], [])
    else
      var (s', out) := Receive(s, pdu);
      if |out| != 1 then Undefined
      else
        var f := HandleRead(c, out[0]);
        if f.Undefined? || f.sent == [] then f
        else if |f.sent| != 1 || f.calls != [] then Undefined
        else Converse(s', f.client, f.sent[0], rounds - 1)
  }

  /** A settled request is answered by exactly its list reply and leaves the server as it was. */
  lemma RequestIsAnswered(s: Server, a: Ask, start: u16, end: u16)
    requires Settled(a)
    ensures var pdu := RequestPdu(a, start, end, Blank());
            pdu.Some? &&
            Receive(s, pdu.value) == (s, [ListReply(s.table, s.reading, s.mtu, Fields(start, end, Understood(a)))])
  {
    hide EncodeRange, ReadFields, Understood, ListReply;
    RequestUnderstood(a, start, end, Blank());
  }

  /** The list that f stands for gets across packet after packet, if there is a list. */
  predicate AllChunked(s: Server, rule: Resume, f: Fields) {
    var p, hits := f.query.proc, Matching(s.table, s.reading.bound, f);
    Refused(p, f.start, f.end) || hits == [] || (Packs(f.query) && Chunked(p, s.reading.stop, rule, hits, s.mtu))
  }

  /** The next packet is good, and the client's way of going on passes it. */
  predicate NextGood(s: Server, rule: Resume, f: Fields) {
    var p, hits := f.query.proc, Matching(s.table, s.reading.bound, f);
    && !Refused(p, f.start, f.end) && hits != [] && Packs(f.query) && ChunkGood(p, s.reading.stop, hits, s.mtu)
    && (ResponseFits(p, s.reading.stop, hits, s.mtu); Passed(rule, hits, |Taken(p, s.reading.stop, hits, s.mtu)|))
  }

  /** After a chunk the client asks for what follows it, or is done. */
  lemma StretchMovesOn(c: Client, t: Table, b: Bound, start: u16, pdu: Pdu, taken: seq<Entry>)
    requires Midway(c, t, start) && GoodStep(c, t, b, start, pdu)
    requires !Refused(c.current.value.handler.ask.proc, Next(c, start), c.current.value.handle)
    requires Matching(t, b, Rest(c, start)) != []
    requires pdu != [] && ParseBody(c.current.value.handler.ask.proc, pdu[1..]) == Some(taken)
    ensures var hits, f := Matching(t, b, Rest(c, start)), HandleRead(c, pdu);
            0 < |taken| <= |hits| && f.Effect? &&
            if f.client.current.Some? then
              Gathering(f.client, start) && Matching(t, b, Rest(f.client, start)) == hits[|taken|..]
            else hits[|taken|..] == []
  {
    hide RequestPdu, Understood, HandleRead, ParseBody, Inv, AccOk, Ascending, Conforms, EntryFor;
    var r := c.current.value;
    var p, q, next, lim := r.handler.ask.proc, Understood(r.handler.ask), Next(c, start), Limit(b, r.handle);
    var hits := Matching(t, b, Rest(c, start));
    ChunkIsStretch(c, t, b, start, pdu);
    ConformingStep(c, start, pdu);
    HitsCut(t, q, next, lim, |taken|, Behind(c.resume, taken));
    var list := Items(Acc(c, p)) + taken;
    assert list[|list| - 1] == taken[|taken| - 1];
  }

  /** The reply to the rest of a list is a good step whenever its packet is good. */
  lemma ReplyIsGoodStep(s: Server, c: Client, start: u16)
    requires Gathering(c, start)
    requires Refused(c.current.value.handler.ask.proc, Next(c, start), c.current.value.handle) ||
             Matching(s.table, s.reading.bound, Rest(c, start)) == [] || NextGood(s, c.resume, Rest(c, start))
    ensures GoodStep(c, s.table, s.reading.bound, start, ListReply(s.table, s.reading, s.mtu, Rest(c, start)))
  {
    hide ParseBody, Understood, Response, ChunkGood, Taken, Passed, Hits;
    var f := Rest(c, start);
    var p, hits := f.query.proc, Matching(s.table, s.reading.bound, f);
    if !Refused(p, f.start, f.end) && hits != [] {
      PackedParses(p, s.reading.stop, hits, s.mtu);
      ServerAnswersWell(s.table, s.reading, s.mtu, f);
    }
  }

  /** After a good packet the client asks for what follows its entries, or is done. */
  lemma ChunkMovesOn(s: Server, c: Client, start: u16)
    requires Midway(c, s.table, start)
    requires NextGood(s, c.resume, Rest(c, start))
    ensures var p, hits := c.current.value.handler.ask.proc, Matching(s.table, s.reading.bound, Rest(c, start));
            var f := HandleRead(c, ListReply(s.table, s.reading, s.mtu, Rest(c, start)));
            var k := |Taken(p, s.reading.stop, hits, s.mtu)|;
            k <= |hits| && f.Effect? &&
            if f.client.current.Some? then
              Gathering(f.client, start) && Matching(s.table, s.reading.bound, Rest(f.client, start)) == hits[k..]
            else hits[k..] == []
  {
    hide EncodeRange, ReadFields, Understood, HandleRead, ParseBody, Inv, AccOk, Taken, Response, ChunkGood, GoodAnswer;
    var p, hits := c.current.value.handler.ask.proc, Matching(s.table, s.reading.bound, Rest(c, start));
    PackedParses(p, s.reading.stop, hits, s.mtu);
    ReplyIsGoodStep(s, c, start);
    var pdu := ListReply(s.table, s.reading, s.mtu, Rest(c, start));
    assert pdu == Response(p, s.reading.stop, hits, s.mtu);
    ResponseOpcode(p, s.reading.stop, hits, s.mtu);
    StretchMovesOn(c, s.table, s.reading.bound, start, pdu, Taken(p, s.reading.stop, hits, s.mtu));
  }

  lemma ChunkedMeansNext(s: Server, rule: Resume, f: Fields)
    requires AllChunked(s, rule, f) && Matching(s.table, s.reading.bound, f) != []
    requires !Refused(f.query.proc, f.start, f.end)
    ensures NextGood(s, rule, f)
  {
    hide ChunkGood, Taken, Passed, Hits;
  }

  /** One request and its answer bring the client forward and leave the server as it was. */
  lemma OneRound(s: Server, c: Client, start: u16, pdu: Pdu)
    requires Midway(c, s.table, start) && AllChunked(s, c.resume, Rest(c, start))
    requires RequestPdu(c.current.value.handler.ask, Next(c, start), c.current.value.handle, Blank()) == Some(pdu)
    ensures var (s', out) := Receive(s, pdu);
            s' == s && |out| == 1 && Absorbed(c, s.table, s.reading.bound, start, HandleRead(c, out[0])) &&
            var c' := HandleRead(c, out[0]).client;
            c'.current.Some? ==> Gathering(c', start) && AllChunked(s, c.resume, Rest(c', start))
  {
    hide EncodeRange, ReadFields, Understood, ListReply, HandleRead, Receive, Absorbed, GoodAnswer, ChunkGood, Taken,
         Inv, AccOk;
    var r, b := c.current.value, s.reading.bound;
    RequestIsAnswered(s, r.handler.ask, Next(c, start), r.handle);
    if !Refused(r.handler.ask.proc, Next(c, start), r.handle) && Matching(s.table, b, Rest(c, start)) != [] {
      ChunkedMeansNext(s, c.resume, Rest(c, start));
    }
    ReplyIsGoodStep(s, c, start);
    GoodAnswerAbsorbed(c, s.table, b, start, ListReply(s.table, s.reading, s.mtu, Rest(c, start)));
    if Refused(r.handler.ask.proc, Next(c, start), r.handle) || Matching(s.table, b, Rest(c, start)) == [] {
      ErrorEnds(s, c, start);
    } else {
      ChunkMovesOn(s, c, start);
    }
  }

  lemma ErrorEnds(s: Server, c: Client, start: u16)
    requires Midway(c, s.table, start)
    requires Refused(c.current.value.handler.ask.proc, Next(c, start), c.current.value.handle) ||
             Matching(s.table, s.reading.bound, Rest(c, start)) == []
    ensures var f := HandleRead(c, ListReply(s.table, s.reading, s.mtu, Rest(c, start)));
            f.Effect? && f.client.current.None?
  {
    hide RequestPdu, ParseBody, Hits, HandleRead, AccOk, Settled;
    var r, next := c.current.value, Next(c, start);
    var pdu := ListReply(s.table, s.reading, s.mtu, Rest(c, start));
    NamedErrorEnds(c, r, next, pdu[4]);
    assert pdu == ErrorPdu(r.op, next, pdu[4]);
  }

  lemma {:induction false} ConverseFromMidway(s: Server, c: Client, start: u16, pdu: Pdu, rounds: nat)
    requires Midway(c, s.table, start) && AllChunked(s, c.resume, Rest(c, start))
    requires RequestPdu(c.current.value.handler.ask, Next(c, start), c.current.value.handle, Blank()) == Some(pdu)
    requires rounds > 0 && rounds > c.current.value.handle - Next(c, start)
    ensures Converse(s, c, pdu, rounds) ==
            Effect(Reset(c), [], [Verdict(s.table, s.reading.bound, Goal(c, start), c.current.value.token)])
    decreases rounds
  {
    hide EncodeRange, ReadFields, Understood, HandleRead, Receive, Verdict, AllChunked, Acc, Inv;
    OneRound(s, c, start, pdu);
    var f := HandleRead(c, Receive(s, pdu).1[0]);
    if f.client.current.Some? {
      ConverseFromMidway(s, f.client, start, f.sent[0], rounds - 1);
    }
  }

  /** A request made of an idle client ends with the filter of the table, and the client is as before. */
  predicate Delivers(s: Server, c: Client, a: Ask, start: u16, end: u16, token: nat) {
    var f := IssueList(c, a, start, end, token); var rounds := if start <= end then end - start + 1 else 1;
    f.Effect? && |f.sent| == 1 && f.calls == [] &&
    Converse(s, f.client, f.sent[0], rounds) ==
    Effect(c, [], [Verdict(s.table, s.reading.bound, Fields(start, end, Understood(a)), token)])
  }

  /**
   * End to end, for Find Information, Find By Type Value and Read By Group Type: for every table, MTU, range
   * and reading of the server, if the list gets across packet by packet, the request is over after at most
   * end - start + 1 requests, with the filter of the table as its one callback and the client as before.
   */
  lemma EndToEnd(s: Server, c: Client, a: Ask, start: u16, end: u16, token: nat)
    requires Inv(c) && c.current.None? && Settled(a) && a.proc != ReadByType
    requires AllChunked(s, c.resume, Fields(start, end, Understood(a)))
    ensures Delivers(s, c, a, start, end, token)
  {
    hide EncodeRange, ReadFields, Understood, Converse;
    RequestSent(a, start, end);
    OneAccumulator(c, a.proc, a.proc);
    var f := IssueList(c, a, start, end, token);
    StepKeepsInv(c, List(a, start, end, token));
    assert Midway(f.client, s.table, start);
    ConverseFromMidway(s, f.client, start, f.sent[0], if start <= end then end - start + 1 else 1);
  }
}
