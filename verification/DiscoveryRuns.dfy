/** Characteristic discovery end to end: getChars asking the server through the client. */
module DiscoveryRuns {
  import opened Bytes
  import opened AttTypes
  import opened Packing
  import opened Search
  import opened Requests
  import opened Responses
  import opened ServerModel
  import opened ClientModel
  import opened ClientSafety
  import opened Conversation
  import opened Delivery
  import opened Discovery
  import opened Interning
  import opened Layout

  const DECLARATIONS := Ask(ReadByType, Some(U16(0x2803)), None)

  /** What the callback of readByType makes of the client's report. */
  function ToAnswer(call: Call): Option<Answer> {
    if !call.ListDone? then None
    else if call.error.Some? then Some(if call.status == ECODE_ATTR_NOT_FOUND then NoneFound else Failed(call.status))
    else if call.list.Some? && AllFor(ReadByType, call.list.value) then Some(Listed(call.list.value))
    else None
  }

  /** One readByType over the air; None where the client's behaviour is undefined. */
  function Asking(s: Server, c: Client, start: u16, end: u16): Option<Answer> {
    match IssueList(c, DECLARATIONS, start, end, 0)
    case Undefined => None
    case Effect(c1, sent, _) =>
      if |sent| != 1 then None
      else
        match Converse(s, c1, sent[0], 1)
        case Undefined => None
        case Effect(_, _, calls) => if |calls| == 1 then ToAnswer(calls[0]) else None
  }

  /** The answers that getChars gets, asking on behind the last handle of each. */
  function Answers(s: Server, c: Client, start: u16, end: u16, rounds: nat): seq<Answer>
    decreases rounds
  {
    if rounds == 0 then []
    else
      match Asking(s, c, start, end)
      case None => []
      case Some(a) =>
        if a.Listed? && a.items != [] && a.items[|a.items| - 1].handle < end then
          [a] + Answers(s, c, a.items[|a.items| - 1].handle + 1, end, rounds - 1)
        else [a]
  }

  function Declarations(s: Server, start: u16, end: u16): seq<Entry> {
    Matching(s.table, s.reading.bound, Fields(start, end, Understood(DECLARATIONS)))
  }

  /** The client reports the reply to a Read By Type at once. */
  lemma ReplyReported(s: Server, c: Client, start: u16, end: u16)
    requires Inv(c) && c.current.None?
    ensures var hits := Declarations(s, start, end);
            Asking(s, c, start, end) ==
            if hits == [] then Some(NoneFound)
            else
              var es := ParseBody(ReadByType, Response(ReadByType, s.reading.stop, hits, s.mtu)[1..]);
              if es.Some? && AllFor(ReadByType, es.value) then Some(Listed(es.value)) else None
  {
    hide EncodeRange, ReadFields, HandleRead, ParseBody, Hits, Receive, ListReply, Understood, Response;
    var a := DECLARATIONS;
    var goal := Fields(start, end, Understood(a));
    RequestSent(a, start, end);
    OneAccumulator(c, a.proc, a.proc);
    var f := IssueList(c, a, start, end, 0);
    StepKeepsInv(c, List(a, start, end, 0));
    RequestIsAnswered(s, a, start, end);
    var reply := ListReply(s.table, s.reading, s.mtu, goal);
    if Declarations(s, start, end) == [] {
      ServerAnswersWell(s.table, s.reading, s.mtu, goal);
      SingleAbsorbed(f.client, s.table, s.reading.bound, start, reply);
    } else {
      SingleReply(s, goal);
      ResponseOpcode(ReadByType, s.reading.stop, Declarations(s, start, end), s.mtu);
      BodyReported(f.client, reply);
    }
  }

  lemma BodyReported(c: Client, pdu: Pdu)
    requires c.current.Some? && c.current.value.handler.OnList? && c.current.value.handler.ask.proc == ReadByType
    requires pdu != [] && pdu[0] == OP_READ_BY_TYPE_RESP
    ensures var es := ParseBody(ReadByType, pdu[1..]);
            HandleRead(c, pdu) ==
            if es.None? then Undefined
            else Effect(c.(current := None), [], [ListDone(c.current.value.token, 0, es, None)])
  {
    hide ParseBody;
  }

  /** An error in the name of Read By Type is what getChars hears: its end for not found, its failure for any other. */
  lemma ErrorIsHeard(c: Client, h: u16, code: byte)
    requires c.current.Some? && c.current.value.op == 0x08
    requires c.current.value.handler.OnList? && c.current.value.handler.ask.proc == ReadByType
    ensures var f := HandleRead(c, [0x01, 0x08, h % 0x100, h / 0x100, code]);
            && f.Effect? && f.client == c.(current := None) && f.sent == [] && |f.calls| == 1
            && ToAnswer(f.calls[0]) == Some(if code == 0x0A then NoneFound else Failed(code))
  {
  }

  /** Whatever is collected later stays behind what has been collected. */
  lemma {:induction false} CollectKeeps(start: u16, end: u16, answers: seq<Answer>, had: seq<Found>)
    ensures var got := Collect(start, end, answers, had); got.Finished? ==> had <= got.items
    decreases |answers|
  {
    if answers != [] && answers[0].Listed? && answers[0].items != [] {
      var list := answers[0].items;
      if list[|list| - 1].handle < end {
        CollectKeeps(list[|list| - 1].handle + 1, end, answers[1..], had + list);
      }
    }
  }

  /** Collecting ends with the declarations in the range if and only if each of them gets across. */
  predicate Collects(s: Server, c: Client, start: u16, end: u16, rounds: nat, had: seq<Found>) {
    var hits := Declarations(s, start, end);
    AllFor(ReadByType, hits) &&
    Collect(start, end, Answers(s, c, start, end, rounds), had) == Finished(had + hits)
  }

  /** A good packet answers with a stretch of the declarations; what follows it starts behind its last handle. */
  lemma GoodPacketAnswers(s: Server, c: Client, start: u16, end: u16)
    requires Inv(c) && c.current.None? && Declarations(s, start, end) != []
    requires ChunkGood(ReadByType, s.reading.stop, Declarations(s, start, end), s.mtu)
    ensures var hits := Declarations(s, start, end); var taken := Taken(ReadByType, s.reading.stop, hits, s.mtu);
            && 0 < |taken| <= |hits| && AllFor(ReadByType, taken) && hits == taken + hits[|taken|..]
            && Asking(s, c, start, end) == Some(Listed(taken))
            && var next := taken[|taken| - 1].handle + 1;
            && start < next
            && (if next <= end then Declarations(s, next, end) == hits[|taken|..] else hits[|taken|..] == [])
  {
    hide ParseBody, Response, Understood, Asking, ChunkGood, Packed;
    var hits := Declarations(s, start, end);
    var taken := Taken(ReadByType, s.reading.stop, hits, s.mtu);
    ReplyReported(s, c, start, end);
    PackedParses(ReadByType, s.reading.stop, hits, s.mtu);
    HitsResume(s.table, Understood(DECLARATIONS), start, Limit(s.reading.bound, end), |taken|);
    assert taken[|taken| - 1] == hits[|taken| - 1];
  }

  lemma GoodPacketCollects(s: Server, c: Client, start: u16, end: u16, rounds: nat, had: seq<Found>)
    requires Inv(c) && c.current.None? && rounds > 0 && Declarations(s, start, end) != []
    requires ChunkGood(ReadByType, s.reading.stop, Declarations(s, start, end), s.mtu)
    ensures var hits := Declarations(s, start, end); var taken := Taken(ReadByType, s.reading.stop, hits, s.mtu);
            0 < |taken| <= |hits| && AllFor(ReadByType, taken) &&
            var next := taken[|taken| - 1].handle + 1;
            Collects(s, c, start, end, rounds, had) ==
            (next > end || Collects(s, c, next, end, rounds - 1, had + taken))
  {
    hide Understood, Asking, ChunkGood, Taken, Hits;
    GoodPacketAnswers(s, c, start, end);
    var hits := Declarations(s, start, end);
    var taken := Taken(ReadByType, s.reading.stop, hits, s.mtu);
    assert had + (taken + hits[|taken|..]) == (had + taken) + hits[|taken|..];
    assert (had + taken) + [] == had + taken;
    var next := taken[|taken| - 1].handle + 1;
    if next <= end {
      assert ([Listed(taken)] + Answers(s, c, next, end, rounds - 1))[1..] == Answers(s, c, next, end, rounds - 1);
    }
  }

  /** What is gathered from an answer off the list is never taken back. */
  lemma WrongAnswerCollects(s: Server, c: Client, start: u16, end: u16, rounds: nat, had: seq<Found>, es: seq<Found>)
    requires rounds > 0 && Asking(s, c, start, end) == Some(Listed(es))
    requires es == [] || !(es <= Declarations(s, start, end))
    ensures !Collects(s, c, start, end, rounds, had)
  {
    hide Asking, Declarations;
    PrefixOfJoin(had, es, Declarations(s, start, end));
    if es != [] && es[|es| - 1].handle < end {
      var next := es[|es| - 1].handle + 1;
      var rest := Answers(s, c, next, end, rounds - 1);
      assert ([Listed(es)] + rest)[1..] == rest;
      CollectKeeps(next, end, rest, had + es);
    }
  }

  lemma BadPacketCollects(s: Server, c: Client, start: u16, end: u16, rounds: nat, had: seq<Found>)
    requires Inv(c) && c.current.None? && Declarations(s, start, end) != []
    requires !ChunkGood(ReadByType, s.reading.stop, Declarations(s, start, end), s.mtu)
    ensures !Collects(s, c, start, end, rounds, had)
  {
    hide ParseBody, Response, Understood, Asking, ChunkGood, Hits;
    var hits := Declarations(s, start, end);
    ReplyReported(s, c, start, end);
    BadChunk(ReadByType, s.reading.stop, hits, s.mtu);
    if rounds > 0 && Asking(s, c, start, end).Some? {
      WrongAnswerCollects(s, c, start, end, rounds, had, Asking(s, c, start, end).value.items);
    }
  }

  lemma NothingCollects(s: Server, c: Client, start: u16, end: u16, rounds: nat, had: seq<Found>)
    requires rounds > 0 && Declarations(s, start, end) == [] && Asking(s, c, start, end) == Some(NoneFound)
    ensures Collects(s, c, start, end, rounds, had)
  {
    assert had + [] == had;
  }

  /**
   * Discovery end to end: asking the server again and again, getChars collects the declarations in the range,
   * each once and in order, if and only if each of them, alone, fits the MTU with six bytes to spare and the
   * length byte; it takes at most end - start + 1 requests.
   */
  lemma {:induction false} CollectsIff(s: Server, c: Client, start: u16, end: u16, rounds: nat, had: seq<Found>)
    requires Inv(c) && c.current.None? && rounds > 0 && rounds > end - start
    ensures Collects(s, c, start, end, rounds, had) <==> Sendable(Declarations(s, start, end), s.mtu, SameSize)
    decreases rounds
  {
    hide ParseBody, Response, Understood, Asking, ChunkGood, Hits, Collects, Taken, Sendable, EntryOf, Matches;
    var hits := Declarations(s, start, end);
    HitsAreTheFilter(s.table, Understood(DECLARATIONS), start, Limit(s.reading.bound, end));
    StopDeliversIff(ReadByType, s.reading.stop, hits, s.mtu);
    if hits == [] {
      ReplyReported(s, c, start, end);
      NothingCollects(s, c, start, end, rounds, had);
    } else if ChunkGood(ReadByType, s.reading.stop, hits, s.mtu) {
      GoodPacketAnswers(s, c, start, end);
      GoodPacketCollects(s, c, start, end, rounds, had);
      var taken := Taken(ReadByType, s.reading.stop, hits, s.mtu);
      var next := taken[|taken| - 1].handle + 1;
      ResponseFits(ReadByType, s.reading.stop, hits, s.mtu);
      StopDeliversIff(ReadByType, s.reading.stop, hits[|taken|..], s.mtu);
      if next <= end {
        CollectsIff(s, c, next, end, rounds - 1, had + taken);
      } else {
        assert Chunked(ReadByType, s.reading.stop, BehindHandle, [], s.mtu);
      }
    } else {
      BadPacketCollects(s, c, start, end, rounds, had);
    }
  }

  /**
   * The whole of findCharacteristics: with every declaration sendable, getChars ends with one callback that
   * reports the declarations that pass the filter, unless one of those cannot be read or created, when it throws.
   */
  lemma DiscoveryOutcome(s: Server, c: Client, start: u16, end: u16, filter: Option<Filter>, taken: set<nat>)
    requires Inv(c) && c.current.None? && start <= end && Sendable(Declarations(s, start, end), s.mtu, SameSize)
    ensures var hits := Declarations(s, start, end);
            AllFor(ReadByType, hits) &&
            Collect(start, end, Answers(s, c, start, end, end - start + 1), []) == Finished(hits) &&
            Select(hits, filter, taken) ==
            if Discoverable(hits, filter, taken) then Some(CharsOf(Passing(hits, filter))) else None
  {
    hide Answers, Declarations, Sendable, Select, Discoverable;
    CollectsIff(s, c, start, end, end - start + 1, []);
    var hits := Declarations(s, start, end);
    assert [] + hits == hits;
    SelectIff(hits, filter, taken);
    SelectYields(hits, filter, taken);
  }

  lemma EmptyPacketReads(hits: seq<Entry>, stop: GroupStop, mtu: Mtu)
    requires hits != [] && AllFor(ReadByType, hits)
    ensures ParseBody(ReadByType, Response(ReadByType, stop, hits, mtu)[1..]) == Some([]) <==>
            Taken(ReadByType, stop, hits, mtu) == []
  {
    hide Packed, EntryFor, ParseBody, EntryBytes, ReadEntries;
    var taken := Taken(ReadByType, stop, hits, mtu);
    assert hits[0] in hits;
    assert Response(ReadByType, stop, hits, mtu)[1..] == Header(ReadByType, hits[0]) + Concat(taken);
    ParsedAsAnnounced(ReadByType, hits[0], taken);
    ReadsNothingIff(Announced(ReadByType, hits[0]), Concat(taken));
    NothingConcat(taken);
  }

  lemma ReadsNothingIff(s: Shape, b: seq<byte>)
    ensures ReadEntries(s, b) == Some([]) <==> b == []
  {
    hide ReadEntry;
  }

  /**
   * The two spare bytes that lib/att.js:367 asks for: a characteristic with a 128-bit UUID, whose declaration
   * has 19 bytes, fits an MTU of 23 but is answered with an empty list below 25, on which getChars throws.
   */
  lemma LongCharacteristicNeeds25(s: Server, c: Client, start: u16, end: u16, rounds: nat, had: seq<Found>)
    requires Inv(c) && c.current.None? && rounds > 0
    requires Declarations(s, start, end) != [] && |Declarations(s, start, end)[0].value| == 19
    ensures Asking(s, c, start, end) == Some(Listed([])) <==> s.mtu < 25
    ensures s.mtu < 25 ==> Collect(start, end, Answers(s, c, start, end, rounds), had) == Broken
  {
    hide ParseBody, Response, Understood, Asking, Hits, Taken;
    var hits := Declarations(s, start, end);
    ReplyReported(s, c, start, end);
    assert EntryFor(ReadByType, hits[0]);
    EmptyPacketReads(hits, s.reading.stop, s.mtu);
    ResponseProgress(ReadByType, s.reading.stop, hits, s.mtu);
  }

  function ValueOf(uuid: Uuid): Long {
    if uuid.Uuid16? then Expand(uuid.short) else uuid.long
  }

  lemma OwnNumberIff(uuid: Uuid)
    ensures Expand(Get16(UuidBytes(uuid), 0)) == ValueOf(uuid) <==> uuid.Uuid16? || uuid.long == Expand(0x34FB)
  {
    var b := UuidBytes(uuid);
    if uuid.Uuid16? {
      Field16RoundTrip([], uuid.short, [], [0, 0], 0);
      assert [] + Put16(uuid.short) + [] == b;
    } else {
      var l, e := uuid.long, Expand(Get16(b, 0));
      assert e[0] == BASE_LOW[0] == 0xFB && e[1] == BASE_LOW[1] == 0x34;
      assert Expand(0x34FB)[0] == 0xFB && Expand(0x34FB)[1] == 0x34;
    }
  }

  lemma MeetingMeansSame(a: Spelling, b: Spelling)
    requires Denotes(a).Some? && Denotes(b).Some? && Meets(a, b)
    ensures Denotes(a) == Denotes(b)
  {
    hide Denotes, Meets, WrittenKey;
    WrittenKeysMeetIff(a, b);
    KeysAreForValues(AsWritten, a);
    WrittenKeysAreSound(a, b);
  }

  /**
   * Searching for a characteristic by the UUID it was declared with. Of a longer one createChars reads only the low
   * two bytes; so with one key per value the search finds a 16-bit UUID, and of the longer ones the one that its
   * first two bytes happen to stand for. As written the spelling has to meet the number, too.
   */
  lemma FindsOwnUuidIff(h: u16, properties: byte, uuid: Uuid, f: Filter)
    requires uuid != Uuid16(0) && Denotes(f.spelling) == Some(ValueOf(uuid))
    ensures var e := Data(h, DeclarationValue(properties, if h < 0xFFFF then h + 1 else 0, uuid));
            var v := Get16(UuidBytes(uuid), 0);
            ShortUuid(e) == Some(v) &&
            (Passes(Some(f), e) <==>
             v != 0 && (uuid.Uuid16? || uuid.long == Expand(0x34FB)) &&
             (f.rule == AsWritten ==> Meets(f.spelling, Num(v))))
  {
    hide Expand, KeyOf, Meets, Passes;
    var e := Data(h, DeclarationValue(properties, if h < 0xFFFF then h + 1 else 0, uuid));
    assert e.value[3] == e.value[3..][0] && e.value[4] == e.value[3..][1];
    PassesIff(f, e);
    OwnNumberIff(uuid);
    var v := Get16(UuidBytes(uuid), 0);
    if v != 0 && Meets(f.spelling, Num(v)) {
      MeetingMeansSame(f.spelling, Num(v));
    }
  }
}
