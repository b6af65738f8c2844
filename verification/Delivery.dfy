/** When the conversation delivers: exactly when every packet of the list is good. */
module Delivery {
  import opened Bytes
  import opened AttTypes
  import opened Packing
  import opened Search
  import opened Requests
  import opened Responses
  import opened ServerModel
  import opened ClientModel
  import opened ClientSafety
  import opened Conversation

  /** A list request in progress that has gathered at least base. */
  predicate Underway(c: Client, base: seq<Entry>) {
    && Inv(c) && c.current.Some? && c.current.value.handler.OnList?
    && var a := c.current.value.handler.ask;
    && a.proc != ReadByType && Settled(a) && base <= Items(Acc(c, a.proc))
  }

  /** Every list that calls deliver starts with base. */
  predicate Reports(calls: seq<Call>, base: seq<Entry>) {
    forall i :: 0 <= i < |calls| && calls[i].ListDone? && calls[i].list.Some? ==> base <= calls[i].list.value
  }

  predicate AsksFrom(r: Request, start: u16, pdu: Pdu)
    requires r.handler.OnList?
  {
    RequestPdu(r.handler.ask, start, r.handle, Blank()) == Some(pdu)
  }

  /** f delivers no list without base, and if it asks on, it is for the same request. */
  predicate KeepsBase(c: Client, base: seq<Entry>, f: Effect)
    requires Underway(c, base)
  {
    var r := c.current.value;
    f.Effect? ==>
      && Reports(f.calls, base)
      && (f.sent != [] ==>
            Underway(f.client, base) && f.client.current == c.current && exists x: u16 :: AsksFrom(r, x, f.sent[0]))
  }

  lemma ChunkKeepsBase(c: Client, base: seq<Entry>, body: Option<seq<byte>>, error: Option<ErrorText>)
    requires Underway(c, base)
    ensures KeepsBase(c, base, Chunk(c, c.current.value, c.current.value.handler.ask, body, error))
  {
    hide RequestPdu, ParseBody, Settled, Inv;
    var r := c.current.value;
    var a := r.handler.ask;
    ChunkKeepsInv(c, r, a, body, error);
    var f := Chunk(c, r, a, body, error);
    if f.Effect? && f.sent != [] {
      var list := Items(Acc(c, a.proc)) + (if body.Some? then ParseBody(a.proc, body.value).value else []);
      assert AsksFrom(r, Behind(c.resume, list), f.sent[0]);
    }
  }

  lemma PacketKeepsBase(c: Client, base: seq<Entry>, pdu: Pdu)
    requires Underway(c, base)
    ensures KeepsBase(c, base, HandleRead(c, pdu))
  {
    hide Chunk, RequestPdu;
    if pdu != [] {
      ChunkKeepsBase(c, base, Some(pdu[1..]), None);
    }
    if |pdu| >= 5 {
      ChunkKeepsBase(c, base, None, Some(Remote(pdu[1], Get16(pdu, 2), pdu[4])));
    }
  }

  /** However the conversation goes on, what has been gathered stays at the front of what is delivered. */
  lemma {:induction false} ConverseKeepsBase(s: Server, c: Client, base: seq<Entry>, start: u16, pdu: Pdu, rounds: nat)
    requires Underway(c, base) && AsksFrom(c.current.value, start, pdu)
    ensures Converse(s, c, pdu, rounds).Effect? ==> Reports(Converse(s, c, pdu, rounds).calls, base)
    decreases rounds
  {
    hide HandleRead, Receive, RequestPdu, ListReply, Understood, Inv;
    if rounds > 0 {
      var r := c.current.value;
      RequestIsAnswered(s, r.handler.ask, start, r.handle);
      var reply := Receive(s, pdu).1[0];
      PacketKeepsBase(c, base, reply);
      var f := HandleRead(c, reply);
      if f.Effect? && |f.sent| == 1 {
        var x: u16 :| AsksFrom(r, x, f.sent[0]);
        ConverseKeepsBase(s, f.client, base, x, f.sent[0], rounds - 1);
      }
    }
  }

  lemma NoSizeNoEntries(es: seq<Entry>)
    ensures TotalSize(es) == 0 <==> es == []
  {
    assert es != [] ==> Size(es[0]) > 0;
  }

  lemma {:induction false} PrefixBySize(a: seq<Entry>, b: seq<Entry>, all: seq<Entry>)
    requires a <= all && b <= all && TotalSize(a) == TotalSize(b)
    ensures a == b
  {
    NoSizeNoEntries(a);
    NoSizeNoEntries(b);
    if a != [] {
      assert a[0] == all[0] == b[0];
      PrefixBySize(a[1..], b[1..], all[1..]);
    }
  }

  /** A packet that is not good is read as nothing, as nothing new, or as what is not on the list. */
  lemma BadChunk(p: Procedure, stop: GroupStop, hits: seq<Entry>, mtu: Mtu)
    requires hits != [] && AllFor(p, hits) && !ChunkGood(p, stop, hits, mtu)
    ensures var es := ParseBody(p, Response(p, stop, hits, mtu)[1..]); es.None? || es.value == [] || !(es.value <= hits)
  {
    hide ReadEntries, EntryBytes;
    var taken := Taken(p, stop, hits, mtu);
    ResponseFits(p, stop, hits, mtu);
    ResponseRoundTrip(p, stop, hits, mtu);
    var es := ParseBody(p, Response(p, stop, hits, mtu)[1..]);
    if es.Some? && es.value != [] && es.value <= hits {
      assert Response(p, stop, hits, mtu)[1..] == Header(p, hits[0]) + Concat(taken);
      ParsedAsAnnounced(p, hits[0], taken);
      ReadConsumesAll(Announced(p, hits[0]), Concat(taken));
      PrefixBySize(es.value, taken, hits);
    }
  }

  lemma UnreadableTaken(c: Client, pdu: Pdu)
    requires Underway(c, []) && pdu != [] && pdu[0] == ResponseOp(c.current.value.handler.ask.proc)
    requires ParseBody(c.current.value.handler.ask.proc, pdu[1..]).None?
    ensures HandleRead(c, pdu).Undefined?
  {
    hide ParseBody;
  }

  /** A packet of the expected kind that brings nothing makes the client ask again, with nothing changed. */
  lemma NothingTaken(c: Client, pdu: Pdu)
    requires Underway(c, []) && pdu != [] && pdu[0] == ResponseOp(c.current.value.handler.ask.proc)
    requires ParseBody(c.current.value.handler.ask.proc, pdu[1..]) == Some([])
    ensures var p, f := c.current.value.handler.ask.proc, HandleRead(c, pdu);
            f.Effect? ==>
              && Acc(c, p).Some? && f.client == c && f.calls == [] && |f.sent| == 1
              && Behind(c.resume, Acc(c, p).value) < 0x1_0000
              && AsksFrom(c.current.value, Behind(c.resume, Acc(c, p).value), f.sent[0])
  {
    hide RequestPdu, ParseBody, Settled;
    var p := c.current.value.handler.ask.proc;
    assert AccOk(c, p);
    assert Items(Acc(c, p)) + [] == Items(Acc(c, p));
  }

  /** A packet of the expected kind that brings something adds it to the list. */
  lemma SomethingTaken(c: Client, pdu: Pdu, es: seq<Entry>)
    requires Underway(c, []) && pdu != [] && pdu[0] == ResponseOp(c.current.value.handler.ask.proc)
    requires es != [] && ParseBody(c.current.value.handler.ask.proc, pdu[1..]) == Some(es)
    ensures var r, f := c.current.value, HandleRead(c, pdu); var list := Items(Acc(c, r.handler.ask.proc)) + es;
            f.Effect? ==>
              || (f.sent == [] && f.calls == [ListDone(r.token, 0, Some(list), None)] &&
                  Behind(c.resume, list) > r.handle)
              || (f.calls == [] && |f.sent| == 1 && Underway(f.client, list) && f.client.current == c.current &&
                  f.client.resume == c.resume && Acc(f.client, r.handler.ask.proc) == Some(list) &&
                  Behind(c.resume, list) <= r.handle && AsksFrom(r, Behind(c.resume, list), f.sent[0]))
  {
    hide RequestPdu, ParseBody, Settled;
    var r := c.current.value;
    var a := r.handler.ask;
    var list := Items(Acc(c, a.proc)) + es;
    ChunkKeepsInv(c, r, a, Some(pdu[1..]), None);
    var f := HandleRead(c, pdu);
    assert f == Chunk(c, r, a, Some(pdu[1..]), None) == Continue(c, r, a, list, None);
  }

  /** The conversation ends with the filter of the table. */
  predicate Delivered(s: Server, c: Client, start: u16, f: Effect)
    requires Gathering(c, start)
  {
    f.Effect? && f.calls == [Verdict(s.table, s.reading.bound, Goal(c, start), c.current.value.token)]
  }

  lemma PrefixOfJoin(a: seq<Entry>, x: seq<Entry>, y: seq<Entry>)
    ensures a + x <= a + y ==> x <= y
  {
    assert (a + x)[|a|..] == x && (a + y)[|a|..] == y;
  }

  /** Once something that is not on the list has been gathered, the list is never delivered. */
  lemma WrongListSpoils(s: Server, c: Client, all: seq<Entry>, token: nat, list: seq<Entry>, x: u16, pdu: Pdu,
                        rounds: nat)
    requires Underway(c, list) && AsksFrom(c.current.value, x, pdu) && !(list <= all)
    ensures var f := Converse(s, c, pdu, rounds); f.Effect? ==> f.calls != [ListDone(token, 0, Some(all), None)]
  {
    hide Converse, RequestPdu;
    ConverseKeepsBase(s, c, list, x, pdu, rounds);
    var call := ListDone(token, 0, Some(all), None);
    assert [call][0] == call;
  }

  /** The reply to a list request that finds something: a packed response, or one without entries. */
  lemma ReplyToHits(s: Server, f: Fields)
    requires !Refused(f.query.proc, f.start, f.end) && Matching(s.table, s.reading.bound, f) != []
    ensures var p, hits := f.query.proc, Matching(s.table, s.reading.bound, f);
            var reply := ListReply(s.table, s.reading, s.mtu, f);
            && reply != [] && reply[0] == ResponseOp(p)
            && (Packs(f.query) ==> reply == Response(p, s.reading.stop, hits, s.mtu))
            && (!Packs(f.query) ==> ParseBody(p, reply[1..]) == Some([]))
  {
    hide Hits, Taken, Concat;
  }

  lemma EntryStart(e: Entry)
    ensures |EntryBytes(e)| >= 2 && Get16(EntryBytes(e), 0) == e.handle
  {
    var h := e.handle;
    Field16RoundTrip([], h, EntryBytes(e)[2..], [0, 0], 0);
    assert EntryBytes(e) == [] + Put16(h) + EntryBytes(e)[2..];
  }

  lemma ConcatStart(es: seq<Entry>)
    requires es != []
    ensures |Concat(es)| >= 2 && Get16(Concat(es), 0) == es[0].handle
  {
    hide EntryBytes;
    EntryStart(es[0]);
    assert Concat(es)[..2] == EntryBytes(es[0])[..2];
    assert Concat(es)[0] == Concat(es)[..2][0] && Concat(es)[1] == Concat(es)[..2][1];
  }

  /** However a response is read, the first handle read is that of the first match. */
  lemma FirstHandleRead(p: Procedure, stop: GroupStop, hits: seq<Entry>, mtu: Mtu)
    requires hits != [] && AllFor(p, hits)
    ensures var es := ParseBody(p, Response(p, stop, hits, mtu)[1..]);
            es.Some? && es.value != [] ==> es.value[0].handle == hits[0].handle
  {
    hide ReadEntries, EntryBytes, Concat;
    var taken := Taken(p, stop, hits, mtu);
    var es := ParseBody(p, Response(p, stop, hits, mtu)[1..]);
    assert Response(p, stop, hits, mtu)[1..] == Header(p, hits[0]) + Concat(taken);
    ParsedAsAnnounced(p, hits[0], taken);
    ReadConsumesAll(Announced(p, hits[0]), Concat(taken));
    ResponseFits(p, stop, hits, mtu);
    if es.Some? && es.value != [] {
      ConcatStart(es.value);
      NothingConcat(taken);
      ConcatStart(taken);
    }
  }

  lemma NothingConcat(es: seq<Entry>)
    ensures Concat(es) == [] <==> es == []
  {
    NoSizeNoEntries(es);
  }

  /** The next reply cannot bring what comes next on the list all: nothing matches, or something else comes first. */
  predicate OffTrack(list: seq<Entry>, all: seq<Entry>, hits: seq<Entry>) {
    if |list| < |all| then hits == [] || hits[0].handle != all[|list|].handle
    else hits != []
  }

  /** The search that a looping request asks for from x on. */
  function From(c: Client, x: u16): Fields
    requires c.current.Some? && c.current.value.handler.OnList?
  {
    Fields(x, c.current.value.handle, Understood(c.current.value.handler.ask))
  }

  /** f never delivers all. */
  predicate Never(f: Effect, token: nat, all: seq<Entry>) {
    f.Effect? ==> f.calls != [ListDone(token, 0, Some(all), None)]
  }

  /** A client that goes on at the wrong place never delivers the list. */
  lemma {:induction false} OffTrackNeverDelivers(s: Server, c: Client, all: seq<Entry>, x: u16, pdu: Pdu, rounds: nat)
    requires Underway(c, []) && AsksFrom(c.current.value, x, pdu)
    requires var list := Acc(c, c.current.value.handler.ask.proc);
             list.Some? && x == Behind(c.resume, list.value) &&
             OffTrack(list.value, all, Matching(s.table, s.reading.bound, From(c, x)))
    requires !Refused(c.current.value.handler.ask.proc, x, c.current.value.handle)
    ensures Never(Converse(s, c, pdu, rounds), c.current.value.token, all)
    decreases rounds
  {
    hide RequestPdu, ParseBody, Understood, Hits, HandleRead, Receive, Response, Inv, AccOk, Settled, ListReply;
    if rounds > 0 {
      var r, p := c.current.value, c.current.value.handler.ask.proc;
      var had, hits := Acc(c, p).value, Matching(s.table, s.reading.bound, From(c, x));
      RequestIsAnswered(s, r.handler.ask, x, r.handle);
      var reply := ListReply(s.table, s.reading, s.mtu, From(c, x));
      if hits == [] {
        OffTrackEnds(s, c, x);
      } else {
        ReplyToHits(s, From(c, x));
        FirstHandleRead(p, s.reading.stop, hits, s.mtu);
        var f, es := HandleRead(c, reply), ParseBody(p, reply[1..]);
        if es.None? {
          UnreadableTaken(c, reply);
        } else if es.value == [] {
          NothingTaken(c, reply);
          if f.Effect? {
            OffTrackNeverDelivers(s, c, all, x, pdu, rounds - 1);
          }
        } else {
          SomethingTaken(c, reply, es.value);
          assert (had + es.value)[|had|] == es.value[0];
          if f.Effect? && f.sent != [] {
            var x := Behind(c.resume, had + es.value);
            WrongListSpoils(s, f.client, all, r.token, had + es.value, x, f.sent[0], rounds - 1);
          }
        }
      }
    }
  }

  lemma OffTrackEnds(s: Server, c: Client, x: u16)
    requires Underway(c, []) && !Refused(c.current.value.handler.ask.proc, x, c.current.value.handle)
    requires Matching(s.table, s.reading.bound, From(c, x)) == [] && Acc(c, c.current.value.handler.ask.proc).Some?
    ensures var r := c.current.value;
            HandleRead(c, ListReply(s.table, s.reading, s.mtu, From(c, x))) ==
            Effect(Reset(c), [], [ListDone(r.token, 0, Acc(c, r.handler.ask.proc), None)])
  {
    hide RequestPdu, ParseBody, Hits, Understood, HandleRead;
    NamedErrorEnds(c, c.current.value, x, ECODE_ATTR_NOT_FOUND);
  }

  /** A conversation that meets a packet that is not good delivers no sooner than without it. */
  lemma BadChunkSpoils(s: Server, c: Client, start: u16, pdu: Pdu, rounds: nat)
    requires Midway(c, s.table, start) && AsksFrom(c.current.value, Next(c, start), pdu) && rounds > 0
    requires !Refused(c.current.value.handler.ask.proc, Next(c, start), c.current.value.handle)
    requires var p, hits := c.current.value.handler.ask.proc, Matching(s.table, s.reading.bound, Rest(c, start));
             hits != [] && !(Packs(Rest(c, start).query) && ChunkGood(p, s.reading.stop, hits, s.mtu))
    requires !Delivered(s, c, start, Converse(s, c, pdu, rounds - 1))
    ensures !Delivered(s, c, start, Converse(s, c, pdu, rounds))
  {
    hide RequestPdu, ParseBody, Understood, Hits, HandleRead, Receive, ChunkGood, Response, Inv, AccOk, Settled,
         ListReply, Behind, Ascending, Reports;
    var r, b := c.current.value, s.reading.bound;
    var p, hits := r.handler.ask.proc, Matching(s.table, b, Rest(c, start));
    var had := Items(Acc(c, p));
    MidwayRange(c, s.table, b, start);
    RequestIsAnswered(s, r.handler.ask, Next(c, start), r.handle);
    var reply := ListReply(s.table, s.reading, s.mtu, Rest(c, start));
    ReplyToHits(s, Rest(c, start));
    if Packs(Rest(c, start).query) {
      BadChunk(p, s.reading.stop, hits, s.mtu);
    }
    var f, es := HandleRead(c, reply), ParseBody(p, reply[1..]);
    if es.None? {
      UnreadableTaken(c, reply);
    } else if es.value == [] {
      NothingTaken(c, reply);
      OneAccumulator(c, p, p);
      assert f.Effect? ==> Behind(c.resume, Acc(c, p).value) == Next(c, start) && f.sent == [pdu];
    } else {
      SomethingTaken(c, reply, es.value);
      var list, all := had + es.value, had + hits;
      PrefixOfJoin(had, es.value, hits);
      if f.Effect? && f.sent != [] {
        WrongListSpoils(s, f.client, all, r.token, list, Behind(c.resume, list), f.sent[0], rounds - 1);
      }
    }
  }

  /** Behind k of the entries of a scan, at the wrong place: what comes there is not what comes next. */
  lemma WrongPlaceIsOffTrack(t: Table, q: Query, lo: nat, hi: nat, had: seq<Entry>, k: nat, rule: Resume)
    requires hi <= 0x1_0000 && 0 < k <= |Hits(t, q, lo, hi)| && !Passed(rule, Hits(t, q, lo, hi), k)
    ensures var all := Hits(t, q, lo, hi); OffTrack(had + all[..k], had + all, Hits(t, q, Behind(rule, all[..k]), hi))
  {
    hide EntryOf, Matches;
    var all := Hits(t, q, lo, hi);
    var x := Behind(rule, all[..k]);
    var hits := Hits(t, q, x, hi);
    HitsAreTheFilter(t, q, lo, hi);
    HitsAreTheFilter(t, q, x, hi);
    assert all[k - 1] in all;
    if x <= all[k - 1].handle {
      assert all[k - 1] in hits;
      assert hits[0].handle <= all[k - 1].handle;
    } else {
      assert hits != [] ==> hits[0] in hits;
    }
    assert k < |all| ==> (had + all)[|had| + k] == all[k];
  }

  /** Only groups can make the client go on at the wrong place, and a list that ends there ends too early. */
  lemma WrongPlace(p: Procedure, t: Table, q: Query, lo: nat, end: u16, hi: nat, k: nat, rule: Resume)
    requires hi <= end + 1 && q.proc == p && 0 < k <= |Hits(t, q, lo, hi)| && !Passed(rule, Hits(t, q, lo, hi), k)
    ensures p == ReadByGroup
    ensures Behind(rule, Hits(t, q, lo, hi)[..k]) > end ==> k < |Hits(t, q, lo, hi)|
  {
    hide EntryOf, Matches;
    var all := Hits(t, q, lo, hi);
    HitsAreTheFilter(t, q, lo, hi);
    assert all[k - 1] in all && EntryFor(p, all[k - 1]);
    assert all[..k][k - 1] == all[k - 1];
  }

  /** A good packet that the client goes on from at the wrong place spoils the list. */
  lemma WrongPlaceSpoils(s: Server, c: Client, start: u16, pdu: Pdu, rounds: nat)
    requires Midway(c, s.table, start) && AsksFrom(c.current.value, Next(c, start), pdu) && rounds > 0
    requires !Refused(c.current.value.handler.ask.proc, Next(c, start), c.current.value.handle)
    requires var p, hits := c.current.value.handler.ask.proc, Matching(s.table, s.reading.bound, Rest(c, start));
             hits != [] && Packs(Rest(c, start).query) && ChunkGood(p, s.reading.stop, hits, s.mtu) &&
             !NextGood(s, c.resume, Rest(c, start))
    ensures !Delivered(s, c, start, Converse(s, c, pdu, rounds))
  {
    hide RequestPdu, ParseBody, Understood, Hits, HandleRead, Receive, ChunkGood, Response, Inv, AccOk, Settled,
         ListReply, Taken;
    var r, b := c.current.value, s.reading.bound;
    var p, hits, lim := r.handler.ask.proc, Matching(s.table, b, Rest(c, start)), Limit(b, r.handle);
    var had := Items(Acc(c, p));
    MidwayRange(c, s.table, b, start);
    RequestIsAnswered(s, r.handler.ask, Next(c, start), r.handle);
    var reply := ListReply(s.table, s.reading, s.mtu, Rest(c, start));
    ReplyToHits(s, Rest(c, start));
    PackedParses(p, s.reading.stop, hits, s.mtu);
    var taken := Taken(p, s.reading.stop, hits, s.mtu);
    var list, all := had + taken, had + hits;
    SomethingTaken(c, reply, taken);
    BehindJoin(c.resume, had, taken);
    var f, q := HandleRead(c, reply), Understood(r.handler.ask);
    WrongPlace(p, s.table, q, Next(c, start), r.handle, lim, |taken|, c.resume);
    if f.Effect? {
      WrongPlaceIsOffTrack(s.table, q, Next(c, start), lim, had, |taken|, c.resume);
      if f.sent != [] {
        OffTrackNeverDelivers(s, f.client, all, Behind(c.resume, list), f.sent[0], rounds - 1);
      }
    }
  }

  /** A list that does not get across packet by packet is never delivered. */
  lemma {:induction false} NotChunkedNotDelivered(s: Server, c: Client, start: u16, pdu: Pdu, rounds: nat)
    requires Midway(c, s.table, start) && AsksFrom(c.current.value, Next(c, start), pdu)
    requires !AllChunked(s, c.resume, Rest(c, start))
    ensures !Delivered(s, c, start, Converse(s, c, pdu, rounds))
    decreases rounds
  {
    hide RequestPdu, ParseBody, Understood, Hits, HandleRead, Receive, ListReply, ChunkGood, Verdict, Inv, AccOk,
         Settled, Taken, Passed;
    if rounds > 0 {
      var p, hits := c.current.value.handler.ask.proc, Matching(s.table, s.reading.bound, Rest(c, start));
      if NextGood(s, c.resume, Rest(c, start)) {
        RequestIsAnswered(s, c.current.value.handler.ask, Next(c, start), c.current.value.handle);
        ReplyIsGoodStep(s, c, start);
        GoodAnswerAbsorbed(c, s.table, s.reading.bound, start, Receive(s, pdu).1[0]);
        MidwayRange(c, s.table, s.reading.bound, start);
        ChunkMovesOn(s, c, start);
        assert Chunked(p, s.reading.stop, c.resume, [], s.mtu);
        var f := HandleRead(c, Receive(s, pdu).1[0]);
        if f.client.current.Some? {
          NotChunkedNotDelivered(s, f.client, start, f.sent[0], rounds - 1);
        }
      } else if Packs(Rest(c, start).query) && ChunkGood(p, s.reading.stop, hits, s.mtu) {
        WrongPlaceSpoils(s, c, start, pdu, rounds);
      } else {
        NotChunkedNotDelivered(s, c, start, pdu, rounds - 1);
        BadChunkSpoils(s, c, start, pdu, rounds);
      }
    }
  }

  /**
   * The conversation ends with the filter of the table if and only if every packet of the list is good - it
   * carries something, its first size fits the length byte, all its entries have that size - and the client
   * goes on from it between its last entry and the next. This holds for both ways of going on.
   */
  lemma DeliversIff(s: Server, c: Client, a: Ask, start: u16, end: u16, token: nat)
    requires Inv(c) && c.current.None? && Settled(a) && a.proc != ReadByType
    ensures Delivers(s, c, a, start, end, token) <==> AllChunked(s, c.resume, Fields(start, end, Understood(a)))
  {
    hide EncodeRange, ReadFields, Understood, Converse, Verdict, AllChunked;
    var goal := Fields(start, end, Understood(a));
    RequestSent(a, start, end);
    OneAccumulator(c, a.proc, a.proc);
    var f := IssueList(c, a, start, end, token);
    StepKeepsInv(c, List(a, start, end, token));
    if AllChunked(s, c.resume, goal) {
      EndToEnd(s, c, a, start, end, token);
    } else {
      assert Midway(f.client, s.table, start);
      NotChunkedNotDelivered(s, f.client, start, f.sent[0], if start <= end then end - start + 1 else 1);
    }
  }

  /** Entries without a value get across unless the server does not pack them. */
  lemma ValuelessIsChunked(s: Server, rule: Resume, f: Fields)
    requires f.query.proc == FindInfo || f.query.proc == FindByType
    ensures AllChunked(s, rule, f) <==>
            Refused(f.query.proc, f.start, f.end) || Matching(s.table, s.reading.bound, f) == [] || Packs(f.query)
  {
    hide EntryOf, Matches;
    var p, hits := f.query.proc, Matching(s.table, s.reading.bound, f);
    HitsAreTheFilter(s.table, f.query, f.start, Limit(s.reading.bound, f.end));
    assert forall i :: 0 <= i < |hits| ==> EntryFor(p, hits[i]);
    SendableIsChunked(p, s.reading.stop, rule, hits, s.mtu);
  }

  /** Find Information delivers, unconditionally: every table, MTU, range, client and reading of the server. */
  lemma FindInformationDelivers(s: Server, c: Client, start: u16, end: u16, token: nat)
    requires Inv(c) && c.current.None?
    ensures Delivers(s, c, Ask(FindInfo, None, None), start, end, token)
  {
    hide Delivers, AllChunked;
    var a := Ask(FindInfo, None, None);
    DeliversIff(s, c, a, start, end, token);
    ValuelessIsChunked(s, c.resume, Fields(start, end, Understood(a)));
  }

  /**
   * Find By Type Value delivers whatever fits the buffer, unless the type is the number 0 and an attribute in a
   * range that is not refused has the value: it is found then, but not packed.
   */
  lemma FindByTypeValueDeliversIff(s: Server, c: Client, v: u16, value: seq<byte>, start: u16, end: u16, token: nat)
    requires Inv(c) && c.current.None? && |value| <= 16
    ensures Delivers(s, c, Ask(FindByType, Some(U16(v)), Some(value)), start, end, token) <==>
            v != 0 || Refused(FindByType, start, end) ||
            Matching(s.table, s.reading.bound, Fields(start, end, Query(FindByType, AnyType, Some(value)))) == []
  {
    hide Delivers, AllChunked;
    var a := Ask(FindByType, Some(U16(v)), Some(value));
    var rest := Put16(v) + value;
    Field16RoundTrip([], v, value, [0, 0], 0);
    assert rest == [] + Put16(v) + value && rest[2..] == value;
    assert Understood(a) == Query(FindByType, NumberArg(v), Some(value));
    DeliversIff(s, c, a, start, end, token);
    ValuelessIsChunked(s, c.resume, Fields(start, end, Understood(a)));
  }

  /** A list that gets across consists of entries that could each be sent alone. */
  lemma {:induction false} ChunkedIsSendable(p: Procedure, stop: GroupStop, rule: Resume, es: seq<Entry>, mtu: Mtu)
    requires AllFor(p, es) && Chunked(p, stop, rule, es, mtu)
    ensures Sendable(es, mtu, SameSize)
    decreases |es|
  {
    hide EntryBytes, Packed;
    if es != [] {
      var taken := Taken(p, stop, es, mtu);
      ResponseFits(p, stop, es, mtu);
      ResponseProgress(p, stop, es, mtu);
      ChunkedIsSendable(p, stop, rule, es[|taken|..], mtu);
      forall i | 0 <= i < |es| && (es[i].Data? || es[i].Group?)
        ensures |es[i].value| + 6 <= mtu && Size(es[i]) < 0x100
      {
        assert EntryFor(p, es[0]) && EntryFor(p, es[i]);
        ValueSize(es[0]);
        ValueSize(es[i]);
        if i < |taken| {
          assert es[i] == taken[i];
        } else {
          assert es[i] == es[|taken|..][i - |taken|];
        }
      }
    }
  }

  lemma ValueSize(e: Entry)
    ensures e.Data? ==> Size(e) == |e.value| + 2
    ensures e.Group? ==> Size(e) == |e.value| + 4
  {
  }

  /**
   * With the same-size stop of Part F section 3.4.4.10, which only the group response lacks, a list gets across
   * exactly when each entry could be sent alone.
   */
  lemma StopDeliversIff(p: Procedure, stop: GroupStop, es: seq<Entry>, mtu: Mtu)
    requires AllFor(p, es) && Ascending(es) && (p == ReadByGroup ==> stop == SameSize)
    ensures Chunked(p, stop, BehindHandle, es, mtu) <==> Sendable(es, mtu, SameSize)
  {
    hide Chunked;
    if Chunked(p, stop, BehindHandle, es, mtu) {
      ChunkedIsSendable(p, stop, BehindHandle, es, mtu);
    }
    if Sendable(es, mtu, SameSize) {
      assert forall i :: 0 <= i < |es| ==> EntryFor(p, es[i]);
      SendableIsChunked(p, stop, BehindHandle, es, mtu);
    }
  }

  /** Neighbours of different size do not fit one packet. */
  predicate KeptApart(es: seq<Entry>, mtu: nat) {
    forall i :: 0 <= i < |es| - 1 ==> Size(es[i]) == Size(es[i + 1]) || 2 + Size(es[i]) + Size(es[i + 1]) > mtu
  }

  lemma {:induction false} PairFits(es: seq<Entry>, i: nat)
    requires i + 1 < |es|
    ensures Size(es[i]) + Size(es[i + 1]) <= TotalSize(es)
  {
    hide EntryBytes, Size;
    var tail := es[1..];
    if i == 0 {
      assert tail[0] == es[1];
      assert TotalSize(tail) == Size(tail[0]) + TotalSize(tail[1..]);
    } else {
      PairFits(tail, i - 1);
      assert tail[i - 1] == es[i] && tail[i] == es[i + 1];
    }
  }

  lemma {:induction false} UniformUpTo(es: seq<Entry>, mtu: nat, k: nat)
    requires KeptApart(es, mtu) && k < |es| && 2 + TotalSize(es) <= mtu
    ensures Size(es[k]) == Size(es[0])
  {
    if k > 0 {
      UniformUpTo(es, mtu, k - 1);
      PairFits(es, k - 1);
    }
  }

  lemma ApartChunk(es: seq<Entry>, mtu: Mtu)
    requires es != [] && AllFor(ReadByGroup, es) && Sendable(es, mtu, SameSize) && KeptApart(es, mtu)
    ensures ChunkGood(ReadByGroup, NoStop, es, mtu)
  {
    hide EntryBytes;
    var taken := Taken(ReadByGroup, NoStop, es, mtu);
    assert EntryFor(ReadByGroup, es[0]);
    ResponseFits(ReadByGroup, NoStop, es, mtu);
    ResponseProgress(ReadByGroup, NoStop, es, mtu);
    PackedIsLongestPrefix(es, 2, 0, mtu, None);
    assert Admissible(taken, 2, 0, mtu, None);
    assert KeptApart(taken, mtu);
    forall k | 0 <= k < |taken|
      ensures Size(taken[k]) == Size(es[0])
    {
      UniformUpTo(taken, mtu, k);
    }
  }

  /** Without the stop, as written, it is enough that neighbours of different size are kept apart. */
  lemma {:induction false} ApartIsChunked(rule: Resume, es: seq<Entry>, mtu: Mtu)
    requires AllFor(ReadByGroup, es) && Sendable(es, mtu, SameSize) && KeptApart(es, mtu)
    requires Ascending(es) && (rule == BehindEnd ==> Separated(es))
    ensures Chunked(ReadByGroup, NoStop, rule, es, mtu)
    decreases |es|
  {
    hide EntryBytes, Packed, Sendable, Separated, Passed, ChunkGood;
    if es != [] {
      ApartChunk(es, mtu);
      ResponseFits(ReadByGroup, NoStop, es, mtu);
      ChunkCarries(ReadByGroup, NoStop, es, mtu);
      var k := |Taken(ReadByGroup, NoStop, es, mtu)|;
      SeparatedIsPassed(rule, es, k);
      SendableTail(ReadByGroup, es, mtu, SameSize, k);
      ApartIsChunked(rule, es[k..], mtu);
    }
  }

  /** Service groups: the value is a 16-bit or a 128-bit UUID. */
  predicate Services(es: seq<Entry>) {
    forall i :: 0 <= i < |es| ==> es[i].Group? && (|es[i].value| == 2 || |es[i].value| == 16)
  }

  function Zeros(n: nat): (z: seq<byte>)
    ensures |z| == n
  {
    seq(n, _ => 0)
  }

  lemma ServicesAreApart(es: seq<Entry>, mtu: Mtu)
    requires Services(es) && mtu < 28
    ensures Sendable(es, mtu, SameSize) && KeptApart(es, mtu)
  {
    hide EntryBytes;
    forall i | 0 <= i < |es|
      ensures Size(es[i]) == |es[i].value| + 4
    {
      ValueSize(es[i]);
    }
  }

  /**
   * The missing stop (lib/att.js:429-439) does no harm to primary service discovery up to an MTU of 27, in
   * particular at the LE default of 23. From 28 on a 16-bit and a 128-bit service share a packet and are misread.
   */
  lemma ServicesGetAcrossIff(mtu: Mtu)
    ensures (forall es: seq<Entry> :: Services(es) && Ascending(es) ==>
              Chunked(ReadByGroup, NoStop, BehindHandle, es, mtu)) <==> mtu < 28
  {
    if mtu < 28 {
      forall es: seq<Entry> | Services(es) && Ascending(es)
        ensures Chunked(ReadByGroup, NoStop, BehindHandle, es, mtu)
      {
        ServicesAreApart(es, mtu);
        ApartIsChunked(BehindHandle, es, mtu);
      }
    } else {
      var es := [Group(1, 1, Zeros(2)), Group(2, 2, Zeros(16))];
      ValueSize(es[0]);
      ValueSize(es[1]);
      assert es[1..] == [es[1]] && [es[1]][1..] == [];
      assert Packed([es[1]], 8, 0, mtu, None) == [es[1]] + Packed([], 28, 0, mtu, None);
      assert !ChunkGood(ReadByGroup, NoStop, es, mtu) by {
        assert Taken(ReadByGroup, NoStop, es, mtu)[1] == es[1];
      }
      assert Services(es) && Ascending(es) && !Chunked(ReadByGroup, NoStop, BehindHandle, es, mtu);
    }
  }

  /**
   * The range bound: as written (lib/att.js:216) and inclusive as Part F has it, the verdict is the same
   * exactly when the request is refused, the range is empty, or its end handle holds no match.
   */
  lemma BoundsAgreeIff(t: Table, f: Fields, token: nat)
    ensures Verdict(t, BelowEnd, f, token) == Verdict(t, ThroughEnd, f, token) <==>
            (Refused(f.query.proc, f.start, f.end) || f.start > f.end || f.end !in t || !Matches(t[f.end], f.query))
  {
    if f.start <= f.end {
      HitsNext(t, f.query, f.start, f.end);
      var below, through := Matching(t, BelowEnd, f), Matching(t, ThroughEnd, f);
      assert |below| == |through| ==> below == through;
    }
  }

  /** So as written a request for one handle finds nothing, whatever the handle holds. */
  lemma OneHandleFindsNothing(t: Table, h: u16, q: Query, token: nat)
    requires h != 0
    ensures Verdict(t, BelowEnd, Fields(h, h, q), token) ==
            ListDone(token, 0, None, if q.proc == FindByType then Some(NotFound) else None)
    ensures h in t && Matches(t[h], q) ==>
            Verdict(t, ThroughEnd, Fields(h, h, q), token) == ListDone(token, 0, Some([EntryOf(q.proc, h, t[h])]), None)
  {
    HitsNext(t, q, h, h);
    if h in t {
      var e := EntryOf(q.proc, h, t[h]);
      assert [] + [e] == [e];
    }
  }

  /** Does f end a Read By Type with a true report? */
  predicate SingleDelivered(s: Server, goal: Fields, token: nat, c: Client, f: Effect) {
    f.Effect? && f.client == c && f.sent == [] && |f.calls| == 1 &&
    SingleVerdict(s.table, s.reading.bound, goal, token, f.calls[0])
  }

  lemma BadSingle(s: Server, c: Client, pdu: Pdu, goal: Fields)
    requires Inv(c) && c.current.Some? && c.current.value.handler.OnList? &&
             c.current.value.handler.ask.proc == ReadByType
    requires goal.query.proc == ReadByType
    requires var hits := Matching(s.table, s.reading.bound, goal);
             hits != [] && !ChunkGood(ReadByType, s.reading.stop, hits, s.mtu) &&
             pdu == Response(ReadByType, s.reading.stop, hits, s.mtu)
    ensures !SingleDelivered(s, goal, c.current.value.token, Reset(c), HandleRead(c, pdu))
  {
    hide ParseBody, Hits, ChunkGood, Response;
    var hits := Matching(s.table, s.reading.bound, goal);
    ResponseOpcode(ReadByType, s.reading.stop, hits, s.mtu);
    BadChunk(ReadByType, s.reading.stop, hits, s.mtu);
    assert HandleRead(c, pdu) == HandleReadByType(c, c.current.value, 0, Some(pdu[1..]), None);
  }

  lemma SingleReply(s: Server, goal: Fields)
    requires goal.query.proc == ReadByType && Matching(s.table, s.reading.bound, goal) != []
    ensures ListReply(s.table, s.reading, s.mtu, goal) ==
            Response(ReadByType, s.reading.stop, Matching(s.table, s.reading.bound, goal), s.mtu)
  {
  }

  lemma SingleChunkIff(hits: seq<Entry>, stop: GroupStop, mtu: Mtu)
    requires hits != [] && AllFor(ReadByType, hits)
    ensures ChunkGood(ReadByType, stop, hits, mtu) <==> |hits[0].value| + 6 <= mtu && |hits[0].value| + 2 < 0x100
  {
    hide EntryBytes;
    var taken := Taken(ReadByType, stop, hits, mtu);
    assert EntryFor(ReadByType, hits[0]);
    ValueSize(hits[0]);
    ResponseProgress(ReadByType, stop, hits, mtu);
    PackedIsLongestPrefix(hits, 2, 2, mtu, Some(Size(hits[0])));
    assert Admissible(hits[..|taken|], 2, 2, mtu, Some(Size(hits[0])));
  }

  /**
   * Read By Type end to end: its one answer is a true report if and only if nothing matches, or the first
   * matching value plus six bytes fits the MTU and its size the length byte.
   */
  lemma SingleDeliversIff(s: Server, c: Client, a: Ask, start: u16, end: u16, token: nat)
    requires Inv(c) && c.current.None? && Settled(a) && a.proc == ReadByType
    ensures var goal := Fields(start, end, Understood(a)); var hits := Matching(s.table, s.reading.bound, goal);
            var f := IssueList(c, a, start, end, token);
            f.Effect? && |f.sent| == 1 &&
            (SingleDelivered(s, goal, token, c, Converse(s, f.client, f.sent[0], 1)) <==>
             (hits == [] || (|hits[0].value| + 6 <= s.mtu && |hits[0].value| + 2 < 0x100)))
  {
    hide EncodeRange, ReadFields, Understood, HandleRead, ParseBody, Hits, SingleVerdict, ChunkGood, Receive, ListReply;
    var goal := Fields(start, end, Understood(a));
    var hits := Matching(s.table, s.reading.bound, goal);
    RequestSent(a, start, end);
    OneAccumulator(c, a.proc, a.proc);
    var f := IssueList(c, a, start, end, token);
    StepKeepsInv(c, List(a, start, end, token));
    RequestIsAnswered(s, a, start, end);
    var reply := ListReply(s.table, s.reading, s.mtu, goal);
    if hits == [] || ChunkGood(ReadByType, s.reading.stop, hits, s.mtu) {
      ServerAnswersWell(s.table, s.reading, s.mtu, goal);
      SingleAbsorbed(f.client, s.table, s.reading.bound, start, reply);
    } else {
      SingleReply(s, goal);
      BadSingle(s, f.client, reply, goal);
    }
    if hits != [] {
      SingleChunkIff(hits, s.reading.stop, s.mtu);
    }
  }

  /**
   * A Read By Type for a 128-bit type, end to end: it reports the attributes of the 16-bit type that the type's
   * first two bytes make, or all attributes when those are 0. What it was meant to find, it finds by no accident
   * but one (Requests.Carried).
   */
  lemma LongTypeFindsAnother(s: Server, c: Client, l: Long, start: u16, end: u16, token: nat)
    requires Inv(c) && c.current.None?
    ensures var a := Ask(ReadByType, Some(U128(l)), None);
            var goal := Fields(start, end, Query(ReadByType, NumberArg(Get16(l, 0)), None));
            var hits := Matching(s.table, s.reading.bound, goal);
            var f := IssueList(c, a, start, end, token);
            && (Meant(a) == goal.query <==> l == BASE_LOW + Put16(0x34FB) + [0, 0])
            && f.Effect? && |f.sent| == 1
            && (SingleDelivered(s, goal, token, c, Converse(s, f.client, f.sent[0], 1)) <==>
                (hits == [] || (|hits[0].value| + 6 <= s.mtu && |hits[0].value| + 2 < 0x100)))
  {
    hide Converse, SingleDelivered, Hits, IssueList, Meant;
    var a := Ask(ReadByType, Some(U128(l)), None);
    assert l + [] == l;
    assert Understood(a) == Query(ReadByType, NumberArg(Get16(l, 0)), None);
    UnderstoodAsMeantIff(a);
    SingleDeliversIff(s, c, a, start, end, token);
  }
}
