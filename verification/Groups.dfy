/**
 * Groups in the handle space: src/att.cc goes on behind the last handle of a response, Part G section 4.4.1
 * behind the end of its last group. When the two find the same, and that laid-out services make them.
 */
module Groups {
  import opened Bytes
  import opened AttTypes
  import opened Packing
  import opened Search
  import opened Requests
  import opened Responses
  import opened ServerModel
  import opened ClientModel
  import opened ClientSafety
  import opened Conversation
  import opened Delivery
  import opened AttServer
  import opened Layout

  /** At every packet boundary the last group is over before the next match: no match is inside it and left out. */
  predicate CleanBoundaries(stop: GroupStop, es: seq<Entry>, mtu: Mtu)
    requires AllFor(ReadByGroup, es)
    decreases |es|
  {
    es == [] ||
    (assert EntryFor(ReadByGroup, es[0]);
     ResponseFits(ReadByGroup, stop, es, mtu);
     var k := |Taken(ReadByGroup, stop, es, mtu)|;
     k > 0 && EntryFor(ReadByGroup, es[k - 1]) &&
     es[k - 1].handle <= es[k - 1].end && (k < |es| ==> es[k - 1].end < es[k].handle) &&
     CleanBoundaries(stop, es[k..], mtu))
  }

  lemma {:induction false} CleanMeansChunked(stop: GroupStop, es: seq<Entry>, mtu: Mtu)
    requires AllFor(ReadByGroup, es) && Ascending(es) && Chunked(ReadByGroup, stop, BehindHandle, es, mtu)
    ensures Chunked(ReadByGroup, stop, BehindEnd, es, mtu) <==> CleanBoundaries(stop, es, mtu)
    decreases |es|
  {
    hide Packed, ChunkGood;
    if es != [] {
      ResponseFits(ReadByGroup, stop, es, mtu);
      ChunkCarries(ReadByGroup, stop, es, mtu);
      var k := |Taken(ReadByGroup, stop, es, mtu)|;
      assert es[..k][k - 1] == es[k - 1] && EntryFor(ReadByGroup, es[k - 1]);
      CleanMeansChunked(stop, es[k..], mtu);
    }
  }

  function Rule(c: Client, rule: Resume): Client {
    c.(resume := rule)
  }

  /**
   * Where the client as written delivers the groups of a range, a client that goes on behind the last group's
   * end delivers the same if and only if no match lies in the last group of a packet behind its start.
   */
  lemma RulesAgreeIff(s: Server, c: Client, a: Ask, start: u16, end: u16, token: nat)
    requires Inv(c) && c.current.None? && Settled(a) && a.proc == ReadByGroup
    requires Delivers(s, Rule(c, BehindHandle), a, start, end, token)
    ensures Delivers(s, Rule(c, BehindEnd), a, start, end, token) <==>
            CleanBoundaries(s.reading.stop,
                            Matching(s.table, s.reading.bound, Fields(start, end, Understood(a))), s.mtu)
  {
    hide Delivers, Understood, Inv, Chunked, CleanBoundaries, Hits;
    var f := Fields(start, end, Understood(a));
    var hits := Matching(s.table, s.reading.bound, f);
    IdleUnderAnyRule(c, BehindHandle);
    IdleUnderAnyRule(c, BehindEnd);
    DeliversIff(s, Rule(c, BehindHandle), a, start, end, token);
    DeliversIff(s, Rule(c, BehindEnd), a, start, end, token);
    HitsAreTheFilter(s.table, f.query, start, Limit(s.reading.bound, end));
    if hits == [] {
      NothingIsClean(s.reading.stop, s.mtu);
    } else {
      CleanMeansChunked(s.reading.stop, hits, s.mtu);
    }
  }

  lemma IdleUnderAnyRule(c: Client, rule: Resume)
    requires Inv(c) && c.current.None?
    ensures Inv(Rule(c, rule)) && Rule(c, rule).current.None?
  {
  }

  lemma NothingIsClean(stop: GroupStop, mtu: Mtu)
    ensures CleanBoundaries(stop, [], mtu)
  {
  }

  /** Groups as the service constructor leaves them: each ends at the handle where the next one starts. */
  predicate Abutting(es: seq<Entry>) {
    forall i :: 0 <= i < |es| && es[i].Group? ==>
      es[i].handle <= es[i].end && (i + 1 < |es| ==> es[i].end == es[i + 1].handle)
  }

  /**
   * The end handles of the constructor (lib/service.js:21), with services right behind each other: going on
   * behind the end loses the first service of the next packet, so nothing is lost exactly when one packet carries all.
   */
  lemma AbuttingIff(stop: GroupStop, es: seq<Entry>, mtu: Mtu)
    requires es != [] && AllFor(ReadByGroup, es) && Abutting(es) && Taken(ReadByGroup, stop, es, mtu) != []
    ensures CleanBoundaries(stop, es, mtu) <==> Taken(ReadByGroup, stop, es, mtu) == es
  {
    hide Packed;
    ResponseFits(ReadByGroup, stop, es, mtu);
    var k := |Taken(ReadByGroup, stop, es, mtu)|;
    assert EntryFor(ReadByGroup, es[k - 1]);
    if k == |es| {
      assert es[k..] == [];
      NothingIsClean(stop, mtu);
    }
  }

  /**
   * The same on the air: a client that goes on behind the end of the last group loses a service unless one
   * packet carries all.
   */
  lemma ConstructorLosesIff(s: Server, c: Client, a: Ask, start: u16, end: u16, token: nat)
    requires Inv(c) && c.current.None? && Settled(a) && a.proc == ReadByGroup
    requires Delivers(s, Rule(c, BehindHandle), a, start, end, token)
    requires var hits := Matching(s.table, s.reading.bound, Fields(start, end, Understood(a)));
             hits != [] && Abutting(hits)
    ensures var hits := Matching(s.table, s.reading.bound, Fields(start, end, Understood(a)));
            Delivers(s, Rule(c, BehindEnd), a, start, end, token) <==>
            Taken(ReadByGroup, s.reading.stop, hits, s.mtu) == hits
  {
    hide Delivers, Understood, Inv, CleanBoundaries, Hits, Abutting, Taken, ChunkGood;
    var hits := Matching(s.table, s.reading.bound, Fields(start, end, Understood(a)));
    RulesAgreeIff(s, c, a, start, end, token);
    IdleUnderAnyRule(c, BehindHandle);
    DeliversIff(s, Rule(c, BehindHandle), a, start, end, token);
    ChunkCarries(ReadByGroup, s.reading.stop, hits, s.mtu);
    AbuttingIff(s.reading.stop, hits, s.mtu);
  }

  /** In a run of laid-out characteristics, position and handle go together. */
  lemma {:induction false} FlatHandle(s: Service, first: nat, n: nat, k: nat)
    requires s.Placed(first) && n <= |s.characteristics| && k < Span(s.characteristics[..n])
    ensures var a := Flat(s.characteristics[..n])[k]; a in s.body && a.handle == first + k
  {
    var c, before := s.characteristics[n - 1], Flat(s.characteristics[..n - 1]);
    assert s.characteristics[..n][..n - 1] == s.characteristics[..n - 1];
    assert Flat(s.characteristics[..n]) == before + c.attributes;
    if k < |before| {
      FlatHandle(s, first, n - 1, k);
    } else {
      assert c.LaidOut(first + |before|) && c.parts <= s.body;
      assert c.attributes[k - |before|] in c.attributes;
    }
  }

  /** Every handle of a laid-out service is held by one of its attributes. */
  lemma HandleIsHeld(s: Service, handle: nat, x: nat) returns (a: Attribute)
    requires s.LaidOut(handle) && handle <= x <= s.endHandle
    ensures a.handle == x && (a == s.declaration || a in s.body)
  {
    if x == handle {
      a := s.declaration;
    } else {
      var n := |s.characteristics|;
      assert s.characteristics[..n] == s.characteristics;
      FlatHandle(s, handle + 1, n, x - handle - 1);
      a := Flat(s.characteristics)[x - handle - 1];
    }
  }

  /** Two services that share no attribute, and whose attributes are registered. */
  ghost predicate SharesNothing(server: AttributeServer, s: Service, t: Service)
    reads server`known
  {
    && s.declaration != t.declaration && s.declaration !in t.body && t.declaration !in s.body && s.body !! t.body
    && s.declaration in server.known && t.declaration in server.known
    && s.body <= server.known && t.body <= server.known
  }

  lemma SameHandleSameAttribute(server: AttributeServer, a: Attribute, b: Attribute)
    requires server.Agrees() && a in server.known && b in server.known && a.handle == b.handle != 0
    ensures a == b
  {
    assert server.handles[a.handle] == a;
  }

  lemma NotInside(server: AttributeServer, s: Service, t: Service)
    requires server.Agrees() && SharesNothing(server, s, t)
    requires s.LaidOut(s.declaration.handle) && t.declaration.handle != 0
    ensures !(s.declaration.handle <= t.declaration.handle <= s.endHandle)
  {
    var x := t.declaration.handle;
    if s.declaration.handle <= x <= s.endHandle {
      var a := HandleIsHeld(s, s.declaration.handle, x);
      SameHandleSameAttribute(server, a, t.declaration);
    }
  }

  /** Laid-out services occupy disjoint ranges, wherever they are, because no two attributes share a handle. */
  lemma ServicesAreDisjoint(server: AttributeServer, s: Service, t: Service)
    requires server.Agrees() && SharesNothing(server, s, t)
    requires s.LaidOut(s.declaration.handle) && t.LaidOut(t.declaration.handle)
    requires s.declaration.handle != 0 && t.declaration.handle != 0
    ensures s.endHandle < t.declaration.handle || t.endHandle < s.declaration.handle
  {
    NotInside(server, s, t);
    NotInside(server, t, s);
  }

  const PRIMARY := Ask(ReadByGroup, Some(U16(0x2800)), None)

  predicate IsService(t: Table, h: nat) {
    h in t && t[h].kind == PRIMARY_SERVICE
  }

  /** The server's primary services are just these, each laid out and registered, no two sharing anything. */
  ghost predicate Hosts(server: AttributeServer, services: seq<Service>)
    requires server.Valid()
    reads *
  {
    && (forall s :: s in services ==>
          && s.LaidOut(s.declaration.handle) && s.declaration.handle != 0 && s.declaration in server.known
          && s.declaration.kind == PRIMARY_SERVICE && |s.declaration.value| in {2, 16})
    && (forall s, t :: s in services && t in services && s != t ==> SharesNothing(server, s, t))
    && (forall h: u16 :: IsService(server.table, h) ==> exists s :: s in services && server.handles[h] == s.declaration)
  }

  /** The group that a service makes. */
  ghost function GroupOf(s: Service): Entry
    reads s, s.declaration
  {
    Group(s.declaration.handle, s.endHandle, s.declaration.value)
  }

  /** A hit of the table stands for the service declared there. */
  lemma HitIsGroup(server: AttributeServer, services: seq<Service>, h: u16) returns (s: Service)
    requires server.Valid() && Hosts(server, services) && IsService(server.table, h)
    ensures s in services && s.declaration == server.handles[h] && s.declaration.handle == h <= s.endHandle
    ensures EntryOf(ReadByGroup, h, server.table[h]) == GroupOf(s)
    ensures |s.declaration.value| in {2, 16}
  {
    s :| s in services && server.handles[h] == s.declaration;
    assert server.table[h] == s.declaration.Snapshot();
  }

  lemma ServiceIsHit(server: AttributeServer, services: seq<Service>, s: Service)
    requires server.Valid() && Hosts(server, services) && s in services
    ensures var h := s.declaration.handle;
            IsService(server.table, h) && EntryOf(ReadByGroup, h, server.table[h]) == GroupOf(s)
  {
    assert server.handles[s.declaration.handle] == s.declaration;
  }

  /** The groups that a search for primary services finds are those of the services, none inside another. */
  lemma HostedGroups(server: AttributeServer, services: seq<Service>, lo: nat, hi: nat)
    requires server.Valid() && Hosts(server, services) && hi <= 0x1_0000
    ensures var list := Hits(server.table, Understood(PRIMARY), lo, hi);
            && AllFor(ReadByGroup, list) && Ascending(list) && Separated(list) && Services(list)
            && (forall s :: s in services && lo <= s.declaration.handle < hi ==> GroupOf(s) in list)
            && (forall e :: e in list ==>
                  exists s :: s in services && lo <= s.declaration.handle < hi && e == GroupOf(s))
  {
    hide Hosts, EntryOf, AttributeServer.Valid;
    var q, t := Understood(PRIMARY), server.table;
    PrimaryQuery();
    var list := Hits(t, q, lo, hi);
    HitsAreTheFilter(t, q, lo, hi);
    forall s | s in services && lo <= s.declaration.handle < hi
      ensures GroupOf(s) in list
    {
      ServiceIsHit(server, services, s);
      assert IsHit(t, q, lo, hi, GroupOf(s));
    }
    forall i | 0 <= i < |list|
      ensures list[i].Group? && (|list[i].value| == 2 || |list[i].value| == 16)
      ensures exists s :: s in services && lo <= s.declaration.handle < hi && list[i] == GroupOf(s)
      ensures list[i].handle <= list[i].end && (i + 1 < |list| ==> list[i].end < list[i + 1].handle)
    {
      assert list[i] in list;
      var s := HitIsGroup(server, services, list[i].handle);
      if i + 1 < |list| {
        assert list[i + 1] in list;
        var u := HitIsGroup(server, services, list[i + 1].handle);
        HostedApart(server, services, s, u);
      }
    }
  }

  lemma PrimaryQuery()
    ensures Understood(PRIMARY) == Query(ReadByGroup, OneType(PRIMARY_SERVICE), None)
  {
    assert Put16(0x2800) + [] == Put16(0x2800);
  }

  lemma HostedApart(server: AttributeServer, services: seq<Service>, s: Service, u: Service)
    requires server.Valid() && Hosts(server, services) && s in services && u in services
    requires s.declaration.handle < u.declaration.handle
    ensures s.endHandle < u.declaration.handle
  {
    NotInside(server, s, u);
  }

  /**
   * Service discovery end to end: a server whose primary services were laid out by setHandle answers a client with
   * the start, end and UUID of each of them in the range, in order, whichever way the client goes on. The server has
   * the same-size stop, or an MTU below 28 without it.
   */
  lemma ServicesDiscovered(server: AttributeServer, services: seq<Service>, c: Client, start: u16, end: u16, token: nat)
    requires server.Valid() && Hosts(server, services) && Inv(c) && c.current.None?
    requires server.reading.stop == SameSize || server.mtuSize < 28
    ensures Delivers(server.State(), c, PRIMARY, start, end, token)
    ensures var lim := Limit(server.reading.bound, end);
            var list := Matching(server.table, server.reading.bound, Fields(start, end, Understood(PRIMARY)));
            && Ascending(list)
            && (forall s :: s in services && start <= s.declaration.handle < lim ==> GroupOf(s) in list)
            && (forall e :: e in list ==>
                  exists s :: s in services && start <= s.declaration.handle < lim && e == GroupOf(s))
  {
    hide Hosts, Delivers, Hits, AttributeServer.Valid, Inv, Understood, GroupOf;
    var s, f := server.State(), Fields(start, end, Understood(PRIMARY));
    var list := Matching(s.table, s.reading.bound, f);
    HostedGroups(server, services, start, Limit(s.reading.bound, end));
    ServicesAcross(list, s.reading.stop, c.resume, s.mtu);
    DeliversIff(s, c, PRIMARY, start, end, token);
  }

  lemma ServicesAcross(list: seq<Entry>, stop: GroupStop, rule: Resume, mtu: Mtu)
    requires AllFor(ReadByGroup, list) && Services(list) && Ascending(list) && (rule == BehindEnd ==> Separated(list))
    requires stop == SameSize || mtu < 28
    ensures Chunked(ReadByGroup, stop, rule, list, mtu)
  {
    hide Chunked;
    if stop == SameSize {
      SmallServicesSendable(list, mtu);
      SendableIsChunked(ReadByGroup, stop, rule, list, mtu);
    } else {
      ServicesAreApart(list, mtu);
      ApartIsChunked(rule, list, mtu);
    }
  }

  lemma SmallServicesSendable(list: seq<Entry>, mtu: Mtu)
    requires Services(list)
    ensures Sendable(list, mtu, SameSize)
  {
    hide EntryBytes;
    forall i | 0 <= i < |list|
      ensures Size(list[i]) == |list[i].value| + 4
    {
      ValueSize(list[i]);
    }
  }
}
