/** From services to what a client discovers: laying them out, or making them one behind the other. */
module Hosting {
  import opened Bytes
  import opened AttTypes
  import opened Search
  import opened ServerModel
  import opened ClientModel
  import opened ClientSafety
  import opened Conversation
  import opened Delivery
  import opened Requests
  import opened Responses
  import opened AttServer
  import opened Layout
  import opened Groups

  ghost function PartsOf(services: seq<Service>): set<Attribute> {
    (set i | 0 <= i < |services| :: services[i].declaration) +
    (set i, a | 0 <= i < |services| && a in services[i].body :: a)
  }

  /** The services are ready, and no two of them share anything. */
  ghost predicate Together(server: AttributeServer, services: seq<Service>)
    reads server`known, PartsOf(services)`value
  {
    && (forall i :: 0 <= i < |services| ==> services[i].Ready(server))
    && (forall i, j :: 0 <= i < j < |services| ==>
          services[i] != services[j] && SharesNothing(server, services[i], services[j]))
  }

  /** The primary services of the server are these, and each has a UUID for its value. */
  ghost predicate Owns(known: set<Attribute>, services: seq<Service>)
    reads known`kind, PartsOf(services)`kind, PartsOf(services)`value
  {
    && (forall i :: 0 <= i < |services| ==>
          services[i].declaration.kind == PRIMARY_SERVICE && |services[i].declaration.value| in {2, 16})
    && (forall a :: a in known && a.kind == PRIMARY_SERVICE ==>
          exists i :: 0 <= i < |services| && a == services[i].declaration)
  }

  /** Services that share nothing stay out of each other's way. */
  lemma PartsApart(server: AttributeServer, services: seq<Service>, i: nat, j: nat)
    requires Together(server, services) && i < |services| && j < |services| && i != j
    ensures var s, t := services[i], services[j];
            s != t && s.declaration != t.declaration && s.body !! t.body && s.declaration !in t.body &&
            t.declaration !in s.body &&
            forall k :: 0 <= k < |t.characteristics| ==> t.characteristics[k] !in s.characteristics
  {
    var s, t := services[i], services[j];
    assert if i < j then SharesNothing(server, s, t) else SharesNothing(server, t, s);
    assert s.Ready(server) && t.Ready(server);
    forall k | 0 <= k < |t.characteristics|
      ensures t.characteristics[k] !in s.characteristics
    {
      var c := t.characteristics[k];
      assert c.Ready(server) && c.attributes[0] in c.parts;
    }
  }

  /** setHandle of one of the services: the others stay as they are. */
  method LayOutOne(server: AttributeServer, services: seq<Service>, i: nat, s: Service, handle: u16) returns (ok: bool)
    requires server.Valid() && Together(server, services) && i < |services| && s == services[i]
    requires handle != 0 && handle + Span(s.characteristics) < 0x1_0000
    modifies s`endHandle, s.characteristics`endHandle
    modifies s.body`handle, s.body`value, s.body`endHandle, s.body`properties
    modifies s.declaration`handle, s.declaration`value, s.declaration`endHandle, s.declaration`properties
    modifies server`handles, server`table, server`emitters
    ensures server.Valid() && Together(server, services)
    ensures old(Free(server, handle, 1 + Span(s.characteristics))) ==> ok
    ensures ok ==> s.LaidOut(handle) && OnlyAdds(server, handle, 1 + Span(s.characteristics))
    ensures forall j, h: nat :: 0 <= j < |services| && j != i && old(services[j].LaidOut(h)) ==> services[j].LaidOut(h)
    ensures forall j :: 0 <= j < |services| ==> services[j].declaration.value == old(services[j].declaration.value)
    ensures old(Owns(server.known, services)) ==> Owns(server.known, services)
  {
    hide AttributeServer.Valid, Service.Ready, Span, Characteristic.LaidOut;
    ok := s.SetHandle(server, handle);
    forall j | 0 <= j < |services| && j != i
      ensures services[j].Ready(server)
      ensures services[j].declaration.value == old(services[j].declaration.value)
    {
      PartsApart(server, services, i, j);
    }
    forall j, h: nat | 0 <= j < |services| && j != i && old(services[j].LaidOut(h))
      ensures services[j].LaidOut(h)
    {
      PartsApart(server, services, i, j);
    }
  }

  /** What the services are made of. */
  ghost predicate Within(services: seq<Service>, chars: set<Characteristic>, parts: set<Attribute>) {
    && (forall i :: 0 <= i < |services| ==> services[i].declaration in parts && services[i].body <= parts)
    && (forall i, k :: 0 <= i < |services| && 0 <= k < |services[i].characteristics| ==>
          services[i].characteristics[k] in chars)
  }

  /** The handles that service i takes. */
  ghost predicate Takes(services: seq<Service>, handles: seq<u16>, i: nat, h: nat)
    requires i < |services| == |handles|
  {
    handles[i] <= h < handles[i] + 1 + Span(services[i].characteristics)
  }

  /** No handle that a service is to take is in use, or is to be taken by another. */
  ghost predicate RoomForAll(used: set<u16>, services: seq<Service>, handles: seq<u16>)
    requires |services| == |handles|
  {
    && (forall i, h: u16 :: 0 <= i < |services| && Takes(services, handles, i, h) ==> h !in used)
    && (forall i, j, h: u16 :: 0 <= i < j < |services| && Takes(services, handles, i, h) ==>
          !Takes(services, handles, j, h))
  }

  /** The handles that came into use are those of the first n services. */
  ghost predicate OnlyTaken(was: set<u16>, now: set<u16>, services: seq<Service>, handles: seq<u16>, n: nat)
    requires n <= |services| == |handles|
  {
    forall h :: h in now && h !in was ==> exists i :: 0 <= i < n && Takes(services, handles, i, h)
  }

  lemma RoomForNext(was: set<u16>, now: set<u16>, services: seq<Service>, handles: seq<u16>, n: nat)
    requires n < |services| == |handles| && OnlyTaken(was, now, services, handles, n)
    requires RoomForAll(was, services, handles)
    ensures forall h: u16 :: Takes(services, handles, n, h) ==> h !in now
  {
    hide Takes;
  }

  lemma OneMoreTaken(was: set<u16>, mid: set<u16>, now: set<u16>, services: seq<Service>, handles: seq<u16>, n: nat)
    requires n < |services| == |handles| && OnlyTaken(was, mid, services, handles, n)
    requires forall h :: h in now && h !in mid ==> Takes(services, handles, n, h)
    ensures OnlyTaken(was, now, services, handles, n + 1)
  {
    hide Takes;
  }

  /**
   * An application lays out its services, one setHandle after the other: where there is room for all, it succeeds,
   * and then they are what the server hosts, each from its handle on, with the UUID it was made with.
   */
  method LayOut(server: AttributeServer, services: seq<Service>, handles: seq<u16>,
                ghost chars: set<Characteristic>, ghost parts: set<Attribute>) returns (ok: bool)
    requires Within(services, chars, parts)
    requires server.Valid() && Together(server, services) && Owns(server.known, services) && |services| == |handles|
    requires forall i :: 0 <= i < |services| ==>
               handles[i] != 0 && handles[i] + Span(services[i].characteristics) < 0x1_0000
    modifies services`endHandle, chars`endHandle, parts`handle, parts`value, parts`endHandle, parts`properties
    modifies server`handles, server`table, server`emitters
    ensures server.Valid() && Together(server, services) && Owns(server.known, services)
    ensures RoomForAll(old(server.handles.Keys), services, handles) ==> ok
    ensures ok ==> Hosts(server, services)
    ensures ok ==> forall i :: 0 <= i < |services| ==> services[i].LaidOut(handles[i])
    ensures forall i :: 0 <= i < |services| ==> services[i].declaration.value == old(services[i].declaration.value)
  {
    hide AttributeServer.Valid, Service.LaidOut, Service.Ready, Span, Hosts, Together, Owns, OnlyTaken, RoomForAll;
    var i := 0;
    ghost var was := server.handles.Keys;
    NothingTaken(was, services, handles);
    while i < |services|
      invariant 0 <= i <= |services| && server.Valid() && Together(server, services) && Owns(server.known, services)
      invariant forall j :: 0 <= j < i ==> services[j].LaidOut(handles[j])
      invariant forall j :: 0 <= j < |services| ==> services[j].declaration.value == old(services[j].declaration.value)
      invariant OnlyTaken(was, server.handles.Keys, services, handles, i)
    {
      ghost var mid := server.handles.Keys;
      if RoomForAll(was, services, handles) {
        RoomForNext(was, mid, services, handles, i);
      }
      ok := LayOutOne(server, services, i, services[i], handles[i]);
      if !ok {
        return;
      }
      OneMoreTaken(was, mid, server.handles.Keys, services, handles, i);
      i := i + 1;
    }
    LaidOutHosts(server, services, handles);
    ok := true;
  }

  lemma NothingTaken(used: set<u16>, services: seq<Service>, handles: seq<u16>)
    requires |services| == |handles|
    ensures OnlyTaken(used, used, services, handles, 0)
  {
  }

  lemma LaidOutHosts(server: AttributeServer, services: seq<Service>, handles: seq<u16>)
    requires server.Valid() && Together(server, services) && Owns(server.known, services) && |services| == |handles|
    requires forall i :: 0 <= i < |services| ==> handles[i] != 0 && services[i].LaidOut(handles[i])
    ensures Hosts(server, services)
  {
    hide Service.Placed;
    forall s, t | s in services && t in services && s != t
      ensures SharesNothing(server, s, t)
    {
      var i, j :| 0 <= i < |services| && 0 <= j < |services| && s == services[i] && t == services[j];
      assert if i < j then SharesNothing(server, s, t) else SharesNothing(server, t, s);
    }
    forall h: u16 | IsService(server.table, h)
      ensures exists s :: s in services && server.handles[h] == s.declaration
    {
      assert server.table[h] == server.handles[h].Snapshot();
    }
    forall s | s in services
      ensures s.LaidOut(s.declaration.handle) && s.declaration.handle != 0 && s.declaration in server.known
    {
      assert s.Ready(server);
    }
  }

  // ---- Services that were only constructed ----

  /**
   * Services as the constructor leaves them, each at the handle that the one before it names as its end; nobody has
   * called setHandle on them.
   */
  ghost predicate Row(known: set<Attribute>, services: seq<Service>)
    reads known`kind, services`endHandle, PartsOf(services)
  {
    && Owns(known, services)
    && (forall i :: 0 <= i < |services| ==>
          var s := services[i];
          s.declaration in known && 0 != s.declaration.handle < s.endHandle == s.declaration.endHandle)
    && (forall i :: 0 <= i < |services| - 1 ==> services[i].endHandle == services[i + 1].declaration.handle)
  }

  /** The constructor, called for the handle behind the row, makes the row one service longer. */
  method Append(server: AttributeServer, services: seq<Service>, handle: u16, uuid: Uuid,
                characteristics: seq<Characteristic>, ghost body: set<Attribute>) returns (ok: bool, s: Service?)
    requires server.Valid() && server.Listed() && Row(server.known, services)
    requires handle != 0 && handle + 1 + Span(characteristics) < 0x1_0000
    requires services != [] ==> handle == services[|services| - 1].endHandle
    requires Apart(server, characteristics, body)
    requires forall i :: 0 <= i < |services| ==> services[i].declaration !in body
    modifies characteristics`endHandle, body`handle, body`value, body`endHandle, body`properties
    modifies server`handles, server`attributes, server`known, server`table, server`emitters
    ensures server.Valid() && server.Listed()
    ensures old(Free(server, handle, 1 + Span(characteristics))) ==> ok
    ensures ok ==> s != null && s.declaration.handle == handle && s.declaration.value == UuidBytes(uuid)
    ensures ok ==> Row(server.known, services + [s])
  {
    hide AttributeServer.Valid, Service.Ready, Apart, Service.Placed, Span;
    ok, s := CreateService(server, handle, uuid, characteristics, body);
    if ok {
      LongerRow(old(server.known), services, s);
    }
  }

  lemma LongerOwns(known: set<Attribute>, services: seq<Service>, s: Service)
    requires Owns(known, services) && s.declaration.kind == PRIMARY_SERVICE && |s.declaration.value| in {2, 16}
    ensures Owns(known + {s.declaration}, services + [s])
  {
    var longer := services + [s];
    forall a | a in known + {s.declaration} && a.kind == PRIMARY_SERVICE
      ensures exists i :: 0 <= i < |longer| && a == longer[i].declaration
    {
      if a == s.declaration {
        assert longer[|services|] == s;
      } else {
        var i :| 0 <= i < |services| && a == services[i].declaration;
        assert longer[i] == services[i];
      }
    }
  }

  lemma LongerRow(known: set<Attribute>, services: seq<Service>, s: Service)
    requires Row(known, services) && s.declaration.kind == PRIMARY_SERVICE && |s.declaration.value| in {2, 16}
    requires 0 != s.declaration.handle < s.endHandle == s.declaration.endHandle
    requires services != [] ==> s.declaration.handle == services[|services| - 1].endHandle
    ensures Row(known + {s.declaration}, services + [s])
  {
    LongerOwns(known, services, s);
    hide Owns;
    var longer := services + [s];
    forall i | 0 <= i < |longer| - 1
      ensures longer[i].endHandle == longer[i + 1].declaration.handle
    {
      if i + 1 < |services| {
        assert longer[i] == services[i] && longer[i + 1] == services[i + 1];
      } else {
        assert longer[i] == services[i] && longer[i + 1] == s;
      }
    }
  }

  lemma {:induction false} RowAscends(known: set<Attribute>, services: seq<Service>, i: nat, j: nat)
    requires Row(known, services) && i < j < |services|
    ensures services[i].endHandle <= services[j].declaration.handle
  {
    hide Owns;
    if i + 1 < j {
      RowAscends(known, services, i, j - 1);
    }
  }

  lemma RowHit(server: AttributeServer, services: seq<Service>, i: nat)
    requires server.Valid() && Row(server.known, services) && i < |services|
    ensures var h := services[i].declaration.handle;
            IsService(server.table, h) && EntryOf(ReadByGroup, h, server.table[h]) == GroupOf(services[i])
  {
    assert server.handles[services[i].declaration.handle] == services[i].declaration;
  }

  lemma HitInRow(server: AttributeServer, services: seq<Service>, h: u16) returns (i: nat)
    requires server.Valid() && Row(server.known, services) && IsService(server.table, h)
    ensures i < |services| && services[i].declaration.handle == h
    ensures EntryOf(ReadByGroup, h, server.table[h]) == GroupOf(services[i])
  {
    assert server.table[h] == server.handles[h].Snapshot();
    i :| 0 <= i < |services| && server.handles[h] == services[i].declaration;
  }

  /** The groups that a search finds in a row of constructed services touch: each ends where the next one starts. */
  lemma RowAbuts(server: AttributeServer, services: seq<Service>, lo: nat, hi: nat)
    requires server.Valid() && Row(server.known, services) && hi <= 0x1_0000
    ensures var list := Hits(server.table, Understood(PRIMARY), lo, hi);
            AllFor(ReadByGroup, list) && Ascending(list) && Services(list) && Abutting(list)
  {
    hide EntryOf, AttributeServer.Valid, Row;
    var q, t := Understood(PRIMARY), server.table;
    PrimaryQuery();
    var list := Hits(t, q, lo, hi);
    HitsAreTheFilter(t, q, lo, hi);
    forall k | 0 <= k < |list|
      ensures list[k].Group? && (|list[k].value| == 2 || |list[k].value| == 16) && list[k].handle <= list[k].end
      ensures k + 1 < |list| ==> list[k].end == list[k + 1].handle
    {
      assert list[k] in list;
      var i := HitInRow(server, services, list[k].handle);
      RowValue(server.known, services, i);
      if k + 1 < |list| {
        assert list[k + 1] in list;
        var j := HitInRow(server, services, list[k + 1].handle);
        NextInRow(server, services, i, j, lo, hi, k);
      }
    }
  }

  lemma RowValue(known: set<Attribute>, services: seq<Service>, i: nat)
    requires Row(known, services) && i < |services|
    ensures services[i].declaration.handle < services[i].endHandle && |services[i].declaration.value| in {2, 16}
  {
  }

  /** Neighbours in the list are neighbours in the row, for what lies between them in the row is in the list. */
  lemma NextInRow(server: AttributeServer, services: seq<Service>, i: nat, j: nat, lo: nat, hi: nat, k: nat)
    requires server.Valid() && Row(server.known, services) && i < |services| && j < |services| && hi <= 0x1_0000
    requires var list := Hits(server.table, Understood(PRIMARY), lo, hi);
             k + 1 < |list| && list[k].handle == services[i].declaration.handle &&
             list[k + 1].handle == services[j].declaration.handle
    ensures services[i].endHandle == services[j].declaration.handle
  {
    hide AttributeServer.Valid, EntryOf, Row;
    var q, t := Understood(PRIMARY), server.table;
    PrimaryQuery();
    var list := Hits(t, q, lo, hi);
    HitsAreTheFilter(t, q, lo, hi);
    RowValue(server.known, services, j);
    if j < i {
      RowAscends(server.known, services, j, i);
    } else if i < j {
      RowStep(server.known, services, i);
      if i + 1 < j {
        RowAscends(server.known, services, i + 1, j);
        RowValue(server.known, services, i);
        RowValue(server.known, services, i + 1);
        RowHit(server, services, i + 1);
        var e := GroupOf(services[i + 1]);
        assert list[k] in list && list[k + 1] in list;
        assert IsHit(t, q, lo, hi, e);
      }
    }
  }

  lemma RowStep(known: set<Attribute>, services: seq<Service>, i: nat)
    requires Row(known, services) && i + 1 < |services|
    ensures services[i].endHandle == services[i + 1].declaration.handle
  {
  }

  /**
   * What the constructor's end handle costs (lib/service.js:21). A client that goes on behind the last handle finds
   * every service of the row; one that goes on behind the end of the last group, as Part G has it, finds them if and
   * only if there are none in the range or one packet carries them all.
   */
  lemma ConstructedLosesIff(server: AttributeServer, services: seq<Service>, c: Client, start: u16, end: u16,
                            token: nat)
    requires server.Valid() && Row(server.known, services) && Inv(c) && c.current.None?
    requires server.reading.stop == SameSize || server.mtuSize < 28
    ensures Delivers(server.State(), Rule(c, BehindHandle), PRIMARY, start, end, token)
    ensures var s := server.State();
            var hits := Matching(s.table, s.reading.bound, Fields(start, end, Understood(PRIMARY)));
            AllFor(ReadByGroup, hits) &&
            (Delivers(s, Rule(c, BehindEnd), PRIMARY, start, end, token) <==>
             hits == [] || Taken(ReadByGroup, s.reading.stop, hits, s.mtu) == hits)
  {
    hide Row, Delivers, Hits, AttributeServer.Valid, Inv, Understood, Abutting, Taken;
    var s, f := server.State(), Fields(start, end, Understood(PRIMARY));
    var hits := Matching(s.table, s.reading.bound, f);
    RowAbuts(server, services, start, Limit(s.reading.bound, end));
    ServicesAcross(hits, s.reading.stop, BehindHandle, s.mtu);
    IdleUnderAnyRule(c, BehindHandle);
    IdleUnderAnyRule(c, BehindEnd);
    DeliversIff(s, Rule(c, BehindHandle), PRIMARY, start, end, token);
    if hits == [] {
      DeliversIff(s, Rule(c, BehindEnd), PRIMARY, start, end, token);
    } else {
      ConstructorLosesIff(s, c, PRIMARY, start, end, token);
    }
  }
}
