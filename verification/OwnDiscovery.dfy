/** Both halves of lib/service.js and lib/characteristic.js together: what discovery makes of a laid-out service. */
module OwnDiscovery {
  import opened Bytes
  import opened AttTypes
  import opened Responses
  import opened Search
  import opened ServerModel
  import opened ClientModel
  import opened ClientSafety
  import opened Conversation
  import opened Delivery
  import opened AttServer
  import opened Layout
  import opened Groups
  import opened Discovery
  import opened DiscoveryRuns
  import opened Requests

  /** The first attribute of each characteristic is a declaration, and no other attribute of the service is one. */
  ghost predicate Declares(s: Service)
    reads s.declaration, s.body
  {
    && s.declaration.kind != CHARACTERISTIC
    && forall i, k :: 0 <= i < |s.characteristics| && 0 <= k < |s.characteristics[i].attributes| ==>
         var a := s.characteristics[i].attributes[k];
         a in s.body && (a.kind == CHARACTERISTIC <==> k == 0)
  }

  /** A laid-out service that is registered with the server. */
  ghost predicate Stands(server: AttributeServer, s: Service)
    requires server.Valid()
    reads *
  {
    && s.LaidOut(s.declaration.handle) && s.declaration.handle != 0 && Declares(s)
    && s.declaration in server.known && s.body <= server.known
  }

  /** So it is what setHandle leaves of a ready service. */
  lemma SetHandleStands(server: AttributeServer, s: Service, handle: u16)
    requires server.Valid() && s.Ready(server) && s.LaidOut(handle) && handle != 0 && Declares(s)
    ensures Stands(server, s) && s.declaration.handle == handle
  {
  }

  ghost function DeclarationOf(c: Characteristic): Found
    reads c.attributes
  {
    if c.attributes == [] then Data(0, []) else Data(c.attributes[0].handle, c.attributes[0].value)
  }

  /** The declarations of the characteristics, in order. */
  ghost function Declared(cs: seq<Characteristic>): (r: seq<Found>)
    reads set c, k | c in cs && 0 <= k < |c.attributes| :: c.attributes[k]
    ensures |r| == |cs| && forall i :: 0 <= i < |cs| ==> r[i] == DeclarationOf(cs[i])
  {
    if cs == [] then [] else Declared(cs[..|cs| - 1]) + [DeclarationOf(cs[|cs| - 1])]
  }

  /** Laid out, its declaration has the value that discovery reads: properties, the value's handle, UUID. */
  lemma DescribedValue(c: Characteristic, h: u16, properties: byte, uuid: Uuid)
    requires c.LaidOut(h) && c.Describes(properties, uuid) && h < 0xFFFF
    ensures DeclarationOf(c) == Data(h, DeclarationValue(properties, h + 1, uuid))
  {
    var v, w := c.attributes[0].value, DeclarationValue(properties, h + 1, uuid);
    Field16RoundTrip([], 0, [], v, 1);
    Field16RoundTrip([], 0, [], w, 1);
    assert v[..1] + v[3..] == [properties] + UuidBytes(uuid);
    assert v[0] == (v[..1] + v[3..])[0] && v[3..] == (v[..1] + v[3..])[1..];
    assert v == v[..1] + v[1..3] + v[3..] && w == w[..1] + w[1..3] + w[3..];
  }

  /** In a run of characteristics each position belongs to one of them. */
  lemma {:induction false} FlatOwner(cs: seq<Characteristic>, n: nat, k: nat) returns (i: nat, j: nat)
    requires n <= |cs| && k < Span(cs[..n])
    ensures i < n && j < |cs[i].attributes| && Flat(cs[..n])[k] == cs[i].attributes[j]
  {
    var before := Flat(cs[..n - 1]);
    assert cs[..n][..n - 1] == cs[..n - 1];
    assert Flat(cs[..n]) == before + cs[n - 1].attributes;
    if k < |before| {
      i, j := FlatOwner(cs, n - 1, k);
    } else {
      i, j := n - 1, k - |before|;
    }
  }

  lemma NextStart(cs: seq<Characteristic>, first: nat, i: nat, j: nat)
    requires i < j <= |cs|
    ensures Start(cs, first, i) + |cs[i].attributes| <= Start(cs, first, j)
    ensures j == i + 1 ==> Start(cs, first, i) + |cs[i].attributes| == Start(cs, first, j)
  {
    SpanSnoc(cs, i);
    SpanGrows(cs, i + 1, j);
  }

  /** Each declaration is in the table, inside the service, and below the value next to it. */
  lemma DeclaredIsHit(server: AttributeServer, s: Service, i: nat)
    requires server.Valid() && Stands(server, s) && i < |s.characteristics|
    ensures var c, h := s.characteristics[i], DeclarationOf(s.characteristics[i]).handle;
            && s.declaration.handle < h == Start(s.characteristics, s.declaration.handle + 1, i)
            && c.endHandle == h + |c.attributes| - 1 && h < c.endHandle <= s.endHandle
            && h in server.table && server.table[h].kind == CHARACTERISTIC
            && DeclarationOf(c) == EntryOf(ReadByType, h, server.table[h])
  {
    var cs, c, n := s.characteristics, s.characteristics[i], |s.characteristics|;
    assert c.LaidOut(Start(cs, s.declaration.handle + 1, i));
    NextStart(cs, s.declaration.handle + 1, i, n);
    assert cs[..n] == cs;
    var a := c.attributes[0];
    assert server.handles[a.handle] == a;
    assert server.table[a.handle] == a.Snapshot();
  }

  /** Behind its declaration, every handle of a laid-out service is that of an attribute of a characteristic. */
  lemma Holder(server: AttributeServer, s: Service, x: u16) returns (i: nat, j: nat)
    requires server.Valid() && Stands(server, s) && s.declaration.handle < x <= s.endHandle && x in server.handles
    ensures i < |s.characteristics| && j < |s.characteristics[i].attributes|
    ensures server.handles[x] == s.characteristics[i].attributes[j]
  {
    hide Declares;
    var cs, n, k := s.characteristics, |s.characteristics|, x - s.declaration.handle - 1;
    assert cs[..n] == cs;
    FlatHandle(s, s.declaration.handle + 1, n, k);
    SameHandleSameAttribute(server, Flat(cs[..n])[k], server.handles[x]);
    i, j := FlatOwner(cs, n, k);
  }

  /** Whatever declaration the table has within the service is one of its characteristics'. */
  lemma HitIsDeclared(server: AttributeServer, s: Service, x: u16) returns (i: nat)
    requires server.Valid() && Stands(server, s) && s.declaration.handle <= x <= s.endHandle
    requires x in server.table && server.table[x].kind == CHARACTERISTIC
    ensures i < |s.characteristics| && DeclarationOf(s.characteristics[i]) == EntryOf(ReadByType, x, server.table[x])
  {
    NotTheService(server, s);
    assert server.table[x] == server.handles[x].Snapshot() && server.handles[x].handle == x;
    var j: nat;
    i, j := Holder(server, s, x);
    hide Service.LaidOut;
    assert Declares(s);
  }

  lemma NotTheService(server: AttributeServer, s: Service)
    requires server.Valid() && Stands(server, s)
    ensures var h := s.declaration.handle; h in server.table && server.table[h].kind != CHARACTERISTIC
  {
    assert server.handles[s.declaration.handle] == s.declaration;
    assert server.table[s.declaration.handle] == s.declaration.Snapshot();
  }

  /** Ascending lists with the same entries are the same list. */
  lemma {:induction false} AscendingUnique(a: seq<Entry>, b: seq<Entry>)
    requires Ascending(a) && Ascending(b) && forall e :: e in a <==> e in b
    ensures a == b
  {
    if a != [] {
      assert a[0] in b;
      assert b[0] in a;
      forall e
        ensures e in a[1..] <==> e in b[1..]
      {
        assert e in a[1..] <==> e in a && e.handle > a[0].handle;
        assert e in b[1..] <==> e in b && e.handle > b[0].handle;
      }
      AscendingUnique(a[1..], b[1..]);
    } else {
      FirstIsIn(b);
    }
  }

  lemma FirstIsIn(b: seq<Entry>)
    ensures b != [] ==> b[0] in b
  {
  }

  lemma DeclaredAscends(server: AttributeServer, s: Service)
    requires server.Valid() && Stands(server, s)
    ensures Ascending(Declared(s.characteristics))
  {
    hide Stands, AttributeServer.Valid, Start;
    var cs := s.characteristics;
    forall i, j | 0 <= i < j < |cs|
      ensures DeclarationOf(cs[i]).handle < DeclarationOf(cs[j]).handle
    {
      DeclaredIsHit(server, s, i);
      DeclaredIsHit(server, s, j);
      NextStart(cs, s.declaration.handle + 1, i, j);
    }
  }

  lemma DeclarationsQuery()
    ensures Understood(DECLARATIONS) == Query(ReadByType, OneType(CHARACTERISTIC), None)
  {
    Field16RoundTrip([], 0x2803, [], [0, 0], 0);
    assert [] + Put16(0x2803) + [] == Put16(0x2803) + [];
  }

  /** The declarations in the range of a laid-out service are those of its characteristics, each once and in order. */
  lemma OwnDeclarations(server: AttributeServer, s: Service)
    requires server.Valid() && Stands(server, s)
    ensures Declarations(server.State(), s.declaration.handle, s.endHandle) == Declared(s.characteristics)
  {
    hide Stands, AttributeServer.Valid, EntryOf, Start, DeclarationOf;
    var t, q, cs := server.table, Understood(DECLARATIONS), s.characteristics;
    var lo, hi := s.declaration.handle, Limit(server.reading.bound, s.endHandle);
    DeclarationsQuery();
    HitsAreTheFilter(t, q, lo, hi);
    DeclaredAscends(server, s);
    var hits, own := Hits(t, q, lo, hi), Declared(cs);
    forall e | e in own
      ensures e in hits
    {
      var i :| 0 <= i < |own| && own[i] == e;
      DeclaredIsHit(server, s, i);
      assert IsHit(t, q, lo, hi, e);
    }
    forall e | e in hits
      ensures e in own
    {
      var i := HitIsDeclared(server, s, e.handle);
      assert own[i] == e;
    }
    AscendingUnique(hits, own);
  }

  /** The end handles that processAttributes computes are the characteristics' own. */
  lemma OwnEnds(server: AttributeServer, s: Service, i: nat)
    requires server.Valid() && Stands(server, s) && i < |s.characteristics|
    ensures Ends(Declared(s.characteristics), s.endHandle)[i] == s.characteristics[i].endHandle
  {
    hide Stands, AttributeServer.Valid, EntryOf, DeclarationOf, Ends;
    var cs, first := s.characteristics, s.declaration.handle + 1;
    EndsAt(Declared(cs), s.endHandle, i);
    DeclaredIsHit(server, s, i);
    NextStart(cs, first, i, i + 1);
    if i + 1 < |cs| {
      DeclaredIsHit(server, s, i + 1);
    } else {
      assert cs[..|cs|] == cs;
      StandsTo(server, s);
    }
  }

  lemma StandsTo(server: AttributeServer, s: Service)
    requires server.Valid() && Stands(server, s)
    ensures s.endHandle == s.declaration.handle + Span(s.characteristics) && s.declaration.handle != 0
  {
  }

  /**
   * Layout and discovery are inverse: asked for the range of a laid-out service, the server's answers, collected by
   * getChars, are the declarations of its characteristics, and the end handles computed from them are the
   * characteristics' own, if and only if each declaration fits the MTU with six bytes to spare.
   */
  lemma OwnDiscoveryIff(server: AttributeServer, s: Service, c: Client)
    requires server.Valid() && Stands(server, s) && Inv(c) && c.current.None?
    ensures var y, h, e, own := server.State(), s.declaration.handle, s.endHandle, Declared(s.characteristics);
            && e < 0x1_0000 && h <= e
            && (Collect(h, e, Answers(y, c, h, e, e - h + 1), []) == Finished(own) <==>
                Sendable(own, server.mtuSize, SameSize))
            && (forall i :: 0 <= i < |own| ==> Ends(own, e)[i] == s.characteristics[i].endHandle)
  {
    hide Stands, AttributeServer.Valid, Answers, Declarations, Sendable, Ends, Declared, Collect, DeclarationOf;
    var y, h, e, own := server.State(), s.declaration.handle, s.endHandle, Declared(s.characteristics);
    StandsTo(server, s);
    OwnDeclarations(server, s);
    CollectsIff(y, c, h, e, e - h + 1, []);
    assert [] + own == own;
    forall i | 0 <= i < |own|
      ensures Ends(own, e)[i] == s.characteristics[i].endHandle
    {
      OwnEnds(server, s, i);
    }
  }

  /** e is a declaration of c that says its properties, the handle of its value, and its UUID. */
  ghost predicate Tells(e: Found, c: Characteristic, properties: byte, uuid: Uuid)
    reads c.attributes
  {
    && c.attributes != [] && c.attributes[0].handle < 0xFFFF
    && var h := c.attributes[0].handle; e == Data(h, DeclarationValue(properties, h + 1, uuid))
  }

  lemma DeclarationTells(server: AttributeServer, s: Service, i: nat, properties: byte, uuid: Uuid, mtu: Mtu)
    requires server.Valid() && Stands(server, s) && i < |s.characteristics|
    requires s.characteristics[i].Describes(properties, uuid)
    ensures var e := DeclarationOf(s.characteristics[i]);
            Tells(e, s.characteristics[i], properties, uuid) &&
            (|e.value| + 6 <= mtu && Size(e) < 0x100 <==> mtu >= 25 || uuid.Uuid16?)
  {
    var c := s.characteristics[i];
    assert c.LaidOut(Start(s.characteristics, s.declaration.handle + 1, i));
    var h := c.attributes[0].handle;
    assert c.attributes[1].handle == h + 1;
    DescribedValue(c, h, properties, uuid);
    ValueSize(DeclarationOf(c));
  }

  /**
   * The same in the terms of those who made the characteristics: each is discovered with its properties, its value's
   * handle, its UUID and its end handle, if and only if the MTU is at least 25 or all UUIDs have 16 bits.
   */
  lemma DescribedDiscoveryIff(server: AttributeServer, s: Service, c: Client, properties: seq<byte>, uuids: seq<Uuid>)
    requires server.Valid() && Stands(server, s) && Inv(c) && c.current.None?
    requires |properties| == |uuids| == |s.characteristics|
    requires forall i :: 0 <= i < |uuids| ==> s.characteristics[i].Describes(properties[i], uuids[i])
    ensures var y, h, e, own := server.State(), s.declaration.handle, s.endHandle, Declared(s.characteristics);
            && e < 0x1_0000 && h <= e
            && (forall i :: 0 <= i < |own| ==>
                  Tells(own[i], s.characteristics[i], properties[i], uuids[i]) &&
                  Ends(own, e)[i] == s.characteristics[i].endHandle)
            && (Collect(h, e, Answers(y, c, h, e, e - h + 1), []) == Finished(own) <==>
                server.mtuSize >= 25 || forall i :: 0 <= i < |uuids| ==> uuids[i].Uuid16?)
  {
    hide Stands, AttributeServer.Valid, Answers, Ends, Collect, DeclarationOf, Characteristic.Describes, Tells;
    OwnDiscoveryIff(server, s, c);
    var own, mtu := Declared(s.characteristics), server.mtuSize;
    forall i | 0 <= i < |own|
      ensures Tells(own[i], s.characteristics[i], properties[i], uuids[i])
      ensures |own[i].value| + 6 <= mtu && Size(own[i]) < 0x100 <==> mtu >= 25 || uuids[i].Uuid16?
    {
      DeclarationTells(server, s, i, properties[i], uuids[i], mtu);
    }
    SendableWhen(own, uuids, mtu);
  }

  lemma SendableWhen(own: seq<Found>, uuids: seq<Uuid>, mtu: Mtu)
    requires |own| == |uuids|
    requires forall i :: 0 <= i < |own| ==>
               (|own[i].value| + 6 <= mtu && Size(own[i]) < 0x100 <==> mtu >= 25 || uuids[i].Uuid16?)
    ensures Sendable(own, mtu, SameSize) <==> mtu >= 25 || forall i :: 0 <= i < |uuids| ==> uuids[i].Uuid16?
  {
    hide Size;
  }

  // ---- The characteristics that discovery creates ----

  /** Handles as discovery counts them. */
  ghost function Numbers(handles: set<u16>): (r: set<nat>)
    ensures forall h :: h in r <==> h < 0x1_0000 && h in handles
  {
    set h: nat | h in handles
  }

  /** The handles in use on the discovering side. */
  ghost function Used(local: AttributeServer): set<nat>
    reads local`handles
  {
    Numbers(local.handles.Keys)
  }

  lemma TakingIs(e: Found, handles: set<u16>)
    requires |e.value| >= 5
    ensures Creatable(e, Numbers(handles)) <==>
            Get16(e.value, 3) != 0 &&
            (e.handle == 0 || (e.handle < 0xFFFF && e.handle !in handles && e.handle + 1 !in handles))
    ensures e.handle < 0xFFFF ==>
              Numbers(handles + if e.handle == 0 then {} else {e.handle, e.handle + 1}) == Taking(e, Numbers(handles))
  {
  }

  /**
   * characteristic.create for a discovered declaration, with the attributes it makes: it throws for the number 0,
   * past the last handle, and when one of its two handles is in use; otherwise it takes them.
   */
  method CreateFound(local: AttributeServer, e: Found) returns (ok: bool, c: Characteristic?)
    requires local.Valid() && local.Listed() && |e.value| >= 5
    modifies local`handles, local`attributes, local`known, local`table, local`emitters
    ensures ok <==> Creatable(e, old(Used(local)))
    ensures ok ==> local.Valid() && local.Listed() && Used(local) == Taking(e, old(Used(local)))
    ensures ok ==> c != null && |c.attributes| == 2 && c.attributes[0].handle == e.handle
    ensures ok ==> c.attributes[1].kind == Uuid16(Get16(e.value, 3))
  {
    hide AttributeServer.Valid, AttributeServer.Listed, Creatable, Taking, Numbers, DeclarationValue, Get16;
    hide Characteristic.Ready, Characteristic.Describes, Characteristic.LaidOut, Free;
    var uuidVal := Get16(e.value, 3);
    TakingIs(e, local.handles.Keys);
    c := null;
    if uuidVal == 0 || e.handle == 0xFFFF {
      return false, null;
    }
    ok, c := CreateCharacteristic(local, e.handle, PROP_READ, Uuid16(uuidVal), [], []);
  }

  /** A discovered characteristic: the handle of its declaration and the number it was found with. */
  lemma ToldChar(e: Found, c: Characteristic, properties: byte, uuid: Uuid)
    requires Tells(e, c, properties, uuid)
    ensures ShortUuid(e) == Some(Get16(UuidBytes(uuid), 0))
    ensures CharOf(e) == Char(c.attributes[0].handle, Get16(UuidBytes(uuid), 0))
  {
    assert e.value[3] == e.value[3..][0] && e.value[4] == e.value[3..][1];
  }

  /** Declarations of laid-out characteristics are apart, so they clash only with what is in use already. */
  lemma OwnRoomIff(server: AttributeServer, s: Service, taken: set<nat>)
    requires server.Valid() && Stands(server, s)
    ensures Room(Declared(s.characteristics), taken) <==>
            forall i :: 0 <= i < |s.characteristics| ==> Creatable(DeclarationOf(s.characteristics[i]), taken)
  {
    hide Stands, AttributeServer.Valid, Creatable, DeclarationOf, Start;
    var cs, own := s.characteristics, Declared(s.characteristics);
    forall i, j | 0 <= i < j < |own|
      ensures !Clash(own[i], own[j])
    {
      DeclaredIsHit(server, s, i);
      DeclaredIsHit(server, s, j);
      NextStart(cs, s.declaration.handle + 1, i, j);
    }
    forall i | 0 <= i < |own|
      ensures own[i] == DeclarationOf(cs[i])
    {
    }
  }

  lemma {:induction false} AllPass(items: seq<Found>)
    ensures Passing(items, None) == items
  {
    if items != [] {
      AllPass(items[1..]);
    }
  }

  /** The number is not 0, and the two handles are free. */
  ghost predicate CanBeMade(c: Characteristic, uuid: Uuid, taken: set<nat>)
    reads c.attributes
  {
    && c.attributes != [] && Get16(UuidBytes(uuid), 0) != 0
    && var h := c.attributes[0].handle; h == 0 || (h !in taken && h + 1 !in taken)
  }

  /** With the handle of the declaration and the number of the UUID. */
  ghost predicate MadeOf(made: Char, c: Characteristic, uuid: Uuid)
    reads c.attributes
  {
    c.attributes != [] && made == Char(c.attributes[0].handle, Get16(UuidBytes(uuid), 0))
  }

  lemma MadeIffCreatable(e: Found, c: Characteristic, properties: byte, uuid: Uuid, taken: set<nat>)
    requires Tells(e, c, properties, uuid)
    ensures Creatable(e, taken) <==> CanBeMade(c, uuid, taken)
  {
    ToldChar(e, c, properties, uuid);
  }

  lemma SelectsOwn(own: seq<Found>, taken: set<nat>)
    requires Room(own, taken) <==> forall i :: 0 <= i < |own| ==> Creatable(own[i], taken)
    ensures var found := Select(own, None, taken);
            && (found.Some? <==> forall i :: 0 <= i < |own| ==> Creatable(own[i], taken))
            && (found.Some? ==> |found.value| == |own| && forall i :: 0 <= i < |own| ==> found.value[i] == CharOf(own[i]))
  {
    hide Select, Room;
    AllPass(own);
    SelectIff(own, None, taken);
    SelectYields(own, None, taken);
  }

  lemma DescribedChar(server: AttributeServer, s: Service, i: nat, properties: byte, uuid: Uuid, taken: set<nat>)
    requires server.Valid() && Stands(server, s) && i < |s.characteristics|
    requires s.characteristics[i].Describes(properties, uuid)
    ensures var e, c := DeclarationOf(s.characteristics[i]), s.characteristics[i];
            && MadeOf(CharOf(e), c, uuid)
            && (Creatable(e, taken) <==> CanBeMade(c, uuid, taken))
  {
    hide Stands, AttributeServer.Valid, Creatable, DeclarationOf, Characteristic.Describes, CanBeMade, CharOf;
    var c := s.characteristics[i];
    DeclarationTells(server, s, i, properties, uuid, 23);
    ToldChar(DeclarationOf(c), c, properties, uuid);
    MadeIffCreatable(DeclarationOf(c), c, properties, uuid, taken);
  }

  /**
   * What discovery makes of a laid-out service, with no filter: as many characteristics as it has, each with the
   * handle of its declaration and the number of its UUID, if and only if none of the numbers is 0 and none of the
   * handles is in use on the discovering side.
   */
  lemma DescribedCharsIff(server: AttributeServer, s: Service, properties: seq<byte>, uuids: seq<Uuid>, taken: set<nat>)
    requires server.Valid() && Stands(server, s) && |properties| == |uuids| == |s.characteristics|
    requires forall i :: 0 <= i < |uuids| ==> s.characteristics[i].Describes(properties[i], uuids[i])
    ensures var found := Select(Declared(s.characteristics), None, taken);
            && (found.Some? <==> forall i :: 0 <= i < |uuids| ==> CanBeMade(s.characteristics[i], uuids[i], taken))
            && (found.Some? ==> |found.value| == |uuids| && forall i :: 0 <= i < |uuids| ==>
                  MadeOf(found.value[i], s.characteristics[i], uuids[i]))
  {
    hide Stands, AttributeServer.Valid, Select, Creatable, DeclarationOf, Characteristic.Describes, Room, CanBeMade, CharOf,
      MadeOf;
    var cs, own := s.characteristics, Declared(s.characteristics);
    OwnRoomIff(server, s, taken);
    forall i | 0 <= i < |own|
      ensures own[i] == DeclarationOf(cs[i])
    {
    }
    SelectsOwn(own, taken);
    forall i | 0 <= i < |own|
      ensures MadeOf(CharOf(own[i]), cs[i], uuids[i])
      ensures Creatable(own[i], taken) <==> CanBeMade(cs[i], uuids[i], taken)
    {
      DescribedChar(server, s, i, properties[i], uuids[i], taken);
    }
  }
}
