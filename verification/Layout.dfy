/** Handle layout: the setHandle loops of lib/characteristic.js and lib/service.js over the registry. */
module Layout {
  import opened Bytes
  import opened AttTypes
  import opened Search
  import opened AttServer

  /** No handle of the range is in use. */
  ghost predicate Free(server: AttributeServer, handle: nat, count: nat)
    reads server`handles
  {
    forall h: u16 :: handle <= h < handle + count ==> h !in server.handles
  }

  /** Handles only leave the index, or enter it within the range. */
  twostate predicate OnlyAdds(server: AttributeServer, handle: nat, count: nat)
    reads server`handles
  {
    forall h: u16 :: h in server.handles && h !in old(server.handles) ==> handle <= h < handle + count
  }

  ghost predicate Distinct(attribs: seq<Attribute>) {
    forall i, j :: 0 <= i < j < |attribs| ==> attribs[i] != attribs[j]
  }

  /** The loop of Characteristic.setHandle. */
  method AssignHandles(server: AttributeServer, attribs: seq<Attribute>, handle: u16) returns (ok: bool)
    requires server.Valid() && Distinct(attribs) && (forall a :: a in attribs ==> a in server.known)
    requires handle != 0 && handle + |attribs| <= 0x1_0000
    modifies attribs`handle, server`handles, server`table, server`emitters
    ensures server.Valid()
    ensures old(Free(server, handle, |attribs|)) ==> ok
    ensures ok ==> (forall i :: 0 <= i < |attribs| ==> attribs[i].handle == handle + i)
    ensures ok ==> OnlyAdds(server, handle, |attribs|)
    ensures ok && attribs != [] ==> handle !in old(server.handles)
  {
    hide AttributeServer.Valid;
    var i := 0;
    while i < |attribs|
      invariant 0 <= i <= |attribs| && server.Valid()
      invariant forall j :: 0 <= j < i ==> attribs[j].handle == handle + j
      invariant OnlyAdds(server, handle, i)
      invariant if i == 0 then server.handles == old(server.handles) else handle !in old(server.handles)
    {
      ok := server.SetHandle(attribs[i], handle + i);
      if !ok {
        return;
      }
      i := i + 1;
    }
    ok := true;
  }

  /** writeUInt16LE(handle, 1) into a declaration's value. */
  method WriteHandle(server: AttributeServer, declaration: Attribute, handle: u16)
    requires server.Valid() && declaration in server.known && |declaration.value| >= 3
    modifies declaration`value, declaration`endHandle, declaration`properties, server`table
    ensures server.Valid()
    ensures declaration.Snapshot() ==
            old(declaration.Snapshot()).(value := Overlay(old(declaration.value), 1, Put16(handle)))
    ensures |declaration.value| >= 3 && Get16(declaration.value, 1) == handle
  {
    var value := declaration.value;
    server.Patch(declaration, declaration.Snapshot().(value := Overlay(value, 1, Put16(handle))));
    Field16RoundTrip(value[..1], handle, value[3..], [0, 0], 0);
  }

  /** Two bytes written behind the first leave the first byte and what follows the third. */
  lemma OverlayLeaves(v: seq<byte>, bytes: seq<byte>)
    requires |v| >= 3 && |bytes| == 2
    ensures var w := Overlay(v, 1, bytes); w[..1] + w[3..] == v[..1] + v[3..]
  {
    var w := Overlay(v, 1, bytes);
    assert w[..1] == v[..1] && w[3..] == v[3..];
  }

  class Characteristic {
    /** The declaration, the value, the descriptors, filled by the constructor; parts is the same as a set. */
    const attributes: seq<Attribute>
    ghost const parts: set<Attribute>
    var endHandle: u16

    constructor (attributes: seq<Attribute>, endHandle: u16)
      ensures this.attributes == attributes && this.endHandle == endHandle
      ensures forall a :: a in parts <==> a in attributes
    {
      this.attributes, this.endHandle := attributes, endHandle;
      parts := set a | a in attributes;
    }

    ghost predicate Ready(server: AttributeServer)
      reads server`known, parts`value
    {
      && 2 <= |attributes| && Distinct(attributes)
      && (forall a :: a in attributes ==> a in parts)
      && (forall a :: a in parts ==> a in attributes && a in server.known)
      && |attributes[0].value| >= 3
    }

    /** What a new handle leaves alone: of the declaration all but its handle bytes and its end, of the rest all. */
    ghost function Essence(i: nat): Attr
      requires i < |attributes|
      reads attributes`kind, attributes`value, attributes`endHandle, attributes`properties
    {
      var s := attributes[i].Snapshot();
      if i == 0 && |s.value| >= 3 then s.(value := s.value[..1] + s.value[3..], end := 0) else s
    }

    /** A characteristic with these properties and this UUID, whatever its handles. */
    ghost predicate Describes(properties: byte, uuid: Uuid)
      reads attributes
    {
      attributes != [] && Essence(0) == Attr(CHARACTERISTIC, [properties] + UuidBytes(uuid), 0, PROP_READ)
    }

    /** Laid out: consecutive handles up to the end handle, and a declaration that names the value's handle. */
    ghost predicate LaidOut(handle: nat)
      reads this, parts
    {
      && 2 <= |attributes| && (forall a :: a in attributes ==> a in parts)
      && (forall i :: 0 <= i < |attributes| ==> attributes[i].handle == handle + i)
      && endHandle == attributes[0].endHandle == handle + |attributes| - 1
      && |attributes[0].value| >= 3 && Get16(attributes[0].value, 1) == attributes[1].handle
    }

    /** setHandle: into a free range it succeeds, and the characteristic is laid out from handle on. */
    method SetHandle(server: AttributeServer, handle: u16) returns (ok: bool)
      requires server.Valid() && Ready(server) && handle != 0 && handle + |attributes| <= 0x1_0000
      modifies `endHandle, parts`handle, parts`value, parts`endHandle, parts`properties
      modifies server`handles, server`table, server`emitters
      ensures server.Valid() && Ready(server)
      ensures old(Free(server, handle, |attributes|)) ==> ok
      ensures ok ==> LaidOut(handle) && OnlyAdds(server, handle, |attributes|) && handle !in old(server.handles)
      ensures attributes[0].Snapshot() ==
              old(attributes[0].Snapshot()).(value := Overlay(old(attributes[0].value), 1, Put16(handle + 1)),
                                             end := if ok then endHandle else old(attributes[0].endHandle))
      ensures forall i :: 0 <= i < |attributes| ==> Essence(i) == old(Essence(i))
    {
      hide AttributeServer.Valid;
      var declaration := attributes[0];
      OverlayLeaves(declaration.value, Put16(handle + 1));
      WriteHandle(server, declaration, handle + 1);
      ok := AssignHandles(server, attributes, handle);
      if ok {
        endHandle := handle + |attributes| - 1;
        server.Patch(declaration, declaration.Snapshot().(end := endHandle));
      }
    }
  }

  /** The value of a declaration: properties, the handle of the value attribute, the UUID; no handle reads as 0. */
  function DeclarationValue(properties: byte, valueHandle: u16, uuid: Uuid): (v: seq<byte>)
    ensures |v| == 5 || |v| == 19
    ensures v[0] == properties && Get16(v, 1) == valueHandle && v[3..] == UuidBytes(uuid)
  {
    var v := [properties] + Put16(valueHandle) + UuidBytes(uuid);
    Field16RoundTrip([properties], valueHandle, UuidBytes(uuid), [0, 0], 0);
    v
  }

  lemma DeclarationParts(properties: byte, valueHandle: u16, uuid: Uuid)
    ensures var v := DeclarationValue(properties, valueHandle, uuid); v[..1] + v[3..] == [properties] + UuidBytes(uuid)
  {
    hide UuidBytes;
    assert DeclarationValue(properties, valueHandle, uuid)[..1] == [properties];
  }

  /** handle && handle + n. */
  function Shift(handle: u16, n: nat): u16
    requires handle + n < 0x1_0000
  {
    if handle == 0 then 0 else handle + n
  }

  /** The declaration and the value of a new characteristic. */
  method CreatePair(server: AttributeServer, handle: u16, endHandle: u16, properties: byte, uuid: Uuid,
                    value: seq<byte>)
    returns (ok: bool, declaration: Attribute?, valAttr: Attribute?)
    requires server.Valid() && server.Listed() && handle < 0xFFFF
    modifies server`handles, server`attributes, server`known, server`table, server`emitters
    ensures server.Valid() && server.Listed() && old(server.known) <= server.known
    ensures ok <==> handle == 0 || (handle !in old(server.handles) && handle + 1 !in old(server.handles))
    ensures ok ==> declaration != null && valAttr != null && declaration != valAttr
    ensures ok ==> fresh(declaration) && fresh(valAttr)
    ensures ok ==> declaration in server.known && valAttr in server.known
    ensures ok ==> declaration.handle == handle && valAttr.handle == Shift(handle, 1)
    ensures ok ==> declaration.Snapshot() == Attr(CHARACTERISTIC, DeclarationValue(properties, Shift(handle, 1), uuid),
                                                  if endHandle != 0 then endHandle else handle, PROP_READ)
    ensures ok ==> valAttr.Snapshot() == Attr(uuid, value, Shift(handle, 1), properties)
    ensures ok ==> server.handles == if handle == 0 then old(server.handles)
                                     else old(server.handles)[handle := declaration][handle + 1 := valAttr]
  {
    hide AttributeServer.Valid;
    valAttr := null;
    ok, declaration := server.CreateAttribute(handle, CHARACTERISTIC,
                                              DeclarationValue(properties, Shift(handle, 1), uuid), endHandle);
    if ok {
      server.Patch(declaration, declaration.Snapshot().(props := PROP_READ));
      ok, valAttr := server.CreateAttribute(Shift(handle, 1), uuid, value, 0);
      if ok {
        server.Patch(valAttr, valAttr.Snapshot().(props := properties));
      }
    }
  }

  /** The descriptors of a new characteristic: handles behind the value's, readable. */
  method PlaceDescriptors(server: AttributeServer, descriptors: seq<Attribute>, handle: u16) returns (ok: bool)
    requires server.Valid() && Distinct(descriptors) && forall d :: d in descriptors ==> d in server.known
    requires handle + 2 + |descriptors| <= 0x1_0000 && (handle == 0 ==> forall d :: d in descriptors ==> d.handle == 0)
    modifies descriptors`handle, descriptors`value, descriptors`endHandle, descriptors`properties
    modifies server`handles, server`table, server`emitters
    ensures server.Valid()
    ensures handle == 0 || old(Free(server, handle + 2, |descriptors|)) ==> ok
    ensures descriptors == [] ==> server.handles == old(server.handles)
    ensures ok ==> forall j :: 0 <= j < |descriptors| ==>
              descriptors[j].handle == Shift(handle, 2 + j) &&
              descriptors[j].Snapshot() == old(descriptors[j].Snapshot()).(props := PROP_READ)
  {
    hide AttributeServer.Valid;
    var i := 0;
    while i < |descriptors|
      invariant 0 <= i <= |descriptors| && server.Valid()
      invariant handle == 0 ==> forall d :: d in descriptors ==> d.handle == 0
      invariant handle != 0 ==> OnlyAdds(server, handle + 2, i)
      invariant i == 0 ==> server.handles == old(server.handles)
      invariant forall j :: 0 <= j < i ==>
                  descriptors[j].handle == Shift(handle, 2 + j) &&
                  descriptors[j].Snapshot() == old(descriptors[j].Snapshot()).(props := PROP_READ)
      invariant forall j :: i <= j < |descriptors| ==> descriptors[j].Snapshot() == old(descriptors[j].Snapshot())
    {
      ok := server.SetHandle(descriptors[i], Shift(handle, 2 + i));
      if !ok {
        return;
      }
      server.Patch(descriptors[i], descriptors[i].Snapshot().(props := PROP_READ));
      i := i + 1;
    }
    ok := true;
  }

  /** A characteristic of two new attributes and listed descriptors is ready. */
  lemma Built(server: AttributeServer, c: Characteristic, declaration: Attribute, valAttr: Attribute,
              descriptors: seq<Attribute>, properties: byte, valueHandle: u16, uuid: Uuid)
    requires c.attributes == [declaration, valAttr] + descriptors && c.parts == set a | a in c.attributes
    requires Distinct(descriptors) && declaration != valAttr && declaration !in descriptors && valAttr !in descriptors
    requires declaration in server.known && valAttr in server.known
    requires forall d :: d in descriptors ==> d in server.known
    requires declaration.kind == CHARACTERISTIC && declaration.properties == PROP_READ
    requires declaration.value == DeclarationValue(properties, valueHandle, uuid)
    ensures c.Ready(server) && c.Describes(properties, uuid)
    ensures |c.attributes| == 2 + |descriptors| && c.attributes[2..] == descriptors
    ensures c.attributes[0] == declaration && c.attributes[1] == valAttr
  {
    DeclarationParts(properties, valueHandle, uuid);
    hide DeclarationValue;
  }

  /** With its handles and its end handle given, it is laid out. */
  lemma BuiltInPlace(c: Characteristic, handle: nat)
    requires 2 <= |c.attributes| && forall a :: a in c.attributes ==> a in c.parts
    requires c.attributes[0].handle == handle && c.attributes[1].handle == handle + 1
    requires forall j :: 0 <= j < |c.attributes| - 2 ==> c.attributes[2..][j].handle == handle + 2 + j
    requires c.endHandle == c.attributes[0].endHandle == handle + |c.attributes| - 1
    requires |c.attributes[0].value| >= 3 && Get16(c.attributes[0].value, 1) == handle + 1
    ensures c.LaidOut(handle)
  {
    forall i | 0 <= i < |c.attributes|
      ensures c.attributes[i].handle == handle + i
    {
      assert i >= 2 ==> c.attributes[i] == c.attributes[2..][i - 2];
    }
  }

  /** The descriptors, behind the two new attributes, make the characteristic. */
  method Assemble(server: AttributeServer, handle: u16, endHandle: u16, declaration: Attribute, valAttr: Attribute,
                  descriptors: seq<Attribute>, ghost properties: byte, ghost uuid: Uuid)
    returns (ok: bool, c: Characteristic?)
    requires server.Valid() && Distinct(descriptors) && forall d :: d in descriptors ==> d in server.known
    requires handle + 2 + |descriptors| <= 0x1_0000 && (handle == 0 ==> forall d :: d in descriptors ==> d.handle == 0)
    requires endHandle == if handle != 0 then handle + 1 + |descriptors| else 0
    requires declaration != valAttr && declaration !in descriptors && valAttr !in descriptors
    requires declaration in server.known && valAttr in server.known
    requires declaration.handle == handle && valAttr.handle == Shift(handle, 1)
    requires declaration.Snapshot() == Attr(CHARACTERISTIC, DeclarationValue(properties, Shift(handle, 1), uuid),
                                            if endHandle != 0 then endHandle else handle, PROP_READ)
    modifies descriptors`handle, descriptors`value, descriptors`endHandle, descriptors`properties
    modifies server`handles, server`table, server`emitters
    ensures server.Valid()
    ensures handle == 0 || old(Free(server, handle + 2, |descriptors|)) ==> ok
    ensures descriptors == [] ==> server.handles == old(server.handles)
    ensures ok ==> c != null && fresh(c) && c.Ready(server) && |c.attributes| == 2 + |descriptors|
    ensures ok ==> c.attributes[0] == declaration && c.attributes[1] == valAttr && c.attributes[2..] == descriptors
    ensures ok ==> c.Describes(properties, uuid) && (handle != 0 ==> c.LaidOut(handle))
  {
    hide AttributeServer.Valid, DeclarationValue;
    c := null;
    ok := PlaceDescriptors(server, descriptors, handle);
    if ok {
      var attributes: seq<Attribute> := [declaration, valAttr];
      c := new Characteristic(attributes + descriptors, endHandle);
      Built(server, c, declaration, valAttr, descriptors, properties, Shift(handle, 1), uuid);
      hide Characteristic.Ready, Characteristic.Describes, Characteristic.LaidOut, Distinct;
      if handle != 0 {
        BuiltInPlace(c, handle);
      }
    }
  }

  /** The constructor of a characteristic: with a handle, whose range is free, it is laid out from the start. */
  method CreateCharacteristic(server: AttributeServer, handle: u16, properties: byte, uuid: Uuid, value: seq<byte>,
                              descriptors: seq<Attribute>) returns (ok: bool, c: Characteristic?)
    requires server.Valid() && server.Listed() && Distinct(descriptors) &&
             forall d :: d in descriptors ==> d in server.known
    requires handle + 2 + |descriptors| <= 0x1_0000 && (handle == 0 ==> forall d :: d in descriptors ==> d.handle == 0)
    modifies descriptors`handle, descriptors`value, descriptors`endHandle, descriptors`properties
    modifies server`handles, server`attributes, server`known, server`table, server`emitters
    ensures server.Valid() && server.Listed()
    ensures properties != 0 && (handle == 0 || old(Free(server, handle, 2 + |descriptors|))) ==> ok
    ensures descriptors == [] ==>
              (ok <==> properties != 0 &&
                       (handle == 0 || (handle !in old(server.handles) && handle + 1 !in old(server.handles))))
    ensures descriptors == [] && ok ==>
              server.handles.Keys == old(server.handles.Keys) + if handle == 0 then {} else {handle, handle + 1}
    ensures ok ==> properties != 0 && c != null && fresh(c) && c.Ready(server) && |c.attributes| == 2 + |descriptors|
    ensures ok ==> c.attributes[0].value == DeclarationValue(properties, Shift(handle, 1), uuid)
    ensures ok ==> c.attributes[1].Snapshot() == Attr(uuid, value, Shift(handle, 1), properties)
    ensures ok ==> c.attributes[2..] == descriptors && c.attributes[0].handle == handle
    ensures ok ==> c.Describes(properties, uuid)
    ensures ok && handle != 0 ==> c.LaidOut(handle)
  {
    hide AttributeServer.Valid;
    c := null;
    if properties == 0 {
      return false, null;
    }
    var declaration: Attribute?, valAttr: Attribute?;
    var endHandle := if handle != 0 then handle + 1 + |descriptors| else 0;
    ok, declaration, valAttr := CreatePair(server, handle, endHandle, properties, uuid, value);
    if ok {
      ok, c := Assemble(server, handle, endHandle, declaration, valAttr, descriptors, properties, uuid);
    }
  }

  /** The number of attributes of a run of characteristics. */
  ghost function Span(cs: seq<Characteristic>): nat
  {
    if cs == [] then 0 else Span(cs[..|cs| - 1]) + |cs[|cs| - 1].attributes|
  }

  /** The attributes of a run of characteristics, one behind the other. */
  ghost function Flat(cs: seq<Characteristic>): (r: seq<Attribute>)
    ensures |r| == Span(cs)
  {
    if cs == [] then [] else Flat(cs[..|cs| - 1]) + cs[|cs| - 1].attributes
  }

  lemma SpanOfNone()
    ensures Span([]) == 0
  {
  }

  lemma SpanSnoc(cs: seq<Characteristic>, i: nat)
    requires i < |cs|
    ensures Span(cs[..i + 1]) == Span(cs[..i]) + |cs[i].attributes|
  {
    assert cs[..i + 1][..i] == cs[..i];
  }

  lemma {:induction false} SpanGrows(cs: seq<Characteristic>, i: nat, j: nat)
    requires i <= j <= |cs|
    ensures Span(cs[..i]) <= Span(cs[..j])
  {
    if i < j {
      SpanGrows(cs, i, j - 1);
      SpanSnoc(cs, j - 1);
    }
  }

  /** The attributes have the handles from first on, without a gap. */
  ghost predicate Consecutive(attribs: seq<Attribute>, first: nat)
    reads attribs`handle
  {
    forall k :: 0 <= k < |attribs| ==> attribs[k].handle == first + k
  }

  lemma JoinHandles(a: seq<Attribute>, b: seq<Attribute>, first: nat)
    requires Consecutive(a, first) && Consecutive(b, first + |a|)
    ensures Consecutive(a + b, first)
  {
  }

  /** The handle at which characteristic i starts, the first of them at first. */
  ghost function Start(cs: seq<Characteristic>, first: nat, i: nat): nat
    requires i <= |cs|
  {
    first + Span(cs[..i])
  }

  /** The characteristics are what they were, but for handles and ends. */
  twostate predicate Kept(cs: seq<Characteristic>)
    reads set c, i | c in cs && 0 <= i < |c.attributes| :: c.attributes[i]
  {
    forall c, i :: c in cs && 0 <= i < |c.attributes| ==> c.Essence(i) == old(c.Essence(i))
  }

  class Service {
    const declaration: Attribute
    const characteristics: seq<Characteristic>
    ghost const body: set<Attribute>
    var endHandle: u16

    constructor (declaration: Attribute, characteristics: seq<Characteristic>, endHandle: u16)
      ensures this.declaration == declaration && this.characteristics == characteristics && this.endHandle == endHandle
      ensures body == set c, a | c in characteristics && a in c.parts :: a
    {
      this.declaration, this.characteristics, this.endHandle := declaration, characteristics, endHandle;
      body := set c, a | c in characteristics && a in c.parts :: a;
    }

    /** The declaration and the characteristics share no attribute; body holds those of the characteristics. */
    ghost predicate Ready(server: AttributeServer)
      reads server`known, body`value
    {
      && declaration in server.known && declaration !in body && body <= server.known
      && (forall c :: c in characteristics ==> c.parts <= body && c.Ready(server))
      && (forall i, j :: 0 <= i < j < |characteristics| ==>
            characteristics[i] != characteristics[j] && characteristics[i].parts !! characteristics[j].parts)
    }

    /** The characteristics are laid out one behind the other. */
    ghost predicate Placed(first: nat)
      reads characteristics, body
    {
      forall i :: 0 <= i < |characteristics| ==>
        characteristics[i].parts <= body && characteristics[i].LaidOut(Start(characteristics, first, i))
    }

    /** Laid out: the declaration, then the characteristics, up to the end handle. */
    ghost predicate LaidOut(handle: nat)
      reads this, declaration, characteristics, body
    {
      declaration.handle == handle && Placed(handle + 1) &&
      endHandle == declaration.endHandle == handle + Span(characteristics)
    }

    /** One turn of the loop: the other characteristics stay as they are. */
    method PlaceOne(server: AttributeServer, i: nat, c: Characteristic, handle: u16) returns (ok: bool)
      requires server.Valid() && Ready(server) && i < |characteristics| && c == characteristics[i]
      requires handle != 0 && handle + |c.attributes| <= 0x1_0000
      modifies c`endHandle
      modifies c.parts`handle, c.parts`value, c.parts`endHandle, c.parts`properties
      modifies server`handles, server`table, server`emitters
      ensures server.Valid() && Ready(server)
      ensures old(Free(server, handle, |c.attributes|)) ==> ok
      ensures ok ==> c.endHandle == handle + |c.attributes| - 1 && c.LaidOut(handle)
      ensures ok ==> OnlyAdds(server, handle, |c.attributes|) && handle !in old(server.handles)
      ensures forall j, h: nat :: 0 <= j < |characteristics| && j != i && old(characteristics[j].LaidOut(h)) ==>
                characteristics[j].LaidOut(h)
      ensures Kept(characteristics)
    {
      hide AttributeServer.Valid;
      ok := c.SetHandle(server, handle);
      forall x | x in characteristics
        ensures x.Ready(server)
      {
      }
      forall j, h: nat | 0 <= j < |characteristics| && j != i && old(characteristics[j].LaidOut(h))
        ensures characteristics[j].LaidOut(h)
      {
        assert c.parts !! characteristics[j].parts;
      }
    }

    /** The loop over the characteristics, shared by the constructor and setHandle. */
    method Place(server: AttributeServer, first: nat) returns (ok: bool, next: nat)
      requires server.Valid() && Ready(server) && first != 0 && first + Span(characteristics) <= 0x1_0000
      modifies characteristics`endHandle, body`handle, body`value, body`endHandle, body`properties
      modifies server`handles, server`table, server`emitters
      ensures server.Valid() && Ready(server)
      ensures old(Free(server, first, Span(characteristics))) ==> ok
      ensures ok ==> Placed(first) && next == first + Span(characteristics)
      ensures ok ==> OnlyAdds(server, first, Span(characteristics))
      ensures ok && characteristics != [] ==> first !in old(server.handles)
      ensures Kept(characteristics)
    {
      hide AttributeServer.Valid, Characteristic.LaidOut, Characteristic.Ready, Ready, Placed, Span;
      assert characteristics[..0] == [];
      SpanOfNone();
      var i := 0;
      next := first;
      ghost var free := Free(server, first, Span(characteristics));
      while i < |characteristics|
        invariant 0 <= i <= |characteristics| && server.Valid() && Ready(server)
        invariant next == Start(characteristics, first, i)
        invariant forall j :: 0 <= j < i ==> characteristics[j].LaidOut(Start(characteristics, first, j))
        invariant OnlyAdds(server, first, next - first) && Kept(characteristics)
        invariant if i == 0 then server.handles == old(server.handles) else first !in old(server.handles)
      {
        Room(server, i);
        assert free ==> Free(server, next, |characteristics[i].attributes|);
        ok := PlaceOne(server, i, characteristics[i], next);
        if !ok {
          return;
        }
        next := characteristics[i].endHandle + 1;
        i := i + 1;
      }
      assert characteristics[..i] == characteristics;
      AllPlaced(server, first);
      ok := true;
    }

    lemma AllPlaced(server: AttributeServer, first: nat)
      requires Ready(server)
      requires forall j :: 0 <= j < |characteristics| ==> characteristics[j].LaidOut(Start(characteristics, first, j))
      ensures Placed(first)
    {
    }

    lemma Room(server: AttributeServer, i: nat)
      requires Ready(server) && i < |characteristics|
      ensures 2 <= |characteristics[i].attributes| && characteristics[i].parts <= body
      ensures Span(characteristics[..i]) + |characteristics[i].attributes| == Span(characteristics[..i + 1])
      ensures Span(characteristics[..i + 1]) <= Span(characteristics)
    {
      SpanSnoc(characteristics, i);
      SpanGrows(characteristics, i + 1, |characteristics|);
      assert characteristics[..|characteristics|] == characteristics;
      assert characteristics[i].Ready(server);
    }

    /** The loop, and the end handle that follows from it: the last one of the service, or one more. */
    method PlaceAndEnd(server: AttributeServer, first: nat, excess: nat) returns (ok: bool)
      requires server.Valid() && Ready(server) && first != 0 && excess <= 1
      requires first + Span(characteristics) + excess <= 0x1_0000
      modifies `endHandle, characteristics`endHandle, body`handle, body`value, body`endHandle, body`properties
      modifies declaration`value, declaration`endHandle, declaration`properties
      modifies server`handles, server`table, server`emitters
      ensures server.Valid() && Ready(server) && Kept(characteristics)
      ensures old(Free(server, first, Span(characteristics))) ==> ok
      ensures ok ==> Placed(first) && OnlyAdds(server, first, Span(characteristics))
      ensures ok && characteristics != [] ==> first !in old(server.handles)
      ensures ok ==> endHandle == first + Span(characteristics) - 1 + excess
      ensures declaration.Snapshot() ==
              old(declaration.Snapshot()).(end := if ok then endHandle else old(declaration.endHandle))
    {
      hide AttributeServer.Valid, Placed, Span, Ready;
      ReadyApart(server, this);
      var next: nat;
      ok, next := Place(server, first);
      if ok {
        endHandle := next - 1 + excess;
        server.Patch(declaration, declaration.Snapshot().(end := endHandle));
        forall c, i | c in characteristics && 0 <= i < |c.attributes|
          ensures c.Essence(i) == old(c.Essence(i))
        {
          BodyPart(server, c, i);
        }
      }
    }

    /** setHandle: into a free range it succeeds, and the service is laid out from handle on. */
    method SetHandle(server: AttributeServer, handle: u16) returns (ok: bool)
      requires server.Valid() && Ready(server) && handle != 0 && handle + Span(characteristics) < 0x1_0000
      modifies `endHandle, characteristics`endHandle, body`handle, body`value, body`endHandle, body`properties
      modifies declaration`handle, declaration`value, declaration`endHandle, declaration`properties
      modifies server`handles, server`table, server`emitters
      ensures server.Valid() && Ready(server) && Kept(characteristics)
      ensures old(Free(server, handle, 1 + Span(characteristics))) ==> ok
      ensures ok ==> LaidOut(handle) && OnlyAdds(server, handle, 1 + Span(characteristics))
      ensures ok ==> handle !in old(server.handles)
      ensures declaration.Snapshot() ==
              old(declaration.Snapshot()).(end := if ok then endHandle else old(declaration.endHandle))
    {
      hide AttributeServer.Valid, Placed, Span, Ready;
      ReadyApart(server, this);
      ok := server.SetHandle(declaration, handle);
      if ok {
        ok := PlaceAndEnd(server, handle + 1, 0);
      }
      forall c, i | c in characteristics && 0 <= i < |c.attributes|
        ensures c.Essence(i) == old(c.Essence(i))
      {
        BodyPart(server, c, i);
      }
    }

    lemma BodyPart(server: AttributeServer, c: Characteristic, i: nat)
      requires Ready(server) && c in characteristics && i < |c.attributes|
      ensures forall a :: a in c.attributes ==> a in body && a != declaration
    {
      assert c.Ready(server);
    }

    lemma PartHandles(first: nat, i: nat)
      requires Placed(first) && i < |characteristics|
      ensures Consecutive(characteristics[i].attributes, first + |Flat(characteristics[..i])|)
    {
      assert characteristics[i].LaidOut(Start(characteristics, first, i));
    }

    /** Placed characteristics, joined, have consecutive handles. */
    lemma {:induction false} PlacedHandles(first: nat, n: nat)
      requires Placed(first) && n <= |characteristics|
      ensures Consecutive(Flat(characteristics[..n]), first)
    {
      if n > 0 {
        PlacedHandles(first, n - 1);
        PartHandles(first, n - 1);
        hide Placed, Consecutive;
        assert characteristics[..n][..n - 1] == characteristics[..n - 1];
        JoinHandles(Flat(characteristics[..n - 1]), characteristics[n - 1].attributes, first);
      }
    }

    /**
     * getAttributes: all the attributes in order; once laid out, they have the handles up to endHandle without a
     * gap.
     */
    method GetAttributes(ghost handle: nat) returns (ret: seq<Attribute>)
      ensures ret == [declaration] + Flat(characteristics)
      ensures LaidOut(handle) ==> endHandle == handle + |ret| - 1
      ensures LaidOut(handle) ==> forall k :: 0 <= k < |ret| ==> ret[k].handle == handle + k
    {
      ret := [declaration];
      var i := 0;
      while i < |characteristics|
        invariant 0 <= i <= |characteristics| && ret == [declaration] + Flat(characteristics[..i])
      {
        assert characteristics[..i + 1][..i] == characteristics[..i];
        ret := ret + characteristics[i].attributes;
        i := i + 1;
      }
      assert characteristics[..i] == characteristics;
      if LaidOut(handle) {
        PlacedHandles(handle + 1, i);
      }
    }
  }

  /** The characteristics can be a service's: each is ready, and no two share an attribute. */
  ghost predicate Apart(server: AttributeServer, characteristics: seq<Characteristic>, body: set<Attribute>)
    reads server`known, characteristics, body
  {
    && (forall c :: c in characteristics ==> c.parts <= body && c.Ready(server))
    && (forall i, j :: 0 <= i < j < |characteristics| ==>
          characteristics[i] != characteristics[j] && characteristics[i].parts !! characteristics[j].parts)
  }

  /** A service whose characteristics have not been placed yet. */
  method NewService(server: AttributeServer, handle: u16, uuid: Uuid, characteristics: seq<Characteristic>,
                    ghost body: set<Attribute>) returns (ok: bool, s: Service?)
    requires server.Valid() && server.Listed() && Apart(server, characteristics, body)
    modifies server`handles, server`attributes, server`known, server`table, server`emitters
    ensures server.Valid() && server.Listed()
    ensures ok <==> handle == 0 || handle !in old(server.handles)
    ensures ok ==> s != null && fresh(s) && fresh(s.declaration) && s.Ready(server)
    ensures ok ==> server.known == old(server.known) + {s.declaration}
    ensures ok ==> server.handles == if handle == 0 then old(server.handles)
                                     else old(server.handles)[handle := s.declaration]
    ensures ok ==> s.characteristics == characteristics && s.body <= body
    ensures ok ==> s.declaration.handle == handle
    ensures ok ==> s.declaration.Snapshot() == Attr(PRIMARY_SERVICE, UuidBytes(uuid), handle, 0)
  {
    hide AttributeServer.Valid;
    s := null;
    var declaration: Attribute?;
    ok, declaration := server.CreateAttribute(handle, PRIMARY_SERVICE, UuidBytes(uuid), 0);
    if ok {
      forall c | c in characteristics
        ensures c.Ready(server) && declaration !in c.parts
      {
        assert old(c.Ready(server));
      }
      s := new Service(declaration, characteristics, 0);
    }
  }

  lemma ReadyApart(server: AttributeServer, s: Service)
    requires s.Ready(server)
    ensures s.declaration !in s.body && s.declaration in server.known && s.body <= server.known
  {
  }

  /**
   * The constructor of a service. It places the characteristics as setHandle does, but leaves the end handle
   * one too high (lib/service.js:21): it names the first handle that is not the service's. A handle in use is
   * refused even to the characteristic that holds it, so characteristics made for the handles they are to have here
   * (lib/gatt.js:52-53) make it throw.
   */
  method CreateService(server: AttributeServer, handle: u16, uuid: Uuid, characteristics: seq<Characteristic>,
                       ghost body: set<Attribute>) returns (ok: bool, s: Service?)
    requires server.Valid() && server.Listed() && handle + 1 + Span(characteristics) < 0x1_0000
    requires Apart(server, characteristics, body)
    modifies characteristics`endHandle, body`handle, body`value, body`endHandle, body`properties
    modifies server`handles, server`attributes, server`known, server`table, server`emitters
    ensures server.Valid() && server.Listed() && Kept(characteristics)
    ensures old(Free(server, handle, 1 + Span(characteristics))) ==> ok
    ensures ok && characteristics != [] ==> handle + 1 !in old(server.handles)
    ensures ok ==> s != null && fresh(s) && s.characteristics == characteristics && fresh(s.declaration)
    ensures ok ==> s.Ready(server) && server.known == old(server.known) + {s.declaration}
    ensures ok ==> s.body <= body && OnlyAdds(server, handle, 1 + Span(characteristics))
    ensures ok ==> s.declaration.handle == handle && s.Placed(handle + 1)
    ensures ok ==> s.endHandle == handle + 1 + Span(characteristics) && !s.LaidOut(handle)
    ensures ok ==> s.declaration.Snapshot() == Attr(PRIMARY_SERVICE, UuidBytes(uuid), s.endHandle, 0)
  {
    hide AttributeServer.Valid, Service.Ready, Apart, Service.Placed, Span;
    ok, s := NewService(server, handle, uuid, characteristics, body);
    if ok {
      ghost var free := old(Free(server, handle, 1 + Span(characteristics)));
      assert free ==> Free(server, handle + 1, Span(characteristics));
      assert s.declaration !in s.body && s.declaration in server.known by { ReadyApart(server, s); }
      ok := s.PlaceAndEnd(server, handle + 1, 1);
    }
  }
}
