/** The server of lib/att.js in its own form: attribute objects, the handle index, and the packet handlers. */
module AttServer {
  import opened Bytes
  import opened AttTypes
  import opened Packing
  import opened Search
  import opened Requests
  import opened Responses
  import opened ServerModel

  /** An attribute object; handle 0 stands for an unset handle. */
  class Attribute {
    var handle: u16
    var kind: Uuid
    var value: seq<byte>
    var endHandle: u16
    var properties: byte
    var emitter: Emitter

    constructor (kind: Uuid, value: seq<byte>, endHandle: u16)
      ensures handle == 0 && Snapshot() == Attr(kind, value, endHandle, 0) && emitter == SILENT
    {
      this.handle, this.kind, this.value, this.endHandle := 0, kind, value, endHandle;
      properties, emitter := 0, SILENT;
    }

    function Snapshot(): Attr
      reads `kind, `value, `endHandle, `properties
    {
      Attr(kind, value, endHandle, properties)
    }
  }

  /** An index entry moved from one handle to another. */
  function Moved<T>(m: map<u16, T>, from: u16, to: u16, x: T): (r: map<u16, T>)
    requires from != to
    ensures forall h :: h in r <==> h == to || (h in m && h != from)
    ensures forall h :: h in r ==> r[h] == if h == to then x else m[h]
  {
    (m - {from})[to := x]
  }

  /** The module state of lib/att.js together with the one central it serves. */
  class AttributeServer {
    var handles: map<u16, Attribute>
    var attributes: seq<Attribute>
    var mtuSize: Mtu
    var centralMtu: Mtu
    var waitingForConfirmation: bool
    var listenerCount: nat
    var written: seq<Pdu>
    const reading: Reading

    /** The attributes as a set and the index by value, kept up to date by every method. */
    ghost var known: set<Attribute>
    ghost var table: Table
    ghost var emitters: map<u16, Emitter>

    /** Whatever the index holds under a handle is a known attribute and has that handle. */
    ghost predicate Indexed()
      reads `handles, `known, known`handle
    {
      0 !in handles && forall h :: h in handles ==> handles[h] in known && handles[h].handle == h
    }

    /** Registry agreement: the index holds exactly the attributes with a handle, each under its handle. */
    ghost predicate Agrees()
      reads `handles, `known, known`handle
    {
      Indexed() && forall a :: a in known && a.handle != 0 ==> a.handle in handles && handles[a.handle] == a
    }

    /** The ghost fields mirror the attribute objects in the index. */
    ghost predicate Mirrors()
      reads `handles, `known, `table, `emitters, known
    {
      && Indexed() && table.Keys == handles.Keys && emitters.Keys == handles.Keys
      && (forall h :: h in handles ==> table[h] == handles[h].Snapshot() && emitters[h] == handles[h].emitter)
    }

    ghost predicate Valid()
      reads `handles, `known, `table, `emitters, known
    {
      Agrees() && Mirrors()
    }

    /** The list and the set hold the same attributes. */
    ghost predicate Listed()
      reads `attributes, `known
    {
      (forall a :: a in attributes ==> a in known) && forall a :: a in known ==> a in attributes
    }

    /** The abstract state. */
    ghost function State(): Server
      reads `table, `emitters, `mtuSize, `centralMtu, `waitingForConfirmation, `listenerCount
    {
      Server(table, emitters, mtuSize, centralMtu, waitingForConfirmation, listenerCount, reading)
    }

    /** The method has done what the state machine does. */
    twostate predicate Did(new r: (Server, seq<Pdu>))
      reads `table, `emitters, `mtuSize, `centralMtu, `waitingForConfirmation, `listenerCount, `written
    {
      State() == r.0 && written == old(written) + r.1
    }

    constructor (mtu: Mtu, reading: Reading)
      ensures Valid() && State() == Server(map[], map[], DEFAULT_MTU, mtu, false, 0, reading)
      ensures attributes == [] && Listed() && written == []
    {
      handles, attributes, written := map[], [], [];
      mtuSize, centralMtu, waitingForConfirmation, listenerCount := DEFAULT_MTU, mtu, false, 0;
      this.reading := reading;
      known, table, emitters := {}, map[], map[];
    }

    /** What the index holds under a handle. */
    lemma Lookup(h: u16)
      requires Valid()
      ensures h in table <==> h in handles
      ensures h in handles ==> h != 0 && table[h] == handles[h].Snapshot() && handles[h].handle == h
      ensures EmitterOf(State(), h) == if h in handles then handles[h].emitter else SILENT
    {
    }

    /**
     * The handle setter. A handle in use is refused. Unsetting a held handle leaves the old entry in the
     * index, so agreement survives exactly when the setter refused, a handle was given, or none was held.
     * lib/att.js:95 splices the index where clearing one slot is meant; module Registry treats it as written.
     */
    method SetHandle(a: Attribute, handle: u16) returns (ok: bool)
      requires Valid() && a in known
      modifies this`handles, this`table, this`emitters, a`handle
      ensures ok == (handle == 0 || handle !in old(handles))
      ensures a.handle == if ok then handle else old(a.handle)
      ensures handles == if ok && handle != 0 then Moved(old(handles), old(a.handle), handle, a) else old(handles)
      ensures Agrees() <==> !ok || handle != 0 || old(a.handle) == 0
      ensures Agrees() ==> Valid()
    {
      if handle == 0 {
        UnsetHandle(a);
        return true;
      }
      if handle in handles {
        return false;
      }
      MoveTo(a, handle);
      ok := true;
    }

    method UnsetHandle(a: Attribute)
      requires Valid() && a in known
      modifies a`handle
      ensures a.handle == 0
      ensures Agrees() <==> old(a.handle) == 0
      ensures Agrees() ==> Valid()
    {
      assert a.handle != 0 ==> a.handle in handles && handles[a.handle] == a;
      a.handle := 0;
    }

    method Reindex(a: Attribute, handle: u16)
      requires Agrees() && a in known && handle != 0 && handle !in handles
      modifies this`handles, a`handle
      ensures Agrees() && a.handle == handle && handles == Moved(old(handles), old(a.handle), handle, a)
    {
      hide Moved;
      assert a.handle != handle;
      handles := Moved(handles, a.handle, handle, a);
      a.handle := handle;
    }

    method MoveTo(a: Attribute, handle: u16)
      requires Valid() && a in known && handle != 0 && handle !in handles
      modifies this`handles, this`table, this`emitters, a`handle
      ensures Valid() && a.handle == handle && handles == Moved(old(handles), old(a.handle), handle, a)
    {
      hide Moved;
      ghost var was := a.handle;
      Reindex(a, handle);
      hide Agrees;
      table := Moved(table, was, handle, a.Snapshot());
      emitters := Moved(emitters, was, handle, a.emitter);
      forall h | h in handles
        ensures table[h] == handles[h].Snapshot() && emitters[h] == handles[h].emitter
      {
        assert h != handle ==> handles[h] == old(handles)[h];
      }
    }

    /** List an attribute and index it, if it has a handle. */
    method Enlist(a: Attribute)
      requires Agrees() && a !in known && (a.handle != 0 ==> a.handle !in handles)
      modifies this`handles, this`attributes, this`known
      ensures Agrees() && attributes == old(attributes) + [a] && known == old(known) + {a}
      ensures handles == if a.handle != 0 then old(handles)[a.handle := a] else old(handles)
    {
      attributes, known := attributes + [a], known + {a};
      if a.handle != 0 {
        handles := handles[a.handle := a];
      }
    }

    /** The mirrors follow the index by one attribute. */
    ghost method Follow(a: Attribute, was: map<u16, Attribute>)
      requires Agrees() && a.handle !in was && handles == was[a.handle := a]
      requires table.Keys == was.Keys && emitters.Keys == was.Keys
      requires forall h :: h in was ==> table[h] == was[h].Snapshot() && emitters[h] == was[h].emitter
      modifies this`table, this`emitters
      ensures Mirrors()
    {
      table, emitters := table[a.handle := a.Snapshot()], emitters[a.handle := a.emitter];
      hide Agrees;
    }

    method Push(a: Attribute)
      requires Valid() && a !in known && (a.handle != 0 ==> a.handle !in handles)
      modifies this`handles, this`attributes, this`known, this`table, this`emitters
      ensures Valid() && attributes == old(attributes) + [a] && known == old(known) + {a}
      ensures handles == if a.handle != 0 then old(handles)[a.handle := a] else old(handles)
    {
      ghost var was := handles;
      Enlist(a);
      if a.handle != 0 {
        Follow(a, was);
      }
      hide Agrees;
    }

    /** createAttribute: its callers pass handle, type, value, end; a missing end is the handle itself. */
    method CreateAttribute(handle: u16, kind: Uuid, value: seq<byte>, endHandle: u16) returns (ok: bool, a: Attribute?)
      requires Valid() && Listed()
      modifies this`handles, this`attributes, this`known, this`table, this`emitters
      ensures Valid() && Listed()
      ensures ok == (handle == 0 || handle !in old(handles))
      ensures !ok ==> a == null && handles == old(handles) && attributes == old(attributes)
      ensures !ok ==> known == old(known)
      ensures ok ==> a != null && fresh(a) && a.handle == handle && attributes == old(attributes) + [a]
      ensures ok ==> known == old(known) + {a}
      ensures ok ==> a.Snapshot() == Attr(kind, value, if endHandle != 0 then endHandle else handle, 0)
      ensures ok ==> handles == if handle != 0 then old(handles)[handle := a] else old(handles)
    {
      hide Valid;
      if handle != 0 && handle in handles {
        return false, null;
      }
      a := new Attribute(kind, value, if endHandle != 0 then endHandle else handle);
      a.handle := handle;
      Push(a);
      ok := true;
    }

    lemma UnderOwnHandle(a: Attribute)
      requires Valid() && a in known
      ensures a.handle in handles <==> a.handle != 0
      ensures forall h :: h in handles ==> (handles[h] == a <==> h == a.handle)
    {
    }

    /** Writing into an attribute's value buffer, end handle and properties, past its setters. */
    method Patch(a: Attribute, to: Attr)
      requires Valid() && a in known && to.kind == a.kind
      modifies a`value, a`endHandle, a`properties, this`table
      ensures Valid() && a.Snapshot() == to
    {
      UnderOwnHandle(a);
      hide Agrees;
      a.value, a.endHandle, a.properties := to.value, to.end, to.props;
      if a.handle != 0 {
        table := table[a.handle := to];
      }
      assert table.Keys == handles.Keys;
      forall h | h in handles
        ensures table[h] == handles[h].Snapshot() && emitters[h] == handles[h].emitter
      {
      }
      assert Agrees();
    }

    /** The attribute objects behind a list of entries. */
    ghost predicate StandFor(p: Procedure, found: seq<Attribute>, es: seq<Entry>)
      reads found
    {
      |found| == |es| && forall i :: 0 <= i < |es| ==> es[i] == EntryOf(p, found[i].handle, found[i].Snapshot())
    }

    /** findAttributes: count handles upward from start and keep the registered ones that match. */
    method FindAttributes(start: u16, limit: nat, kind: TypeArg, value: Option<seq<byte>>, ghost p: Procedure)
      returns (found: seq<Attribute>)
      requires Valid() && limit <= 0x1_0000
      ensures StandFor(p, found, Hits(table, Query(p, kind, value), start, limit))
      ensures forall a :: a in found ==> Matches(a.Snapshot(), Query(p, kind, value))
      ensures forall h: u16 :: start <= h < limit && h in handles ==>
                (handles[h] in found <==>
                   (kind.AnyType? || kind == OneType(handles[h].kind)) &&
                   (value.None? || value == Some(handles[h].value)))
      ensures forall a :: a in found ==> start <= a.handle < limit && a.handle in handles && handles[a.handle] == a
    {
      hide EntryOf, Valid, EmitterOf;
      found := [];
      var i: nat := start;
      ghost var t, q := table, Query(p, kind, value);
      while i < limit
        invariant start <= i && (i <= limit || i == start)
        invariant i <= 0x1_0000 && StandFor(p, found, Hits(t, q, start, i))
        invariant forall a :: a in found ==> Matches(a.Snapshot(), q)
        invariant forall h: u16 :: start <= h < i && h in handles ==>
                    (handles[h] in found <==>
                       (kind.AnyType? || kind == OneType(handles[h].kind)) &&
                       (value.None? || value == Some(handles[h].value)))
        invariant forall a :: a in found ==> start <= a.handle < i && a.handle in handles && handles[a.handle] == a
      {
        HitsNext(t, q, start, i);
        Lookup(i);
        if i in handles {
          var a := handles[i];
          if (kind.AnyType? || (kind.OneType? && a.kind == kind.uuid)) && (value.None? || a.value == value.value) {
            found := found + [a];
          }
        }
        i := i + 1;
      }
    }

    method SendError(op: byte, handle: u16, code: byte)
      modifies this`written
      ensures written == old(written) + [ErrorPdu(op, handle, code)]
    {
      var response := new byte[5];
      response[0], response[1], response[4] := OP_ERROR, op, code;
      Copy(response, 2, Put16(handle));
      assert response[..] == ErrorPdu(op, handle, code);
      written := written + [response[..]];
    }

    /** Write entry i behind the header and the entries before it: its fixed part, then the rest. */
    method PutEntry(response: array<byte>, offset: nat, fixed: seq<byte>, rest: seq<byte>,
                    ghost head: seq<byte>, ghost es: seq<Entry>, ghost i: nat)
      requires i < |es| && EntryBytes(es[i]) == fixed + rest
      requires offset + |fixed| + |rest| <= response.Length
      requires response[..offset] == head + Concat(es[..i])
      modifies response
      ensures response[..offset + |fixed| + |rest|] == head + Concat(es[..i + 1])
    {
      hide EntryBytes;
      ghost var was := response[..];
      Copy(response, offset, fixed);
      Copy(response, offset + |fixed|, rest);
      OverlayJoins(was, offset, fixed, rest);
      OverlayPrefix(was, offset, fixed + rest);
      assert response[..][..offset + |fixed| + |rest|] == response[..offset + |fixed| + |rest|];
      assert was[..offset] == old(response[..offset]);
      assert es[..i + 1] == es[..i] + [es[i]];
      ConcatSnoc(es[..i], es[i]);
    }

    lemma InfoBytes(e: Entry, h: u16, kind: Uuid)
      requires e == Info(h, kind)
      ensures Size(e) == |UuidBytes(kind)| + 2 && EntryBytes(e) == Put16(h) + UuidBytes(kind)
    {
    }

    lemma RangeBytes(e: Entry, h: u16, end: u16)
      requires e == Range(h, end)
      ensures Size(e) == 4 && EntryBytes(e) == Put16(h) + Put16(end)
    {
    }

    lemma DataBytes(e: Entry, h: u16, v: seq<byte>)
      requires e == Data(h, v)
      ensures Size(e) == |v| + 2 && EntryBytes(e) == Put16(h) + v
    {
    }

    lemma GroupBytes(e: Entry, h: u16, end: u16, v: seq<byte>)
      requires e == Group(h, end, v)
      ensures Size(e) == |v| + 4 && EntryBytes(e) == Put16(h) + Put16(end) + v
    {
    }

    /** The response loop of handleFindInfo. */
    method FindInfoResponse(attribs: seq<Attribute>, ghost es: seq<Entry>) returns (pdu: Pdu)
      requires StandFor(FindInfo, attribs, es) && es != []
      ensures pdu == Response(FindInfo, reading.stop, es, mtuSize)
    {
      hide Packed, PackRest, EntryBytes, Concat;
      var response := new byte[mtuSize];
      response[0] := OP_FIND_INFO_RESP;
      var len, offset, i := 0, 2, 0;
      ghost var same, head := Some(Size(es[0])), [OP_FIND_INFO_RESP] + Header(FindInfo, es[0]);
      PackStart(es, 2, 0, mtuSize, same);
      while i < |attribs|
        invariant 0 <= i <= |attribs| && 2 <= offset <= mtuSize
        invariant PackRest(es, 2, 0, mtuSize, same, i, offset)
        invariant len == 0 ==> i == 0 && offset == 2 && response[0] == OP_FIND_INFO_RESP
        invariant len != 0 ==> len + 2 == Size(es[0]) && response[..offset] == head + Concat(es[..i])
      {
        var uuid := UuidBytes(attribs[i].kind);
        InfoBytes(es[i], attribs[i].handle, attribs[i].kind);
        if len == 0 {
          len := |uuid|;
          response[1] := if len == 2 then FMT_16BIT else FMT_128BIT;
          assert response[..2] == head && Concat(es[..0]) == [];
        }
        if |uuid| != len {
          break;
        }
        if offset + |uuid| + 2 > mtuSize {
          break;
        }
        PackStep(es, 2, 0, mtuSize, same, i, offset);
        PutEntry(response, offset, Put16(attribs[i].handle), uuid, head, es, i);
        offset := offset + 2 + |uuid|;
        i := i + 1;
      }
      PackStop(es, 2, 0, mtuSize, same, i, offset);
      pdu := response[..offset];
    }

    method HandleFindInfo(data: seq<byte>)
      requires Valid()
      modifies this`written
      ensures written == old(written) + HandleList(State(), FindInfo, data)
    {
      hide Hits, Response, Valid;
      if |data| < 4 {
        return;
      }
      var start, end := Get16(data, 0), Get16(data, 2);
      if start == 0 || start > end {
        SendError(OP_FIND_INFO_REQ, start, ECODE_INVALID_HANDLE);
        return;
      }
      var attribs := FindAttributes(start, Limit(reading.bound, end), AnyType, None, FindInfo);
      ghost var es := Hits(table, Query(FindInfo, AnyType, None), start, Limit(reading.bound, end));
      if |attribs| == 0 {
        SendError(OP_FIND_INFO_REQ, start, ECODE_ATTR_NOT_FOUND);
        return;
      }
      var response := FindInfoResponse(attribs, es);
      written := written + [response];
    }

    /** The response loop of handleFindByType, which compares type and value once more. */
    method FindByTypeResponse(attribs: seq<Attribute>, kind: TypeArg, value: seq<byte>, ghost es: seq<Entry>)
      returns (pdu: Pdu)
      requires StandFor(FindByType, attribs, es) && es != []
      requires forall a :: a in attribs ==> Matches(a.Snapshot(), Query(FindByType, kind, Some(value)))
      ensures pdu == if Packs(Query(FindByType, kind, Some(value))) then Response(FindByType, reading.stop, es, mtuSize)
                     else [OP_FIND_BY_TYPE_RESP]
    {
      hide Packed, PackRest, EntryBytes, Concat;
      var response := new byte[mtuSize];
      response[0] := OP_FIND_BY_TYPE_RESP;
      var offset, i := 1, 0;
      PackStart(es, 1, 0, mtuSize, None);
      ghost var head := [OP_FIND_BY_TYPE_RESP] + Header(FindByType, es[0]);
      assert response[..1] == head + Concat(es[..0]);
      while i < |attribs|
        invariant 0 <= i <= |attribs| && 1 <= offset <= mtuSize
        invariant kind.AnyType? ==> offset == 1 && response[..1] == head
        invariant !kind.AnyType? ==> PackRest(es, 1, 0, mtuSize, None, i, offset)
        invariant !kind.AnyType? ==> response[..offset] == head + Concat(es[..i])
      {
        RangeBytes(es[i], attribs[i].handle, attribs[i].endHandle);
        if offset + 4 > mtuSize {
          break;
        }
        if kind.OneType? && attribs[i].kind == kind.uuid && attribs[i].value == value {
          PackStep(es, 1, 0, mtuSize, None, i, offset);
          PutEntry(response, offset, Put16(attribs[i].handle), Put16(attribs[i].endHandle), head, es, i);
          offset := offset + 4;
        } else {
          assert attribs[i] in attribs;
        }
        i := i + 1;
      }
      if !kind.AnyType? {
        PackStop(es, 1, 0, mtuSize, None, i, offset);
      }
      pdu := response[..offset];
    }

    /** The response loop of handleReadByType, with its fit test two bytes too strict. */
    method ReadByTypeResponse(attribs: seq<Attribute>, ghost es: seq<Entry>) returns (pdu: Pdu)
      requires StandFor(ReadByType, attribs, es) && es != []
      ensures pdu == Response(ReadByType, reading.stop, es, mtuSize)
    {
      hide Packed, PackRest, EntryBytes, Concat;
      var response := new byte[mtuSize];
      response[0] := OP_READ_BY_TYPE_RESP;
      var len := |attribs[0].value|;
      response[1] := (len + 2) % 0x100;
      var offset, i := 2, 0;
      DataBytes(es[0], attribs[0].handle, attribs[0].value);
      ghost var same := Some(Size(es[0]));
      PackStart(es, 2, 2, mtuSize, same);
      ghost var head := [OP_READ_BY_TYPE_RESP] + Header(ReadByType, es[0]);
      assert response[..2] == head + Concat(es[..0]);
      while i < |attribs|
        invariant 0 <= i <= |attribs| && 2 <= offset <= mtuSize
        invariant PackRest(es, 2, 2, mtuSize, same, i, offset)
        invariant response[..offset] == head + Concat(es[..i])
      {
        DataBytes(es[i], attribs[i].handle, attribs[i].value);
        if |attribs[i].value| != len {
          break;
        }
        if offset + |attribs[i].value| + 4 > mtuSize {
          break;
        }
        PackStep(es, 2, 2, mtuSize, same, i, offset);
        PutEntry(response, offset, Put16(attribs[i].handle), attribs[i].value, head, es, i);
        offset := offset + 2 + |attribs[i].value|;
        i := i + 1;
      }
      PackStop(es, 2, 2, mtuSize, same, i, offset);
      pdu := response[..offset];
    }

    /** The response loop of handleReadByGroup; it has no same-size stop as written. */
    method ReadByGroupResponse(attribs: seq<Attribute>, ghost es: seq<Entry>) returns (pdu: Pdu)
      requires StandFor(ReadByGroup, attribs, es) && es != []
      ensures pdu == Response(ReadByGroup, reading.stop, es, mtuSize)
    {
      hide Packed, PackRest, EntryBytes, Concat;
      var response := new byte[mtuSize];
      response[0] := OP_READ_BY_GROUP_RESP;
      var len := |attribs[0].value|;
      response[1] := (len + 4) % 0x100;
      var offset, i := 2, 0;
      GroupBytes(es[0], attribs[0].handle, attribs[0].endHandle, attribs[0].value);
      ghost var same := SameRule(ReadByGroup, reading.stop, es[0]);
      PackStart(es, 2, 0, mtuSize, same);
      ghost var head := [OP_READ_BY_GROUP_RESP] + Header(ReadByGroup, es[0]);
      assert response[..2] == head + Concat(es[..0]);
      while i < |attribs|
        invariant 0 <= i <= |attribs| && 2 <= offset <= mtuSize
        invariant PackRest(es, 2, 0, mtuSize, same, i, offset)
        invariant response[..offset] == head + Concat(es[..i])
      {
        var fixed := Put16(attribs[i].handle) + Put16(attribs[i].endHandle);
        GroupBytes(es[i], attribs[i].handle, attribs[i].endHandle, attribs[i].value);
        if reading.stop == SameSize && |attribs[i].value| != len {
          break;
        }
        if offset + |attribs[i].value| + 4 > mtuSize {
          break;
        }
        PackStep(es, 2, 0, mtuSize, same, i, offset);
        PutEntry(response, offset, fixed, attribs[i].value, head, es, i);
        offset := offset + 4 + |attribs[i].value|;
        i := i + 1;
      }
      PackStop(es, 2, 0, mtuSize, same, i, offset);
      pdu := response[..offset];
    }

    method HandleFindByType(data: seq<byte>)
      requires Valid()
      modifies this`written
      ensures written == old(written) + HandleList(State(), FindByType, data)
    {
      hide Hits, Response, Valid;
      if |data| < 6 {
        return;
      }
      var start, end := Get16(data, 0), Get16(data, 2);
      var kind, value := NumberArg(Get16(data, 4)), Some(data[6..]);
      if start == 0 || start > end {
        SendError(OP_FIND_BY_TYPE_REQ, start, ECODE_INVALID_HANDLE);
        return;
      }
      var attribs := FindAttributes(start, Limit(reading.bound, end), kind, value, FindByType);
      ghost var es := Hits(table, Query(FindByType, kind, value), start, Limit(reading.bound, end));
      if |attribs| == 0 {
        SendError(OP_FIND_BY_TYPE_REQ, start, ECODE_ATTR_NOT_FOUND);
        return;
      }
      var response := FindByTypeResponse(attribs, kind, data[6..], es);
      written := written + [response];
    }

    method HandleReadByType(data: seq<byte>)
      requires Valid()
      modifies this`written
      ensures written == old(written) + HandleList(State(), ReadByType, data)
    {
      hide Hits, Response, Valid;
      if |data| < 6 {
        return;
      }
      var start, end, kind := Get16(data, 0), Get16(data, 2), NumberArg(Get16(data, 4));
      var attribs := FindAttributes(start, Limit(reading.bound, end), kind, None, ReadByType);
      ghost var es := Hits(table, Query(ReadByType, kind, None), start, Limit(reading.bound, end));
      if |attribs| == 0 {
        SendError(OP_READ_BY_TYPE_REQ, start, ECODE_ATTR_NOT_FOUND);
        return;
      }
      var response := ReadByTypeResponse(attribs, es);
      written := written + [response];
    }

    method HandleReadByGroup(data: seq<byte>)
      requires Valid()
      modifies this`written
      ensures written == old(written) + HandleList(State(), ReadByGroup, data)
    {
      hide Hits, Response, Valid, BufferArg;
      if |data| < 4 {
        return;
      }
      var start, end, kind := Get16(data, 0), Get16(data, 2), BufferArg(data[4..]);
      var attribs := FindAttributes(start, Limit(reading.bound, end), kind, None, ReadByGroup);
      ghost var es := Hits(table, Query(ReadByGroup, kind, None), start, Limit(reading.bound, end));
      if |attribs| == 0 {
        SendError(OP_READ_BY_GROUP_REQ, start, ECODE_ATTR_NOT_FOUND);
        return;
      }
      var response := ReadByGroupResponse(attribs, es);
      written := written + [response];
    }

    method SendMtu()
      modifies this`written
      ensures written == old(written) + [[OP_MTU_RESP] + Put16(mtuSize)]
    {
      var pdu := new byte[3];
      pdu[0] := OP_MTU_RESP;
      Copy(pdu, 1, Put16(mtuSize));
      assert pdu[..] == [OP_MTU_RESP] + Put16(mtuSize);
      written := written + [pdu[..]];
    }

    method HandleMtu(data: seq<byte>)
      requires Valid()
      modifies this`written, this`mtuSize, this`centralMtu
      ensures Valid()
      ensures Did(ServerModel.HandleMtu(old(State()), data))
    {
      hide Valid;
      if |data| < 2 {
        return;
      }
      var requestedMtu := Get16(data, 0);
      mtuSize := centralMtu;
      SendMtu();
      if requestedMtu < DEFAULT_MTU {
        mtuSize := DEFAULT_MTU;
        centralMtu := mtuSize;
      } else if requestedMtu < mtuSize {
        mtuSize := requestedMtu;
        centralMtu := mtuSize;
      }
    }

    method HandleReadRequest(data: seq<byte>)
      requires Valid()
      modifies this`written
      ensures written == old(written) + ServerModel.HandleReadRequest(State(), data)
    {
      hide Valid;
      if |data| < 2 {
        return;
      }
      var handle := Get16(data, 0);
      Lookup(handle);
      if handle !in handles {
        SendError(OP_READ_REQ, handle, ECODE_ATTR_NOT_FOUND);
        return;
      }
      var value := handles[handle].value;
      var response := new byte[mtuSize];
      response[0] := OP_READ_RESP;
      var size := Min(|value|, mtuSize - 1);
      Copy(response, 1, value[..size]);
      assert response[..size + 1] == [OP_READ_RESP] + value[..size];
      written := written + [response[..size + 1]];
    }

    /** One listener: a notification, or an indication unless one is unconfirmed. */
    method Call(l: Listener, h: u16, value: seq<byte>)
      modifies this`written, this`waitingForConfirmation
      ensures var (out, w) := Fire([l], h, value, mtuSize, old(waitingForConfirmation));
              written == old(written) + out && waitingForConfirmation == w
    {
      if l.kind == Indicating && waitingForConfirmation {
        return;
      }
      var size, valueSize := |value| + 3, |value|;
      if size > mtuSize {
        size, valueSize := mtuSize, mtuSize - 3;
      }
      var pdu := new byte[size];
      pdu[0] := if l.kind == Notifying then OP_HANDLE_NOTIFY else OP_HANDLE_IND;
      Copy(pdu, 1, Put16(h));
      Copy(pdu, 3, value[..valueSize]);
      assert pdu[..] == ValuePdu(if l.kind == Notifying then OP_HANDLE_NOTIFY else OP_HANDLE_IND, h, value, mtuSize);
      assert Fire([l], h, value, mtuSize, waitingForConfirmation).0 == [pdu[..]];
      written := written + [pdu[..]];
      if l.kind == Indicating {
        waitingForConfirmation := true;
      }
    }

    /** emit('valueChanged'): every listener in the order it was added. */
    method Emit(a: Attribute)
      modifies this`written, this`waitingForConfirmation
      ensures var (out, w) := Fire(a.emitter.listeners, a.handle, a.value, mtuSize, old(waitingForConfirmation));
              written == old(written) + out && waitingForConfirmation == w
    {
      hide Fire;
      var ls, i := a.emitter.listeners, 0;
      ghost var all := Fire(ls, a.handle, a.value, mtuSize, waitingForConfirmation);
      assert ls[0..] == ls;
      while i < |ls|
        invariant 0 <= i <= |ls|
        invariant var (rest, w) := Fire(ls[i..], a.handle, a.value, mtuSize, waitingForConfirmation);
                  written + rest == old(written) + all.0 && w == all.1
      {
        FireStep(ls[i..], a.handle, a.value, mtuSize, waitingForConfirmation);
        assert ls[i..][1..] == ls[i + 1..];
        Call(ls[i], a.handle, a.value);
        i := i + 1;
      }
      assert ls[i..] == [];
      FireNone(a.handle, a.value, mtuSize, waitingForConfirmation);
    }

    lemma FireNone(h: u16, v: seq<byte>, mtu: Mtu, waiting: bool)
      ensures Fire([], h, v, mtu, waiting) == ([], waiting)
    {
    }

    lemma FireStep(ls: seq<Listener>, h: u16, v: seq<byte>, mtu: Mtu, waiting: bool)
      requires ls != []
      ensures var (first, w) := Fire([ls[0]], h, v, mtu, waiting); var (rest, w') := Fire(ls[1..], h, v, mtu, w);
              Fire(ls, h, v, mtu, waiting) == (first + rest, w')
    {
      assert [ls[0]][1..] == [];
      var pdu := ValuePdu(if ls[0].kind == Notifying then OP_HANDLE_NOTIFY else OP_HANDLE_IND, h, v, mtu);
      assert [pdu] + [] == [pdu];
      var rest := Fire(ls[1..], h, v, mtu, waiting || ls[0].kind == Indicating).0;
      assert [] + rest == rest;
    }

    method StoreValue(a: Attribute, value: seq<byte>)
      requires Valid() && a.handle in handles && handles[a.handle] == a
      modifies a`value, this`table
      ensures Valid() && a.value == value
      ensures table == WithValue(old(table), a.handle, value)
    {
      hide Agrees;
      a.value := value;
      table := WithValue(table, a.handle, value);
    }

    /** The value setter of a registered attribute. */
    method SetValue(a: Attribute, value: seq<byte>)
      requires Valid() && a.handle in handles && handles[a.handle] == a
      modifies a`value, this`table, this`written, this`waitingForConfirmation
      ensures Valid()
      ensures Did(ServerModel.SetValue(old(State()), a.handle, value))
    {
      Lookup(a.handle);
      hide Fire, Valid, Agrees, Mirrors, Indexed, WithValue;
      StoreValue(a, value);
      Emit(a);
    }

    method DoWrite(handle: u16, value: seq<byte>, respond: bool)
      requires Valid()
      modifies this`written, this`table, this`waitingForConfirmation, handles.Values`value
      ensures Valid()
      ensures Did(ServerModel.DoWrite(old(State()), handle, value, respond))
    {
      Lookup(handle);
      hide Valid;
      if handle !in handles {
        SendError(OP_WRITE_REQ, handle, ECODE_INVALID_HANDLE);
        return;
      }
      var attribute := handles[handle];
      if !MayWrite(attribute.Snapshot(), respond) {
        SendError(OP_WRITE_REQ, handle, ECODE_WRITE_NOT_PERM);
        return;
      }
      SetValue(attribute, value);
      if respond {
        written := written + [[OP_WRITE_RESP]];
      }
    }

    method StoreEmitter(a: Attribute, e: Emitter)
      requires Valid() && a.handle in handles && handles[a.handle] == a
      modifies a`emitter, this`emitters
      ensures Valid() && a.emitter == e && emitters == WithEmitter(old(emitters), a.handle, e)
    {
      hide Agrees;
      a.emitter := e;
      emitters := WithEmitter(emitters, a.handle, e);
    }

    method AddListener(a: Attribute, k: Kind) returns (l: Listener)
      requires Valid() && a.handle in handles && handles[a.handle] == a
      modifies a`emitter, this`emitters, this`listenerCount
      ensures Valid() && l == Listener(old(listenerCount), k)
      ensures State() == old(State()).(emitters := WithEmitter(old(emitters), a.handle, Added(old(a.emitter), l)),
                                       nextId := old(listenerCount) + 1)
    {
      hide Valid, Added, WithEmitter;
      l := Listener(listenerCount, k);
      listenerCount := listenerCount + 1;
      StoreEmitter(a, Added(a.emitter, l));
    }

    /** What enabling comes to for a registered attribute. */
    lemma EnableParts(a: Attribute, k: Kind)
      requires Valid() && a.handle in handles && handles[a.handle] == a
      ensures a.handle in table
      ensures Blocked(a.emitter, k) ==> ServerModel.Enable(State(), a.handle, k) == (State(), [])
      ensures !Blocked(a.emitter, k) ==>
                var l := Listener(listenerCount, k);
                var (out, w) := Fire([l], a.handle, a.value, mtuSize, waitingForConfirmation);
                ServerModel.Enable(State(), a.handle, k) ==
                (State().(emitters := WithEmitter(emitters, a.handle, Added(a.emitter, l)), nextId := listenerCount + 1,
                          waiting := w), out)
    {
      Lookup(a.handle);
    }

    /** enableNotifications and enableIndications; refused while the other kind is enabled. */
    method Enable(a: Attribute, k: Kind)
      requires Valid() && a.handle in handles && handles[a.handle] == a
      modifies a`emitter, this`emitters, this`listenerCount, this`written, this`waitingForConfirmation
      ensures Valid()
      ensures Did(ServerModel.Enable(old(State()), old(a.handle), k))
    {
      hide Fire, Added, Blocked, Valid, WithEmitter, ServerModel.Enable;
      EnableParts(a, k);
      if Blocked(a.emitter, k) {
        return;
      }
      var l := AddListener(a, k);
      Call(l, a.handle, a.value);
    }

    /** disableNotifications and disableIndications. */
    method Disable(a: Attribute, k: Kind)
      requires Valid() && a.handle in handles && handles[a.handle] == a
      modifies a`emitter, this`emitters
      ensures Valid() && State() == ServerModel.Disable(old(State()), a.handle, k)
    {
      Lookup(a.handle);
      hide Removed, EmitterOf, Valid, WithEmitter;
      StoreEmitter(a, Removed(a.emitter, k));
    }

    /** createHandler: one packet from the central. */
    method Receive(pdu: Pdu)
      requires Valid()
      modifies this`written, this`table, this`mtuSize, this`centralMtu, this`waitingForConfirmation,
        handles.Values`value
      ensures Valid()
      ensures Did(ServerModel.Receive(old(State()), pdu))
    {
      hide Valid, ListReply, ServerModel.HandleMtu, ServerModel.DoWrite, ServerModel.HandleReadRequest;
      if pdu == [] {
        SendError(0, 0, ECODE_REQ_NOT_SUPP);
        return;
      }
      var op, data := pdu[0], pdu[1..];
      if op == OP_MTU_REQ {
        HandleMtu(data);
      } else if op == OP_FIND_INFO_REQ {
        HandleFindInfo(data);
      } else if op == OP_FIND_BY_TYPE_REQ {
        HandleFindByType(data);
      } else if op == OP_READ_BY_TYPE_REQ {
        HandleReadByType(data);
      } else if op == OP_READ_BY_GROUP_REQ {
        HandleReadByGroup(data);
      } else if op == OP_READ_REQ {
        HandleReadRequest(data);
      } else if op == OP_WRITE_REQ || op == OP_WRITE_CMD {
        if |data| >= 2 {
          DoWrite(Get16(data, 0), data[2..], op == OP_WRITE_REQ);
        }
      } else if op == OP_HANDLE_CNF {
        if waitingForConfirmation {
          waitingForConfirmation := false;
        }
      } else if op != OP_ERROR && op != OP_READ_BLOB_REQ && op != OP_READ_MULTI_REQ {
        SendError(op, 0, ECODE_REQ_NOT_SUPP);
      }
    }
  }
}
