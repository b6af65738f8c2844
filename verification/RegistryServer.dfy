/** The server's own handle setter and createAttribute are the registry's operations, with the old slot cleared. */
module RegistryServer {
  import opened Bytes
  import opened AttTypes
  import opened AttServer
  import Registry

  /** A handle field as the class keeps it: 0 for undefined. */
  function Field(handle: Option<nat>): nat {
    if handle.None? then 0 else handle.value
  }

  /** The index by number and the index by attribute are one index, the attributes numbered as they are listed. */
  ghost predicate SameIndex<T>(handles: map<u16, T>, attributes: seq<T>, index: Registry.Index) {
    && (forall i, j :: 0 <= i < j < |attributes| ==> attributes[i] != attributes[j])
    && (forall h: u16 :: h in handles ==> Registry.Has(index, h))
    && (forall h: nat :: Registry.Has(index, h) ==>
          h < 0x1_0000 && h in handles && Registry.At(index, h) < |attributes| &&
          attributes[Registry.At(index, h)] == handles[h])
  }

  /** An index, a list of attributes and their handles are what the registry says. */
  ghost predicate Stands<T>(handles: map<u16, T>, attributes: seq<T>, fields: seq<u16>, r: Registry.Registry) {
    && SameIndex(handles, attributes, r.index)
    && |fields| == |r.held| == |attributes|
    && forall i :: 0 <= i < |fields| ==> fields[i] == Field(r.held[i])
  }

  function Fields(attributes: seq<Attribute>): (r: seq<u16>)
    reads attributes`handle
    ensures |r| == |attributes| && forall i :: 0 <= i < |r| ==> r[i] == attributes[i].handle
  {
    if attributes == [] then [] else Fields(attributes[..|attributes| - 1]) + [attributes[|attributes| - 1].handle]
  }

  ghost predicate Represents(server: AttributeServer, r: Registry.Registry)
    reads server`handles, server`attributes, server.attributes`handle
  {
    Stands(server.handles, server.attributes, Fields(server.attributes), r)
  }

  lemma PutKeeps<T>(handles: map<u16, T>, attributes: seq<T>, index: Registry.Index, h: u16, i: nat)
    requires SameIndex(handles, attributes, index) && i < |attributes|
    ensures SameIndex(handles[h := attributes[i]], attributes, Registry.Put(index, h, i))
  {
    hide Registry.Put;
  }

  lemma MovedKeeps<T>(handles: map<u16, T>, attributes: seq<T>, index: Registry.Index, was: Option<nat>, h: u16, i: nat)
    requires SameIndex(handles, attributes, index) && i < |attributes| && 0 !in handles
    requires Field(was) < 0x1_0000 && Field(was) != h
    ensures SameIndex(Moved(handles, Field(was), h, attributes[i]), attributes,
                      Registry.Put(Registry.Freed(index, was, Registry.Clearing), h, i))
  {
    hide Registry.Put, Registry.Clear, Moved;
    var freed := Registry.Freed(index, was, Registry.Clearing);
    forall g: nat
      ensures Registry.Has(freed, g) <==> Registry.Has(index, g) && g != Field(was)
      ensures Registry.Has(freed, g) ==> Registry.At(freed, g) == Registry.At(index, g)
    {
    }
  }

  lemma ListKeeps<T>(handles: map<u16, T>, attributes: seq<T>, index: Registry.Index, a: T)
    requires SameIndex(handles, attributes, index) && a !in attributes
    ensures SameIndex(handles, attributes + [a], index)
  {
  }

  /** What the handle setter does is the assignment of the registry. */
  lemma AssignStands<T>(before: map<u16, T>, after: map<u16, T>, attributes: seq<T>, fields: seq<u16>,
                        r: Registry.Registry, i: nat, handle: u16, ok: bool)
    requires Stands(before, attributes, fields, r) && i < |attributes| && 0 !in before
    requires ok <==> handle == 0 || handle !in before
    requires ok && handle != 0 ==> fields[i] != handle
    requires after == if ok && handle != 0 then Moved(before, fields[i], handle, attributes[i]) else before
    ensures Stands(after, attributes, if ok then fields[i := handle] else fields,
                   Registry.Apply(r, Registry.Assign(i, Some(handle)), Registry.Clearing))
    ensures ok <==> handle == 0 || !Registry.Has(r.index, handle)
  {
    if ok && handle != 0 {
      MovedKeeps(before, attributes, r.index, r.held[i], handle, i);
    }
  }

  /** What createAttribute does is the creation of the registry. */
  lemma CreateStands<T>(before: map<u16, T>, after: map<u16, T>, attributes: seq<T>, longer: seq<T>, fields: seq<u16>,
                        r: Registry.Registry, handle: u16, ok: bool)
    requires Stands(before, attributes, fields, r)
    requires ok <==> handle == 0 || handle !in before
    requires !ok ==> after == before && longer == attributes
    requires ok ==> longer != [] && longer[..|longer| - 1] == attributes && longer[|longer| - 1] !in attributes
    requires ok ==> after == if handle != 0 then before[handle := longer[|longer| - 1]] else before
    ensures Stands(after, longer, if ok then fields + [handle] else fields,
                   Registry.Apply(r, Registry.Create(Some(handle)), Registry.Clearing))
    ensures ok <==> handle == 0 || !Registry.Has(r.index, handle)
  {
    if ok {
      assert longer == attributes + [longer[|longer| - 1]];
      ListKeeps(before, attributes, r.index, longer[|longer| - 1]);
      if handle != 0 {
        PutKeeps(before, longer, r.index, handle, |attributes|);
      }
    }
  }

  /** What the registry results say of r, they say of the server. */
  lemma AgreesIff(server: AttributeServer, r: Registry.Registry)
    requires server.Listed() && Represents(server, r)
    ensures server.Agrees() <==> Registry.Agrees(r)
  {
    hide Registry.Put, Registry.Splice, Registry.Clear;
    if server.Agrees() {
      forall i | 0 <= i < |r.held| && Registry.Real(r.held[i])
        ensures Registry.Has(r.index, r.held[i].value) && Registry.At(r.index, r.held[i].value) == i
      {
        assert server.attributes[i] in server.attributes;
      }
    }
    if Registry.Agrees(r) {
      forall a | a in server.known && a.handle != 0
        ensures a.handle in server.handles && server.handles[a.handle] == a
      {
        var i :| 0 <= i < |server.attributes| && server.attributes[i] == a;
        assert Registry.Real(r.held[i]);
      }
    }
  }

  /** What holds of attribute i before its handle is set. */
  lemma Before(server: AttributeServer, i: nat, r: Registry.Registry)
    requires server.Valid() && server.Listed() && Represents(server, r) && i < |server.attributes|
    ensures forall j :: 0 <= j < |server.attributes| && j != i ==> server.attributes[j] != server.attributes[i]
    ensures var a := server.attributes[i];
            0 !in server.handles && a in server.known && (a.handle != 0 ==> a.handle in server.handles)
  {
    assert server.attributes[i] in server.attributes;
  }

  /** Attributes with the handles of a list are that list. */
  lemma After(server: AttributeServer, fields: seq<u16>, r: Registry.Registry)
    requires server.Listed() && Stands(server.handles, server.attributes, fields, r)
    requires forall i :: 0 <= i < |fields| ==> server.attributes[i].handle == fields[i]
    ensures Represents(server, r) && (server.Agrees() <==> Registry.Agrees(r))
  {
    hide Registry.Agrees;
    assert Fields(server.attributes) == fields;
    AgreesIff(server, r);
  }

  /** The handle setter of attribute i is the assignment of the registry. */
  method SetHandle(server: AttributeServer, a: Attribute, handle: u16, ghost i: nat, ghost r: Registry.Registry)
    returns (ok: bool, ghost r': Registry.Registry)
    requires server.Valid() && server.Listed() && Represents(server, r)
    requires i < |server.attributes| && server.attributes[i] == a
    modifies server`handles, server`table, server`emitters, a`handle
    ensures r' == Registry.Apply(r, Registry.Assign(i, Some(handle)), Registry.Clearing) && Represents(server, r')
    ensures server.Listed() && (server.Agrees() <==> Registry.Agrees(r'))
    ensures ok <==> handle == 0 || !Registry.Has(r.index, handle)
  {
    hide SameIndex, Moved, Registry.Apply, Registry.Agrees, Stands;
    ghost var before, fields := server.handles, Fields(server.attributes);
    Before(server, i, r);
    ok := server.SetHandle(a, handle);
    r' := Registry.Apply(r, Registry.Assign(i, Some(handle)), Registry.Clearing);
    AssignStands(before, server.handles, server.attributes, fields, r, i, handle, ok);
    After(server, if ok then fields[i := handle] else fields, r');
  }

  /** createAttribute is the creation of the registry. */
  method CreateAttribute(server: AttributeServer, handle: u16, kind: Uuid, value: seq<byte>, endHandle: u16,
                         ghost r: Registry.Registry)
    returns (ok: bool, a: Attribute?, ghost r': Registry.Registry)
    requires server.Valid() && server.Listed() && Represents(server, r)
    modifies server`handles, server`attributes, server`known, server`table, server`emitters
    ensures r' == Registry.Apply(r, Registry.Create(Some(handle)), Registry.Clearing) && Represents(server, r')
    ensures server.Valid() && server.Listed() && Registry.Agrees(r')
    ensures ok <==> handle == 0 || !Registry.Has(r.index, handle)
  {
    hide SameIndex, Registry.Apply, Registry.Agrees, Stands;
    ghost var before, list, fields := server.handles, server.attributes, Fields(server.attributes);
    ok, a := server.CreateAttribute(handle, kind, value, endHandle);
    r' := Registry.Apply(r, Registry.Create(Some(handle)), Registry.Clearing);
    CreateStands(before, server.handles, list, server.attributes, fields, r, handle, ok);
    After(server, if ok then fields + [handle] else fields, r');
  }
}
