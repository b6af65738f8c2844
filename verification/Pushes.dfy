/** Notifications and indications over whole runs: flow control, payload, and which listeners an attribute has. */
module Pushes {
  import opened Bytes
  import opened AttTypes
  import opened Search
  import opened Requests
  import opened Responses
  import opened ServerModel
  import opened ServerRuns
  import opened Wire

  predicate IsIndication(p: Pdu) {
    p != [] && p[0] == OP_HANDLE_IND
  }

  function Indications(out: seq<Pdu>): nat {
    |Filter(IsIndication, out)|
  }

  function One(b: bool): nat {
    if b then 1 else 0
  }

  /** Confirmations that arrive while one is awaited. */
  function Accepted(s: Server, ins: seq<Input>): nat
    decreases |ins|
  {
    if ins == [] then 0
    else
      One(s.waiting && ins[0].FromCentral? && ins[0].pdu != [] && ins[0].pdu[0] == OP_HANDLE_CNF)
      + Accepted(Next(s, ins[0]).0, ins[1..])
  }

  lemma CountConcat(a: seq<Pdu>, b: seq<Pdu>)
    ensures Indications(a + b) == Indications(a) + Indications(b)
  {
    FilterConcat(IsIndication, a, b);
  }

  lemma CountOne(p: Pdu)
    ensures Indications([p]) == One(IsIndication(p))
    ensures Indications([]) == 0
  {
    var none: seq<Pdu> := [];
    assert [p][1..] == none && Filter(IsIndication, none) == none;
  }

  lemma {:induction false} FireKeepsCredit(ls: seq<Listener>, h: u16, v: seq<byte>, mtu: Mtu, waiting: bool)
    ensures var (out, w) := Fire(ls, h, v, mtu, waiting); Indications(out) + One(waiting) == One(w)
  {
    hide Indications;
    if ls == [] {
      CountOne([]);
    } else {
      FireKeepsCredit(ls[1..], h, v, mtu, true);
      FireKeepsCredit(ls[1..], h, v, mtu, waiting);
      var pdu := ValuePdu(if ls[0].kind == Notifying then OP_HANDLE_NOTIFY else OP_HANDLE_IND, h, v, mtu);
      CountOne(pdu);
      CountConcat([pdu], Fire(ls[1..], h, v, mtu, waiting || ls[0].kind == Indicating).0);
    }
  }

  lemma WriteKeepsCredit(s: Server, h: u16, v: seq<byte>, respond: bool)
    ensures var (s', out) := DoWrite(s, h, v, respond); Indications(out) + One(s.waiting) == One(s'.waiting)
  {
    hide Fire, Indications, HasProp;
    CountOne([OP_WRITE_RESP]);
    if h in s.table && MayWrite(s.table[h], respond) {
      FireKeepsCredit(EmitterOf(s, h).listeners, h, v, s.mtu, s.waiting);
      CountConcat(SetValue(s, h, v).1, if respond then [[OP_WRITE_RESP]] else []);
    } else {
      CountOne(DoWrite(s, h, v, respond).1[0]);
    }
  }

  lemma ListKeepsCredit(s: Server, p: Procedure, data: seq<byte>)
    ensures Indications(HandleList(s, p, data)) == 0
  {
    hide Hits, Taken, Indications;
    CountOne([]);
    if ReadFields(p, data).Some? {
      CountOne(ListReply(s.table, s.reading, s.mtu, ReadFields(p, data).value));
    }
  }

  lemma ReceiveKeepsCredit(s: Server, pdu: Pdu)
    ensures var (s', out) := Receive(s, pdu);
            Indications(out) + One(s.waiting) == Accepted(s, [FromCentral(pdu)]) + One(s'.waiting)
  {
    hide ListReply, ReadFields, DoWrite, Indications;
    assert [FromCentral(pdu)][1..] == [];
    CountOne([]);
    if pdu == [] {
      CountOne(ErrorPdu(0, 0, ECODE_REQ_NOT_SUPP));
    } else {
      var op, data := pdu[0], pdu[1..];
      if op == OP_WRITE_REQ || op == OP_WRITE_CMD {
        if |data| >= 2 {
          WriteKeepsCredit(s, Get16(data, 0), data[2..], op == OP_WRITE_REQ);
        }
      } else {
        ListKeepsCredit(s, FindInfo, data);
        ListKeepsCredit(s, FindByType, data);
        ListKeepsCredit(s, ReadByType, data);
        ListKeepsCredit(s, ReadByGroup, data);
        var out := Receive(s, pdu).1;
        if |out| == 1 {
          CountOne(out[0]);
          assert out == [out[0]];
        }
      }
    }
  }

  lemma DoKeepsCredit(s: Server, l: Local)
    ensures var (s', out) := Do(s, l);
            Indications(out) + One(s.waiting) == Accepted(s, [Locally(l)]) + One(s'.waiting)
  {
    hide Fire, Indications, Added, Removed;
    assert [Locally(l)][1..] == [];
    CountOne([]);
    if l.h in s.table {
      var v := if l.SetLocal? then l.value else s.table[l.h].value;
      FireKeepsCredit(EmitterOf(s, l.h).listeners, l.h, v, s.mtu, s.waiting);
      FireKeepsCredit([Listener(s.nextId, Notifying)], l.h, v, s.mtu, s.waiting);
      FireKeepsCredit([Listener(s.nextId, Indicating)], l.h, v, s.mtu, s.waiting);
    }
  }

  /**
   * Flow control, over any interleaving of value changes, confirmations, enables and disables on all the
   * attributes of a central: indications sent minus confirmations accepted is what waitingForConfirmation
   * says, so from a start without one outstanding it is 0 or 1 at every moment.
   */
  lemma {:induction false} IndicationFlowControl(s: Server, ins: seq<Input>)
    ensures var (s', out) := Run(s, ins);
            Indications(out) + One(s.waiting) == Accepted(s, ins) + One(s'.waiting)
    decreases |ins|
  {
    hide Indications, Receive, Do, One;
    if ins == [] {
      CountOne([]);
    } else {
      var (s1, out) := Next(s, ins[0]);
      match ins[0] {
        case FromCentral(pdu) => ReceiveKeepsCredit(s, pdu);
        case Locally(l) => DoKeepsCredit(s, l);
      }
      assert [ins[0]][1..] == [];
      IndicationFlowControl(s1, ins[1..]);
      CountConcat(out, Run(s1, ins[1..]).1);
    }
  }

  // ---- Payload ----

  /** p carries the value of some attribute of t, cut to what fits beside the opcode and the handle. */
  predicate CarriesValue(p: Pdu, t: Table, mtu: Mtu) {
    p != [] && exists h: u16 :: h in t && p == ValuePdu(p[0], h, t[h].value, mtu)
  }

  lemma {:induction false} FiredCarry(ls: seq<Listener>, h: u16, t: Table, mtu: Mtu, waiting: bool)
    requires h in t
    ensures forall p :: p in Fire(ls, h, t[h].value, mtu, waiting).0 ==> CarriesValue(p, t, mtu)
  {
    if ls != [] {
      FiredCarry(ls[1..], h, t, mtu, true);
      FiredCarry(ls[1..], h, t, mtu, waiting);
      var op := if ls[0].kind == Notifying then OP_HANDLE_NOTIFY else OP_HANDLE_IND;
      assert CarriesValue(ValuePdu(op, h, t[h].value, mtu), t, mtu);
    }
  }

  lemma WritePushes(s: Server, h: u16, v: seq<byte>, respond: bool)
    ensures var (s', out) := DoWrite(s, h, v, respond);
            forall p :: p in out && IsPush(p) ==> CarriesValue(p, s'.table, s.mtu)
  {
    hide Fire, CarriesValue, HasProp;
    if h in s.table && MayWrite(s.table[h], respond) {
      var s' := SetValue(s, h, v).0;
      FiredCarry(EmitterOf(s, h).listeners, h, s'.table, s.mtu, s.waiting);
    }
  }

  lemma ListPushesNothing(s: Server, p: Procedure, data: seq<byte>)
    ensures forall x :: x in HandleList(s, p, data) ==> IsReply(x)
  {
    hide Hits, Taken;
  }

  /**
   * Every notification and indication carries the current value of its attribute: the first min(length, MTU - 3)
   * bytes.
   */
  lemma PushesCarryValues(s: Server, i: Input)
    ensures var (s', out) := Next(s, i);
            forall p :: p in out && IsPush(p) ==> CarriesValue(p, s'.table, s.mtu)
  {
    hide Fire, CarriesValue, HandleList, DoWrite, Added, Removed;
    match i
    case Locally(l) =>
      if l.h in s.table {
        var t := Next(s, i).0.table;
        FiredCarry(EmitterOf(s, l.h).listeners, l.h, t, s.mtu, s.waiting);
        FiredCarry([Listener(s.nextId, Notifying)], l.h, t, s.mtu, s.waiting);
        FiredCarry([Listener(s.nextId, Indicating)], l.h, t, s.mtu, s.waiting);
      }
    case FromCentral(pdu) =>
      if pdu != [] {
        var op, data := pdu[0], pdu[1..];
        if |data| >= 2 {
          WritePushes(s, Get16(data, 0), data[2..], op == OP_WRITE_REQ);
        }
        ListPushesNothing(s, FindInfo, data);
        ListPushesNothing(s, FindByType, data);
        ListPushesNothing(s, ReadByType, data);
        ListPushesNothing(s, ReadByGroup, data);
      }
  }

  // ---- Which packets a change sends ----

  /** The two listener fields are never both set. */
  predicate Exclusive(e: Emitter) {
    e.notify.None? || e.indicate.None?
  }

  /** The listeners that the two fields name. */
  function Named(e: Emitter): seq<Listener> {
    (if e.notify.Some? then [Listener(e.notify.value, Notifying)] else [])
    + (if e.indicate.Some? then [Listener(e.indicate.value, Indicating)] else [])
  }

  /** The attribute's listeners are just those its fields name, so there is at most one. */
  predicate Clean(e: Emitter) {
    Exclusive(e) && e.listeners == Named(e)
  }

  /** A notification or an indication of a value: opcode, handle, as much of the value as fits. */
  function Push(op: byte, h: u16, v: seq<byte>, mtu: Mtu): Pdu {
    [op, h % 0x100, h / 0x100] + if |v| + 3 <= mtu then v else v[..mtu - 3]
  }

  /** One listener: a notification always, an indication unless one is unconfirmed. */
  lemma OneFires(l: Listener, h: u16, v: seq<byte>, mtu: Mtu, waiting: bool)
    ensures Fire([l], h, v, mtu, waiting) ==
            match l.kind
            case Notifying => ([Push(0x1B, h, v, mtu)], waiting)
            case Indicating => (if waiting then [] else [Push(0x1D, h, v, mtu)], true)
  {
    PushBytes(h, v, mtu);
    assert [l][1..] == [];
    assert Fire([], h, v, mtu, waiting) == ([], waiting) && Fire([], h, v, mtu, true) == ([], true);
    assert [Push(0x1B, h, v, mtu)] + [] == [Push(0x1B, h, v, mtu)];
    assert [Push(0x1D, h, v, mtu)] + [] == [Push(0x1D, h, v, mtu)];
  }

  /** Several listeners: each in turn, and what the first ones leave unconfirmed holds for the others. */
  lemma {:induction false} FireInTurn(a: seq<Listener>, b: seq<Listener>, h: u16, v: seq<byte>, mtu: Mtu, waiting: bool)
    ensures var (first, w) := Fire(a, h, v, mtu, waiting); var (rest, w') := Fire(b, h, v, mtu, w);
            Fire(a + b, h, v, mtu, waiting) == (first + rest, w')
  {
    if a == [] {
      assert a + b == b;
      assert [] + Fire(b, h, v, mtu, waiting).0 == Fire(b, h, v, mtu, waiting).0;
    } else {
      assert (a + b)[1..] == a[1..] + b;
      var pass := waiting || a[0].kind == Indicating;
      FireInTurn(a[1..], b, h, v, mtu, pass);
      var pdu := ValuePdu(if a[0].kind == Notifying then OP_HANDLE_NOTIFY else OP_HANDLE_IND, h, v, mtu);
      var (first, w) := Fire(a[1..], h, v, mtu, pass);
      assert [pdu] + (first + Fire(b, h, v, mtu, w).0) == ([pdu] + first) + Fire(b, h, v, mtu, w).0;
    }
  }

  /** The pushes of an attribute whose listeners are those its fields name: none, a notification, or an indication. */
  function CleanPushes(e: Emitter, h: u16, v: seq<byte>, mtu: Mtu, waiting: bool): seq<Pdu> {
    if e.notify.Some? then [Push(0x1B, h, v, mtu)]
    else if e.indicate.Some? && !waiting then [Push(0x1D, h, v, mtu)]
    else []
  }

  /**
   * A change of value, by the application or by a permitted write: it is stored, and an attribute with notifications
   * enabled sends it, confirmed or not; one with indications enabled sends it unless one is unconfirmed, and waits.
   */
  lemma ChangePushes(s: Server, h: u16, v: seq<byte>)
    requires h in s.table && Clean(EmitterOf(s, h))
    ensures var (s', out) := Do(s, SetLocal(h, v)); var e := EmitterOf(s, h);
            && out == CleanPushes(e, h, v, s.mtu, s.waiting)
            && s' == s.(table := s.table[h := s.table[h].(value := v)], waiting := s.waiting || e.indicate.Some?)
    ensures forall respond: bool ::
              DoWrite(s, h, v, respond) ==
              if Flag(s.table[h].props, if respond then WRITE_FLAG else WRITE_WITHOUT_RESP_FLAG) then
                (Do(s, SetLocal(h, v)).0, Do(s, SetLocal(h, v)).1 + if respond then [[0x13]] else [])
              else (s, [[0x01, 0x12, h % 0x100, h / 0x100, 0x03]])
  {
    hide HasProp, Flag;
    PropertyIsFlag(s.table[h].props);
    var e := EmitterOf(s, h);
    if e.notify.Some? {
      OneFires(Listener(e.notify.value, Notifying), h, v, s.mtu, s.waiting);
      assert e.listeners == [Listener(e.notify.value, Notifying)];
    } else if e.indicate.Some? {
      OneFires(Listener(e.indicate.value, Indicating), h, v, s.mtu, s.waiting);
      assert e.listeners == [Listener(e.indicate.value, Indicating)];
    }
    ErrorBytes(OP_WRITE_REQ, h, ECODE_WRITE_NOT_PERM);
  }

  /** Enabling a kind on an attribute without listeners: it is named in its field, and the value is sent at once. */
  lemma EnablePushes(s: Server, h: u16)
    requires h in s.table && EmitterOf(s, h) == Emitter([], None, None)
    ensures var n, v := s.nextId, s.table[h].value;
            && Do(s, EnableNotify(h)) ==
               (s.(emitters := s.emitters[h := Emitter([Listener(n, Notifying)], Some(n), None)], nextId := n + 1),
                [Push(0x1B, h, v, s.mtu)])
            && Do(s, EnableIndicate(h)) ==
               (s.(emitters := s.emitters[h := Emitter([Listener(n, Indicating)], None, Some(n))], nextId := n + 1,
                   waiting := true),
                if s.waiting then [] else [Push(0x1D, h, v, s.mtu)])
  {
    var n, v := s.nextId, s.table[h].value;
    OneFires(Listener(n, Notifying), h, v, s.mtu, s.waiting);
    OneFires(Listener(n, Indicating), h, v, s.mtu, s.waiting);
    assert [] + [Listener(n, Notifying)] == [Listener(n, Notifying)];
    assert [] + [Listener(n, Indicating)] == [Listener(n, Indicating)];
  }

  /** The other kind is refused while one is enabled; disabling what is enabled leaves no listener. */
  lemma DisableStops(s: Server, h: u16)
    requires h in s.table && Clean(EmitterOf(s, h))
    ensures var e := EmitterOf(s, h);
            var off := s.(emitters := s.emitters[h := Emitter([], None, None)]);
            && (e.indicate.Some? ==> Do(s, EnableNotify(h)) == (s, []) && Do(s, DisableIndicate(h)) == (off, []))
            && (e.notify.Some? ==> Do(s, EnableIndicate(h)) == (s, []) && Do(s, DisableNotify(h)) == (off, []))
  {
    var e := EmitterOf(s, h);
    if e.listeners != [] {
      assert e.listeners == [e.listeners[0]] && e.listeners[1..] == [];
      FilterNone((l: Listener) => l.id != e.listeners[0].id, e.listeners);
    }
  }

  // ---- Listeners ----

  /** Some listener is named by neither field: no later disable removes it. */
  predicate Leaky(e: Emitter) {
    exists l :: l in e.listeners && e.notify != Some(l.id) && e.indicate != Some(l.id)
  }

  /** Listener numbers are handed out in order. */
  predicate Numbered(e: Emitter, next: nat) {
    && (forall l :: l in e.listeners ==> l.id < next)
    && (e.notify.Some? ==> e.notify.value < next) && (e.indicate.Some? ==> e.indicate.value < next)
  }

  /** An enable of the kind that is already enabled: the field is overwritten, its old listener stays. */
  predicate EnabledAgain(s: Server, i: Input, h: u16) {
    h in s.table && i.Locally? &&
    ((i.action == EnableNotify(h) && EmitterOf(s, h).notify.Some?) ||
     (i.action == EnableIndicate(h) && EmitterOf(s, h).indicate.Some?))
  }

  predicate EverEnabledAgain(s: Server, ins: seq<Input>, h: u16)
    decreases |ins|
  {
    ins != [] && (EnabledAgain(s, ins[0], h) || EverEnabledAgain(Next(s, ins[0]).0, ins[1..], h))
  }

  lemma ReceiveKeepsEmitters(s: Server, pdu: Pdu)
    ensures var s' := Receive(s, pdu).0;
            s'.emitters == s.emitters && s'.nextId == s.nextId && s'.table.Keys == s.table.Keys
  {
    hide Fire, HandleList, HasProp;
  }

  lemma AddedKeeps(e: Emitter, l: Listener)
    requires !Blocked(e, l.kind) && Numbered(e, l.id)
    ensures Numbered(Added(e, l), l.id + 1)
    ensures Exclusive(e) ==> Exclusive(Added(e, l))
    ensures Leaky(e) ==> Leaky(Added(e, l))
    ensures Clean(e) ==> if (if l.kind == Notifying then e.notify else e.indicate).None? then Clean(Added(e, l))
                         else Leaky(Added(e, l))
  {
    if Leaky(e) {
      var x :| x in e.listeners && e.notify != Some(x.id) && e.indicate != Some(x.id);
      assert x in Added(e, l).listeners;
    }
    if Clean(e) && (if l.kind == Notifying then e.notify else e.indicate).Some? {
      assert e.listeners[0] in Added(e, l).listeners;
    }
  }

  lemma RemovedKeeps(e: Emitter, k: Kind, next: nat)
    requires Numbered(e, next)
    ensures Numbered(Removed(e, k), next)
    ensures Exclusive(e) ==> Exclusive(Removed(e, k))
    ensures Leaky(e) ==> Leaky(Removed(e, k))
    ensures Clean(e) ==> Clean(Removed(e, k))
  {
    if Leaky(e) {
      var x :| x in e.listeners && e.notify != Some(x.id) && e.indicate != Some(x.id);
      assert x in Removed(e, k).listeners;
    }
    if Clean(e) && Removed(e, k) != e {
      assert e.listeners == [e.listeners[0]] && e.listeners[1..] == [];
      FilterNone((l: Listener) => l.id != e.listeners[0].id, e.listeners);
    }
  }

  lemma CleanIsNotLeaky(e: Emitter)
    ensures !(Clean(e) && Leaky(e))
  {
  }

  /** What one step may do to the listeners of an attribute. */
  predicate ListenersKept(s: Server, s': Server, h: u16, again: bool) {
    var e, e' := EmitterOf(s, h), EmitterOf(s', h);
    && Numbered(e', s'.nextId) && s'.table.Keys == s.table.Keys
    && (Exclusive(e) ==> Exclusive(e')) && (Leaky(e) ==> Leaky(e'))
    && (Clean(e) ==> if again then Leaky(e') else Clean(e'))
  }

  lemma EnableKeepsListeners(s: Server, k: Kind, g: u16, h: u16)
    requires Numbered(EmitterOf(s, h), s.nextId) && g in s.table
    ensures var e := EmitterOf(s, h);
            ListenersKept(s, Enable(s, g, k).0, h, g == h && (if k == Notifying then e.notify else e.indicate).Some?)
  {
    hide Fire, Added, Exclusive, Clean, Leaky;
    var e := EmitterOf(s, h);
    if g == h {
      if Blocked(e, k) {
        CleanIsExclusive(e);
      } else {
        AddedKeeps(e, Listener(s.nextId, k));
      }
    }
  }

  lemma CleanIsExclusive(e: Emitter)
    ensures Clean(e) ==> e.notify.None? || e.indicate.None?
  {
  }

  lemma StepKeepsListeners(s: Server, i: Input, h: u16)
    requires Numbered(EmitterOf(s, h), s.nextId)
    ensures ListenersKept(s, Next(s, i).0, h, EnabledAgain(s, i, h))
  {
    hide Fire, Receive, Enable, Removed, Exclusive, Clean, Leaky;
    match i
    case FromCentral(pdu) => ReceiveKeepsEmitters(s, pdu);
    case Locally(l) =>
      if l.h in s.table {
        match l
        case EnableNotify(g) => EnableKeepsListeners(s, Notifying, g, h);
        case EnableIndicate(g) => EnableKeepsListeners(s, Indicating, g, h);
        case _ =>
          RemovedKeeps(EmitterOf(s, h), Notifying, s.nextId);
          RemovedKeeps(EmitterOf(s, h), Indicating, s.nextId);
      }
  }

  /** Over any run no attribute has both listener fields set. */
  lemma {:induction false} NeverBothEnabled(s: Server, ins: seq<Input>, h: u16)
    requires Exclusive(EmitterOf(s, h)) && Numbered(EmitterOf(s, h), s.nextId)
    ensures Exclusive(EmitterOf(Run(s, ins).0, h))
    decreases |ins|
  {
    if ins != [] {
      StepKeepsListeners(s, ins[0], h);
      NeverBothEnabled(Next(s, ins[0]).0, ins[1..], h);
    }
  }

  lemma {:induction false} LeaksStay(s: Server, ins: seq<Input>, h: u16)
    requires Leaky(EmitterOf(s, h)) && Numbered(EmitterOf(s, h), s.nextId)
    ensures Leaky(EmitterOf(Run(s, ins).0, h))
    decreases |ins|
  {
    hide Leaky;
    if ins != [] {
      StepKeepsListeners(s, ins[0], h);
      LeaksStay(Next(s, ins[0]).0, ins[1..], h);
    }
  }

  /**
   * But the fields are not the listeners. Over any run an attribute keeps no listener beyond the one its fields
   * name, and so never both kinds, if and only if no enable ever found its own kind already enabled.
   */
  lemma {:induction false} CleanIff(s: Server, ins: seq<Input>, h: u16)
    requires Clean(EmitterOf(s, h)) && Numbered(EmitterOf(s, h), s.nextId)
    ensures Clean(EmitterOf(Run(s, ins).0, h)) <==> !EverEnabledAgain(s, ins, h)
    decreases |ins|
  {
    hide Clean, Leaky, EnabledAgain;
    if ins != [] {
      StepKeepsListeners(s, ins[0], h);
      var s1 := Next(s, ins[0]).0;
      if EnabledAgain(s, ins[0], h) {
        LeaksStay(s1, ins[1..], h);
        CleanIsNotLeaky(EmitterOf(Run(s1, ins[1..]).0, h));
      } else {
        CleanIff(s1, ins[1..], h);
      }
    }
  }

  lemma WithoutSecond(a: Listener, b: Listener)
    requires a.id != b.id
    ensures Without([a, b], b.id) == [a]
  {
    var keep := (l: Listener) => l.id != b.id;
    assert [a, b] == [a] + [b] && [a][1..] == [] && [b][1..] == [];
    FilterConcat(keep, [a], [b]);
  }

  /** An attribute whose notifications were enabled twice, then disabled, then its indications enabled. */
  function Tangled(s: Server, h: u16): Server
    requires h in s.table
  {
    Enable(Disable(Enable(Enable(s, h, Notifying).0, h, Notifying).0, h, Notifying), h, Indicating).0
  }

  /** It is left with a notifying and an indicating listener: one change of value sends both kinds. */
  lemma BothKindsFire(s: Server, h: u16, v: seq<byte>)
    requires h in s.table && EmitterOf(s, h) == SILENT
    ensures var s' := Tangled(s, h).(waiting := false);
            SetValue(s', h, v).1 == [ValuePdu(OP_HANDLE_NOTIFY, h, v, s.mtu), ValuePdu(OP_HANDLE_IND, h, v, s.mtu)]
  {
    var n := s.nextId;
    var l0, l1, l2 := Listener(n, Notifying), Listener(n + 1, Notifying), Listener(n + 2, Indicating);
    var twice := Enable(Enable(s, h, Notifying).0, h, Notifying).0;
    assert EmitterOf(twice, h) == Emitter([l0, l1], Some(n + 1), None);
    var off := Disable(twice, h, Notifying);
    WithoutSecond(l0, l1);
    assert EmitterOf(off, h) == Emitter([l0], None, None);
    assert EmitterOf(Tangled(s, h), h) == Emitter([l0, l2], None, Some(n + 2));
    assert [l0, l2][1..] == [l2] && [l2][1..] == [];
    var pdu := ValuePdu(OP_HANDLE_IND, h, v, s.mtu);
    assert Fire([l2], h, v, s.mtu, false) == ([pdu] + [], true);
  }
}
