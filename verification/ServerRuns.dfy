/** What holds over every run of the server, whatever the central sends and the application does. */
module ServerRuns {
  import opened Bytes
  import opened AttTypes
  import opened Packing
  import opened Search
  import opened Requests
  import opened Responses
  import opened ServerModel
  import opened Wire

  datatype Input = FromCentral(pdu: Pdu) | Locally(action: Local)

  function Next(s: Server, i: Input): (Server, seq<Pdu>) {
    match i
    case FromCentral(pdu) => Receive(s, pdu)
    case Locally(l) => Do(s, l)
  }

  function Run(s: Server, ins: seq<Input>): (Server, seq<Pdu>)
    decreases |ins|
  {
    if ins == [] then (s, [])
    else
      var (s1, out) := Next(s, ins[0]);
      var (s2, rest) := Run(s1, ins[1..]);
      (s2, out + rest)
  }

  // ---- MTU negotiation ----

  /** The MTUs that the central asks for, in order; an MTU request without two bytes throws and counts for nothing. */
  function Asked(ins: seq<Input>): seq<u16> {
    if ins == [] then []
    else
      (if ins[0].FromCentral? && |ins[0].pdu| >= 3 && ins[0].pdu[0] == OP_MTU_REQ then [Get16(ins[0].pdu[1..], 0)]
       else [])
      + Asked(ins[1..])
  }

  function Least(m: nat, rs: seq<u16>): nat {
    if rs == [] then m else Least(Min(m, rs[0]), rs[1..])
  }

  function AtLeastDefault(m: nat): nat {
    if m < DEFAULT_MTU then DEFAULT_MTU else m
  }

  lemma {:induction false} FloorPassesThrough(m: nat, rs: seq<u16>)
    ensures AtLeastDefault(Least(AtLeastDefault(m), rs)) == AtLeastDefault(Least(m, rs))
    decreases |rs|
  {
    if rs != [] {
      FloorPassesThrough(Min(AtLeastDefault(m), rs[0]), rs[1..]);
      FloorPassesThrough(Min(m, rs[0]), rs[1..]);
    }
  }

  lemma {:induction false} LeastNeverRises(m: nat, rs: seq<u16>)
    ensures Least(m, rs) <= m && forall r :: r in rs ==> Least(m, rs) <= r
    ensures Least(m, rs) == m || Least(m, rs) in rs
    decreases |rs|
  {
    if rs != [] {
      LeastNeverRises(Min(m, rs[0]), rs[1..]);
      assert rs == [rs[0]] + rs[1..];
    }
  }

  lemma OneStepMtu(s: Server, i: Input)
    ensures var s' := Next(s, i).0; var rs := Asked([i]);
            s'.stored == AtLeastDefault(Least(s.stored, rs)) && s'.mtu == if rs == [] then s.mtu else s'.stored
  {
    hide ListReply, ReadFields, Fire;
    assert [i][1..] == [];
    if i.FromCentral? && i.pdu != [] {
      var data := i.pdu[1..];
      assert |data| == |i.pdu| - 1;
    }
  }

  /**
   * MTU negotiation over any run is one fold: the stored MTU is the least of its first value and everything
   * asked for, but never below 23. mtuSize follows it from the first request on and stays put until then.
   */
  lemma {:induction false} MtuIsFold(s: Server, ins: seq<Input>)
    ensures var s' := Run(s, ins).0; var rs := Asked(ins);
            s'.stored == AtLeastDefault(Least(s.stored, rs)) && s'.mtu == if rs == [] then s.mtu else s'.stored
    decreases |ins|
  {
    if ins != [] {
      var s1 := Next(s, ins[0]).0;
      OneStepMtu(s, ins[0]);
      MtuIsFold(s1, ins[1..]);
      var first, rest := Asked([ins[0]]), Asked(ins[1..]);
      assert [ins[0]][1..] == [] && Asked(ins) == first + rest;
      FloorPassesThrough(Least(s.stored, first), rest);
      if first != [] {
        assert (first + rest)[0] == first[0] && (first + rest)[1..] == rest && first[1..] == [];
      } else {
        assert first + rest == rest;
      }
    }
  }

  /**
   * The module's mtuSize and the central's MTU agree after a run exactly when they did before it, or one was asked
   * for.
   */
  lemma MtusAgreeIff(s: Server, ins: seq<Input>)
    ensures var s' := Run(s, ins).0; s'.mtu == s'.stored <==> s.mtu == s.stored || Asked(ins) != []
  {
    MtuIsFold(s, ins);
  }

  /** A request for an MTU is answered with the MTU as the requests before it have left it; its own comes after. */
  lemma MtuReplies(s: Server, ins: seq<Input>, asked: u16)
    ensures var (s', _) := Run(s, ins); var agreed := AtLeastDefault(Least(s.stored, Asked(ins)));
            var (s'', out) := Receive(s', [0x02, asked % 0x100, asked / 0x100]);
            && agreed < 0x1_0000 && out == [[0x03, agreed % 0x100, agreed / 0x100]]
            && s''.mtu == s''.stored == AtLeastDefault(Min(agreed, asked))
  {
    hide Run, Asked, Least;
    MtuIsFold(s, ins);
    var data := [0x02, asked % 0x100, asked / 0x100][1..];
    assert data == [asked % 0x100, asked / 0x100];
    assert Get16(data, 0) == asked;
    var stored := Run(s, ins).0.stored;
    assert [OP_MTU_RESP] + Put16(stored) == [0x03, (stored as int) % 0x100, (stored as int) / 0x100];
  }

  // ---- Values: who may change them, and what a read returns ----

  /** A flag of the properties byte, as the bitwise test of lib/att.js:446-447 reads it. */
  predicate Flag(props: byte, bit: bv8) {
    (props as bv8) & bit != 0
  }

  const WRITE_FLAG: bv8 := 0x08
  const WRITE_WITHOUT_RESP_FLAG: bv8 := 0x04

  /** The arithmetic test of the server is the bitwise one. */
  lemma PropertyIsFlag(props: byte)
    ensures HasProp(props, PROP_WRITE) <==> Flag(props, WRITE_FLAG)
    ensures HasProp(props, PROP_WRITE_WITHOUT_RESP) <==> Flag(props, WRITE_WITHOUT_RESP_FLAG)
  {
  }

  /** What an input stores under h, given the attribute's properties. */
  function Stores(props: byte, h: u16, i: Input): Option<seq<byte>> {
    match i
    case Locally(l) => if l.SetLocal? && l.h == h then Some(l.value) else None
    case FromCentral(pdu) =>
      if |pdu| >= 3 && Get16(pdu, 1) == h &&
         ((pdu[0] == 0x12 && Flag(props, WRITE_FLAG)) || (pdu[0] == 0x52 && Flag(props, WRITE_WITHOUT_RESP_FLAG)))
      then Some(pdu[3..]) else None
  }

  /** The last value stored in a run. */
  function LastStored(props: byte, h: u16, v: seq<byte>, ins: seq<Input>): seq<byte>
    decreases |ins|
  {
    if ins == [] then v
    else LastStored(props, h, if Stores(props, h, ins[0]).Some? then Stores(props, h, ins[0]).value else v, ins[1..])
  }

  lemma WriteStores(s: Server, pdu: Pdu, h: u16)
    requires h in s.table && |pdu| >= 3 && (pdu[0] == OP_WRITE_REQ || pdu[0] == OP_WRITE_CMD)
    ensures var t := Receive(s, pdu).0.table; var stored := Stores(s.table[h].props, h, FromCentral(pdu));
            t.Keys == s.table.Keys && t[h] == if stored.Some? then s.table[h].(value := stored.value) else s.table[h]
  {
    hide Fire, Flag, HasProp;
    PropertyIsFlag(s.table[h].props);
    assert pdu[1..][2..] == pdu[3..];
    assert Receive(s, pdu) == DoWrite(s, Get16(pdu, 1), pdu[3..], pdu[0] == OP_WRITE_REQ);
  }

  lemma StepStores(s: Server, i: Input, h: u16)
    requires h in s.table
    ensures var t := Next(s, i).0.table; var stored := Stores(s.table[h].props, h, i);
            t.Keys == s.table.Keys && t[h] == if stored.Some? then s.table[h].(value := stored.value) else s.table[h]
  {
    hide Fire, ListReply, ReadFields, HasProp, Flag;
    match i
    case Locally(_) =>
    case FromCentral(pdu) =>
      if |pdu| >= 3 && (pdu[0] == OP_WRITE_REQ || pdu[0] == OP_WRITE_CMD) {
        WriteStores(s, pdu, h);
      } else {
        assert pdu != [] ==> |pdu[1..]| == |pdu| - 1;
      }
  }

  /**
   * Over any run no attribute appears, disappears, or changes its type, end handle or properties, and its
   * value is the last one stored by a Write Request with WRITE, a Write Command with WRITE_WITHOUT_RESP, or locally.
   */
  lemma {:induction false} OnlyStoredValuesChange(s: Server, ins: seq<Input>, h: u16)
    requires h in s.table
    ensures var t := Run(s, ins).0.table;
            t.Keys == s.table.Keys &&
            t[h] == s.table[h].(value := LastStored(s.table[h].props, h, s.table[h].value, ins))
    decreases |ins|
  {
    if ins != [] {
      StepStores(s, ins[0], h);
      OnlyStoredValuesChange(Next(s, ins[0]).0, ins[1..], h);
    }
  }

  /**
   * After any run a Read Request returns the longest prefix of the last stored value that the negotiated MTU
   * allows.
   */
  lemma ReadReturnsLastStored(s: Server, ins: seq<Input>, h: u16)
    requires h in s.table
    ensures var (s', _) := Run(s, ins);
            var v := LastStored(s.table[h].props, h, s.table[h].value, ins);
            var mtu := if Asked(ins) == [] then s.mtu else AtLeastDefault(Least(s.stored, Asked(ins)));
            Receive(s', [OP_READ_REQ] + Put16(h)) == (s', [[OP_READ_RESP] + v[..Min(|v|, mtu - 1)]])
  {
    hide Run, Asked, Least, LastStored;
    OnlyStoredValuesChange(s, ins, h);
    MtuIsFold(s, ins);
    var pdu := [OP_READ_REQ] + Put16(h);
    assert pdu[1..] == Put16(h);
    Field16RoundTrip([], h, [], [0, 0], 0);
    assert [] + Put16(h) + [] == Put16(h);
  }

  // ---- Replies ----

  predicate IsPush(p: Pdu) {
    p != [] && (p[0] == OP_HANDLE_NOTIFY || p[0] == OP_HANDLE_IND)
  }

  predicate IsReply(p: Pdu) {
    !IsPush(p)
  }

  function Replies(out: seq<Pdu>): seq<Pdu> {
    Filter(IsReply, out)
  }

  const REQUEST_OPS: set<byte> := {OP_MTU_REQ, OP_FIND_INFO_REQ, OP_FIND_BY_TYPE_REQ, OP_READ_BY_TYPE_REQ,
                                   OP_READ_REQ, OP_READ_BY_GROUP_REQ, OP_WRITE_REQ}

  /** The bytes that a handler reads unconditionally; with fewer it throws. */
  function Needs(op: byte): nat {
    if op == OP_FIND_INFO_REQ || op == OP_READ_BY_GROUP_REQ then 4
    else if op == OP_FIND_BY_TYPE_REQ || op == OP_READ_BY_TYPE_REQ then 6
    else 2
  }

  /** The response of a request has the next opcode; an error names the request. */
  predicate Answers(op: byte, p: Pdu) {
    p != [] && (p[0] == op + 1 || (|p| == 5 && p[0] == OP_ERROR && p[1] == op))
  }

  lemma SingleReply(p: Pdu)
    requires IsReply(p)
    ensures Replies([p]) == [p]
  {
    assert [p][1..] == [] && Replies([]) == [] && [p] + [] == [p];
  }

  lemma {:induction false} FiredArePushes(ls: seq<Listener>, h: u16, v: seq<byte>, mtu: Mtu, waiting: bool)
    ensures Replies(Fire(ls, h, v, mtu, waiting).0) == []
  {
    if ls != [] {
      FiredArePushes(ls[1..], h, v, mtu, true);
      FiredArePushes(ls[1..], h, v, mtu, waiting);
      var pdu := ValuePdu(if ls[0].kind == Notifying then OP_HANDLE_NOTIFY else OP_HANDLE_IND, h, v, mtu);
      var out := Fire(ls[1..], h, v, mtu, waiting || ls[0].kind == Indicating).0;
      assert ([pdu] + out)[1..] == out && IsPush(pdu);
    }
  }

  lemma WriteIsAnswered(s: Server, h: u16, v: seq<byte>)
    ensures var replies := Replies(DoWrite(s, h, v, true).1); |replies| == 1 && Answers(OP_WRITE_REQ, replies[0])
  {
    hide Fire, HasProp;
    if h in s.table && MayWrite(s.table[h], true) {
      var out := SetValue(s, h, v).1;
      FiredArePushes(EmitterOf(s, h).listeners, h, v, s.mtu, s.waiting);
      FilterConcat(IsReply, out, [[OP_WRITE_RESP]]);
      SingleReply([OP_WRITE_RESP]);
    } else {
      SingleReply(DoWrite(s, h, v, true).1[0]);
    }
  }

  lemma ListIsAnswered(s: Server, p: Procedure, data: seq<byte>)
    ensures var replies := Replies(HandleList(s, p, data));
            if ReadFields(p, data).Some? then |replies| == 1 && Answers(RequestOp(p), replies[0]) else replies == []
  {
    hide Hits, Concat, Packed;
    if ReadFields(p, data).Some? {
      SingleReply(ListReply(s.table, s.reading, s.mtu, ReadFields(p, data).value));
    }
  }

  /**
   * Every request with an implemented handler gets exactly one reply, its response or an error that names
   * it, if its fields are all there, and none otherwise. Notifications and indications come on top.
   */
  lemma RequestIsAnsweredOnceIff(s: Server, pdu: Pdu)
    requires pdu != [] && pdu[0] in REQUEST_OPS
    ensures var replies := Replies(Receive(s, pdu).1);
            if |pdu| - 1 >= Needs(pdu[0]) then |replies| == 1 && Answers(pdu[0], replies[0]) else replies == []
  {
    hide ListReply, Fire, DoWrite, Filter;
    var op, data := pdu[0], pdu[1..];
    NoReplies();
    if op == OP_WRITE_REQ {
      if |data| >= 2 {
        WriteIsAnswered(s, Get16(data, 0), data[2..]);
      }
    } else if op == OP_READ_REQ || op == OP_MTU_REQ {
      var out := Receive(s, pdu).1;
      if |data| >= 2 {
        SingleReply(out[0]);
      }
    } else {
      ListIsAnswered(s, if op == OP_FIND_INFO_REQ then FindInfo else if op == OP_FIND_BY_TYPE_REQ then FindByType
                        else if op == OP_READ_BY_TYPE_REQ then ReadByType else ReadByGroup, data);
    }
  }

  lemma NoReplies()
    ensures Replies([]) == []
  {
  }

  /**
   * A write is answered for what it is: the missing handle, the missing property, or success, which a command
   * passes over in silence. Refused commands, too, get an error, in the name of a Write Request. The value changes
   * exactly when nothing is refused.
   */
  lemma WriteReplies(s: Server, h: u16, v: seq<byte>, respond: bool)
    ensures var (s', out) := Receive(s, [if respond then 0x12 else 0x52, h % 0x100, h / 0x100] + v);
            var permitted := h in s.table &&
                             Flag(s.table[h].props, if respond then WRITE_FLAG else WRITE_WITHOUT_RESP_FLAG);
            && s'.table == (if permitted then s.table[h := s.table[h].(value := v)] else s.table)
            && Replies(out) ==
               if h !in s.table then [[0x01, 0x12, h % 0x100, h / 0x100, 0x01]]
               else if !permitted then [[0x01, 0x12, h % 0x100, h / 0x100, 0x03]]
               else if respond then [[0x13]]
               else []
  {
    hide Fire, HasProp, Filter, Flag;
    if h in s.table {
      PropertyIsFlag(s.table[h].props);
    }
    var pdu := [if respond then OP_WRITE_REQ else OP_WRITE_CMD] + Put16(h) + v;
    assert pdu[1..] == Put16(h) + v && pdu[1..][2..] == v;
    Field16RoundTrip([], h, v, [0, 0], 0);
    assert [] + Put16(h) + v == Put16(h) + v;
    assert Receive(s, pdu) == DoWrite(s, h, v, respond);
    assert pdu == [if respond then 0x12 else 0x52, h % 0x100, h / 0x100] + v;
    NoReplies();
    if h in s.table && MayWrite(s.table[h], respond) {
      var out, ack := SetValue(s, h, v).1, if respond then [[OP_WRITE_RESP]] else [];
      FiredArePushes(EmitterOf(s, h).listeners, h, v, s.mtu, s.waiting);
      FilterConcat(IsReply, out, ack);
      SingleReply([OP_WRITE_RESP]);
    } else {
      ErrorBytes(OP_WRITE_REQ, h, ECODE_INVALID_HANDLE);
      ErrorBytes(OP_WRITE_REQ, h, ECODE_WRITE_NOT_PERM);
      SingleReply(DoWrite(s, h, v, respond).1[0]);
    }
  }

  /** The opcodes that createHandler has a handler for (lib/att.js:499-513). */
  const HANDLED: set<byte> := {0x01, 0x02, 0x04, 0x06, 0x08, 0x0A, 0x0C, 0x0E, 0x10, 0x12, 0x52, 0x1E}

  /**
   * What else arrives: an opcode without a handler, or none at all, is refused in its own name, a confirmation only
   * ends the wait, an error and the two handlers that are not written send nothing; of these only the confirmation
   * changes anything.
   */
  lemma OtherPackets(s: Server, pdu: Pdu)
    ensures pdu == [] ==> Receive(s, pdu) == (s, [[0x01, 0, 0, 0, 0x06]])
    ensures pdu != [] ==>
            var op := pdu[0];
            && (op !in HANDLED ==> Receive(s, pdu) == (s, [[0x01, op, 0, 0, 0x06]]))
            && (op == 0x1E ==> Receive(s, pdu) == (s.(waiting := false), []))
            && (op in {0x01, 0x0C, 0x0E} ==> Receive(s, pdu) == (s, []))
  {
    hide HandleList, HandleMtu, HandleReadRequest, DoWrite;
    ErrorBytes(if pdu == [] then 0 else pdu[0], 0, ECODE_REQ_NOT_SUPP);
  }

  // ---- Packet sizes ----

  predicate Within(out: seq<Pdu>, mtu: nat) {
    forall p :: p in out ==> |p| <= mtu
  }

  lemma {:induction false} FiredFit(ls: seq<Listener>, h: u16, v: seq<byte>, mtu: Mtu, waiting: bool)
    ensures Within(Fire(ls, h, v, mtu, waiting).0, mtu)
  {
    if ls != [] {
      FiredFit(ls[1..], h, v, mtu, true);
      FiredFit(ls[1..], h, v, mtu, waiting);
    }
  }

  lemma ListReplyFits(t: Table, r: Reading, mtu: Mtu, f: Fields)
    ensures |ListReply(t, r, mtu, f)| <= mtu
  {
    hide Packed, Concat, Taken;
    var hits := Hits(t, f.query, f.start, Limit(r.bound, f.end));
    if hits != [] {
      ResponseFits(f.query.proc, r.stop, hits, mtu);
    }
  }

  lemma StepFits(s: Server, i: Input)
    ensures Within(Next(s, i).1, s.mtu)
  {
    hide Fire, ListReply, ReadFields, HasProp, Added, Removed;
    match i
    case Locally(l) =>
      if l.h in s.table {
        var v := if l.SetLocal? then l.value else s.table[l.h].value;
        FiredFit(EmitterOf(s, l.h).listeners, l.h, v, s.mtu, s.waiting);
        FiredFit([Listener(s.nextId, Notifying)], l.h, s.table[l.h].value, s.mtu, s.waiting);
        FiredFit([Listener(s.nextId, Indicating)], l.h, s.table[l.h].value, s.mtu, s.waiting);
      }
    case FromCentral(pdu) =>
      if pdu != [] {
        var data := pdu[1..];
        if |data| >= 2 {
          var h, v := Get16(data, 0), data[2..];
          FiredFit(EmitterOf(s, h).listeners, h, v, s.mtu, s.waiting);
        }
        ListRepliesFit(s, data);
      }
  }

  lemma ListRepliesFit(s: Server, data: seq<byte>)
    ensures forall p: Procedure :: Within(HandleList(s, p, data), s.mtu)
  {
    forall p: Procedure
      ensures Within(HandleList(s, p, data), s.mtu)
    {
      if ReadFields(p, data).Some? {
        ListReplyFits(s.table, s.reading, s.mtu, ReadFields(p, data).value);
      }
    }
  }

  /** No packet of a run is longer than the larger of the two MTUs it started with: negotiation never raises them. */
  lemma {:induction false} RunFits(s: Server, ins: seq<Input>, bound: nat)
    requires s.mtu <= bound && s.stored <= bound
    ensures Within(Run(s, ins).1, bound)
    decreases |ins|
  {
    hide Next, Asked;
    if ins != [] {
      StepFits(s, ins[0]);
      OneStepMtu(s, ins[0]);
      LeastNeverRises(s.stored, Asked([ins[0]]));
      RunFits(Next(s, ins[0]).0, ins[1..], bound);
    }
  }
}
