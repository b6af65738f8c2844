/** The packets byte by byte, with the numbers of Vol 3 Part F section 3.4. */
module Wire {
  import opened Bytes
  import opened AttTypes
  import opened Packing
  import opened Requests
  import opened Responses
  import opened ServerModel

  function Low(v: u16): byte {
    v % 0x100
  }

  function High(v: u16): byte {
    v / 0x100
  }

  /** Error Response: the opcode that failed, its handle, the reason. */
  lemma ErrorBytes(op: byte, h: u16, code: byte)
    ensures ErrorPdu(op, h, code) == [0x01, op, Low(h), High(h), code]
  {
  }

  /** Notification and indication: the handle, and as much of the value as fits. */
  lemma PushBytes(h: u16, v: seq<byte>, mtu: Mtu)
    ensures var part := if |v| + 3 <= mtu then v else v[..mtu - 3];
            && ValuePdu(OP_HANDLE_NOTIFY, h, v, mtu) == [0x1B, Low(h), High(h)] + part
            && ValuePdu(OP_HANDLE_IND, h, v, mtu) == [0x1D, Low(h), High(h)] + part
  {
    assert v[..|v|] == v;
  }

  function RequestNumber(p: Procedure): byte {
    match p
    case FindInfo => 0x04
    case FindByType => 0x06
    case ReadByType => 0x08
    case ReadByGroup => 0x10
  }

  /** A search request: the range, then the type, low byte first, then the value. */
  lemma SearchBytes(a: Ask, s: u16, e: u16, buf: seq<byte>)
    requires Settled(a) && |buf| == LE_BUFFER
    ensures RequestPdu(a, s, e, buf) ==
            Some([RequestNumber(a.proc), Low(s), High(s), Low(e), High(e)]
                 + (match a.kind
                    case Some(U16(v)) => [Low(v), High(v)]
                    case Some(U32(q)) => q
                    case Some(U128(l)) => l
                    case _ => [])
                 + if a.value.Some? then a.value.value else [])
  {
    hide EncodeRange;
    EncodedFields(a, s, e, buf);
    assert [RequestOp(a.proc)] + Put16(s) + Put16(e) == [RequestNumber(a.proc), Low(s), High(s), Low(e), High(e)];
  }

  /** An entry of a list response: its handle, then what the procedure tells of the attribute. */
  lemma EntryOnAir(e: Entry)
    ensures EntryBytes(e) ==
            [Low(e.handle), High(e.handle)] +
            match e
            case Info(_, Uuid16(v)) => [Low(v), High(v)]
            case Info(_, Uuid128(l)) => l
            case Range(_, g) => [Low(g), High(g)]
            case Data(_, v) => v
            case Group(_, g, v) => [Low(g), High(g)] + v
  {
  }

  /** A list response: its opcode, the format or the size of an entry where the procedure has one, the entries. */
  lemma ListBytes(p: Procedure, stop: GroupStop, es: seq<Entry>, mtu: nat)
    requires es != [] && EntryFor(p, es[0])
    ensures Response(p, stop, es, mtu) ==
            (match es[0]
             case Info(_, k) => [0x05, if k.Uuid16? then 0x01 else 0x02]
             case Range(_, _) => [0x07]
             case Data(_, v) => [0x09, (2 + |v|) % 0x100]
             case Group(_, _, v) => [0x11, (4 + |v|) % 0x100])
            + Concat(Taken(p, stop, es, mtu))
  {
    hide Taken;
    assert [ResponseOp(p)] + Header(p, es[0]) ==
           match es[0]
           case Info(_, k) => [0x05, if k.Uuid16? then 0x01 else 0x02]
           case Range(_, _) => [0x07]
           case Data(_, v) => [0x09, (2 + |v|) % 0x100]
           case Group(_, _, v) => [0x11, (4 + |v|) % 0x100];
  }
}
