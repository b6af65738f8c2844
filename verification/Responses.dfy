/** The four list responses: what lib/att.js writes and what the parsers of src/att.cc read back. */
module Responses {
  import opened Bytes
  import opened AttTypes
  import opened Packing

  /** How a parser cuts the body of a response into entries. */
  datatype Shape = Infos16 | Infos128 | Ranges | Datas(size: byte) | Groups(size: byte)

  function ChunkSize(s: Shape): nat {
    match s
    case Infos16 => 4
    case Infos128 => 18
    case Ranges => 4
    case Datas(n) => n
    case Groups(n) => n
  }

  /** A length byte too small for the fixed fields makes the parser copy a negative number of bytes. */
  predicate ShapeOk(s: Shape) {
    (s.Datas? ==> s.size >= 2) && (s.Groups? ==> s.size >= 4)
  }

  function ShapeOf(e: Entry): (s: Option<Shape>)
    ensures s.Some? ==> ShapeOk(s.value) && Size(e) == ChunkSize(s.value)
  {
    match e
    case Info(_, k) => Some(if k.Uuid16? then Infos16 else Infos128)
    case Range(_, _) => Some(Ranges)
    case Data(_, v) => if |v| + 2 < 0x100 then Some(Datas(|v| + 2)) else None
    case Group(_, _, v) => if |v| + 4 < 0x100 then Some(Groups(|v| + 4)) else None
  }

  function ReadEntry(s: Shape, b: seq<byte>): (e: Entry)
    requires ShapeOk(s) && |b| == ChunkSize(s)
  {
    match s
    case Infos16 => Info(Get16(b, 0), Uuid16(Get16(b, 2)))
    case Infos128 => Info(Get16(b, 0), Uuid128(b[2..]))
    case Ranges => Range(Get16(b, 0), Get16(b, 2))
    case Datas(_) => Data(Get16(b, 0), b[2..])
    case Groups(_) => Group(Get16(b, 0), Get16(b, 2), b[4..])
  }

  /** The parse loops; None when the loop would read past the received bytes. */
  function ReadEntries(s: Shape, b: seq<byte>): Option<seq<Entry>>
    decreases |b|
  {
    if b == [] then Some([])
    else if !ShapeOk(s) || ChunkSize(s) > |b| then None
    else
      assert ChunkSize(s) > 0;
      match ReadEntries(s, b[ChunkSize(s)..])
      case None => None
      case Some(rest) => Some([ReadEntry(s, b[..ChunkSize(s)])] + rest)
  }

  lemma EntryOfBytes(s: Shape, b: seq<byte>)
    requires ShapeOk(s) && |b| == ChunkSize(s)
    ensures ShapeOf(ReadEntry(s, b)) == Some(s) && EntryBytes(ReadEntry(s, b)) == b
  {
    hide Get16, Put16;
    Field16RoundTrip([], 0, [], b, 0);
    if s.Datas? || s.Infos128? {
      assert b[0..2] + b[2..] == b;
    } else {
      Field16RoundTrip([], 0, [], b, 2);
      assert b[0..2] + b[2..4] == b[..4];
      assert b[..4] + b[4..] == b;
    }
  }

  lemma ReadEntryRoundTrip(s: Shape, b: seq<byte>, e: Entry)
    requires ShapeOk(s)
    ensures |b| == ChunkSize(s) ==> ShapeOf(ReadEntry(s, b)) == Some(s) && EntryBytes(ReadEntry(s, b)) == b
    ensures ShapeOf(e) == Some(s) ==> ReadEntry(s, EntryBytes(e)) == e
  {
    if |b| == ChunkSize(s) {
      EntryOfBytes(s, b);
    }
    if ShapeOf(e) == Some(s) {
      var w := EntryBytes(e);
      match e
      case Info(h, Uuid16(v)) => assert w == Put16(h) + Put16(v);
      case Info(h, Uuid128(l)) => assert w[2..] == l;
      case Range(h, g) => assert w == Put16(h) + Put16(g);
      case Data(h, v) => assert w[2..] == v;
      case Group(h, g, v) => assert w[4..] == v;
    }
  }

  /** Reading consumes every byte: the entries, written out again, are the bytes; each has the announced size. */
  lemma {:induction false} ReadConsumesAll(s: Shape, b: seq<byte>)
    ensures var r := ReadEntries(s, b);
            r.Some? ==> Concat(r.value) == b && forall i :: 0 <= i < |r.value| ==> ShapeOf(r.value[i]) == Some(s)
    decreases |b|
  {
    hide ReadEntry, ShapeOf, EntryBytes;
    if b != [] && ReadEntries(s, b).Some? {
      var n := ChunkSize(s);
      ReadConsumesAll(s, b[n..]);
      ReadEntryRoundTrip(s, b[..n], Range(0, 0));
      assert b == b[..n] + b[n..];
    }
  }

  lemma {:induction false} ReadInvertsConcat(s: Shape, es: seq<Entry>)
    requires forall i :: 0 <= i < |es| ==> ShapeOf(es[i]) == Some(s)
    ensures ReadEntries(s, Concat(es)) == Some(es)
  {
    hide ReadEntry, EntryBytes;
    if es != [] {
      ReadInvertsConcat(s, es[1..]);
      ReadEntryRoundTrip(s, [], es[0]);
      var b := Concat(es);
      assert ShapeOf(es[0]) == Some(s);
      assert b[..ChunkSize(s)] == EntryBytes(es[0]) && b[ChunkSize(s)..] == Concat(es[1..]);
      assert es == [es[0]] + es[1..];
    }
  }

  /** What the client makes of a response with its opcode removed. */
  function ParseBody(p: Procedure, b: seq<byte>): Option<seq<Entry>> {
    if p == FindByType then ReadEntries(Ranges, b)
    else if b == [] then None
    else if p == FindInfo then ReadEntries(if b[0] == FMT_16BIT then Infos16 else Infos128, b[1..])
    else if p == ReadByType then ReadEntries(Datas(b[0]), b[1..])
    else ReadEntries(Groups(b[0]), b[1..])
  }

  /** The bytes between the opcode and the first entry, decided by the first match. */
  function Header(p: Procedure, first: Entry): (h: seq<byte>)
    requires EntryFor(p, first)
  {
    match p
    case FindInfo => [if first.kind.Uuid16? then FMT_16BIT else FMT_128BIT]
    case FindByType => []
    case ReadByType => [Size(first) % 0x100]
    case ReadByGroup => [Size(first) % 0x100]
  }

  /** Read By Type asks for four bytes beyond the value although an entry costs two (lib/att.js:367). */
  function Slack(p: Procedure): nat {
    if p == ReadByType then 2 else 0
  }

  /** Does the loop stop at an entry of another size? Read By Group Type does not as written (lib/att.js:429-439). */
  datatype GroupStop = NoStop | SameSize

  function SameRule(p: Procedure, stop: GroupStop, first: Entry): Option<nat> {
    if p == FindByType || (p == ReadByGroup && stop == NoStop) then None else Some(Size(first))
  }

  /** The entries a response carries. */
  function Taken(p: Procedure, stop: GroupStop, es: seq<Entry>, mtu: nat): seq<Entry>
    requires es != [] && EntryFor(p, es[0])
  {
    Packed(es, 1 + |Header(p, es[0])|, Slack(p), mtu, SameRule(p, stop, es[0]))
  }

  function Response(p: Procedure, stop: GroupStop, es: seq<Entry>, mtu: nat): Pdu
    requires es != [] && EntryFor(p, es[0])
  {
    [ResponseOp(p)] + Header(p, es[0]) + Concat(Taken(p, stop, es, mtu))
  }

  /** A response never exceeds the MTU, and its entries are a prefix of the matches. */
  lemma ResponseFits(p: Procedure, stop: GroupStop, es: seq<Entry>, mtu: nat)
    requires es != [] && EntryFor(p, es[0]) && 2 <= mtu
    ensures var k := |Taken(p, stop, es, mtu)|;
            k <= |es| && Taken(p, stop, es, mtu) == es[..k] && |Response(p, stop, es, mtu)| <= mtu
  {
    var hdr := 1 + |Header(p, es[0])|;
    PackedIsLongestPrefix(es, hdr, Slack(p), mtu, SameRule(p, stop, es[0]));
    var taken := Taken(p, stop, es, mtu);
    assert Admissible(es[..|taken|], hdr, Slack(p), mtu, SameRule(p, stop, es[0]));
  }

  lemma ResponseOpcode(p: Procedure, stop: GroupStop, es: seq<Entry>, mtu: nat)
    requires es != [] && EntryFor(p, es[0])
    ensures Response(p, stop, es, mtu) != [] && Response(p, stop, es, mtu)[0] == ResponseOp(p)
  {
  }

  /** A response makes progress exactly when the first match passes the fit test by itself. */
  lemma ResponseProgress(p: Procedure, stop: GroupStop, es: seq<Entry>, mtu: nat)
    requires es != [] && EntryFor(p, es[0])
    ensures Taken(p, stop, es, mtu) != [] <==>
            match es[0]
            case Info(_, k) => |UuidBytes(k)| + 4 <= mtu
            case Range(_, _) => 5 <= mtu
            case Data(_, v) => |v| + 6 <= mtu
            case Group(_, _, v) => |v| + 6 <= mtu
  {
  }

  /** A run of entries is read back exactly when the chosen shape is the shape of each of them. */
  lemma ReadBackIff(s: Shape, es: seq<Entry>)
    ensures ReadEntries(s, Concat(es)) == Some(es) <==> forall i :: 0 <= i < |es| ==> ShapeOf(es[i]) == Some(s)
  {
    if forall i :: 0 <= i < |es| ==> ShapeOf(es[i]) == Some(s) {
      ReadInvertsConcat(s, es);
    } else {
      ReadConsumesAll(s, Concat(es));
    }
  }

  /** The shape that the header of a response announces. */
  function Announced(p: Procedure, first: Entry): Shape
    requires EntryFor(p, first)
  {
    match p
    case FindInfo => if first.kind.Uuid16? then Infos16 else Infos128
    case FindByType => Ranges
    case ReadByType => Datas(Size(first) % 0x100)
    case ReadByGroup => Groups(Size(first) % 0x100)
  }

  lemma AnnouncedIsShape(p: Procedure, first: Entry, e: Entry)
    requires EntryFor(p, first) && EntryFor(p, e)
    requires (p == FindInfo || p == FindByType || Size(first) < 0x100)
    ensures ShapeOf(e) == Some(Announced(p, first)) <==> p == FindByType || Size(e) == Size(first)
  {
  }

  lemma ParsedAsAnnounced(p: Procedure, first: Entry, es: seq<Entry>)
    requires EntryFor(p, first)
    ensures ParseBody(p, Header(p, first) + Concat(es)) == ReadEntries(Announced(p, first), Concat(es))
  {
    var body := Header(p, first) + Concat(es);
    if p == FindByType {
      assert body == Concat(es);
    } else {
      assert body[1..] == Concat(es);
    }
  }

  /**
   * Round trip of all four formats, with and without the same-size stop: the client reads back exactly
   * the entries that were packed if and only if none was packed, or the first size fits the length
   * byte and all packed entries have it.
   */
  lemma ResponseRoundTrip(p: Procedure, stop: GroupStop, es: seq<Entry>, mtu: nat)
    requires es != [] && forall i :: 0 <= i < |es| ==> EntryFor(p, es[i])
    ensures var taken := Taken(p, stop, es, mtu);
            ParseBody(p, Response(p, stop, es, mtu)[1..]) == Some(taken) <==>
            (taken == [] || p == FindByType ||
             ((p == FindInfo || Size(es[0]) < 0x100) && forall i :: 0 <= i < |taken| ==> Size(taken[i]) == Size(es[0])))
  {
    hide ReadEntries, Admissible, EntryBytes, Announced, ParseBody;
    var taken := Taken(p, stop, es, mtu);
    var hdr := 1 + |Header(p, es[0])|;
    PackedIsLongestPrefix(es, hdr, Slack(p), mtu, SameRule(p, stop, es[0]));
    assert Response(p, stop, es, mtu)[1..] == Header(p, es[0]) + Concat(taken);
    ParsedAsAnnounced(p, es[0], taken);
    ReadBackIff(Announced(p, es[0]), taken);
    if p == FindInfo || p == FindByType || Size(es[0]) < 0x100 {
      forall i | 0 <= i < |taken|
        ensures ShapeOf(taken[i]) == Some(Announced(p, es[0])) <==> p == FindByType || Size(taken[i]) == Size(es[0])
      {
        AnnouncedIsShape(p, es[0], taken[i]);
      }
    } else if taken != [] {
      assert taken[0] == es[0];
      assert ShapeOf(es[0]).None?;
    }
  }
}
