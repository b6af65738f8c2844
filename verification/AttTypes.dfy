/** Opcodes, error codes and the values that travel in Attribute Protocol packets. */
module AttTypes {
  import opened Bytes

  const OP_ERROR: byte := 0x01
  const OP_MTU_REQ: byte := 0x02
  const OP_MTU_RESP: byte := 0x03
  const OP_FIND_INFO_REQ: byte := 0x04
  const OP_FIND_INFO_RESP: byte := 0x05
  const OP_FIND_BY_TYPE_REQ: byte := 0x06
  const OP_FIND_BY_TYPE_RESP: byte := 0x07
  const OP_READ_BY_TYPE_REQ: byte := 0x08
  const OP_READ_BY_TYPE_RESP: byte := 0x09
  const OP_READ_REQ: byte := 0x0A
  const OP_READ_RESP: byte := 0x0B
  const OP_READ_BLOB_REQ: byte := 0x0C
  const OP_READ_MULTI_REQ: byte := 0x0E
  const OP_READ_BY_GROUP_REQ: byte := 0x10
  const OP_READ_BY_GROUP_RESP: byte := 0x11
  const OP_WRITE_REQ: byte := 0x12
  const OP_WRITE_RESP: byte := 0x13
  const OP_HANDLE_NOTIFY: byte := 0x1B
  const OP_HANDLE_IND: byte := 0x1D
  const OP_HANDLE_CNF: byte := 0x1E
  const OP_WRITE_CMD: byte := 0x52

  const ECODE_INVALID_HANDLE: byte := 0x01
  const ECODE_WRITE_NOT_PERM: byte := 0x03
  const ECODE_REQ_NOT_SUPP: byte := 0x06
  const ECODE_ATTR_NOT_FOUND: byte := 0x0A

  const PROP_READ: byte := 0x02
  const PROP_WRITE_WITHOUT_RESP: byte := 0x04
  const PROP_WRITE: byte := 0x08

  const FMT_16BIT: byte := 0x01
  const FMT_128BIT: byte := 0x02

  const PRIMARY_SERVICE := Uuid16(0x2800)
  const CHARACTERISTIC := Uuid16(0x2803)

  const DEFAULT_MTU: nat := 23

  type Pdu = seq<byte>

  type Long = s: seq<byte> | |s| == 16 witness seq(16, _ => 0)

  /** A UUID as the attribute table keeps it: two or sixteen little-endian bytes. */
  datatype Uuid = Uuid16(short: u16) | Uuid128(long: Long)

  function UuidBytes(u: Uuid): (s: seq<byte>)
    ensures |s| == 2 || |s| == 16
    ensures |s| == 2 <==> u.Uuid16?
  {
    match u
    case Uuid16(v) => Put16(v)
    case Uuid128(l) => l
  }

  /** The four list procedures share one shape: a filter, a list of entries, a packed response. */
  datatype Procedure = FindInfo | FindByType | ReadByType | ReadByGroup

  /** One element of a list response. */
  datatype Entry =
    | Info(handle: u16, kind: Uuid)
    | Range(handle: u16, end: u16)
    | Data(handle: u16, value: seq<byte>)
    | Group(handle: u16, end: u16, value: seq<byte>)

  function EntryBytes(e: Entry): seq<byte> {
    match e
    case Info(h, k) => Put16(h) + UuidBytes(k)
    case Range(h, g) => Put16(h) + Put16(g)
    case Data(h, v) => Put16(h) + v
    case Group(h, g, v) => Put16(h) + Put16(g) + v
  }

  function Size(e: Entry): nat {
    |EntryBytes(e)|
  }

  predicate EntryFor(p: Procedure, e: Entry) {
    match p
    case FindInfo => e.Info?
    case FindByType => e.Range?
    case ReadByType => e.Data?
    case ReadByGroup => e.Group?
  }

  function RequestOp(p: Procedure): byte {
    match p
    case FindInfo => OP_FIND_INFO_REQ
    case FindByType => OP_FIND_BY_TYPE_REQ
    case ReadByType => OP_READ_BY_TYPE_REQ
    case ReadByGroup => OP_READ_BY_GROUP_REQ
  }

  function ResponseOp(p: Procedure): byte {
    match p
    case FindInfo => OP_FIND_INFO_RESP
    case FindByType => OP_FIND_BY_TYPE_RESP
    case ReadByType => OP_READ_BY_TYPE_RESP
    case ReadByGroup => OP_READ_BY_GROUP_RESP
  }

  predicate Ascending(es: seq<Entry>) {
    forall i, j :: 0 <= i < j < |es| ==> es[i].handle < es[j].handle
  }
}
