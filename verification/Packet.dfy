/** Packets as the program holds them, which request fields a request type carries, and the
    sequence of wire fields the serialisers emit for each structure. */
module Packet {
  import opened Wire

  const MAGIC: u32 := 1800

  // enum middfs_packet_type
  const PKT_CONNECT: u32 := 1
  const PKT_DISCONNECT: u32 := 2
  const PKT_REQUEST: u32 := 3
  const PKT_RESPONSE: u32 := 4

  // enum middfs_request_type
  const REQ_GETATTR: u32 := 1
  const REQ_ACCESS: u32 := 2
  const REQ_READLINK: u32 := 3
  const REQ_SYMLINK: u32 := 5
  const REQ_RENAME: u32 := 8
  const REQ_CHMOD: u32 := 9
  const REQ_TRUNCATE: u32 := 10
  const REQ_OPEN: u32 := 11
  const REQ_CREATE: u32 := 12
  const REQ_READ: u32 := 13
  const REQ_WRITE: u32 := 14
  const REQ_READDIR: u32 := 15

  // enum middfs_response_type
  const RSP_OK: u32 := 0
  const RSP_DATA: u32 := 1
  const RSP_STAT: u32 := 2
  const RSP_DIR: u32 := 3
  const RSP_ERROR: u32 := 4

  const EPERM: i32 := 1
  const ENOENT: i32 := 2
  const EIO: i32 := 5
  const EINVAL: i32 := 22

  datatype Rsrc = Rsrc(owner: cstr, path: cstr)

  /** `struct middfs_request`. The block at `mreq_data` is `data`. */
  datatype Request = Request(typ: u32, requester: cstr, rsrc: Rsrc, mode: i32, size: Wide,
                             to: Rsrc, off: Wide, data: seq<byte>)

  datatype Stat = Stat(mode: u32, size: Wide, blocks: Wide, blksize: Wide)

  datatype Dirent = Dirent(name: cstr, mode: i32)

  datatype Response =
    | RspOk
    | RspData(nbytes: Wide, data: seq<byte>)
    | RspStat(stat: Stat)
    | RspDir(count: Wide, ents: seq<Dirent>)
    | RspError(error: i32)

  datatype Connect = Connect(name: cstr, port: u32)

  /** The union of a packet, tagged by its type word; types without a payload are `Bare`. */
  datatype Body = ReqBody(req: Request) | RspBody(rsp: Response) | ConnBody(conn: Connect) | Bare(typ: u32)

  datatype Packet = Packet(magic: u32, body: Body)

  predicate HasMode(typ: u32) {
    typ == REQ_ACCESS || typ == REQ_CHMOD || typ == REQ_CREATE || typ == REQ_OPEN
  }

  predicate HasSize(typ: u32) {
    typ == REQ_READLINK || typ == REQ_TRUNCATE || typ == REQ_READ || typ == REQ_WRITE
  }

  predicate HasTo(typ: u32) { typ == REQ_SYMLINK || typ == REQ_RENAME }

  predicate HasOff(typ: u32) { typ == REQ_READ || typ == REQ_WRITE }

  predicate HasData(typ: u32) { typ == REQ_WRITE }

  const NO_RSRC := Rsrc([], [])
  const ZERO := Wide(0, 0)

  /** A request without the members its type does not carry. */
  function Carried(r: Request): Request {
    r.(mode := if HasMode(r.typ) then r.mode else 0,
       size := if HasSize(r.typ) then r.size else ZERO,
       to := if HasTo(r.typ) then r.to else NO_RSRC,
       off := if HasOff(r.typ) then r.off else ZERO,
       data := if HasData(r.typ) then r.data else [])
  }

  /** The `(int32_t)` casts the serialiser applies to size and offset. */
  function Cast(r: Request): Request { r.(size := SignExtend(r.size), off := SignExtend(r.off)) }

  /** The request as its receiver sees it. */
  function Arrives(r: Request): Request { Carried(Cast(r)) }

  /** The casts change nothing the request carries. */
  predicate SmallRequest(r: Request) {
    && (HasSize(r.typ) ==> SignExtend(r.size) == r.size)
    && (HasOff(r.typ) ==> SignExtend(r.off) == r.off)
  }

  predicate ValidRequest(r: Request) { HasData(r.typ) ==> |r.data| == Value(r.size) }

  /** The counts tell the lengths of what they count. */
  predicate ValidResponse(r: Response) {
    && (r.RspData? ==> |r.data| == Value(r.nbytes))
    && (r.RspDir? ==> |r.ents| == Value(r.count))
  }

  predicate ValidPacket(p: Packet) {
    match p.body
    case ReqBody(r) => ValidRequest(r)
    case RspBody(r) => ValidResponse(r)
    case ConnBody(_) => true
    case Bare(t) => t != PKT_CONNECT && t != PKT_REQUEST && t != PKT_RESPONSE
  }

  function PacketArrives(p: Packet): Packet {
    if p.body.ReqBody? then p.(body := ReqBody(Arrives(p.body.req))) else p
  }

  predicate Small(p: Packet) { p.body.ReqBody? ==> SmallRequest(p.body.req) }

  function TypeWord(b: Body): u32 {
    match b
    case ReqBody(_) => PKT_REQUEST
    case RspBody(_) => PKT_RESPONSE
    case ConnBody(_) => PKT_CONNECT
    case Bare(t) => t
  }

  function ResponseWord(r: Response): u32 {
    match r
    case RspOk => RSP_OK
    case RspData(_, _) => RSP_DATA
    case RspStat(_) => RSP_STAT
    case RspDir(_, _) => RSP_DIR
    case RspError(_) => RSP_ERROR
  }

  /** The server's test for its root directory: it looks at `mr_path`, under the name `owner`. */
  predicate RootTest(r: Request) { r.rsrc.path == [] }

  // ---- wire fields ----

  function WideFields(x: Wide): seq<Field> { [Word(x.high), Word(x.low)] }

  function RsrcFields(r: Rsrc): seq<Field> { [Text(r.owner), Text(r.path)] }

  function OptWord(present: bool, w: u32): seq<Field> { if present then [Word(w)] else [] }

  function OptWide(present: bool, x: Wide): seq<Field> { if present then WideFields(x) else [] }

  function OptRsrc(present: bool, r: Rsrc): seq<Field> { if present then RsrcFields(r) else [] }

  function OptBlob(present: bool, d: seq<byte>): seq<Field> { if present then [Blob(d)] else [] }

  function HeadFields(r: Request): seq<Field> {
    [Word(r.typ)] + ([Text(r.requester)] + RsrcFields(r.rsrc))
  }

  function ModeSizeFields(r: Request): seq<Field> {
    OptWord(HasMode(r.typ), Unsigned(r.mode)) + OptWide(HasSize(r.typ), r.size)
  }

  function ToOffFields(r: Request): seq<Field> {
    OptRsrc(HasTo(r.typ), r.to) + OptWide(HasOff(r.typ), r.off)
  }

  function MiddleFields(r: Request): seq<Field> { ModeSizeFields(r) + ToOffFields(r) }

  /** The fields of a request whose size and offset are sent as they are. */
  function PlainFields(r: Request): seq<Field> {
    HeadFields(r) + (MiddleFields(r) + OptBlob(HasData(r.typ), r.data))
  }

  /** The fields the serialiser sends: size and offset go through the cast. */
  function RequestFields(r: Request): seq<Field> { PlainFields(Cast(r)) }

  function StatFields(s: Stat): seq<Field> {
    [Word(s.mode)] + (WideFields(s.size) + (WideFields(s.blocks) + WideFields(s.blksize)))
  }

  function DirentFields(e: Dirent): seq<Field> { [Text(e.name)] + [Word(Unsigned(e.mode))] }

  function DirentsFields(es: seq<Dirent>): seq<Field> {
    if es == [] then [] else DirentFields(es[0]) + DirentsFields(es[1..])
  }

  function DataFields(n: Wide, d: seq<byte>): seq<Field> { WideFields(n) + [Blob(d)] }

  function DirFields(n: Wide, es: seq<Dirent>): seq<Field> { WideFields(n) + DirentsFields(es) }

  function ResponseTail(r: Response): seq<Field> {
    match r
    case RspOk => []
    case RspData(n, d) => DataFields(n, d)
    case RspStat(s) => StatFields(s)
    case RspDir(n, es) => DirFields(n, es)
    case RspError(e) => [Word(Unsigned(e))]
  }

  function ResponseFields(r: Response): seq<Field> { [Word(ResponseWord(r))] + ResponseTail(r) }

  function ConnectFields(c: Connect): seq<Field> { [Word(c.port)] + [Text(c.name)] }

  function BodyFields(b: Body): seq<Field> {
    match b
    case ReqBody(r) => RequestFields(r)
    case RspBody(r) => ResponseFields(r)
    case ConnBody(c) => ConnectFields(c)
    case Bare(_) => []
  }

  function PacketFields(p: Packet): seq<Field> {
    [Word(p.magic)] + ([Word(TypeWord(p.body))] + BodyFields(p.body))
  }

  /** The bytes a packet is sent as. */
  function Encode(p: Packet): seq<byte> { Flatten(PacketFields(p)) }
}
