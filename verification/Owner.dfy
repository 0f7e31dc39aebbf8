/** The owner of a file: what its system makes of a request, and its request handler. */
module Owner {
  import opened Wire
  import opened Packet

  const ENOMEM: i32 := 12

  type Errno = x: i32 | x > 0 witness 1

  /** What `open(2)`, for reading and writing, and `pread(2)` find at a path. */
  datatype Disk = Unopenable(errno: Errno) | Unreadable(errno: Errno) | Content(bytes: Blob64)

  /** Blocks whose length the 64-bit count on the wire can tell. */
  type Blob64 = s: seq<byte> | |s| < WIDE_LIMIT

  datatype ReadOutcome = Failed(errno: int) | Took(bytes: seq<byte>)

  /** The top bit is set: as an `off_t` the value is negative, as a `size_t` it is more than any
      allocator grants and any read transfers. */
  predicate Negative(x: Wide) { x.high >= 0x8000_0000 }

  /** The owner's read: open the file, get a block of `size` bytes, and pread up to `size` bytes from
      `off` on, fewer at the end of the file, none behind it. */
  function OwnerRead(d: Disk, size: Wide, off: Wide): (r: ReadOutcome)
    ensures r.Took? ==> |r.bytes| <= Value(size)
    ensures r.Failed? ==> 0 < r.errno < 0x8000_0000
  {
    if d.Unopenable? then Failed(d.errno)
    else if Negative(size) then Failed(ENOMEM)
    else Pread(d, size, off)
  }

  function Pread(d: Disk, size: Wide, off: Wide): (r: ReadOutcome)
    requires !d.Unopenable?
    ensures r.Took? ==> |r.bytes| <= Value(size)
    ensures r.Failed? ==> 0 < r.errno < 0x8000_0000
  {
    if d.Unreadable? then Failed(d.errno)
    else if Negative(off) then Failed(EINVAL)
    else Took(Slice(d.bytes, Value(size), Value(off)))
  }

  function Slice(b: seq<byte>, size: nat, off: nat): (r: seq<byte>)
    ensures |r| == Min(size, SizeRem(|b|, off))
    ensures forall k :: 0 <= k < |r| ==> r[k] == b[off + k]
  {
    var from := Min(off, |b|);
    b[from..from + Min(size, |b| - from)]
  }

  /** The outcome of a handler that works on something else than file contents. */
  datatype Handled = Handled(status: Status, rsp: Response)

  type Status = x: int | -0x8000_0000 < x <= 0

  /** The owner's operating system: its files, and what the other handlers make of it. */
  datatype Os = Os(disk: cstr -> Disk, other: Request -> Handled)

  predicate Implemented(typ: u32) {
    || typ == REQ_GETATTR || typ == REQ_READDIR || typ == REQ_ACCESS || typ == REQ_OPEN
    || typ == REQ_TRUNCATE || typ == REQ_RENAME || typ == REQ_READ || typ == REQ_WRITE
  }

  /** The owner's response to a request it has a handler for. */
  function Reply(r: Request, os: Os): Response
    requires Implemented(r.typ)
  {
    if r.typ == REQ_READ then
      match OwnerRead(os.disk(r.rsrc.path), r.size, r.off)
      case Failed(e) => RspError(e)
      case Took(bytes) => RspData(ToWide(|bytes|), bytes)
    else
      var h := os.other(r);
      if h.status < 0 then RspError(-(h.status as int)) else h.rsp
  }

  function ReplyPacket(r: Request, os: Os): Packet
    requires Implemented(r.typ)
  {
    Packet(MAGIC, RspBody(Reply(r, os)))
  }

  // ---- what the responses say ----

  /** This is the response to a read: an errno, of open, malloc or pread in this order; or as many bytes of
      the file as were asked for and are there, byte `k` being the file's byte `off + k`. */
  ghost predicate AnswersRead(rsp: Response, d: Disk, size: Wide, off: Wide) {
    match d
    case Unopenable(e) => rsp == RspError(e)
    case Unreadable(e) => rsp == RspError(if size.high >= 0x8000_0000 then 12 else e)
    case Content(b) =>
      if size.high >= 0x8000_0000 then rsp == RspError(12)
      else if off.high >= 0x8000_0000 then rsp == RspError(22)
      else
        && rsp.RspData? && Value(rsp.nbytes) == |rsp.data|
        && |rsp.data| == Min(Value(size), SizeRem(|b|, Value(off)))
        && forall k :: 0 <= k < |rsp.data| ==> rsp.data[k] == b[Value(off) + k]
  }

  /** GETATTR 1, ACCESS 2, RENAME 8, TRUNCATE 10, OPEN 11, READ 13, WRITE 14 and READDIR 15 are answered:
      READ from the file, the others with the handler's own response, or the error its status negates. */
  lemma ReplyMeans(r: Request, os: Os)
    ensures Implemented(r.typ) <==> r.typ in {1, 2, 8, 10, 11, 13, 14, 15}
    ensures r.typ == 13 ==> AnswersRead(Reply(r, os), os.disk(r.rsrc.path), r.size, r.off)
    ensures Implemented(r.typ) && r.typ != 13 ==>
      var h := os.other(r); Reply(r, os) == if h.status < 0 then RspError(-(h.status as int)) else h.rsp
    ensures Implemented(r.typ) ==> ReplyPacket(r, os) == Packet(1800, RspBody(Reply(r, os)))
  {
    hide Value, ToWide, Slice;
  }

  // ---- the handlers ----

  /** `handle_request_read`: a negated errno, or 0 and the bytes read. */
  method HandleRequestRead(d: Disk, r: Request) returns (status: Status, rsp: Response)
    requires !d.Unopenable?
    ensures var o := OwnerRead(d, r.size, r.off);
      && (o.Failed? ==> status == -o.errno)
      && (o.Took? ==> status == 0 && rsp == RspData(ToWide(|o.bytes|), o.bytes))
    ensures AnswersRead(if status < 0 then RspError(-(status as int)) else rsp, d, r.size, r.off)
  {
    hide Value, ToWide, Slice;
    rsp := RspOk;
    if Negative(r.size) { // malloc
      return -(ENOMEM as int), rsp;
    }
    match Pread(d, r.size, r.off) {
      case Failed(e) => status := -e;
      case Took(bytes) =>
        rsp := RspData(ToWide(|bytes|), bytes);
        status := 0;
    }
  }

  /** `handle_request`: `handled` is false for types without a handler; a handler's error status becomes
      the response. */
  method HandleRequest(r: Request, os: Os) returns (handled: bool, out: Packet)
    ensures handled == Implemented(r.typ) == (r.typ in {1, 2, 8, 10, 11, 13, 14, 15})
    ensures handled ==> out == ReplyPacket(r, os) && out.magic == 1800 && out.body.RspBody?
    ensures r.typ == 13 ==> AnswersRead(out.body.rsp, os.disk(r.rsrc.path), r.size, r.off)
    ensures handled && r.typ != 13 ==>
      var h := os.other(r); out.body.rsp == if h.status < 0 then RspError(-(h.status as int)) else h.rsp
  {
    var status: Status, rsp := 0, RspOk;
    if r.typ == REQ_READ {
      match os.disk(r.rsrc.path) {
        case Unopenable(e) => status := -(e as int);
        case d => status, rsp := HandleRequestRead(d, r);
      }
    } else if Implemented(r.typ) {
      var h := os.other(r);
      status, rsp := h.status, h.rsp;
    } else {
      return false, Packet(MAGIC, RspBody(rsp));
    }
    if status < 0 {
      rsp := RspError(-(status as int));
    }
    return true, Packet(MAGIC, RspBody(rsp));
  }
}
