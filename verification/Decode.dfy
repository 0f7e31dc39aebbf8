/** Reading packets back: a pure reference parser over positions in a byte string, and the laws
    that make the format usable over a stream. */
module Decode {
  import opened Wire
  import opened Packet

  /** `Done` gives the value and the position after it, `More` asks for more bytes, and `Unknown`
      is a response type the program aborts on. */
  datatype Parsed<+T> = Done(val: T, next: nat) | More | Unknown {
    predicate IsFailure() { !Done? }

    function PropagateFailure<U>(): Parsed<U>
      requires IsFailure()
    {
      if More? then More else Unknown
    }

    function Extract(): (T, nat)
      requires !IsFailure()
    {
      (val, next)
    }
  }

  ghost predicate Inside<T>(p: Parsed<T>, b: seq<byte>, i: nat) {
    p.Done? ==> i <= p.next <= |b|
  }

  /** Only response types can be unknown. */
  ghost predicate Within<T>(p: Parsed<T>, b: seq<byte>, i: nat) {
    Inside(p, b, i) && !p.Unknown?
  }

  // ---- the parsers ----

  function ParseWord(b: seq<byte>, i: nat): (p: Parsed<u32>)
    ensures Within(p, b, i)
  {
    if i + 4 <= |b| then Done(FromBigEndian(b[i..i + 4]), i + 4) else More
  }

  /** The first terminator at or after `i`, or the end. */
  function FindNul(b: seq<byte>, i: nat): (k: nat)
    requires i <= |b|
    ensures i <= k <= |b|
    ensures 0 !in b[i..k]
    ensures k < |b| ==> b[k] == 0
    decreases |b| - i
  {
    if i == |b| || b[i] == 0 then i
    else
      var k := FindNul(b, i + 1);
      assert b[i..k] == [b[i]] + b[i + 1..k];
      k
  }

  function ParseText(b: seq<byte>, i: nat): (p: Parsed<cstr>)
    ensures Within(p, b, i)
  {
    if i > |b| then More
    else
      var k := FindNul(b, i);
      if k < |b| then Done(b[i..k], k + 1) else More
  }

  function ParseBlob(b: seq<byte>, i: nat, n: nat): (p: Parsed<seq<byte>>)
    ensures Within(p, b, i)
  {
    if i + n <= |b| then Done(b[i..i + n], i + n) else More
  }

  function ParseWide(b: seq<byte>, i: nat): (p: Parsed<Wide>)
    ensures Within(p, b, i)
  {
    var (high, j) :- ParseWord(b, i);
    var (low, k) :- ParseWord(b, j);
    Done(Wide(high, low), k)
  }

  function ParseRsrc(b: seq<byte>, i: nat): (p: Parsed<Rsrc>)
    ensures Within(p, b, i)
  {
    var (owner, j) :- ParseText(b, i);
    var (path, k) :- ParseText(b, j);
    Done(Rsrc(owner, path), k)
  }

  function Nothing<T>(b: seq<byte>, i: nat, zero: T): (p: Parsed<T>)
    ensures Within(p, b, i)
  {
    if i <= |b| then Done(zero, i) else More
  }

  function ParseOptWord(b: seq<byte>, i: nat, present: bool): (p: Parsed<u32>)
    ensures Within(p, b, i)
  {
    if present then ParseWord(b, i) else Nothing(b, i, 0)
  }

  function ParseOptWide(b: seq<byte>, i: nat, present: bool): (p: Parsed<Wide>)
    ensures Within(p, b, i)
  {
    if present then ParseWide(b, i) else Nothing(b, i, ZERO)
  }

  function ParseOptRsrc(b: seq<byte>, i: nat, present: bool): (p: Parsed<Rsrc>)
    ensures Within(p, b, i)
  {
    if present then ParseRsrc(b, i) else Nothing(b, i, NO_RSRC)
  }

  /** The members every request has; the others are zero. */
  function ParseHead(b: seq<byte>, i: nat): (p: Parsed<Request>)
    ensures Within(p, b, i)
  {
    var (typ, j) :- ParseWord(b, i);
    var (requester, k) :- ParseText(b, j);
    var (rsrc, l) :- ParseRsrc(b, k);
    Done(Request(typ, requester, rsrc, 0, ZERO, NO_RSRC, ZERO, []), l)
  }

  /** The members that depend on the request type, except the data block, filled into `h`. */
  function ParseModeSize(b: seq<byte>, i: nat, h: Request): (p: Parsed<Request>)
    ensures Within(p, b, i)
    ensures p.Done? ==> h == p.val.(mode := h.mode, size := h.size)
  {
    var (mode, j) :- ParseOptWord(b, i, HasMode(h.typ));
    var (size, k) :- ParseOptWide(b, j, HasSize(h.typ));
    Done(h.(mode := Signed(mode), size := size), k)
  }

  function ParseToOff(b: seq<byte>, i: nat, h: Request): (p: Parsed<Request>)
    ensures Within(p, b, i)
    ensures p.Done? ==> h == p.val.(to := h.to, off := h.off)
  {
    var (to, j) :- ParseOptRsrc(b, i, HasTo(h.typ));
    var (off, k) :- ParseOptWide(b, j, HasOff(h.typ));
    Done(h.(to := to, off := off), k)
  }

  function ParseMiddle(b: seq<byte>, i: nat, h: Request): (p: Parsed<Request>)
    ensures Within(p, b, i)
  {
    var (g, j) :- ParseModeSize(b, i, h);
    ParseToOff(b, j, g)
  }

  function ParseTail(b: seq<byte>, i: nat, h: Request): (p: Parsed<Request>)
    ensures Within(p, b, i)
  {
    var (r, j) :- ParseMiddle(b, i, h);
    var (data, k) :- ParseBlob(b, j, if HasData(r.typ) then Value(r.size) else 0);
    Done(r.(data := data), k)
  }

  function ParseRequest(b: seq<byte>, i: nat): (p: Parsed<Request>)
    ensures Within(p, b, i)
  {
    var (h, j) :- ParseHead(b, i);
    ParseTail(b, j, h)
  }

  function ParseStat(b: seq<byte>, i: nat): (p: Parsed<Stat>)
    ensures Within(p, b, i)
  {
    var (mode, j) :- ParseWord(b, i);
    var (size, k) :- ParseWide(b, j);
    var (blocks, l) :- ParseWide(b, k);
    var (blksize, m) :- ParseWide(b, l);
    Done(Stat(mode, size, blocks, blksize), m)
  }

  function ParseData(b: seq<byte>, i: nat): (p: Parsed<(Wide, seq<byte>)>)
    ensures Within(p, b, i)
  {
    var (n, j) :- ParseWide(b, i);
    var (d, k) :- ParseBlob(b, j, Value(n));
    Done((n, d), k)
  }

  function ParseDirent(b: seq<byte>, i: nat): (p: Parsed<Dirent>)
    ensures Within(p, b, i)
  {
    var (name, j) :- ParseText(b, i);
    var (mode, k) :- ParseWord(b, j);
    Done(Dirent(name, Signed(mode)), k)
  }

  function ParseDirents(b: seq<byte>, i: nat, n: nat): (p: Parsed<seq<Dirent>>)
    ensures Within(p, b, i)
    decreases n
  {
    if n == 0 then Nothing(b, i, [])
    else
      var (e, j) :- ParseDirent(b, i);
      var (es, k) :- ParseDirents(b, j, n - 1);
      Done([e] + es, k)
  }

  function ParseDir(b: seq<byte>, i: nat): (p: Parsed<(Wide, seq<Dirent>)>)
    ensures Within(p, b, i)
  {
    var (n, j) :- ParseWide(b, i);
    var (es, k) :- ParseDirents(b, j, Value(n));
    Done((n, es), k)
  }

  function ParsePayload(b: seq<byte>, i: nat, typ: u32): (p: Parsed<Response>)
    ensures Inside(p, b, i)
  {
    if typ == RSP_OK then Nothing(b, i, RspOk)
    else if typ == RSP_DATA then
      var (d, j) :- ParseData(b, i); Done(RspData(d.0, d.1), j)
    else if typ == RSP_STAT then
      var (s, j) :- ParseStat(b, i); Done(RspStat(s), j)
    else if typ == RSP_DIR then
      var (es, j) :- ParseDir(b, i); Done(RspDir(es.0, es.1), j)
    else if typ == RSP_ERROR then
      var (e, j) :- ParseWord(b, i); Done(RspError(Signed(e)), j)
    else Unknown
  }

  function ParseResponse(b: seq<byte>, i: nat): (p: Parsed<Response>)
    ensures Inside(p, b, i)
  {
    var (typ, j) :- ParseWord(b, i);
    ParsePayload(b, j, typ)
  }

  function ParseConnect(b: seq<byte>, i: nat): (p: Parsed<Connect>)
    ensures Within(p, b, i)
  {
    var (port, j) :- ParseWord(b, i);
    var (name, k) :- ParseText(b, j);
    Done(Connect(name, port), k)
  }

  function ParseBody(b: seq<byte>, i: nat, typ: u32): (p: Parsed<Body>)
    ensures Inside(p, b, i)
  {
    if typ == PKT_REQUEST then
      var (r, j) :- ParseRequest(b, i); Done(ReqBody(r), j)
    else if typ == PKT_RESPONSE then
      var (r, j) :- ParseResponse(b, i); Done(RspBody(r), j)
    else if typ == PKT_CONNECT then
      var (c, j) :- ParseConnect(b, i); Done(ConnBody(c), j)
    else Nothing(b, i, Bare(typ))
  }

  function ParsePacketAt(b: seq<byte>, i: nat): (p: Parsed<Packet>)
    ensures Inside(p, b, i)
  {
    var (magic, j) :- ParseWord(b, i);
    var (typ, k) :- ParseWord(b, j);
    var (body, l) :- ParseBody(b, k, typ);
    Done(Packet(magic, body), l)
  }

  function ParsePacket(b: seq<byte>): (p: Parsed<Packet>)
    ensures Inside(p, b, 0)
    ensures p.Done? ==> p.next >= 8
  {
    ParsePacketAt(b, 0)
  }
}
