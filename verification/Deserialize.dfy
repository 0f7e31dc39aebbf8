/** The incremental deserialisers. Each reads from a position of an array with `nbytes` readable
    bytes left (up to `end`), updates an output structure that may hold the leftovers of an
    earlier, unfinished attempt, and returns the bytes used, or more than it was given. */
module Deserialize {
  import opened Wire
  import opened Packet
  import opened Decode
  import opened Shortfall
  import Exactness

  /** The number returned agrees with the reference parser: exactly the bytes of the value, or
      more than there are. */
  ghost predicate Took<T>(p: Parsed<T>, at: nat, end: nat, used: nat) {
    match p
    case Done(_, next) => at + used == next
    case More => used > SizeRem(end, at)
    case Unknown => false
  }

  method DeserializeUint32(buf: array<byte>, at: nat, nbytes: nat, cur: u32, ghost end: nat)
    returns (used: nat, out: u32)
    requires end <= buf.Length && nbytes == SizeRem(end, at)
    ensures used == 4
    ensures var p := ParseWord(buf[..end], at); Took(p, at, end, used) && out == if p.Done? then p.val else cur
  {
    out := cur;
    if 4 <= nbytes {
      assert buf[at..at + 4] == buf[..end][at..at + 4];
      out := FromBigEndian(buf[at..at + 4]);
    }
    used := 4;
  }

  /** `strnlen` */
  method Strnlen(buf: array<byte>, at: nat, nbytes: nat, ghost end: nat) returns (len: nat)
    requires at <= end <= buf.Length && nbytes == SizeRem(end, at)
    ensures at + len == FindNul(buf[..end], at)
  {
    len := 0;
    ghost var b := buf[..end];
    while len < nbytes && buf[at + len] != 0
      invariant len <= nbytes
      invariant FindNul(b, at) == FindNul(b, at + len)
    {
      len := len + 1;
    }
  }

  method DeserializeStr(buf: array<byte>, at: nat, nbytes: nat, cur: cstr, ghost end: nat)
    returns (used: nat, out: cstr)
    requires end <= buf.Length && nbytes == SizeRem(end, at)
    ensures var p := ParseText(buf[..end], at); Took(p, at, end, used) && out == if p.Done? then p.val else cur
    ensures ParseText(buf[..end], at).More? ==> used == nbytes + 2
    ensures used == UsedText(buf[..end], at)
  {
    out := cur;
    var len := 0;
    if nbytes > 0 {
      len := Strnlen(buf, at, nbytes, end);
    }
    if len < nbytes {
      assert buf[at..at + len] == buf[..end][at..at + len];
      out := buf[at..at + len];
    } else {
      len := nbytes + 1;
    }
    used := len + 1;
  }

  method DeserializeUint64(buf: array<byte>, at: nat, nbytes: nat, cur: Wide, ghost end: nat)
    returns (used: nat, out: Wide)
    requires end <= buf.Length && nbytes == SizeRem(end, at)
    ensures used == 8
    ensures var p := ParseWide(buf[..end], at); Took(p, at, end, used) && out == if p.Done? then p.val else cur
  {
    var high, low;
    used, high := DeserializeUint32(buf, at, nbytes, 0, end);
    var u;
    u, low := DeserializeUint32(buf, at + used, SizeRem(nbytes, used), 0, end);
    used := used + u;
    out := if used <= nbytes then Wide(high, low) else cur;
  }

  method DeserializeRsrc(buf: array<byte>, at: nat, nbytes: nat, cur: Rsrc, ghost end: nat)
    returns (used: nat, out: Rsrc)
    requires end <= buf.Length && nbytes == SizeRem(end, at)
    ensures var p := ParseRsrc(buf[..end], at); Took(p, at, end, used) && (p.Done? ==> out == p.val)
    ensures used == UsedRsrc(buf[..end], at)
  {
    hide ParseText, UsedText;
    out := cur;
    var owner, path;
    used, owner := DeserializeStr(buf, at, nbytes, cur.owner, end);
    var u;
    u, path := DeserializeStr(buf, at + used, SizeRem(nbytes, used), cur.path, end);
    used := used + u;
    out := Rsrc(owner, path);
  }

  /** A data block of a known length (`memdup`). */
  method DeserializeBlock(buf: array<byte>, at: nat, nbytes: nat, size: nat, cur: seq<byte>, ghost end: nat)
    returns (used: nat, out: seq<byte>)
    requires at <= end <= buf.Length && nbytes == SizeRem(end, at)
    ensures used == size
    ensures var p := ParseBlob(buf[..end], at, size); Took(p, at, end, used) && (p.Done? ==> out == p.val)
  {
    out := cur;
    if nbytes >= size {
      assert buf[at..at + size] == buf[..end][at..at + size];
      out := buf[at..at + size];
    }
    used := size;
  }

  // ---- requests ----

  method DeserializeHead(buf: array<byte>, at: nat, nbytes: nat, cur: Request, ghost end: nat)
    returns (used: nat, out: Request)
    requires end <= buf.Length && nbytes == SizeRem(end, at)
    ensures var p := ParseHead(buf[..end], at);
            && Took(p, at, end, used)
            && (p.Done? ==> out == cur.(typ := p.val.typ, requester := p.val.requester, rsrc := p.val.rsrc))
    ensures used == UsedHead(buf[..end], at)
  {
    hide ParseWord, ParseText, ParseRsrc, UsedText, UsedRsrc;
    var typ, requester, rsrc, u;
    used, typ := DeserializeUint32(buf, at, nbytes, cur.typ, end);
    u, requester := DeserializeStr(buf, at + used, SizeRem(nbytes, used), cur.requester, end);
    used := used + u;
    u, rsrc := DeserializeRsrc(buf, at + used, SizeRem(nbytes, used), cur.rsrc, end);
    used := used + u;
    out := cur.(typ := typ, requester := requester, rsrc := rsrc);
  }

  method DeserializeModeSize(buf: array<byte>, at: nat, nbytes: nat, cur: Request, ghost h: Request, ghost end: nat)
    returns (used: nat, out: Request)
    requires end <= buf.Length && nbytes == SizeRem(end, at) && at <= end && cur.typ == h.typ
    ensures out.typ == cur.typ
    ensures var p := ParseModeSize(buf[..end], at, h);
            && Took(p, at, end, used)
            && (p.Done? ==> out == cur.(mode := if HasMode(h.typ) then p.val.mode else cur.mode,
                                        size := if HasSize(h.typ) then p.val.size else cur.size))
    ensures used == UsedModeSize(h.typ)
  {
    used, out := 0, cur;
    if HasMode(cur.typ) {
      var u, mode := DeserializeUint32(buf, at, nbytes, Unsigned(cur.mode), end);
      used, out := u, out.(mode := Signed(mode));
    }
    if HasSize(cur.typ) {
      var u, size := DeserializeUint64(buf, at + used, SizeRem(nbytes, used), cur.size, end);
      used, out := used + u, out.(size := size);
    }
  }

  method DeserializeToOff(buf: array<byte>, at: nat, nbytes: nat, cur: Request, ghost h: Request, ghost end: nat)
    returns (used: nat, out: Request)
    requires end <= buf.Length && nbytes == SizeRem(end, at) && cur.typ == h.typ
    ensures out.typ == cur.typ
    ensures var p := ParseToOff(buf[..end], at, h);
            && (at <= end ==> Took(p, at, end, used))
            && (p.Done? ==> out == cur.(to := if HasTo(h.typ) then p.val.to else cur.to,
                                        off := if HasOff(h.typ) then p.val.off else cur.off))
    ensures used == UsedToOff(buf[..end], at, h.typ)
  {
    used, out := 0, cur;
    if HasTo(cur.typ) {
      var u, to := DeserializeRsrc(buf, at, nbytes, cur.to, end);
      used, out := u, out.(to := to);
    }
    if HasOff(cur.typ) {
      var u, off := DeserializeUint64(buf, at + used, SizeRem(nbytes, used), cur.off, end);
      used, out := used + u, out.(off := off);
    }
  }

  /** The members the type does not carry are those the structure held before. */
  predicate Kept(cur: Request, out: Request) {
    && (!HasMode(out.typ) ==> out.mode == cur.mode)
    && (!HasSize(out.typ) ==> out.size == cur.size)
    && (!HasTo(out.typ) ==> out.to == cur.to)
    && (!HasOff(out.typ) ==> out.off == cur.off)
    && (!HasData(out.typ) ==> out.data == cur.data)
  }

  method DeserializeRequest(buf: array<byte>, at: nat, nbytes: nat, cur: Request, ghost end: nat)
    returns (used: nat, out: Request)
    requires end <= buf.Length && nbytes == SizeRem(end, at)
    ensures var p := ParseRequest(buf[..end], at);
            Took(p, at, end, used) && (p.Done? ==> Carried(out) == p.val && Kept(cur, out))
    ensures at <= end ==> used == UsedRequest(buf[..end], at)
  {
    hide ParseOptWord, ParseOptWide, ParseOptRsrc, ParseWord, ParseText, ParseRsrc, Value;
    hide ParseHead, ParseModeSize, ParseToOff, UsedHead, UsedModeSize, UsedToOff;
    ghost var h := ParseHead(buf[..end], at);
    used, out := DeserializeHead(buf, at, nbytes, cur, end);
    if used > nbytes {
      return;
    }
    ghost var g := ParseModeSize(buf[..end], at + used, h.val);
    var u;
    u, out := DeserializeModeSize(buf, at + used, SizeRem(nbytes, used), out, h.val, end);
    used := used + u;
    u, out := DeserializeToOff(buf, at + used, SizeRem(nbytes, used), out, if g.Done? then g.val else h.val, end);
    used := used + u;
    if used > nbytes {
      return;
    }
    if HasData(out.typ) {
      var data;
      u, data := DeserializeBlock(buf, at + used, SizeRem(nbytes, used), Value(out.size), out.data, end);
      out := out.(data := data);
      used := used + u;
    }
    if used <= nbytes {
      Exactness.ParsedIsCarried(buf[..end], at);
    }
  }

  // ---- responses ----

  /** `struct middfs_response` while it is being filled: the members of its union side by side, and
      the array of directory entries, absent until it has been allocated. */
  datatype RspOut = RspOut(typ: u32, nbytes: Wide, data: seq<byte>, stat: Stat, count: Wide,
                           ents: Option<seq<Dirent>>, error: i32)

  datatype Option<+T> = None | Some(value: T)

  /** What the program reads out of the structure for its type. */
  function Observed(r: RspOut): Response {
    if r.typ == RSP_DATA then RspData(r.nbytes, if Value(r.nbytes) == 0 then [] else r.data)
    else if r.typ == RSP_STAT then RspStat(r.stat)
    else if r.typ == RSP_DIR then RspDir(r.count, if r.ents.Some? then r.ents.value else [])
    else if r.typ == RSP_ERROR then RspError(r.error)
    else RspOk
  }

  /** An array left by an earlier attempt on the same bytes has the length those bytes announce. */
  ghost predicate Ready(b: seq<byte>, i: nat, r: RspOut) {
    r.ents.Some? ==> var n := ParseWide(b, i); n.Done? && |r.ents.value| == Value(n.val)
  }

  method DeserializeStat(buf: array<byte>, at: nat, nbytes: nat, cur: Stat, ghost end: nat)
    returns (used: nat, out: Stat)
    requires end <= buf.Length && nbytes == SizeRem(end, at)
    ensures var p := ParseStat(buf[..end], at); Took(p, at, end, used) && (p.Done? ==> out == p.val)
    ensures used == 28
  {
    hide ParseWord, ParseWide;
    var mode, size, blocks, blksize, u;
    used, mode := DeserializeUint32(buf, at, nbytes, cur.mode, end);
    u, size := DeserializeUint64(buf, at + used, SizeRem(nbytes, used), cur.size, end);
    used := used + u;
    u, blocks := DeserializeUint64(buf, at + used, SizeRem(nbytes, used), cur.blocks, end);
    used := used + u;
    u, blksize := DeserializeUint64(buf, at + used, SizeRem(nbytes, used), cur.blksize, end);
    used := used + u;
    out := Stat(mode, size, blocks, blksize);
  }

  method DeserializeData(buf: array<byte>, at: nat, nbytes: nat, cur: RspOut, ghost end: nat)
    returns (used: nat, out: RspOut)
    requires end <= buf.Length && nbytes == SizeRem(end, at)
    ensures var p := ParseData(buf[..end], at);
            && Took(p, at, end, used)
            && out == cur.(nbytes := out.nbytes, data := out.data)
            && (p.Done? ==> (out.nbytes, if Value(out.nbytes) == 0 then [] else out.data) == p.val)
    ensures used == UsedData(buf[..end], at)
  {
    hide ParseWide, Value;
    var n;
    used, n := DeserializeUint64(buf, at, nbytes, cur.nbytes, end);
    out := cur.(nbytes := n);
    if used > nbytes {
      return;
    }
    var u, data := DeserializeBlock(buf, at + used, SizeRem(nbytes, used), Value(n), cur.data, end);
    if Value(n) > 0 {
      out := out.(data := data);
    }
    used := used + u;
  }

  method DeserializeDirent(buf: array<byte>, at: nat, nbytes: nat, cur: Dirent, ghost end: nat)
    returns (used: nat, out: Dirent)
    requires end <= buf.Length && nbytes == SizeRem(end, at)
    ensures var p := ParseDirent(buf[..end], at); Took(p, at, end, used) && (p.Done? ==> out == p.val)
    ensures used == UsedText(buf[..end], at) + 4
  {
    hide ParseText, ParseWord;
    var name, mode, u;
    used, name := DeserializeStr(buf, at, nbytes, cur.name, end);
    u, mode := DeserializeUint32(buf, at + used, SizeRem(nbytes, used), Unsigned(cur.mode), end);
    used := used + u;
    out := Dirent(name, Signed(mode));
  }

  /** The entries `es` followed by what a parser finds. */
  ghost function Prepend(es: seq<Dirent>, p: Parsed<seq<Dirent>>): Parsed<seq<Dirent>> {
    if p.Done? then Done(es + p.val, p.next) else p
  }

  lemma PrependNone(p: Parsed<seq<Dirent>>)
    ensures Prepend([], p) == p
  {
    if p.Done? {
      assert [] + p.val == p.val;
    }
  }

  lemma PrependLast(b: seq<byte>, i: nat, es: seq<Dirent>)
    requires i <= |b|
    ensures Prepend(es, ParseDirents(b, i, 0)) == Done(es, i)
  {
    assert es + [] == es;
  }

  lemma PrependNext(b: seq<byte>, i: nat, n: nat, es: seq<Dirent>)
    requires n > 0
    ensures var e := ParseDirent(b, i);
            Prepend(es, ParseDirents(b, i, n)) == (if e.Done? then Prepend(es + [e.val], ParseDirents(b, e.next, n - 1))
                                                   else More)
  {
    hide ParseDirent;
    var e := ParseDirent(b, i);
    if e.Done? {
      var rest := ParseDirents(b, e.next, n - 1);
      if rest.Done? {
        assert es + ([e.val] + rest.val) == es + [e.val] + rest.val;
      }
    }
  }

  method DeserializeEntries(buf: array<byte>, at: nat, nbytes: nat, cur: seq<Dirent>, ghost end: nat)
    returns (used: nat, out: seq<Dirent>)
    requires at <= end <= buf.Length && nbytes == SizeRem(end, at)
    ensures |out| == |cur|
    ensures var p := ParseDirents(buf[..end], at, |cur|); Took(p, at, end, used) && (p.Done? ==> out == p.val)
    ensures used == UsedDirents(buf[..end], at, |cur|)
  {
    hide ParseDirents, ParseDirent, Prepend, UsedDirents, UsedText;
    used, out := 0, cur;
    ghost var b := buf[..end];
    ghost var all := ParseDirents(b, at, |cur|);
    PrependNone(all);
    assert out[..0] == [];
    for i := 0 to |cur|
      invariant |out| == |cur|
      invariant used <= nbytes ==> all == Prepend(out[..i], ParseDirents(b, at + used, |cur| - i))
      invariant used > nbytes ==> all == More
      invariant used + UsedDirents(b, at + used, |cur| - i) == UsedDirents(b, at, |cur|)
    {
      PrependNext(b, at + used, |cur| - i, out[..i]);
      UsedNext(b, at + used, |cur| - i);
      var u, e := DeserializeDirent(buf, at + used, SizeRem(nbytes, used), out[i], end);
      used := used + u;
      ghost var before := out[..i];
      out := out[i := e];
      assert out[..i + 1] == before + [e];
    }
    assert out[..|cur|] == out;
    UsedLast(b, at + used);
    if used <= nbytes {
      PrependLast(b, at + used, out);
    }
  }

  method DeserializeDir(buf: array<byte>, at: nat, nbytes: nat, cur: RspOut, ghost end: nat)
    returns (used: nat, out: RspOut)
    requires end <= buf.Length && nbytes == SizeRem(end, at)
    requires Ready(buf[..end], at, cur)
    ensures Ready(buf[..end], at, out)
    ensures var p := ParseDir(buf[..end], at);
            && Took(p, at, end, used)
            && out == cur.(count := out.count, ents := out.ents)
            && (p.Done? ==> out.ents.Some? && (out.count, out.ents.value) == p.val)
    ensures used == UsedDir(buf[..end], at)
  {
    hide ParseWide, ParseDirents;
    var n;
    used, n := DeserializeUint64(buf, at, nbytes, cur.count, end);
    out := cur.(count := n);
    if used > nbytes {
      return;
    }
    if out.ents.None? {
      out := out.(ents := Some(seq(Value(n), _ => Dirent([], 0)))); // calloc
    }
    var u, ents := DeserializeEntries(buf, at + used, SizeRem(nbytes, used), out.ents.value, end);
    out := out.(ents := Some(ents));
    used := used + u;
  }

  method DeserializePayload(buf: array<byte>, at: nat, nbytes: nat, cur: RspOut, ghost end: nat)
    returns (aborted: bool, used: nat, out: RspOut)
    requires end <= buf.Length && nbytes == SizeRem(end, at) && at <= end
    requires Ready(buf[..end], at, cur)
    ensures var p := ParsePayload(buf[..end], at, cur.typ);
            && (aborted <==> p.Unknown?)
            && (!aborted ==> Took(p, at, end, used) && Ready(buf[..end], at, out))
            && (p.Done? ==> Observed(out) == p.val)
    ensures !aborted ==> used == UsedPayload(buf[..end], at, cur.typ)
  {
    hide ParseData, ParseStat, ParseDir, ParseWord, Ready;
    aborted, used, out := false, 0, cur;
    if cur.typ == RSP_OK {
    } else if cur.typ == RSP_DATA {
      used, out := DeserializeData(buf, at, nbytes, cur, end);
      ReadyFrame(buf[..end], at, cur, out);
    } else if cur.typ == RSP_STAT {
      var stat;
      used, stat := DeserializeStat(buf, at, nbytes, cur.stat, end);
      out := cur.(stat := stat);
      ReadyFrame(buf[..end], at, cur, out);
    } else if cur.typ == RSP_DIR {
      used, out := DeserializeDir(buf, at, nbytes, cur, end);
    } else if cur.typ == RSP_ERROR {
      var error;
      used, error := DeserializeUint32(buf, at, nbytes, Unsigned(cur.error), end);
      out := cur.(error := Signed(error));
      ReadyFrame(buf[..end], at, cur, out);
    } else {
      aborted := true;
    }
  }

  lemma ReadyFrame(b: seq<byte>, i: nat, r: RspOut, s: RspOut)
    requires Ready(b, i, r) && s.ents == r.ents
    ensures Ready(b, i, s)
  {
  }

  method DeserializeRsp(buf: array<byte>, at: nat, nbytes: nat, cur: RspOut, ghost end: nat)
    returns (aborted: bool, used: nat, out: RspOut)
    requires end <= buf.Length && nbytes == SizeRem(end, at)
    requires Ready(buf[..end], at + 4, cur)
    ensures var p := ParseResponse(buf[..end], at);
            && (aborted <==> p.Unknown?)
            && (!aborted ==> Took(p, at, end, used) && Ready(buf[..end], at + 4, out))
            && (p.Done? ==> Observed(out) == p.val)
    ensures !aborted ==> used == UsedResponse(buf[..end], at)
  {
    hide ParsePayload, Observed;
    aborted := false;
    var typ;
    used, typ := DeserializeUint32(buf, at, nbytes, cur.typ, end);
    out := cur.(typ := typ);
    ReadyFrame(buf[..end], at + 4, cur, out);
    hide Ready;
    if used > nbytes {
      return;
    }
    var u;
    aborted, u, out := DeserializePayload(buf, at + used, SizeRem(nbytes, used), out, end);
    used := used + u;
  }

  method DeserializeConnect(buf: array<byte>, at: nat, nbytes: nat, cur: Connect, ghost end: nat)
    returns (used: nat, out: Connect)
    requires end <= buf.Length && nbytes == SizeRem(end, at)
    ensures var p := ParseConnect(buf[..end], at); Took(p, at, end, used) && (p.Done? ==> out == p.val)
    ensures ParseConnect(buf[..end], at).More? ==> used == Max(nbytes, 4) + 2
    ensures used == UsedConnect(buf[..end], at)
  {
    hide ParseText, ParseWord;
    var port, name, u;
    used, port := DeserializeUint32(buf, at, nbytes, cur.port, end);
    u, name := DeserializeStr(buf, at + used, SizeRem(nbytes, used), cur.name, end);
    used := used + u;
    out := Connect(name, port);
  }

  // ---- packets ----

  /** `struct middfs_packet` while it is being filled. */
  datatype PktOut = PktOut(magic: u32, typ: u32, req: Request, rsp: RspOut, conn: Connect)

  const ZERO_REQUEST := Request(0, [], NO_RSRC, 0, ZERO, NO_RSRC, ZERO, [])
  const ZERO_PACKET := PktOut(0, 0, ZERO_REQUEST,
                              RspOut(0, ZERO, [], Stat(0, ZERO, ZERO, ZERO), ZERO, None, 0), Connect([], 0))

  function ObservedBody(o: PktOut): Body {
    if o.typ == PKT_REQUEST then ReqBody(Carried(o.req))
    else if o.typ == PKT_RESPONSE then RspBody(Observed(o.rsp))
    else if o.typ == PKT_CONNECT then ConnBody(o.conn)
    else Bare(o.typ)
  }

  function ObservedPacket(o: PktOut): Packet { Packet(o.magic, ObservedBody(o)) }

  /** The structure was zeroed, or was left by earlier attempts on the bytes `b` (whose directory
      count would stand at 12). */
  ghost predicate PacketReady(b: seq<byte>, o: PktOut) { Ready(b, 12, o.rsp) }

  method DeserializeBody(buf: array<byte>, at: nat, nbytes: nat, cur: PktOut, ghost end: nat)
    returns (aborted: bool, used: nat, out: PktOut)
    requires at <= end <= buf.Length && nbytes == SizeRem(end, at)
    requires Ready(buf[..end], at + 4, cur.rsp)
    ensures var p := ParseBody(buf[..end], at, cur.typ);
            && (aborted <==> p.Unknown?)
            && (!aborted ==> Took(p, at, end, used) && Ready(buf[..end], at + 4, out.rsp))
            && (p.Done? ==> ObservedPacket(out) == Packet(cur.magic, p.val))
    ensures !aborted ==> used == UsedBody(buf[..end], at, cur.typ)
  {
    hide ParseRequest, ParseResponse, ParseConnect, Observed, Ready;
    aborted, used, out := false, 0, cur;
    if cur.typ == PKT_REQUEST {
      var r;
      used, r := DeserializeRequest(buf, at, nbytes, cur.req, end);
      out := cur.(req := r);
    } else if cur.typ == PKT_RESPONSE {
      var r;
      aborted, used, r := DeserializeRsp(buf, at, nbytes, cur.rsp, end);
      out := cur.(rsp := r);
    } else if cur.typ == PKT_CONNECT {
      var c;
      used, c := DeserializeConnect(buf, at, nbytes, cur.conn, end);
      out := cur.(conn := c);
    }
  }

  /** Decoding from the start of a buffer gives the answer of the reference parser whatever an
      earlier attempt on these bytes has left in the structure, and leaves it fit for another. */
  method DeserializePkt(buf: array<byte>, nbytes: nat, cur: PktOut) returns (aborted: bool, used: nat, out: PktOut)
    requires nbytes <= buf.Length && PacketReady(buf[..nbytes], cur)
    ensures var p := ParsePacket(buf[..nbytes]);
            && (aborted <==> p.Unknown?)
            && (!aborted ==> PacketReady(buf[..nbytes], out))
            && (p.More? ==> used > nbytes)
            && (p.Done? ==> used == p.next && ObservedPacket(out) == p.val)
    ensures !aborted ==> used == UsedPacket(buf[..nbytes])
  {
    hide ParseBody, ObservedBody, Ready;
    aborted := false;
    var magic, typ, u;
    used, magic := DeserializeUint32(buf, 0, nbytes, cur.magic, nbytes);
    u, typ := DeserializeUint32(buf, used, SizeRem(nbytes, used), cur.typ, nbytes);
    used := used + u;
    out := cur.(magic := magic, typ := typ);
    if nbytes < used {
      return;
    }
    aborted, u, out := DeserializeBody(buf, used, SizeRem(nbytes, used), out, nbytes);
    used := used + u;
  }
}
