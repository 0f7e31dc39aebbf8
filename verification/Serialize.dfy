/** The bounded serialisers, writing in place. Each is called with the array, the position of its
    pointer, and the room `nbytes` it may use; `end` names the first position it must not touch. */
module Serialize {
  import opened Wire
  import opened Packet

  /** The effect of a bounded serialiser for the fields `fs`: it reports their bounded size, has
      written all of them when they fit, and never writes outside the room it was given. */
  ghost predicate Put(before: seq<byte>, after: seq<byte>, at: nat, end: nat, fs: seq<Field>, used: nat) {
    && |after| == |before|
    && used == SerSize(fs, SizeRem(end, at))
    && (at + used <= end <= |after| ==> after[at..at + used] == Flatten(fs))
    && (forall k :: 0 <= k < |after| && !(at <= k < end) ==> after[k] == before[k])
  }

  lemma Adjacent(s1: seq<byte>, s2: seq<byte>, at: nat, m: nat, n: nat, x: seq<byte>, y: seq<byte>)
    requires at <= m <= n <= |s1| == |s2|
    requires s1[at..m] == x && s2[m..n] == y
    requires forall k :: at <= k < m ==> s2[k] == s1[k]
    ensures s2[at..n] == x + y
  {
    assert s2[at..m] == s1[at..m];
    assert s2[at..n] == s2[at..m] + s2[m..n];
  }

  lemma PutConcat(s0: seq<byte>, s1: seq<byte>, s2: seq<byte>, at: nat, end: nat,
                  f: seq<Field>, u: nat, g: seq<Field>, v: nat)
    requires end <= |s0|
    requires Put(s0, s1, at, end, f, u) && Put(s1, s2, at + u, end, g, v)
    ensures Put(s0, s2, at, end, f + g, u + v)
  {
    hide SerSize, Flatten;
    assert SizeRem(SizeRem(end, at), u) == SizeRem(end, at + u);
    hide SizeRem;
    SerSizeConcat(f, g, SizeRem(end, at));
    if at + u + v <= end {
      FlattenConcat(f, g);
      Adjacent(s1, s2, at, at + u, at + u + v, Flatten(f), Flatten(g));
    }
  }

  lemma PutNothing(s: seq<byte>, at: nat, end: nat)
    ensures Put(s, s, at, end, [], 0)
  {
  }

  /** `memcpy` */
  method Copy(buf: array<byte>, at: nat, d: seq<byte>)
    requires at + |d| <= buf.Length
    modifies buf
    ensures buf[at..at + |d|] == d
    ensures forall k :: 0 <= k < buf.Length && !(at <= k < at + |d|) ==> buf[k] == old(buf[k])
  {
    forall i | 0 <= i < |d| {
      buf[at + i] := d[i];
    }
  }

  method SerializeUint32(w: u32, buf: array<byte>, at: nat, nbytes: nat, ghost end: nat) returns (used: nat)
    requires end <= buf.Length && nbytes == SizeRem(end, at)
    modifies buf
    ensures Put(old(buf[..]), buf[..], at, end, [Word(w)], used)
  {
    FlattenOne(Word(w));
    if 4 <= nbytes {
      Copy(buf, at, BigEndian(w));
    }
    used := 4;
  }

  method SerializeStr(s: cstr, buf: array<byte>, at: nat, nbytes: nat, ghost end: nat) returns (used: nat)
    requires end <= buf.Length && nbytes == SizeRem(end, at)
    modifies buf
    ensures Put(old(buf[..]), buf[..], at, end, [Text(s)], used)
  {
    FlattenOne(Text(s));
    var len := Min(|s|, nbytes); // strnlen
    if len < nbytes {
      Copy(buf, at, s + [0]); // strcpy
    }
    used := len + 1;
  }

  /** The block of a WRITE request or of a data response. */
  method SerializeBlock(d: seq<byte>, buf: array<byte>, at: nat, nbytes: nat, ghost end: nat) returns (used: nat)
    requires end <= buf.Length && nbytes == SizeRem(end, at)
    modifies buf
    ensures Put(old(buf[..]), buf[..], at, end, [Blob(d)], used)
  {
    FlattenOne(Blob(d));
    if |d| > 0 && |d| <= nbytes {
      Copy(buf, at, d);
    }
    used := |d|;
  }

  method SerializeUint64(x: Wide, buf: array<byte>, at: nat, nbytes: nat, ghost end: nat) returns (used: nat)
    requires end <= buf.Length && nbytes == SizeRem(end, at)
    modifies buf
    ensures Put(old(buf[..]), buf[..], at, end, WideFields(x), used)
  {
    ghost var s0 := buf[..];
    used := SerializeUint32(x.high, buf, at, nbytes, end);
    ghost var s1, u := buf[..], used;
    var v := SerializeUint32(x.low, buf, at + used, SizeRem(nbytes, used), end);
    PutConcat(s0, s1, buf[..], at, end, [Word(x.high)], u, [Word(x.low)], v);
    used := used + v;
  }

  method SerializeRsrc(r: Rsrc, buf: array<byte>, at: nat, nbytes: nat, ghost end: nat) returns (used: nat)
    requires end <= buf.Length && nbytes == SizeRem(end, at)
    modifies buf
    ensures Put(old(buf[..]), buf[..], at, end, RsrcFields(r), used)
  {
    ghost var s0 := buf[..];
    used := SerializeStr(r.owner, buf, at, nbytes, end);
    ghost var s1, u := buf[..], used;
    var v := SerializeStr(r.path, buf, at + used, SizeRem(nbytes, used), end);
    PutConcat(s0, s1, buf[..], at, end, [Text(r.owner)], u, [Text(r.path)], v);
    used := used + v;
  }

  // ---- requests ----

  /** The members every request has. */
  method SerializeHead(r: Request, buf: array<byte>, at: nat, nbytes: nat, ghost end: nat) returns (used: nat)
    requires end <= buf.Length && nbytes == SizeRem(end, at)
    modifies buf
    ensures Put(old(buf[..]), buf[..], at, end, HeadFields(r), used)
  {
    hide Put, SerSize, Flatten;
    ghost var s0 := buf[..];
    used := SerializeUint32(r.typ, buf, at, nbytes, end);
    ghost var s1, u := buf[..], used;
    var v := SerializeStr(r.requester, buf, at + used, SizeRem(nbytes, used), end);
    used := used + v;
    ghost var s2 := buf[..];
    var w := SerializeRsrc(r.rsrc, buf, at + used, SizeRem(nbytes, used), end);
    used := used + w;
    PutConcat(s1, s2, buf[..], at + u, end, [Text(r.requester)], v, RsrcFields(r.rsrc), w);
    PutConcat(s0, s1, buf[..], at, end, [Word(r.typ)], u, [Text(r.requester)] + RsrcFields(r.rsrc), v + w);
  }

  method SerializeModeSize(r: Request, buf: array<byte>, at: nat, nbytes: nat, ghost end: nat) returns (used: nat)
    requires end <= buf.Length && nbytes == SizeRem(end, at)
    modifies buf
    ensures Put(old(buf[..]), buf[..], at, end, ModeSizeFields(Cast(r)), used)
  {
    hide Put, SerSize, Flatten, WideFields;
    ghost var s0 := buf[..];
    used := 0;
    PutNothing(s0, at, end);
    if HasMode(r.typ) {
      used := SerializeUint32(Unsigned(r.mode), buf, at, nbytes, end);
    }
    ghost var s1, u := buf[..], used;
    var v := 0;
    PutNothing(s1, at + u, end);
    if HasSize(r.typ) {
      v := SerializeUint64(SignExtend(r.size), buf, at + used, SizeRem(nbytes, used), end);
    }
    used := used + v;
    PutConcat(s0, s1, buf[..], at, end, OptWord(HasMode(r.typ), Unsigned(r.mode)), u,
              OptWide(HasSize(r.typ), SignExtend(r.size)), v);
  }

  method SerializeToOff(r: Request, buf: array<byte>, at: nat, nbytes: nat, ghost end: nat) returns (used: nat)
    requires end <= buf.Length && nbytes == SizeRem(end, at)
    modifies buf
    ensures Put(old(buf[..]), buf[..], at, end, ToOffFields(Cast(r)), used)
  {
    hide Put, SerSize, Flatten, WideFields, RsrcFields;
    ghost var s0 := buf[..];
    used := 0;
    PutNothing(s0, at, end);
    if HasTo(r.typ) {
      used := SerializeRsrc(r.to, buf, at, nbytes, end);
    }
    ghost var s1, u := buf[..], used;
    var v := 0;
    PutNothing(s1, at + u, end);
    if HasOff(r.typ) {
      v := SerializeUint64(SignExtend(r.off), buf, at + used, SizeRem(nbytes, used), end);
    }
    used := used + v;
    PutConcat(s0, s1, buf[..], at, end, OptRsrc(HasTo(r.typ), r.to), u,
              OptWide(HasOff(r.typ), SignExtend(r.off)), v);
  }

  method SerializeRequest(r: Request, buf: array<byte>, at: nat, nbytes: nat, ghost end: nat) returns (used: nat)
    requires end <= buf.Length && nbytes == SizeRem(end, at)
    modifies buf
    ensures Put(old(buf[..]), buf[..], at, end, RequestFields(r), used)
  {
    hide Put, SerSize, Flatten;
    ghost var s0 := buf[..];
    used := SerializeHead(r, buf, at, nbytes, end);
    ghost var s1, u := buf[..], used;
    var v := SerializeModeSize(r, buf, at + used, SizeRem(nbytes, used), end);
    used := used + v;
    ghost var s2, p := buf[..], used;
    var w := SerializeToOff(r, buf, at + used, SizeRem(nbytes, used), end);
    used := used + w;
    ghost var s3, q := buf[..], used;
    var x := 0;
    PutNothing(s3, at + q, end);
    if HasData(r.typ) {
      x := SerializeBlock(r.data, buf, at + used, SizeRem(nbytes, used), end);
    }
    used := used + x;
    ghost var c := Cast(r);
    assert HeadFields(c) == HeadFields(r);
    ghost var data := OptBlob(HasData(r.typ), r.data);
    PutConcat(s1, s2, s3, at + u, end, ModeSizeFields(c), v, ToOffFields(c), w);
    PutConcat(s1, s3, buf[..], at + u, end, MiddleFields(c), v + w, data, x);
    PutConcat(s0, s1, buf[..], at, end, HeadFields(c), u, MiddleFields(c) + data, v + w + x);
  }

  // ---- responses ----

  method SerializeStat(s: Stat, buf: array<byte>, at: nat, nbytes: nat, ghost end: nat) returns (used: nat)
    requires end <= buf.Length && nbytes == SizeRem(end, at)
    modifies buf
    ensures Put(old(buf[..]), buf[..], at, end, StatFields(s), used)
  {
    hide Put, SerSize, Flatten;
    ghost var s0 := buf[..];
    used := SerializeUint32(s.mode, buf, at, nbytes, end);
    ghost var s1, t := buf[..], used;
    var u := SerializeUint64(s.size, buf, at + used, SizeRem(nbytes, used), end);
    used := used + u;
    ghost var s2 := buf[..];
    var v := SerializeUint64(s.blocks, buf, at + used, SizeRem(nbytes, used), end);
    used := used + v;
    ghost var s3 := buf[..];
    var w := SerializeUint64(s.blksize, buf, at + used, SizeRem(nbytes, used), end);
    used := used + w;
    ghost var f, g, h := WideFields(s.size), WideFields(s.blocks), WideFields(s.blksize);
    PutConcat(s2, s3, buf[..], at + t + u, end, g, v, h, w);
    PutConcat(s1, s2, buf[..], at + t, end, f, u, g + h, v + w);
    PutConcat(s0, s1, buf[..], at, end, [Word(s.mode)], t, f + (g + h), u + v + w);
  }

  method SerializeData(n: Wide, d: seq<byte>, buf: array<byte>, at: nat, nbytes: nat, ghost end: nat)
      returns (used: nat)
    requires end <= buf.Length && nbytes == SizeRem(end, at)
    modifies buf
    ensures Put(old(buf[..]), buf[..], at, end, DataFields(n, d), used)
  {
    ghost var s0 := buf[..];
    used := SerializeUint64(n, buf, at, nbytes, end);
    ghost var s1, u := buf[..], used;
    var v := SerializeBlock(d, buf, at + used, SizeRem(nbytes, used), end);
    used := used + v;
    PutConcat(s0, s1, buf[..], at, end, WideFields(n), u, [Blob(d)], v);
  }

  method SerializeDirent(e: Dirent, buf: array<byte>, at: nat, nbytes: nat, ghost end: nat) returns (used: nat)
    requires end <= buf.Length && nbytes == SizeRem(end, at)
    modifies buf
    ensures Put(old(buf[..]), buf[..], at, end, DirentFields(e), used)
  {
    ghost var s0 := buf[..];
    used := SerializeStr(e.name, buf, at, nbytes, end);
    ghost var s1, u := buf[..], used;
    var v := SerializeUint32(Unsigned(e.mode), buf, at + used, SizeRem(nbytes, used), end);
    used := used + v;
    PutConcat(s0, s1, buf[..], at, end, [Text(e.name)], u, [Word(Unsigned(e.mode))], v);
  }

  lemma {:induction false} DirentsSnoc(es: seq<Dirent>, e: Dirent)
    ensures DirentsFields(es + [e]) == DirentsFields(es) + DirentFields(e)
    decreases |es|
  {
    if es == [] {
      assert ([e])[1..] == [];
    } else {
      assert (es + [e])[1..] == es[1..] + [e];
      DirentsSnoc(es[1..], e);
      assert DirentFields(es[0]) + (DirentsFields(es[1..]) + DirentFields(e))
          == DirentFields(es[0]) + DirentsFields(es[1..]) + DirentFields(e);
    }
  }

  method SerializeDir(count: Wide, es: seq<Dirent>, buf: array<byte>, at: nat, nbytes: nat, ghost end: nat)
      returns (used: nat)
    requires |es| == Value(count)
    requires end <= buf.Length && nbytes == SizeRem(end, at)
    modifies buf
    ensures Put(old(buf[..]), buf[..], at, end, DirFields(count, es), used)
  {
    hide Put, SerSize, Flatten;
    ghost var s0 := buf[..];
    used := SerializeUint64(count, buf, at, nbytes, end);
    ghost var n := WideFields(count);
    assert n + DirentsFields(es[..0]) == n;
    for i := 0 to Value(count)
      invariant Put(s0, buf[..], at, end, n + DirentsFields(es[..i]), used)
    {
      ghost var s1, u := buf[..], used;
      var v := SerializeDirent(es[i], buf, at + used, SizeRem(nbytes, used), end);
      used := used + v;
      PutConcat(s0, s1, buf[..], at, end, n + DirentsFields(es[..i]), u, DirentFields(es[i]), v);
      DirentsSnoc(es[..i], es[i]);
      assert es[..i + 1] == es[..i] + [es[i]];
      assert n + DirentsFields(es[..i + 1]) == n + DirentsFields(es[..i]) + DirentFields(es[i]);
    }
    assert es[..|es|] == es;
  }

  method SerializeRsp(r: Response, buf: array<byte>, at: nat, nbytes: nat, ghost end: nat) returns (used: nat)
    requires ValidResponse(r)
    requires end <= buf.Length && nbytes == SizeRem(end, at)
    modifies buf
    ensures Put(old(buf[..]), buf[..], at, end, ResponseFields(r), used)
  {
    hide Put, SerSize, Flatten;
    ghost var s0 := buf[..];
    used := SerializeUint32(ResponseWord(r), buf, at, nbytes, end);
    ghost var s1, u := buf[..], used;
    var v := 0;
    PutNothing(s1, at + u, end);
    match r {
      case RspOk =>
      case RspData(n, d) => v := SerializeData(n, d, buf, at + used, SizeRem(nbytes, used), end);
      case RspStat(s) => v := SerializeStat(s, buf, at + used, SizeRem(nbytes, used), end);
      case RspDir(n, es) => v := SerializeDir(n, es, buf, at + used, SizeRem(nbytes, used), end);
      case RspError(e) => v := SerializeUint32(Unsigned(e), buf, at + used, SizeRem(nbytes, used), end);
    }
    used := used + v;
    PutConcat(s0, s1, buf[..], at, end, [Word(ResponseWord(r))], u, ResponseTail(r), v);
  }

  method SerializeConnect(c: Connect, buf: array<byte>, at: nat, nbytes: nat, ghost end: nat) returns (used: nat)
    requires end <= buf.Length && nbytes == SizeRem(end, at)
    modifies buf
    ensures Put(old(buf[..]), buf[..], at, end, ConnectFields(c), used)
  {
    ghost var s0 := buf[..];
    used := SerializeUint32(c.port, buf, at, nbytes, end);
    ghost var s1, u := buf[..], used;
    var v := SerializeStr(c.name, buf, at + used, SizeRem(nbytes, used), end);
    used := used + v;
    PutConcat(s0, s1, buf[..], at, end, [Word(c.port)], u, [Text(c.name)], v);
  }

  // ---- packets ----

  method SerializeBody(p: Packet, buf: array<byte>, at: nat, nbytes: nat, ghost end: nat) returns (used: nat)
    requires ValidPacket(p)
    requires end <= buf.Length && nbytes == SizeRem(end, at)
    modifies buf
    ensures Put(old(buf[..]), buf[..], at, end, BodyFields(p.body), used)
  {
    used := 0;
    PutNothing(buf[..], at, end);
    match p.body {
      case ReqBody(r) => used := SerializeRequest(r, buf, at, nbytes, end);
      case RspBody(r) => used := SerializeRsp(r, buf, at, nbytes, end);
      case ConnBody(c) => used := SerializeConnect(c, buf, at, nbytes, end);
      case Bare(_) =>
    }
  }

  method SerializePkt(p: Packet, buf: array<byte>, at: nat, nbytes: nat, ghost end: nat) returns (used: nat)
    requires ValidPacket(p)
    requires end <= buf.Length && nbytes == SizeRem(end, at)
    modifies buf
    ensures Put(old(buf[..]), buf[..], at, end, PacketFields(p), used)
  {
    hide Put, SerSize, Flatten;
    ghost var s0 := buf[..];
    used := SerializeUint32(p.magic, buf, at, nbytes, end);
    ghost var s1, t := buf[..], used;
    var u := SerializeUint32(TypeWord(p.body), buf, at + used, SizeRem(nbytes, used), end);
    used := used + u;
    ghost var s2 := buf[..];
    var v := SerializeBody(p, buf, at + used, SizeRem(nbytes, used), end);
    used := used + v;
    PutConcat(s1, s2, buf[..], at + t, end, [Word(TypeWord(p.body))], u, BodyFields(p.body), v);
    PutConcat(s0, s1, buf[..], at, end, [Word(p.magic)], t, [Word(TypeWord(p.body))] + BodyFields(p.body), u + v);
  }
}
