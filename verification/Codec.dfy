/** The codec theorems: round trip, transparency of decode-then-encode, and streams of packets. */
module Codec {
  import opened Wire
  import opened Packet
  import opened Decode
  import opened SelfDelimiting
  import opened Exactness
  import opened Streams

  // ---- responses ----

  lemma StatRead(b: seq<byte>, i: nat, s: Stat)
    requires At(b, i, StatFields(s))
    ensures Reads(ParseStat(b, i), s, i, StatFields(s))
  {
    var f, g, h := WideFields(s.size), WideFields(s.blocks), WideFields(s.blksize);
    AtConcat(b, i, [Word(s.mode)], f + (g + h));
    WordRead(b, i, s.mode);
    var j := After(i, [Word(s.mode)]);
    AtConcat(b, j, f, g + h);
    WideRead(b, j, s.size);
    var k := After(j, f);
    AtConcat(b, k, g, h);
    WideRead(b, k, s.blocks);
    WideRead(b, After(k, g), s.blksize);
  }

  lemma StatWritten(b: seq<byte>, i: nat)
    requires ParseStat(b, i).Done?
    ensures var p := ParseStat(b, i); At(b, i, StatFields(p.val)) && p.next == After(i, StatFields(p.val))
  {
    var s := ParseStat(b, i).val;
    var f, g, h := WideFields(s.size), WideFields(s.blocks), WideFields(s.blksize);
    WordWritten(b, i);
    var j := After(i, [Word(s.mode)]);
    WideWritten(b, j);
    var k := After(j, f);
    WideWritten(b, k);
    WideWritten(b, After(k, g));
    AtConcat(b, k, g, h);
    AtConcat(b, j, f, g + h);
    AtConcat(b, i, [Word(s.mode)], f + (g + h));
  }

  lemma DataRead(b: seq<byte>, i: nat, n: Wide, d: seq<byte>)
    requires |d| == Value(n) && At(b, i, DataFields(n, d))
    ensures Reads(ParseData(b, i), (n, d), i, DataFields(n, d))
  {
    AtConcat(b, i, WideFields(n), [Blob(d)]);
    WideRead(b, i, n);
    BlobRead(b, After(i, WideFields(n)), d);
  }

  lemma DataWritten(b: seq<byte>, i: nat)
    requires ParseData(b, i).Done?
    ensures var p := ParseData(b, i); var fs := DataFields(p.val.0, p.val.1);
            |p.val.1| == Value(p.val.0) && At(b, i, fs) && p.next == After(i, fs)
  {
    var n := ParseWide(b, i);
    WideWritten(b, i);
    BlobWritten(b, n.next, Value(n.val));
    AtConcat(b, i, WideFields(n.val), [Blob(ParseData(b, i).val.1)]);
  }

  lemma DirentRead(b: seq<byte>, i: nat, e: Dirent)
    requires At(b, i, DirentFields(e))
    ensures Reads(ParseDirent(b, i), e, i, DirentFields(e))
  {
    AtConcat(b, i, [Text(e.name)], [Word(Unsigned(e.mode))]);
    TextRead(b, i, e.name);
    WordRead(b, After(i, [Text(e.name)]), Unsigned(e.mode));
  }

  lemma DirentWritten(b: seq<byte>, i: nat)
    requires ParseDirent(b, i).Done?
    ensures var p := ParseDirent(b, i); At(b, i, DirentFields(p.val)) && p.next == After(i, DirentFields(p.val))
  {
    var n := ParseText(b, i);
    TextWritten(b, i);
    WordWritten(b, n.next);
    AtConcat(b, i, [Text(n.val)], [Word(ParseWord(b, n.next).val)]);
  }

  lemma {:induction false} DirentsRead(b: seq<byte>, i: nat, es: seq<Dirent>)
    requires At(b, i, DirentsFields(es))
    ensures Reads(ParseDirents(b, i, |es|), es, i, DirentsFields(es))
    decreases |es|
  {
    if es == [] {
      return;
    }
    assert DirentsFields(es) == DirentFields(es[0]) + DirentsFields(es[1..]);
    hide At, Flatten, ParseDirent, DirentFields, DirentsFields, After;
    AtConcat(b, i, DirentFields(es[0]), DirentsFields(es[1..]));
    DirentRead(b, i, es[0]);
    DirentsRead(b, After(i, DirentFields(es[0])), es[1..]);
    assert es == [es[0]] + es[1..];
  }

  lemma {:induction false} DirentsWritten(b: seq<byte>, i: nat, n: nat)
    requires ParseDirents(b, i, n).Done?
    ensures var p := ParseDirents(b, i, n);
            |p.val| == n && At(b, i, DirentsFields(p.val)) && p.next == After(i, DirentsFields(p.val))
    decreases n
  {
    if n == 0 {
      return;
    }
    hide At, Flatten, ParseDirent, DirentFields, After;
    var e := ParseDirent(b, i);
    var es := ParseDirents(b, e.next, n - 1);
    DirentWritten(b, i);
    DirentsWritten(b, e.next, n - 1);
    AtConcat(b, i, DirentFields(e.val), DirentsFields(es.val));
    assert ([e.val] + es.val)[1..] == es.val;
  }

  lemma DirRead(b: seq<byte>, i: nat, n: Wide, es: seq<Dirent>)
    requires |es| == Value(n) && At(b, i, DirFields(n, es))
    ensures Reads(ParseDir(b, i), (n, es), i, DirFields(n, es))
  {
    AtConcat(b, i, WideFields(n), DirentsFields(es));
    WideRead(b, i, n);
    DirentsRead(b, After(i, WideFields(n)), es);
  }

  lemma DirWritten(b: seq<byte>, i: nat)
    requires ParseDir(b, i).Done?
    ensures var p := ParseDir(b, i); var fs := DirFields(p.val.0, p.val.1);
            |p.val.1| == Value(p.val.0) && At(b, i, fs) && p.next == After(i, fs)
  {
    var n := ParseWide(b, i);
    WideWritten(b, i);
    DirentsWritten(b, n.next, Value(n.val));
    AtConcat(b, i, WideFields(n.val), DirentsFields(ParseDir(b, i).val.1));
  }

  lemma PayloadRead(b: seq<byte>, i: nat, r: Response)
    requires ValidResponse(r) && At(b, i, ResponseTail(r))
    ensures Reads(ParsePayload(b, i, ResponseWord(r)), r, i, ResponseTail(r))
  {
    match r
    case RspOk =>
    case RspData(n, d) => DataRead(b, i, n, d);
    case RspStat(s) => StatRead(b, i, s);
    case RspDir(n, es) => DirRead(b, i, n, es);
    case RspError(e) => WordRead(b, i, Unsigned(e));
  }

  lemma PayloadWritten(b: seq<byte>, i: nat, typ: u32)
    requires ParsePayload(b, i, typ).Done?
    ensures var p := ParsePayload(b, i, typ);
            && ResponseWord(p.val) == typ && ValidResponse(p.val)
            && At(b, i, ResponseTail(p.val)) && p.next == After(i, ResponseTail(p.val))
  {
    if typ == RSP_DATA {
      DataWritten(b, i);
    } else if typ == RSP_STAT {
      StatWritten(b, i);
    } else if typ == RSP_DIR {
      DirWritten(b, i);
    } else if typ == RSP_ERROR {
      WordWritten(b, i);
    }
  }

  lemma ResponseRead(b: seq<byte>, i: nat, r: Response)
    requires ValidResponse(r) && At(b, i, ResponseFields(r))
    ensures Reads(ParseResponse(b, i), r, i, ResponseFields(r))
  {
    AtConcat(b, i, [Word(ResponseWord(r))], ResponseTail(r));
    WordRead(b, i, ResponseWord(r));
    PayloadRead(b, After(i, [Word(ResponseWord(r))]), r);
  }

  lemma ResponseWritten(b: seq<byte>, i: nat)
    requires ParseResponse(b, i).Done?
    ensures var p := ParseResponse(b, i);
            && ValidResponse(p.val)
            && At(b, i, ResponseFields(p.val)) && p.next == After(i, ResponseFields(p.val))
  {
    var t := ParseWord(b, i);
    WordWritten(b, i);
    PayloadWritten(b, t.next, t.val);
    AtConcat(b, i, [Word(t.val)], ResponseTail(ParseResponse(b, i).val));
  }

  lemma ConnectRead(b: seq<byte>, i: nat, c: Connect)
    requires At(b, i, ConnectFields(c))
    ensures Reads(ParseConnect(b, i), c, i, ConnectFields(c))
  {
    AtConcat(b, i, [Word(c.port)], [Text(c.name)]);
    WordRead(b, i, c.port);
    TextRead(b, After(i, [Word(c.port)]), c.name);
  }

  lemma ConnectWritten(b: seq<byte>, i: nat)
    requires ParseConnect(b, i).Done?
    ensures var p := ParseConnect(b, i); At(b, i, ConnectFields(p.val)) && p.next == After(i, ConnectFields(p.val))
  {
    var port := ParseWord(b, i);
    WordWritten(b, i);
    TextWritten(b, port.next);
    AtConcat(b, i, [Word(port.val)], [Text(ParseText(b, port.next).val)]);
  }

  // ---- packets ----

  /** The fields of a packet without the casts of the request serialiser. */
  ghost function PlainBody(p: Body): seq<Field> {
    match p
    case ReqBody(r) => PlainFields(r)
    case RspBody(r) => ResponseFields(r)
    case ConnBody(c) => ConnectFields(c)
    case Bare(_) => []
  }

  ghost function PlainPacket(p: Packet): seq<Field> {
    [Word(p.magic)] + ([Word(TypeWord(p.body))] + PlainBody(p.body))
  }

  lemma PacketParts(b: seq<byte>, i: nat, magic: u32, typ: u32, body: seq<Field>)
    ensures var fs := [Word(magic)] + ([Word(typ)] + body);
            && (At(b, i, fs) <==> At(b, i, [Word(magic)]) && At(b, i + 4, [Word(typ)]) && At(b, i + 8, body))
            && After(i, fs) == After(i + 8, body)
  {
    FlattenOne(Word(magic));
    FlattenOne(Word(typ));
    AtConcat(b, i, [Word(magic)], [Word(typ)] + body);
    AtConcat(b, i + 4, [Word(typ)], body);
  }

  lemma PlainPacketRead(b: seq<byte>, i: nat, p: Packet)
    requires ValidPacket(p) && At(b, i, PlainPacket(p))
    ensures var q := if p.body.ReqBody? then p.(body := ReqBody(Carried(p.body.req))) else p;
            Reads(ParsePacketAt(b, i), q, i, PlainPacket(p))
  {
    PacketParts(b, i, p.magic, TypeWord(p.body), PlainBody(p.body));
    WordRead(b, i, p.magic);
    WordRead(b, i + 4, TypeWord(p.body));
    match p.body
    case ReqBody(r) => PlainRead(b, i + 8, r);
    case RspBody(r) => ResponseRead(b, i + 8, r);
    case ConnBody(c) => ConnectRead(b, i + 8, c);
    case Bare(_) =>
  }

  lemma BodyWritten(b: seq<byte>, i: nat, typ: u32)
    requires ParseBody(b, i, typ).Done?
    ensures var p := ParseBody(b, i, typ);
            && TypeWord(p.val) == typ && ValidPacket(Packet(0, p.val))
            && (p.val.ReqBody? ==> Carried(p.val.req) == p.val.req)
            && At(b, i, PlainBody(p.val)) && p.next == After(i, PlainBody(p.val))
  {
    if typ == PKT_REQUEST {
      ParsedIsCarried(b, i);
      PlainWritten(b, i);
    } else if typ == PKT_RESPONSE {
      ResponseWritten(b, i);
    } else if typ == PKT_CONNECT {
      ConnectWritten(b, i);
    }
  }

  lemma PlainPacketWritten(b: seq<byte>, i: nat)
    requires ParsePacketAt(b, i).Done?
    ensures var p := ParsePacketAt(b, i);
            && ValidPacket(p.val)
            && (p.val.body.ReqBody? ==> Carried(p.val.body.req) == p.val.body.req)
            && At(b, i, PlainPacket(p.val)) && p.next == After(i, PlainPacket(p.val))
  {
    var magic := ParseWord(b, i);
    var typ := ParseWord(b, magic.next);
    var body := ParseBody(b, typ.next, typ.val);
    WordWritten(b, i);
    WordWritten(b, i + 4);
    BodyWritten(b, i + 8, typ.val);
    PacketParts(b, i, magic.val, typ.val, PlainBody(body.val));
  }

  // ---- round trip and transparency ----

  ghost function CastPacket(p: Packet): Packet {
    if p.body.ReqBody? then p.(body := ReqBody(Cast(p.body.req))) else p
  }

  /** The data length a WRITE announces survives the 32-bit cast. */
  predicate WriteFits(p: Packet) {
    p.body.ReqBody? && HasData(p.body.req.typ) ==> SignExtend(p.body.req.size) == p.body.req.size
  }

  lemma EncodingStands(p: Packet, rest: seq<byte>)
    requires ValidPacket(p)
    ensures At(Encode(p) + rest, 0, PlainPacket(CastPacket(p)))
    ensures After(0, PlainPacket(CastPacket(p))) == |Encode(p)|
  {
    assert PacketFields(p) == PlainPacket(CastPacket(p));
    assert (Encode(p) + rest)[0..|Encode(p)|] == Encode(p);
  }

  /** Whatever follows it, an encoded packet is read back completely and exactly, with size and
      offset replaced by the sign-extension of their low 32 bits; for a WRITE this holds exactly
      when the announced length survives that. */
  lemma RoundTrip(p: Packet, rest: seq<byte>)
    requires ValidPacket(p)
    ensures ParsePacket(Encode(p) + rest) == Done(PacketArrives(p), |Encode(p)|) <==> WriteFits(p)
  {
    var b := Encode(p) + rest;
    if WriteFits(p) {
      EncodingStands(p, rest);
      PlainPacketRead(b, 0, CastPacket(p));
    } else if ParsePacket(b).Done? {
      PlainPacketWritten(b, 0);
    }
  }

  lemma OptWideLength(present: bool, x: Wide)
    ensures |Flatten(OptWide(present, x))| == if present then 8 else 0
  {
    assert [Word(x.high), Word(x.low)][1..] == [Word(x.low)];
    FlattenOne(Word(x.low));
  }

  /** The casts change no length. */
  lemma CastLength(r: Request)
    ensures |Flatten(PlainFields(Cast(r)))| == |Flatten(PlainFields(r))|
  {
    var c := Cast(r);
    var data := OptBlob(HasData(r.typ), r.data);
    var mode, to := OptWord(HasMode(r.typ), Unsigned(r.mode)), OptRsrc(HasTo(r.typ), r.to);
    OptWideLength(HasSize(r.typ), r.size);
    OptWideLength(HasSize(r.typ), c.size);
    OptWideLength(HasOff(r.typ), r.off);
    OptWideLength(HasOff(r.typ), c.off);
    MiddleLength(r);
    MiddleLength(c);
    FlattenConcat(HeadFields(r), MiddleFields(r) + data);
    FlattenConcat(HeadFields(c), MiddleFields(c) + data);
    FlattenConcat(MiddleFields(r), data);
    FlattenConcat(MiddleFields(c), data);
  }

  lemma MiddleLength(r: Request)
    ensures |Flatten(MiddleFields(r))|
         == |Flatten(OptWord(HasMode(r.typ), Unsigned(r.mode)))| + |Flatten(OptWide(HasSize(r.typ), r.size))|
          + |Flatten(OptRsrc(HasTo(r.typ), r.to))| + |Flatten(OptWide(HasOff(r.typ), r.off))|
  {
    FlattenConcat(ModeSizeFields(r), ToOffFields(r));
    FlattenConcat(OptWord(HasMode(r.typ), Unsigned(r.mode)), OptWide(HasSize(r.typ), r.size));
    FlattenConcat(OptRsrc(HasTo(r.typ), r.to), OptWide(HasOff(r.typ), r.off));
  }

  /** If a request and its cast stand at the same place, the casts did nothing. */
  lemma CastDetermined(b: seq<byte>, i: nat, r: Request)
    requires At(b, i, PlainFields(r)) && At(b, i, PlainFields(Cast(r)))
    ensures SmallRequest(r)
  {
    PlainParts(b, i, r);
    PlainParts(b, i, Cast(r));
    assert HeadFields(r) == HeadFields(Cast(r));
    var j := After(i, HeadFields(r));
    MiddleRead(b, j, r);
    MiddleRead(b, j, Cast(r));
    assert Carried(r).(data := []) == Carried(Cast(r)).(data := []);
  }

  lemma SmallUnchanged(r: Request)
    requires SmallRequest(r)
    ensures PlainFields(Cast(r)) == PlainFields(r)
  {
    assert OptWide(HasSize(r.typ), SignExtend(r.size)) == OptWide(HasSize(r.typ), r.size);
    assert OptWide(HasOff(r.typ), SignExtend(r.off)) == OptWide(HasOff(r.typ), r.off);
  }

  lemma PacketLength(p: Packet)
    requires ValidPacket(p)
    ensures |Flatten(PlainPacket(CastPacket(p)))| == |Flatten(PlainPacket(p))|
  {
    if p.body.ReqBody? {
      CastLength(p.body.req);
      PacketParts([], 0, p.magic, PKT_REQUEST, PlainFields(p.body.req));
      PacketParts([], 0, p.magic, PKT_REQUEST, PlainFields(Cast(p.body.req)));
    }
  }

  lemma RequestTransparent(b: seq<byte>, magic: u32, r: Request)
    requires At(b, 0, PlainPacket(Packet(magic, ReqBody(r))))
    ensures At(b, 0, PlainPacket(Packet(magic, ReqBody(Cast(r))))) <==> SmallRequest(r)
  {
    PacketParts(b, 0, magic, PKT_REQUEST, PlainFields(r));
    PacketParts(b, 0, magic, PKT_REQUEST, PlainFields(Cast(r)));
    if At(b, 8, PlainFields(Cast(r))) {
      CastDetermined(b, 8, r);
    }
    if SmallRequest(r) {
      SmallUnchanged(r);
    }
  }

  /** Forwarding is byte-transparent: re-encoding a decoded packet always has the length of the
      bytes consumed, and is those very bytes exactly when the casts change nothing (so always
      for responses and connects). */
  lemma Transparent(b: seq<byte>)
    requires ParsePacket(b).Done?
    ensures var p := ParsePacket(b);
            && ValidPacket(p.val) && |Encode(p.val)| == p.next
            && (Encode(p.val) == b[..p.next] <==> Small(p.val))
  {
    PlainPacketWritten(b, 0);
    var p := ParsePacket(b).val;
    PacketLength(p);
    assert Encode(p) == Flatten(PlainPacket(CastPacket(p)));
    if p.body.ReqBody? {
      RequestTransparent(b, p.magic, p.body.req);
    }
  }

  /** Encoding what arrived gives the same bytes again: one decode-and-reserialise hop changes
      nothing on the wire. */
  lemma HopIsIdentity(p: Packet, rest: seq<byte>)
    requires ValidPacket(p) && WriteFits(p)
    ensures var q := ParsePacket(Encode(p) + rest);
            q.Done? && ValidPacket(q.val) && Encode(q.val) == Encode(p)
  {
    var b := Encode(p) + rest;
    RoundTrip(p, rest);
    Transparent(b);
    assert b[..|Encode(p)|] == Encode(p);
  }

  // ---- streams ----

  lemma PacketsAreLawful()
    ensures Lawful(ParsePacket)
  {
    forall a, b
      ensures Retries(ParsePacket, a, b)
    {
      if a <= b {
        PacketCut(a, b);
      }
    }
  }

  /** Chunking invariance for packets on arbitrary bytes. */
  lemma PacketChunks(chunks: seq<seq<byte>>)
    ensures Lawful(ParsePacket)
    ensures Feed(ParsePacket, Drained([], []), chunks) == Drain(ParsePacket, Concat(chunks))
  {
    PacketsAreLawful();
    AnyChunking(ParsePacket, chunks);
  }

  function EncodeAll(ps: seq<Packet>): seq<byte> {
    if ps == [] then [] else Encode(ps[0]) + EncodeAll(ps[1..])
  }

  function AllArrive(ps: seq<Packet>): (qs: seq<Packet>)
    ensures |qs| == |ps| && forall i :: 0 <= i < |ps| ==> qs[i] == PacketArrives(ps[i])
  {
    if ps == [] then [] else [PacketArrives(ps[0])] + AllArrive(ps[1..])
  }

  /** Concatenated encodings come back as the same packets in the same order. */
  lemma {:induction false} StreamRoundTrip(ps: seq<Packet>)
    requires forall p | p in ps :: ValidPacket(p) && WriteFits(p)
    ensures Lawful(ParsePacket)
    ensures Drain(ParsePacket, EncodeAll(ps)) == Drained(AllArrive(ps), [])
    decreases |ps|
  {
    PacketsAreLawful();
    if ps != [] {
      var e, rest := Encode(ps[0]), EncodeAll(ps[1..]);
      RoundTrip(ps[0], rest);
      assert (e + rest)[|e|..] == rest;
      StreamRoundTrip(ps[1..]);
      DrainAfter(ParsePacket, e + rest, rest);
    }
  }

  /** A packet arriving in pieces completes on the read that delivers its last byte, not before. */
  lemma CompletesOnLastByte(p: Packet, k: nat)
    requires ValidPacket(p) && WriteFits(p) && k <= |Encode(p)|
    ensures ParsePacket(Encode(p)[..k])
         == if k == |Encode(p)| then Done(PacketArrives(p), k) else More
  {
    RoundTrip(p, []);
    assert Encode(p) + [] == Encode(p);
    PacketCut(Encode(p)[..k], Encode(p));
  }
}
