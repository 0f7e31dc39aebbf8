/** The bytes on the wire, written out: for every kind of packet and every type of request and response,
    with the numbers of the types, which bytes a packet is sent as and which members come back. */
module Layout {
  import opened Wire
  import opened Packet
  import opened Decode
  import opened Codec

  /** A string with its terminator. */
  function Str(s: cstr): seq<byte> { s + [0] }

  function Int64(x: Wide): seq<byte> { BigEndian(x.high) + BigEndian(x.low) }

  /** The eight bytes are the 64-bit value, the most significant byte first. */
  lemma Int64Means(x: Wide)
    ensures var b := Int64(x);
      && |b| == 8
      && Value(x) == 0x1_0000_0000
         * (0x100_0000 * b[0] as int + 0x1_0000 * b[1] as int + 0x100 * b[2] as int + b[3] as int)
         + (0x100_0000 * b[4] as int + 0x1_0000 * b[5] as int + 0x100 * b[6] as int + b[7] as int)
  {
    hide BigEndian;
    BigEndianMeans(x.high);
    BigEndianMeans(x.low);
  }

  // ---- the pieces ----

  lemma FlattenCons(f: Field, fs: seq<Field>)
    ensures Flatten([f] + fs) == Bytes(f) + Flatten(fs)
  {
    assert ([f] + fs)[1..] == fs;
  }

  lemma FlattenWide(x: Wide)
    ensures Flatten(WideFields(x)) == Int64(x)
  {
    assert WideFields(x) == [Word(x.high)] + [Word(x.low)];
    FlattenCons(Word(x.high), [Word(x.low)]);
    FlattenOne(Word(x.low));
  }

  lemma FlattenRsrc(r: Rsrc)
    ensures Flatten(RsrcFields(r)) == Str(r.owner) + Str(r.path)
  {
    assert RsrcFields(r) == [Text(r.owner)] + [Text(r.path)];
    FlattenCons(Text(r.owner), [Text(r.path)]);
    FlattenOne(Text(r.path));
  }

  lemma FlattenHead(r: Request)
    ensures Flatten(HeadFields(r)) == BigEndian(r.typ) + (Str(r.requester) + (Str(r.rsrc.owner) + Str(r.rsrc.path)))
  {
    FlattenCons(Word(r.typ), [Text(r.requester)] + RsrcFields(r.rsrc));
    FlattenCons(Text(r.requester), RsrcFields(r.rsrc));
    FlattenRsrc(r.rsrc);
  }

  /** Every packet starts with its magic number and the number of its kind. */
  lemma EncodePacket(p: Packet)
    ensures Encode(p) == BigEndian(p.magic) + (BigEndian(TypeWord(p.body)) + Flatten(BodyFields(p.body)))
  {
    FlattenCons(Word(p.magic), [Word(TypeWord(p.body))] + BodyFields(p.body));
    FlattenCons(Word(TypeWord(p.body)), BodyFields(p.body));
  }

  // ---- packets ----

  lemma ConnectBytes(magic: u32, c: Connect)
    ensures Encode(Packet(magic, ConnBody(c)))
      == BigEndian(magic) + (BigEndian(1) + (BigEndian(c.port) + Str(c.name)))
  {
    EncodePacket(Packet(magic, ConnBody(c)));
    FlattenCons(Word(c.port), [Text(c.name)]);
    FlattenOne(Text(c.name));
  }

  /** DISCONNECT, number 2, and unknown kinds have no more than that. */
  lemma BareBytes(magic: u32, typ: u32)
    ensures Encode(Packet(magic, Bare(typ))) == BigEndian(magic) + BigEndian(typ)
  {
    EncodePacket(Packet(magic, Bare(typ)));
    assert BigEndian(typ) + [] == BigEndian(typ);
  }

  // ---- responses ----

  lemma ResponseBytes(magic: u32, r: Response)
    ensures Encode(Packet(magic, RspBody(r))) == BigEndian(magic) + (BigEndian(4) +
      match r
      case RspOk => BigEndian(0)
      case RspData(n, d) => BigEndian(1) + (Int64(n) + d)
      case RspStat(s) => BigEndian(2) + (BigEndian(s.mode) + (Int64(s.size) + (Int64(s.blocks) + Int64(s.blksize))))
      case RspDir(n, es) => BigEndian(3) + (Int64(n) + Entries(es))
      case RspError(e) => BigEndian(4) + BigEndian(Unsigned(e)))
  {
    hide BigEndian, Int64;
    EncodePacket(Packet(magic, RspBody(r)));
    FlattenCons(Word(ResponseWord(r)), ResponseTail(r));
    match r
    case RspOk => assert BigEndian(0) + [] == BigEndian(0);
    case RspData(n, d) =>
      FlattenWide(n);
      FlattenConcat(WideFields(n), [Blob(d)]);
      FlattenOne(Blob(d));
    case RspStat(s) =>
      FlattenCons(Word(s.mode), WideFields(s.size) + (WideFields(s.blocks) + WideFields(s.blksize)));
      FlattenConcat(WideFields(s.size), WideFields(s.blocks) + WideFields(s.blksize));
      FlattenConcat(WideFields(s.blocks), WideFields(s.blksize));
      FlattenWide(s.size);
      FlattenWide(s.blocks);
      FlattenWide(s.blksize);
    case RspDir(n, es) =>
      FlattenWide(n);
      FlattenConcat(WideFields(n), DirentsFields(es));
      EntriesBytes(es);
    case RspError(e) => FlattenOne(Word(Unsigned(e)));
  }

  /** Name and mode, one entry after the other. */
  function Entries(es: seq<Dirent>): seq<byte> {
    if es == [] then [] else Str(es[0].name) + (BigEndian(Unsigned(es[0].mode)) + Entries(es[1..]))
  }

  lemma {:induction false} EntriesBytes(es: seq<Dirent>)
    ensures Flatten(DirentsFields(es)) == Entries(es)
    decreases |es|
  {
    if es != [] {
      var e := es[0];
      EntriesBytes(es[1..]);
      FlattenConcat(DirentFields(e), DirentsFields(es[1..]));
      FlattenCons(Text(e.name), [Word(Unsigned(e.mode))]);
      FlattenOne(Word(Unsigned(e.mode)));
    }
  }

  // ---- requests ----

  /** What a request carries for its type: ACCESS 2, CHMOD 9, OPEN 11 and CREATE 12 a mode; READLINK 3,
      TRUNCATE 10, READ 13 and WRITE 14 a size; SYMLINK 5 and RENAME 8 a second resource; READ and WRITE an
      offset; WRITE the data. Size and offset go as their low 32 bits sign-extended. */
  function RequestTail(r: Request): seq<byte> {
    match r.typ
    case 2 => BigEndian(Unsigned(r.mode))
    case 9 => BigEndian(Unsigned(r.mode))
    case 11 => BigEndian(Unsigned(r.mode))
    case 12 => BigEndian(Unsigned(r.mode))
    case 3 => Int64(SignExtend(r.size))
    case 10 => Int64(SignExtend(r.size))
    case 13 => Int64(SignExtend(r.size)) + Int64(SignExtend(r.off))
    case 14 => Int64(SignExtend(r.size)) + Int64(SignExtend(r.off)) + r.data
    case 5 => Str(r.to.owner) + Str(r.to.path)
    case 8 => Str(r.to.owner) + Str(r.to.path)
    case _ => []
  }

  lemma MiddleBytes(r: Request)
    ensures Flatten(MiddleFields(r))
      == (if HasMode(r.typ) then BigEndian(Unsigned(r.mode)) else [])
       + (if HasSize(r.typ) then Int64(r.size) else [])
       + ((if HasTo(r.typ) then Str(r.to.owner) + Str(r.to.path) else [])
         + (if HasOff(r.typ) then Int64(r.off) else []))
  {
    hide BigEndian, Int64, WideFields, RsrcFields, HasMode, HasSize, HasTo, HasOff;
    FlattenConcat(ModeSizeFields(r), ToOffFields(r));
    FlattenConcat(OptWord(HasMode(r.typ), Unsigned(r.mode)), OptWide(HasSize(r.typ), r.size));
    FlattenConcat(OptRsrc(HasTo(r.typ), r.to), OptWide(HasOff(r.typ), r.off));
    FlattenOne(Word(Unsigned(r.mode)));
    FlattenWide(r.size);
    FlattenWide(r.off);
    FlattenRsrc(r.to);
  }

  lemma TailBytes(r: Request)
    ensures Flatten(MiddleFields(Cast(r)) + OptBlob(HasData(r.typ), r.data)) == RequestTail(r)
  {
    hide BigEndian, Int64, SignExtend, MiddleFields, Str;
    MiddleBytes(Cast(r));
    FlattenConcat(MiddleFields(Cast(r)), OptBlob(HasData(r.typ), r.data));
    FlattenOne(Blob(r.data));
  }

  /** A request goes as its type, the requester's name, owner and path, and what the type carries. */
  lemma RequestBytes(magic: u32, r: Request)
    ensures Encode(Packet(magic, ReqBody(r))) == BigEndian(magic) + (BigEndian(3) + (BigEndian(r.typ)
      + (Str(r.requester) + (Str(r.rsrc.owner) + Str(r.rsrc.path))) + RequestTail(r)))
  {
    hide BigEndian, RequestTail, MiddleFields, HasData, Str;
    EncodePacket(Packet(magic, ReqBody(r)));
    var c := Cast(r);
    FlattenConcat(HeadFields(c), MiddleFields(c) + OptBlob(HasData(r.typ), r.data));
    FlattenHead(c);
    TailBytes(r);
  }

  // ---- what comes back ----

  /** What a request that has been sent comes back as, member by member and type by type. */
  lemma RequestComesBack(p: Packet, rest: seq<byte>)
    requires ValidPacket(p) && WriteFits(p) && p.body.ReqBody?
    ensures var r := p.body.req; var back := ParsePacket(Encode(p) + rest);
      && back.Done? && back.next == |Encode(p)| && back.val.magic == p.magic && back.val.body.ReqBody?
      && var q := back.val.body.req;
      && q.typ == r.typ && q.requester == r.requester && q.rsrc == r.rsrc
      && q.mode == (if r.typ in {2, 9, 11, 12} then r.mode else 0)
      && q.size == (if r.typ in {3, 10, 13, 14} then SignExtend(r.size) else Wide(0, 0))
      && q.to == (if r.typ in {5, 8} then r.to else Rsrc([], []))
      && q.off == (if r.typ in {13, 14} then SignExtend(r.off) else Wide(0, 0))
      && q.data == (if r.typ == 14 then r.data else [])
  {
    hide ParsePacket, Encode;
    RoundTrip(p, rest);
  }

  /** Every other packet comes back as it is. */
  lemma OthersComeBack(p: Packet, rest: seq<byte>)
    requires ValidPacket(p) && !p.body.ReqBody?
    ensures ParsePacket(Encode(p) + rest) == Done(p, |Encode(p)|)
  {
    hide ParsePacket, Encode;
    RoundTrip(p, rest);
  }

  /** Exactly the responses of a type number of 5 or more are unknown, as soon as that number is there. */
  lemma UnknownExactly(b: seq<byte>)
    ensures ParsePacket(b).Unknown? <==>
      |b| >= 12 && b[4..8] == [0, 0, 0, 4] && !(b[8..11] == [0, 0, 0] && b[11] < 5)
  {
    hide ParseRequest, ParseConnect, ParseData, ParseStat, ParseDir, FromBigEndian;
    if |b| >= 12 {
      SmallWord(b[4..8]);
      SmallWord(b[8..12]);
    }
  }

  lemma SmallWord(b: seq<byte>)
    requires |b| == 4
    ensures FromBigEndian(b) < 5 <==> b[..3] == [0, 0, 0] && b[3] < 5
    ensures FromBigEndian(b) < 5 ==> FromBigEndian(b) == b[3]
  {
  }
}
