/** A read of another client's file: the requester's side of the exchange, and what the requester, the
    server and the owner together make of it. */
module RemoteRead {
  import opened Wire
  import opened Packet
  import opened Decode
  import opened Owner
  import opened Codec
  import opened Layout
  import opened Registry
  import opened Relay
  import opened RelayInvariant
  import opened RelaySafety
  import opened Announcements

  // ---- the requester ----

  function ReadPacket(user: cstr, rsrc: Rsrc, size: Wide, off: Wide): Packet {
    Packet(MAGIC, ReqBody(Request(REQ_READ, user, rsrc, 0, size, NO_RSRC, off, [])))
  }

  /** The bytes the requester sends for a read. */
  lemma ReadPacketBytes(user: cstr, rsrc: Rsrc, size: Wide, off: Wide)
    ensures Encode(ReadPacket(user, rsrc, size, off))
      == BigEndian(1800) + (BigEndian(3) + (BigEndian(13) + (Str(user) + (Str(rsrc.owner) + Str(rsrc.path)))
           + (Int64(SignExtend(size)) + Int64(SignExtend(off)))))
  {
    hide Encode, BigEndian, Str, Int64;
    RequestBytes(MAGIC, ReadPacket(user, rsrc, size, off).body.req);
  }

  /** What `packet_xchg` comes back with. */
  datatype Exchange = Broken(errno: Errno) | Got(pkt: Packet)

  /** How the network branch of `client_rsrc_read` takes it. */
  function Judge(x: Exchange, size: Wide): ReadOutcome {
    match x
    case Broken(e) => Failed(e)
    case Got(p) =>
      if p.magic != MAGIC || !p.body.RspBody? then Failed(EIO)
      else
        match p.body.rsp
        case RspData(_, d) => Took(d[..Min(Value(size), |d|)])
        case RspError(e) => Failed(e)
        case _ => Failed(EIO)
  }

  /** The conversion of a `size_t` to `int`. */
  function ToInt(n: nat): i32
    requires n < WIDE_LIMIT
  {
    Signed(ToWide(n).low)
  }

  /** The same value modulo 2^32, and so the count itself below 2^31. */
  lemma ToIntMeans(n: nat) returns (q: nat)
    requires n < WIDE_LIMIT
    ensures n == ToInt(n) + 0x1_0000_0000 * q
    ensures n < 0x8000_0000 ==> ToInt(n) == n
  {
    var x := ToWide(n);
    q := if x.low < 0x8000_0000 then x.high else x.high + 1;
    assert n < 0x8000_0000 ==> x.high == 0;
  }

  /** The network branch of `client_rsrc_read`. */
  method ReadNetwork(user: cstr, rsrc: Rsrc, buf: array<byte>, size: Wide, off: Wide, xchg: Packet -> Exchange)
      returns (retv: int)
    requires Value(size) <= buf.Length
    requires forall p :: xchg(p).Got? ==> ValidPacket(xchg(p).pkt)
    modifies buf
    ensures match Judge(xchg(ReadPacket(user, rsrc, size, off)), size)
      case Failed(e) => retv == -e && buf[..] == old(buf[..])
      case Took(d) => |d| <= Value(size) && retv == ToInt(|d|) && buf[..] == d + old(buf[|d|..])
    ensures match xchg(ReadPacket(user, rsrc, size, off))
      case Broken(e) => retv == -(e as int) && buf[..] == old(buf[..])
      case Got(p) =>
        if p.magic != 1800 || !p.body.RspBody? then retv == -5 && buf[..] == old(buf[..])
        else
          match p.body.rsp
          case RspData(_, d) =>
            var m := Min(Value(size), |d|);
            && buf[..m] == d[..m] && buf[m..] == old(buf[m..])
            && (m < 0x8000_0000 ==> retv == m)
          case RspError(e) => retv == -(e as int) && buf[..] == old(buf[..])
          case _ => retv == -5 && buf[..] == old(buf[..])
  {
    hide Value, ToWide, Signed, ReadPacket;
    var x := xchg(ReadPacket(user, rsrc, size, off));
    if x.Broken? {
      return -(x.errno as int);
    }
    var p := x.pkt;
    if p.magic != MAGIC || !p.body.RspBody? {
      return -(EIO as int);
    }
    match p.body.rsp {
      case RspData(n, d) =>
        var nbytes := Min(Value(size), Value(n));
        forall k | 0 <= k < nbytes {
          buf[k] := d[k];
        }
        assert buf[..nbytes] == d[..nbytes];
        ghost var _ := ToIntMeans(nbytes);
        return ToInt(nbytes);
      case RspError(e) => return -(e as int);
      case _ => return -(EIO as int);
    }
  }

  // ---- end to end ----

  /** A read as the owner gets it: size and offset went through the 32-bit casts, and the
      requester keeps no more than it asked for. */
  function ReadAcross(d: Disk, size: Wide, off: Wide): ReadOutcome {
    match OwnerRead(d, SignExtend(size), SignExtend(off))
    case Failed(e) => Failed(e)
    case Took(b) => Took(b[..Min(Value(size), |b|)])
  }

  /** The whole packet of a one-packet stream has been read. */
  lemma ReceivedWhole(st: Stream, p: Packet)
    requires Received(st) && ValidPacket(p) && WriteFits(p) && st.script == Encode(p)
    ensures Msg(st) == PacketArrives(p)
  {
    hide ParsePacket, Encode;
    CompletesOnLastByte(p, st.got);
  }

  lemma SentComesBack(p: Packet)
    requires ValidPacket(p) && WriteFits(p)
    ensures ParsePacket(Encode(p)) == Done(PacketArrives(p), |Encode(p)|)
  {
    RoundTrip(p, []);
    assert Encode(p) + [] == Encode(p);
  }

  /** The read request the owner finds in what the server forwarded. */
  lemma OwnerSees(user: cstr, rsrc: Rsrc, size: Wide, off: Wide)
    ensures var p := ReadPacket(user, rsrc, size, off);
      && ValidPacket(p) && WriteFits(p)
      && PacketArrives(p) == ReadPacket(user, rsrc, SignExtend(size), SignExtend(off))
      && ParsePacket(Encode(PacketArrives(p))) == Done(PacketArrives(p), |Encode(PacketArrives(p))|)
  {
    hide ParsePacket, Encode;
    SentComesBack(ReadPacket(user, rsrc, SignExtend(size), SignExtend(off)));
  }

  lemma ReadReplies(user: cstr, rsrc: Rsrc, size: Wide, off: Wide, os: Os)
    ensures var r := ReadPacket(user, rsrc, SignExtend(size), SignExtend(off)).body.req;
      && ValidPacket(ReplyPacket(r, os)) && PacketArrives(ReplyPacket(r, os)) == ReplyPacket(r, os)
      && Judge(Got(ReplyPacket(r, os)), size) == ReadAcross(os.disk(rsrc.path), size, off)
  {
    hide Value, ToWide;
  }

  // ---- the responder ----

  /** A connection finished by a responder: its run, the moment, the entry, and the last turn. */
  datatype Service = Service(run: seq<Moment>, k: nat, i: nat, ch: Choice)

  /** The two ends of one connection that has carried everything over. */
  predicate Crossed(a: Stream, b: Stream) { a.put == b.script && a.script == b.put }

  /** The other end of `peer` was this responder. */
  ghost predicate Serves(r: Service, peer: Stream) {
    && IsRun(r.run) && Finishes(r.run, r.k, r.i, r.ch)
    && var w := r.run[r.k].world;
    && w.hi.ClientHi? && r.i < |w.table| && r.i < |w.stories|
    && w.table[r.i].out.fd in w.kernel && Crossed(peer, w.kernel[w.table[r.i].out.fd])
  }

  ghost function ServiceStory(r: Service): Story
    requires r.k < |r.run| && r.i < |r.run[r.k].world.stories|
  {
    r.run[r.k].world.stories[r.i]
  }

  /** What a responder that was sent a read has sent back is the reply of its system. */
  lemma ServiceOfRead(r: Service, peer: Stream, user: cstr, rsrc: Rsrc, size: Wide, off: Wide)
    requires Serves(r, peer) && peer.put == Encode(ReadPacket(user, rsrc, SignExtend(size), SignExtend(off)))
    ensures ServiceStory(r).Replied?
    ensures peer.script
      == Encode(ReplyPacket(ReadPacket(user, rsrc, SignExtend(size), SignExtend(off)).body.req, ServiceStory(r).os))
  {
    hide ParsePacket, Encode, Received, Handles, Happened, IsRun, Reply;
    WholeReply(r.run, r.k, r.i, r.ch);
    var w := r.run[r.k].world;
    OwnerSees(user, rsrc, size, off);
    ReceivedWhole(w.kernel[w.table[r.i].out.fd], ReadPacket(user, rsrc, SignExtend(size), SignExtend(off)));
  }

  /** What the requester is sent when its read was forwarded. */
  lemma ForwardedRead(q: Stream, peer: Stream, r: Service, user: cstr, rsrc: Rsrc, size: Wide, off: Wide)
    requires Received(q) && q.script == Encode(ReadPacket(user, rsrc, size, off))
    requires Answered(peer) && peer.put == Encode(Msg(q)) && Serves(r, peer)
    ensures var got := ParsePacket(Encode(Msg(peer)));
      && got.Done? && ServiceStory(r).Replied?
      && got.val == ReplyPacket(ReadPacket(user, rsrc, SignExtend(size), SignExtend(off)).body.req, ServiceStory(r).os)
      && Judge(Got(got.val), size) == ReadAcross(ServiceStory(r).os.disk(rsrc.path), size, off)
  {
    hide ParsePacket, Encode, Reply, Judge, ReadAcross, Received, Serves;
    var p := ReadPacket(user, rsrc, size, off);
    OwnerSees(user, rsrc, size, off);
    ReceivedWhole(q, p);
    assert r.k < |r.run| && r.i < |r.run[r.k].world.stories| by {
      ServesWell(r, peer);
    }
    ServiceOfRead(r, peer, user, rsrc, size, off);
    ReadReplies(user, rsrc, size, off, ServiceStory(r).os);
    var reply := ReplyPacket(PacketArrives(p).body.req, ServiceStory(r).os);
    ReceivedWhole(peer, reply);
    SentComesBack(reply);
  }

  lemma ServesWell(r: Service, peer: Stream)
    requires Serves(r, peer)
    ensures r.k < |r.run| && r.i < |r.run[r.k].world.stories|
  {
  }

  /** The server's own answer to a read. */
  lemma AnsweredByServer(q: Stream, registry: seq<Client>, user: cstr, rsrc: Rsrc, size: Wide, off: Wide)
    requires Asked(q) && q.script == Encode(ReadPacket(user, rsrc, size, off)) && rsrc.path != []
    requires AnsweredHere(Msg(q).body.req, registry)
    ensures var got := ParsePacket(Encode(HereAnswer(Msg(q).body.req, registry)));
      got.Done? && Judge(Got(got.val), size) == Failed(ENOENT) && !Registered(registry, rsrc.owner)
  {
    hide ParsePacket, Encode, Received, RootAnswer;
    OwnerSees(user, rsrc, size, off);
    ReceivedWhole(q, ReadPacket(user, rsrc, size, off));
    SentComesBack(Packet(MAGIC, RspBody(RspError(ENOENT))));
  }

  /** The request is forwarded to the client its owner part names. */
  lemma SentToOwner(story: Story, q: Stream, peer: Stream, user: cstr, rsrc: Rsrc, size: Wide, off: Wide)
    requires SentTo(story, q, peer) && q.script == Encode(ReadPacket(user, rsrc, size, off))
    ensures story.to.username == rsrc.owner && peer.addr == Outbound(story.to.ip, Htons(story.to.port))
  {
    hide ParsePacket, Encode, Received;
    OwnerSees(user, rsrc, size, off);
    ReceivedWhole(q, ReadPacket(user, rsrc, size, off));
  }

  /** What the requester makes of its read: ENOENT if the owner was not registered; otherwise what open,
      malloc and pread gave the responder reached at the address of a client of the owner's name. */
  ghost predicate ReadResult(story: Story, addr: Address, hosts: (cstr, u16) -> Service, got: Parsed<Packet>,
                             rsrc: Rsrc, size: Wide, off: Wide)
  {
    && got.Done?
    && match story
       case Undecided => false
       case Replied(_) => false
       case Here(registry) => !Registered(registry, rsrc.owner) && Judge(Got(got.val), size) == Failed(ENOENT)
       case Forwarded(to) =>
         && to.username == rsrc.owner && addr == Outbound(to.ip, Htons(to.port))
         && var r := hosts(to.ip, Htons(to.port));
         && r.k < |r.run| && r.i < |r.run[r.k].world.stories| && ServiceStory(r).Replied?
         && got.val.magic == 1800 && got.val.body.RspBody?
         && AnswersRead(got.val.body.rsp, ServiceStory(r).os.disk(rsrc.path), SignExtend(size), SignExtend(off))
         && Judge(Got(got.val), size) == ReadAcross(ServiceStory(r).os.disk(rsrc.path), size, off)
  }

  /** The address of the peer, if there is one. */
  function PeerAddress(s: Sock, k: map<int, Stream>): Address {
    if s.inp.fd in k then k[s.inp.fd].addr else Listening
  }

  lemma FinishedRead(s: Sock, story: Story, k: map<int, Stream>, hosts: (cstr, u16) -> Service,
                     user: cstr, rsrc: Rsrc, size: Wide, off: Wide)
    requires RspWrInv(s, story, k) && !story.Replied? && s.out.buf == [] && rsrc.path != []
    requires k[s.out.fd].script == Encode(ReadPacket(user, rsrc, size, off))
    requires story.Forwarded? ==> Serves(hosts(story.to.ip, Htons(story.to.port)), k[s.inp.fd])
    ensures ReadResult(story, PeerAddress(s, k), hosts, ParsePacket(k[s.out.fd].put), rsrc, size, off)
  {
    hide ParsePacket, Encode, OnePacket, HereAnswer, Received, Judge, Serves, ReadAcross, ReadPacket, SentTo;
    hide AnsweredHere, Registered, Htons;
    var q := k[s.out.fd];
    assert q.put + [] == q.put;
    if story.Forwarded? {
      var r := hosts(story.to.ip, Htons(story.to.port));
      ServesWell(r, k[s.inp.fd]);
      assert ForPeer(q) by {
        ForThePeer(story, q, k[s.inp.fd]);
      }
      ForwardedRead(q, k[s.inp.fd], r, user, rsrc, size, off);
      ReadAnswered(user, rsrc, size, off, ServiceStory(r).os);
      SentToOwner(story, q, k[s.inp.fd], user, rsrc, size, off);
    } else {
      AnsweredByServer(q, story.registry, user, rsrc, size, off);
    }
  }

  lemma ReadAnswered(user: cstr, rsrc: Rsrc, size: Wide, off: Wide, os: Os)
    ensures var p := ReplyPacket(ReadPacket(user, rsrc, SignExtend(size), SignExtend(off)).body.req, os);
      && p.magic == 1800 && p.body.RspBody?
      && AnswersRead(p.body.rsp, os.disk(rsrc.path), SignExtend(size), SignExtend(off))
  {
    hide Reply, AnswersRead;
    ReplyMeans(ReadPacket(user, rsrc, SignExtend(size), SignExtend(off)).body.req, os);
  }

  lemma ForThePeer(story: Story, q: Stream, p: Stream)
    requires SentTo(story, q, p)
    ensures ForPeer(q)
  {
  }

  /** End to end, over a run of the server and the runs of the responders it reaches: when the server
      finishes a connection on which a read was requested, either the owner was not registered when the
      server decided, and the requester gets ENOENT; or the registry of that moment listed a client under
      the owner's name that had announced itself, and what the requester makes of the bytes it was sent
      is what open, malloc and pread gave the responder at that client's address, errno for errno and
      byte for byte. */
  lemma RemoteReadIsOwnersRead(run: seq<Moment>, k: nat, i: nat, ch: Choice, hosts: (cstr, u16) -> Service,
                               user: cstr, rsrc: Rsrc, size: Wide, off: Wide)
    requires IsRun(run) && Finishes(run, k, i, ch) && rsrc.path != [] && run[k].world.hi.ServerHi?
    requires i < |run[k].world.table| && i < |run[k].world.stories|
    requires var w := run[k].world; var s := w.table[i];
      && s.out.fd in w.kernel && w.kernel[s.out.fd].script == Encode(ReadPacket(user, rsrc, size, off))
      && (w.stories[i].Forwarded? ==>
            var to := w.stories[i].to;
            s.inp.fd in w.kernel && Serves(hosts(to.ip, Htons(to.port)), w.kernel[s.inp.fd]))
    ensures var w := run[k].world; var s := w.table[i];
      ReadResult(w.stories[i], PeerAddress(s, w.kernel), hosts, ParsePacket(w.kernel[s.out.fd].put), rsrc, size, off)
    ensures Happened(run, k, i, run[k].world.stories[i])
    ensures run[k].world.stories[i].Forwarded? ==>
      exists j :: 0 <= j < k && AnnouncedAt(run[j], run[k].world.stories[i].to)
  {
    hide ParsePacket, Encode, Serves, ReadResult, ReadPacket, RspWrInv, Happened, IsRun, Handles, AnnouncedAt, Htons;
    Finished(run, k, i, ch);
    StoriesHappened(run, k, i);
    if run[k].world.stories[i].Forwarded? {
      ForwardedToAnnounced(run, k, i);
    }
    FinishedRead(run[k].world.table[i], run[k].world.stories[i], run[k].world.kernel, hosts, user, rsrc, size, off);
  }

  /** In particular, below 2^31, the requester is sent byte for byte what stands in the owner's file from
      the offset on: as many bytes as were asked for and are there. */
  lemma FileBytesArrive(story: Story, addr: Address, hosts: (cstr, u16) -> Service, got: Parsed<Packet>,
                        rsrc: Rsrc, size: Wide, off: Wide, file: Blob64)
    requires ReadResult(story, addr, hosts, got, rsrc, size, off) && story.Forwarded?
    requires Value(size) < 0x8000_0000 && Value(off) < 0x8000_0000
    requires ServiceStory(hosts(story.to.ip, Htons(story.to.port))).os.disk(rsrc.path) == Content(file)
    ensures got.val.body.rsp.RspData?
    ensures var d := got.val.body.rsp.data;
      && |d| == Min(Value(size), SizeRem(|file|, Value(off)))
      && forall k :: 0 <= k < |d| ==> d[k] == file[Value(off) + k]
  {
    assert size.high == 0 && off.high == 0;
    assert SignExtend(size) == size && SignExtend(off) == off;
  }

  // ---- when it is the read that was asked for ----

  /** The casts on size and offset do no harm: a size no allocator grants stays one; any other stays
      below 2^63, and then a negative offset stays negative, and a valid one stays valid and either
      nothing is asked for or the casts change nothing. */
  predicate CastsHarmless(size: Wide, off: Wide) {
    if Negative(size) then Negative(SignExtend(size))
    else
      && !Negative(SignExtend(size))
      && if Negative(off) then Negative(SignExtend(off))
         else
           && !Negative(SignExtend(off))
           && (size == ZERO || (SignExtend(off) == off && SignExtend(size) == size))
  }

  lemma ExtendFacts(x: Wide)
    ensures if Negative(SignExtend(x)) then Value(x) <= Value(SignExtend(x)) else Value(SignExtend(x)) <= Value(x)
    ensures SignExtend(x) == x <==> Value(SignExtend(x)) == Value(x)
    ensures Value(x) == 0 <==> x == ZERO
    ensures Negative(x) || Value(x) < 0x8000_0000_0000_0000
    ensures Negative(SignExtend(x)) || Value(SignExtend(x)) < 0x8000_0000
  {
    var y := SignExtend(x);
    assert x.high > 0 ==> Value(x) >= 0x1_0000_0000;
  }

  /** A file on which the two reads differ, if there is one. */
  function Witness(size: Wide, off: Wide): Disk {
    if Negative(size) != Negative(SignExtend(size)) then Unreadable(EIO)
    else if Negative(off) || Negative(SignExtend(off)) then Content([])
    else
      ExtendFacts(off);
      ExtendFacts(size);
      var size' := Value(SignExtend(size));
      if SignExtend(off) == off then
        if size' < Value(size) then Content(Zeros(Value(off) + size' + 1)) else Content([])
      else if size' == 0 then Content(Zeros(Value(off) + 1))
      else Content(Zeros(Value(SignExtend(off)) + 1))
  }

  function Zeros(n: nat): (s: seq<byte>)
    ensures |s| == n
  {
    seq(n, i => 0)
  }

  /** Across the wire every file is read as the owner would read it for the size and offset asked for,
      exactly when the casts are harmless. */
  lemma ReadExact(size: Wide, off: Wide)
    ensures (forall d: Disk :: ReadAcross(d, size, off) == OwnerRead(d, size, off)) <==> CastsHarmless(size, off)
  {
    hide Value, SignExtend, Negative;
    ExtendFacts(size);
    ExtendFacts(off);
    if CastsHarmless(size, off) {
      forall d: Disk
        ensures ReadAcross(d, size, off) == OwnerRead(d, size, off)
      {
        if d.Content? && !Negative(off) && !Negative(size) {
          var r := Slice(d.bytes, Value(SignExtend(size)), Value(SignExtend(off)));
          assert r[..Min(Value(size), |r|)] == Slice(d.bytes, Value(size), Value(off));
        }
      }
    } else {
      var d := Witness(size, off);
      assert ReadAcross(d, size, off) != OwnerRead(d, size, off);
    }
  }

  /** A size whose bit 31 is set, such as 2^31 itself, arrives as one no allocator grants: the read
      fails on every file that can be opened, whatever the offset. */
  lemma HighSizeFails(d: Disk, size: Wide, off: Wide)
    requires size.low >= 0x8000_0000 && !d.Unopenable?
    ensures ReadAcross(d, size, off) == Failed(ENOMEM)
    ensures CastsHarmless(size, off) <==> Negative(size)
  {
  }

  /** In particular for every size and offset below 2^31. */
  lemma SmallReadExact(d: Disk, size: Wide, off: Wide)
    requires Value(size) < 0x8000_0000 && Value(off) < 0x8000_0000
    ensures ReadAcross(d, size, off) == OwnerRead(d, size, off)
  {
    assert size.high == 0 && off.high == 0;
    ReadExact(size, off);
  }
}
