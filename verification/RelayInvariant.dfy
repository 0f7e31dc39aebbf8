/** What every step of the loop keeps. */
module RelayInvariant {
  import opened Wire
  import opened Packet
  import opened Decode
  import opened SelfDelimiting
  import opened Owner
  import opened Registry
  import opened Relay

  // ---- the ends of a connection ----

  /** An end that sends at most one packet, and of a kind the server expects from it. */
  ghost predicate OnePacket(script: seq<byte>, request: bool) {
    match ParsePacket(script)
    case More => true
    case Done(p, n) =>
      n == |script| && if request then !p.body.RspBody? && p.body != Bare(PKT_DISCONNECT) else p.body.RspBody?
    case Unknown => false
  }

  ghost predicate Requester(script: seq<byte>) { OnePacket(script, true) }

  ghost predicate Responder(script: seq<byte>) { OnePacket(script, false) }

  /** What has been read from a stream. */
  ghost function Seen(st: Stream): seq<byte>
    requires st.got <= |st.script|
  {
    st.script[..st.got]
  }

  ghost predicate Reading(st: Stream, buf: seq<byte>) {
    st.got <= |st.script| && buf == Seen(st) && ParsePacket(buf).More?
  }

  /** Exactly one packet has been read from a stream. */
  ghost predicate Received(st: Stream) {
    st.got <= |st.script| && ParsePacket(Seen(st)).Done? && ParsePacket(Seen(st)).next == st.got
  }

  ghost function Msg(st: Stream): Packet
    requires Received(st)
  {
    ParsePacket(Seen(st)).val
  }

  ghost predicate Asked(st: Stream) { Received(st) && Msg(st).body.ReqBody? }

  ghost predicate Answered(st: Stream) { Received(st) && Msg(st).body.RspBody? }

  /** The server answers a request itself: it is about the root, or its owner was not registered. */
  ghost predicate AnsweredHere(r: Request, registry: seq<Client>) {
    |registry| < WIDE_LIMIT && (RootTest(r) || !Registered(registry, r.rsrc.owner))
  }

  /** The request on `q` was for a peer. */
  ghost predicate ForPeer(q: Stream) { Asked(q) && !RootTest(Msg(q).body.req) }

  /** The request on `q` went to the client its owner part names, at that client's address. */
  ghost predicate SentTo(story: Story, q: Stream, p: Stream) {
    && story.Forwarded? && ForPeer(q)
    && story.to.username == Msg(q).body.req.rsrc.owner
    && p.addr == Outbound(story.to.ip, Htons(story.to.port))
  }

  /** A responder answered the request on `q` as its system made of it. */
  ghost predicate Replies(q: Stream, os: Os, reply: seq<byte>)
    requires Asked(q)
  {
    Implemented(Msg(q).body.req.typ) && reply == Encode(ReplyPacket(Msg(q).body.req, os))
  }

  /** Which stories belong to which handlers. */
  predicate StoryFits(hi: Handlers, story: Story) {
    match hi
    case ServerHi => !story.Replied?
    case ClientHi => story.Undecided? || story.Replied?
  }

  /** The reply the requester on stream `q` is owed by the server itself. */
  ghost predicate Owed(story: Story, q: Stream, reply: seq<byte>)
    requires Asked(q)
  {
    && story.Here? && AnsweredHere(Msg(q).body.req, story.registry)
    && reply == Encode(HereAnswer(Msg(q).body.req, story.registry))
  }

  // ---- one socket ----

  ghost predicate Owns(k: map<int, Stream>, fd: int) { fd >= 0 && fd in k && !k[fd].addr.Unconnected? }

  ghost predicate ReqRdInv(s: Sock, story: Story, k: map<int, Stream>) {
    && Owns(k, s.inp.fd) && s.out.fd == -1 && s.out.buf == [] && story.Undecided? && k[s.inp.fd].addr.Inbound?
    && Reading(k[s.inp.fd], s.inp.buf) && Requester(k[s.inp.fd].script) && k[s.inp.fd].put == []
  }

  ghost predicate ReqFwdInv(s: Sock, story: Story, k: map<int, Stream>) {
    && Owns(k, s.inp.fd) && Owns(k, s.out.fd) && s.inp.fd != s.out.fd && s.inp.buf == []
    && var q, p := k[s.inp.fd], k[s.out.fd];
    && SentTo(story, q, p) && q.put == []
    && Responder(p.script) && p.got == 0
    && p.put + s.out.buf == Encode(Msg(q))
  }

  ghost predicate RspFwdInv(s: Sock, story: Story, k: map<int, Stream>) {
    && Owns(k, s.inp.fd) && Owns(k, s.out.fd) && s.inp.fd != s.out.fd && s.out.buf == []
    && var q, p := k[s.out.fd], k[s.inp.fd];
    && SentTo(story, q, p) && q.put == []
    && Responder(p.script) && Reading(p, s.inp.buf)
    && p.put == Encode(Msg(q))
  }

  ghost predicate RspWrInv(s: Sock, story: Story, k: map<int, Stream>) {
    && Owns(k, s.out.fd) && s.inp.buf == []
    && var q := k[s.out.fd];
    && Asked(q)
    && match story
       case Undecided => false
       case Here(_) => s.inp.fd == -1 && Owed(story, q, q.put + s.out.buf)
       case Replied(os) => s.inp.fd == -1 && Replies(q, os, q.put + s.out.buf)
       case Forwarded(_) =>
         && Owns(k, s.inp.fd) && s.inp.fd != s.out.fd
         && var p := k[s.inp.fd];
         SentTo(story, q, p) && Answered(p) && p.put == Encode(Msg(q)) && q.put + s.out.buf == Encode(Msg(p))
  }

  /** The invariant of an entry, by its state. */
  ghost predicate SockInv(s: Sock, story: Story, k: map<int, Stream>) {
    match s.typ
    case NoneType => s.inp.fd == -1 && s.out.fd == -1
    case Lstn => s.state == StLstn && Owns(k, s.inp.fd) && s.out.fd == -1
    case PktOut => false
    case PktIn =>
      match s.state
      case ReqRd => ReqRdInv(s, story, k)
      case ReqFwd => ReqFwdInv(s, story, k)
      case RspFwd => RspFwdInv(s, story, k)
      case RspWr => RspWrInv(s, story, k)
      case _ => false
  }

  /** The events the last poll left on an open entry fit its state. */
  ghost predicate EventsFit(s: Sock) {
    IsOpen(s) ==>
      && !Hung(s.revents)
      && (ReadsIn(s.state) ==> !s.revents.pout)
      && (WritesOut(s.state) ==> !s.revents.pin)
  }

  /** The invariant of an entry only looks at its own descriptors. */
  lemma SockInvFrame(s: Sock, story: Story, k: map<int, Stream>, k': map<int, Stream>)
    requires SockInv(s, story, k)
    requires forall fd :: fd in Fds(s) && fd in k ==> fd in k' && k'[fd] == k[fd]
    ensures SockInv(s, story, k')
  {
  }

  lemma OwnedFds(s: Sock, story: Story, k: map<int, Stream>)
    requires SockInv(s, story, k)
    ensures forall fd :: fd in Fds(s) ==> Owns(k, fd)
    ensures IsOpen(s) <==> s.typ != NoneType
  {
  }

  // ---- reading ----

  /** Reading ahead in a one-packet script never goes past the packet. */
  lemma PrefixOfOne(script: seq<byte>, n: nat, request: bool)
    requires OnePacket(script, request) && n <= |script|
    ensures var p := ParsePacket(script[..n]);
      && !p.Unknown?
      && (p.Done? ==> p.next == n == |script| && p == ParsePacket(script))
  {
    PacketCut(script[..n], script);
  }

  /** The packet a one-packet script amounts to. */
  lemma PacketOfOne(script: seq<byte>, request: bool)
    requires OnePacket(script, request) && ParsePacket(script).Done?
    ensures var p := ParsePacket(script).val;
      if request then !p.body.RspBody? && p.body != Bare(PKT_DISCONNECT) else p.body.RspBody?
  {
  }

  // ---- one handler call ----

  ghost predicate ViewInv(v: View) {
    SockInv(v.sock, v.story, v.kernel) && StoryFits(v.hi, v.story) && Sorted(v.clients) && |v.clients| < WIDE_LIMIT
  }

  /** What the environment may choose for a socket: the kernel moves at least one byte when it can,
      hands out only descriptors that are not open, and connects to well-behaved ends. */
  ghost predicate Fair(s: Sock, k: map<int, Stream>, ch: Choice) {
    && ch.limit >= 1
    && (ch.fd >= 0 ==> ch.fd !in k)
    && OnePacket(ch.script, s.typ.Lstn?)
  }

  /** Deleting `s` closes each of its descriptors, and each only once. */
  ghost predicate Closeable(s: Sock, k: map<int, Stream>) {
    && (forall fd :: fd in Fds(s) ==> Owns(k, fd))
    && s.inp.fd >= -1 && s.out.fd >= -1 && (s.inp.fd >= 0 ==> s.inp.fd != s.out.fd)
  }

  /** A handler touches no stream but its own, loses no descriptor and gains only fresh ones: its own,
      and one whose connect failed. */
  ghost predicate Keeps(v: View, u: View) {
    && u.hi == v.hi && StoryFits(u.hi, u.story)
    && Fds(v.sock) <= Fds(u.sock) && (Fds(u.sock) - Fds(v.sock)) !! v.kernel.Keys
    && v.kernel.Keys <= u.kernel.Keys
    && (forall fd :: fd in u.kernel && fd !in v.kernel ==> fd in Fds(u.sock) || u.kernel[fd].addr.Unconnected?)
    && (forall fd :: fd in v.kernel && fd !in Fds(v.sock) ==> u.kernel[fd] == v.kernel[fd])
    && Closeable(u.sock, u.kernel)
    && Sorted(u.clients) && |u.clients| < WIDE_LIMIT
  }

  /** A good outcome of a handler. */
  ghost predicate Good(v: View, verdict: Verdict, u: View) {
    && Keeps(v, u)
    && match verdict
       case Crash => false
       case New => u == v && v.sock.typ.Lstn?
       case Del => true
       case Suc => SockInv(u.sock, u.story, u.kernel) && u.sock.typ == v.sock.typ
  }

  /** The stream `st` after the chunk of one read. */
  ghost function Advanced(st: Stream, limit: nat): Stream { st.(got := st.got + |Chunk(st, limit)|) }

  lemma AdvancedSeen(st: Stream, limit: nat)
    requires st.got <= |st.script|
    ensures var a := Advanced(st, limit);
      a.got <= |a.script| && Seen(a) == Seen(st) + Chunk(st, limit)
  {
    var chunk := Chunk(st, limit);
    assert st.script[..st.got + |chunk|] == st.script[..st.got] + st.script[st.got..][..|chunk|];
  }

  /** One read on a one-packet stream: either it is not complete yet, or it now is, with nothing
      left in the buffer. */
  lemma ReadOne(st: Stream, buf: seq<byte>, limit: nat, request: bool)
    requires Reading(st, buf) && OnePacket(st.script, request)
    ensures var a := Advanced(st, limit); var buf' := buf + Chunk(st, limit);
      && buf' == Seen(a) && a.got <= |a.script|
      && !ParsePacket(buf').Unknown?
      && (ParsePacket(buf').More? ==> Reading(a, buf'))
      && (ParsePacket(buf').Done? ==>
            && Received(a) && Msg(a) == ParsePacket(buf').val && buf'[ParsePacket(buf').next..] == []
            && if request then !Msg(a).body.RspBody? && Msg(a).body != Bare(PKT_DISCONNECT) else Msg(a).body.RspBody?)
  {
    hide ParsePacket;
    AdvancedSeen(st, limit);
    var a := Advanced(st, limit);
    PrefixOfOne(st.script, a.got, request);
    if ParsePacket(Seen(a)).Done? {
      PacketOfOne(st.script, request);
    }
  }

  lemma RequestFinished(v: View, p: Packet, ch: Choice)
    requires v.hi.ServerHi? && Sorted(v.clients) && |v.clients| < WIDE_LIMIT
    requires v.sock.typ == PktIn && v.sock.state == ReqRd
    requires Owns(v.kernel, v.sock.inp.fd) && v.sock.out.fd == -1 && v.sock.out.buf == [] && v.sock.inp.buf == []
    requires StoryFits(v.hi, v.story)
    requires var q := v.kernel[v.sock.inp.fd]; Asked(q) && Msg(q) == p && q.put == []
    requires ch.fd >= 0 ==> ch.fd !in v.kernel && Responder(ch.script)
    ensures var (verdict, u) := HandleReqRdFin(v, p, ch); Good(v, verdict, u)
  {
    hide ParsePacket, Encode, RootAnswer, Registered, Sorted;
    var r := p.body.req;
    var (verdict, u) := HandleReqRdFin(v, p, ch);
    if RootTest(r) || !Registered(v.clients, r.rsrc.owner) {
      var reply := Encode(HereAnswer(r, v.clients));
      assert [] + reply == reply;
    } else if ch.fd >= 0 {
      assert [] + Encode(p) == Encode(p);
    }
  }

  /** A responder's reply is the one its system gave. */
  lemma RequestAnswered(v: View, p: Packet, ch: Choice)
    requires v.hi.ClientHi? && Sorted(v.clients) && |v.clients| < WIDE_LIMIT
    requires v.sock.typ == PktIn && v.sock.state == ReqRd && StoryFits(v.hi, v.story)
    requires Owns(v.kernel, v.sock.inp.fd) && v.sock.out.fd == -1 && v.sock.out.buf == [] && v.sock.inp.buf == []
    requires var q := v.kernel[v.sock.inp.fd]; Received(q) && Msg(q) == p && q.put == []
    ensures var (verdict, u) := ClientRdFin(v, p, ch); Good(v, verdict, u)
  {
    hide ParsePacket, Encode, Reply, Sorted;
    if p.body.ReqBody? && Implemented(p.body.req.typ) {
      var reply := Encode(ReplyPacket(p.body.req, ch.os));
      assert [] + reply == reply;
    }
  }

  lemma ReadRequest(v: View, ch: Choice)
    requires ViewInv(v) && v.sock.typ == PktIn && v.sock.state == ReqRd && v.sock.revents.pin
    requires Fair(v.sock, v.kernel, ch)
    ensures var (verdict, u) := HandlePktRd(v, ch); Good(v, verdict, u)
  {
    hide ParsePacket, Encode, Sorted, OnePacket, HandleReqRdFin, ClientRdFin;
    if ch.fail {
      return;
    }
    var q := v.kernel[v.sock.inp.fd];
    ReadOne(q, v.sock.inp.buf, ch.limit, true);
    var u := ReadFrom(v, ch.limit);
    assert u.kernel[u.sock.inp.fd] == Advanced(q, ch.limit);
    var parsed := ParsePacket(u.sock.inp.buf);
    if Chunk(q, ch.limit) != [] && parsed.Done? {
      var t := u.(sock := u.sock.(inp := u.sock.inp.(buf := [])));
      if v.hi.ClientHi? {
        RequestAnswered(t, parsed.val, ch);
      } else if parsed.val.body.ReqBody? {
        RequestFinished(t, parsed.val, ch);
      }
    }
  }

  lemma ReadResponse(v: View, ch: Choice)
    requires ViewInv(v) && v.sock.typ == PktIn && v.sock.state == RspFwd && v.sock.revents.pin
    requires Fair(v.sock, v.kernel, ch)
    ensures var (verdict, u) := HandlePktRd(v, ch); Good(v, verdict, u)
  {
    hide ParsePacket, Encode, Sorted, OnePacket, HandleReqRdFin;
    if ch.fail {
      return;
    }
    var p := v.kernel[v.sock.inp.fd];
    ReadOne(p, v.sock.inp.buf, ch.limit, false);
    var u := ReadFrom(v, ch.limit);
    assert u.kernel[u.sock.inp.fd] == Advanced(p, ch.limit);
    var parsed := ParsePacket(u.sock.inp.buf);
    if Chunk(p, ch.limit) != [] && parsed.Done? {
      assert [] + Encode(parsed.val) == Encode(parsed.val);
    }
  }

  /** What one write leaves queued goes on from what it has put on the stream. */
  lemma WriteOne(put: seq<byte>, buf: seq<byte>, n: nat)
    requires n <= |buf|
    ensures put + buf[..n] + buf[n..] == put + buf
  {
  }

  lemma WriteRequest(v: View, ch: Choice)
    requires ViewInv(v) && v.sock.typ == PktIn && v.sock.state == ReqFwd && v.sock.revents.pout
    requires Fair(v.sock, v.kernel, ch)
    ensures var (verdict, u) := HandlePktWr(v, ch); Good(v, verdict, u)
  {
    hide ParsePacket, Encode, Sorted, OnePacket;
    if ch.fail {
      return;
    }
    var n := Min(ch.limit, |v.sock.out.buf|);
    var p := v.kernel[v.sock.out.fd];
    WriteOne(p.put, v.sock.out.buf, n);
    var u := WriteTo(v, ch.limit);
    if n == 0 {
      assert p.put + [] == p.put;
      assert u.kernel[v.sock.out.fd] == p;
      EmptyMore(p.script);
    }
  }

  /** Nothing has been read yet. */
  lemma EmptyMore(script: seq<byte>)
    requires Responder(script)
    ensures script[..0] == [] && ParsePacket(script[..0]).More?
  {
  }

  lemma WriteReply(v: View, ch: Choice)
    requires ViewInv(v) && v.sock.typ == PktIn && v.sock.state == RspWr && v.sock.revents.pout
    requires Fair(v.sock, v.kernel, ch)
    ensures var (verdict, u) := HandlePktWr(v, ch); Good(v, verdict, u)
  {
    hide ParsePacket, Encode, Sorted, OnePacket;
    if ch.fail {
      return;
    }
    var n := Min(ch.limit, |v.sock.out.buf|);
    WriteOne(v.kernel[v.sock.out.fd].put, v.sock.out.buf, n);
  }

  /** No assertion of the handlers fails, none of their abort() branches is reached, and the entry's
      invariant is kept. */
  lemma HandlerGood(v: View, ch: Choice)
    requires ViewInv(v) && EventsFit(v.sock) && Fair(v.sock, v.kernel, ch)
    ensures var (verdict, u) := HandleSocketEvent(v, ch); Good(v, verdict, u)
  {
    hide HandlePktRd, HandlePktWr, Sorted;
    OwnedFds(v.sock, v.story, v.kernel);
    if IsOpen(v.sock) && v.sock.typ == PktIn && v.sock.revents != QUIET {
      match v.sock.state
      case ReqRd => ReadRequest(v, ch);
      case RspFwd => ReadResponse(v, ch);
      case ReqFwd => WriteRequest(v, ch);
      case RspWr => WriteReply(v, ch);
      case _ =>
    }
  }
}
