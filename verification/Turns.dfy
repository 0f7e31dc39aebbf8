/** What every turn of the loop comes to, written out case by case: which turns accept a connection, which
    end one, and where the others leave it. */
module Turns {
  import opened Wire
  import opened Packet
  import opened Decode
  import opened Codec
  import opened Registry
  import opened Owner
  import opened Relay
  import opened RelayInvariant
  import opened RelaySafety

  // ---- accepting ----

  /** A connection is accepted exactly when the listening socket has input and accept succeeds. */
  lemma AcceptsExactly(v: View, ch: Choice)
    requires ViewInv(v) && EventsFit(v.sock) && Fair(v.sock, v.kernel, ch)
    ensures HandleSocketEvent(v, ch).0 == New <==> v.sock.typ == Lstn && v.sock.revents.pin && ch.fd >= 0
  {
    hide ParsePacket, Encode, OnePacket, Sorted, HandlePktEvent;
    HandlerGood(v, ch);
  }

  /** It gets an entry of its own at the end of the table, waiting for a request, with empty buffers, and
      nothing else changes. */
  lemma AcceptMeans(w: World, i: nat, ch: Choice)
    requires Inv(w) && i < |w.table| && EventsFit(w.table[i]) && Fair(w.table[i], w.kernel, ch)
    requires w.table[i].typ == Lstn && w.table[i].revents.pin && ch.fd >= 0
    ensures var w' := HandleEntry(w, i, ch);
      && w'.Running? && |w'.world.table| == |w.table| + 1 && w'.world.table[..|w.table|] == w.table
      && w'.world.table[|w.table|] == Sock(PktIn, ReqRd, End(ch.fd, [], -1), End(-1, [], -1), QUIET)
      && w'.world.kernel == w.kernel[ch.fd := Stream(Inbound(ch.ip), ch.script, 0, [])]
      && w'.world.clients == w.clients
  {
    hide ParsePacket, Encode, OnePacket, Sorted, HandlePktEvent, SockInv;
    assert ViewOf(w, i).sock.typ == Lstn;
    OwnedFds(w.table[i], w.stories[i], w.kernel);
    assert Store(w, i, ViewOf(w, i)).table == w.table;
  }

  // ---- reading ----

  /** What the buffer of the in end holds after a read. */
  function BufferAfter(v: View, ch: Choice): seq<byte>
    requires v.sock.inp.fd in v.kernel
  {
    v.sock.inp.buf + Chunk(v.kernel[v.sock.inp.fd], ch.limit)
  }

  /** The request must go to a peer: it is not about the root, and its owner is registered. */
  predicate ForRegistered(r: Request, clients: seq<Client>) {
    r.rsrc.path != [] && exists i :: 0 <= i < |clients| && clients[i].username == r.rsrc.owner
  }

  /** The turn reads: the connection is in a reading state and has input. */
  ghost predicate Reads(v: View) {
    v.sock.typ == PktIn && v.sock.state in {ReqRd, RspFwd} && v.sock.revents.pin
  }

  /** A turn that reads ends the connection exactly if the read fails or finds the end; or if it completes
      a packet that is not to be answered, which for the server is a CONNECT, a packet without payload, or
      a request for a peer that cannot be reached, and for a responder all but the requests it handles. */
  lemma ReadEndsExactly(v: View, ch: Choice)
    requires ViewInv(v) && EventsFit(v.sock) && Fair(v.sock, v.kernel, ch) && Reads(v)
    requires v.sock.inp.fd in v.kernel
    ensures HandleSocketEvent(v, ch).0 == Del <==>
      var st := v.kernel[v.sock.inp.fd];
      || ch.fail || st.got == |st.script|
      || (ParsePacket(BufferAfter(v, ch)).Done?
          && match ParsePacket(BufferAfter(v, ch)).val.body
             case ConnBody(_) => true
             case Bare(_) => true
             case RspBody(_) => v.hi == ClientHi
             case ReqBody(r) =>
               if v.hi == ServerHi then ForRegistered(r, v.clients) && (ch.fd < 0 || !ch.ok)
               else r.typ !in {1, 2, 8, 10, 11, 13, 14, 15})
  {
    hide ParsePacket, Encode, OnePacket, Sorted, Bag, HereAnswer, RootAnswer, Recipient, Reply, Enlisted;
    HandlerGood(v, ch);
    if !ch.fail {
      ReadOne(v.kernel[v.sock.inp.fd], v.sock.inp.buf, ch.limit, v.sock.state == ReqRd);
    }
  }

  /** Where a turn that reads and does not end the connection leaves it: waiting for more of the packet;
      or writing the reply to a request, which is the server's own or its system's; or forwarding the
      request to the owner; or passing the response on. */
  lemma ReadMeans(v: View, ch: Choice)
    requires ViewInv(v) && EventsFit(v.sock) && Fair(v.sock, v.kernel, ch) && Reads(v)
    requires v.sock.inp.fd in v.kernel && HandleSocketEvent(v, ch).0 == Suc
    ensures var s := v.sock; var u := HandleSocketEvent(v, ch).1;
      match ParsePacket(BufferAfter(v, ch))
      case Unknown => false
      case More => u.sock == s.(inp := s.inp.(buf := BufferAfter(v, ch)))
      case Done(p, _) =>
        && u.sock.typ == PktIn && u.sock.inp.buf == []
        && if s.state == RspFwd then
             && u.sock.state == RspWr && u.sock.inp.fd == s.inp.fd && u.sock.out.fd == s.out.fd
             && u.sock.out.buf == Encode(p)
           else
             && p.body.ReqBody?
             && if v.hi == ServerHi && ForRegistered(p.body.req, v.clients) then
                  && u.sock.state == ReqFwd && u.sock.inp.fd == s.inp.fd && u.sock.out.fd == ch.fd
                  && u.sock.out.buf == Encode(p)
                else
                  && u.sock.state == RspWr && u.sock.inp.fd == -1 && u.sock.out.fd == s.inp.fd
                  && exists reply :: u.sock.out.buf == Encode(reply) && RightReply(v, ch, p.body.req, reply)
  {
    hide ParsePacket, Encode, OnePacket, Sorted, Bag, RootAnswer, Recipient, Reply, Enlisted, OwnReply, AnswersRead;
    HandlerGood(v, ch);
    ReadOne(v.kernel[v.sock.inp.fd], v.sock.inp.buf, ch.limit, v.sock.state == ReqRd);
    var parsed := ParsePacket(BufferAfter(v, ch));
    if parsed.Done? && v.sock.state == ReqRd && parsed.val.body.ReqBody? {
      var r := parsed.val.body.req;
      if v.hi == ServerHi {
        HereAnswerMeans(r, v.clients);
        assert RightReply(v, ch, r, HereAnswer(r, v.clients));
      } else {
        ReplyMeans(r, ch.os);
        assert RightReply(v, ch, r, ReplyPacket(r, ch.os));
      }
    }
  }

  /** The reply written out: the server's own, or that of the responder's system. */
  ghost predicate RightReply(v: View, ch: Choice, r: Request, p: Packet) {
    if v.hi == ServerHi then OwnReply(r, v.clients, p)
    else
      && p.magic == 1800 && p.body.RspBody?
      && if r.typ == 13 then AnswersRead(p.body.rsp, ch.os.disk(r.rsrc.path), r.size, r.off)
         else
           var h := ch.os.other(r);
           p.body.rsp == if h.status < 0 then RspError(-(h.status as int)) else h.rsp
  }

  // ---- writing ----

  /** The turn writes: the connection is in a writing state and can be written to. */
  ghost predicate Writes(v: View) {
    v.sock.typ == PktIn && v.sock.state in {ReqFwd, RspWr} && v.sock.revents.pout
  }

  /** A turn that writes ends the connection exactly if the write fails, or the whole reply is out; with
      the whole request out it turns to reading the response; and otherwise it has written a part of what
      was queued. */
  lemma WriteMeans(v: View, ch: Choice)
    requires ViewInv(v) && EventsFit(v.sock) && Fair(v.sock, v.kernel, ch) && Writes(v)
    requires v.sock.out.fd in v.kernel
    ensures var s := v.sock; var (verdict, u) := HandleSocketEvent(v, ch);
      && (verdict == Del <==> ch.fail || (s.out.buf == [] && s.state == RspWr))
      && (!ch.fail && s.out.buf == [] && s.state == ReqFwd ==>
            && verdict == Suc && u.sock.state == RspFwd && u.sock.inp.buf == [] && u.sock.out.buf == []
            && u.sock.inp.fd == s.out.fd && u.sock.out.fd == s.inp.fd)
      && (!ch.fail && s.out.buf != [] ==>
            && verdict == Suc && u.sock == s.(out := s.out.(buf := u.sock.out.buf))
            && |u.sock.out.buf| < |s.out.buf| && s.out.fd in u.kernel
            && u.kernel[s.out.fd].put + u.sock.out.buf == v.kernel[s.out.fd].put + s.out.buf)
  {
    hide ParsePacket, Encode, OnePacket, Sorted, HereAnswer, Reply;
    HandlerGood(v, ch);
    if !ch.fail {
      WriteOne(v.kernel[v.sock.out.fd].put, v.sock.out.buf, Min(ch.limit, |v.sock.out.buf|));
    }
  }

  // ---- finished root requests ----

  /** When the server finishes a connection it answered itself, what the requester has been sent is its
      own reply as written out, by the registry it decided with. */
  lemma OwnReplySent(run: seq<Moment>, k: nat, i: nat, ch: Choice)
    requires IsRun(run) && Finishes(run, k, i, ch)
    requires i < |run[k].world.stories| && run[k].world.stories[i].Here?
    ensures var w := run[k].world; var s := w.table[i];
      && Owns(w.kernel, s.out.fd) && Asked(w.kernel[s.out.fd])
      && var q := w.kernel[s.out.fd];
         var got := ParsePacket(q.put);
         got.Done? && OwnReply(Msg(q).body.req, w.stories[i].registry, got.val)
  {
    hide ParsePacket, Encode, HereAnswer, OwnReply, IsRun, Happened, Received, ValidPacket, HandleEntry, Fair;
    WholeReply(run, k, i, ch);
    var w := run[k].world;
    var r, registry := Msg(w.kernel[w.table[i].out.fd]).body.req, w.stories[i].registry;
    HereAnswerMeans(r, registry);
    var reply := HereAnswer(r, registry);
    assert reply.body.RspBody? by {
      OwnReplyIsResponse(r, registry, reply);
    }
    CompletesOnLastByte(reply, |Encode(reply)|);
    assert Encode(reply)[..|Encode(reply)|] == Encode(reply);
  }

  lemma OwnReplyIsResponse(r: Request, registry: seq<Client>, p: Packet)
    requires OwnReply(r, registry, p)
    ensures p.body.RspBody?
  {
  }
}
