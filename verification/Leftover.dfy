/** Why an end may send only one packet on a connection. */
module Leftover {
  import opened Wire
  import opened Packet
  import opened Decode
  import opened Codec
  import opened Registry
  import opened Relay
  import opened RelayInvariant

  const CAN_READ := Revents(true, false, false, false)
  const CAN_WRITE := Revents(false, true, false, false)

  /** The socket handled after a poll that reported `events` for it. */
  ghost function Turn(v: View, events: Revents, ch: Choice): (Verdict, View)
    requires |v.clients| < WIDE_LIMIT
  {
    HandleSocketEvent(v.(sock := v.sock.(revents := events)), ch)
  }

  ghost predicate Goes(v: View, events: Revents, ch: Choice, u: View) {
    |v.clients| < WIDE_LIMIT && Turn(v, events, ch) == (Suc, u)
  }

  /** A requester has sent a response right behind a request for a registered peer, and the server
      gets both in one read: the request is forwarded, the response stays in the buffer. */
  lemma ReadsAhead(v: View, ch: Choice, req: Packet, rsp: Packet)
    requires v.hi.ServerHi? && |v.clients| < WIDE_LIMIT && v.sock.typ == PktIn && v.sock.state == ReqRd
    requires v.sock.inp.buf == [] && v.sock.out.buf == [] && Owns(v.kernel, v.sock.inp.fd)
    requires ValidPacket(req) && WriteFits(req) && req.body.ReqBody?
    requires !RootTest(req.body.req) && Registered(v.clients, req.body.req.rsrc.owner)
    requires var q := v.kernel[v.sock.inp.fd];
      q.got == 0 && q.script == Encode(req) + Encode(rsp) && q.script != [] && ch.limit >= |q.script|
    requires !ch.fail && ch.fd >= 0 && ch.fd !in v.kernel && ch.ok
    ensures var (verdict, u) := Turn(v, CAN_READ, ch);
      && verdict == Suc && u.hi == v.hi && u.clients == v.clients && u.sock.typ == PktIn && u.sock.state == ReqFwd
      && u.sock.inp.fd == v.sock.inp.fd && u.sock.inp.buf == Encode(rsp)
      && u.sock.out == v.sock.out.(fd := ch.fd, buf := Encode(PacketArrives(req)))
      && Owns(u.kernel, v.sock.inp.fd) && u.kernel[v.sock.inp.fd].put == v.kernel[v.sock.inp.fd].put
      && Owns(u.kernel, ch.fd) && u.kernel[ch.fd].script == ch.script && u.kernel[ch.fd].got == 0
  {
    hide ParsePacket, Encode, Registered, ValidPacket, WriteFits;
    RoundTrip(req, Encode(rsp));
    var script := v.kernel[v.sock.inp.fd].script;
    assert script[0..][..|script|] == script && [] + script == script;
    assert script[|Encode(req)|..] == Encode(rsp);
    assert [] + Encode(PacketArrives(req)) == Encode(PacketArrives(req));
  }

  lemma WritesAll(v: View, ch: Choice)
    requires v.hi.ServerHi? && |v.clients| < WIDE_LIMIT && v.sock.typ == PktIn && WritesOut(v.sock.state)
    requires Owns(v.kernel, v.sock.out.fd) && !ch.fail && ch.limit >= |v.sock.out.buf| > 0
    ensures var (verdict, u) := Turn(v, CAN_WRITE, ch); var st := v.kernel[v.sock.out.fd];
      && verdict == Suc && u.hi == v.hi && u.clients == v.clients
      && u.sock == v.sock.(revents := CAN_WRITE, out := v.sock.out.(buf := []))
      && u.kernel == v.kernel[v.sock.out.fd := st.(put := st.put + v.sock.out.buf)]
  {
    assert v.sock.out.buf[..|v.sock.out.buf|] == v.sock.out.buf;
  }

  /** With the request written out, the ends are swapped. */
  lemma Swaps(v: View, ch: Choice)
    requires v.hi.ServerHi? && |v.clients| < WIDE_LIMIT && v.sock.typ == PktIn && v.sock.state == ReqFwd
    requires Owns(v.kernel, v.sock.out.fd) && !ch.fail && v.sock.out.buf == []
    ensures var (verdict, u) := Turn(v, CAN_WRITE, ch); var st := v.kernel[v.sock.out.fd];
      && verdict == Suc && u.hi == v.hi && u.clients == v.clients && u.kernel == v.kernel
      && u.sock == v.sock.(revents := CAN_WRITE, state := RspFwd, inp := v.sock.inp.(fd := v.sock.out.fd),
                           out := v.sock.out.(fd := v.sock.inp.fd))
  {
    var st := v.kernel[v.sock.out.fd];
    assert st.(put := st.put + []) == st;
  }

  /** As soon as the peer sends anything, what stands in the buffer is taken for its response. */
  lemma TakesLeftover(v: View, ch: Choice, p: Packet)
    requires v.hi.ServerHi? && |v.clients| < WIDE_LIMIT && v.sock.typ == PktIn && v.sock.state == RspFwd
    requires Owns(v.kernel, v.sock.inp.fd) && !ch.fail && Chunk(v.kernel[v.sock.inp.fd], ch.limit) != []
    requires ValidPacket(p) && p.body.RspBody? && v.sock.inp.buf == Encode(p) && v.sock.out.buf == []
    ensures var (verdict, u) := Turn(v, CAN_READ, ch);
      && verdict == Suc && u.hi == v.hi && u.clients == v.clients && u.sock.typ == PktIn && u.sock.state == RspWr
      && u.sock.out == v.sock.out.(buf := Encode(p))
      && (forall fd :: fd in v.kernel && fd != v.sock.inp.fd ==> fd in u.kernel && u.kernel[fd] == v.kernel[fd])
  {
    hide ParsePacket, Encode, ValidPacket;
    var chunk := Chunk(v.kernel[v.sock.inp.fd], ch.limit);
    RoundTrip(p, chunk);
    assert (Encode(p) + chunk)[|Encode(p)|..] == chunk;
    assert [] + Encode(p) == Encode(p);
  }

  lemma EncodingNotEmpty(p: Packet)
    ensures |Encode(p)| > 0
  {
    FlattenConcat([Word(p.magic)], [Word(TypeWord(p.body))] + BodyFields(p.body));
    FlattenOne(Word(p.magic));
  }

  /** The request has gone out whole; the leftover still stands in the buffer now read for the peer. */
  lemma ForwardsRequest(v: View, chs: seq<Choice>, req: Packet, rsp: Packet) returns (v0: View, v1: View, v2: View)
    requires v.hi.ServerHi? && |v.clients| < WIDE_LIMIT && v.sock.typ == PktIn && v.sock.state == ReqRd
    requires v.sock.inp.buf == [] && v.sock.out.buf == [] && Owns(v.kernel, v.sock.inp.fd)
    requires var q := v.kernel[v.sock.inp.fd]; q.script == Encode(req) + Encode(rsp) && q.got == 0 && q.put == []
    requires ValidPacket(req) && WriteFits(req) && req.body.ReqBody?
    requires !RootTest(req.body.req) && Registered(v.clients, req.body.req.rsrc.owner)
    requires |chs| >= 3 && chs[0].fd >= 0 && chs[0].fd !in v.kernel && chs[0].ok
    requires forall i :: 0 <= i < 3 ==> !chs[i].fail && chs[i].limit >= |Encode(req)| + |Encode(rsp)|
    ensures Goes(v, CAN_READ, chs[0], v0) && Goes(v0, CAN_WRITE, chs[1], v1) && Goes(v1, CAN_WRITE, chs[2], v2)
    ensures v2.hi == v.hi && v2.clients == v.clients && v2.sock.typ == PktIn && v2.sock.state == RspFwd
    ensures v2.sock.inp.fd == chs[0].fd && v2.sock.inp.buf == Encode(rsp)
    ensures v2.sock.out.fd == v.sock.inp.fd && v2.sock.out.buf == []
    ensures Owns(v2.kernel, v.sock.inp.fd) && v2.kernel[v.sock.inp.fd].put == []
    ensures Owns(v2.kernel, chs[0].fd) && v2.kernel[chs[0].fd].script == chs[0].script && v2.kernel[chs[0].fd].got == 0
  {
    hide Turn, Encode, ValidPacket, WriteFits, Registered;
    EncodingNotEmpty(req);
    ReadsAhead(v, chs[0], req, rsp);
    v0 := Turn(v, CAN_READ, chs[0]).1;
    HopIsIdentity(req, []);
    RoundTrip(req, []);
    WritesAll(v0, chs[1]);
    v1 := Turn(v0, CAN_WRITE, chs[1]).1;
    Swaps(v1, chs[2]);
    v2 := Turn(v1, CAN_WRITE, chs[2]).1;
  }

  /** Were a requester to send a response right behind its request, then after five turns of its
      connection the server would have written that response back to it as the peer's, whatever
      (at least one byte) the peer answers. */
  lemma LeftoverIsTakenForTheResponse(v: View, chs: seq<Choice>, req: Packet, rsp: Packet)
      returns (v0: View, v1: View, v2: View, v3: View, v4: View)
    requires v.hi.ServerHi? && |v.clients| < WIDE_LIMIT && v.sock.typ == PktIn && v.sock.state == ReqRd
    requires v.sock.inp.buf == [] && v.sock.out.buf == [] && Owns(v.kernel, v.sock.inp.fd)
    requires var q := v.kernel[v.sock.inp.fd]; q.script == Encode(req) + Encode(rsp) && q.got == 0 && q.put == []
    requires ValidPacket(req) && WriteFits(req) && req.body.ReqBody?
    requires !RootTest(req.body.req) && Registered(v.clients, req.body.req.rsrc.owner)
    requires ValidPacket(rsp) && rsp.body.RspBody?
    requires |chs| == 5 && chs[0].fd >= 0 && chs[0].fd !in v.kernel && chs[0].ok && chs[0].script != []
    requires forall i :: 0 <= i < 5 ==> !chs[i].fail && chs[i].limit >= |Encode(req)| + |Encode(rsp)|
    ensures Goes(v, CAN_READ, chs[0], v0) && Goes(v0, CAN_WRITE, chs[1], v1) && Goes(v1, CAN_WRITE, chs[2], v2)
    ensures Goes(v2, CAN_READ, chs[3], v3) && Goes(v3, CAN_WRITE, chs[4], v4)
    ensures v.sock.inp.fd in v4.kernel && v4.kernel[v.sock.inp.fd].put == Encode(rsp)
  {
    hide Turn, Encode, ValidPacket, WriteFits, Registered;
    EncodingNotEmpty(rsp);
    v0, v1, v2 := ForwardsRequest(v, chs, req, rsp);
    TakesLeftover(v2, chs[3], rsp);
    v3 := Turn(v2, CAN_READ, chs[3]).1;
    WritesAll(v3, chs[4]);
    v4 := Turn(v3, CAN_WRITE, chs[4]).1;
    assert [] + Encode(rsp) == Encode(rsp);
  }
}
