/** Exactly when a handled event reaches an abort() or a failing assertion. */
module Crashes {
  import opened Wire
  import opened Packet
  import opened Decode
  import opened SelfDelimiting
  import opened Registry
  import opened Owner
  import opened Relay
  import opened RelayInvariant

  /** What must not be read in this state: a response of an unknown type; by the server a DISCONNECT, which
      has the number 2, or a response it has not forwarded a request for. */
  ghost predicate Deadly(hi: Handlers, st: SockState, p: Parsed<Packet>) {
    || p.Unknown?
    || (p.Done? && hi.ServerHi? && (p.val.body == Bare(2) || (p.val.body.RspBody? && st != RspFwd)))
  }

  /** A connection in use, with the events the last poll left for it. */
  ghost predicate InUse(v: View) {
    && |v.clients| < WIDE_LIMIT && v.sock.typ == PktIn && EventsFit(v.sock) && v.sock.revents != QUIET
    && match v.sock.state
       case ReqRd => Owns(v.kernel, v.sock.inp.fd)
       case RspFwd => v.hi.ServerHi? && Owns(v.kernel, v.sock.inp.fd)
       case ReqFwd => v.hi.ServerHi? && Owns(v.kernel, v.sock.out.fd)
       case RspWr => Owns(v.kernel, v.sock.out.fd)
       case _ => false
  }

  /** A turn of a connection crashes exactly if it completes a deadly packet. */
  lemma CrashesExactly(v: View, ch: Choice)
    requires InUse(v)
    ensures HandleSocketEvent(v, ch).0 == Crash <==>
      && ReadsIn(v.sock.state) && !ch.fail && Chunk(v.kernel[v.sock.inp.fd], ch.limit) != []
      && Deadly(v.hi, v.sock.state, ParsePacket(v.sock.inp.buf + Chunk(v.kernel[v.sock.inp.fd], ch.limit)))
  {
    hide ParsePacket, Encode, Sorted, Bag, Registered, RootTest, Reply, Implemented, Recipient, RootAnswer;
  }

  /** So the environment can make a connection crash exactly if the first packet its other end sends is
      deadly: whatever is sent behind it, and however it is cut into reads. */
  lemma CrashesForScript(v: View)
    requires InUse(v) && ReadsIn(v.sock.state) && Reading(v.kernel[v.sock.inp.fd], v.sock.inp.buf)
    ensures (exists ch: Choice :: ch.limit >= 1 && HandleSocketEvent(v, ch).0 == Crash)
      <==> Deadly(v.hi, v.sock.state, ParsePacket(v.kernel[v.sock.inp.fd].script))
  {
    hide ParsePacket, HandleSocketEvent, EventsFit;
    var st := v.kernel[v.sock.inp.fd];
    forall ch: Choice | ch.limit >= 1 && HandleSocketEvent(v, ch).0 == Crash
      ensures Deadly(v.hi, v.sock.state, ParsePacket(st.script))
    {
      CrashesExactly(v, ch);
      AdvancedSeen(st, ch.limit);
      PacketCut(Seen(Advanced(st, ch.limit)), st.script);
    }
    if Deadly(v.hi, v.sock.state, ParsePacket(st.script)) {
      var os := Os(path => Unopenable(1), r => Handled(0, RspOk));
      var ch := Choice(false, |st.script| + 1, -1, false, [], [], [], 0, os);
      CrashesExactly(v, ch);
      AdvancedSeen(st, ch.limit);
      assert Seen(st) != st.script;
      assert Seen(Advanced(st, ch.limit)) == st.script;
    }
  }

  /** What is assumed of a requester is no more than that its first packet is not deadly to the server,
      and that nothing follows it; what is assumed of a peer implies the same. */
  lemma AssumedOfEnds(script: seq<byte>)
    ensures Requester(script) <==>
      !Deadly(ServerHi, ReqRd, ParsePacket(script))
      && (ParsePacket(script).Done? ==> ParsePacket(script).next == |script|)
    ensures Responder(script) ==> !Deadly(ServerHi, RspFwd, ParsePacket(script))
  {
    hide ParsePacket;
  }
}
