/** How clients come into the server's registry: by announcing themselves. */
module Announcements {
  import opened Wire
  import opened Packet
  import opened Decode
  import opened Registry
  import opened Owner
  import opened Relay
  import opened RelayInvariant
  import opened RelaySafety

  /** The other end of the connection has sent a CONNECT with this client's name and port, from this
      client's address. */
  ghost predicate Announces(s: Sock, k: map<int, Stream>, c: Client) {
    && s.typ == PktIn && s.state == ReqRd && Owns(k, s.inp.fd)
    && k[s.inp.fd].addr == Inbound(c.ip)
    && var p := ParsePacket(k[s.inp.fd].script);
       p.Done? && p.val.body == ConnBody(Connect(c.username, c.port))
  }

  /** The turn completes a CONNECT that registers this client: the other end's address can be had, and
      there is room. */
  ghost predicate Completes(v: View, ch: Choice, c: Client) {
    && v.hi.ServerHi? && v.sock.typ == PktIn && v.sock.state == ReqRd && v.sock.revents.pin
    && Owns(v.kernel, v.sock.inp.fd) && v.kernel[v.sock.inp.fd].addr == Inbound(c.ip)
    && !ch.fail && ch.ok && |v.clients| + 1 < WIDE_LIMIT
    && var st := v.kernel[v.sock.inp.fd];
       var p := ParsePacket(v.sock.inp.buf + Chunk(st, ch.limit));
    && st.got < |st.script| && p.Done? && p.val.body == ConnBody(Connect(c.username, c.port))
  }

  /** One read of a one-packet script completes the packet only when it has come to the script's end. */
  lemma WholeScript(st: Stream, buf: seq<byte>, limit: nat, request: bool)
    requires Reading(st, buf) && OnePacket(st.script, request) && ParsePacket(buf + Chunk(st, limit)).Done?
    ensures ParsePacket(st.script) == ParsePacket(buf + Chunk(st, limit))
  {
    hide ParsePacket;
    AdvancedSeen(st, limit);
    PrefixOfOne(st.script, Advanced(st, limit).got, request);
  }

  lemma ReadRegisters(v: View, ch: Choice)
    requires ViewInv(v) && v.sock.typ == PktIn && ReadsIn(v.sock.state) && v.sock.revents.pin
    requires Fair(v.sock, v.kernel, ch)
    ensures var after := HandlePktRd(v, ch).1.clients;
      && (forall c :: Completes(v, ch, c) ==> Bag(after) == Bag(v.clients) + multiset{c})
      && ((forall c :: !Completes(v, ch, c)) ==> after == v.clients)
  {
    hide ParsePacket, Encode, Sorted, OnePacket, HandleReqRdFin, Bag, Reply, Implemented, Enlisted;
    if ch.fail {
      return;
    }
    var q := v.kernel[v.sock.inp.fd];
    var buf := v.sock.inp.buf + Chunk(q, ch.limit);
    ReadOne(q, v.sock.inp.buf, ch.limit, v.sock.state == ReqRd);
    if Chunk(q, ch.limit) != [] && ParsePacket(buf).Done? {
      var body := ParsePacket(buf).val.body;
      if v.hi.ServerHi? && body.ReqBody? {
        RequestsRegisterNobody(ReadTaken(v, ch), ParsePacket(buf).val, ch);
      } else if v.hi.ServerHi? && body.ConnBody? && v.sock.state == ReqRd {
        var c := Client(body.conn.name, q.addr.ip, body.conn.port);
        assert ch.ok && |v.clients| + 1 < WIDE_LIMIT ==> Completes(v, ch, c);
      }
    }
  }

  /** The view after a read whose packet has been taken off the buffer. */
  ghost function ReadTaken(v: View, ch: Choice): View
    requires v.sock.inp.fd in v.kernel && ParsePacket(ReadFrom(v, ch.limit).sock.inp.buf).Done?
  {
    var u := ReadFrom(v, ch.limit);
    u.(sock := u.sock.(inp := u.sock.inp.(buf := u.sock.inp.buf[ParsePacket(u.sock.inp.buf).next..])))
  }

  lemma RequestsRegisterNobody(v: View, p: Packet, ch: Choice)
    requires p.body.ReqBody? && |v.clients| < WIDE_LIMIT
    ensures HandleReqRdFin(v, p, ch).1.clients == v.clients
  {
  }

  /** A turn adds exactly the client whose CONNECT it completes to the registry. */
  lemma TurnRegisters(v: View, ch: Choice)
    requires ViewInv(v) && EventsFit(v.sock) && Fair(v.sock, v.kernel, ch)
    ensures var after := HandleSocketEvent(v, ch).1.clients;
      && (forall c :: Completes(v, ch, c) ==> Bag(after) == Bag(v.clients) + multiset{c})
      && ((forall c :: !Completes(v, ch, c)) ==> after == v.clients)
  {
    hide ParsePacket, Encode, Sorted, OnePacket, HandlePktRd, Bag;
    OwnedFds(v.sock, v.story, v.kernel);
    if v.sock.typ == PktIn && ReadsIn(v.sock.state) && v.sock.revents.pin {
      ReadRegisters(v, ch);
    }
  }

  /** What is completed was announced: the CONNECT is all the other end sent. */
  lemma CompletedIsAnnounced(v: View, ch: Choice, c: Client)
    requires ViewInv(v) && Fair(v.sock, v.kernel, ch) && Completes(v, ch, c)
    ensures Announces(v.sock, v.kernel, c)
  {
    hide ParsePacket, Encode, Sorted, OnePacket;
    WholeScript(v.kernel[v.sock.inp.fd], v.sock.inp.buf, ch.limit, true);
  }

  // ---- runs ----

  ghost predicate RegistersWith(m: Moment, ch: Choice, m': Moment, c: Client) {
    Handles(m, ch, m') && Completes(ViewOf(m.world, m.next), ch, c)
  }

  /** The step completes a CONNECT that registers this client. */
  ghost predicate Registers(m: Moment, m': Moment, c: Client) {
    exists ch :: RegistersWith(m, ch, m', c)
  }

  lemma HandleRegisters(m: Moment, ch: Choice, m': Moment)
    requires MomentInv(m) && Handles(m, ch, m')
    ensures var v := ViewOf(m.world, m.next);
      && (forall c :: Completes(v, ch, c) ==> Bag(m'.world.clients) == Bag(m.world.clients) + multiset{c})
      && ((forall c :: !Completes(v, ch, c)) ==> m'.world.clients == m.world.clients)
  {
    hide SockInv, Sorted, EventsFit, Fair, HandleSocketEvent, Completes, Bag;
    HandleEntryKeepsInv(m.world, m.next, ch);
    TurnRegisters(ViewOf(m.world, m.next), ch);
  }

  lemma InBag(s: seq<Client>, c: Client)
    ensures c in Bag(s) <==> c in s
  {
  }

  lemma StepRegisters(m: Moment, m': Moment, c: Client)
    requires MomentInv(m) && Step(m, m')
    ensures Bag(m.world.clients) <= Bag(m'.world.clients)
    ensures c in m'.world.clients <==> c in m.world.clients || Registers(m, m', c)
  {
    hide MomentInv, HandleEntry, Fair, Completes, Bag, PolledTable, PolledKernel, Requested, Step;
    InBag(m.world.clients, c);
    InBag(m'.world.clients, c);
    if ch :| RegistersWith(m, ch, m', c) {
      HandleRegisters(m, ch, m');
    } else {
      StepIs(m, m');
      if rs :| Polls(m, rs, m') {
      } else {
        var ch :| Handles(m, ch, m');
        HandleRegisters(m, ch, m');
        assert !RegistersWith(m, ch, m', c);
        if d :| Completes(ViewOf(m.world, m.next), ch, d) {
          assert Bag(m'.world.clients) == Bag(m.world.clients) + multiset{d};
        }
      }
    }
  }

  lemma StepIs(m: Moment, m': Moment)
    requires Step(m, m')
    ensures (exists rs :: Polls(m, rs, m')) || exists ch :: Handles(m, ch, m')
  {
  }

  /** At every moment of every run a client is in the registry exactly if some earlier turn completed a
      CONNECT with its name and port, from its address. */
  lemma {:induction false} RegistryExactly(run: seq<Moment>, k: nat, c: Client)
    requires IsRun(run) && k < |run|
    ensures c in run[k].world.clients <==> exists j :: 0 <= j < k && Registers(run[j], run[j + 1], c)
    decreases k
  {
    hide Step, MomentInv, Registers;
    if k > 0 {
      RunsKeepInv(run);
      assert Step(run[k - 1], run[k - 1 + 1]);
      StepRegisters(run[k - 1], run[k], c);
      RegistryExactly(run, k - 1, c);
    }
  }

  /** It is the turn of a connection whose other end announced this client. */
  ghost predicate AnnouncedAt(m: Moment, c: Client) {
    var w := m.world;
    m.next < m.count && m.next < |w.table| && Announces(w.table[m.next], w.kernel, c)
  }

  lemma RegisteredIsAnnounced(m: Moment, m': Moment, c: Client)
    requires MomentInv(m) && Registers(m, m', c)
    ensures AnnouncedAt(m, c)
  {
    hide SockInv, Sorted, EventsFit, Fair, HandleEntry, Completes, Announces;
    var ch :| RegistersWith(m, ch, m', c);
    CompletedIsAnnounced(ViewOf(m.world, m.next), ch, c);
  }

  /** Every client in the registry announced itself at an earlier turn of the run, under that name and
      port and from that address. */
  lemma RegistryHistory(run: seq<Moment>, k: nat, c: Client)
    requires IsRun(run) && k < |run| && c in run[k].world.clients
    ensures exists j :: 0 <= j < k && AnnouncedAt(run[j], c)
  {
    hide IsRun, MomentInv, Registers, AnnouncedAt;
    RegistryExactly(run, k, c);
    RunsKeepInv(run);
    var j :| 0 <= j < k && Registers(run[j], run[j + 1], c);
    RegisteredIsAnnounced(run[j], run[j + 1], c);
  }

  /** So does every client a request was ever forwarded to. */
  lemma ForwardedToAnnounced(run: seq<Moment>, k: nat, i: nat)
    requires IsRun(run) && k < |run| && i < |run[k].world.stories| && run[k].world.stories[i].Forwarded?
    ensures exists j :: 0 <= j < k && AnnouncedAt(run[j], run[k].world.stories[i].to)
  {
    hide IsRun, AnnouncedAt;
    StoriesHappened(run, k, i);
    var story := run[k].world.stories[i];
    var j: nat :| j < k && run[j].next == i < run[j].count && DecidedBy(story, run[j].world.clients);
    RegistryHistory(run, j, story.to);
  }

  /** No client ever leaves the registry. */
  lemma {:induction false} RegistryOnlyGrows(run: seq<Moment>, k: nat, l: nat)
    requires IsRun(run) && k <= l < |run|
    ensures Bag(run[k].world.clients) <= Bag(run[l].world.clients)
    decreases l - k
  {
    hide Step, MomentInv, Bag;
    if k < l {
      RunsKeepInv(run);
      assert Step(run[k], run[k + 1]);
      StepRegisters(run[k], run[k + 1], Client([], [], 0));
      RegistryOnlyGrows(run, k + 1, l);
    }
  }
}
