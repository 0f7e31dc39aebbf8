/** The loop as it runs, in the server and in a client's responder: a growable array of socket
    structures updated in place, the registry, the handlers of either daemon, and the two-pass poll.
    Each method is proved to take the step of the state machine. */
module Server {
  import opened Wire
  import opened Packet
  import opened Decode
  import opened Registry
  import opened Owner
  import opened Relay
  import opened RelayInvariant
  import opened RelaySafety

  datatype PollFd = PollFd(fd: int, events: Revents, revents: Revents)

  class Server {
    /** The handlers `server_loop` is called with. */
    const hi: Handlers

    /** `socks->sockinfos`, of which the first `count` are used. */
    var sockinfos: array<Sock>
    var count: nat
    const clients: Clients

    /** The kernel's view of the open descriptors. */
    var kernel: map<int, Stream>
    ghost var stories: seq<Story>

    ghost predicate Valid()
      reads this, sockinfos, clients, clients.vec
    {
      && count <= sockinfos.Length && |stories| == count
      && sockinfos as object != clients.vec
      && clients.Valid()
    }

    ghost function TheWorld(): World
      reads this, sockinfos, clients, clients.vec
      requires Valid()
    {
      World(hi, sockinfos[..count], stories, clients.Contents(), kernel)
    }

    ghost function At(i: nat): View
      reads this, sockinfos, clients, clients.vec
      requires Valid() && i < count
    {
      View(hi, sockinfos[i], stories[i], clients.Contents(), kernel)
    }

    /** `server_start`: only the listening socket. */
    constructor (fd: int, hi: Handlers)
      requires fd >= 0
      ensures this.hi == hi && Valid() && fresh(sockinfos) && fresh(clients) && fresh(clients.vec)
      ensures Start(Moment(TheWorld(), 0, 0), fd)
    {
      this.hi := hi;
      sockinfos := new Sock[0];
      count := 0;
      clients := new Clients();
      kernel := map[fd := Stream(Listening, [], 0, [])];
      stories := [];
      new;
      SocksAdd(NewSock(Lstn, StLstn, fd), Undecided);
    }

    // ---- descriptors ----

    /** `close(2)`: only an open descriptor can be closed. */
    method Close(fd: int)
      requires fd in kernel
      modifies this`kernel
      ensures kernel == old(kernel) - {fd}
    {
      kernel := kernel - {fd};
    }

    /** `middfs_sockinfo_delete` */
    method SockinfoDelete(i: nat)
      requires Valid() && i < count
      requires Closeable(sockinfos[i], kernel)
      modifies this`kernel, sockinfos
      ensures Valid() && TheWorld() == Remove(old(TheWorld()), i)
    {
      var s := sockinfos[i];
      sockinfos[i] := s.(typ := NoneType);
      if s.inp.fd >= 0 {
        sockinfos[i] := sockinfos[i].(inp := s.inp.(fd := -1));
        Close(s.inp.fd);
      }
      if s.out.fd >= 0 {
        sockinfos[i] := sockinfos[i].(out := s.out.(fd := -1));
        Close(s.out.fd);
      }
      assert sockinfos[..count] == old(sockinfos[..count])[i := Deleted(s)];
      assert kernel == old(kernel) - Fds(s);
    }

    /** `middfs_socks_add`, doubling the array when it is full. */
    method SocksAdd(s: Sock, ghost story: Story)
      requires Valid()
      modifies this`sockinfos, this`count, this`stories, sockinfos
      ensures Valid() && (sockinfos == old(sockinfos) || fresh(sockinfos))
      ensures sockinfos[..count] == old(sockinfos[..count]) + [s] && stories == old(stories) + [story]
    {
      if count == sockinfos.Length {
        var n := Max(2 * sockinfos.Length, 16);
        var grown := new Sock[n](_ => NewSock(NoneType, StNone, -1));
        forall i | 0 <= i < count {
          grown[i] := sockinfos[i];
        }
        sockinfos := grown;
      }
      sockinfos[count] := s;
      count := count + 1;
      stories := stories + [story];
    }

    // ---- polling ----

    /** `middfs_sockinfo_pollfds` with `middfs_sockend_pollfd`: claims a pollfd for the end the state
        asks about and points that end at it, if there is room. */
    method SockinfoPollfds(pfds: array<PollFd>, at: nat, nfds: nat, i: nat) returns (used: nat)
      requires Valid() && i < count && (nfds > 0 ==> at < pfds.Length)
      requires Pollable(sockinfos[i]) ==> PolledFd(sockinfos[i]) >= 0
      modifies sockinfos, pfds
      ensures Valid() && used == if Pollable(old(sockinfos[i])) then 1 else 0
      ensures sockinfos[..count] ==
        old(sockinfos[..count])[i := if nfds > 0 then Slotted(old(sockinfos[i]), at) else old(sockinfos[i])]
      ensures var s := old(sockinfos[i]);
        pfds[..] == if Pollable(s) && nfds > 0 then old(pfds[..])[at := PollEntry(s)] else old(pfds[..])
      ensures (used == 1) == Polled(old(sockinfos[i]))
      ensures used == 1 && nfds > 0 ==> AsksFor(old(sockinfos[i]), pfds[at])
    {
      var s := sockinfos[i];
      used := 0;
      if s.typ == NoneType {
        return;
      }
      if ReadsIn(s.state) {
        assert s.inp.fd >= 0;
        used := 1;
        if nfds > 0 {
          pfds[at] := PollFd(s.inp.fd, Revents(true, false, false, false), QUIET);
          sockinfos[i] := s.(inp := s.inp.(slot := at));
        }
      }
      if WritesOut(s.state) {
        assert s.out.fd >= 0;
        used := 1;
        if nfds > 0 {
          pfds[at] := PollFd(s.out.fd, Revents(false, true, false, false), QUIET);
          sockinfos[i] := s.(out := s.out.(slot := at));
        }
      }
    }

    /** `middfs_socks_pollfds`: the count does not depend on how much room there is, so the sizing
        pass and the filling pass agree; every entry that fits gets a slot of its own. */
    method SocksPollfds(pfds: array<PollFd>, nfds: nat) returns (used: nat)
      requires Valid() && nfds <= pfds.Length
      requires forall i :: 0 <= i < count && Pollable(sockinfos[i]) ==> PolledFd(sockinfos[i]) >= 0
      modifies sockinfos, pfds
      ensures Valid() && used == Slots(old(sockinfos[..count]), count)
      ensures Filled(old(sockinfos[..count]), count, nfds, sockinfos[..count], pfds[..])
      ensures var table := old(sockinfos[..count]);
        nfds >= used ==> forall j :: 0 <= j < count && Polled(table[j]) ==>
          Slots(table, j) < used && AsksFor(table[j], pfds[..][Slots(table, j)])
    {
      hide Polled, AsksFor;
      hide Filled, Slotted, Pollable, Wanted, Slots, PollEntry;
      ghost var table := sockinfos[..count];
      used := 0;
      FillNone(table, nfds, pfds[..]);
      for i := 0 to count
        invariant Valid() && used == Slots(table, i)
        invariant Filled(table, i, nfds, sockinfos[..count], pfds[..])
      {
        FilledAt(table, i, nfds, sockinfos[..count], pfds[..]);
        ghost var before, beforeP := sockinfos[..count], pfds[..];
        var u := SockinfoPollfds(pfds, used, SizeRem(nfds, used), i);
        FillNext(table, i, nfds, before, beforeP, sockinfos[..count], pfds[..]);
        used := used + u;
      }
      if nfds >= used {
        FilledAsks(table, nfds, sockinfos[..count], pfds[..]);
      }
    }

    /** `poll(2)`: reports for each pollfd the requested events, errors and hang-ups of `answer`. */
    method Poll(pfds: array<PollFd>, answer: nat -> Revents)
      modifies pfds
      ensures forall k :: 0 <= k < pfds.Length ==>
        pfds[k] == old(pfds[k]).(revents := Mask(answer(k), old(pfds[k].events)))
    {
      forall k | 0 <= k < pfds.Length {
        pfds[k] := pfds[k].(revents := Mask(answer(k), pfds[k].events));
      }
    }

    /** `middfs_sockend_check`: reads the events through the pointer of an open end; `hung` stands for
        the error return. */
    method SockendCheck(e: End, pfds: array<PollFd>) returns (hung: bool, r: Revents)
      requires e.fd >= 0 ==> 0 <= e.slot < pfds.Length
      ensures e.fd < 0 ==> !hung && r == QUIET
      ensures e.fd >= 0 ==> r == pfds[e.slot].revents && hung == Hung(r)
    {
      if e.fd < 0 {
        return false, QUIET;
      }
      r := pfds[e.slot].revents;
      hung := Hung(r);
    }

    /** One turn of `middfs_socks_check`, on an entry whose polled end was answered `r`. */
    method SockinfoCheck(i: nat, pfds: array<PollFd>, ghost r: Revents)
      requires Valid() && i < count
      requires SlotAnswers(sockinfos[i], pfds[..], r)
      requires Closeable(sockinfos[i], kernel)
      modifies this`kernel, sockinfos
      ensures Valid()
      ensures sockinfos[..count] == old(sockinfos[..count])[i := Checked(old(sockinfos[i]), r)]
      ensures kernel == old(kernel) - (Fds(old(sockinfos[i])) - Fds(Checked(old(sockinfos[i]), r)))
    {
      hide Closeable, Sorted;
      var s := sockinfos[i];
      var hung, events := false, QUIET;
      if ReadsIn(s.state) {
        hung, events := SockendCheck(s.inp, pfds);
      }
      if WritesOut(s.state) {
        hung, events := SockendCheck(s.out, pfds);
      }
      if hung {
        SockinfoDelete(i);
      } else {
        sockinfos[i] := s.(revents := events);
        assert Fds(sockinfos[i]) == Fds(s);
      }
    }

    /** `middfs_socks_check`: every pointer it follows was set by the filling pass of this round. */
    method SocksCheck(pfds: array<PollFd>, ghost w: World, ghost rs: seq<Revents>)
      requires Valid() && Inv(w) && |rs| == |w.table| == count
      requires hi == w.hi && kernel == w.kernel && stories == w.stories && clients.Contents() == w.clients
      requires forall j :: 0 <= j < count ==> Requested(w.table[j], rs[j])
      requires sockinfos[..count] == Half(w, 0, rs)
      requires forall j :: 0 <= j < count && Pollable(w.table[j]) ==>
        Slots(w.table, j) < |pfds[..]| && pfds[..][Slots(w.table, j)].revents == rs[j]
      modifies this`kernel, sockinfos
      ensures Valid() && TheWorld() == PollEntries(w, count, rs)
    {
      hide Inv, Requested, Checked, Fds, Pollable, Sorted, Half, Slotted, SlotAnswers, Closeable;
      hide PollEntries, PolledSock, Slots;
      HalfEnds(w, rs);
      for i := 0 to count
        invariant Valid() && sockinfos[..count] == Half(w, i, rs)
        invariant kernel == PollEntries(w, i, rs).kernel
      {
        HalfNext(w, i, rs, pfds[..]);
        assert sockinfos[..count][i] == sockinfos[i];
        SockinfoCheck(i, pfds, rs[i]);
      }
    }

    /** `middfs_socks_poll`: a sizing pass, a filling pass, poll(2) and the check. */
    method SocksPoll(answer: nat -> Revents) returns (ghost rs: seq<Revents>)
      requires Valid() && Inv(TheWorld())
      modifies this`kernel, sockinfos
      ensures Valid() && |rs| == count
      ensures forall i :: 0 <= i < count ==> rs[i] == Answer(old(TheWorld()).table, i, answer)
      ensures TheWorld() == PollEntries(old(TheWorld()), count, rs)
      ensures Inv(TheWorld()) && forall i :: 0 <= i < count ==> EventsFit(TheWorld().table[i])
      ensures var table := old(TheWorld()).table;
        forall i :: 0 <= i < count ==> AfterPoll(table[i], sockinfos[i], answer(Slots(table, i)))
    {
      hide AfterPoll, Polled, AsksFor;
      hide Inv, Slotted, Requested, Checked, Fds, Pollable, Sorted, Filled, EventsFit, PollEntries, Mask, Wanted;
      ghost var w := TheWorld();
      rs := Answers(w.table, |w.table|, answer);
      PolledEndsOpen(w);
      var none := new PollFd[0];
      var nfds := SocksPollfds(none, 0);
      FilledNone(w.table, sockinfos[..count], none[..]);
      var pfds := new PollFd[nfds](_ => PollFd(-1, QUIET, QUIET));
      var _ := SocksPollfds(pfds, nfds);
      FilledAll(w, rs, sockinfos[..count], pfds[..]);
      Poll(pfds, answer);
      AnswersRequested(w.table, answer);
      SocksCheck(pfds, w, rs);
      PollKeepsInv(w, count, rs);
      PollMeans(w, answer, rs);
      assert forall i :: 0 <= i < count ==> sockinfos[i] == TheWorld().table[i];
    }

    // ---- handlers ----

    /** `handle_connect`: `client_create` fails when the other end's address cannot be had, `clients_add`
        when the vector would need 2^64 entries. */
    method HandleConnect(i: nat, c: Connect, ch: Choice) returns (status: Verdict, ghost ch': Choice)
      requires Valid() && i < count && |clients.Contents()| < WIDE_LIMIT
      modifies clients, clients.vec
      ensures Valid() && (clients.vec == old(clients.vec) || fresh(clients.vec))
      ensures Settles(ch, ch')
      ensures TheWorld() == Store(old(TheWorld()), i, At(i))
      ensures (status, At(i)) == Relay.HandleConnect(old(At(i)), c, ch')
      ensures var fd := sockinfos[i].inp.fd;
        if fd in kernel && (kernel[fd].addr.Inbound? || kernel[fd].addr.Outbound?) && ch.ok
           && |old(clients.Contents())| < 0xFFFF_FFFF_FFFF_FFFF
        then
          Bag(clients.Contents()) == Bag(old(clients.Contents())) + multiset{Client(c.name, kernel[fd].addr.ip, c.port)}
        else clients.Contents() == old(clients.Contents())
    {
      hide Sorted, Bag;
      ch' := ch;
      var fd := sockinfos[i].inp.fd;
      if fd in kernel && HasPeer(kernel[fd].addr) && ch.ok && clients.cnt + 1 < WIDE_LIMIT {
        clients.Add(Client(c.name, kernel[fd].addr.ip, c.port));
        ch' := ch.(sorted := clients.Contents());
      }
      status := Del;
    }

    /** `handle_req_rd_fin_root` */
    method HandleReqRdFinRoot(i: nat, r: Request) returns (rsp: Response)
      requires Valid() && i < count && |clients.Contents()| < WIDE_LIMIT
      modifies this`stories, sockinfos
      ensures Valid() && TheWorld() == Store(old(TheWorld()), i, At(i))
      ensures (At(i), Packet(MAGIC, RspBody(rsp))) == Relay.HandleReqRdFinRoot(old(At(i)), r)
      ensures r.rsrc.path == [] ==> OwnReply(r, clients.Contents(), Packet(MAGIC, RspBody(rsp)))
    {
      hide OwnReply, Sorted, Value, ToWide;
      if r.typ == REQ_READDIR {
        var ents := clients.Readdir();
        rsp := RspDir(ToWide(|ents|), ents);
      } else if r.typ == REQ_ACCESS {
        rsp := if 0 <= r.mode <= 7 then RspOk else RspError(EINVAL);
      } else if r.typ == REQ_RENAME {
        rsp := RspError(EPERM);
      } else {
        rsp := RspError(ENOENT);
      }
      Turn(i);
      stories := stories[i := Here(clients.Contents())];
      HereAnswerMeans(r, clients.Contents());
    }

    /** The requester's descriptor becomes the one to write to. */
    method Turn(i: nat)
      requires Valid() && i < count
      modifies sockinfos
      ensures Valid() && sockinfos[..count] == old(sockinfos[..count])[i := Turned(old(sockinfos[i]))]
    {
      sockinfos[i] := sockinfos[i].(state := RspWr);
      sockinfos[i] := sockinfos[i].(out := sockinfos[i].out.(fd := sockinfos[i].inp.fd));
      sockinfos[i] := sockinfos[i].(inp := sockinfos[i].inp.(fd := -1));
    }

    /** `inet_connect`: the new descriptor reaches the address, its port cut to 16 bits. When connect
        fails, the descriptor socket made is reported to nobody and not closed. */
    method InetConnect(ip: cstr, port: u32, ch: Choice) returns (fd: int)
      modifies this`kernel
      ensures fd == if ch.ok && ch.fd >= 0 then ch.fd else -1
      ensures kernel == if ch.fd < 0 then old(kernel)
        else old(kernel)[ch.fd := if ch.ok then Stream(Outbound(ip, Htons(port)), ch.script, 0, [])
                                  else Stream(Unconnected, [], 0, [])]
    {
      var sockfd := ch.fd; // socket
      if sockfd < 0 {
        return -1;
      }
      kernel := kernel[sockfd := Stream(Unconnected, [], 0, [])];
      if !ch.ok { // connect
        return -1;
      }
      kernel := kernel[sockfd := Stream(Outbound(ip, Htons(port)), ch.script, 0, [])];
      fd := sockfd;
    }

    /** `handle_req_rd_fin_peer`: an unknown owner is answered here; otherwise the request is to be
        forwarded on a new connection to the address of the client found, if it can be made. */
    method HandleReqRdFinPeer(i: nat, p: Packet, ch: Choice) returns (status: Verdict, out: Packet, ghost ch': Choice)
      requires Valid() && i < count && p.body.ReqBody?
      modifies this`kernel, this`stories, sockinfos
      ensures Valid() && TheWorld() == Store(old(TheWorld()), i, At(i)) && Settles(ch, ch')
      ensures (status, At(i), out) == Relay.HandleReqRdFinPeer(old(At(i)), p, ch')
    {
      hide Sorted, Registered, Turned;
      ch' := ch;
      out := p;
      var owner := p.body.req.rsrc.owner;
      var found := clients.Find(owner);
      if found.Nowhere? {
        out := Packet(MAGIC, RspBody(RspError(ENOENT)));
        Turn(i);
        stories := stories[i := Here(clients.Contents())];
      } else {
        sockinfos[i] := sockinfos[i].(state := ReqFwd);
        ch' := ch.(found := found.i);
        var recipient := clients.vec[found.i];
        var tmpfd := InetConnect(recipient.ip, recipient.port, ch);
        if tmpfd < 0 {
          return Del, out, ch';
        }
        sockinfos[i] := sockinfos[i].(out := sockinfos[i].out.(fd := tmpfd));
        stories := stories[i := Forwarded(recipient)];
      }
      status := Suc;
    }

    /** `buffer_serialize` onto the queue of the out end. */
    method Enqueue(i: nat, p: Packet)
      requires Valid() && i < count
      modifies sockinfos
      ensures Valid()
      ensures sockinfos[..count] == old(sockinfos[..count])[i := Queued(old(sockinfos[i]), Encode(p))]
    {
      var s := sockinfos[i];
      sockinfos[i] := s.(out := s.out.(buf := s.out.buf + Encode(p)));
    }

    /** `handle_req_rd_fin` */
    method HandleReqRdFin(i: nat, p: Packet, ch: Choice) returns (status: Verdict, ghost ch': Choice)
      requires Valid() && i < count && p.body.ReqBody? && |clients.Contents()| < WIDE_LIMIT
      modifies this`kernel, this`stories, sockinfos
      ensures Valid() && TheWorld() == Store(old(TheWorld()), i, At(i)) && Settles(ch, ch')
      ensures (status, At(i)) == Relay.HandleReqRdFin(old(At(i)), p, ch')
    {
      hide Sorted, Encode, Queued, Relay.HandleReqRdFinRoot, Relay.HandleReqRdFinPeer;
      ch' := ch;
      var r := p.body.req;
      var out;
      if RootTest(r) {
        var rsp := HandleReqRdFinRoot(i, r);
        status, out := Suc, Packet(MAGIC, RspBody(rsp));
      } else {
        status, out, ch' := HandleReqRdFinPeer(i, p, ch);
      }
      if status == Del {
        return;
      }
      Enqueue(i, out);
    }

    /** `handle_rsp_rd_fin` */
    method HandleRspRdFin(i: nat, p: Packet) returns (status: Verdict)
      requires Valid() && i < count && sockinfos[i].state == RspFwd
      modifies sockinfos
      ensures Valid() && TheWorld() == Store(old(TheWorld()), i, At(i))
      ensures (status, At(i)) == Relay.HandleRspRdFin(old(At(i)), p)
    {
      hide Encode;
      sockinfos[i] := sockinfos[i].(state := RspWr);
      Enqueue(i, p);
      status := Suc;
    }

    /** The server's `handle_pkt_rd_fin`. */
    method ServerRdFin(i: nat, p: Packet, ch: Choice) returns (status: Verdict, ghost ch': Choice)
      requires Valid() && i < count && |clients.Contents()| < WIDE_LIMIT
      requires Relay.ServerRdFin(At(i), p, ch).0 != Crash
      modifies this`kernel, this`stories, sockinfos, clients, clients.vec
      ensures Valid() && (clients.vec == old(clients.vec) || fresh(clients.vec))
      ensures Settles(ch, ch')
      ensures TheWorld() == Store(old(TheWorld()), i, At(i))
      ensures (status, At(i)) == Relay.ServerRdFin(old(At(i)), p, ch')
    {
      hide Sorted, Relay.HandleReqRdFin, Relay.HandleConnect, Encode;
      ch' := ch;
      match p.body {
        case ConnBody(c) => status, ch' := HandleConnect(i, c, ch);
        case ReqBody(_) => status, ch' := HandleReqRdFin(i, p, ch);
        case RspBody(_) => status := HandleRspRdFin(i, p);
        case Bare(t) =>
          assert t != PKT_DISCONNECT;
          status := Del;
      }
    }

    /** The responder's `handle_pkt_rd_fin`: queues the reply and turns the connection around, or ends
        it. */
    method ClientRdFin(i: nat, p: Packet, ch: Choice) returns (status: Verdict)
      requires Valid() && i < count
      requires Relay.ClientRdFin(At(i), p, ch).0 != Crash
      modifies this`stories, sockinfos
      ensures Valid() && TheWorld() == Store(old(TheWorld()), i, At(i))
      ensures (status, At(i)) == Relay.ClientRdFin(old(At(i)), p, ch)
    {
      hide Sorted, Encode, Reply, Queued, Turned;
      assert sockinfos[i].state == ReqRd;
      if !p.body.ReqBody? {
        return Del;
      }
      var handled, out := HandleRequest(p.body.req, ch.os);
      if !handled {
        return Del;
      }
      Enqueue(i, out);
      Turn(i);
      stories := stories[i := Replied(ch.os)];
      status := Suc;
    }

    /** `rd_fin` of the handlers in use. */
    method HandlePktRdFin(i: nat, p: Packet, ch: Choice) returns (status: Verdict, ghost ch': Choice)
      requires Valid() && i < count && |clients.Contents()| < WIDE_LIMIT
      requires Relay.HandlePktRdFin(At(i), p, ch).0 != Crash
      modifies this`kernel, this`stories, sockinfos, clients, clients.vec
      ensures Valid() && (clients.vec == old(clients.vec) || fresh(clients.vec))
      ensures Settles(ch, ch')
      ensures TheWorld() == Store(old(TheWorld()), i, At(i))
      ensures (status, At(i)) == Relay.HandlePktRdFin(old(At(i)), p, ch')
    {
      hide Sorted, Relay.ServerRdFin, Relay.ClientRdFin;
      ch' := ch;
      if hi.ServerHi? {
        status, ch' := ServerRdFin(i, p, ch);
      } else {
        status := ClientRdFin(i, p, ch);
      }
    }

    /** `wr_fin` of the handlers in use. */
    method HandlePktWrFin(i: nat) returns (status: Verdict)
      requires Valid() && i < count
      requires Relay.HandlePktWrFin(At(i)).0 != Crash
      modifies sockinfos
      ensures Valid() && TheWorld() == Store(old(TheWorld()), i, At(i))
      ensures (status, At(i)) == Relay.HandlePktWrFin(old(At(i)))
    {
      if hi.ClientHi? {
        assert sockinfos[i].state == RspWr;
        return Del;
      }
      if sockinfos[i].state == ReqFwd {
        sockinfos[i] := sockinfos[i].(state := RspFwd);
        var tmpfd := sockinfos[i].out.fd;
        sockinfos[i] := sockinfos[i].(out := sockinfos[i].out.(fd := sockinfos[i].inp.fd));
        sockinfos[i] := sockinfos[i].(inp := sockinfos[i].inp.(fd := tmpfd));
        status := Suc;
      } else if sockinfos[i].state == RspWr {
        sockinfos[i] := sockinfos[i].(state := StClosed);
        status := Del;
      } else {
        status := Del;
      }
    }

    /** `buffer_read` on the in end: at most `ch.limit` of the bytes on their way. */
    method BufferRead(i: nat, ch: Choice) returns (n: int)
      requires Valid() && i < count
      modifies this`kernel, sockinfos
      ensures Valid() && TheWorld() == Store(old(TheWorld()), i, At(i))
      ensures var v := old(At(i));
        if v.sock.inp.fd !in v.kernel || ch.fail then n == -1 && At(i) == v
        else n == |Chunk(v.kernel[v.sock.inp.fd], ch.limit)| && At(i) == ReadFrom(v, ch.limit)
    {
      var s := sockinfos[i];
      if s.inp.fd !in kernel || ch.fail {
        return -1;
      }
      var st := kernel[s.inp.fd];
      var chunk := Chunk(st, ch.limit);
      sockinfos[i] := s.(inp := s.inp.(buf := s.inp.buf + chunk));
      kernel := kernel[s.inp.fd := st.(got := st.got + |chunk|)];
      n := |chunk|;
    }

    /** `buffer_write` on the out end: the kernel takes at most `ch.limit` of the queued bytes. */
    method BufferWrite(i: nat, ch: Choice) returns (n: int)
      requires Valid() && i < count
      modifies this`kernel, sockinfos
      ensures Valid() && TheWorld() == Store(old(TheWorld()), i, At(i))
      ensures var v := old(At(i));
        if v.sock.out.fd !in v.kernel || ch.fail then n == -1 && At(i) == v
        else n == Min(ch.limit, |v.sock.out.buf|) && At(i) == WriteTo(v, ch.limit)
    {
      var s := sockinfos[i];
      if s.out.fd !in kernel || ch.fail {
        return -1;
      }
      var st := kernel[s.out.fd];
      n := Min(ch.limit, |s.out.buf|);
      sockinfos[i] := s.(out := s.out.(buf := s.out.buf[n..]));
      kernel := kernel[s.out.fd := st.(put := st.put + s.out.buf[..n])];
    }

    /** `handle_pkt_rd` */
    method HandlePktRd(i: nat, ch: Choice) returns (status: Verdict, ghost ch': Choice)
      requires Valid() && i < count && |clients.Contents()| < WIDE_LIMIT
      requires Relay.HandlePktRd(At(i), ch).0 != Crash
      modifies this`kernel, this`stories, sockinfos, clients, clients.vec
      ensures Valid() && (clients.vec == old(clients.vec) || fresh(clients.vec))
      ensures Settles(ch, ch')
      ensures TheWorld() == Store(old(TheWorld()), i, At(i))
      ensures (status, At(i)) == Relay.HandlePktRd(old(At(i)), ch')
    {
      hide Sorted, Relay.HandlePktRdFin, ParsePacket;
      ch' := ch;
      assert sockinfos[i].revents.pin;
      var n := BufferRead(i, ch);
      if n <= 0 {
        return Del, ch;
      }
      var s := sockinfos[i];
      match ParsePacket(s.inp.buf) {
        case Unknown => assert false;
        case More => status := Suc;
        case Done(p, required) =>
          sockinfos[i] := s.(inp := s.inp.(buf := s.inp.buf[required..]));
          status, ch' := HandlePktRdFin(i, p, ch);
      }
    }

    /** `handle_pkt_wr` */
    method HandlePktWr(i: nat, ch: Choice) returns (status: Verdict)
      requires Valid() && i < count
      requires Relay.HandlePktWr(At(i), ch).0 != Crash
      modifies this`kernel, sockinfos
      ensures Valid() && TheWorld() == Store(old(TheWorld()), i, At(i))
      ensures (status, At(i)) == Relay.HandlePktWr(old(At(i)), ch)
    {
      hide Sorted, Relay.HandlePktWrFin;
      assert sockinfos[i].revents.pout;
      var n := BufferWrite(i, ch);
      if n < 0 {
        return Del;
      }
      if n > 0 {
        return Suc;
      }
      status := HandlePktWrFin(i);
    }

    /** `handle_pkt_event` */
    method HandlePktEvent(i: nat, ch: Choice) returns (status: Verdict, ghost ch': Choice)
      requires Valid() && i < count && |clients.Contents()| < WIDE_LIMIT
      requires Relay.HandlePktEvent(At(i), ch).0 != Crash
      modifies this`kernel, this`stories, sockinfos, clients, clients.vec
      ensures Valid() && (clients.vec == old(clients.vec) || fresh(clients.vec))
      ensures Settles(ch, ch')
      ensures TheWorld() == Store(old(TheWorld()), i, At(i))
      ensures (status, At(i)) == Relay.HandlePktEvent(old(At(i)), ch')
    {
      hide Sorted, Relay.HandlePktRd, Relay.HandlePktWr;
      ch' := ch;
      if sockinfos[i].revents == QUIET {
        return Suc, ch;
      }
      match sockinfos[i].state {
        case ReqRd => status, ch' := HandlePktRd(i, ch);
        case RspFwd => status, ch' := HandlePktRd(i, ch);
        case RspWr => status := HandlePktWr(i, ch);
        case ReqFwd => status := HandlePktWr(i, ch);
        case _ => assert false;
      }
    }

    /** `handle_socket_event`, with `handle_lstn_event`. */
    method HandleSocketEvent(i: nat, ch: Choice) returns (status: Verdict, ghost ch': Choice)
      requires Valid() && i < count && |clients.Contents()| < WIDE_LIMIT
      requires Relay.HandleSocketEvent(At(i), ch).0 != Crash
      modifies this`kernel, this`stories, sockinfos, clients, clients.vec
      ensures Valid() && (clients.vec == old(clients.vec) || fresh(clients.vec))
      ensures Settles(ch, ch')
      ensures TheWorld() == Store(old(TheWorld()), i, At(i))
      ensures (status, At(i)) == Relay.HandleSocketEvent(old(At(i)), ch')
    {
      hide Sorted, Relay.HandlePktEvent;
      ch' := ch;
      status := Suc;
      if IsOpen(sockinfos[i]) {
        match sockinfos[i].typ {
          case PktIn => status, ch' := HandlePktEvent(i, ch);
          case Lstn =>
            if sockinfos[i].revents.pin {
              status := if ch.fd < 0 then Del else New;
            }
          case _ => assert false;
        }
      }
    }

    // ---- the loop ----

    /** One turn of the loop in `server_loop`: no assertion fails, and the turn is that of the state
        machine. */
    method HandleIndex(i: nat, ch: Choice) returns (ghost ch': Choice)
      requires Valid() && Inv(TheWorld()) && i < count
      requires EventsFit(sockinfos[i]) && Fair(sockinfos[i], kernel, ch)
      modifies this, sockinfos, clients, clients.vec
      ensures Valid() && (clients.vec == old(clients.vec) || fresh(clients.vec))
      ensures sockinfos == old(sockinfos) || fresh(sockinfos)
      ensures Settles(ch, ch')
      ensures HandleEntry(old(TheWorld()), i, ch') == Running(TheWorld())
    {
      hide Sorted, Relay.HandleSocketEvent, SockInv, EventsFit, Fair;
      HandlerGood(At(i), ch);
      var status;
      status, ch' := HandleSocketEvent(i, ch);
      FairSorted(old(sockinfos[i]), old(kernel), ch, ch');
      HandlerGood(old(At(i)), ch');
      match status {
        case Suc =>
        case New =>
          kernel := kernel[ch.fd := Stream(Inbound(ch.ip), ch.script, 0, [])];
          SocksAdd(NewSock(PktIn, ReqRd, ch.fd), Undecided);
        case Del => SockinfoDelete(i);
        case Crash => assert false;
      }
    }

    /** Where a round stands: `i` of the `n` sockets polled together are handled, and the moments so
        far are steps of the state machine. */
    ghost predicate InRound(round: seq<Moment>, i: nat, n: nat)
      reads this, sockinfos, clients, clients.vec
      requires Valid()
    {
      && round != [] && Steps(round) && round[|round| - 1] == Moment(TheWorld(), i, n)
      && Inv(TheWorld()) && i <= n <= count
      && (forall j :: i <= j < n ==> EventsFit(TheWorld().table[j]))
    }

    /** One turn, seen as a step of the run. */
    method HandleNext(i: nat, n: nat, ghost round: seq<Moment>, env: (nat, Sock, map<int, Stream>) -> Choice)
        returns (ghost round': seq<Moment>)
      requires Valid() && InRound(round, i, n) && i < n
      requires Fair(sockinfos[i], kernel, env(i, sockinfos[i], kernel))
      modifies this, sockinfos, clients, clients.vec
      ensures Valid() && (clients.vec == old(clients.vec) || fresh(clients.vec))
      ensures sockinfos == old(sockinfos) || fresh(sockinfos)
      ensures InRound(round', i + 1, n) && |round'| == |round| + 1 && round'[..|round|] == round
      ensures FollowsAt(round[|round| - 1], env, round'[|round|])
    {
      hide Sorted, SockInv, EventsFit, Fair, Inv, HandleEntry, Step, Steps, Settles;
      ghost var w := TheWorld();
      var ch := env(i, sockinfos[i], kernel);
      ghost var ch' := HandleIndex(i, ch);
      round' := HandleStep(round, w, ch, ch', TheWorld());
    }

    /** `server_loop`: polls all sockets, then handles each socket that was there once; sockets added
        meanwhile wait for the next round. Whatever a fair environment does, the round is a piece of
        a run of the state machine. */
    method ServerLoop(answer: nat -> Revents, env: (nat, Sock, map<int, Stream>) -> Choice)
        returns (ghost round: seq<Moment>)
      requires Valid() && Inv(TheWorld())
      requires forall j, s, k :: Fair(s, k, env(j, s, k))
      modifies this, sockinfos, clients, clients.vec
      ensures Valid() && (clients.vec == old(clients.vec) || fresh(clients.vec))
      ensures sockinfos == old(sockinfos) || fresh(sockinfos)
      ensures |round| == old(count) + 2
      ensures round[0] == Moment(old(TheWorld()), old(count), old(count))
      ensures InRound(round, old(count), old(count)) && Follows(round, env)
      ensures |round[1].world.table| == old(count) && forall i :: 0 <= i < old(count) ==>
        AfterPoll(old(TheWorld()).table[i], round[1].world.table[i], answer(Slots(old(TheWorld()).table, i)))
    {
      hide Sorted, SockInv, EventsFit, Fair, Inv, PollEntries, Steps, Answer, FollowsAt, AfterPoll, Slots;
      var n := count;
      ghost var w := TheWorld();
      ghost var rs := SocksPoll(answer);
      round := PollStep(w, answer, rs);
      assert InRound(round, 0, n);
      ghost var polled := round[1];
      hide InRound;
      for i := 0 to n
        invariant Valid() && (clients.vec == old(clients.vec) || fresh(clients.vec))
        invariant sockinfos == old(sockinfos) || fresh(sockinfos)
        invariant InRound(round, i, n) && |round| == i + 2 && round[0] == Moment(w, n, n)
        invariant Follows(round, env) && round[1] == polled
      {
        RoundHasNext(round, i, n);
        round := HandleNext(i, n, round, env);
      }
    }

    lemma RoundHasNext(round: seq<Moment>, i: nat, n: nat)
      requires Valid() && InRound(round, i, n)
      ensures n <= count && Inv(TheWorld())
      ensures round != [] && Steps(round) && round[|round| - 1] == Moment(TheWorld(), i, n)
    {
    }

    /** A daemon from its start, for any number of rounds, is a run: everything proved of runs
        holds of it. */
    static method Serve(fd: int, hi: Handlers, rounds: nat, answers: nat -> nat -> Revents,
                        envs: nat -> (nat, Sock, map<int, Stream>) -> Choice)
        returns (server: Server, ghost run: seq<Moment>, ghost history: seq<seq<Moment>>)
      requires fd >= 0
      requires forall r, j, s, k :: Fair(s, k, envs(r)(j, s, k))
      ensures server.Valid() && server.hi == hi && IsRun(run) && run[|run| - 1].world == server.TheWorld()
      ensures |run| > rounds && Start(run[0], fd)
      ensures |history| == rounds && Chained(history, run[0].world, server.TheWorld())
      ensures forall r :: 0 <= r < rounds ==> Follows(history[r], envs(r))
    {
      hide Sorted, SockInv, Fair, Inv, Step, Steps, Server.InRound, Follows, FollowsAt, AfterPoll, Start;
      history := [];
      server := new Server(fd, hi);
      run := [Moment(server.TheWorld(), 0, 0)];
      OneStep(run[0], fd);
      for r := 0 to rounds
        invariant server.Valid() && fresh(server) && fresh(server.sockinfos)
        invariant fresh(server.clients) && fresh(server.clients.vec)
        invariant |run| > r && Start(run[0], fd) && Steps(run) && Inv(server.TheWorld())
        invariant run[|run| - 1].world == server.TheWorld() && run[|run| - 1].next == run[|run| - 1].count
        invariant |history| == r && Chained(history, run[0].world, server.TheWorld())
        invariant forall q :: 0 <= q < r ==> Follows(history[q], envs(q))
      {
        ghost var round := server.ServerLoop(answers(r), envs(r));
        server.RoundHasNext(round, round[0].count, round[0].count);
        run := Onward(run, round);
        history := history + [round];
      }
    }
  }

  lemma OneStep(m: Moment, fd: int)
    requires Start(m, fd)
    ensures Steps([m]) && Inv(m.world)
  {
    StartInv(m, fd);
  }

  /** The poll that begins a round. */
  lemma PollStep(w: World, answer: nat -> Revents, rs: seq<Revents>) returns (round: seq<Moment>)
    requires |rs| == |w.table| && forall i :: 0 <= i < |rs| ==> rs[i] == Answer(w.table, i, answer)
    ensures var n := |w.table|; round == [Moment(w, n, n), Moment(PollEntries(w, n, rs), 0, n)] && Steps(round)
  {
    hide PollEntries, Requested;
    var n := |w.table|;
    round := [Moment(w, n, n), Moment(PollEntries(w, n, rs), 0, n)];
    AnswersRequested(w.table, answer);
    assert Polls(round[0], rs, round[1]);
  }

  /** The next socket handled. */
  lemma HandleStep(round: seq<Moment>, w: World, ch: Choice, ch': Choice, w': World) returns (round': seq<Moment>)
    requires round != [] && Steps(round) && round[|round| - 1].world == w && Inv(w)
    requires var m := round[|round| - 1]; var i := m.next;
      && i < m.count <= |w.table| && EventsFit(w.table[i]) && Fair(w.table[i], w.kernel, ch)
      && Settles(ch, ch') && HandleEntry(w, i, ch') == Running(w')
    ensures var m := round[|round| - 1];
      && round' == round + [Moment(w', m.next + 1, m.count)] && Steps(round')
      && Handles(m, ch', Moment(w', m.next + 1, m.count))
      && Inv(w') && |w.table| <= |w'.table|
      && (forall j :: 0 <= j < |w.table| && j != m.next ==> w'.table[j] == w.table[j])
  {
    hide SockInv, Sorted, EventsFit, Fair, HandleEntry;
    var m := round[|round| - 1];
    var m' := Moment(w', m.next + 1, m.count);
    FairSorted(w.table[m.next], w.kernel, ch, ch');
    HandleEntryKeepsInv(w, m.next, ch');
    assert Handles(m, ch', m');
    round' := round + [m'];
    assert round == round[..|round| - 1] + [m];
    assert Steps([m] + [m']);
    StepsJoin(round[..|round| - 1], m, [m']);
  }

  lemma Onward(run: seq<Moment>, round: seq<Moment>) returns (run': seq<Moment>)
    requires run != [] && round != [] && Steps(run) && Steps(round)
    requires round[0].world == run[|run| - 1].world
    requires round[0].next == round[0].count && run[|run| - 1].next == run[|run| - 1].count
    requires |round| >= 2
    ensures |run'| > |run| && run'[0] == run[0] && run'[|run'| - 1] == round[|round| - 1]
    ensures Steps(run')
  {
    hide Handles, Polls;
    var m := run[|run| - 1];
    run' := run + round[1..];
    assert run == run[..|run| - 1] + [m];
    var again := [m] + round[1..];
    AtRest(round[0], m, round[1]);
    forall k | 0 <= k < |again| - 1
      ensures Step(again[k], again[k + 1])
    {
      assert Step(round[k], round[k + 1]);
    }
    StepsJoin(run[..|run| - 1], m, round[1..]);
  }

  /** Between rounds only the world matters. */
  lemma AtRest(m: Moment, m': Moment, next: Moment)
    requires m.world == m'.world && m.next == m.count && m'.next == m'.count && Step(m, next)
    ensures Step(m', next)
  {
    hide PollEntries, Requested;
    var rs :| Polls(m, rs, next);
    assert Polls(m', rs, next);
  }

  /** The rounds go on one from the other, from the first world to the last. */
  ghost predicate Chained(history: seq<seq<Moment>>, first: World, last: World) {
    && (forall r :: 0 <= r < |history| ==> history[r] != [])
    && if history == [] then first == last
       else
         && history[0][0].world == first && Final(history[|history| - 1]) == last
         && forall r :: 0 < r < |history| ==> history[r][0].world == Final(history[r - 1])
  }

  ghost function Final(round: seq<Moment>): World
    requires round != []
  {
    round[|round| - 1].world
  }

  /** The step is the turn in which the environment did what `env` says. */
  ghost predicate FollowsAt(m: Moment, env: (nat, Sock, map<int, Stream>) -> Choice, m': Moment) {
    && m.next < |m.world.table|
    && exists ch :: Settles(env(m.next, m.world.table[m.next], m.world.kernel), ch) && Handles(m, ch, m')
  }

  /** All turns of a round, which follow its poll, are such. */
  ghost predicate Follows(round: seq<Moment>, env: (nat, Sock, map<int, Stream>) -> Choice) {
    forall j :: 1 <= j < |round| - 1 ==> FollowsAt(round[j], env, round[j + 1])
  }

  /** The same choices but for those the registry makes: the order qsort leaves and the entry bsearch
      comes upon. */
  ghost predicate Settles(ch: Choice, ch': Choice) { ch' == ch.(sorted := ch'.sorted, found := ch'.found) }

  /** Fairness says nothing about these. */
  lemma FairSorted(s: Sock, k: map<int, Stream>, ch: Choice, ch': Choice)
    requires Fair(s, k, ch) && Settles(ch, ch')
    ensures Fair(s, k, ch')
  {
  }

  // ---- what polling means ----

  /** The entries that are polled: those in use. */
  predicate Polled(s: Sock) { s.typ != NoneType && s.state in {StLstn, ReqRd, RspFwd, RspWr, ReqFwd} }

  /** The pollfd asks for the one event the entry waits for, on the end it waits on: input on the in end
      for a listening socket and while a request or a response is read, output on the out end while one
      is written. */
  predicate AsksFor(s: Sock, p: PollFd) {
    match s.state
    case StLstn => p.fd == s.inp.fd && p.events == Revents(true, false, false, false)
    case ReqRd => p.fd == s.inp.fd && p.events == Revents(true, false, false, false)
    case RspFwd => p.fd == s.inp.fd && p.events == Revents(true, false, false, false)
    case RspWr => p.fd == s.out.fd && p.events == Revents(false, true, false, false)
    case ReqFwd => p.fd == s.out.fd && p.events == Revents(false, true, false, false)
    case _ => false
  }

  /** What a poll that answered `a` for it makes of an entry: an error or a hang-up closes it; otherwise
      it is as before, and knows exactly whether the event it waits for has happened. */
  predicate AfterPoll(s: Sock, s': Sock, a: Revents) {
    if !Polled(s) then s' == s.(revents := Revents(false, false, false, false))
    else if a.perr || a.phup then s'.typ == NoneType && s'.inp.fd == -1 && s'.out.fd == -1
    else
      && s'.typ == s.typ && s'.state == s.state
      && s'.inp.fd == s.inp.fd && s'.inp.buf == s.inp.buf && s'.out.fd == s.out.fd && s'.out.buf == s.out.buf
      && s'.revents == (if s.state in {RspWr, ReqFwd} then Revents(false, a.pout, false, false)
                        else Revents(a.pin, false, false, false))
  }

  lemma EntryAfterPoll(table: seq<Sock>, i: nat, answer: nat -> Revents, story: Story, k: map<int, Stream>)
    requires i < |table| && SockInv(table[i], story, k)
    ensures AfterPoll(table[i], PolledSock(table, i, Answer(table, i, answer)), answer(Slots(table, i)))
  {
    hide ParsePacket, Encode, OnePacket, Slots;
  }

  lemma PollMeans(w: World, answer: nat -> Revents, rs: seq<Revents>)
    requires Inv(w) && |rs| == |w.table| && forall i :: 0 <= i < |rs| ==> rs[i] == Answer(w.table, i, answer)
    ensures forall i :: 0 <= i < |rs| ==>
      AfterPoll(w.table[i], PollEntries(w, |rs|, rs).table[i], answer(Slots(w.table, i)))
  {
    hide AfterPoll, Answer, PolledSock, SockInv, Sorted;
    forall i | 0 <= i < |rs|
      ensures AfterPoll(w.table[i], PollEntries(w, |rs|, rs).table[i], answer(Slots(w.table, i)))
    {
      EntryAfterPoll(w.table, i, answer, w.stories[i], w.kernel);
    }
  }

  lemma FilledAsks(table: seq<Sock>, nfds: nat, socks: seq<Sock>, pfds: seq<PollFd>)
    requires Filled(table, |table|, nfds, socks, pfds) && nfds >= Slots(table, |table|)
    ensures forall j :: 0 <= j < |table| && Polled(table[j]) ==>
      Slots(table, j) < Slots(table, |table|) && AsksFor(table[j], pfds[Slots(table, j)])
  {
    hide Slots;
  }

  /** Every polled entry has a slot of its own. */
  lemma {:induction false} SlotsApart(table: seq<Sock>, i: nat, j: nat)
    requires i < j <= |table| && Pollable(table[i])
    ensures Slots(table, i) < Slots(table, j)
    decreases j
  {
    if i + 1 < j {
      SlotsApart(table, i, j - 1);
    }
  }

  /** What poll(2) reports for the slot of entry `i`. */
  function Answer(table: seq<Sock>, i: nat, answer: nat -> Revents): Revents
    requires i < |table|
  {
    Mask(answer(Slots(table, i)), Wanted(table[i]))
  }

  /** The answers for the first `n` entries. */
  ghost function Answers(table: seq<Sock>, n: nat, answer: nat -> Revents): (rs: seq<Revents>)
    requires n <= |table|
    ensures |rs| == n && forall i :: 0 <= i < n ==> rs[i] == Answer(table, i, answer)
  {
    if n == 0 then [] else Answers(table, n - 1, answer) + [Answer(table, n - 1, answer)]
  }

  lemma AnswersRequested(table: seq<Sock>, answer: nat -> Revents)
    ensures forall i :: 0 <= i < |table| ==> Requested(table[i], Answer(table, i, answer))
  {
  }

  lemma PolledEndsOpen(w: World)
    requires Inv(w)
    ensures forall i :: 0 <= i < |w.table| && Pollable(w.table[i]) ==> PolledFd(w.table[i]) >= 0
  {
    hide ParsePacket, Encode, Sorted, OnePacket;
    forall i | 0 <= i < |w.table| && Pollable(w.table[i])
      ensures PolledFd(w.table[i]) >= 0
    {
      assert SockInv(w.table[i], w.stories[i], w.kernel);
    }
  }

  lemma FilledNone(table: seq<Sock>, socks: seq<Sock>, pfds: seq<PollFd>)
    requires Filled(table, |table|, 0, socks, pfds)
    ensures socks == table
  {
  }

  lemma FilledAll(w: World, rs: seq<Revents>, socks: seq<Sock>, pfds: seq<PollFd>)
    requires |rs| == |w.table| && Filled(w.table, |w.table|, Slots(w.table, |w.table|), socks, pfds)
    ensures socks == Half(w, 0, rs)
    ensures forall j :: 0 <= j < |w.table| && Pollable(w.table[j]) ==>
      Slots(w.table, j) < |pfds| && pfds[Slots(w.table, j)] == PollEntry(w.table[j])
  {
  }

  /** The polled end of `s`, if open, has a slot in which the answer is `r`. */
  ghost predicate SlotAnswers(s: Sock, pfds: seq<PollFd>, r: Revents) {
    && (ReadsIn(s.state) && s.inp.fd >= 0 ==> 0 <= s.inp.slot < |pfds| && pfds[s.inp.slot].revents == r)
    && (WritesOut(s.state) && s.out.fd >= 0 ==> 0 <= s.out.slot < |pfds| && pfds[s.out.slot].revents == r)
  }

  /** The table in the middle of the check: the first `n` entries checked, the others with slots. */
  ghost function Half(w: World, n: nat, rs: seq<Revents>): (t: seq<Sock>)
    requires n <= |w.table| == |rs|
    ensures |t| == |w.table|
  {
    seq(|w.table|, j requires 0 <= j < |w.table| =>
      if j < n then PolledSock(w.table, j, rs[j]) else Slotted(w.table[j], Slots(w.table, j)))
  }

  lemma HalfEnds(w: World, rs: seq<Revents>)
    requires |w.table| == |rs|
    ensures Half(w, |rs|, rs) == PollEntries(w, |rs|, rs).table
    ensures PollEntries(w, 0, rs) == w
    ensures PollEntries(w, |rs|, rs).stories == w.stories && PollEntries(w, |rs|, rs).clients == w.clients
  {
  }

  lemma HalfNext(w: World, i: nat, rs: seq<Revents>, pfds: seq<PollFd>)
    requires Inv(w) && i < |w.table| == |rs|
    requires forall j :: 0 <= j < |rs| ==> Requested(w.table[j], rs[j])
    requires Pollable(w.table[i]) ==> Slots(w.table, i) < |pfds| && pfds[Slots(w.table, i)].revents == rs[i]
    ensures var s := Half(w, i, rs)[i]; var k := PollEntries(w, i, rs).kernel;
      && SlotAnswers(s, pfds, rs[i]) && Closeable(s, k)
      && Half(w, i + 1, rs) == Half(w, i, rs)[i := Checked(s, rs[i])]
      && PollEntries(w, i + 1, rs).kernel == k - (Fds(s) - Fds(Checked(s, rs[i])))
  {
    hide Inv, Sorted, Requested, Checked, Closeable, Slots, Fds, Pollable;
    EntryFacts(w, i, rs);
    SlottedFacts(w.table[i], Slots(w.table, i), PollEntries(w, i, rs).kernel, pfds, rs[i]);
  }

  lemma SlottedFacts(s: Sock, k: nat, kernel: map<int, Stream>, pfds: seq<PollFd>, r: Revents)
    requires Closeable(s, kernel) && (s.typ == NoneType ==> s.inp.fd < 0 && s.out.fd < 0)
    requires Pollable(s) ==> k < |pfds| && pfds[k].revents == r
    ensures var t := Slotted(s, k);
      Fds(t) == Fds(s) && Closeable(t, kernel) && SlotAnswers(t, pfds, r)
  {
  }

  lemma EntryFacts(w: World, i: nat, rs: seq<Revents>)
    requires Inv(w) && i < |w.table| && i <= |rs|
    requires forall j :: 0 <= j < i ==> Requested(w.table[j], rs[j])
    ensures var s := w.table[i];
      && Closeable(s, PollEntries(w, i, rs).kernel)
      && (s.typ == NoneType ==> s.inp.fd < 0 && s.out.fd < 0)
  {
    hide SockInv, Closeable, Sorted, Fds, PollEntries, Requested, EventsFit;
    PollKeepsInv(w, i, rs);
    var u := PollEntries(w, i, rs);
    assert u.table[i] == w.table[i] && u.stories == w.stories;
    SockFacts(u.table[i], u.stories[i], u.kernel);
  }

  lemma SockFacts(s: Sock, story: Story, k: map<int, Stream>)
    requires SockInv(s, story, k)
    ensures Closeable(s, k) && (s.typ == NoneType ==> s.inp.fd < 0 && s.out.fd < 0)
  {
    hide ParsePacket, Encode, OnePacket;
  }

  /** The descriptor of the end a state asks about. */
  function PolledFd(s: Sock): int { if ReadsIn(s.state) then s.inp.fd else s.out.fd }

  function PollEntry(s: Sock): PollFd { PollFd(PolledFd(s), Wanted(s), QUIET) }

  /** Entry `i` after the filling pass with `nfds` slots. */
  ghost function SlottedIn(table: seq<Sock>, i: nat, nfds: nat): Sock
    requires i < |table|
  {
    var k := Slots(table, i);
    if k < nfds then Slotted(table[i], k) else table[i]
  }

  /** The first `n` entries have been given slots, in order and one each. */
  ghost predicate Filled(table: seq<Sock>, n: nat, nfds: nat, socks: seq<Sock>, pfds: seq<PollFd>) {
    && n <= |table| == |socks| && nfds <= |pfds|
    && (forall j :: 0 <= j < |table| ==> socks[j] == if j < n then SlottedIn(table, j, nfds) else table[j])
    && (forall j :: 0 <= j < n && Pollable(table[j]) ==> Slots(table, j) < Slots(table, n))
    && (forall j :: 0 <= j < n && Pollable(table[j]) && Slots(table, j) < nfds ==>
          pfds[Slots(table, j)] == PollEntry(table[j]))
  }

  lemma FillNone(table: seq<Sock>, nfds: nat, pfds: seq<PollFd>)
    requires nfds <= |pfds|
    ensures Filled(table, 0, nfds, table, pfds) && Slots(table, 0) == 0
  {
  }

  lemma FilledAt(table: seq<Sock>, n: nat, nfds: nat, socks: seq<Sock>, pfds: seq<PollFd>)
    requires n < |table| && Filled(table, n, nfds, socks, pfds)
    ensures socks[n] == table[n]
  {
  }

  lemma FillNext(table: seq<Sock>, n: nat, nfds: nat, socks: seq<Sock>, pfds: seq<PollFd>,
                 socks': seq<Sock>, pfds': seq<PollFd>)
    requires n < |table| && Filled(table, n, nfds, socks, pfds)
    requires var k := Slots(table, n);
      && socks' == socks[n := SlottedIn(table, n, nfds)]
      && pfds' == if Pollable(table[n]) && k < nfds then pfds[k := PollEntry(table[n])] else pfds
    ensures Filled(table, n + 1, nfds, socks', pfds')
    ensures Slots(table, n + 1) == Slots(table, n) + if Pollable(table[n]) then 1 else 0
  {
  }
}
