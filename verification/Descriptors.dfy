/** Which descriptors the loop holds open: those in its table, and those whose connect failed. */
module Descriptors {
  import opened Packet
  import opened Decode
  import opened Registry
  import opened Owner
  import opened Relay
  import opened RelayInvariant
  import opened RelayProgress
  import opened RelaySafety

  /** An open descriptor that never got connected. */
  ghost predicate Stray(w: World, fd: int) { fd in w.kernel && w.kernel[fd].addr.Unconnected? }

  /** In every run the connected or listening descriptors are exactly those in the table, each at one
      end of one entry: none of them is leaked, shared or closed twice. */
  lemma DescriptorConservation(run: seq<Moment>, k: nat)
    requires IsRun(run) && k < |run|
    ensures var w := run[k].world;
      && (forall fd :: OwnedBy(w.table, fd) <==> fd in w.kernel && !w.kernel[fd].addr.Unconnected?)
      && (forall i, j, fd :: 0 <= i < |w.table| && 0 <= j < |w.table| && fd in Fds(w.table[i]) && fd in Fds(w.table[j])
            ==> i == j)
      && (forall i :: 0 <= i < |w.table| && w.table[i].inp.fd >= 0 ==> w.table[i].inp.fd != w.table[i].out.fd)
  {
    hide ParsePacket, Encode, Sorted;
    RunsKeepInv(run);
    var w := run[k].world;
    assert Inv(w);
    forall fd | OwnedBy(w.table, fd)
      ensures fd in w.kernel && !w.kernel[fd].addr.Unconnected?
    {
      var i :| 0 <= i < |w.table| && fd in Fds(w.table[i]);
      OwnedOpen(w, i);
    }
    forall i | 0 <= i < |w.table| && w.table[i].inp.fd >= 0
      ensures w.table[i].inp.fd != w.table[i].out.fd
    {
      assert SockInv(w.table[i], w.stories[i], w.kernel);
    }
  }

  // ---- the descriptors that are leaked ----

  /** The turn completes a request for a registered client, makes a socket for it, and fails to connect. */
  ghost predicate ConnectFails(v: View, ch: Choice) {
    && v.hi.ServerHi? && v.sock.typ.PktIn? && v.sock.state.ReqRd? && v.sock.revents.pin
    && v.sock.inp.fd >= 0 && v.sock.inp.fd in v.kernel && !ch.fail
    && ch.fd >= 0 && !ch.ok
    && var chunk := Chunk(v.kernel[v.sock.inp.fd], ch.limit);
       var p := ParsePacket(v.sock.inp.buf + chunk);
    && chunk != [] && p.Done? && p.val.body.ReqBody?
    && !RootTest(p.val.body.req) && Registered(v.clients, p.val.body.req.rsrc.owner)
  }

  /** What strays a turn leaves: those there were, and the one of a failing connect. */
  ghost predicate StraysBecome(v: View, ch: Choice, u: View) {
    forall fd :: (fd in u.kernel && u.kernel[fd].addr.Unconnected?)
      <==> (fd in v.kernel && v.kernel[fd].addr.Unconnected?) || (ConnectFails(v, ch) && fd == ch.fd)
  }

  lemma ReadStrays(v: View, ch: Choice)
    requires ViewInv(v) && v.sock.typ == PktIn && ReadsIn(v.sock.state) && v.sock.revents.pin
    requires Fair(v.sock, v.kernel, ch)
    ensures StraysBecome(v, ch, HandlePktRd(v, ch).1)
  {
    hide ParsePacket, Encode, Sorted, OnePacket, RootTest, Registered, HereAnswer, RootAnswer, Bag, Recipient, Reply;
    if !ch.fail {
      ReadOne(v.kernel[v.sock.inp.fd], v.sock.inp.buf, ch.limit, v.sock.state == ReqRd);
    }
  }

  lemma TurnStrays(v: View, ch: Choice)
    requires ViewInv(v) && EventsFit(v.sock) && Fair(v.sock, v.kernel, ch)
    ensures StraysBecome(v, ch, HandleSocketEvent(v, ch).1)
  {
    hide ParsePacket, Encode, Sorted, OnePacket, HandlePktRd, RootTest, Registered;
    OwnedFds(v.sock, v.story, v.kernel);
    if v.sock.typ == PktIn && ReadsIn(v.sock.state) && v.sock.revents.pin {
      ReadStrays(v, ch);
    }
  }

  lemma EntryStrays(w: World, i: nat, ch: Choice, fd: int)
    requires Inv(w) && i < |w.table| && EventsFit(w.table[i]) && Fair(w.table[i], w.kernel, ch)
    ensures HandleEntry(w, i, ch).Running?
    ensures Stray(HandleEntry(w, i, ch).world, fd)
      <==> Stray(w, fd) || (ConnectFails(ViewOf(w, i), ch) && fd == ch.fd)
  {
    hide SockInv, Sorted, HandleSocketEvent, EventsFit, Fair, ConnectFails;
    var v := ViewOf(w, i);
    HandleEntryKeepsInv(w, i, ch);
    HandlerGood(v, ch);
    TurnStrays(v, ch);
    var (verdict, u) := HandleSocketEvent(v, ch);
    assert (fd in u.kernel && u.kernel[fd].addr.Unconnected?)
      <==> Stray(w, fd) || (ConnectFails(v, ch) && fd == ch.fd);
    if verdict == New {
      AcceptFair(v, ch);
    }
  }

  lemma {:induction false} PollStrays(w: World, n: nat, rs: seq<Revents>, fd: int)
    requires Inv(w) && n <= |w.table| && n <= |rs|
    ensures Stray(PollEntries(w, n, rs), fd) <==> Stray(w, fd)
    decreases n
  {
    hide Inv, PolledSock, Fds;
    if n > 0 {
      PollStrays(w, n - 1, rs, fd);
      OwnedOpen(w, n - 1);
      PollOnlyCloses(w, n - 1, rs);
    }
  }

  /** The step handles a turn in which connecting fails on `fd`. */
  ghost predicate Leaks(m: Moment, m': Moment, fd: int) {
    exists ch :: LeaksWith(m, ch, m', fd)
  }

  ghost predicate LeaksWith(m: Moment, ch: Choice, m': Moment, fd: int) {
    Handles(m, ch, m') && ConnectFails(ViewOf(m.world, m.next), ch) && ch.fd == fd
  }

  lemma StepStrays(m: Moment, m': Moment, fd: int)
    requires MomentInv(m) && Step(m, m')
    ensures Stray(m'.world, fd) <==> Stray(m.world, fd) || Leaks(m, m', fd)
  {
    hide Inv, EventsFit, Fair, HandleEntry, PollEntries, Requested, ConnectFails, Stray;
    if ch :| LeaksWith(m, ch, m', fd) {
      EntryStrays(m.world, m.next, ch, fd);
    } else if rs :| Polls(m, rs, m') {
      PollStrays(m.world, |rs|, rs, fd);
    } else {
      var ch :| Handles(m, ch, m');
      EntryStrays(m.world, m.next, ch, fd);
      assert !LeaksWith(m, ch, m', fd);
    }
  }

  /** A descriptor is leaked, open with no entry of the table owning it, exactly if some earlier connect
      failed on it after the socket was made. No later turn or poll closes it. */
  lemma {:induction false} LeakedExactly(run: seq<Moment>, k: nat, fd: int)
    requires IsRun(run) && k < |run|
    ensures (fd in run[k].world.kernel && !OwnedBy(run[k].world.table, fd))
      <==> exists j :: 0 <= j < k && Leaks(run[j], run[j + 1], fd)
    decreases k
  {
    hide Step, MomentInv, Leaks, OwnedBy;
    DescriptorConservation(run, k);
    if k == 0 {
      assert !Stray(run[0].world, fd);
    } else {
      RunsKeepInv(run);
      assert Step(run[k - 1], run[k - 1 + 1]);
      StepStrays(run[k - 1], run[k], fd);
      DescriptorConservation(run, k - 1);
      LeakedExactly(run, k - 1, fd);
    }
  }

  /** The failing input: a whole request for a registered client that does not accept connections. The
      connection is deleted, and the descriptor made for it stays open without an owner. */
  lemma FailedConnectLeaks(w: World, i: nat, ch: Choice)
    requires Inv(w) && i < |w.table| && EventsFit(w.table[i]) && Fair(w.table[i], w.kernel, ch)
    requires Sane(w) && ConnectFails(ViewOf(w, i), ch)
    ensures HandleEntry(w, i, ch).Running?
    ensures var w' := HandleEntry(w, i, ch).world;
      && |w'.table| == |w.table| && !IsOpen(w'.table[i])
      && ch.fd in w'.kernel && !OwnedBy(w'.table, ch.fd)
  {
    hide SockInv, Sorted, EventsFit, Fair, ParsePacket, Encode, RootTest, Registered, Inv;
    HandleEntryKeepsInv(w, i, ch);
    EntryStrays(w, i, ch, ch.fd);
    var w' := HandleEntry(w, i, ch).world;
    forall j | 0 <= j < |w'.table|
      ensures ch.fd !in Fds(w'.table[j])
    {
      OwnedOpen(w', j);
    }
  }
}
