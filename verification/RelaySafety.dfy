/** The loop over whole runs: its invariant, and what is written on every connection. */
module RelaySafety {
  import opened Wire
  import opened Packet
  import opened Decode
  import opened Codec
  import opened Registry
  import opened Owner
  import opened Relay
  import opened RelayInvariant

  // ---- the invariant of a world ----

  ghost predicate Apart(table: seq<Sock>) {
    forall i, j :: 0 <= i < j < |table| ==> Fds(table[i]) !! Fds(table[j])
  }

  ghost predicate OwnedBy(table: seq<Sock>, fd: int) {
    exists i :: 0 <= i < |table| && fd in Fds(table[i])
  }

  /** Every entry is in a state its buffers and streams justify, and every descriptor the kernel
      holds open is owned by exactly one end of exactly one entry, or is one whose connect failed. */
  ghost predicate Inv(w: World) {
    && |w.stories| == |w.table| && Sorted(w.clients) && |w.clients| < WIDE_LIMIT
    && (forall i :: 0 <= i < |w.table| ==> SockInv(w.table[i], w.stories[i], w.kernel))
    && (forall i :: 0 <= i < |w.table| ==> StoryFits(w.hi, w.stories[i]))
    && Apart(w.table)
    && (forall fd :: fd in w.kernel ==> OwnedBy(w.table, fd) || w.kernel[fd].addr.Unconnected?)
  }

  lemma InvSane(w: World)
    requires Inv(w)
    ensures Sane(w)
  {
  }

  lemma OwnedOpen(w: World, i: nat)
    requires Inv(w) && i < |w.table|
    ensures Fds(w.table[i]) <= w.kernel.Keys
    ensures forall fd :: fd in Fds(w.table[i]) ==> !w.kernel[fd].addr.Unconnected?
  {
    OwnedFds(w.table[i], w.stories[i], w.kernel);
  }

  /** Replacing one entry keeps the invariant if the entry's own invariant holds, its descriptors
      are its old ones or fresh ones, those it gave up are closed, no other stream changed, and
      nothing else was opened but descriptors whose connect failed. */
  lemma ReplaceEntry(w: World, i: nat, s: Sock, story: Story, clients: seq<Client>, k: map<int, Stream>)
    requires Inv(w) && i < |w.table|
    requires SockInv(s, story, k) && StoryFits(w.hi, story) && Sorted(clients) && |clients| < WIDE_LIMIT
    requires Fds(s) !! (w.kernel.Keys - Fds(w.table[i]))
    requires forall fd :: fd in w.kernel && fd !in Fds(w.table[i]) ==> fd in k && k[fd] == w.kernel[fd]
    requires forall fd :: fd in k && fd !in Fds(s) ==>
      (fd in w.kernel && fd !in Fds(w.table[i])) || k[fd].addr.Unconnected?
    ensures Inv(World(w.hi, w.table[i := s], w.stories[i := story], clients, k))
  {
    hide SockInv, Sorted, Fds, StoryFits;
    var w' := World(w.hi, w.table[i := s], w.stories[i := story], clients, k);
    OwnedFds(s, story, k);
    forall j | 0 <= j < |w.table| && j != i
      ensures SockInv(w'.table[j], w'.stories[j], k) && Fds(w.table[j]) !! Fds(w.table[i]) && Fds(w.table[j]) !! Fds(s)
    {
      OwnedOpen(w, j);
      assert Fds(w.table[j]) !! Fds(w.table[i]) by {
        assert if j < i then Fds(w.table[j]) !! Fds(w.table[i]) else Fds(w.table[i]) !! Fds(w.table[j]);
      }
      SockInvFrame(w.table[j], w.stories[j], w.kernel, k);
    }
    forall fd | fd in k && !k[fd].addr.Unconnected?
      ensures OwnedBy(w'.table, fd)
    {
      if fd in Fds(s) {
        assert fd in Fds(w'.table[i]);
      } else {
        assert OwnedBy(w.table, fd);
        var j :| 0 <= j < |w.table| && fd in Fds(w.table[j]);
        assert fd in Fds(w'.table[j]);
      }
    }
  }

  /** An accepted connection brings one fresh descriptor. */
  lemma AcceptKeepsInv(w: World, fd: int, ip: cstr, script: seq<byte>)
    requires Inv(w) && fd >= 0 && fd !in w.kernel && Requester(script)
    ensures Inv(Accept(w, fd, ip, script))
  {
    hide SockInv, Sorted, Fds;
    var w' := Accept(w, fd, ip, script);
    var s := NewSock(PktIn, ReqRd, fd);
    NewSockInv(fd, ip, script, w'.kernel);
    forall j | 0 <= j < |w.table|
      ensures SockInv(w'.table[j], w'.stories[j], w'.kernel) && Fds(w'.table[j]) !! Fds(s)
    {
      OwnedOpen(w, j);
      SockInvFrame(w.table[j], w.stories[j], w.kernel, w'.kernel);
    }
    forall f | f in w'.kernel && !w'.kernel[f].addr.Unconnected?
      ensures OwnedBy(w'.table, f)
    {
      if f == fd {
        assert f in Fds(w'.table[|w.table|]);
      } else {
        assert OwnedBy(w.table, f);
        var j :| 0 <= j < |w.table| && f in Fds(w.table[j]);
        assert f in Fds(w'.table[j]);
      }
    }
  }

  lemma NewSockInv(fd: int, ip: cstr, script: seq<byte>, k: map<int, Stream>)
    requires fd >= 0 && fd in k && k[fd] == Stream(Inbound(ip), script, 0, []) && Requester(script)
    ensures var s := NewSock(PktIn, ReqRd, fd); SockInv(s, Undecided, k) && Fds(s) == {fd}
  {
  }

  lemma DeletedInv(s: Sock, story: Story, k: map<int, Stream>)
    ensures SockInv(Deleted(s), story, k) && Fds(Deleted(s)) == {}
  {
  }

  /** Handling one entry never crashes, keeps the invariant, and leaves the other entries alone. */
  lemma HandleEntryKeepsInv(w: World, i: nat, ch: Choice)
    requires Inv(w) && i < |w.table| && EventsFit(w.table[i]) && Fair(w.table[i], w.kernel, ch)
    ensures HandleEntry(w, i, ch).Running?
    ensures var w' := HandleEntry(w, i, ch).world;
      && Inv(w') && |w.table| <= |w'.table|
      && (forall j :: 0 <= j < |w.table| && j != i ==> w'.table[j] == w.table[j])
  {
    hide SockInv, Sorted, HandleSocketEvent, EventsFit, Fair, Fds, Deleted;
    var v := ViewOf(w, i);
    HandlerGood(v, ch);
    var (verdict, u) := HandleSocketEvent(v, ch);
    OwnedOpen(w, i);
    if verdict == Del {
      DeletedInv(u.sock, u.story, u.kernel - Fds(u.sock));
      ReplaceEntry(w, i, Deleted(u.sock), u.story, u.clients, u.kernel - Fds(u.sock));
      assert Store(w, i, u).table[i := Deleted(u.sock)] == w.table[i := Deleted(u.sock)];
    } else {
      if verdict == Suc {
        ReplaceEntry(w, i, u.sock, u.story, u.clients, u.kernel);
      } else {
        assert Store(w, i, u).table == w.table && Store(w, i, u).stories == w.stories;
        AcceptFair(v, ch);
        AcceptKeepsInv(w, ch.fd, ch.ip, ch.script);
      }
    }
  }

  lemma AcceptFair(v: View, ch: Choice)
    requires |v.clients| < WIDE_LIMIT && v.sock.typ.Lstn? && Fair(v.sock, v.kernel, ch)
    requires HandleSocketEvent(v, ch).0 == New
    ensures ch.fd >= 0 && ch.fd !in v.kernel && Requester(ch.script)
  {
  }

  // ---- polling ----

  lemma PolledInv(table: seq<Sock>, i: nat, r: Revents, story: Story, k: map<int, Stream>)
    requires i < |table| && SockInv(table[i], story, k) && Requested(table[i], r)
    ensures var s := PolledSock(table, i, r);
      && Fds(s) <= Fds(table[i]) && EventsFit(s)
      && SockInv(s, story, k - (Fds(table[i]) - Fds(s)))
  {
    hide ParsePacket, Encode, OnePacket;
    var s := PolledSock(table, i, r);
    if Fds(s) == Fds(table[i]) {
      assert k - (Fds(table[i]) - Fds(s)) == k;
    }
  }

  /** A poll keeps the invariant, closing what hung up, and leaves every open entry with events that
      fit its state. */
  lemma {:induction false} PollKeepsInv(w: World, n: nat, rs: seq<Revents>)
    requires Inv(w) && n <= |w.table| && n <= |rs|
    requires forall j :: 0 <= j < n ==> Requested(w.table[j], rs[j])
    ensures Inv(PollEntries(w, n, rs))
    ensures forall j :: 0 <= j < n ==> EventsFit(PollEntries(w, n, rs).table[j])
    decreases n
  {
    hide SockInv, Sorted, EventsFit, Fds, PolledSock, Requested, ParsePacket;
    if n == 0 {
      assert PolledTable(w.table, 0, rs) == w.table;
    } else {
      PollKeepsInv(w, n - 1, rs);
      var u := PollEntries(w, n - 1, rs);
      PolledInv(w.table, n - 1, rs[n - 1], u.stories[n - 1], u.kernel);
      var s := PolledSock(w.table, n - 1, rs[n - 1]);
      OwnedOpen(u, n - 1);
      ReplaceEntry(u, n - 1, s, u.stories[n - 1], u.clients, u.kernel - (Fds(w.table[n - 1]) - Fds(s)));
      assert u.stories[n - 1 := u.stories[n - 1]] == u.stories;
      assert PolledTable(w.table, n, rs) == u.table[n - 1 := s];
    }
  }

  // ---- runs ----

  /** Where the program is: `next` of the `count` entries polled together are handled. */
  datatype Moment = Moment(world: World, next: nat, count: nat)

  ghost predicate Start(m: Moment, fd: int) {
    && fd >= 0 && m.next == m.count == 0
    && m.world == World(m.world.hi, [NewSock(Lstn, StLstn, fd)], [Undecided], [],
                        map[fd := Stream(Listening, [], 0, [])])
  }

  ghost predicate Polls(m: Moment, rs: seq<Revents>, m': Moment) {
    var w := m.world;
    && m.next == m.count && |rs| == |w.table|
    && (forall j :: 0 <= j < |rs| ==> Requested(w.table[j], rs[j]))
    && m' == Moment(PollEntries(w, |w.table|, rs), 0, |w.table|)
  }

  ghost predicate Handles(m: Moment, ch: Choice, m': Moment) {
    var w := m.world;
    && m.next < m.count && Sane(w) && m.next < |w.table|
    && Fair(w.table[m.next], w.kernel, ch)
    && HandleEntry(w, m.next, ch) == Running(m'.world)
    && m'.next == m.next + 1 && m'.count == m.count
  }

  ghost predicate Step(m: Moment, m': Moment) {
    (exists rs :: Polls(m, rs, m')) || (exists ch :: Handles(m, ch, m'))
  }

  ghost predicate Steps(run: seq<Moment>) {
    forall k :: 0 <= k < |run| - 1 ==> Step(run[k], run[k + 1])
  }

  /** A run of the server or of a responder: `while (server_loop(..) >= 0)`, seen at every moment. */
  ghost predicate IsRun(run: seq<Moment>) {
    |run| > 0 && (exists fd :: Start(run[0], fd)) && Steps(run)
  }

  lemma StepsJoin(a: seq<Moment>, m: Moment, b: seq<Moment>)
    requires Steps(a + [m]) && Steps([m] + b)
    ensures Steps(a + [m] + b)
  {
    hide Step;
    var c := a + [m] + b;
    forall k | 0 <= k < |c| - 1
      ensures Step(c[k], c[k + 1])
    {
      if k < |a| {
        assert (a + [m])[k] == c[k] && (a + [m])[k + 1] == c[k + 1];
      } else {
        assert ([m] + b)[k - |a|] == c[k] && ([m] + b)[k - |a| + 1] == c[k + 1];
      }
    }
  }

  ghost predicate MomentInv(m: Moment) {
    && Inv(m.world) && m.next <= m.count <= |m.world.table|
    && (forall j :: m.next <= j < m.count ==> EventsFit(m.world.table[j]))
  }

  lemma StartInv(m: Moment, fd: int)
    requires Start(m, fd)
    ensures MomentInv(m)
  {
    assert fd in Fds(m.world.table[0]);
  }

  lemma StepKeepsInv(m: Moment, m': Moment)
    requires MomentInv(m) && Step(m, m')
    ensures MomentInv(m')
  {
    hide Inv, EventsFit, Fair, HandleEntry, PollEntries, Requested;
    if rs :| Polls(m, rs, m') {
      PollKeepsInv(m.world, |m.world.table|, rs);
    } else {
      var ch :| Handles(m, ch, m');
      HandleEntryKeepsInv(m.world, m.next, ch);
    }
  }

  /** Every moment of every run satisfies the invariant. */
  lemma {:induction false} RunsKeepInv(run: seq<Moment>)
    requires IsRun(run)
    ensures forall k :: 0 <= k < |run| ==> MomentInv(run[k])
    decreases |run|
  {
    hide MomentInv, Step;
    if |run| == 1 {
      var fd :| Start(run[0], fd);
      StartInv(run[0], fd);
    } else {
      var n := |run| - 1;
      RunsKeepInv(run[..n]);
      assert run[..n][n - 1] == run[n - 1];
      assert Step(run[n - 1], run[n - 1 + 1]);
      StepKeepsInv(run[n - 1], run[n]);
      assert forall k :: 0 <= k < n ==> run[..n][k] == run[k];
    }
  }

  // ---- what holds at every moment ----

  /** No assertion and no abort() of the server is ever reached: whatever a fair environment does
      next, the entry whose turn it is can be handled. */
  lemma NeverCrashes(run: seq<Moment>, k: nat, ch: Choice)
    requires IsRun(run) && k < |run| && run[k].next < run[k].count
    ensures var w := run[k].world; var i := run[k].next;
      Sane(w) && i < |w.table| && (Fair(w.table[i], w.kernel, ch) ==> HandleEntry(w, i, ch).Running?)
  {
    hide SockInv, Sorted, EventsFit, Fair, HandleEntry;
    RunsKeepInv(run);
    var w := run[k].world;
    if Fair(w.table[run[k].next], w.kernel, ch) {
      HandleEntryKeepsInv(w, run[k].next, ch);
    }
  }

  /** The requester's descriptor of a connection: the ends are swapped once the request is out. */
  function RequesterFd(s: Sock): int {
    if s.state == ReqRd || s.state == ReqFwd then s.inp.fd else s.out.fd
  }

  /** The peer's descriptor, or -1. */
  function PeerFd(s: Sock): int {
    if s.state == ReqRd || s.state == ReqFwd then s.out.fd else s.inp.fd
  }

  /** What may have gone out on a connection whose requester is `q` and whose peer, if any, is `p`:
      to the requester a prefix of the reply the server owes it, of what that very peer has sent, or of
      the reply of a responder's system;
      to the peer, which is the client the story names, a prefix of that very request, in the
      requester's own bytes unless its size or offset does not fit 32 bits. */
  ghost predicate Faithful(s: Sock, story: Story, k: map<int, Stream>) {
    && Owns(k, RequesterFd(s)) && (PeerFd(s) == -1 || Owns(k, PeerFd(s)))
    && var q := k[RequesterFd(s)];
    && q.got <= |q.script|
    && (s.state != RspWr ==> q.put == [])
    && (s.state == RspWr && PeerFd(s) == -1 ==>
          && Asked(q) && (story.Here? || story.Replied?)
          && var r := Msg(q).body.req;
             if story.Replied? then Implemented(r.typ) && q.put <= Encode(ReplyPacket(r, story.os))
             else AnsweredHere(r, story.registry) && q.put <= Encode(HereAnswer(r, story.registry)))
    && (PeerFd(s) != -1 ==>
          var p := k[PeerFd(s)];
          && SentTo(story, q, p) && p.got <= |p.script|
          && q.put <= Seen(p)
          && p.put <= Encode(Msg(q)) && |Encode(Msg(q))| == q.got
          && (Small(Msg(q)) ==> p.put <= Seen(q)))
  }

  lemma SeenIsEncoded(st: Stream)
    requires Received(st)
    ensures |Encode(Msg(st))| == st.got
    ensures Encode(Msg(st)) == Seen(st) <==> Small(Msg(st))
  {
    hide ParsePacket, Encode;
    Transparent(Seen(st));
    assert Seen(st)[..st.got] == Seen(st);
  }

  lemma SockFaithful(s: Sock, story: Story, k: map<int, Stream>)
    requires SockInv(s, story, k) && s.typ == PktIn
    ensures Faithful(s, story, k)
  {
    hide ParsePacket, Encode, OnePacket, HereAnswer, Small;
    var q := k[RequesterFd(s)];
    if s.state != ReqRd {
      SeenIsEncoded(q);
    }
    if s.state == RspWr && story.Forwarded? {
      SeenIsEncoded(k[PeerFd(s)]);
      AnswersAreSmall(k[PeerFd(s)]);
    }
  }

  lemma AnswersAreSmall(st: Stream)
    requires Answered(st)
    ensures Small(Msg(st))
  {
  }

  // ---- the registry a reply was decided with ----

  /** The story is one that can be told with this registry. */
  ghost predicate DecidedBy(story: Story, clients: seq<Client>) {
    match story
    case Undecided => false
    case Replied(_) => true
    case Here(registry) => registry == clients
    case Forwarded(to) => to in clients
  }

  /** The reply of connection `i` is still undecided, or was decided at an earlier moment of the run,
      when it was the turn of connection `i`, with the registry the server had then. */
  ghost predicate Happened(run: seq<Moment>, k: nat, i: nat, story: Story)
    requires k <= |run|
  {
    || story == Undecided
    || exists j: nat :: j < k && run[j].next == i < run[j].count && DecidedBy(story, run[j].world.clients)
  }

  lemma HandlerDecides(v: View, ch: Choice)
    requires |v.clients| < WIDE_LIMIT
    ensures var u := HandleSocketEvent(v, ch).1; u.story == v.story || DecidedBy(u.story, v.clients)
  {
    hide ParsePacket, Encode, HereAnswer, RootTest, Sorted, Bag;
  }

  lemma StepDecides(m: Moment, m': Moment, i: nat)
    requires Step(m, m') && i < |m'.world.stories|
    ensures var story := m'.world.stories[i];
      || story == Undecided
      || (i < |m.world.stories| && story == m.world.stories[i])
      || (m.next == i < m.count && DecidedBy(story, m.world.clients))
  {
    hide HandleSocketEvent, DecidedBy, Sorted, Requested, Fair, PolledTable, PolledKernel;
    if rs :| Polls(m, rs, m') {
    } else {
      var ch :| Handles(m, ch, m');
      HandlerDecides(ViewOf(m.world, m.next), ch);
    }
  }

  lemma {:induction false} StoriesHappened(run: seq<Moment>, k: nat, i: nat)
    requires IsRun(run) && k < |run| && i < |run[k].world.stories|
    ensures Happened(run, k, i, run[k].world.stories[i])
    decreases k
  {
    hide Step, DecidedBy;
    if k > 0 {
      assert Step(run[k - 1], run[k - 1 + 1]);
      StepDecides(run[k - 1], run[k], i);
      if i < |run[k - 1].world.stories| {
        StoriesHappened(run, k - 1, i);
      }
    }
  }

  /** At every moment of every run, for any number of connections, any interleaving and any sizes of
      reads and writes: each connection has written to its requester only what that requester is
      owed, by the registry the server had when it decided, and to its peer only that requester's
      request; and the peer is a client that registry listed under the owner's name. */
  lemma ReplySafety(run: seq<Moment>, k: nat, i: nat)
    requires IsRun(run) && k < |run| && i < |run[k].world.table| && run[k].world.table[i].typ == PktIn
    ensures var w := run[k].world; i < |w.stories| && Faithful(w.table[i], w.stories[i], w.kernel)
    ensures Happened(run, k, i, run[k].world.stories[i])
  {
    hide SockInv, Sorted, Faithful;
    RunsKeepInv(run);
    var w := run[k].world;
    assert Inv(w);
    SockFaithful(w.table[i], w.stories[i], w.kernel);
    StoriesHappened(run, k, i);
  }

  // ---- connections that end ----

  /** What the last turn of a connection in RSPWR leaves. */
  lemma LastTurn(v: View, ch: Choice)
    requires ViewInv(v) && EventsFit(v.sock) && Fair(v.sock, v.kernel, ch)
    requires v.sock.typ == PktIn && v.sock.state == RspWr && !ch.fail && HandleSocketEvent(v, ch).0 == Del
    ensures v.sock.out.buf == [] && RspWrInv(v.sock, v.story, v.kernel)
  {
    hide ParsePacket, Encode, OnePacket, HereAnswer, Sorted;
  }

  /** An entry that was in use and is not any more was deleted. */
  lemma GoneIsDeleted(w: World, i: nat, ch: Choice)
    requires Inv(w) && i < |w.table| && EventsFit(w.table[i]) && Fair(w.table[i], w.kernel, ch)
    requires w.table[i].typ == PktIn
    requires HandleEntry(w, i, ch).Running? && i < |HandleEntry(w, i, ch).world.table|
    requires HandleEntry(w, i, ch).world.table[i].typ == NoneType
    ensures HandleSocketEvent(ViewOf(w, i), ch).0 == Del
  {
    hide SockInv, Sorted, HandleSocketEvent, EventsFit, Fair;
    HandlerGood(ViewOf(w, i), ch);
  }

  /** The step `run[k]` to `run[k + 1]` ends connection `i`, which was replying, without a failure. */
  ghost predicate Finishes(run: seq<Moment>, k: nat, i: nat, ch: Choice) {
    && k + 1 < |run| && Handles(run[k], ch, run[k + 1]) && !ch.fail
    && run[k].next == i < |run[k + 1].world.table|
    && run[k].world.table[i].typ == PktIn && run[k].world.table[i].state == RspWr
    && run[k + 1].world.table[i].typ == NoneType
  }

  lemma Finished(run: seq<Moment>, k: nat, i: nat, ch: Choice)
    requires IsRun(run) && Finishes(run, k, i, ch)
    ensures var w := run[k].world;
      && i < |w.table| && i < |w.stories| && StoryFits(w.hi, w.stories[i])
      && w.table[i].out.buf == [] && RspWrInv(w.table[i], w.stories[i], w.kernel)
  {
    hide SockInv, Sorted, HandleSocketEvent, EventsFit, Fair, HandleEntry, RspWrInv;
    RunsKeepInv(run);
    var w := run[k].world;
    assert MomentInv(run[k]);
    GoneIsDeleted(w, i, ch);
    LastTurn(ViewOf(w, i), ch);
  }

  /** A connection that ends without a failure ends only when its whole reply has been written: the
      server's own answer by the registry it had, everything the named owner sent, or the reply of a
      responder's system. */
  lemma WholeReply(run: seq<Moment>, k: nat, i: nat, ch: Choice)
    requires IsRun(run) && Finishes(run, k, i, ch)
    ensures var w := run[k].world; var s := w.table[i];
      && i < |w.stories| && Owns(w.kernel, s.out.fd) && Asked(w.kernel[s.out.fd])
      && Happened(run, k, i, w.stories[i]) && StoryFits(w.hi, w.stories[i])
      && var q := w.kernel[s.out.fd];
         match w.stories[i]
         case Undecided => false
         case Here(registry) =>
           && AnsweredHere(Msg(q).body.req, registry)
           && q.put == Encode(HereAnswer(Msg(q).body.req, registry))
         case Replied(os) => Replies(q, os, q.put)
         case Forwarded(_) =>
           && Owns(w.kernel, s.inp.fd) && SentTo(w.stories[i], q, w.kernel[s.inp.fd])
           && w.kernel[s.inp.fd].got <= |w.kernel[s.inp.fd].script|
           && q.put == Seen(w.kernel[s.inp.fd])
  {
    hide ParsePacket, Encode, HereAnswer, Small, Sorted, Step, Steps, Happened, Handles, SentTo;
    Finished(run, k, i, ch);
    StoriesHappened(run, k, i);
    var w := run[k].world;
    var q := w.kernel[w.table[i].out.fd];
    assert q.put + [] == q.put;
    if w.stories[i].Forwarded? {
      SeenIsEncoded(w.kernel[w.table[i].inp.fd]);
      AnswersAreSmall(w.kernel[w.table[i].inp.fd]);
    }
  }
}
