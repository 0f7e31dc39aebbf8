/** Connections do not touch each other, and each of them only ever moves forward. */
module RelayProgress {
  import opened Packet
  import opened Decode
  import opened Registry
  import opened Owner
  import opened Relay
  import opened RelayInvariant
  import opened RelaySafety

  // ---- isolation ----

  /** Entry `j` and everything its descriptors see are the same in both worlds. */
  ghost predicate Untouched(w: World, w': World, j: nat)
    requires j < |w.table| && |w.table| == |w.stories|
  {
    && j < |w'.table| && j < |w'.stories|
    && w'.table[j] == w.table[j] && w'.stories[j] == w.stories[j]
    && (forall fd :: fd in Fds(w.table[j]) ==> fd in w.kernel && fd in w'.kernel && w'.kernel[fd] == w.kernel[fd])
  }

  /** Handling one connection never reads, writes or closes anything of another one. */
  lemma Isolation(w: World, i: nat, j: nat, ch: Choice)
    requires Inv(w) && i < |w.table| && j < |w.table| && i != j
    requires EventsFit(w.table[i]) && Fair(w.table[i], w.kernel, ch)
    ensures HandleEntry(w, i, ch).Running? && Untouched(w, HandleEntry(w, i, ch).world, j)
  {
    hide SockInv, Sorted, HandleSocketEvent, EventsFit, Fair, Fds, Deleted;
    var v := ViewOf(w, i);
    HandlerGood(v, ch);
    HandleEntryKeepsInv(w, i, ch);
    var (verdict, u) := HandleSocketEvent(v, ch);
    OwnedOpen(w, j);
    if verdict == New {
      AcceptFair(v, ch);
    }
    assert Fds(w.table[i]) !! Fds(w.table[j]);
  }

  /** A poll only closes. */
  lemma {:induction false} PollOnlyCloses(w: World, n: nat, rs: seq<Revents>)
    requires n <= |w.table| && n <= |rs|
    ensures var k := PollEntries(w, n, rs).kernel; forall fd :: fd in k ==> fd in w.kernel && k[fd] == w.kernel[fd]
    decreases n
  {
    hide PolledSock, Fds;
    if n > 0 {
      PollOnlyCloses(w, n - 1, rs);
    }
  }

  // ---- progress ----

  /** REQRD > REQFWD > RSPFWD > RSPWR > deleted. */
  function Rank(s: Sock): nat {
    if s.typ != PktIn then 0
    else
      match s.state
      case ReqRd => 4
      case ReqFwd => 3
      case RspFwd => 2
      case RspWr => 1
      case _ => 0
  }

  /** Bytes still to come in, or still queued. */
  ghost function Remaining(s: Sock, k: map<int, Stream>): nat {
    if s.typ != PktIn then 0
    else if ReadsIn(s.state) then
      if s.inp.fd in k && k[s.inp.fd].got <= |k[s.inp.fd].script| then |k[s.inp.fd].script| - k[s.inp.fd].got else 0
    else |s.out.buf|
  }

  datatype Pair = Pair(rank: nat, remaining: nat)

  ghost function Measure(s: Sock, k: map<int, Stream>): Pair { Pair(Rank(s), Remaining(s, k)) }

  predicate Below(a: Pair, b: Pair) { a.rank < b.rank || (a.rank == b.rank && a.remaining < b.remaining) }

  /** Where a handler leaves a connection. */
  ghost function Reached(r: (Verdict, View)): Pair {
    Measure(if r.0 == Del then Deleted(r.1.sock) else r.1.sock, r.1.kernel)
  }

  lemma ReadProgresses(v: View, ch: Choice)
    requires ViewInv(v) && v.sock.typ == PktIn && ReadsIn(v.sock.state) && v.sock.revents.pin
    requires Good(v, HandlePktRd(v, ch).0, HandlePktRd(v, ch).1) && ch.limit >= 1
    ensures Below(Reached(HandlePktRd(v, ch)), Measure(v.sock, v.kernel))
  {
    hide ParsePacket, Encode, OnePacket, HereAnswer, RootAnswer, RootTest, Sorted, Registered, Bag, Recipient, Reply;
    hide Implemented;
    if !ch.fail {
      ReadOne(v.kernel[v.sock.inp.fd], v.sock.inp.buf, ch.limit, v.sock.state == ReqRd);
    }
  }

  lemma WriteProgresses(v: View, ch: Choice)
    requires ViewInv(v) && v.sock.typ == PktIn && WritesOut(v.sock.state) && v.sock.revents.pout
    requires Good(v, HandlePktWr(v, ch).0, HandlePktWr(v, ch).1) && ch.limit >= 1
    ensures Below(Reached(HandlePktWr(v, ch)), Measure(v.sock, v.kernel))
  {
    hide ParsePacket, Encode, OnePacket, HereAnswer, Sorted, Reply;
  }

  /** Every handled event of a connection moves it forward: to a later state, or in the same state
      with fewer bytes to go. So no state is ever revisited. */
  lemma EventsMakeProgress(v: View, ch: Choice)
    requires ViewInv(v) && EventsFit(v.sock) && Fair(v.sock, v.kernel, ch)
    requires v.sock.typ == PktIn && v.sock.revents != QUIET
    ensures Below(Reached(HandleSocketEvent(v, ch)), Measure(v.sock, v.kernel))
  {
    hide HandlePktRd, HandlePktWr, ParsePacket, Encode, OnePacket, HereAnswer, Sorted, Measure, Reached;
    HandlerGood(v, ch);
    OwnedFds(v.sock, v.story, v.kernel);
    if ReadsIn(v.sock.state) {
      ReadProgresses(v, ch);
    } else {
      WriteProgresses(v, ch);
    }
  }

  /** Where entry `i` stands at a moment. */
  ghost function StandsAt(m: Moment, i: nat): Pair
    requires i < |m.world.table|
  {
    Measure(m.world.table[i], m.world.kernel)
  }

  /** The step handles an event of connection `i`. */
  ghost predicate Handled(m: Moment, m': Moment, i: nat)
    requires i < |m.world.table|
  {
    && m.next == i && m'.next == i + 1
    && m.world.table[i].typ == PktIn && m.world.table[i].revents != QUIET
  }

  lemma SameMeasure(w: World, w': World, j: nat)
    requires j < |w.table| && |w.table| == |w.stories| && Inv(w) && Untouched(w, w', j)
    ensures Measure(w'.table[j], w'.kernel) == Measure(w.table[j], w.kernel)
  {
    hide Sorted, ParsePacket, Encode, OnePacket;
    assert SockInv(w.table[j], w.stories[j], w.kernel);
  }

  lemma PolledMeasure(table: seq<Sock>, j: nat, r: Revents, k: map<int, Stream>, k': map<int, Stream>)
    requires j < |table|
    requires var s := PolledSock(table, j, r);
      s.typ != NoneType ==> forall fd :: fd in Fds(s) ==> fd in k && fd in k' && k'[fd] == k[fd]
    requires table[j].typ == PktIn && ReadsIn(table[j].state) ==> table[j].inp.fd >= 0
    ensures var p, q := Measure(PolledSock(table, j, r), k'), Measure(table[j], k); p == q || Below(p, q)
  {
  }

  lemma ReadsOpenEnd(s: Sock, story: Story, k: map<int, Stream>)
    requires SockInv(s, story, k) && s.typ == PktIn && ReadsIn(s.state)
    ensures s.inp.fd >= 0
  {
    hide ParsePacket, Encode, OnePacket;
  }

  lemma PollDescends(w: World, rs: seq<Revents>, j: nat)
    requires Inv(w) && |rs| == |w.table| && j < |w.table|
    requires forall i :: 0 <= i < |rs| ==> Requested(w.table[i], rs[i])
    ensures var w' := PollEntries(w, |rs|, rs);
      var p, q := Measure(w'.table[j], w'.kernel), Measure(w.table[j], w.kernel);
      p == q || Below(p, q)
  {
    hide SockInv, Sorted, Requested, PolledSock, Fds, Measure, EventsFit;
    var w' := PollEntries(w, |rs|, rs);
    PollOnlyCloses(w, |rs|, rs);
    PollKeepsInv(w, |rs|, rs);
    OwnedOpen(w', j);
    if w.table[j].typ == PktIn && ReadsIn(w.table[j].state) {
      ReadsOpenEnd(w.table[j], w.stories[j], w.kernel);
    }
    PolledMeasure(w.table, j, rs[j], w.kernel, w'.kernel);
  }

  lemma HandleDescends(w: World, i: nat, ch: Choice)
    requires Inv(w) && i < |w.table| && EventsFit(w.table[i]) && Fair(w.table[i], w.kernel, ch)
    ensures HandleEntry(w, i, ch).Running?
    ensures var w' := HandleEntry(w, i, ch).world;
      && i < |w'.table|
      && var p, q := Measure(w'.table[i], w'.kernel), Measure(w.table[i], w.kernel);
      && (p == q || Below(p, q))
      && (w.table[i].typ == PktIn && w.table[i].revents != QUIET ==> Below(p, q))
  {
    hide Sorted, Fair, SockInv, Fds, EventsFit, HandlePktRd, HandlePktWr;
    HandleEntryKeepsInv(w, i, ch);
    HandlerGood(ViewOf(w, i), ch);
    OwnedFds(w.table[i], w.stories[i], w.kernel);
    var v := ViewOf(w, i);
    var (verdict, u) := HandleSocketEvent(v, ch);
    if w.table[i].typ == PktIn && w.table[i].revents != QUIET {
      EventsMakeProgress(v, ch);
    }
    var w' := HandleEntry(w, i, ch).world;
    assert verdict == Del ==> w'.table[i] == Deleted(u.sock);
    assert verdict == Suc ==> w'.table[i] == u.sock;
  }

  /** No step lets a connection fall back, and handling an event moves it strictly forward. */
  lemma StepDescends(m: Moment, m': Moment, i: nat)
    requires MomentInv(m) && Step(m, m') && i < |m.world.table|
    ensures i < |m'.world.table|
    ensures var p, q := StandsAt(m', i), StandsAt(m, i);
      (p == q || Below(p, q)) && (Handled(m, m', i) ==> Below(p, q))
  {
    hide Inv, EventsFit, Fair, HandleEntry, Requested, Measure, PollEntries;
    if rs :| Polls(m, rs, m') {
      PollDescends(m.world, rs, i);
    } else {
      var ch :| Handles(m, ch, m');
      if i == m.next {
        HandleDescends(m.world, i, ch);
      } else {
        Isolation(m.world, m.next, i, ch);
        assert Inv(m.world) ==> |m.world.table| == |m.world.stories| by {
          InvSane(m.world);
        }
        SameMeasure(m.world, m'.world, i);
      }
    }
  }

  /** Over a whole run a connection descends lexicographically by state and by bytes to go, strictly
      with every event of it that is handled; so it never comes back to a state it has left. */
  lemma {:induction false} NoStateIsRevisited(run: seq<Moment>, k: nat, l: nat, i: nat)
    requires IsRun(run) && k <= l < |run| && i < |run[k].world.table|
    ensures i < |run[l].world.table|
    ensures var p, q := StandsAt(run[l], i), StandsAt(run[k], i);
      (p == q || Below(p, q)) && (k < l && Handled(run[k], run[k + 1], i) ==> Below(p, q))
    decreases l - k
  {
    hide Step, MomentInv, Measure, Handled;
    if k < l {
      RunsKeepInv(run);
      assert Step(run[k], run[k + 1]);
      StepDescends(run[k], run[k + 1], i);
      NoStateIsRevisited(run, k + 1, l, i);
    }
  }
}
