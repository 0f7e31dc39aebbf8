/** The requesting end: sending a packet, receiving one, and judging a response. */
module Requester {
  import opened Wire
  import opened Packet
  import opened Decode
  import opened Deserialize
  import opened SelfDelimiting
  import B = Buffer

  /** What one `write(2)` does: it takes some bytes, is interrupted, or fails with an errno. */
  datatype WriteOutcome = Takes(limit: nat) | Interrupted | Fails(errno: int)

  /** The return value and the bytes sent, outcome by outcome: each write that is not interrupted takes a
      prefix of what is left, until all is sent or a write fails. */
  function Sends(left: seq<byte>, outcomes: seq<WriteOutcome>): (int, seq<byte>) {
    if left == [] || outcomes == [] then (0, [])
    else
      match outcomes[0]
      case Fails(errno) => (-errno, [])
      case Interrupted => Sends(left, outcomes[1..])
      case Takes(limit) =>
        var n := Min(limit, |left|);
        Behind(left[..n], Sends(left[n..], outcomes[1..]))
  }

  /** The bytes one write takes. */
  function Taken(left: seq<byte>, o: WriteOutcome): seq<byte> {
    if o.Takes? then left[..Min(o.limit, |left|)] else []
  }

  function Behind(sent: seq<byte>, r: (int, seq<byte>)): (int, seq<byte>) { (r.0, sent + r.1) }

  /** One step of `Sends`, behind what was sent before it. */
  lemma SendsNext(sent: seq<byte>, left: seq<byte>, outcomes: seq<WriteOutcome>, k: nat, w: seq<byte>, rest: seq<byte>)
    requires left != [] && k < |outcomes| && left == w + rest
    requires w == Taken(left, outcomes[k])
    ensures Behind(sent, Sends(left, outcomes[k..])) ==
      if outcomes[k].Fails? then (-outcomes[k].errno, sent + w)
      else Behind(sent + w, Sends(rest, outcomes[k + 1..]))
  {
    var os := outcomes[k..];
    assert os != [] && os[0] == outcomes[k] && os[1..] == outcomes[k + 1..];
    var r := Sends(rest, os[1..]);
    match os[0]
    case Fails(_) =>
      assert w == [];
    case Interrupted =>
      assert rest == left && sent + w == sent;
    case Takes(limit) =>
      assert rest == left[|w|..];
      assert sent + (w + r.1) == sent + w + r.1;
  }

  lemma SendsOver(sent: seq<byte>, left: seq<byte>, outcomes: seq<WriteOutcome>)
    requires left == [] || outcomes == []
    ensures Behind(sent, Sends(left, outcomes)) == (0, sent)
  {
    assert sent + [] == sent;
  }

  /** Where the loop stands after `k` outcomes: what the whole sending comes to is what the rest of it
      comes to behind the bytes sent, and every outcome so far that took nothing was idle. */
  ghost predicate Sending(all: seq<byte>, outcomes: seq<WriteOutcome>, k: nat, sent: seq<byte>, queued: seq<byte>) {
    && k <= |outcomes| && sent + queued == all
    && (forall i :: 0 <= i < k ==> !outcomes[i].Fails?)
    && Sends(all, outcomes) == Behind(sent, Sends(queued, outcomes[k..]))
    && k <= |sent| + Idle(outcomes[..k])
  }

  lemma SendingStarts(all: seq<byte>, outcomes: seq<WriteOutcome>)
    ensures Sending(all, outcomes, 0, [], all)
  {
    assert outcomes[0..] == outcomes;
    var r := Sends(all, outcomes);
    assert [] + r.1 == r.1;
  }

  lemma SendingNext(all: seq<byte>, outcomes: seq<WriteOutcome>, k: nat, sent: seq<byte>, queued: seq<byte>,
                    w: seq<byte>, rest: seq<byte>)
    requires Sending(all, outcomes, k, sent, queued) && k < |outcomes| && queued != []
    requires w == Taken(queued, outcomes[k]) && w + rest == queued
    ensures if outcomes[k].Fails? then sent + w + rest == all && Sends(all, outcomes) == (-outcomes[k].errno, sent + w)
      else Sending(all, outcomes, k + 1, sent + w, rest)
  {
    hide Sends, Behind, Idle;
    SendsNext(sent, queued, outcomes, k, w, rest);
    assert sent + w + rest == sent + (w + rest);
    if !outcomes[k].Fails? {
      IdleNext(outcomes, k, queued, w);
    }
  }

  lemma SendingEnds(all: seq<byte>, outcomes: seq<WriteOutcome>, k: nat, sent: seq<byte>, queued: seq<byte>)
    requires Sending(all, outcomes, k, sent, queued) && (queued == [] || k == |outcomes|)
    ensures sent + queued == all && Sends(all, outcomes) == (0, sent)
    ensures queued == [] || forall o | o in outcomes :: !o.Fails?
    ensures queued == [] || |outcomes| <= |sent| + Idle(outcomes)
  {
    hide Sends, Behind, Idle;
    SendsOver(sent, queued, outcomes[k..]);
    if k == |outcomes| {
      assert outcomes[..k] == outcomes;
    }
  }

  /** One `buffer_write` that meets this outcome. */
  method SendOnce(buf: B.Buffer, o: WriteOutcome) returns (w: seq<byte>, rest: seq<byte>)
    requires buf.Valid() && buf.ptr > 0
    modifies buf, buf.data
    ensures buf.Valid() && buf.data == old(buf.data) && w + rest == old(buf.Contents())
    ensures rest == buf.Contents() && |rest| == buf.ptr
    ensures w == Taken(old(buf.Contents()), o)
  {
    w := [];
    match o {
      case Takes(limit) =>
        var n;
        n, w := buf.Write(limit, false);
      case Interrupted =>
        var _, _ := buf.Write(0, true);
      case Fails(errno) =>
        var _, _ := buf.Write(0, true);
    }
    rest := buf.data[..buf.ptr];
  }

  /** Sends a packet while the kernel answers `outcomes`. At every point the bytes sent and the
      bytes still queued are the packet's encoding; it reports success only when nothing is queued
      any more (or the outcomes given here have run out). */
  method PacketSend(p: Packet, outcomes: seq<WriteOutcome>) returns (retv: int, sent: seq<byte>, queued: seq<byte>)
    requires ValidPacket(p)
    requires forall o | o in outcomes :: o.Fails? ==> o.errno > 0
    ensures sent + queued == Encode(p) && (retv, sent) == Sends(Encode(p), outcomes)
    ensures retv < 0 ==> Fails(-retv) in outcomes
    ensures retv >= 0 ==> retv == 0 && (queued == [] || forall o | o in outcomes :: !o.Fails?)
    ensures retv == 0 && queued != [] ==> |outcomes| <= |sent| + Idle(outcomes)
  {
    hide Encode, ValidPacket, Idle, Sends, Taken, Sending;
    var buf := new B.Buffer();
    var _, _ := buf.SerializePacket(p);
    retv, sent, queued := 0, [], Encode(p);
    var k := 0;
    SendingStarts(queued, outcomes);
    while buf.ptr != 0 && k < |outcomes|
      invariant buf.Valid() && fresh(buf) && fresh(buf.data) && k <= |outcomes|
      invariant queued == buf.Contents() && Sending(Encode(p), outcomes, k, sent, queued)
      decreases |outcomes| - k
    {
      var w, rest := SendOnce(buf, outcomes[k]);
      SendingNext(Encode(p), outcomes, k, sent, queued, w, rest);
      sent, queued := sent + w, rest;
      if outcomes[k].Fails? {
        return -outcomes[k].errno, sent, queued;
      }
      k := k + 1;
    }
    SendingEnds(Encode(p), outcomes, k, sent, queued);
  }

  /** The write calls that took nothing. */
  function Idle(outcomes: seq<WriteOutcome>): nat {
    if outcomes == [] then 0
    else (if outcomes[0] == Interrupted || outcomes[0] == Takes(0) then 1 else 0) + Idle(outcomes[1..])
  }

  lemma {:induction false} IdleSnoc(a: seq<WriteOutcome>, o: WriteOutcome)
    ensures Idle(a + [o]) == Idle(a) + if o == Interrupted || o == Takes(0) then 1 else 0
    decreases |a|
  {
    if a == [] {
      assert (a + [o])[1..] == [];
    } else {
      assert (a + [o])[1..] == a[1..] + [o];
      IdleSnoc(a[1..], o);
    }
  }

  /** A write that took something is one that is not counted. */
  lemma IdleNext(outcomes: seq<WriteOutcome>, k: nat, left: seq<byte>, w: seq<byte>)
    requires k < |outcomes| && left != [] && !outcomes[k].Fails?
    requires w == Taken(left, outcomes[k])
    ensures Idle(outcomes[..k]) + 1 <= |w| + Idle(outcomes[..k + 1])
  {
    assert outcomes[..k + 1] == outcomes[..k] + [outcomes[k]];
    IdleSnoc(outcomes[..k], outcomes[k]);
  }

  lemma ReadyExtends(a: seq<byte>, b: seq<byte>, o: PktOut)
    requires a <= b && PacketReady(a, o)
    ensures PacketReady(b, o)
  {
    WideCut(a, b, 12);
  }

  /** One more read of a stream of which the first `got` bytes are in the buffer. */
  method ReadMore(buf: B.Buffer, stream: seq<byte>, got: nat, limit: nat, fail: bool) returns (n: int)
    requires buf.Valid() && got <= |stream| && buf.Contents() == stream[..got] && limit >= 1
    modifies buf, buf.data
    ensures buf.Valid() && (buf.data == old(buf.data) || fresh(buf.data))
    ensures n <= 0 ==> fail || got == |stream|
    ensures n > 0 ==> !fail && got + n <= |stream| && buf.Contents() == stream[..got + n]
  {
    n := buf.Read(stream[got..], limit, fail);
    if n > 0 {
      assert stream[..got + n] == stream[..got] + stream[got..][..n];
    }
  }

  /** Receives one packet off `stream`, of which the k-th read delivers at most `limits(k)` bytes or
      fails (or is interrupted, which the loop does not tell from a failure). Every attempt decodes
      from the start into the same structure; the result is that of a single fresh decode of the `got`
      bytes that came in `calls` reads. It is 0 exactly when they hold a whole packet, which then is
      that of the whole stream, and 1 exactly when they do not: because the stream ended early or
      because the last read failed. */
  method PacketRecv(stream: seq<byte>, limits: nat -> nat, fails: nat -> bool)
      returns (aborted: bool, retv: int, out: PktOut, got: nat, calls: nat)
    requires forall k :: limits(k) >= 1
    ensures got <= |stream| && forall k :: 0 <= k < calls - 1 ==> !fails(k)
    ensures var p := ParsePacket(stream[..got]);
      && (aborted <==> p.Unknown?)
      && (!aborted ==> (retv == 0 <==> p.Done?) && (retv == 1 <==> p.More?))
      && (p.Done? ==> ParsePacket(stream) == p && ObservedPacket(out) == p.val)
    ensures !aborted && retv == 1 ==> got == |stream| || (calls > 0 && fails(calls - 1))
    ensures (forall k :: !fails(k)) ==> ParsePacket(stream[..got]) == ParsePacket(stream)
  {
    hide ParsePacket, ObservedPacket, PacketReady, B.Buffer.Contents, B.Buffer.Valid;
    var buf := new B.Buffer();
    out := ZERO_PACKET;
    assert PacketReady([], ZERO_PACKET) by { ZeroReady(); }
    aborted, retv, out := buf.DeserializePacket(out);
    got, calls := 0, 0;
    assert stream[..0] == [];
    PacketCut(stream[..0], stream);
    while !aborted && retv > 0
      invariant buf.Valid() && fresh(buf) && fresh(buf.data) && got <= |stream|
      invariant forall k :: 0 <= k < calls ==> !fails(k)
      invariant var p := ParsePacket(stream[..got]);
        && (aborted <==> p.Unknown?)
        && (p.More? ==> retv == 1 && buf.Contents() == stream[..got] && PacketReady(stream[..got], out))
        && (p.Done? ==> retv == 0 && ObservedPacket(out) == p.val)
      decreases |stream| - got, retv
    {
      var n := ReadMore(buf, stream, got, limits(calls), fails(calls));
      calls := calls + 1;
      if n <= 0 {
        break;
      }
      ReadyExtends(stream[..got], stream[..got + n], out);
      got := got + n;
      aborted, retv, out := buf.DeserializePacket(out);
    }
    PacketCut(stream[..got], stream);
    if got == |stream| {
      assert stream[..got] == stream;
    }
  }

  lemma ZeroReady()
    ensures PacketReady([], ZERO_PACKET)
  {
  }

  /** `response_validate` */
  function ResponseValidate(p: Packet, typ: u32): (retv: int)
    ensures retv == 0 <==>
      (p.magic == 1800 && p.body.RspBody? && (ResponseWord(p.body.rsp) == typ || p.body.rsp == RspError(0)))
    ensures retv != 0 ==>
      if p.magic == 1800 && p.body.RspBody? && p.body.rsp.RspError? then retv == -(p.body.rsp.error as int)
      else retv == -5
  {
    if p.magic != MAGIC then -(EIO as int)
    else if !p.body.RspBody? then -(EIO as int)
    else if ResponseWord(p.body.rsp) != typ then
      if p.body.rsp.RspError? then -(p.body.rsp.error as int) else -(EIO as int)
    else 0
  }
}
