/** The loop that both daemons run, the server's relay and a client's responder, as a state machine
    over values: the socket table, the registry, and the descriptors the kernel holds open, stepped by
    polls and by handled events whose outcomes the environment chooses. */
module Relay {
  import opened Wire
  import opened Packet
  import opened Decode
  import opened Registry
  import opened Owner

  datatype SockType = NoneType | PktIn | PktOut | Lstn

  datatype SockState = StNone | StClosed | StLstn | ReqRd | RspWr | ReqFwd | RspFwd

  /** Event bits of poll(2). */
  datatype Revents = Revents(pin: bool, pout: bool, perr: bool, phup: bool)

  const QUIET := Revents(false, false, false, false)

  /** `struct middfs_sockend`; `slot` is the index of the pollfd its revents pointer points into. */
  datatype End = End(fd: int, buf: seq<byte>, slot: int)

  /** `struct middfs_sockinfo` */
  datatype Sock = Sock(typ: SockType, state: SockState, inp: End, out: End, revents: Revents)

  /** `struct handler_info`: the server's handlers, or the responder's. */
  datatype Handlers = ServerHi | ClientHi

  type u16 = x: int | 0 <= x < 0x1_0000

  /** `htons` of a 32-bit port: the port that is really reached. */
  function Htons(port: u32): u16 { port % 0x1_0000 }

  /** It is the registered port modulo 2^16, and so that port itself exactly if it has 16 bits. */
  lemma PortReached(port: u32) returns (q: nat)
    ensures port == Htons(port) + 0x1_0000 * q
    ensures Htons(port) == port <==> port < 0x1_0000
  {
    q := port / 0x1_0000;
  }

  /** Whom a descriptor reaches: nobody (it listens), whoever connected from `ip`, the address connected
      to, or nobody because connecting failed. */
  datatype Address = Listening | Inbound(ip: cstr) | Outbound(ip: cstr, port: u16) | Unconnected

  /** An open descriptor: `script` is everything the other side ever sends on it, `got` how much of
      that has been read, and `put` everything written to it. */
  datatype Stream = Stream(addr: Address, script: seq<byte>, got: nat, put: seq<byte>)

  /** What decided the reply of a connection: nothing yet; the server itself with the registry it had;
      the registered client the request was forwarded to; or, in a responder, its system. */
  datatype Story = Undecided | Here(registry: seq<Client>) | Forwarded(to: Client) | Replied(os: Os)

  datatype World = World(hi: Handlers, table: seq<Sock>, stories: seq<Story>, clients: seq<Client>,
                         kernel: map<int, Stream>)

  /** What the environment decides while one socket is handled: whether the read or write fails and
      how many bytes it may move; the descriptor accept or socket returns (negative on failure), whether
      connect or getpeername succeeds, and what the other side will send and from which address; the
      order qsort leaves, and which of several clients of a name bsearch comes upon; and what the
      responder's system makes of a request at this moment. */
  datatype Choice = Choice(fail: bool, limit: nat, fd: int, ok: bool, script: seq<byte>, ip: cstr,
                           sorted: seq<Client>, found: nat, os: Os)

  datatype Verdict = Suc | New | Del | Crash

  /** All that one handler may look at and change. */
  datatype View = View(hi: Handlers, sock: Sock, story: Story, clients: seq<Client>, kernel: map<int, Stream>)

  function NewEnd(fd: int): End { End(fd, [], -1) }

  function NewSock(typ: SockType, state: SockState, fd: int): Sock {
    Sock(typ, state, NewEnd(fd), NewEnd(-1), QUIET)
  }

  predicate IsOpen(s: Sock) { s.inp.fd >= 0 || s.out.fd >= 0 }

  predicate ReadsIn(st: SockState) { st == StLstn || st == ReqRd || st == RspFwd }

  predicate WritesOut(st: SockState) { st == RspWr || st == ReqFwd }

  // ---- replies made by the server ----

  function RootAnswer(r: Request, clients: seq<Client>): Response
    requires |clients| < WIDE_LIMIT
  {
    if r.typ == REQ_READDIR then RspDir(ToWide(|clients|), Listing(clients))
    else if r.typ == REQ_ACCESS then if 0 <= r.mode <= 7 then RspOk else RspError(EINVAL)
    else if r.typ == REQ_RENAME then RspError(EPERM)
    else RspError(ENOENT)
  }

  function HereAnswer(r: Request, clients: seq<Client>): Packet
    requires |clients| < WIDE_LIMIT
  {
    Packet(MAGIC, RspBody(if RootTest(r) then RootAnswer(r, clients) else RspError(ENOENT)))
  }

  /** The server's own reply to a request, written out. About the root directory: READDIR (15) lists one
      directory (mode 0x41A4) for every registered client, in order; ACCESS (2) succeeds for modes 0 to 7
      and is invalid (22) otherwise; RENAME (8) is not permitted (1); and everything else, and all about
      other owners, is not found (2). */
  ghost predicate OwnReply(r: Request, clients: seq<Client>, p: Packet) {
    && p.magic == 1800 && p.body.RspBody?
    && var rsp := p.body.rsp;
       if r.rsrc.path != [] then rsp == RspError(2)
       else
         match r.typ
         case 15 =>
           && rsp.RspDir? && Value(rsp.count) == |rsp.ents| == |clients|
           && forall i :: 0 <= i < |clients| ==> rsp.ents[i] == Dirent(clients[i].username, 0x41A4)
         case 2 => rsp == if 0 <= r.mode <= 7 then RspOk else RspError(22)
         case 8 => rsp == RspError(1)
         case _ => rsp == RspError(2)
  }

  lemma HereAnswerMeans(r: Request, clients: seq<Client>)
    requires |clients| < WIDE_LIMIT
    ensures OwnReply(r, clients, HereAnswer(r, clients))
    ensures ValidPacket(HereAnswer(r, clients))
  {
    hide Value, ToWide;
  }

  // ---- handlers ----

  /** The requester's descriptor becomes the one to write to. */
  function Turned(s: Sock): Sock {
    s.(state := RspWr, out := s.out.(fd := s.inp.fd), inp := s.inp.(fd := -1))
  }

  function Queued(s: Sock, bytes: seq<byte>): Sock { s.(out := s.out.(buf := s.out.buf + bytes)) }

  /** `getpeername` knows an address. */
  predicate HasPeer(addr: Address) { addr.Inbound? || addr.Outbound? }

  /** The registry with a client added, in the order qsort leaves. */
  ghost function Enlisted(clients: seq<Client>, c: Client, sorted: seq<Client>): (r: seq<Client>)
    ensures Sorted(r) && Bag(r) == Bag(clients) + multiset{c} && |r| == |clients| + 1
  {
    BagSize(clients, c);
    if Sorted(sorted) && Bag(sorted) == Bag(clients) + multiset{c} then BagSizes(sorted, clients + [c]); sorted
    else Sort(clients + [c])
  }

  lemma BagSize(s: seq<Client>, c: Client)
    ensures Bag(s + [c]) == Bag(s) + multiset{c}
  {
  }

  lemma BagSizes(a: seq<Client>, b: seq<Client>)
    requires Bag(a) == Bag(b)
    ensures |a| == |b|
  {
    assert |multiset(a)| == |a| && |multiset(b)| == |b|;
  }

  /** `handle_connect`: if the peer's address can be had and there is room, the client is added to the
      registry. The connection ends either way. */
  ghost function HandleConnect(v: View, c: Connect, ch: Choice): (Verdict, View) {
    var fd := v.sock.inp.fd;
    if fd in v.kernel && HasPeer(v.kernel[fd].addr) && ch.ok && |v.clients| + 1 < WIDE_LIMIT then
      (Del, v.(clients := Enlisted(v.clients, Client(c.name, v.kernel[fd].addr.ip, c.port), ch.sorted)))
    else (Del, v)
  }

  /** The client `client_find` comes back with. */
  ghost function Recipient(s: seq<Client>, name: cstr, found: nat): (c: Client)
    requires Registered(s, name)
    ensures c in s && c.username == name
  {
    if found < |s| && s[found].username == name then s[found]
    else
      var i :| 0 <= i < |s| && s[i].username == name;
      s[i]
  }

  /** `handle_req_rd_fin_root`, with the packet to send. */
  ghost function HandleReqRdFinRoot(v: View, r: Request): (View, Packet)
    requires |v.clients| < WIDE_LIMIT
  {
    (v.(story := Here(v.clients), sock := Turned(v.sock)), Packet(MAGIC, RspBody(RootAnswer(r, v.clients))))
  }

  /** `handle_req_rd_fin_peer`, with the packet to send: ENOENT to the requester, or the request to the
      address of the client found. When connect fails, the descriptor socket made stays open. */
  ghost function HandleReqRdFinPeer(v: View, p: Packet, ch: Choice): (r: (Verdict, View, Packet))
    requires p.body.ReqBody?
    ensures r.0 == Suc || r.0 == Del
  {
    var owner := p.body.req.rsrc.owner;
    var s := v.sock;
    if !Registered(v.clients, owner) then
      (Suc, v.(story := Here(v.clients), sock := Turned(s)), Packet(MAGIC, RspBody(RspError(ENOENT))))
    else if ch.fd < 0 then (Del, v.(sock := s.(state := ReqFwd)), p)
    else if !ch.ok then
      (Del, v.(sock := s.(state := ReqFwd), kernel := v.kernel[ch.fd := Stream(Unconnected, [], 0, [])]), p)
    else
      var to := Recipient(v.clients, owner, ch.found);
      (Suc, v.(story := Forwarded(to),
               sock := s.(state := ReqFwd, out := s.out.(fd := ch.fd)),
               kernel := v.kernel[ch.fd := Stream(Outbound(to.ip, Htons(to.port)), ch.script, 0, [])]), p)
  }

  /** `handle_req_rd_fin` */
  ghost function HandleReqRdFin(v: View, p: Packet, ch: Choice): (Verdict, View)
    requires p.body.ReqBody? && |v.clients| < WIDE_LIMIT
  {
    var (verdict, u, out) :=
      if RootTest(p.body.req) then
        var (root, reply) := HandleReqRdFinRoot(v, p.body.req);
        (Suc, root, reply)
      else HandleReqRdFinPeer(v, p, ch);
    (verdict, if verdict == Suc then u.(sock := Queued(u.sock, Encode(out))) else u)
  }

  ghost function HandleRspRdFin(v: View, p: Packet): (Verdict, View) {
    var s := v.sock;
    if s.state != RspFwd then (Crash, v)
    else (Suc, v.(sock := Queued(s.(state := RspWr), Encode(p))))
  }

  /** The server's `handle_pkt_rd_fin`. */
  ghost function ServerRdFin(v: View, p: Packet, ch: Choice): (Verdict, View)
    requires |v.clients| < WIDE_LIMIT
  {
    match p.body
    case ConnBody(c) => HandleConnect(v, c, ch)
    case ReqBody(_) => HandleReqRdFin(v, p, ch)
    case RspBody(_) => HandleRspRdFin(v, p)
    case Bare(t) => if t == PKT_DISCONNECT then (Crash, v) else (Del, v)
  }

  /** The responder's `handle_pkt_rd_fin`: requests it has a handler for are answered. */
  ghost function ClientRdFin(v: View, p: Packet, ch: Choice): (Verdict, View) {
    if v.sock.state != ReqRd then (Crash, v)
    else if p.body.ReqBody? && Implemented(p.body.req.typ) then
      (Suc, v.(story := Replied(ch.os), sock := Turned(Queued(v.sock, Encode(ReplyPacket(p.body.req, ch.os))))))
    else (Del, v)
  }

  ghost function HandlePktRdFin(v: View, p: Packet, ch: Choice): (Verdict, View)
    requires |v.clients| < WIDE_LIMIT
  {
    if v.hi.ServerHi? then ServerRdFin(v, p, ch) else ClientRdFin(v, p, ch)
  }

  ghost function HandlePktWrFin(v: View): (Verdict, View) {
    var s := v.sock;
    if v.hi.ClientHi? then (if s.state == RspWr then Del else Crash, v)
    else if s.state == ReqFwd then
      (Suc, v.(sock := s.(state := RspFwd, inp := s.inp.(fd := s.out.fd), out := s.out.(fd := s.inp.fd))))
    else if s.state == RspWr then (Del, v.(sock := s.(state := StClosed)))
    else (Del, v)
  }

  /** The bytes one read delivers. */
  function Chunk(st: Stream, limit: nat): (r: seq<byte>)
    ensures st.got <= |st.script| ==>
      |r| == Min(limit, |st.script| - st.got) && r <= st.script[st.got..]
  {
    if st.got <= |st.script| then st.script[st.got..][..Min(limit, |st.script| - st.got)] else []
  }

  function ReadFrom(v: View, limit: nat): View
    requires v.sock.inp.fd in v.kernel
  {
    var s := v.sock;
    var st := v.kernel[s.inp.fd];
    var chunk := Chunk(st, limit);
    v.(sock := s.(inp := s.inp.(buf := s.inp.buf + chunk)),
       kernel := v.kernel[s.inp.fd := st.(got := st.got + |chunk|)])
  }

  /** `handle_pkt_rd`: only when the packet in the buffer is complete is it taken off and handled. */
  ghost function HandlePktRd(v: View, ch: Choice): (Verdict, View)
    requires |v.clients| < WIDE_LIMIT
  {
    if !v.sock.revents.pin then (Crash, v)
    else if v.sock.inp.fd !in v.kernel || ch.fail then (Del, v)
    else
      var u := ReadFrom(v, ch.limit);
      if Chunk(v.kernel[v.sock.inp.fd], ch.limit) == [] then (Del, u)
      else
        match ParsePacket(u.sock.inp.buf)
        case Unknown => (Crash, u)
        case More => (Suc, u)
        case Done(p, n) =>
          HandlePktRdFin(u.(sock := u.sock.(inp := u.sock.inp.(buf := u.sock.inp.buf[n..]))), p, ch)
  }

  function WriteTo(v: View, limit: nat): View
    requires v.sock.out.fd in v.kernel
  {
    var s := v.sock;
    var st := v.kernel[s.out.fd];
    var n := Min(limit, |s.out.buf|);
    v.(sock := s.(out := s.out.(buf := s.out.buf[n..])),
       kernel := v.kernel[s.out.fd := st.(put := st.put + s.out.buf[..n])])
  }

  ghost function HandlePktWr(v: View, ch: Choice): (Verdict, View) {
    if !v.sock.revents.pout then (Crash, v)
    else if v.sock.out.fd !in v.kernel || ch.fail then (Del, v)
    else
      var u := WriteTo(v, ch.limit);
      if Min(ch.limit, |v.sock.out.buf|) > 0 then (Suc, u) else HandlePktWrFin(u)
  }

  ghost function HandlePktEvent(v: View, ch: Choice): (Verdict, View)
    requires |v.clients| < WIDE_LIMIT
  {
    if v.sock.revents == QUIET then (Suc, v)
    else
      match v.sock.state
      case ReqRd => HandlePktRd(v, ch)
      case RspFwd => HandlePktRd(v, ch)
      case RspWr => HandlePktWr(v, ch)
      case ReqFwd => HandlePktWr(v, ch)
      case _ => (Crash, v)
  }

  ghost function HandleSocketEvent(v: View, ch: Choice): (Verdict, View)
    requires |v.clients| < WIDE_LIMIT
  {
    if !IsOpen(v.sock) then (Suc, v)
    else
      match v.sock.typ
      case PktIn => HandlePktEvent(v, ch)
      case Lstn => if !v.sock.revents.pin then (Suc, v) else if ch.fd < 0 then (Del, v) else (New, v)
      case _ => (Crash, v)
  }

  // ---- the table ----

  function Fds(s: Sock): set<int> {
    (if s.inp.fd >= 0 then {s.inp.fd} else {}) + (if s.out.fd >= 0 then {s.out.fd} else {})
  }

  /** `middfs_sockinfo_delete`: a tombstone. */
  function Deleted(s: Sock): Sock {
    s.(typ := NoneType, inp := s.inp.(fd := -1), out := s.out.(fd := -1))
  }

  function Remove(w: World, i: nat): World
    requires i < |w.table|
  {
    w.(table := w.table[i := Deleted(w.table[i])], kernel := w.kernel - Fds(w.table[i]))
  }

  function ViewOf(w: World, i: nat): View
    requires i < |w.table| == |w.stories|
  {
    View(w.hi, w.table[i], w.stories[i], w.clients, w.kernel)
  }

  function Store(w: World, i: nat, v: View): World
    requires i < |w.table| == |w.stories|
  {
    World(v.hi, w.table[i := v.sock], w.stories[i := v.story], v.clients, v.kernel)
  }

  function Accept(w: World, fd: int, ip: cstr, script: seq<byte>): World {
    World(w.hi, w.table + [NewSock(PktIn, ReqRd, fd)], w.stories + [Undecided], w.clients,
          w.kernel[fd := Stream(Inbound(ip), script, 0, [])])
  }

  datatype Outcome = Running(world: World) | Crashed

  ghost predicate Sane(w: World) { |w.table| == |w.stories| && |w.clients| < WIDE_LIMIT }

  /** One turn of the loop in `server_loop`. */
  ghost function HandleEntry(w: World, i: nat, ch: Choice): Outcome
    requires Sane(w) && i < |w.table|
  {
    var (verdict, v) := HandleSocketEvent(ViewOf(w, i), ch);
    match verdict
    case Suc => Running(Store(w, i, v))
    case New => Running(Accept(Store(w, i, v), ch.fd, ch.ip, ch.script))
    case Del => Running(Remove(Store(w, i, v), i))
    case Crash => Crashed
  }

  // ---- polling ----

  predicate Pollable(s: Sock) { s.typ != NoneType && (ReadsIn(s.state) || WritesOut(s.state)) }

  /** The number of pollfds the first `i` entries need; the slot of entry `i`, if it needs one. */
  function Slots(table: seq<Sock>, i: nat): nat
    requires i <= |table|
  {
    if i == 0 then 0 else Slots(table, i - 1) + if Pollable(table[i - 1]) then 1 else 0
  }

  /** The events asked for, and what the kernel reports of an answer. */
  function Wanted(s: Sock): Revents { Revents(ReadsIn(s.state), WritesOut(s.state), false, false) }

  function Mask(r: Revents, wanted: Revents): Revents {
    Revents(r.pin && wanted.pin, r.pout && wanted.pout, r.perr, r.phup)
  }

  /** The entry with the revents pointer of the end that is polled. */
  function Slotted(s: Sock, k: nat): Sock {
    if !Pollable(s) then s
    else if ReadsIn(s.state) then s.(inp := s.inp.(slot := k))
    else s.(out := s.out.(slot := k))
  }

  predicate Hung(r: Revents) { r.perr || r.phup }

  /** `middfs_sockinfo_check` on an entry whose polled end was answered `r`. */
  function Checked(s: Sock, r: Revents): Sock {
    if (ReadsIn(s.state) && s.inp.fd >= 0) || (WritesOut(s.state) && s.out.fd >= 0)
    then if Hung(r) then Deleted(s) else s.(revents := r)
    else s.(revents := QUIET)
  }

  /** The entry after a poll that answered `r` for it. */
  function PolledSock(table: seq<Sock>, i: nat, r: Revents): Sock
    requires i < |table|
  {
    Checked(Slotted(table[i], Slots(table, i)), r)
  }

  /** poll(2) returns only requested events, errors and hang-ups. */
  predicate Requested(s: Sock, r: Revents) {
    (ReadsIn(s.state) ==> !r.pout) && (WritesOut(s.state) ==> !r.pin)
  }

  /** The table with the first `n` entries polled and checked. */
  function PolledTable(table: seq<Sock>, n: nat, rs: seq<Revents>): (t: seq<Sock>)
    requires n <= |table| && n <= |rs|
    ensures |t| == |table|
    ensures forall j :: 0 <= j < |table| ==> t[j] == if j < n then PolledSock(table, j, rs[j]) else table[j]
  {
    seq(|table|, j requires 0 <= j < |table| => if j < n then PolledSock(table, j, rs[j]) else table[j])
  }

  /** What stays open: entries that hung up are closed. */
  function PolledKernel(w: World, n: nat, rs: seq<Revents>): map<int, Stream>
    requires n <= |w.table| && n <= |rs|
  {
    if n == 0 then w.kernel
    else PolledKernel(w, n - 1, rs) - (Fds(w.table[n - 1]) - Fds(PolledSock(w.table, n - 1, rs[n - 1])))
  }

  function PollEntries(w: World, n: nat, rs: seq<Revents>): (w': World)
    requires n <= |w.table| && n <= |rs|
    ensures w'.hi == w.hi && w'.table == PolledTable(w.table, n, rs)
    ensures w'.stories == w.stories && w'.clients == w.clients
  {
    World(w.hi, PolledTable(w.table, n, rs), w.stories, w.clients, PolledKernel(w, n, rs))
  }
}
