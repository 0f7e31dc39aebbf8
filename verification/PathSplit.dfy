/** Splitting a MiddFS path into the owner and the path below the owner's directory, and why the
    server may decide "root" by looking at the path part. */
module PathSplit {
  import opened Wire
  import opened Packet
  import opened Decode
  import opened Codec

  const SLASH: byte := 47

  function Slashes(n: nat): (s: cstr)
    ensures |s| == n && forall k :: 0 <= k < n ==> s[k] == SLASH
  {
    if n == 0 then [] else [SLASH] + Slashes(n - 1)
  }

  /** `path` consists of slashes, an owner without slashes, and the rest. */
  ghost predicate Parts(path: cstr, n: nat, owner: cstr, rest: cstr) {
    && n >= 1 && path == Slashes(n) + owner + rest
    && SLASH !in owner
    && (rest == [] || (owner != [] && rest[0] == SLASH))
  }

  /** The resource those parts stand for. */
  function Resource(owner: cstr, rest: cstr): Rsrc {
    if owner == [] then NO_RSRC else Rsrc(owner, if rest == [] then [SLASH] else rest)
  }

  ghost predicate SplitsInto(path: cstr, r: Rsrc) {
    exists n: nat, owner: cstr, rest: cstr :: Parts(path, n, owner, rest) && r == Resource(owner, rest)
  }

  /** The split written out (47 is the slash): a path of slashes is the root; otherwise the owner is what
      stands between the leading slashes and the next one, and the path is the rest from there on, or a
      single slash if nothing is left. */
  ghost predicate IsSplit(path: cstr, r: Rsrc) {
    if forall k :: 0 <= k < |path| ==> path[k] == 47 then r == Rsrc([], [])
    else exists n: nat, m: nat :: OwnerStands(path, n, m) && r == Between(path, n, m)
  }

  function Between(path: cstr, n: nat, m: nat): Rsrc
    requires n <= m <= |path|
  {
    Rsrc(path[n..m], if m == |path| then [47] else path[m..])
  }

  ghost predicate OwnerStands(path: cstr, n: nat, m: nat) {
    && 0 < n < m <= |path|
    && (forall k :: 0 <= k < n ==> path[k] == 47)
    && (forall k :: n <= k < m ==> path[k] != 47)
    && (m == |path| || path[m] == 47)
  }

  /** The first position at or after `i` that is not (`slashes` true) or is (`slashes` false) a slash. */
  method Span(s: cstr, i: nat, slashes: bool) returns (j: nat)
    requires i <= |s|
    ensures i <= j <= |s|
    ensures forall k :: i <= k < j ==> (s[k] == SLASH) == slashes
    ensures j < |s| ==> (s[j] == SLASH) != slashes
  {
    j := i;
    while j < |s| && (s[j] == SLASH) == slashes
      invariant i <= j <= |s|
      invariant forall k :: i <= k < j ==> (s[k] == SLASH) == slashes
    {
      j := j + 1;
    }
  }

  datatype Kind = Network | Local | Root

  class ClientRsrc {
    var kind: Kind
    var rsrc: Rsrc
    var fd: int

    constructor ()
      ensures fd == -1
    {
      kind, rsrc, fd := Root, NO_RSRC, -1;
    }

    /** `client_rsrc_init`: refuses relative paths and otherwise stores the unique split. */
    method Init(path: cstr, username: cstr) returns (retv: int)
      modifies this
      ensures retv == -22 || retv == 0
      ensures retv == 0 <==> path != [] && path[0] == 47
      ensures retv == 0 ==> SplitsInto(path, rsrc) && IsSplit(path, rsrc) && fd == -1
      ensures retv == 0 ==> (kind == Root <==> rsrc.owner == [])
      ensures retv == 0 ==> (kind == Local <==> rsrc.owner != [] && rsrc.owner == username)
      ensures retv != 0 ==> unchanged(this)
    {
      var begin := Span(path, 0, true);
      if begin == 0 {
        return -(EINVAL as int);
      }
      assert path[..begin] == Slashes(begin);
      if begin == |path| {
        rsrc, kind := NO_RSRC, Root;
        assert Parts(path, begin, [], []);
      } else {
        var end := Span(path, begin, false);
        var owner, rest := path[begin..end], path[end..];
        assert path == path[..begin] + owner + rest;
        assert Parts(path, begin, owner, rest);
        rsrc := Rsrc(owner, if end == |path| then [SLASH] else rest);
        assert rsrc == Resource(owner, rest);
        assert OwnerStands(path, begin, end) && rsrc == Between(path, begin, end);
        kind := if owner != username then Network else Local;
      }
      fd := -1;
      retv := 0;
    }
  }

  // ---- the shape of a resource ----

  /** Where the slashes and the owner end in the path. */
  lemma PartsAt(path: cstr, n: nat, owner: cstr, rest: cstr)
    requires Parts(path, n, owner, rest)
    ensures var m := n + |owner|;
      && m <= |path| && owner == path[n..m] && rest == path[m..]
      && (forall k :: 0 <= k < n ==> path[k] == SLASH)
      && (n < |path| ==> path[n] != SLASH)
      && (forall k :: n <= k < m ==> path[k] != SLASH)
      && (n < m < |path| ==> path[m] == SLASH)
  {
    forall k | n <= k < n + |owner|
      ensures path[k] == owner[k - n]
    {
    }
  }

  lemma SplitIsWritten(path: cstr, r: Rsrc)
    requires SplitsInto(path, r)
    ensures path != [] && path[0] == 47 && IsSplit(path, r)
  {
    var n: nat, o: cstr, e: cstr :| Parts(path, n, o, e) && r == Resource(o, e);
    PartsAt(path, n, o, e);
    if o != [] {
      assert OwnerStands(path, n, n + |o|);
      assert path[n] != 47;
    }
  }

  lemma WrittenOwner(path: cstr, n: nat, m: nat)
    requires OwnerStands(path, n, m)
    ensures Parts(path, n, path[n..m], path[m..])
  {
    assert path[..n] == Slashes(n);
    assert path == path[..n] + path[n..m] + path[m..];
  }

  lemma WrittenIsSplit(path: cstr, r: Rsrc)
    requires path != [] && path[0] == 47 && IsSplit(path, r)
    ensures SplitsInto(path, r)
  {
    hide Parts;
    if forall k :: 0 <= k < |path| ==> path[k] == 47 {
      AllSlashes(path);
    } else {
      var n: nat, m: nat :| OwnerStands(path, n, m) && r == Between(path, n, m);
      WrittenOwner(path, n, m);
      assert r == Resource(path[n..m], path[m..]);
    }
  }

  lemma AllSlashes(path: cstr)
    requires path != [] && forall k :: 0 <= k < |path| ==> path[k] == 47
    ensures Parts(path, |path|, [], [])
  {
    assert path == Slashes(|path|) + [] + [];
  }

  /** Splitting is what is written out. */
  lemma SplitMeans(path: cstr, r: Rsrc)
    ensures SplitsInto(path, r) <==> path != [] && path[0] == 47 && IsSplit(path, r)
  {
    hide SplitsInto, IsSplit;
    if SplitsInto(path, r) {
      SplitIsWritten(path, r);
    }
    if path != [] && path[0] == 47 && IsSplit(path, r) {
      WrittenIsSplit(path, r);
    }
  }

  /** A path determines its resource. */
  lemma SplitUnique(path: cstr, r: Rsrc, s: Rsrc)
    requires SplitsInto(path, r) && SplitsInto(path, s)
    ensures r == s
  {
    var n: nat, o: cstr, e: cstr :| Parts(path, n, o, e) && r == Resource(o, e);
    var n': nat, o': cstr, e': cstr :| Parts(path, n', o', e') && s == Resource(o', e');
    PartsAt(path, n, o, e);
    PartsAt(path, n', o', e');
    hide Parts, Resource;
    assert n == n' && n + |o| == n' + |o'|;
  }

  /** The resources a client can name: no slash in the owner, and the path part is empty exactly
      for the root and starts with a slash otherwise. */
  predicate Nameable(r: Rsrc) {
    && SLASH !in r.owner
    && (r.owner == [] <==> r.path == [])
    && (r.path != [] ==> r.path[0] == SLASH)
  }

  lemma SplitShape(path: cstr, r: Rsrc)
    requires SplitsInto(path, r)
    ensures Nameable(r)
    ensures r.path == [] <==> forall k :: 0 <= k < |path| ==> path[k] == SLASH
  {
    var n: nat, o: cstr, e: cstr :| Parts(path, n, o, e) && r == Resource(o, e);
    PartsAt(path, n, o, e);
  }

  function Rejoin(r: Rsrc): cstr { [SLASH] + r.owner + r.path }

  /** Every such resource is the split of its re-joined path, so re-joining and re-splitting is the
      identity. */
  lemma RejoinSplits(r: Rsrc)
    requires Nameable(r)
    ensures SplitsInto(Rejoin(r), r)
  {
    assert Slashes(1) == [SLASH];
    assert Parts(Rejoin(r), 1, r.owner, r.path);
    assert r == Resource(r.owner, r.path);
  }

  // ---- the server's root decision ----

  /** On every path a client can send, and after the trip over the wire, the decision is about
      the owner. */
  lemma RootDecision(path: cstr, p: Packet, rest: seq<byte>)
    requires ValidPacket(p) && WriteFits(p) && p.body.ReqBody? && SplitsInto(path, p.body.req.rsrc)
    ensures var q := ParsePacket(Encode(p) + rest);
      && q.Done? && q.val.body.ReqBody? && q.val.body.req.rsrc == p.body.req.rsrc
      && (RootTest(q.val.body.req) <==> q.val.body.req.rsrc.owner == [])
      && (RootTest(q.val.body.req) <==> forall k :: 0 <= k < |path| ==> path[k] == SLASH)
  {
    RoundTrip(p, rest);
    SplitShape(path, p.body.req.rsrc);
  }

  /** A resource with an owner but no path would be taken for the root; no path splits into one. */
  lemma RootTestMistaken(r: Request)
    requires r.rsrc.owner != [] && r.rsrc.path == []
    ensures RootTest(r) && forall path :: !SplitsInto(path, r.rsrc)
  {
    forall path
      ensures !SplitsInto(path, r.rsrc)
    {
      if SplitsInto(path, r.rsrc) {
        SplitShape(path, r.rsrc);
      }
    }
  }
}
