/** `middfs_socks_pack`: moving the open sockets to the front of the table, in place. */
module Packing {
  import opened Wire
  import opened Relay

  /** The open entries, in their order. */
  function Opens(s: seq<Sock>): (r: seq<Sock>)
    ensures |r| <= |s|
  {
    if s == [] then [] else (if IsOpen(s[0]) then [s[0]] else []) + Opens(s[1..])
  }

  /** How many entries at the front are open. */
  function LeadingRun(s: seq<Sock>): (n: nat)
    ensures n <= |s| && (forall k :: 0 <= k < n ==> IsOpen(s[k])) && (n < |s| ==> !IsOpen(s[n]))
  {
    if s == [] || !IsOpen(s[0]) then 0 else 1 + LeadingRun(s[1..])
  }

  lemma {:induction false} OpensConcat(a: seq<Sock>, b: seq<Sock>)
    ensures Opens(a + b) == Opens(a) + Opens(b)
    decreases |a|
  {
    hide IsOpen;
    if a == [] {
      assert a + b == b;
    } else {
      OpensConcat(a[1..], b);
      assert (a + b)[0] == a[0] && (a + b)[1..] == a[1..] + b;
      var head := if IsOpen(a[0]) then [a[0]] else [];
      assert head + (Opens(a[1..]) + Opens(b)) == head + Opens(a[1..]) + Opens(b);
    }
  }

  lemma {:induction false} OpensNone(s: seq<Sock>)
    ensures Opens(s) == [] <==> forall k :: 0 <= k < |s| ==> !IsOpen(s[k])
    decreases |s|
  {
    if s != [] {
      OpensNone(s[1..]);
    }
  }

  lemma {:induction false} OpensAll(s: seq<Sock>)
    requires forall k :: 0 <= k < |s| ==> IsOpen(s[k])
    ensures Opens(s) == s
    decreases |s|
  {
    if s != [] {
      OpensAll(s[1..]);
    }
  }

  /** The source of a move becomes a closed entry; its last events stay. */
  function Vacated(s: Sock): (v: Sock)
    ensures !IsOpen(v) && v.typ == NoneType
  {
    NewSock(NoneType, StNone, -1).(revents := s.revents)
  }

  /** Every entry that is not open is marked as unused. */
  predicate Tombstones(s: seq<Sock>) {
    forall k :: 0 <= k < |s| && !IsOpen(s[k]) ==> s[k].typ == NoneType
  }

  /** Moving the first open entry behind a gap into the gap changes nothing about the open ones. */
  lemma MoveKeepsOpens(s: seq<Sock>, gap: nat, from: nat)
    requires gap < from < |s| && IsOpen(s[from])
    requires forall k :: gap <= k < from ==> !IsOpen(s[k])
    ensures Opens(s[gap := s[from]][from := Vacated(s[from])]) == Opens(s)
  {
    hide Opens, IsOpen, Vacated;
    var t := s[gap := s[from]][from := Vacated(s[from])];
    var a, b := s[..gap], s[from + 1..];
    assert s == a + (s[gap..from] + ([s[from]] + b));
    assert t == a + ([s[from]] + (t[gap + 1..from + 1] + b));
    OpensNone(s[gap..from]);
    OpensNone(t[gap + 1..from + 1]);
    OpensConcat(a, s[gap..from] + ([s[from]] + b));
    OpensConcat(s[gap..from], [s[from]] + b);
    OpensConcat(a, [s[from]] + (t[gap + 1..from + 1] + b));
    OpensConcat(t[gap + 1..from + 1], b);
    OpensConcat([s[from]], b);
    OpensConcat([s[from]], t[gap + 1..from + 1] + b);
  }

  /** An open front with nothing open behind it is all there is. */
  lemma FrontIsAll(s: seq<Sock>, n: nat)
    requires n <= |s| && (forall k :: 0 <= k < n ==> IsOpen(s[k])) && (forall k :: n <= k < |s| ==> !IsOpen(s[k]))
    ensures Opens(s) == s[..n]
  {
    hide Opens, IsOpen;
    assert s == s[..n] + s[n..];
    OpensConcat(s[..n], s[n..]);
    OpensAll(s[..n]);
    OpensNone(s[n..]);
  }

  /** The open entries end up at the front in their old order and nothing behind them is open. The
      count returned, and stored in the table, is only that of the entries that were at the front
      already. */
  method SocksPack(sockinfos: array<Sock>, count: nat) returns (nopen: nat)
    requires count <= sockinfos.Length
    modifies sockinfos
    ensures var s := old(sockinfos[..count]); var n := |Opens(s)|;
      && n <= count && sockinfos[..n] == Opens(s)
      && (forall k :: n <= k < count ==> !IsOpen(sockinfos[k]))
      && nopen == LeadingRun(s)
      && (Tombstones(s) ==> Tombstones(sockinfos[..count]))
    ensures sockinfos[count..] == old(sockinfos[count..])
  {
    hide Opens, IsOpen, Vacated, LeadingRun;
    ghost var s := sockinfos[..count];
    ghost var packed := 0;
    ghost var done := false;
    nopen := 0;
    for closed := 0 to count
      invariant sockinfos[count..] == old(sockinfos[count..])
      invariant Opens(sockinfos[..count]) == Opens(s)
      invariant Tombstones(s) ==> Tombstones(sockinfos[..count])
      invariant nopen == Min(closed, LeadingRun(s))
      invariant closed <= LeadingRun(s) ==> sockinfos[..count] == s
      invariant closed > LeadingRun(s) && closed < count ==> !IsOpen(sockinfos[closed])
      invariant packed <= closed && (!done ==> packed == closed)
      invariant forall k :: 0 <= k < packed ==> IsOpen(sockinfos[k])
      invariant done ==> forall k :: packed <= k < count ==> !IsOpen(sockinfos[k])
    {
      assert closed < LeadingRun(s) ==> sockinfos[..count][closed] == s[closed];
      assert closed == LeadingRun(s) ==> sockinfos[..count][closed] == s[closed];
      if !IsOpen(sockinfos[closed]) {
        var open := closed + 1;
        while open < count && !IsOpen(sockinfos[open])
          invariant closed < open <= count
          invariant forall k :: closed <= k < open ==> !IsOpen(sockinfos[k])
        {
          open := open + 1;
        }
        if open < count {
          ghost var before := sockinfos[..count];
          MoveKeepsOpens(before, closed, open);
          sockinfos[closed] := sockinfos[open];
          sockinfos[open] := Vacated(sockinfos[open]);
          assert sockinfos[..count] == before[closed := before[open]][open := Vacated(before[open])];
          packed := packed + 1;
        } else {
          done := true;
        }
      } else {
        nopen := nopen + 1;
        packed := packed + 1;
      }
    }
    FrontIsAll(sockinfos[..count], packed);
  }

  /** So the count is that of the open entries exactly when the table had no gap to close. */
  lemma {:induction false} CountExact(s: seq<Sock>)
    ensures LeadingRun(s) == |Opens(s)| <==> forall i, j :: 0 <= i < j < |s| && IsOpen(s[j]) ==> IsOpen(s[i])
  {
    hide Opens, LeadingRun, IsOpen;
    var n := LeadingRun(s);
    assert s == s[..n] + s[n..];
    OpensConcat(s[..n], s[n..]);
    OpensAll(s[..n]);
    OpensNone(s[n..]);
    forall k | 0 <= k < |s| - n
      ensures s[n..][k] == s[n + k]
    {
    }
    forall j | n <= j < |s|
      ensures s[j] == s[n..][j - n]
    {
    }
  }
}
