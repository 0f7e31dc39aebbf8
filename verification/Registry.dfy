/** The server's list of connected clients: a vector kept sorted by user name and searched by
    bisection. */
module Registry {
  import opened Wire
  import opened Packet

  datatype Client = Client(username: cstr, ip: cstr, port: u32)

  // ---- strcmp ----

  function StrCmp(a: cstr, b: cstr): int {
    if a == [] then if b == [] then 0 else -1
    else if b == [] then 1
    else if a[0] < b[0] then -1
    else if a[0] > b[0] then 1
    else StrCmp(a[1..], b[1..])
  }

  lemma {:induction false} StrCmpZero(a: cstr, b: cstr)
    ensures StrCmp(a, b) == 0 <==> a == b
    decreases |a|
  {
    if a != [] && b != [] && a[0] == b[0] {
      StrCmpZero(a[1..], b[1..]);
      assert a == [a[0]] + a[1..] && b == [b[0]] + b[1..];
    }
  }

  lemma {:induction false} StrCmpFlips(a: cstr, b: cstr)
    ensures StrCmp(a, b) == -StrCmp(b, a)
    decreases |a|
  {
    if a != [] && b != [] && a[0] == b[0] {
      StrCmpFlips(a[1..], b[1..]);
    }
  }

  lemma {:induction false} StrCmpTransitive(a: cstr, b: cstr, c: cstr)
    requires StrCmp(a, b) <= 0 && StrCmp(b, c) <= 0
    ensures StrCmp(a, c) <= 0
    ensures StrCmp(a, c) == 0 ==> StrCmp(a, b) == 0 && StrCmp(b, c) == 0
    decreases |a|
  {
    if a != [] && b != [] && c != [] && a[0] == b[0] == c[0] {
      StrCmpTransitive(a[1..], b[1..], c[1..]);
    }
  }

  /** The order is that of the bytes: `a` comes before `b` exactly if it is a proper prefix of it, or has
      the smaller byte where they first differ. */
  lemma {:induction false} StrCmpMeans(a: cstr, b: cstr)
    ensures StrCmp(a, b) < 0 <==> exists k :: 0 <= k <= |a| && Precedes(a, b, k)
    decreases |a|
  {
    if a != [] && b != [] && a[0] == b[0] {
      StrCmpMeans(a[1..], b[1..]);
      forall k | 0 <= k < |a|
        ensures Precedes(a, b, k + 1) <==> Precedes(a[1..], b[1..], k)
      {
        PrecedesTail(a, b, k);
      }
      assert !Precedes(a, b, 0);
      if k :| 0 <= k <= |a| && Precedes(a, b, k) {
        assert Precedes(a[1..], b[1..], k - 1);
      }
      if k :| 0 <= k <= |a| - 1 && Precedes(a[1..], b[1..], k) {
        assert Precedes(a, b, k + 1);
      }
    } else {
      assert StrCmp(a, b) < 0 ==> Precedes(a, b, 0);
    }
  }

  /** The first `k` bytes agree, and then `a` ends before `b` or has the smaller byte. */
  predicate Precedes(a: cstr, b: cstr, k: nat) {
    k <= |a| && k < |b| && a[..k] == b[..k] && (k == |a| || a[k] < b[k])
  }

  lemma PrecedesTail(a: cstr, b: cstr, k: nat)
    requires a != [] && b != [] && a[0] == b[0] && k < |a|
    ensures Precedes(a, b, k + 1) <==> Precedes(a[1..], b[1..], k)
  {
    if k < |b| {
      assert a[..k + 1] == [a[0]] + a[1..][..k];
      if k + 1 <= |b| {
        assert b[..k + 1] == [b[0]] + b[1..][..k];
        assert a[1..][..k] == a[..k + 1][1..] && b[1..][..k] == b[..k + 1][1..];
      }
    }
  }

  ghost predicate Sorted(s: seq<Client>) {
    forall i, j :: 0 <= i < j < |s| ==> StrCmp(s[i].username, s[j].username) <= 0
  }

  /** What is registered, without its order. */
  ghost function Bag(s: seq<Client>): multiset<Client> { multiset(s) }

  // ---- qsort ----

  function Insert(s: seq<Client>, c: Client): (r: seq<Client>)
    requires Sorted(s)
    ensures Sorted(r) && multiset(r) == multiset(s) + multiset{c}
  {
    if s == [] then [c]
    else if StrCmp(c.username, s[0].username) <= 0 then
      InsertFront(s, c);
      [c] + s
    else
      var rest := Insert(s[1..], c);
      InsertBehind(s, c, rest);
      [s[0]] + rest
  }

  lemma InsertFront(s: seq<Client>, c: Client)
    requires Sorted(s) && s != [] && StrCmp(c.username, s[0].username) <= 0
    ensures Sorted([c] + s)
  {
    forall j | 0 < j < |s|
      ensures StrCmp(c.username, s[j].username) <= 0
    {
      StrCmpTransitive(c.username, s[0].username, s[j].username);
    }
  }

  lemma InsertBehind(s: seq<Client>, c: Client, rest: seq<Client>)
    requires Sorted(s) && s != [] && StrCmp(c.username, s[0].username) > 0
    requires Sorted(rest) && multiset(rest) == multiset(s[1..]) + multiset{c}
    ensures Sorted([s[0]] + rest)
    ensures multiset([s[0]] + rest) == multiset(s) + multiset{c}
  {
    assert s == [s[0]] + s[1..];
    StrCmpFlips(c.username, s[0].username);
    forall j | 0 <= j < |rest|
      ensures StrCmp(s[0].username, rest[j].username) <= 0
    {
      assert rest[j] in multiset(rest);
      if rest[j] != c {
        assert rest[j] in s[1..];
      }
    }
  }

  function Sort(s: seq<Client>): (r: seq<Client>)
    ensures Sorted(r) && multiset(r) == multiset(s) && |r| == |s|
  {
    if s == [] then []
    else
      var r := Insert(Sort(s[1..]), s[0]);
      assert s == [s[0]] + s[1..];
      assert |multiset(r)| == |multiset(s)|;
      r
  }

  /** All the program relies on about `qsort`: the first `n` entries become a sorted permutation. */
  method QSort(vec: array<Client>, n: nat)
    requires n <= vec.Length
    modifies vec
    ensures Sorted(vec[..n]) && Bag(vec[..n]) == Bag(old(vec[..n]))
    ensures vec[n..] == old(vec[n..])
  {
    var r := Sort(vec[..n]);
    forall i | 0 <= i < n {
      vec[i] := r[i];
    }
    assert vec[..n] == r;
  }

  lemma MoveLast(s: seq<Client>, i: nat)
    requires i + 1 < |s|
    ensures Bag(s) == Bag(s[i := s[|s| - 1]][..|s| - 1]) + multiset{s[i]}
  {
    var n := |s| - 1;
    assert s == s[..i] + ([s[i]] + (s[i + 1..n] + [s[n]]));
    assert s[i := s[n]][..n] == s[..i] + ([s[n]] + s[i + 1..n]);
  }

  lemma DropLast(s: seq<Client>)
    requires Sorted(s) && s != []
    ensures var n := |s| - 1; Sorted(s[..n]) && Bag(s) == Bag(s[..n]) + multiset{s[n]}
  {
    var n := |s| - 1;
    assert s == s[..n] + [s[n]];
  }

  /** Overwrites an entry with the one behind the first `n`. */
  method Fill(vec: array<Client>, index: nat, n: nat)
    requires index < n < vec.Length
    modifies vec
    ensures vec[..n] == old(vec[..n + 1])[index := old(vec[n])][..n]
  {
    vec[index] := vec[n];
  }

  predicate Registered(s: seq<Client>, name: cstr) {
    exists i :: 0 <= i < |s| && s[i].username == name
  }

  datatype Found = Nowhere | Index(i: nat)

  class Clients {
    /** The allocated vector; `len` is its length. */
    var vec: array<Client>
    var cnt: nat

    ghost predicate Valid()
      reads this, vec
    {
      cnt <= vec.Length && Sorted(vec[..cnt])
    }

    ghost function Contents(): seq<Client>
      reads this, vec
      requires cnt <= vec.Length
    {
      vec[..cnt]
    }

    constructor ()
      ensures Valid() && Contents() == [] && fresh(vec)
    {
      vec := new Client[0];
      cnt := 0;
    }

    /** Overwrites the entry with the last one and sorts again. */
    method Remove(index: nat)
      requires Valid() && index < cnt
      modifies this`cnt, vec
      ensures Valid()
      ensures Bag(old(Contents())) == Bag(Contents()) + multiset{old(Contents())[index]}
      ensures index == old(cnt) - 1 ==> Contents() == old(Contents())[..index]
    {
      hide Sorted, Bag;
      ghost var before := vec[..cnt];
      cnt := cnt - 1;
      if index < cnt {
        Fill(vec, index, cnt);
        MoveLast(before, index);
        QSort(vec, cnt);
      } else {
        DropLast(before);
        assert vec[..cnt] == before[..cnt];
      }
    }

    /** Changes the capacity, dropping the entries that no longer fit. */
    method Resize(newlen: nat)
      requires Valid()
      modifies this, vec
      ensures Valid() && fresh(vec) && vec.Length == newlen
      ensures Contents() == old(Contents())[..Min(old(cnt), newlen)]
    {
      hide Sorted, Bag;
      ghost var before := Contents();
      while cnt > newlen
        invariant Valid() && vec == old(vec)
        invariant Min(old(cnt), newlen) <= cnt <= old(cnt) && Contents() == before[..cnt]
      {
        Remove(cnt - 1);
      }
      ghost var kept := vec[..cnt];
      vec := Realloc(vec, newlen);
      assert vec[..cnt] == kept;
    }

    /** `realloc` */
    static method Realloc(a: array<Client>, newlen: nat) returns (b: array<Client>)
      ensures fresh(b) && b.Length == newlen
      ensures forall k :: 0 <= k < Min(newlen, a.Length) ==> b[k] == a[k]
    {
      b := new Client[newlen](i => Client([], [], 0));
      var n := Min(newlen, a.Length);
      forall i | 0 <= i < n {
        b[i] := a[i];
      }
    }

    method Add(c: Client)
      requires Valid()
      modifies this, vec
      ensures Valid() && (vec == old(vec) || fresh(vec))
      ensures Bag(Contents()) == Bag(old(Contents())) + multiset{c}
    {
      ghost var before := Contents();
      if cnt == vec.Length {
        Resize(Max(1, vec.Length * 2));
      }
      vec[cnt] := c;
      cnt := cnt + 1;
      assert vec[..cnt] == before + [c];
      QSort(vec, cnt);
    }

    /** `bsearch`: finds an entry of that name exactly when there is one. */
    method Find(name: cstr) returns (found: Found)
      requires Valid()
      ensures found.Index? <==> Registered(Contents(), name)
      ensures found.Index? ==> found.i < cnt && vec[found.i].username == name
    {
      var lo, hi := 0, cnt;
      ghost var s := Contents();
      while lo < hi
        invariant lo <= hi <= cnt
        invariant forall k :: 0 <= k < lo ==> s[k].username != name
        invariant forall k :: hi <= k < cnt ==> s[k].username != name
      {
        var mid := (lo + hi) / 2;
        var c := StrCmp(name, vec[mid].username);
        StrCmpZero(name, s[mid].username);
        if c == 0 {
          return Index(mid);
        } else if c < 0 {
          AboveDiffers(s, mid, name);
          hi := mid;
        } else {
          BelowDiffers(s, mid, name);
          lo := mid + 1;
        }
      }
      return Nowhere;
    }

    /** The listing of the root directory: one directory entry a client, in the vector's order. */
    method Readdir() returns (ents: seq<Dirent>)
      requires Valid()
      ensures ents == Listing(Contents())
    {
      ents := [];
      for i := 0 to cnt
        invariant ents == Listing(vec[..i])
      {
        ListingSnoc(vec[..i], vec[i]);
        assert vec[..i + 1] == vec[..i] + [vec[i]];
        ents := ents + [Dirent(vec[i].username, DIR_MODE)];
      }
      assert vec[..cnt] == Contents();
    }
  }

  /** S_IFDIR with mode 0644. */
  const DIR_MODE: i32 := 0x4000 + 0x1A4

  function Listing(s: seq<Client>): (ents: seq<Dirent>)
    ensures |ents| == |s|
    ensures forall i :: 0 <= i < |s| ==> ents[i] == Dirent(s[i].username, DIR_MODE)
  {
    if s == [] then [] else [Dirent(s[0].username, DIR_MODE)] + Listing(s[1..])
  }

  lemma ListingSnoc(s: seq<Client>, c: Client)
    ensures Listing(s + [c]) == Listing(s) + [Dirent(c.username, DIR_MODE)]
  {
  }

  lemma AboveDiffers(s: seq<Client>, mid: nat, name: cstr)
    requires Sorted(s) && mid < |s| && StrCmp(name, s[mid].username) < 0
    ensures forall k :: mid <= k < |s| ==> s[k].username != name
  {
    forall k | mid <= k < |s|
      ensures s[k].username != name
    {
      if k > mid {
        StrCmpTransitive(name, s[mid].username, s[k].username);
      }
      StrCmpZero(name, s[k].username);
    }
  }

  lemma BelowDiffers(s: seq<Client>, mid: nat, name: cstr)
    requires Sorted(s) && mid < |s| && StrCmp(name, s[mid].username) > 0
    ensures forall k :: 0 <= k <= mid ==> s[k].username != name
  {
    StrCmpZero(name, s[mid].username);
  }
}
