/** Encoding and decoding are inverse: what is decoded from an encoding, and what re-encoding a
    decoded packet gives. */
module Exactness {
  import opened Wire
  import opened Packet
  import opened Decode

  /** The fields `fs` stand in `b` at position `i`. */
  ghost predicate At(b: seq<byte>, i: nat, fs: seq<Field>) {
    var e := Flatten(fs);
    i + |e| <= |b| && b[i..i + |e|] == e
  }

  ghost function After(i: nat, fs: seq<Field>): nat { i + |Flatten(fs)| }

  lemma SliceConcat(b: seq<byte>, i: nat, x: seq<byte>, y: seq<byte>)
    requires i + |x| + |y| <= |b|
    ensures b[i..i + |x| + |y|] == x + y <==> b[i..i + |x|] == x && b[i + |x|..i + |x| + |y|] == y
  {
    var m, n := i + |x|, i + |x| + |y|;
    assert b[i..n] == b[i..m] + b[m..n];
    assert b[i..m] == b[i..n][..|x|] && b[m..n] == b[i..n][|x|..];
    assert (x + y)[..|x|] == x && (x + y)[|x|..] == y;
  }

  lemma AtConcat(b: seq<byte>, i: nat, f: seq<Field>, g: seq<Field>)
    ensures At(b, i, f + g) <==> At(b, i, f) && At(b, After(i, f), g)
    ensures After(i, f + g) == After(After(i, f), g)
  {
    hide Flatten;
    FlattenConcat(f, g);
    if i + |Flatten(f)| + |Flatten(g)| <= |b| {
      SliceConcat(b, i, Flatten(f), Flatten(g));
    }
  }

  // ---- one field ----

  /** A parser's answer when the fields of `v` stand at `i`. */
  ghost predicate Reads<T>(p: Parsed<T>, v: T, i: nat, fs: seq<Field>) {
    p == Done(v, After(i, fs))
  }

  lemma WordRead(b: seq<byte>, i: nat, w: u32)
    requires At(b, i, [Word(w)])
    ensures Reads(ParseWord(b, i), w, i, [Word(w)])
  {
    FlattenOne(Word(w));
    BigEndianInverse(w);
  }

  lemma WordWritten(b: seq<byte>, i: nat)
    requires ParseWord(b, i).Done?
    ensures At(b, i, [Word(ParseWord(b, i).val)])
    ensures ParseWord(b, i).next == After(i, [Word(ParseWord(b, i).val)])
  {
    FlattenOne(Word(ParseWord(b, i).val));
    FromBigEndianInverse(b[i..i + 4]);
  }

  lemma {:induction false} FindNulAt(b: seq<byte>, i: nat, k: nat)
    requires i <= k < |b| && b[k] == 0 && 0 !in b[i..k]
    ensures FindNul(b, i) == k
    decreases k - i
  {
    if i < k {
      assert b[i] == b[i..k][0];
      assert b[i + 1..k] == b[i..k][1..];
      FindNulAt(b, i + 1, k);
    }
  }

  lemma TextRead(b: seq<byte>, i: nat, s: cstr)
    requires At(b, i, [Text(s)])
    ensures Reads(ParseText(b, i), s, i, [Text(s)])
  {
    FlattenOne(Text(s));
    var k := i + |s|;
    assert b[i..k] == b[i..k + 1][..|s|] == s;
    assert b[k] == b[i..k + 1][|s|];
    FindNulAt(b, i, k);
  }

  lemma TextWritten(b: seq<byte>, i: nat)
    requires ParseText(b, i).Done?
    ensures At(b, i, [Text(ParseText(b, i).val)])
    ensures ParseText(b, i).next == After(i, [Text(ParseText(b, i).val)])
  {
    FlattenOne(Text(ParseText(b, i).val));
    var k := FindNul(b, i);
    assert b[i..k + 1] == b[i..k] + [b[k]];
  }

  lemma BlobRead(b: seq<byte>, i: nat, d: seq<byte>)
    requires At(b, i, [Blob(d)])
    ensures Reads(ParseBlob(b, i, |d|), d, i, [Blob(d)])
  {
    FlattenOne(Blob(d));
  }

  lemma BlobWritten(b: seq<byte>, i: nat, n: nat)
    requires ParseBlob(b, i, n).Done?
    ensures At(b, i, [Blob(ParseBlob(b, i, n).val)])
    ensures ParseBlob(b, i, n).next == After(i, [Blob(ParseBlob(b, i, n).val)])
    ensures |ParseBlob(b, i, n).val| == n
  {
    FlattenOne(Blob(ParseBlob(b, i, n).val));
  }

  lemma Two(b: seq<byte>, i: nat, f: Field, g: Field)
    ensures At(b, i, [f, g]) <==> At(b, i, [f]) && At(b, After(i, [f]), [g])
    ensures After(i, [f, g]) == After(After(i, [f]), [g])
  {
    assert [f, g] == [f] + [g];
    AtConcat(b, i, [f], [g]);
  }

  lemma WideRead(b: seq<byte>, i: nat, x: Wide)
    requires At(b, i, WideFields(x))
    ensures Reads(ParseWide(b, i), x, i, WideFields(x))
  {
    Two(b, i, Word(x.high), Word(x.low));
    WordRead(b, i, x.high);
    WordRead(b, After(i, [Word(x.high)]), x.low);
  }

  lemma WideWritten(b: seq<byte>, i: nat)
    requires ParseWide(b, i).Done?
    ensures At(b, i, WideFields(ParseWide(b, i).val))
    ensures ParseWide(b, i).next == After(i, WideFields(ParseWide(b, i).val))
  {
    var h := ParseWord(b, i);
    var l := ParseWord(b, h.next);
    Two(b, i, Word(h.val), Word(l.val));
    WordWritten(b, i);
    WordWritten(b, h.next);
  }

  lemma RsrcRead(b: seq<byte>, i: nat, r: Rsrc)
    requires At(b, i, RsrcFields(r))
    ensures Reads(ParseRsrc(b, i), r, i, RsrcFields(r))
  {
    Two(b, i, Text(r.owner), Text(r.path));
    TextRead(b, i, r.owner);
    TextRead(b, After(i, [Text(r.owner)]), r.path);
  }

  lemma RsrcWritten(b: seq<byte>, i: nat)
    requires ParseRsrc(b, i).Done?
    ensures At(b, i, RsrcFields(ParseRsrc(b, i).val))
    ensures ParseRsrc(b, i).next == After(i, RsrcFields(ParseRsrc(b, i).val))
  {
    var o := ParseText(b, i);
    var p := ParseText(b, o.next);
    Two(b, i, Text(o.val), Text(p.val));
    TextWritten(b, i);
    TextWritten(b, o.next);
  }

  // ---- optional fields ----

  lemma OptWordRead(b: seq<byte>, i: nat, present: bool, w: u32)
    requires At(b, i, OptWord(present, w))
    ensures Reads(ParseOptWord(b, i, present), if present then w else 0, i, OptWord(present, w))
  {
    if present {
      WordRead(b, i, w);
    }
  }

  lemma OptWideRead(b: seq<byte>, i: nat, present: bool, x: Wide)
    requires At(b, i, OptWide(present, x))
    ensures Reads(ParseOptWide(b, i, present), if present then x else ZERO, i, OptWide(present, x))
  {
    if present {
      WideRead(b, i, x);
    }
  }

  lemma OptRsrcRead(b: seq<byte>, i: nat, present: bool, r: Rsrc)
    requires At(b, i, OptRsrc(present, r))
    ensures Reads(ParseOptRsrc(b, i, present), if present then r else NO_RSRC, i, OptRsrc(present, r))
  {
    if present {
      RsrcRead(b, i, r);
    }
  }

  lemma OptBlobRead(b: seq<byte>, i: nat, present: bool, d: seq<byte>)
    requires At(b, i, OptBlob(present, d))
    ensures Reads(ParseBlob(b, i, if present then |d| else 0), if present then d else [], i, OptBlob(present, d))
  {
    if present {
      BlobRead(b, i, d);
    }
  }

  lemma OptWordWritten(b: seq<byte>, i: nat, present: bool)
    requires ParseOptWord(b, i, present).Done?
    ensures At(b, i, OptWord(present, ParseOptWord(b, i, present).val))
    ensures ParseOptWord(b, i, present).next == After(i, OptWord(present, ParseOptWord(b, i, present).val))
  {
    if present {
      WordWritten(b, i);
    }
  }

  lemma OptWideWritten(b: seq<byte>, i: nat, present: bool)
    requires ParseOptWide(b, i, present).Done?
    ensures At(b, i, OptWide(present, ParseOptWide(b, i, present).val))
    ensures ParseOptWide(b, i, present).next == After(i, OptWide(present, ParseOptWide(b, i, present).val))
  {
    if present {
      WideWritten(b, i);
    }
  }

  lemma OptRsrcWritten(b: seq<byte>, i: nat, present: bool)
    requires ParseOptRsrc(b, i, present).Done?
    ensures At(b, i, OptRsrc(present, ParseOptRsrc(b, i, present).val))
    ensures ParseOptRsrc(b, i, present).next == After(i, OptRsrc(present, ParseOptRsrc(b, i, present).val))
  {
    if present {
      RsrcWritten(b, i);
    }
  }

  lemma OptBlobWritten(b: seq<byte>, i: nat, present: bool, n: nat)
    requires ParseBlob(b, i, if present then n else 0).Done?
    ensures var p := ParseBlob(b, i, if present then n else 0);
            At(b, i, OptBlob(present, p.val)) && p.next == After(i, OptBlob(present, p.val))
  {
    if present {
      BlobWritten(b, i, n);
    }
  }

  // ---- requests ----

  ghost function Blank(r: Request): Request { Request(r.typ, r.requester, r.rsrc, 0, ZERO, NO_RSRC, ZERO, []) }

  lemma HeadRead(b: seq<byte>, i: nat, r: Request)
    requires At(b, i, HeadFields(r))
    ensures Reads(ParseHead(b, i), Blank(r), i, HeadFields(r))
  {
    AtConcat(b, i, [Word(r.typ)], [Text(r.requester)] + RsrcFields(r.rsrc));
    WordRead(b, i, r.typ);
    var j := After(i, [Word(r.typ)]);
    AtConcat(b, j, [Text(r.requester)], RsrcFields(r.rsrc));
    TextRead(b, j, r.requester);
    RsrcRead(b, After(j, [Text(r.requester)]), r.rsrc);
  }

  lemma HeadWritten(b: seq<byte>, i: nat)
    requires ParseHead(b, i).Done?
    ensures var h := ParseHead(b, i); At(b, i, HeadFields(h.val)) && h.next == After(i, HeadFields(h.val))
  {
    var t := ParseWord(b, i);
    var q := ParseText(b, t.next);
    var r := ParseRsrc(b, q.next);
    WordWritten(b, i);
    TextWritten(b, t.next);
    RsrcWritten(b, q.next);
    AtConcat(b, i, [Word(t.val)], [Text(q.val)] + RsrcFields(r.val));
    AtConcat(b, t.next, [Text(q.val)], RsrcFields(r.val));
  }

  lemma ModeSizeRead(b: seq<byte>, i: nat, r: Request, h: Request)
    requires h.typ == r.typ && At(b, i, ModeSizeFields(r))
    ensures Reads(ParseModeSize(b, i, h), h.(mode := Carried(r).mode, size := Carried(r).size), i, ModeSizeFields(r))
  {
    var f, g := OptWord(HasMode(r.typ), Unsigned(r.mode)), OptWide(HasSize(r.typ), r.size);
    AtConcat(b, i, f, g);
    OptWordRead(b, i, HasMode(r.typ), Unsigned(r.mode));
    OptWideRead(b, After(i, f), HasSize(r.typ), r.size);
  }

  lemma ToOffRead(b: seq<byte>, i: nat, r: Request, h: Request)
    requires h.typ == r.typ && At(b, i, ToOffFields(r))
    ensures Reads(ParseToOff(b, i, h), h.(to := Carried(r).to, off := Carried(r).off), i, ToOffFields(r))
  {
    var f, g := OptRsrc(HasTo(r.typ), r.to), OptWide(HasOff(r.typ), r.off);
    AtConcat(b, i, f, g);
    OptRsrcRead(b, i, HasTo(r.typ), r.to);
    OptWideRead(b, After(i, f), HasOff(r.typ), r.off);
  }

  lemma MiddleRead(b: seq<byte>, i: nat, r: Request)
    requires At(b, i, MiddleFields(r))
    ensures Reads(ParseMiddle(b, i, Blank(r)), Carried(r).(data := []), i, MiddleFields(r))
  {
    AtConcat(b, i, ModeSizeFields(r), ToOffFields(r));
    ModeSizeRead(b, i, r, Blank(r));
    ToOffRead(b, After(i, ModeSizeFields(r)), r, Blank(r).(mode := Carried(r).mode, size := Carried(r).size));
  }

  lemma ModeSizeWritten(b: seq<byte>, i: nat, h: Request)
    requires ParseModeSize(b, i, h).Done?
    ensures var r := ParseModeSize(b, i, h);
            At(b, i, ModeSizeFields(r.val)) && r.next == After(i, ModeSizeFields(r.val))
  {
    var mode := ParseOptWord(b, i, HasMode(h.typ));
    OptWordWritten(b, i, HasMode(h.typ));
    OptWideWritten(b, mode.next, HasSize(h.typ));
    AtConcat(b, i, OptWord(HasMode(h.typ), mode.val), OptWide(HasSize(h.typ), ParseModeSize(b, i, h).val.size));
  }

  lemma ToOffWritten(b: seq<byte>, i: nat, h: Request)
    requires ParseToOff(b, i, h).Done?
    ensures var r := ParseToOff(b, i, h); At(b, i, ToOffFields(r.val)) && r.next == After(i, ToOffFields(r.val))
  {
    var to := ParseOptRsrc(b, i, HasTo(h.typ));
    OptRsrcWritten(b, i, HasTo(h.typ));
    OptWideWritten(b, to.next, HasOff(h.typ));
    AtConcat(b, i, OptRsrc(HasTo(h.typ), to.val), OptWide(HasOff(h.typ), ParseToOff(b, i, h).val.off));
  }

  lemma MiddleWritten(b: seq<byte>, i: nat, h: Request)
    requires ParseMiddle(b, i, h).Done?
    ensures var r := ParseMiddle(b, i, h); At(b, i, MiddleFields(r.val)) && r.next == After(i, MiddleFields(r.val))
  {
    var g := ParseModeSize(b, i, h);
    var r := ParseToOff(b, g.next, g.val);
    ModeSizeWritten(b, i, h);
    ToOffWritten(b, g.next, g.val);
    assert ModeSizeFields(g.val) == ModeSizeFields(r.val);
    AtConcat(b, i, ModeSizeFields(r.val), ToOffFields(r.val));
  }

  /** Where the three parts of a request stand. */
  lemma PlainParts(b: seq<byte>, i: nat, r: Request)
    ensures var j := After(i, HeadFields(r)); var k := After(j, MiddleFields(r));
            var data := OptBlob(HasData(r.typ), r.data);
            && (At(b, i, PlainFields(r)) <==>
                At(b, i, HeadFields(r)) && At(b, j, MiddleFields(r)) && At(b, k, data))
            && After(i, PlainFields(r)) == After(k, data)
  {
    var j := After(i, HeadFields(r));
    var data := OptBlob(HasData(r.typ), r.data);
    AtConcat(b, i, HeadFields(r), MiddleFields(r) + data);
    AtConcat(b, j, MiddleFields(r), data);
  }

  lemma PlainRead(b: seq<byte>, i: nat, r: Request)
    requires At(b, i, PlainFields(r)) && ValidRequest(r)
    ensures Reads(ParseRequest(b, i), Carried(r), i, PlainFields(r))
  {
    PlainParts(b, i, r);
    HeadRead(b, i, r);
    var j := After(i, HeadFields(r));
    MiddleRead(b, j, r);
    OptBlobRead(b, After(j, MiddleFields(r)), HasData(r.typ), r.data);
  }

  lemma ParsedIsCarried(b: seq<byte>, i: nat)
    requires ParseRequest(b, i).Done?
    ensures var r := ParseRequest(b, i).val; ValidRequest(r) && Carried(r) == r
  {
    var h := ParseHead(b, i);
    var m := ParseMiddle(b, h.next, h.val);
    assert Carried(m.val) == m.val.(data := if HasData(m.val.typ) then m.val.data else []);
  }

  lemma PlainWritten(b: seq<byte>, i: nat)
    requires ParseRequest(b, i).Done?
    ensures var p := ParseRequest(b, i); At(b, i, PlainFields(p.val)) && p.next == After(i, PlainFields(p.val))
  {
    var h := ParseHead(b, i);
    var m := ParseMiddle(b, h.next, h.val);
    var p := ParseTail(b, h.next, h.val);
    HeadWritten(b, i);
    MiddleWritten(b, h.next, h.val);
    OptBlobWritten(b, m.next, HasData(m.val.typ), Value(m.val.size));
    PlainParts(b, i, p.val);
    assert HeadFields(h.val) == HeadFields(p.val);
    assert MiddleFields(m.val) == MiddleFields(p.val);
  }
}
