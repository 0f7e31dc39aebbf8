/** Decoding may be retried on any prefix of the input: a prefix that reaches the end of the value
    gives the same value, a shorter one asks for more. */
module SelfDelimiting {
  import opened Wire
  import opened Packet
  import opened Decode

  /** `short` is what a parser may answer on the first `n` bytes when `full` is its answer on all. */
  ghost predicate Cut<T>(short: Parsed<T>, full: Parsed<T>, n: nat) {
    match full
    case Done(_, j) => short == if j <= n then full else More
    case More => short == More
    case Unknown => short == More || short == Unknown
  }

  lemma {:induction false} FindNulCut(a: seq<byte>, b: seq<byte>, i: nat)
    requires a <= b && i <= |a|
    ensures FindNul(a, i) == if FindNul(b, i) < |a| then FindNul(b, i) else |a|
    decreases |a| - i
  {
    if i < |a| && a[i] != 0 {
      FindNulCut(a, b, i + 1);
    }
  }

  lemma WordCut(a: seq<byte>, b: seq<byte>, i: nat)
    requires a <= b
    ensures Cut(ParseWord(a, i), ParseWord(b, i), |a|)
  {
    if i + 4 <= |a| {
      assert a[i..i + 4] == b[i..i + 4];
    }
  }

  lemma TextCut(a: seq<byte>, b: seq<byte>, i: nat)
    requires a <= b
    ensures Cut(ParseText(a, i), ParseText(b, i), |a|)
  {
    if i <= |a| {
      FindNulCut(a, b, i);
      var k := FindNul(b, i);
      if k < |a| {
        assert a[i..k] == b[i..k];
      }
    }
  }

  lemma BlobCut(a: seq<byte>, b: seq<byte>, i: nat, n: nat)
    requires a <= b
    ensures Cut(ParseBlob(a, i, n), ParseBlob(b, i, n), |a|)
  {
    if i + n <= |a| {
      assert a[i..i + n] == b[i..i + n];
    }
  }

  lemma WideCut(a: seq<byte>, b: seq<byte>, i: nat)
    requires a <= b
    ensures Cut(ParseWide(a, i), ParseWide(b, i), |a|)
  {
    WordCut(a, b, i);
    WordCut(a, b, i + 4);
  }

  lemma RsrcCut(a: seq<byte>, b: seq<byte>, i: nat)
    requires a <= b
    ensures Cut(ParseRsrc(a, i), ParseRsrc(b, i), |a|)
  {
    TextCut(a, b, i);
    var p := ParseText(b, i);
    if p.Done? {
      TextCut(a, b, p.next);
    }
  }

  lemma HeadCut(a: seq<byte>, b: seq<byte>, i: nat)
    requires a <= b
    ensures Cut(ParseHead(a, i), ParseHead(b, i), |a|)
  {
    WordCut(a, b, i);
    TextCut(a, b, i + 4);
    var p := ParseText(b, i + 4);
    if p.Done? {
      RsrcCut(a, b, p.next);
    }
  }

  lemma OptWordCut(a: seq<byte>, b: seq<byte>, i: nat, present: bool)
    requires a <= b
    ensures Cut(ParseOptWord(a, i, present), ParseOptWord(b, i, present), |a|)
  {
    WordCut(a, b, i);
  }

  lemma OptWideCut(a: seq<byte>, b: seq<byte>, i: nat, present: bool)
    requires a <= b
    ensures Cut(ParseOptWide(a, i, present), ParseOptWide(b, i, present), |a|)
  {
    WideCut(a, b, i);
  }

  lemma OptRsrcCut(a: seq<byte>, b: seq<byte>, i: nat, present: bool)
    requires a <= b
    ensures Cut(ParseOptRsrc(a, i, present), ParseOptRsrc(b, i, present), |a|)
  {
    RsrcCut(a, b, i);
  }

  lemma ModeSizeCut(a: seq<byte>, b: seq<byte>, i: nat, h: Request)
    requires a <= b
    ensures Cut(ParseModeSize(a, i, h), ParseModeSize(b, i, h), |a|)
  {
    OptWordCut(a, b, i, HasMode(h.typ));
    var mode := ParseOptWord(b, i, HasMode(h.typ));
    if mode.Done? {
      OptWideCut(a, b, mode.next, HasSize(h.typ));
    }
  }

  lemma ToOffCut(a: seq<byte>, b: seq<byte>, i: nat, h: Request)
    requires a <= b
    ensures Cut(ParseToOff(a, i, h), ParseToOff(b, i, h), |a|)
  {
    OptRsrcCut(a, b, i, HasTo(h.typ));
    var to := ParseOptRsrc(b, i, HasTo(h.typ));
    if to.Done? {
      OptWideCut(a, b, to.next, HasOff(h.typ));
    }
  }

  lemma MiddleCut(a: seq<byte>, b: seq<byte>, i: nat, h: Request)
    requires a <= b
    ensures Cut(ParseMiddle(a, i, h), ParseMiddle(b, i, h), |a|)
  {
    ModeSizeCut(a, b, i, h);
    var g := ParseModeSize(b, i, h);
    if g.Done? {
      ToOffCut(a, b, g.next, g.val);
    }
  }

  lemma TailCut(a: seq<byte>, b: seq<byte>, i: nat, h: Request)
    requires a <= b
    ensures Cut(ParseTail(a, i, h), ParseTail(b, i, h), |a|)
  {
    MiddleCut(a, b, i, h);
    var r := ParseMiddle(b, i, h);
    if r.Done? {
      BlobCut(a, b, r.next, if HasData(r.val.typ) then Value(r.val.size) else 0);
    }
  }

  lemma RequestCut(a: seq<byte>, b: seq<byte>, i: nat)
    requires a <= b
    ensures Cut(ParseRequest(a, i), ParseRequest(b, i), |a|)
  {
    HeadCut(a, b, i);
    var h := ParseHead(b, i);
    if h.Done? {
      TailCut(a, b, h.next, h.val);
    }
  }

  lemma StatCut(a: seq<byte>, b: seq<byte>, i: nat)
    requires a <= b
    ensures Cut(ParseStat(a, i), ParseStat(b, i), |a|)
  {
    WordCut(a, b, i);
    WideCut(a, b, i + 4);
    WideCut(a, b, i + 12);
    WideCut(a, b, i + 20);
  }

  lemma DataCut(a: seq<byte>, b: seq<byte>, i: nat)
    requires a <= b
    ensures Cut(ParseData(a, i), ParseData(b, i), |a|)
  {
    WideCut(a, b, i);
    var n := ParseWide(b, i);
    if n.Done? {
      BlobCut(a, b, n.next, Value(n.val));
    }
  }

  lemma DirentCut(a: seq<byte>, b: seq<byte>, i: nat)
    requires a <= b
    ensures Cut(ParseDirent(a, i), ParseDirent(b, i), |a|)
  {
    TextCut(a, b, i);
    var p := ParseText(b, i);
    if p.Done? {
      WordCut(a, b, p.next);
    }
  }

  lemma {:induction false} DirentsCut(a: seq<byte>, b: seq<byte>, i: nat, n: nat)
    requires a <= b
    ensures Cut(ParseDirents(a, i, n), ParseDirents(b, i, n), |a|)
    decreases n
  {
    if n > 0 {
      DirentCut(a, b, i);
      var e := ParseDirent(b, i);
      if e.Done? {
        DirentsCut(a, b, e.next, n - 1);
      }
    }
  }

  lemma DirCut(a: seq<byte>, b: seq<byte>, i: nat)
    requires a <= b
    ensures Cut(ParseDir(a, i), ParseDir(b, i), |a|)
  {
    WideCut(a, b, i);
    var n := ParseWide(b, i);
    if n.Done? {
      DirentsCut(a, b, n.next, Value(n.val));
    }
  }

  lemma PayloadCut(a: seq<byte>, b: seq<byte>, i: nat, typ: u32)
    requires a <= b
    ensures Cut(ParsePayload(a, i, typ), ParsePayload(b, i, typ), |a|)
  {
    if typ == RSP_DATA {
      DataCut(a, b, i);
    } else if typ == RSP_STAT {
      StatCut(a, b, i);
    } else if typ == RSP_DIR {
      DirCut(a, b, i);
    } else {
      WordCut(a, b, i);
    }
  }

  lemma ResponseCut(a: seq<byte>, b: seq<byte>, i: nat)
    requires a <= b
    ensures Cut(ParseResponse(a, i), ParseResponse(b, i), |a|)
  {
    WordCut(a, b, i);
    var typ := ParseWord(b, i);
    if typ.Done? {
      PayloadCut(a, b, typ.next, typ.val);
    }
  }

  lemma ConnectCut(a: seq<byte>, b: seq<byte>, i: nat)
    requires a <= b
    ensures Cut(ParseConnect(a, i), ParseConnect(b, i), |a|)
  {
    WordCut(a, b, i);
    TextCut(a, b, i + 4);
  }

  lemma BodyCut(a: seq<byte>, b: seq<byte>, i: nat, typ: u32)
    requires a <= b
    ensures Cut(ParseBody(a, i, typ), ParseBody(b, i, typ), |a|)
  {
    RequestCut(a, b, i);
    ResponseCut(a, b, i);
    ConnectCut(a, b, i);
  }

  /** On arbitrary bytes: a successful decode used exactly the bytes it needed, gives the same
      answer whatever follows or is still missing behind it, and every shorter prefix asks for
      more without an error. */
  lemma PacketCut(a: seq<byte>, b: seq<byte>)
    requires a <= b
    ensures Cut(ParsePacket(a), ParsePacket(b), |a|)
  {
    WordCut(a, b, 0);
    WordCut(a, b, 4);
    var typ := ParseWord(b, 4);
    if typ.Done? {
      BodyCut(a, b, 8, typ.val);
    }
  }
}
