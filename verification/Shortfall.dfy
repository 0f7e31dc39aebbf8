/** The number a deserialiser returns, also when bytes are missing, and when that number is the
    documented `nbytes + 1`. */
module Shortfall {
  import opened Wire
  import opened Packet
  import opened Decode

  /** The number `deserialize_str` returns at position `i`, which may lie behind the end. */
  function UsedText(b: seq<byte>, i: nat): (u: nat)
    ensures u > 0
    ensures ParseText(b, i).Done? ==> i + u == ParseText(b, i).next
    ensures ParseText(b, i).More? ==> u == SizeRem(|b|, i) + 2
  {
    if i <= |b| && FindNul(b, i) < |b| then FindNul(b, i) - i + 1 else SizeRem(|b|, i) + 2
  }

  function UsedRsrc(b: seq<byte>, i: nat): nat { UsedText(b, i) + UsedText(b, i + UsedText(b, i)) }

  function UsedHead(b: seq<byte>, i: nat): nat {
    var u := 4 + UsedText(b, i + 4);
    u + UsedRsrc(b, i + u)
  }

  function UsedModeSize(typ: u32): nat { (if HasMode(typ) then 4 else 0) + if HasSize(typ) then 8 else 0 }

  function UsedToOff(b: seq<byte>, i: nat, typ: u32): nat {
    (if HasTo(typ) then UsedRsrc(b, i) else 0) + if HasOff(typ) then 8 else 0
  }

  function UsedMiddle(b: seq<byte>, i: nat, typ: u32): nat {
    UsedModeSize(typ) + UsedToOff(b, i + UsedModeSize(typ), typ)
  }

  function UsedRequest(b: seq<byte>, i: nat): nat {
    var h := ParseHead(b, i);
    var u := UsedHead(b, i);
    if !h.Done? then u
    else
      var m := ParseMiddle(b, i + u, h.val);
      var v := u + UsedMiddle(b, i + u, h.val.typ);
      if m.Done? && HasData(h.val.typ) then v + Value(m.val.size) else v
  }

  function UsedData(b: seq<byte>, i: nat): nat {
    if i + 8 <= |b| then 8 + Value(ParseWide(b, i).val) else 8
  }

  function UsedDirents(b: seq<byte>, i: nat, n: nat): (u: nat)
    ensures n > 0 ==> u >= 5
    decreases n
  {
    if n == 0 then 0
    else
      var u := UsedText(b, i) + 4;
      u + UsedDirents(b, i + u, n - 1)
  }

  lemma UsedNext(b: seq<byte>, i: nat, n: nat)
    requires n > 0
    ensures var u := UsedText(b, i) + 4; UsedDirents(b, i, n) == u + UsedDirents(b, i + u, n - 1)
  {
  }

  lemma UsedLast(b: seq<byte>, i: nat)
    ensures UsedDirents(b, i, 0) == 0
  {
  }

  function UsedDir(b: seq<byte>, i: nat): nat {
    if i + 8 <= |b| then 8 + UsedDirents(b, i + 8, Value(ParseWide(b, i).val)) else 8
  }

  function UsedPayload(b: seq<byte>, i: nat, typ: u32): nat {
    if typ == RSP_DATA then UsedData(b, i)
    else if typ == RSP_STAT then 28
    else if typ == RSP_DIR then UsedDir(b, i)
    else if typ == RSP_ERROR then 4
    else 0
  }

  function UsedResponse(b: seq<byte>, i: nat): nat {
    if i + 4 <= |b| then 4 + UsedPayload(b, i + 4, ParseWord(b, i).val) else 4
  }

  function UsedConnect(b: seq<byte>, i: nat): nat { 4 + UsedText(b, i + 4) }

  function UsedBody(b: seq<byte>, i: nat, typ: u32): nat {
    if typ == PKT_REQUEST then UsedRequest(b, i)
    else if typ == PKT_RESPONSE then UsedResponse(b, i)
    else if typ == PKT_CONNECT then UsedConnect(b, i)
    else 0
  }

  /** The number `deserialize_pkt` returns on the bytes `b`. */
  function UsedPacket(b: seq<byte>): nat {
    if |b| < 8 then 8 else 8 + UsedBody(b, 8, ParseWord(b, 4).val)
  }

  // ---- one byte short ----

  /** The common members are there, and one byte is missing from the last fixed-size member of the type,
      or from the data block. */
  predicate RequestOneShort(b: seq<byte>, i: nat) {
    var h := ParseHead(b, i);
    && h.Done?
    && var j, typ := h.next, h.val.typ;
       if HasMode(typ) then |b| == j + 3
       else if HasOff(typ) then
         || |b| == j + 15
         || (|b| >= j + 16 && HasData(typ) && |b| + 1 == j + 16 + Value(ParseWide(b, j).val))
       else HasSize(typ) && |b| == j + 7
  }

  /** All entries but the last and the last one's name are there, and one byte is missing from its mode. */
  predicate DirentsOneShort(b: seq<byte>, i: nat, n: nat) {
    && n > 0
    && var es := ParseDirents(b, i, n - 1);
    && es.Done?
    && var name := ParseText(b, es.next);
       name.Done? && |b| == name.next + 3
  }

  predicate ResponseOneShort(b: seq<byte>, i: nat) {
    || |b| == i + 3
    || (|b| >= i + 4
        && var typ := ParseWord(b, i).val;
           if typ == RSP_DATA then
             |b| == i + 11 || (|b| >= i + 12 && |b| + 1 == i + 12 + Value(ParseWide(b, i + 4).val))
           else if typ == RSP_STAT then |b| == i + 31
           else if typ == RSP_DIR then
             |b| == i + 11 || (|b| >= i + 12 && DirentsOneShort(b, i + 12, Value(ParseWide(b, i + 4).val)))
           else typ == RSP_ERROR && |b| == i + 7)
  }

  /** One byte is missing from the type word, or from what is read last for the type. */
  predicate OneShort(b: seq<byte>) {
    || |b| == 7
    || (|b| >= 8
        && var typ := ParseWord(b, 4).val;
           (typ == PKT_REQUEST && RequestOneShort(b, 8)) || (typ == PKT_RESPONSE && ResponseOneShort(b, 8)))
  }

  lemma HeadOneShort(b: seq<byte>, i: nat)
    requires i <= |b|
    ensures ParseHead(b, i).Done? <==> i + UsedHead(b, i) <= |b|
    ensures ParseHead(b, i).Done? ==> ParseHead(b, i).next == i + UsedHead(b, i)
    ensures i + UsedHead(b, i) != |b| + 1
  {
    hide ParseText, UsedText;
  }

  lemma MiddleOneShort(b: seq<byte>, i: nat, h: Request)
    requires i <= |b|
    ensures ParseMiddle(b, i, h).Done? <==> i + UsedMiddle(b, i, h.typ) <= |b|
    ensures ParseMiddle(b, i, h).Done? ==> ParseMiddle(b, i, h).next == i + UsedMiddle(b, i, h.typ)
    ensures ParseMiddle(b, i, h).Done? && HasOff(h.typ) ==> ParseMiddle(b, i, h).val.size == ParseWide(b, i).val
    ensures HasOff(h.typ) ==> UsedMiddle(b, i, h.typ) == 16
    ensures i + UsedMiddle(b, i, h.typ) == |b| + 1 <==>
      if HasMode(h.typ) then |b| == i + 3 else if HasOff(h.typ) then |b| == i + 15 else HasSize(h.typ) && |b| == i + 7
  {
    hide ParseText, UsedText, FromBigEndian;
  }

  lemma RequestAsksOne(b: seq<byte>, i: nat)
    requires i <= |b|
    ensures i + UsedRequest(b, i) == |b| + 1 <==> RequestOneShort(b, i)
  {
    hide ParseHead, ParseMiddle, UsedHead, UsedMiddle, ParseWide, Value;
    HeadOneShort(b, i);
    if ParseHead(b, i).Done? {
      MiddleOneShort(b, i + UsedHead(b, i), ParseHead(b, i).val);
    }
  }

  lemma {:induction false} DirentsAskOne(b: seq<byte>, i: nat, n: nat)
    requires i <= |b|
    ensures i + UsedDirents(b, i, n) == |b| + 1 <==> DirentsOneShort(b, i, n)
    decreases n
  {
    hide ParseText, UsedText;
    if n > 0 && ParseDirent(b, i).Done? {
      DirentsAskOne(b, ParseDirent(b, i).next, n - 1);
    }
  }

  lemma ResponseAsksOne(b: seq<byte>, i: nat)
    requires i <= |b| && !ParseResponse(b, i).Unknown?
    ensures i + UsedResponse(b, i) == |b| + 1 <==> ResponseOneShort(b, i)
  {
    hide Value, FromBigEndian, DirentsOneShort;
    if |b| >= i + 12 {
      DirentsAskOne(b, i + 12, Value(ParseWide(b, i + 4).val));
    }
  }

  /** `deserialize_pkt` returns `nbytes + 1`, as documented for every short input, exactly when one byte
      is missing from the type word, or from what is read last for the type: a fixed-size member or a
      data block, with no string and no other member still missing behind it. */
  lemma AsksForOneMore(b: seq<byte>)
    requires !ParsePacket(b).Unknown?
    ensures UsedPacket(b) == |b| + 1 <==> OneShort(b)
  {
    hide RequestOneShort, ResponseOneShort, UsedRequest, UsedResponse, ParseRequest, ParseResponse, ParseConnect;
    hide FromBigEndian;
    if |b| >= 8 {
      RequestAsksOne(b, 8);
      if ParseWord(b, 4).val == PKT_RESPONSE {
        ResponseAsksOne(b, 8);
      }
    }
  }
}
