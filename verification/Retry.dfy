/** How often `buffer_serialize` calls its serialiser: each call that does not fit is repeated with
    exactly the room it asked for. */
module Retry {
  import opened Wire
  import opened Packet

  /** The number of serialiser calls for the fields `fs`, starting with `rem` bytes of room. */
  function Calls(fs: seq<Field>, rem: nat): (n: nat)
    ensures n >= 1
    decreases if rem < |Flatten(fs)| then |Flatten(fs)| - rem else 0
  {
    SerSizeRefinesEncoding(fs, rem);
    var used := SerSize(fs, rem);
    if used <= rem then 1 else 1 + Calls(fs, used)
  }

  function TextBytes(fs: seq<Field>): nat {
    if fs == [] then 0 else (if fs[0].Text? then |fs[0].s| else 0) + TextBytes(fs[1..])
  }

  /** Every string ends within the room its serialiser is offered, so strnlen sees all of it. */
  predicate TextsSeen(fs: seq<Field>, rem: nat) {
    fs == [] ||
    ((fs[0].Text? ==> |fs[0].s| <= rem) && TextsSeen(fs[1..], SizeRem(rem, |Bytes(fs[0])|)))
  }

  /** The size a call reports is the number of bytes required exactly when it sees all strings. */
  lemma {:induction false} TrueSize(fs: seq<Field>, rem: nat)
    ensures SerSize(fs, rem) == |Flatten(fs)| <==> TextsSeen(fs, rem)
    decreases |fs|
  {
    if fs != [] {
      var used := FieldSize(fs[0], rem);
      TrueSize(fs[1..], SizeRem(rem, used));
      SerSizeRefinesEncoding(fs[1..], SizeRem(rem, used));
    }
  }

  /** The loop runs once or twice exactly when the packet fits at once or the first call sees all its
      strings. */
  lemma OnceOrTwice(fs: seq<Field>, rem: nat)
    ensures Calls(fs, rem) == 1 <==> |Flatten(fs)| <= rem
    ensures Calls(fs, rem) <= 2 <==> |Flatten(fs)| <= rem || TextsSeen(fs, rem)
  {
    hide TextsSeen;
    TrueSize(fs, rem);
    SerSizeRefinesEncoding(fs, rem);
    var used := SerSize(fs, rem);
    if used > rem {
      SerSizeRefinesEncoding(fs, used);
    }
  }

  /** Without strings the first call already reports the true size. */
  lemma {:induction false} StringFreeSize(fs: seq<Field>, rem: nat)
    requires TextBytes(fs) == 0
    ensures SerSize(fs, rem) == |Flatten(fs)|
    decreases |fs|
  {
    if fs != [] {
      StringFreeSize(fs[1..], SizeRem(rem, FieldSize(fs[0], rem)));
    }
  }

  /** So fields with no string characters take at most two calls. */
  lemma StringFreeTwice(fs: seq<Field>, rem: nat)
    requires TextBytes(fs) == 0
    ensures Calls(fs, rem) == if |Flatten(fs)| <= rem then 1 else 2
  {
    StringFreeSize(fs, rem);
    StringFreeSize(fs, |Flatten(fs)|);
  }

  /** A call hides at most the string characters from the true size. */
  lemma {:induction false} SizeBounds(fs: seq<Field>, rem: nat)
    ensures |Flatten(fs)| <= SerSize(fs, rem) + TextBytes(fs)
    decreases |fs|
  {
    if fs != [] {
      SizeBounds(fs[1..], SizeRem(rem, FieldSize(fs[0], rem)));
    }
  }

  /** In general every further call learns at least one more byte, so the count is bounded by the
      number of string characters. */
  lemma CallsBounded(fs: seq<Field>, rem: nat)
    ensures Calls(fs, rem) <= TextBytes(fs) + 2
  {
    SerSizeRefinesEncoding(fs, rem);
    SizeBounds(fs, rem);
    var used := SerSize(fs, rem);
    if used > rem {
      CallsFrom(fs, used);
    }
  }

  lemma {:induction false} CallsFrom(fs: seq<Field>, rem: nat)
    requires rem <= |Flatten(fs)|
    ensures Calls(fs, rem) <= |Flatten(fs)| - rem + 1
    decreases |Flatten(fs)| - rem
  {
    SerSizeRefinesEncoding(fs, rem);
    if SerSize(fs, rem) > rem {
      CallsFrom(fs, SerSize(fs, rem));
    }
  }

  // ---- the bound is met: a CONNECT packet on a fresh buffer ----

  lemma ConnectSize(p: Packet, rem: nat)
    requires p.body.ConnBody?
    ensures SerSize(PacketFields(p), rem) == 12 + Min(|p.body.conn.name|, SizeRem(rem, 12)) + 1
  {
    var c := p.body.conn;
    SerSizeConcat([Word(p.magic)], [Word(TypeWord(p.body))] + ConnectFields(c), rem);
    SerSizeConcat([Word(TypeWord(p.body))], ConnectFields(c), SizeRem(rem, 4));
    SerSizeConcat([Word(c.port)], [Text(c.name)], SizeRem(rem, 8));
  }

  lemma {:induction false} ConnectCallsFrom(p: Packet, j: nat)
    requires p.body.ConnBody? && 1 <= j <= |p.body.conn.name| + 1
    ensures Calls(PacketFields(p), 12 + j) == |p.body.conn.name| + 2 - j
    decreases |p.body.conn.name| + 1 - j
  {
    ConnectSize(p, 12 + j);
    if j <= |p.body.conn.name| {
      ConnectCallsFrom(p, j + 1);
    }
  }

  /** On a buffer without room, a CONNECT packet takes two calls more than its name has bytes: the
      note that the loop runs once or twice holds only when the name is empty. */
  lemma ConnectCalls(p: Packet)
    requires p.body.ConnBody?
    ensures Calls(PacketFields(p), 0) == |p.body.conn.name| + 2
  {
    ConnectSize(p, 0);
    ConnectCallsFrom(p, 1);
  }
}
