/** `struct buffer`: a growable array of bytes used as a first-in first-out queue. */
module Buffer {
  import opened Wire
  import opened Packet
  import opened Decode
  import opened Serialize
  import opened Deserialize
  import opened Retry

  ghost predicate PowerOfTwo(n: nat) {
    n == 1 || (n > 1 && n % 2 == 0 && PowerOfTwo(n / 2))
  }

  class Buffer {
    /** The block from `begin` to `end`; `ptr` is the offset of the first free byte. */
    var data: array<byte>
    var ptr: nat

    /** Bytes moved by reallocation so far. */
    ghost var copied: nat

    ghost predicate Valid()
      reads this
    {
      ptr <= data.Length
    }

    /** The queued bytes. */
    ghost function Contents(): seq<byte>
      reads this, data
      requires Valid()
    {
      data[..ptr]
    }

    function Size(): nat
      reads this
    {
      data.Length
    }

    function Used(): nat
      reads this
    {
      ptr
    }

    function Rem(): nat
      reads this
      requires Valid()
    {
      data.Length - ptr
    }

    constructor ()
      ensures Valid() && fresh(data)
      ensures Contents() == [] && Size() == 0 && copied == 0
    {
      data := new byte[0];
      ptr := 0;
      copied := 0;
    }

    method Resize(newsize: nat)
      requires Valid()
      modifies this
      ensures Valid() && fresh(data)
      ensures Size() == newsize && Used() == Min(old(Used()), newsize)
      ensures Contents() == old(Contents())[..Min(old(Used()), newsize)]
      ensures copied == old(copied) + Min(old(Size()), newsize)
    {
      var n := Min(data.Length, newsize);
      var block := new byte[newsize];
      forall i | 0 <= i < n {
        block[i] := data[i];
      }
      copied := copied + n;
      data := block;
      ptr := Min(ptr, newsize);
    }

    method Empty()
      modifies this`ptr
      ensures Valid() && Contents() == []
    {
      ptr := 0;
    }

    method Shift(shift: nat)
      requires Valid()
      modifies this`ptr, data
      ensures Valid()
      ensures Contents() == old(Contents())[Min(shift, old(Used()))..]
    {
      if shift >= ptr {
        Empty();
      } else {
        var newused := ptr - shift;
        forall i | 0 <= i < newused {
          data[i] := data[i + shift]; // memmove
        }
        ptr := newused;
      }
    }

    /** Makes sure there is room. */
    method Increase()
      requires Valid()
      modifies this
      ensures Valid() && Contents() == old(Contents()) && Rem() > 0
      ensures old(Rem()) > 0 ==> data == old(data) && copied == old(copied)
      ensures old(Rem()) == 0 ==>
        fresh(data) && Size() == Max(1, 2 * old(Size())) && copied == old(copied) + old(Size())
    {
      if Rem() == 0 {
        Resize(Max(1, data.Length * 2));
      }
    }

    /** The buffer has grown by doubling only: its capacity is a power of two and everything ever
        copied is one byte less than it. */
    ghost predicate Doubling()
      reads this
    {
      if data.Length == 0 then copied == 0 else PowerOfTwo(data.Length) && copied == data.Length - 1
    }

    /** One `read(2)`: of the bytes `incoming` that are waiting the kernel delivers at most `limit`
        and at most what there is room for. A buffer that only ever grows here has a capacity that
        is a power of two, of at most twice the most bytes it ever held. */
    method Read(incoming: seq<byte>, limit: nat, fail: bool) returns (n: int)
      requires Valid()
      modifies this, data
      ensures Valid() && (data == old(data) || fresh(data))
      ensures fail ==> n == -1 && Contents() == old(Contents())
      ensures !fail ==> 0 <= n <= Min(limit, |incoming|) && Contents() == old(Contents()) + incoming[..n]
      ensures !fail && n == 0 ==> limit == 0 || incoming == []
      ensures !fail ==> n == Min(Min(limit, Size() - old(Used())), |incoming|)
      ensures old(Doubling()) ==> Doubling()
      ensures forall peak: nat :: old(Used()) <= peak && old(Size()) <= Max(1, 2 * peak) ==> Size() <= Max(1, 2 * peak)
    {
      ghost var cap := data.Length;
      Increase();
      assert old(Doubling()) ==> Doubling() by {
        assert data.Length == 2 * cap && cap > 0 ==> data.Length / 2 == cap;
      }
      if fail {
        return -1;
      }
      n := Min(Min(limit, Rem()), |incoming|);
      Copy(data, ptr, incoming[..n]);
      ptr := ptr + n;
    }

    /** One `write(2)`, taking at most `limit` of the queued bytes; `sent` is what it took. */
    method Write(limit: nat, fail: bool) returns (n: int, sent: seq<byte>)
      requires Valid()
      modifies this`ptr, data
      ensures Valid()
      ensures fail ==> n == -1 && sent == [] && Contents() == old(Contents())
      ensures !fail ==> n == |sent| == Min(limit, |old(Contents())|) && sent + Contents() == old(Contents())
    {
      if fail {
        return -1, [];
      }
      n := Min(limit, ptr);
      sent := data[..n];
      Shift(n);
    }

    /** Appends a block, growing by exactly its length when it does not fit. */
    method Append(d: seq<byte>)
      requires Valid()
      modifies this, data
      ensures Valid() && (data == old(data) || fresh(data))
      ensures Contents() == old(Contents()) + d
    {
      if Rem() < |d| {
        Resize(data.Length + |d|);
      }
      Copy(data, ptr, d);
      ptr := ptr + |d|;
    }

    /** One attempt of the serialiser on the free space. */
    method Attempt(p: Packet, rem: nat) returns (used: nat)
      requires Valid() && ValidPacket(p) && rem == Rem()
      modifies data
      ensures Contents() == old(Contents())
      ensures used == SerSize(PacketFields(p), rem)
      ensures used <= rem ==> data[ptr..ptr + used] == Encode(p)
    {
      hide Encode, PacketFields, SerSize, Flatten, Put;
      used := SerializePkt(p, data, ptr, rem, data.Length);
      PutKeeps(old(data[..]), data[..], ptr, data.Length, PacketFields(p), used);
      EncodeIsFlatten(p);
      assert data[..ptr] == data[..][..ptr];
    }

    /** `buffer_serialize` for packets: retries with the room the serialiser asks for until it fits.
        The loop ends, and exactly the packet's encoding has been appended, after growing, if at all, to
        exactly the size this takes. */
    method SerializePacket(p: Packet) returns (used: nat, ghost calls: nat)
      requires Valid() && ValidPacket(p)
      modifies this, data
      ensures Valid() && (data == old(data) || fresh(data))
      ensures Contents() == old(Contents()) + Encode(p) && used == |Encode(p)|
      ensures calls == Calls(PacketFields(p), old(Rem()))
      ensures if calls == 1 then data == old(data) else Rem() == 0
    {
      hide Put, Encode, PacketFields, SerSize, Flatten;
      ghost var fs := PacketFields(p);
      ghost var queued := Contents();
      var rem := Rem();
      calls := 1;
      used := Attempt(p, rem);
      while used > rem
        invariant Valid() && rem == Rem() && Contents() == queued
        invariant data == old(data) || fresh(data)
        invariant calls >= 1 && (calls == 1 ==> data == old(data) && rem == old(Rem()))
        invariant calls > 1 ==> rem <= |Flatten(fs)|
        invariant used == SerSize(fs, rem)
        invariant used <= rem ==> data[ptr..ptr + used] == Encode(p)
        invariant Calls(fs, old(Rem())) == calls - 1 + Calls(fs, rem)
        decreases |Flatten(fs)| - rem
      {
        SerSizeRefinesEncoding(fs, rem);
        Resize(ptr + used);
        rem := used;
        used := Attempt(p, rem);
        calls := calls + 1;
      }
      SerSizeRefinesEncoding(fs, rem);
      assert data[..ptr + used] == data[..ptr] + data[ptr..ptr + used];
      ptr := ptr + used;
    }

    /** `buffer_deserialize` for packets: takes one packet off the queue when it is complete, and
        otherwise leaves the queue alone. `status` is 0 for success and 1 for "more bytes needed". */
    method DeserializePacket(cur: PktOut) returns (aborted: bool, status: int, out: PktOut)
      requires Valid() && PacketReady(Contents(), cur)
      modifies this`ptr, data
      ensures Valid()
      ensures var p := ParsePacket(old(Contents()));
        && (aborted <==> p.Unknown?)
        && (p.More? ==> status == 1 && Contents() == old(Contents()) && PacketReady(Contents(), out))
        && (p.Done? ==> status == 0 && Contents() == old(Contents())[p.next..] && ObservedPacket(out) == p.val)
    {
      hide ParsePacket, PacketReady, ObservedPacket;
      var required;
      aborted, required, out := DeserializePkt(data, ptr, cur);
      if aborted {
        return aborted, 1, out;
      }
      if required <= ptr {
        Shift(required);
        return false, 0, out;
      }
      return false, 1, out;
    }
  }

  /** What a serialiser of a packet leaves alone and what it writes, seen from the queue. */
  lemma PutKeeps(before: seq<byte>, after: seq<byte>, at: nat, end: nat, fs: seq<Field>, used: nat)
    requires at <= end == |before| && Put(before, after, at, end, fs, used)
    ensures |after| == |before| && after[..at] == before[..at]
    ensures used == SerSize(fs, end - at)
    ensures used <= end - at ==> after[at..at + used] == Flatten(fs)
  {
  }

  lemma EncodeIsFlatten(p: Packet)
    ensures Encode(p) == Flatten(PacketFields(p))
  {
  }
}
