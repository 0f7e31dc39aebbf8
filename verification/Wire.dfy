/** The byte-level vocabulary of the wire format: words, NUL-terminated texts and raw blobs,
    and the size a bounded serialiser reports for a list of them. */
module Wire {
  type byte = x: int | 0 <= x < 256
  type u32 = x: int | 0 <= x < 0x1_0000_0000
  type i32 = x: int | -0x8000_0000 <= x < 0x8000_0000

  /** A `uint64_t`, held as the two words it travels in. */
  datatype Wide = Wide(high: u32, low: u32)

  /** A C string without its terminator. */
  type cstr = s: seq<byte> | 0 !in s

  // ---- integers ----

  /** Network byte order. */
  function BigEndian(w: u32): (r: seq<byte>)
    ensures |r| == 4
  {
    [w / 0x100_0000, w / 0x1_0000 % 0x100, w / 0x100 % 0x100, w % 0x100]
  }

  function FromBigEndian(b: seq<byte>): u32
    requires |b| == 4
  {
    b[0] as int * 0x100_0000 + b[1] as int * 0x1_0000 + b[2] as int * 0x100 + b[3]
  }

  /** The most significant byte comes first. */
  lemma BigEndianMeans(w: u32)
    ensures var b := BigEndian(w);
      w == 0x100_0000 * b[0] as int + 0x1_0000 * b[1] as int + 0x100 * b[2] as int + b[3]
  {
    assert w / 0x100 == w / 0x1_0000 * 0x100 + w / 0x100 % 0x100;
  }

  lemma BigEndianInverse(w: u32)
    ensures FromBigEndian(BigEndian(w)) == w
  {
    assert w / 0x100 == w / 0x1_0000 * 0x100 + w / 0x100 % 0x100;
  }

  lemma FromBigEndianInverse(b: seq<byte>)
    requires |b| == 4
    ensures BigEndian(FromBigEndian(b)) == b
  {
    var w := FromBigEndian(b);
    assert w / 0x100 == b[0] as int * 0x1_0000 + b[1] as int * 0x100 + b[2];
    assert w / 0x1_0000 == b[0] as int * 0x100 + b[1];
  }

  const WIDE_LIMIT := 0x1_0000_0000_0000_0000

  function Value(x: Wide): (n: nat)
    ensures n < WIDE_LIMIT
  {
    x.high as int * 0x1_0000_0000 + x.low as int
  }

  function ToWide(n: nat): (x: Wide)
    requires n < WIDE_LIMIT
    ensures Value(x) == n
  {
    Wide(n / 0x1_0000_0000, n % 0x1_0000_0000)
  }

  /** The cast `(uint32_t)` of a signed value, and its inverse. */
  function Unsigned(x: i32): u32 { if x < 0 then x + 0x1_0000_0000 else x }

  function Signed(w: u32): i32 { if w < 0x8000_0000 then w else w - 0x1_0000_0000 }

  /** Both keep the value modulo 2^32. */
  lemma CastsCongruent(x: i32, w: u32)
    ensures Unsigned(x) == x || Unsigned(x) == x + 0x1_0000_0000
    ensures Signed(w) == w || Signed(w) == w - 0x1_0000_0000
    ensures Signed(Unsigned(x)) == x && Unsigned(Signed(w)) == w
  {
  }

  /** What `(int32_t)` followed by the implicit conversion back to `uint64_t` makes of a value:
      its low 32 bits, sign-extended. */
  function SignExtend(x: Wide): Wide {
    Wide(if x.low < 0x8000_0000 then 0 else 0xFFFF_FFFF, x.low)
  }

  /** It is congruent modulo 2^64 to the signed value of the low word. */
  lemma SignExtendMeans(x: Wide)
    ensures Value(SignExtend(x)) == Signed(x.low) || Value(SignExtend(x)) == Signed(x.low) + WIDE_LIMIT
  {
  }

  function Min(a: nat, b: nat): (r: nat)
    ensures r <= a && r <= b && (r == a || r == b)
  {
    if a < b then a else b
  }

  function Max(a: nat, b: nat): (r: nat)
    ensures r >= a && r >= b && (r == a || r == b)
  {
    if a < b then b else a
  }

  /** `sizerem` */
  function SizeRem(nbytes: nat, used: nat): (r: nat)
    ensures nbytes <= used ==> r == 0
    ensures used <= nbytes ==> r + used == nbytes
  {
    if nbytes >= used then nbytes - used else 0
  }

  // ---- fields ----

  datatype Field = Word(w: u32) | Text(s: cstr) | Blob(d: seq<byte>)

  function Bytes(f: Field): seq<byte> {
    match f
    case Word(w) => BigEndian(w)
    case Text(s) => s + [0]
    case Blob(d) => d
  }

  /** The encoding of a list of fields. */
  function Flatten(fs: seq<Field>): seq<byte> {
    if fs == [] then [] else Bytes(fs[0]) + Flatten(fs[1..])
  }

  lemma {:induction false} FlattenConcat(f: seq<Field>, g: seq<Field>)
    ensures Flatten(f + g) == Flatten(f) + Flatten(g)
  {
    if f == [] {
      assert f + g == g;
    } else {
      assert (f + g)[1..] == f[1..] + g;
      calc {
        Flatten(f + g);
        Bytes(f[0]) + Flatten(f[1..] + g);
        { FlattenConcat(f[1..], g); }
        Bytes(f[0]) + (Flatten(f[1..]) + Flatten(g));
        Flatten(f) + Flatten(g);
      }
    }
  }

  lemma FlattenOne(f: Field)
    ensures Flatten([f]) == Bytes(f)
  {
    assert [f][1..] == [];
  }

  // ---- what a bounded serialiser reports ----

  /** A string is measured with strnlen, so a short buffer hides its true length. */
  function FieldSize(f: Field, nbytes: nat): nat {
    match f
    case Word(_) => 4
    case Text(s) => Min(|s|, nbytes) + 1
    case Blob(d) => |d|
  }

  /** The total of `used += f(buf + used, sizerem(nbytes, used))` over the fields. */
  function SerSize(fs: seq<Field>, nbytes: nat): nat {
    if fs == [] then 0
    else
      var used := FieldSize(fs[0], nbytes);
      used + SerSize(fs[1..], SizeRem(nbytes, used))
  }

  lemma {:induction false} SerSizeConcat(f: seq<Field>, g: seq<Field>, nbytes: nat)
    ensures SerSize(f + g, nbytes)
         == SerSize(f, nbytes) + SerSize(g, SizeRem(nbytes, SerSize(f, nbytes)))
  {
    hide FieldSize;
    if f == [] {
      assert f + g == g;
    } else {
      SerSizeConcat(f[1..], g, SizeRem(nbytes, FieldSize(f[0], nbytes)));
      assert (f + g)[0] == f[0] && (f + g)[1..] == f[1..] + g;
    }
  }

  /** The reported size decides exactly whether the encoding fits, is the true length when it
      does, and is a usable lower bound (more than was offered) when it does not. */
  lemma {:induction false} SerSizeRefinesEncoding(fs: seq<Field>, nbytes: nat)
    ensures SerSize(fs, nbytes) <= nbytes <==> |Flatten(fs)| <= nbytes
    ensures SerSize(fs, nbytes) <= nbytes ==> SerSize(fs, nbytes) == |Flatten(fs)|
    ensures SerSize(fs, nbytes) <= |Flatten(fs)|
  {
    if fs != [] {
      SerSizeRefinesEncoding(fs[1..], SizeRem(nbytes, FieldSize(fs[0], nbytes)));
    }
  }
}
