/** Reading values one after another off a byte stream that arrives in pieces, for any
    self-delimiting format. */
module Streams {
  import opened Wire
  import opened Decode
  import opened SelfDelimiting

  ghost predicate Progress<T>(parse: seq<byte> -> Parsed<T>, b: seq<byte>) {
    parse(b).Done? ==> 0 < parse(b).next <= |b|
  }

  ghost predicate Retries<T>(parse: seq<byte> -> Parsed<T>, a: seq<byte>, b: seq<byte>) {
    a <= b ==> Cut(parse(a), parse(b), |a|)
  }

  /** A parser that makes progress and may be retried on any prefix. */
  ghost predicate Lawful<T>(parse: seq<byte> -> Parsed<T>) {
    && (forall b :: Progress(parse, b))
    && (forall a, b :: Retries(parse, a, b))
  }

  /** The values read off a stream, and the bytes left over. */
  datatype Drained<T> = Drained(values: seq<T>, rest: seq<byte>)

  /** Repeated `buffer_deserialize`, until it does not succeed. */
  function Drain<T>(parse: seq<byte> -> Parsed<T>, b: seq<byte>): (d: Drained<T>)
    requires Lawful(parse)
    decreases |b|
  {
    assert Progress(parse, b);
    match parse(b)
    case Done(v, n) =>
      var d := Drain(parse, b[n..]);
      Drained([v] + d.values, d.rest)
    case _ => Drained([], b)
  }

  lemma DrainAfter<T>(parse: seq<byte> -> Parsed<T>, b: seq<byte>, rest: seq<byte>)
    requires Lawful(parse) && Progress(parse, b) && parse(b).Done? && b[parse(b).next..] == rest
    ensures Drain(parse, b) == Drained([parse(b).val] + Drain(parse, rest).values, Drain(parse, rest).rest)
  {
    assert Progress(parse, b);
  }

  /** Cutting a stream anywhere and keeping the unread rest changes neither the values nor what is
      left over. */
  lemma {:induction false} DrainChunks<T>(parse: seq<byte> -> Parsed<T>, a: seq<byte>, b: seq<byte>)
    requires Lawful(parse)
    ensures var first := Drain(parse, a); var second := Drain(parse, first.rest + b);
            Drain(parse, a + b) == Drained(first.values + second.values, second.rest)
    decreases |a|
  {
    assert Progress(parse, a) && Retries(parse, a, a + b);
    if parse(a).Done? {
      assert Progress(parse, a + b);
      var rest := a[parse(a).next..];
      assert (a + b)[parse(a).next..] == rest + b;
      DrainAfter(parse, a, rest);
      DrainAfter(parse, a + b, rest + b);
      DrainChunks(parse, rest, b);
      var tail := Drain(parse, rest);
      var second := Drain(parse, tail.rest + b);
      assert [parse(a).val] + (tail.values + second.values) == ([parse(a).val] + tail.values) + second.values;
    } else {
      assert [] + Drain(parse, a + b).values == Drain(parse, a + b).values;
    }
  }

  function Concat(chunks: seq<seq<byte>>): seq<byte> {
    if chunks == [] then [] else chunks[0] + Concat(chunks[1..])
  }

  /** Reads deliver `chunks` one after the other; each time everything readable is taken out. */
  function Feed<T>(parse: seq<byte> -> Parsed<T>, d: Drained<T>, chunks: seq<seq<byte>>): Drained<T>
    requires Lawful(parse)
    decreases |chunks|
  {
    if chunks == [] then d
    else
      var next := Drain(parse, d.rest + chunks[0]);
      Feed(parse, Drained(d.values + next.values, next.rest), chunks[1..])
  }

  lemma {:induction false} FeedIsDrain<T>(parse: seq<byte> -> Parsed<T>, seen: seq<byte>, chunks: seq<seq<byte>>)
    requires Lawful(parse)
    ensures Feed(parse, Drain(parse, seen), chunks) == Drain(parse, seen + Concat(chunks))
    decreases |chunks|
  {
    if chunks == [] {
      assert seen + Concat(chunks) == seen;
    } else {
      DrainChunks(parse, seen, chunks[0]);
      FeedIsDrain(parse, seen + chunks[0], chunks[1..]);
      assert seen + chunks[0] + Concat(chunks[1..]) == seen + Concat(chunks);
    }
  }

  /** However a stream is cut into reads, the values read are those of the whole stream. */
  lemma AnyChunking<T>(parse: seq<byte> -> Parsed<T>, chunks: seq<seq<byte>>)
    requires Lawful(parse)
    ensures Feed(parse, Drained([], []), chunks) == Drain(parse, Concat(chunks))
  {
    assert Progress(parse, []);
    assert Drain(parse, []) == Drained([], []);
    FeedIsDrain(parse, [], chunks);
    assert [] + Concat(chunks) == Concat(chunks);
  }
}
