/** Bytes, the two line-break bytes, and the input sources jsonpp reads from. */
module Streams {

  /** A Go `byte` (`uint8`). */
  newtype byte = x: int | 0 <= x < 256

  type Bytes = seq<byte>

  /** The line feed `'\n'`, the unit separator of line mode. */
  const NL: byte := 10

  /** The carriage return `'\r'`. */
  const CR: byte := 13

  /** An opened input: the bytes the stream delivers, followed either by a
      clean end of stream (`broken == false`) or by a read error. */
  datatype Source = Source(data: Bytes, broken: bool)

  /** The bytes of `units` laid end to end. */
  function Concat(units: seq<Bytes>): Bytes
  {
    if units == [] then [] else units[0] + Concat(units[1..])
  }

  lemma {:induction false} ConcatAppend(a: seq<Bytes>, b: seq<Bytes>)
    ensures Concat(a + b) == Concat(a) + Concat(b)
    decreases |a|
  {
    if a == [] {
      assert a + b == b;
    } else {
      assert (a + b)[0] == a[0];
      assert (a + b)[1..] == a[1..] + b;
      ConcatAppend(a[1..], b);
    }
  }

  lemma ConcatCons(u: Bytes, us: seq<Bytes>)
    ensures Concat([u] + us) == u + Concat(us)
  {
    assert ([u] + us)[0] == u && ([u] + us)[1..] == us;
  }

  lemma ConcatDropLast(us: seq<Bytes>)
    requires us != []
    ensures Concat(us) == Concat(us[..|us| - 1]) + us[|us| - 1]
  {
    var last := us[|us| - 1];
    assert us == us[..|us| - 1] + [last];
    ConcatAppend(us[..|us| - 1], [last]);
    ConcatCons(last, []);
    assert last + [] == last;
  }
}
