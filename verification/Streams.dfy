/** Buffers strung together, as the stream machines of both directions need them. */
module Streams {
  import opened Bits

  datatype Option<T> = None | Some(value: T)

  /** The bytes of all buffers, in order. */
  function Flat(b: seq<seq<Byte>>): seq<Byte> {
    if b == [] then [] else Flat(b[..|b| - 1]) + b[|b| - 1]
  }

  lemma FlatSnoc(b: seq<seq<Byte>>, x: seq<Byte>)
    ensures Flat(b + [x]) == Flat(b) + x
  {
    assert (b + [x])[..|b|] == b;
  }

  lemma {:induction false} FlatAppend(a: seq<seq<Byte>>, b: seq<seq<Byte>>)
    ensures Flat(a + b) == Flat(a) + Flat(b)
    decreases |b|
  {
    if b == [] {
      assert a + b == a;
    } else {
      var front := b[..|b| - 1];
      assert a + b == a + front + [b[|b| - 1]];
      FlatAppend(a, front);
      FlatSnoc(a + front, b[|b| - 1]);
    }
  }

  /** Reading from the front: the oldest buffer first. */
  lemma FlatHead(b: seq<seq<Byte>>)
    requires b != []
    ensures Flat(b) == b[0] + Flat(b[1..])
  {
    assert b == [b[0]] + b[1..];
    FlatAppend([b[0]], b[1..]);
    assert [b[0]][..0] == [];
    assert [] + b[0] == b[0];
  }
}
