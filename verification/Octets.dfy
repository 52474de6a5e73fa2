/** Bytes and sequences of pieces. */
module Octets {

  type Byte = b: nat | b < 256 witness 0

  function Concat(parts: seq<seq<Byte>>): seq<Byte> {
    if parts == [] then [] else parts[0] + Concat(parts[1..])
  }

  lemma {:induction false} ConcatLast(parts: seq<seq<Byte>>, more: seq<Byte>)
    ensures Concat(parts + [more]) == Concat(parts) + more
  {
    if parts == [] {
      assert [more][1..] == [];
    } else {
      assert (parts + [more])[1..] == parts[1..] + [more];
      ConcatLast(parts[1..], more);
    }
  }
}
