/** Raw bytes and the small sequence helpers shared by the reader, the
    splitter and the counter. */
module Bytes {

  /** An unsigned 8-bit value, as Rust's `u8`. */
  type byte = bv8

  function Min(a: nat, b: nat): nat
  {
    if a <= b then a else b
  }

  /** `k` copies of the byte `b`. */
  function Repeat(b: byte, k: nat): (r: seq<byte>)
    ensures |r| == k
  {
    seq(k, _ => b)
  }

  /** The concatenation of a sequence of byte groups, first to last. */
  function Flatten(gs: seq<seq<byte>>): seq<byte>
  {
    if gs == [] then [] else gs[0] + Flatten(gs[1..])
  }

  /** Appending one more chunk appends its bytes at the end. */
  lemma {:induction false} FlattenSnoc(gs: seq<seq<byte>>, g: seq<byte>)
    ensures Flatten(gs + [g]) == Flatten(gs) + g
  {
    if gs == [] {
      assert [] + [g] == [g];
      assert Flatten([g]) == g + Flatten([]);
    } else {
      assert (gs + [g])[1..] == gs[1..] + [g];
      FlattenSnoc(gs[1..], g);
    }
  }

  /** The sum of a sequence of sizes, accumulated from the last one back. */
  function Sum(s: seq<nat>): nat
  {
    if s == [] then 0 else Sum(s[..|s| - 1]) + s[|s| - 1]
  }
}
