/** Byte strings and the big-endian integers that the AMF and memcached formats are made of. */
module Bytes {

  type byte = b: int | 0 <= b < 256

  function Pow256(w: nat): (p: nat) {
    if w == 0 then 1 else 256 * Pow256(w - 1)
  }

  /** The low w bytes of v, most significant byte first. */
  function BE(v: nat, w: nat): (s: seq<byte>)
    ensures |s| == w
  {
    if w == 0 then [] else BE(v / 256, w - 1) + [v % 256]
  }

  function FromBE(s: seq<byte>): (v: nat) {
    if s == [] then 0 else 256 * FromBE(s[..|s| - 1]) + s[|s| - 1]
  }

  lemma {:induction false} BERoundTrip(v: nat, w: nat)
    requires v < Pow256(w)
    ensures FromBE(BE(v, w)) == v
  {
    if w > 0 {
      BERoundTrip(v / 256, w - 1);
      assert BE(v, w)[..w - 1] == BE(v / 256, w - 1);
    }
  }

  lemma {:induction false} FromBEBounded(s: seq<byte>)
    ensures FromBE(s) < Pow256(|s|)
  {
    if s != [] {
      FromBEBounded(s[..|s| - 1]);
    }
  }

  /** Host integers are laid out in at most eight bytes. */
  lemma Widths()
    ensures Pow256(1) == 0x100 && Pow256(2) == 0x1_0000
    ensures Pow256(4) == 0x1_0000_0000 && Pow256(8) == 0x1_0000_0000_0000_0000
  {
    assert Pow256(3) == 0x100_0000;
    assert Pow256(5) == 0x100_0000_0000 && Pow256(6) == 0x1_0000_0000_0000;
    assert Pow256(7) == 0x100_0000_0000_0000;
  }

  lemma Split<T>(a: seq<T>, b: seq<T>)
    ensures (a + b)[..|a|] == a && (a + b)[|a|..] == b
  {
  }
}
