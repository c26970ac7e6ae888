/** Byte strings and their big-endian values. */
module Bytes {
  import opened Modular

  type Byte = b: nat | b < 256
  type bytes = seq<Byte>

  const TWO256: pos := 0x1_00000000_00000000_00000000_00000000_00000000_00000000_00000000_00000000

  const TWO64: pos := 0x1_0000_0000_0000_0000
  const TWO32: pos := 0x1_0000_0000

  /** The machine integers of the source. */
  type u64 = v: nat | v < TWO64
  type u32 = v: nat | v < TWO32

  /** A 32-byte string, read as a big-endian number. */
  type Bytes32 = b: nat | b < TWO256

  function Pow256(k: nat): pos {
    if k == 0 then 1 else 256 * Pow256(k - 1)
  }

  /** The number a byte string spells, most significant byte first. */
  function BE(bs: bytes): nat {
    if |bs| == 0 then 0 else 256 * BE(bs[..|bs| - 1]) + bs[|bs| - 1]
  }

  /** The `n` low-order bytes of a number, most significant first. */
  function ToBE(v: nat, n: nat): (bs: bytes)
    ensures |bs| == n
  {
    if n == 0 then [] else ToBE(v / 256, n - 1) + [v % 256]
  }

  lemma {:induction false} BEBound(bs: bytes)
    ensures BE(bs) < Pow256(|bs|)
  {
    if |bs| > 0 { BEBound(bs[..|bs| - 1]); }
  }

  lemma {:induction false} BEConcat(a: bytes, b: bytes)
    ensures BE(a + b) == BE(a) * Pow256(|b|) + BE(b)
  {
    if |b| == 0 {
      assert a + b == a;
    } else {
      var b' := b[..|b| - 1];
      assert (a + b)[..|a + b| - 1] == a + b';
      BEConcat(a, b');
      assert 256 * (BE(a) * Pow256(|b'|)) == BE(a) * (256 * Pow256(|b'|));
    }
  }

  lemma {:induction false} BEOfToBE(v: nat, n: nat)
    requires v < Pow256(n)
    ensures BE(ToBE(v, n)) == v
  {
    if n > 0 {
      BEOfToBE(v / 256, n - 1);
      assert ToBE(v, n)[..n - 1] == ToBE(v / 256, n - 1);
    }
  }

  lemma {:induction false} ToBEOfBE(bs: bytes)
    ensures ToBE(BE(bs), |bs|) == bs
  {
    if |bs| > 0 {
      var high, low := BE(bs[..|bs| - 1]), bs[|bs| - 1];
      ToBEOfBE(bs[..|bs| - 1]);
      assert (256 * high + low) / 256 == high && (256 * high + low) % 256 == low;
      assert bs == bs[..|bs| - 1] + [low];
    }
  }

  lemma {:induction false} Pow256Add(a: nat, b: nat)
    ensures Pow256(a + b) == Pow256(a) * Pow256(b)
  {
    if a > 0 {
      Pow256Add(a - 1, b);
      assert 256 * (Pow256(a - 1) * Pow256(b)) == 256 * Pow256(a - 1) * Pow256(b);
    }
  }

  lemma Pow256Of4()
    ensures Pow256(4) == 0x1_0000_0000
  {
  }

  lemma Pow256Of32()
    ensures Pow256(32) == TWO256
  {
    hide Pow256;
    Pow256Of4();
    Pow256Add(4, 4);
    Pow256Add(8, 8);
    Pow256Add(16, 16);
  }

  lemma WordBound(bs: bytes)
    requires |bs| == 32
    ensures BE(bs) < TWO256
  {
    BEBound(bs);
    Pow256Of32();
  }
}
