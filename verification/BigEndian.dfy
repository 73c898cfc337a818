/** Big-endian integers, the only number format on the wire and on disk. */
module BigEndian {
  import opened Prelude

  function Pow256(width: nat): (p: nat)
    ensures p > 0
  {
    if width == 0 then 1 else 256 * Pow256(width - 1)
  }

  /** The base-256 digit of `n` at position `k`, counted from the least significant one. */
  function Digit(n: nat, k: nat): byte {
    if k == 0 then n % 256 else Digit(n / 256, k - 1)
  }

  /** The `width` big-endian bytes of `n` (the high bytes of a larger `n` are cut off). */
  function ToBE(n: nat, width: nat): (b: Bytes)
    ensures |b| == width
  {
    seq(width, i requires 0 <= i < width => Digit(n, width - 1 - i))
  }

  lemma ToBEStep(n: nat, width: nat)
    requires width > 0
    ensures ToBE(n, width) == ToBE(n / 256, width - 1) + [n % 256]
  {
    var b := ToBE(n, width);
    forall i | 0 <= i < width - 1 ensures b[i] == ToBE(n / 256, width - 1)[i] {
      assert b[i] == Digit(n, width - 1 - i) == Digit(n / 256, width - 2 - i);
    }
    assert b[width - 1] == Digit(n, 0);
  }

  function FromBE(b: Bytes): (n: nat)
    ensures n < Pow256(|b|)
  {
    if b == [] then 0 else 256 * FromBE(b[..|b| - 1]) + b[|b| - 1]
  }

  lemma {:induction false} FromToBE(n: nat, width: nat)
    requires n < Pow256(width)
    ensures FromBE(ToBE(n, width)) == n
  {
    if width == 0 {
    } else {
      FromToBE(n / 256, width - 1);
      ToBEStep(n, width);
      var b := ToBE(n, width);
      assert b[..width - 1] == ToBE(n / 256, width - 1);
    }
  }

  lemma {:induction false} ToFromBE(b: Bytes)
    ensures ToBE(FromBE(b), |b|) == b
  {
    if b == [] {
    } else {
      var front := b[..|b| - 1];
      ToFromBE(front);
      assert FromBE(b) / 256 == FromBE(front) && FromBE(b) % 256 == b[|b| - 1];
      ToBEStep(FromBE(b), |b|);
      assert b == front + [b[|b| - 1]];
    }
  }

  lemma Widths()
    ensures Pow256(2) == U16_MAX + 1
    ensures Pow256(4) == U32_MAX + 1
    ensures Pow256(8) == U64_MAX + 1
  {
    assert Pow256(4) == 256 * (256 * (256 * (256 * Pow256(0))));
    assert Pow256(8) == 256 * (256 * (256 * (256 * Pow256(4))));
  }

  lemma {:induction false} PowSum(a: nat, b: nat)
    ensures Pow256(a + b) == Pow256(a) * Pow256(b)
  {
    if a == 0 {
    } else {
      PowSum(a - 1, b);
      assert 256 * (Pow256(a - 1) * Pow256(b)) == (256 * Pow256(a - 1)) * Pow256(b);
    }
  }

  lemma WideWidths()
    ensures Pow256(16) == ID_LIMIT
    ensures Pow256(32) == KEY_LIMIT
  {
    Widths();
    PowSum(8, 8);
    PowSum(16, 16);
  }

  function ReadU16(b: Bytes): u16
    requires |b| == 2
  {
    Widths(); FromBE(b)
  }

  function ReadU32(b: Bytes): u32
    requires |b| == 4
  {
    Widths(); FromBE(b)
  }

  function ReadU64(b: Bytes): u64
    requires |b| == 8
  {
    Widths(); FromBE(b)
  }

  lemma RoundTripU16(n: u16)
    ensures ReadU16(ToBE(n, 2)) == n
  {
    Widths();
    FromToBE(n, 2);
  }

  lemma RoundTripU32(n: u32)
    ensures ReadU32(ToBE(n, 4)) == n
  {
    Widths();
    FromToBE(n, 4);
  }

  lemma RoundTripU64(n: u64)
    ensures ReadU64(ToBE(n, 8)) == n
  {
    Widths();
    FromToBE(n, 8);
  }

  function ReadId(b: Bytes): Id
    requires |b| == 16
  {
    WideWidths(); FromBE(b)
  }

  function ReadKey(b: Bytes): Key
    requires |b| == 32
  {
    WideWidths(); FromBE(b)
  }

  lemma RoundTripId(n: Id)
    ensures ReadId(ToBE(n, 16)) == n
  {
    WideWidths();
    FromToBE(n, 16);
  }

  lemma RoundTripKey(n: Key)
    ensures ReadKey(ToBE(n, 32)) == n
  {
    WideWidths();
    FromToBE(n, 32);
  }

  lemma OneIsOne(b: Bytes)
    requires |b| == 2
    ensures ReadU16(b) == 1 <==> b == [0, 1]
  {
    assert FromBE(b) == 256 * FromBE(b[..1]) + b[1];
    assert FromBE(b[..1]) == 256 * FromBE(b[..1][..0]) + b[0];
    assert b[..1][..0] == [];
  }
}
