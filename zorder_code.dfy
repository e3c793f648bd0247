/** The Morton code (`z_order`) on 64-bit words: bit `i` of `x` is moved to
    bit `2i` and bit `i` of `y` to bit `2i + 1`, for every `i < order`.
    Every quantity, the order and the loop counter included, is a `bv64`
    as in the source (`u64`); `order <= 63` because the source's
    `<< (i + 1)` would overflow the shift amount at `order == 64`. */
module ZOrderCode {

  /** Bit `k` of `v`. */
  predicate Bit(v: bv64, k: bv64)
    requires k < 64
  {
    (v >> k) & 1 == 1
  }

  /** The word the source ors into `z` in round `i` of the loop. */
  function Spread(x: bv64, y: bv64, i: bv64): bv64
    requires i < 63
  {
    ((x & (1 << i)) << i) | ((y & (1 << i)) << (i + 1))
  }

  /** The value of `z` after the first `n` rounds. */
  function Interleaved(x: bv64, y: bv64, n: bv64): bv64
    requires n <= 63
    decreases n
  {
    if n == 0 then 0 else Interleaved(x, y, n - 1) | Spread(x, y, n - 1)
  }

  /** One more round of the loop. */
  lemma Step(x: bv64, y: bv64, i: bv64, z: bv64)
    requires i < 63 && z == Interleaved(x, y, i)
    ensures z | Spread(x, y, i) == Interleaved(x, y, i + 1)
  {
  }

  /** `z_order(x, y, order)` (src/zorder_tree.rs:74-80). */
  method ZOrder(x: bv64, y: bv64, order: bv64) returns (z: bv64)
    requires order <= 63
    ensures z == Interleaved(x, y, order)
  {
    z := 0;
    var i: bv64 := 0;
    while i != order
      invariant i <= order
      invariant z == Interleaved(x, y, i)
      decreases order - i
    {
      Step(x, y, i, z);
      z := z | Spread(x, y, i);
      i := i + 1;
    }
  }

  lemma BitOr(a: bv64, b: bv64, k: bv64)
    requires k < 64
    ensures Bit(a | b, k) == (Bit(a, k) || Bit(b, k))
  {
  }

  lemma Unfold(x: bv64, y: bv64, n: bv64)
    requires 0 < n <= 63
    ensures Interleaved(x, y, n) == Interleaved(x, y, n - 1) | Spread(x, y, n - 1)
  {
  }

  /** Round `j` only sets bits `2j` and `2j + 1`. */
  lemma SpreadEven(x: bv64, y: bv64, j: bv64, i: bv64)
    requires j < 63 && i < 32
    ensures Bit(Spread(x, y, j), 2 * i) == (i == j && Bit(x, i))
  {
  }

  lemma SpreadOdd(x: bv64, y: bv64, j: bv64, i: bv64)
    requires j < 63 && i < 32
    ensures Bit(Spread(x, y, j), 2 * i + 1) == (i == j && Bit(y, i))
  {
  }

  /** Bits of `x` at or above the order never reach the code. */
  lemma {:induction false} EvenAbove(x: bv64, y: bv64, n: bv64, i: bv64)
    requires n <= 63 && n <= i < 32
    ensures !Bit(Interleaved(x, y, n), 2 * i)
    decreases n
  {
    if n > 0 {
      EvenAbove(x, y, n - 1, i);
      SpreadEven(x, y, n - 1, i);
      Unfold(x, y, n);
      BitOr(Interleaved(x, y, n - 1), Spread(x, y, n - 1), 2 * i);
    }
  }

  /** Bit `i < order` of `x` lands at bit `2i`. */
  lemma {:induction false} EvenBelow(x: bv64, y: bv64, n: bv64, i: bv64)
    requires n <= 63 && i < n && i < 32
    ensures Bit(Interleaved(x, y, n), 2 * i) == Bit(x, i)
    decreases n
  {
    Unfold(x, y, n);
    BitOr(Interleaved(x, y, n - 1), Spread(x, y, n - 1), 2 * i);
    SpreadEven(x, y, n - 1, i);
    if i < n - 1 {
      EvenBelow(x, y, n - 1, i);
    } else {
      EvenAbove(x, y, n - 1, i);
    }
  }

  /** Bits of `y` at or above the order never reach the code. */
  lemma {:induction false} OddAbove(x: bv64, y: bv64, n: bv64, i: bv64)
    requires n <= 63 && n <= i < 32
    ensures !Bit(Interleaved(x, y, n), 2 * i + 1)
    decreases n
  {
    if n > 0 {
      OddAbove(x, y, n - 1, i);
      SpreadOdd(x, y, n - 1, i);
      Unfold(x, y, n);
      BitOr(Interleaved(x, y, n - 1), Spread(x, y, n - 1), 2 * i + 1);
    }
  }

  /** Bit `i < order` of `y` lands at bit `2i + 1`. */
  lemma {:induction false} OddBelow(x: bv64, y: bv64, n: bv64, i: bv64)
    requires n <= 63 && i < n && i < 32
    ensures Bit(Interleaved(x, y, n), 2 * i + 1) == Bit(y, i)
    decreases n
  {
    Unfold(x, y, n);
    BitOr(Interleaved(x, y, n - 1), Spread(x, y, n - 1), 2 * i + 1);
    SpreadOdd(x, y, n - 1, i);
    if i < n - 1 {
      OddBelow(x, y, n - 1, i);
    } else {
      OddAbove(x, y, n - 1, i);
    }
  }

  /** Every bit of the code: bits `2i` and `2i + 1` (`i < 32`) cover the
      whole word, so this determines the code completely. */
  lemma InterleavedBits(x: bv64, y: bv64, n: bv64, i: bv64)
    requires n <= 63 && i < 32
    ensures Bit(Interleaved(x, y, n), 2 * i) == (i < n && Bit(x, i))
    ensures Bit(Interleaved(x, y, n), 2 * i + 1) == (i < n && Bit(y, i))
  {
    if i < n {
      EvenBelow(x, y, n, i);
      OddBelow(x, y, n, i);
    } else {
      EvenAbove(x, y, n, i);
      OddAbove(x, y, n, i);
    }
  }

  /** For words of three bits the code is settled after three rounds. */
  lemma {:induction false} Settled(x: bv64, y: bv64, n: bv64)
    requires x & 0xFFFF_FFFF_FFFF_FFF8 == 0 && y & 0xFFFF_FFFF_FFFF_FFF8 == 0
    requires 3 <= n <= 63
    ensures Interleaved(x, y, n) == Spread(x, y, 0) | Spread(x, y, 1) | Spread(x, y, 2)
    decreases n
  {
    if n == 3 {
      Unfold(x, y, 3);
      Unfold(x, y, 2);
      Unfold(x, y, 1);
      assert Interleaved(x, y, 0) == 0;
    } else {
      Settled(x, y, n - 1);
      Unfold(x, y, n);
      assert Spread(x, y, n - 1) == 0;
    }
  }

  /** The unit test of the source (src/zorder_tree.rs:99-107). */
  lemma TestVectorsLow()
    ensures Interleaved(0, 0, 10) == 0
    ensures Interleaved(1, 0, 10) == 1
    ensures Interleaved(0, 1, 10) == 2
    ensures Interleaved(1, 1, 10) == 3
  {
    Settled(0, 0, 10);
    Settled(1, 0, 10);
    Settled(0, 1, 10);
    Settled(1, 1, 10);
  }

  lemma TestVectorsHigh()
    ensures Interleaved(2, 0, 10) == 4
    ensures Interleaved(2, 2, 10) == 12
    ensures Interleaved(7, 7, 10) == 63
  {
    Settled(2, 0, 10);
    Settled(2, 2, 10);
    Settled(7, 7, 10);
  }
}
