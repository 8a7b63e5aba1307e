/** The memory layout of the fixed-size pool: a header, one link node per block and one for the
    sentinel, then the blocks. */
module PoolLayout {
  import opened Modular

  const HEADER_SIZE: nat := 88  // eleven 8-byte fields
  const LINK_SIZE: nat := 16    // two 8-byte slot numbers

  function Pow2(k: nat): (p: nat)
    ensures p >= 1
  {
    if k == 0 then 1 else 2 * Pow2(k - 1)
  }

  /** Bitwise and of two numbers of `w` bits, and the complement within `w` bits. */
  function BitAnd(w: nat, x: nat, y: nat): nat
  {
    if w == 0 then 0 else (x % 2) * (y % 2) + 2 * BitAnd(w - 1, x / 2, y / 2)
  }

  function BitNot(w: nat, x: nat): nat
    requires x < Pow2(w)
  {
    Pow2(w) - 1 - x
  }

  lemma Pow2Mono(k: nat, w: nat)
    requires k <= w
    ensures Pow2(k) <= Pow2(w)
    decreases w
  {
    if k < w {
      Pow2Mono(k, w - 1);
    }
  }

  lemma HalfMod(x: nat, p: nat)
    requires 0 < p
    ensures x % (2 * p) == 2 * ((x / 2) % p) + x % 2
  {
    var d, r := (x / 2) / p, (x / 2) % p;
    assert x / 2 == p * d + r;
    assert (2 * p) * d == 2 * (p * d);
    DivModUnique(x, 2 * p, d, 2 * r + x % 2);
  }

  lemma {:induction false} MaskWithOnes(w: nat, x: nat)
    requires x < Pow2(w)
    ensures BitAnd(w, x, Pow2(w) - 1) == x
    decreases w
  {
    if w > 0 {
      MaskWithOnes(w - 1, x / 2);
      var y := Pow2(w) - 1;
      assert y == 2 * (Pow2(w - 1) - 1) + 1;
      assert y % 2 == 1 && y / 2 == Pow2(w - 1) - 1;
    }
  }

  lemma BitAndEven(w: nat, x: nat, z: nat)
    requires 0 < w
    ensures BitAnd(w, x, 2 * z) == 2 * BitAnd(w - 1, x / 2, z)
  {
    assert (2 * z) % 2 == 0 && (2 * z) / 2 == z;
  }

  lemma Pow2Double(k: nat)
    ensures Pow2(0) == 1
    ensures k > 0 ==> Pow2(k) == 2 * Pow2(k - 1)
  {
  }

  lemma MaskStep(w: nat, x: nat, p: nat, q: nat)
    requires 0 < w && 0 < p <= q
    requires BitAnd(w - 1, x / 2, q - p) == x / 2 - (x / 2) % p
    ensures BitAnd(w, x, 2 * q - 2 * p) == x - x % (2 * p)
  {
    hide BitAnd;
    BitAndEven(w, x, q - p);
    HalfMod(x, p);
    assert 2 * (q - p) == 2 * q - 2 * p;
  }

  /** The low k bits are cleared by masking with the complement of 2^k - 1. */
  lemma {:induction false} MaskClearsLowBits(w: nat, x: nat, k: nat)
    requires k <= w && x < Pow2(w)
    ensures Pow2(k) <= Pow2(w) && BitAnd(w, x, Pow2(w) - Pow2(k)) == x - x % Pow2(k)
    decreases w
  {
    hide BitAnd, Pow2;
    Pow2Mono(k, w);
    if k == 0 {
      Pow2Double(0);
      MaskWithOnes(w, x);
      assert x % 1 == 0;
    } else {
      Pow2Double(k);
      Pow2Double(w);
      MaskClearsLowBits(w - 1, x / 2, k - 1);
      MaskStep(w, x, Pow2(k - 1), Pow2(w - 1));
    }
  }

  const WORD: nat := 64

  /** `bytes` rounded up, as the code computes it on 64-bit words; the alignment is 2^k. */
  function AlignBytes(bytes: nat, k: nat): nat
    requires k <= WORD
  {
    Pow2Mono(k, WORD);
    BitAnd(WORD, (bytes + Pow2(k) - 1) % Pow2(WORD), BitNot(WORD, Pow2(k) - 1))
  }

  lemma RoundsDown(bytes: nat, k: nat)
    requires k <= WORD && bytes + Pow2(k) - 1 < Pow2(WORD)
    ensures var s := bytes + Pow2(k) - 1; AlignBytes(bytes, k) == s - s % Pow2(k)
  {
    hide Pow2, BitAnd;
    var s := bytes + Pow2(k) - 1;
    Pow2Mono(k, WORD);
    DivModUnique(s, Pow2(WORD), 0, s);
    MaskClearsLowBits(WORD, s, k);
  }

  /** Multiples of `a` compare like their quotients. */
  lemma LeastMultiple(a: nat, bytes: nat, m: nat)
    requires 0 < a && m % a == 0 && bytes <= m
    ensures var s := bytes + a - 1; s - s % a <= m
  {
    var s := bytes + a - 1;
    var q := s / a;
    assert s - s % a == a * q && m == a * (m / a);
    if m / a < q {
      MulGap(a, m / a, q);
    } else if q < m / a {
      MulGap(a, q, m / a);
    }
  }

  /** Rounding up gives the least multiple of the alignment that is not below the input, as long as
      the sum does not overflow. */
  lemma AlignIsLeastMultiple(bytes: nat, k: nat)
    requires k <= WORD && bytes + Pow2(k) - 1 < Pow2(WORD)
    ensures var r, a := AlignBytes(bytes, k), Pow2(k);
      r % a == 0 && bytes <= r < bytes + a && forall m: nat :: m % a == 0 && bytes <= m ==> r <= m
  {
    hide AlignBytes, Pow2;
    var a := Pow2(k);
    var s := bytes + a - 1;
    RoundsDown(bytes, k);
    assert s - s % a == a * (s / a) + 0;
    DivModUnique(s - s % a, a, s / a, 0);
    forall m: nat | m % a == 0 && bytes <= m ensures s - s % a <= m {
      LeastMultiple(a, bytes, m);
    }
  }

  /** Exactly when the sum overflows the result is not even as large as the input: it is 0. */
  lemma AlignFailsIffOverflow(bytes: nat, k: nat)
    requires k <= WORD && 0 < bytes < Pow2(WORD)
    ensures AlignBytes(bytes, k) < bytes <==> bytes + Pow2(k) - 1 >= Pow2(WORD)
    ensures AlignBytes(bytes, k) < bytes ==> AlignBytes(bytes, k) == 0
  {
    hide Pow2, BitAnd;
    var s := bytes + Pow2(k) - 1;
    Pow2Mono(k, WORD);
    if s < Pow2(WORD) {
      hide AlignBytes;
      AlignIsLeastMultiple(bytes, k);
    } else {
      DivModUnique(s, Pow2(WORD), 1, s - Pow2(WORD));
      MaskClearsLowBits(WORD, s - Pow2(WORD), k);
      DivModUnique(s - Pow2(WORD), Pow2(k), 0, s - Pow2(WORD));
    }
  }

  /** For instance the largest 64-bit size, with blocks of eight bytes. */
  lemma AlignOverflows()
    ensures AlignBytes(Pow2(WORD) - 1, 3) == 0
  {
    hide AlignBytes, Pow2;
    Pow2Double(3);
    Pow2Double(2);
    Pow2Double(1);
    Pow2Mono(3, WORD);
    AlignFailsIffOverflow(Pow2(WORD) - 1, 3);
  }

  // ------------------------------------------------------------ layout

  /** Size in bytes of a pool of `maxNum` blocks of `nodeSize` bytes. */
  function CalcNeedSize(maxNum: nat, nodeSize: nat, k: nat): nat
    requires k <= WORD
  {
    ValueOffset(maxNum, k) + maxNum * AlignBytes(nodeSize, k)
  }

  /** Where the first block starts, relative to the header. */
  function ValueOffset(maxNum: nat, k: nat): nat
    requires k <= WORD
  {
    AlignBytes(HEADER_SIZE + (maxNum + 1) * LINK_SIZE, k)
  }

  function LinkStart(i: nat): nat { HEADER_SIZE + i * LINK_SIZE }

  /** The block with the given slot number, relative to the header. */
  function BlockStart(valueOffset: nat, tSize: nat, i: int): int
  {
    valueOffset + (i - 1) * tSize
  }

  /** The slot number of the block that starts at `p`, 0 if none does. */
  function PtrToInt(base: int, valueOffset: nat, tSize: nat, p: int): int
    requires 0 < tSize
  {
    if p < base + valueOffset then 0
    else
      var offset := p - base - valueOffset;
      if offset % tSize != 0 then 0 else offset / tSize + 1
  }

  /** Slot numbers and block starts correspond; every other address maps to 0. */
  lemma PtrIntInverse(base: int, valueOffset: nat, tSize: nat, p: int, i: int)
    requires 0 < tSize && 1 <= i
    ensures PtrToInt(base, valueOffset, tSize, p) == i <==> p == base + BlockStart(valueOffset, tSize, i)
  {
    var offset := p - base - valueOffset;
    if p == base + BlockStart(valueOffset, tSize, i) {
      assert offset == tSize * (i - 1) + 0;
      assert offset >= 0;
      DivModUnique(offset, tSize, i - 1, 0);
    }
  }

  lemma PtrNonNegative(base: int, valueOffset: nat, tSize: nat, p: int)
    requires 0 < tSize
    ensures PtrToInt(base, valueOffset, tSize, p) >= 0
  {
    var offset := p - base - valueOffset;
    if offset >= 0 {
      assert offset == tSize * (offset / tSize) + offset % tSize;
      if offset / tSize < 0 {
        MulGap(tSize, offset / tSize, 0);
      }
    }
  }

  /** The address right behind a block is the next block's, so blocks do not overlap. */
  lemma BlocksApart(valueOffset: nat, tSize: nat, i: int, j: int)
    requires 1 <= i < j
    ensures BlockStart(valueOffset, tSize, i) + tSize <= BlockStart(valueOffset, tSize, j)
  {
    MulGap(tSize, i - 1, j - 1);
  }

  /** The header and the link nodes lie below the blocks, the blocks lie one behind the other inside
      the computed size, and each is large enough for a node and aligned like the first. */
  lemma LayoutFits(maxNum: nat, nodeSize: nat, k: nat, i: int)
    requires k <= WORD && 1 <= i <= maxNum
    requires HEADER_SIZE + (maxNum + 1) * LINK_SIZE + Pow2(k) - 1 < Pow2(WORD) && nodeSize + Pow2(k) - 1 < Pow2(WORD)
    ensures var vo, t := ValueOffset(maxNum, k), AlignBytes(nodeSize, k);
      && nodeSize <= t
      && LinkStart(i) + LINK_SIZE <= LinkStart(maxNum) + LINK_SIZE <= vo <= BlockStart(vo, t, i)
      && BlockStart(vo, t, i) + t <= CalcNeedSize(maxNum, nodeSize, k)
      && BlockStart(vo, t, i) % Pow2(k) == 0
  {
    hide AlignBytes, Pow2;
    AlignIsLeastMultiple(HEADER_SIZE + (maxNum + 1) * LINK_SIZE, k);
    AlignIsLeastMultiple(nodeSize, k);
    var vo, t, a := ValueOffset(maxNum, k), AlignBytes(nodeSize, k), Pow2(k);
    hide ValueOffset;
    BlocksApart(vo, t, i, maxNum + 1);
    assert BlockStart(vo, t, 1) == vo;
    if i > 1 {
      BlocksApart(vo, t, 1, i);
    }
    SumOfMultiples(vo, t, i - 1, a);
  }

  lemma SumOfMultiples(x: nat, t: nat, n: nat, a: nat)
    requires 0 < a && x % a == 0 && t % a == 0
    ensures (x + n * t) % a == 0
  {
    var d := t / a;
    assert t == a * d;
    assert n * t == a * (n * d) by {
      assert n * (a * d) == a * (n * d);
    }
    ModAddMultiple(x, a, n * d);
  }

  /** The least multiple of the alignment that is not below the size. */
  ghost predicate LeastAligned(size: nat, a: nat, r: nat) {
    0 < a && r % a == 0 && size <= r && forall m: nat :: m % a == 0 && size <= m ==> r <= m
  }

  /** Nothing is wasted: the first block starts at the least aligned place behind the links, each block takes the least
      aligned size and starts where the one before it ends, and the computed size ends with the last block. */
  lemma LayoutExact(maxNum: nat, nodeSize: nat, k: nat, i: nat)
    requires k <= WORD && 1 <= i
    requires HEADER_SIZE + (maxNum + 1) * LINK_SIZE + Pow2(k) - 1 < Pow2(WORD) && nodeSize + Pow2(k) - 1 < Pow2(WORD)
    ensures var vo, t := ValueOffset(maxNum, k), AlignBytes(nodeSize, k);
      && LeastAligned(LinkStart(maxNum) + LINK_SIZE, Pow2(k), vo)
      && LeastAligned(nodeSize, Pow2(k), t)
      && BlockStart(vo, t, 1) == vo
      && BlockStart(vo, t, i + 1) == BlockStart(vo, t, i) + t
      && CalcNeedSize(maxNum, nodeSize, k) == BlockStart(vo, t, maxNum + 1)
  {
    hide AlignBytes, Pow2;
    AlignIsLeastMultiple(HEADER_SIZE + (maxNum + 1) * LINK_SIZE, k);
    AlignIsLeastMultiple(nodeSize, k);
    Pow2Mono(k, WORD);
    var t := AlignBytes(nodeSize, k);
    assert i * t == (i - 1) * t + t;
  }
}
