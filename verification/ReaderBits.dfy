/** Bits of a 64-bit slot header, one per reader. */
module ReaderBits {

  function Mask(j: bv64): bv64
    requires j < 64
  {
    (1 as bv64) << j
  }

  /** The test of the receive function: is reader `j`'s bit set? */
  predicate Bit(h: bv64, j: bv64)
    requires j < 64
  {
    h & Mask(j) != 0
  }

  /** The header with reader `j`'s bit turned over. */
  function Turned(h: bv64, j: bv64): bv64
    requires j < 64
  {
    h ^ Mask(j)
  }

  /** Every bit of `a` is set in `b`. */
  predicate Subset(a: bv64, b: bv64) {
    a & b == a
  }

  lemma NoBits(j: bv64)
    requires j < 64
    ensures !Bit(0, j)
  {
  }

  lemma XorWithMask(h: bv64, a: bv64, b: bv64)
    requires a < 64 && b < 64
    ensures Bit(h ^ Mask(a), b) <==> if a == b then !Bit(h, a) else Bit(h, b)
    ensures Bit(h, a) ==> Subset(h ^ Mask(a), h)
  {
  }

  /** Exclusive-or with a reader's mask turns exactly that reader's bit. */
  lemma XorTurnsOne(h: bv64, a: bv64, b: bv64)
    requires a < 64 && b < 64
    ensures Bit(Turned(h, a), b) <==> if a == b then !Bit(h, a) else Bit(h, b)
    ensures Bit(h, a) ==> Subset(Turned(h, a), h)
  {
    hide Bit, Mask, Subset;
    XorWithMask(h, a, b);
  }

  lemma SubsetTransitive(a: bv64, b: bv64, c: bv64)
    requires Subset(a, b) && Subset(b, c)
    ensures Subset(a, c)
  {
  }

  /** A value between two equal ones is the same. */
  lemma Squeezed(a: bv64, b: bv64, c: bv64)
    requires Subset(a, b) && Subset(b, c) && a == c
    ensures a == b
  {
  }

  lemma SubsetBit(a: bv64, b: bv64, j: bv64)
    requires Subset(a, b) && j < 64 && Bit(a, j)
    ensures Bit(b, j)
  {
  }

  lemma ZeroIsSubset(b: bv64)
    ensures Subset(0, b)
  {
  }

  lemma SubsetReflexive(a: bv64)
    ensures Subset(a, a)
  {
  }

  /** Bits 0 to `k` and no others. */
  ghost predicate LowBits(w: bv64, k: bv64) {
    forall j: bv64 | j < 64 :: Bit(w, j) <==> j <= k
  }

  lemma LowBitsStep(w: bv64, k: bv64, j: bv64)
    requires k < 63 && j < 64
    requires Bit(w, j) <==> j <= k
    requires 0 < j ==> (Bit(w, j - 1) <==> j - 1 <= k)
    ensures Bit(w | (w << 1), j) <==> j <= k + 1
  {
  }

  /** The set-up loop: the writer's mask has exactly one bit per reader. */
  method WriterMask(numReaders: bv64) returns (w: bv64)
    requires 1 <= numReaders <= 64
    ensures forall j: bv64 | j < 64 :: Bit(w, j) <==> j < numReaders
  {
    hide Bit;
    w := 1;
    var i: bv64 := 0;
    FirstBit();
    while i < numReaders - 1
      invariant i <= numReaders - 1
      invariant LowBits(w, i)
      decreases 64 - i
    {
      var next := w | (w << 1);
      forall j: bv64 | j < 64
        ensures Bit(next, j) <==> j <= i + 1
      {
        LowBitsStep(w, i, j);
      }
      w := next;
      i := i + 1;
    }
  }

  lemma FirstBit()
    ensures LowBits(1, 0)
  {
  }

  /** Bits 0 to below `k` are clear. */
  predicate ZeroBelow(h: bv64, k: bv64)
    requires k < 64
  {
    h & (((1 as bv64) << k) - 1) == 0
  }

  /** A header without any reader's bit is zero. */
  lemma NoBitMeansZero(h: bv64)
    requires forall j: bv64 | j < 64 :: !Bit(h, j)
    ensures h == 0
  {
    if h != 0 {
      assert ZeroBelow(h, 0);
      var j := SomeBit(h, 0);
    }
  }

  lemma {:induction false} SomeBit(h: bv64, k: bv64) returns (j: bv64)
    requires k < 64 && ZeroBelow(h, k) && h != 0
    ensures j < 64 && Bit(h, j)
    decreases 64 - k
  {
    hide Bit, ZeroBelow;
    if Bit(h, k) {
      j := k;
    } else {
      BitsBelow(h, k);
      j := SomeBit(h, k + 1);
    }
  }

  lemma BitsBelow(h: bv64, k: bv64)
    requires k < 64 && ZeroBelow(h, k) && h != 0 && !Bit(h, k)
    ensures k < 63 && ZeroBelow(h, k + 1)
  {
  }
}
