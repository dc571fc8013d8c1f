/** Bit-level view of 32-bit register words.

    The drivers work on words with shifts and masks.  Everything above this
    module reads a word as 32 single bits, through Test.
  */
module Bits {

  const ONES: bv32 := 0xffff_ffff

  /** The word with only bit k set. */
  function Mask(k: nat): bv32
    requires k < 32
  {
    1 << k
  }

  /** The word with exactly the bits below n set. */
  function LowMask(n: nat): bv32
    requires n < 32
  {
    (1 << n) - 1
  }

  /** Is bit k of w set? */
  predicate Test(w: bv32, k: nat)
    requires k < 32
  {
    w & Mask(k) != 0
  }

  /** The word w with bit k set or cleared. */
  function Put(w: bv32, k: nat, on: bool): bv32
    requires k < 32
  {
    if on then w | Mask(k) else w & !Mask(k)
  }

  // ---------- bitwise operators, one bit at a time ----------

  lemma OneHotSelects(w: bv32, m: bv32)
    requires m & (m - 1) == 0
    ensures w & m == 0 || w & m == m
  {
  }

  lemma Distributes(a: bv32, b: bv32, m: bv32)
    ensures (a | b) & m == (a & m) | (b & m)
    ensures a & !b & m == (a & m) & !(b & m)
  {
  }

  /** A mask leaves nothing of a word, or the mask itself. */
  lemma MaskSelects(w: bv32, k: nat)
    requires k < 32
    ensures Mask(k) != 0 && (w & Mask(k) == 0 || w & Mask(k) == Mask(k))
  {
    var m := Mask(k);
    assert m != 0 && m & (m - 1) == 0;
    OneHotSelects(w, m);
  }

  lemma OrBits(a: bv32, b: bv32, k: nat)
    requires k < 32
    ensures Test(a | b, k) <==> Test(a, k) || Test(b, k)
  {
    Distributes(a, b, Mask(k));
    MaskSelects(a, k);
    MaskSelects(b, k);
  }

  lemma AndNotBits(a: bv32, b: bv32, k: nat)
    requires k < 32
    ensures Test(a & !b, k) <==> Test(a, k) && !Test(b, k)
  {
    Distributes(a, b, Mask(k));
    MaskSelects(a, k);
    MaskSelects(b, k);
  }

  // ---------- masks ----------

  lemma ConstantBits(k: nat)
    requires k < 32
    ensures Test(ONES, k) && !Test(0, k)
  {
  }

  lemma MasksDisjoint(j: nat, k: nat)
    requires j < k < 32
    ensures Mask(j) & Mask(k) == 0
  {
  }

  lemma MaskBits(j: nat, k: nat)
    requires j < 32 && k < 32
    ensures Test(Mask(j), k) <==> j == k
  {
    if j < k {
      MasksDisjoint(j, k);
    } else if k < j {
      MasksDisjoint(k, j);
    } else {
      MaskSelects(Mask(k), k);
    }
  }

  lemma LowMaskStep(n: nat)
    requires 0 < n < 32
    ensures LowMask(n) == LowMask(n - 1) | Mask(n - 1)
  {
  }

  lemma {:induction false} LowMaskBits(n: nat, k: nat)
    requires n < 32 && k < 32
    ensures Test(LowMask(n), k) <==> k < n
  {
    if n == 0 {
      assert LowMask(0) == 0;
      ConstantBits(k);
    } else {
      LowMaskBits(n - 1, k);
      LowMaskStep(n);
      OrBits(LowMask(n - 1), Mask(n - 1), k);
      MaskBits(n - 1, k);
    }
  }

  /** Put changes the one bit it names. */
  lemma PutBits(w: bv32, k: nat, on: bool)
    requires k < 32
    ensures forall j | 0 <= j < 32 :: Test(Put(w, k, on), j) == if j == k then on else Test(w, j)
  {
    forall j | 0 <= j < 32
      ensures Test(Put(w, k, on), j) == if j == k then on else Test(w, j)
    {
      PutBit(w, k, on, j);
    }
  }

  lemma PutBit(w: bv32, k: nat, on: bool, j: nat)
    requires k < 32 && j < 32
    ensures Test(Put(w, k, on), j) == if j == k then on else Test(w, j)
  {
    if on {
      OrBits(w, Mask(k), j);
    } else {
      AndNotBits(w, Mask(k), j);
    }
    MaskBits(k, j);
  }

  // ---------- byte lanes ----------

  /** Byte k of a word. */
  function Byte(w: bv32, k: nat): bv8
    requires k < 4
  {
    match k
    case 0 => (w & 0xff) as bv8
    case 1 => ((w >> 8) & 0xff) as bv8
    case 2 => ((w >> 16) & 0xff) as bv8
    case _ => (w >> 24) as bv8
  }

  /** The word holding p in byte j and zero elsewhere. */
  function ByteWord(p: bv8, j: nat): bv32
    requires j < 4
  {
    (p as bv32) << (8 * j)
  }

  lemma ByteWordShift(p: bv8, j: nat)
    requires j < 4
    ensures ByteWord(p, j) == match j
                              case 0 => p as bv32
                              case 1 => (p as bv32) << 8
                              case 2 => (p as bv32) << 16
                              case _ => (p as bv32) << 24
  {
    if j == 0 {
    } else if j == 1 {
    } else if j == 2 {
    } else {
    }
  }

  lemma ByteWordLanes(p: bv8, j: nat, k: nat)
    requires j < 4 && k < 4
    ensures Byte(ByteWord(p, j), k) == if k == j then p else 0
  {
    ByteWordShift(p, j);
  }
}
