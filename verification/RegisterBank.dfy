/** Register arrays as the hardware presents them, and the bit operations the
    GICv3 driver performs on them. */
module RegisterBank {
  import opened Bits

  /** What a write to a register does: replace the word, or set or clear the
      bits written as one. */
  datatype WriteKind = Store | SetOnes | ClearOnes

  function Written(kind: WriteKind, was: bv32, v: bv32): bv32 {
    match kind
    case Store => v
    case SetOnes => was | v
    case ClearOnes => was & !v
  }

  /** A view of an array of words through one kind of write.  A set-enable and a
      clear-enable register are two views of the same enable bits, and both read
      those bits back. */
  datatype Port = Port(words: array<bv32>, kind: WriteKind)

  method WriteWord(p: Port, i: nat, v: bv32)
    requires i < p.words.Length
    modifies p.words
    ensures p.words[..] == Stored(p.kind, old(p.words[..]), i, v)
  {
    p.words[i] := Written(p.kind, p.words[i], v);
  }

  /** The words after a read-modify-write of bit nth. */
  function Modified(kind: WriteKind, words: seq<bv32>, nth: nat, on: bool): seq<bv32>
    requires nth < 32 * |words|
  {
    words[nth / 32 := Written(kind, words[nth / 32], Put(words[nth / 32], nth % 32, on))]
  }

  method ModifyBit(p: Port, nth: nat, on: bool)
    requires nth < 32 * p.words.Length
    modifies p.words
    ensures p.words[..] == Modified(p.kind, old(p.words[..]), nth, on)
  {
    var regNum := nth / 32;
    var bitNum := nth % 32;
    var oldValue := p.words[regNum];
    var newValue := Put(oldValue, bitNum, on);
    WriteWord(p, regNum, newValue);
  }

  method SetBit(p: Port, nth: nat)
    requires nth < 32 * p.words.Length
    modifies p.words
    ensures p.words[..] == Modified(p.kind, old(p.words[..]), nth, true)
  {
    ModifyBit(p, nth, true);
  }

  method ClearBit(p: Port, nth: nat)
    requires nth < 32 * p.words.Length
    modifies p.words
    ensures p.words[..] == Modified(p.kind, old(p.words[..]), nth, false)
  {
    ModifyBit(p, nth, false);
  }

  // ---------- arrays of words as arrays of bits ----------

  predicate BitOf(words: seq<bv32>, n: nat)
    requires n < 32 * |words|
  {
    Test(words[n / 32], n % 32)
  }

  lemma WrittenBits(kind: WriteKind, w: bv32, v: bv32, k: nat)
    requires k < 32
    ensures Test(Written(kind, w, v), k) ==
            match kind
            case Store => Test(v, k)
            case SetOnes => Test(w, k) || Test(v, k)
            case ClearOnes => Test(w, k) && !Test(v, k)
  {
    match kind
    case Store =>
    case SetOnes => OrBits(w, v, k);
    case ClearOnes => AndNotBits(w, v, k);
  }

  /** On a plain register, or setting through a set register, a read-modify-write
      changes one bit. */
  lemma ModifiedBits(kind: WriteKind, words: seq<bv32>, nth: nat, on: bool, n: nat)
    requires nth < 32 * |words| && n < 32 * |words|
    requires kind == Store || (kind == SetOnes && on)
    ensures BitOf(Modified(kind, words, nth, on), n) == if n == nth then on else BitOf(words, n)
  {
    var w := words[nth / 32];
    PutBits(w, nth % 32, on);
    WrittenBits(kind, w, Put(w, nth % 32, on), n % 32);
  }

  /** Setting a bit of a clear register writes every set bit of the word back as
      one: the whole word is cleared. */
  lemma ModifiedClearsWord(words: seq<bv32>, nth: nat, n: nat)
    requires nth < 32 * |words| && n < 32 * |words|
    ensures BitOf(Modified(ClearOnes, words, nth, true), n) <==> n / 32 != nth / 32 && BitOf(words, n)
  {
    var w := words[nth / 32];
    PutBits(w, nth % 32, true);
    WrittenBits(ClearOnes, w, Put(w, nth % 32, true), n % 32);
  }

  // ---------- plain writes ----------

  /** The words after a write of v to word i. */
  function Stored(kind: WriteKind, words: seq<bv32>, i: nat, v: bv32): seq<bv32>
    requires i < |words|
  {
    words[i := Written(kind, words[i], v)]
  }

  lemma StoredBits(kind: WriteKind, words: seq<bv32>, i: nat, v: bv32, n: nat)
    requires i < |words| && n < 32 * |words|
    ensures BitOf(Stored(kind, words, i, v), n) ==
            if n / 32 != i then BitOf(words, n)
            else match kind
              case Store => Test(v, n % 32)
              case SetOnes => BitOf(words, n) || Test(v, n % 32)
              case ClearOnes => BitOf(words, n) && !Test(v, n % 32)
  {
    if n / 32 == i {
      WrittenBits(kind, words[i], v, n % 32);
    }
  }

  /** One bit of a word, if the word has it. */
  function Masked(k: nat, w: bv32): bv32
    requires k < 32
  {
    w & Mask(k)
  }

  lemma MaskedBits(k: nat, w: bv32, j: nat)
    requires k < 32 && j < 32
    ensures Test(Masked(k, w), j) <==> j == k && Test(w, j)
  {
    MaskSelects(w, k);
    if Test(w, k) {
      assert Masked(k, w) == Mask(k);
      MaskBits(k, j);
    } else {
      assert Masked(k, w) == 0;
      ConstantBits(j);
    }
  }

  // ---------- the strided loops over the SPIs ----------

  /** The value written for the word of identifiers i to i + 31. */
  function StrideMask(maxReg: nat, i: nat): bv32
    requires i < maxReg
  {
    if maxReg - i >= 32 then ONES else LowMask(maxReg - i)
  }

  /** The words after writing the stride masks for the identifiers 32 to maxReg - 1. */
  function Strided(kind: WriteKind, words: seq<bv32>, maxReg: nat): (r: seq<bv32>)
    ensures |r| == |words|
  {
    seq(|words|, k requires 0 <= k < |words| =>
      if 1 <= k && 32 * k < maxReg then Written(kind, words[k], StrideMask(maxReg, 32 * k)) else words[k])
  }

  /** The loop shared by the bulk operations.  No index leaves the array, and no
      shift reaches 32. */
  method WriteSpiMasks(p: Port, maxReg: nat)
    requires 32 <= maxReg <= 32 * p.words.Length
    modifies p.words
    ensures p.words[..] == Strided(p.kind, old(p.words[..]), maxReg)
  {
    var i := 32;
    while i < maxReg
      invariant 32 <= i && i % 32 == 0
      invariant forall k | 0 <= k < p.words.Length ::
                  p.words[k] == if 32 * k < i then Strided(p.kind, old(p.words[..]), maxReg)[k] else old(p.words[k])
    {
      var bits := if maxReg - i >= 32 then ONES else LowMask(maxReg - i);
      WriteWord(p, i / 32, bits);
      i := i + 32;
    }
  }

  /** Bit by bit, the loop acts on exactly the identifiers 32 to maxReg - 1,
      except that on a plain register it also clears the rest of its last word. */
  lemma StridedBits(kind: WriteKind, words: seq<bv32>, maxReg: nat, n: nat)
    requires n < 32 * |words|
    ensures BitOf(Strided(kind, words, maxReg), n) <==>
            if 32 <= n < maxReg then kind != ClearOnes
            else if kind == Store && 32 <= n && n / 32 * 32 < maxReg then false
            else BitOf(words, n)
  {
    var k := n / 32;
    if 1 <= k && 32 * k < maxReg {
      var v := StrideMask(maxReg, 32 * k);
      StrideMaskBits(maxReg, 32 * k, n % 32);
      WrittenBits(kind, words[k], v, n % 32);
    }
  }

  lemma StrideMaskBits(maxReg: nat, i: nat, k: nat)
    requires i < maxReg && k < 32
    ensures Test(StrideMask(maxReg, i), k) <==> i + k < maxReg
  {
    if maxReg - i >= 32 {
      ConstantBits(k);
    } else {
      LowMaskBits(maxReg - i, k);
    }
  }
}
