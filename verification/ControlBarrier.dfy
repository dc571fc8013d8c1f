/** Control registers with a Register Write Pending bit, and the barriers that
    wait for it.  Used for GICD_CTLR and, with another pending bit, GICR_CTLR. */
module ControlBarrier {
  import opened Bits

  // ---------- flag words ----------

  /** A flag word, as the numbers of its set bits. */
  type Flags = set<nat>

  function FlagsOf(v: bv32): Flags {
    set k: nat | k < 32 && Test(v, k)
  }

  /** Union and difference of flags are the word operations behind | and -. */
  lemma FlagOperators(a: bv32, b: bv32)
    ensures FlagsOf(a | b) == FlagsOf(a) + FlagsOf(b)
    ensures FlagsOf(a & !b) == FlagsOf(a) - FlagsOf(b)
  {
    forall k: nat | k < 32
      ensures k in FlagsOf(a | b) <==> k in FlagsOf(a) + FlagsOf(b)
      ensures k in FlagsOf(a & !b) <==> k in FlagsOf(a) - FlagsOf(b)
    {
      OrBits(a, b, k);
      AndNotBits(a, b, k);
    }
  }

  /** The bits the driver polls in GICD_CTLR and in GICR_CTLR. */
  const GICD_RWP: nat := 31
  const GICR_RWP: nat := 3

  const ENABLE_GRP1_NS: nat := 1
  const ARE_S: nat := 4

  lemma MaskValues()
    ensures Mask(31) == 0x8000_0000 && Mask(3) == 0x8 && Mask(1) == 0x2 && Mask(4) == 0x10
  {
  }

  lemma InFlags(v: bv32, k: nat)
    requires k < 32
    ensures k in FlagsOf(v) <==> v & Mask(k) != 0
  {
  }

  /** These flags in a register word. */
  lemma FlagBits(v: bv32)
    ensures GICD_RWP in FlagsOf(v) <==> v & 0x8000_0000 != 0
    ensures GICR_RWP in FlagsOf(v) <==> v & 0x8 != 0
    ensures ENABLE_GRP1_NS in FlagsOf(v) <==> v & 0x2 != 0
    ensures ARE_S in FlagsOf(v) <==> v & 0x10 != 0
  {
    MaskValues();
    InFlags(v, GICD_RWP);
    InFlags(v, GICR_RWP);
    InFlags(v, ENABLE_GRP1_NS);
    InFlags(v, ARE_S);
  }

  /** The value that setup writes is 0x12. */
  lemma SetupFlags()
    ensures FlagsOf(0x12) == {ARE_S, ENABLE_GRP1_NS}
  {
    forall k: nat | k < 32
      ensures Test(0x12, k) <==> k == 4 || k == 1
    {
      assert (0x12 as bv32) == Mask(4) | Mask(1);
      OrBits(Mask(4), Mask(1), k);
      MaskBits(4, k);
      MaskBits(1, k);
    }
  }

  /** What a write of v leaves in a register: read-only bits stay. */
  function Latched(value: Flags, v: Flags, writable: Flags): Flags {
    (value - writable) + (v * writable)
  }

  // ---------- driver and hardware ----------

  class ControlRegister {
    /** The bit in which the hardware shows that a write is in progress. */
    const pendingBit: nat
    const writable: Flags
    /** The register without its pending bit. */
    var value: Flags
    /** Hardware steps until the last write has taken effect. */
    var pending: nat

    constructor (pendingBit: nat, writable: Flags, reset: Flags, latency: nat)
      requires pendingBit !in writable && pendingBit !in reset
      ensures Valid() && this.pendingBit == pendingBit && this.writable == writable
      ensures value == reset && pending == latency
    {
      this.pendingBit := pendingBit;
      this.writable := writable;
      value := reset;
      pending := latency;
    }

    ghost predicate Valid()
      reads this
    {
      pendingBit !in writable && pendingBit !in value
    }

    /** The hardware gets on with a pending write, by one step or more. */
    method HardwareSteps()
      modifies this`pending
      ensures pending == 0 || pending < old(pending)
    {
      var steps: int := *;
      pending := if 0 <= steps < pending then pending - 1 - steps else 0;
    }

    /** A read shows the pending bit for as long as the write is in progress. */
    method Read() returns (v: Flags)
      modifies this`pending
      ensures pending == 0 || pending < old(pending)
      ensures v == if pending > 0 then value + {pendingBit} else value
    {
      HardwareSteps();
      v := if pending > 0 then value + {pendingBit} else value;
    }

    method Store(v: Flags)
      modifies this
      ensures value == Latched(old(value), v, writable)
    {
      value := Latched(value, v, writable);
      pending := *;
    }

    /** Waits until the polled bit reads as zero.  With the bit in which the hardware
        shows a pending write, that is until none is in progress. */
    method Barrier(polled: nat)
      requires Valid() && polled == pendingBit
      modifies this`pending
      ensures pending == 0
    {
      var v := Read();
      while polled in v
        invariant Valid()
        invariant polled in v <==> pending > 0
        decreases pending
      {
        v := Read();
      }
    }

    /** Read, transform, write, wait.  The value the transformation is applied
        to may show the pending bit of an earlier write. */
    method ModifyControl(f: Flags -> Flags) returns (ghost seen: Flags)
      requires Valid() && pendingBit == GICD_RWP
      modifies this
      ensures Valid() && pending == 0
      ensures seen == old(value) || seen == old(value) + {pendingBit}
      ensures value == Latched(old(value), f(seen), writable)
    {
      var ctlr := Read();
      seen := ctlr;
      Store(f(ctlr));
      Barrier(GICD_RWP);
    }

    /** Clears bits.  Read-only bits and bits not named are unchanged. */
    method ClearControl(flags: Flags)
      requires Valid() && pendingBit == GICD_RWP
      modifies this
      ensures Valid() && pending == 0
      ensures value == old(value) - flags * writable
    {
      ghost var seen := ModifyControl(was => was - flags);
    }

    /** Sets bits.  Read-only bits and bits not named are unchanged. */
    method SetControl(flags: Flags)
      requires Valid() && pendingBit == GICD_RWP
      modifies this
      ensures Valid() && pending == 0
      ensures value == old(value) + flags * writable
    {
      ghost var seen := ModifyControl(was => was + flags);
    }

    /** A run of set and clear calls: the register ends as the fold of union and
        difference, with no write in progress. */
    method RunControl(calls: seq<ControlCall>)
      requires Valid() && pendingBit == GICD_RWP
      modifies this
      ensures Valid() && (calls != [] ==> pending == 0)
      ensures value == FoldFlags(old(value), writable, calls)
    {
      for n := 0 to |calls|
        invariant Valid() && (n > 0 ==> pending == 0)
        invariant value == FoldFlags(old(value), writable, calls[..n])
      {
        match calls[n] {
          case SetFlags(flags) => SetControl(flags);
          case ClearFlags(flags) => ClearControl(flags);
        }
        assert calls[..n + 1][..n] == calls[..n];
      }
      assert calls[..|calls|] == calls;
    }
  }

  // ---------- runs ----------

  datatype ControlCall = SetFlags(flags: Flags) | ClearFlags(flags: Flags)

  function FoldFlags(start: Flags, writable: Flags, calls: seq<ControlCall>): Flags {
    if calls == [] then start
    else
      var n := |calls| - 1;
      var s := FoldFlags(start, writable, calls[..n]);
      match calls[n]
      case SetFlags(flags) => s + flags * writable
      case ClearFlags(flags) => s - flags * writable
  }

  /** A flag that is read-only, or that no call names, keeps its first value. */
  lemma {:induction false} UnnamedFlagKeeps(start: Flags, writable: Flags, calls: seq<ControlCall>, k: nat)
    requires k !in writable || forall i | 0 <= i < |calls| :: k !in calls[i].flags
    ensures k in FoldFlags(start, writable, calls) <==> k in start
  {
    if calls != [] {
      UnnamedFlagKeeps(start, writable, calls[..|calls| - 1], k);
    }
  }

  /** The last call that names a writable flag decides it. */
  lemma {:induction false} LastNamingDecides(
    start: Flags, writable: Flags, calls: seq<ControlCall>, k: nat, i: nat)
    requires i < |calls| && k in writable && k in calls[i].flags
    requires forall j | i < j < |calls| :: k !in calls[j].flags
    ensures k in FoldFlags(start, writable, calls) <==> calls[i].SetFlags?
  {
    var n := |calls| - 1;
    if i < n {
      LastNamingDecides(start, writable, calls[..n], k, i);
    }
  }
}
