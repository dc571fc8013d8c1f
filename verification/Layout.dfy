/** Where the registers of each redistributor lie in the address space. */
module Layout {
  import opened TypeRegisters

  /** Size of the control frame and of the SGI frame of a redistributor. */
  const FRAME_SIZE: nat := 0x1_0000

  /** Both frames together. */
  const GICR_SGI_SIZE: nat := 2 * FRAME_SIZE

  /** The distance between redistributors.  A GICv4 with virtual LPIs has two
      more frames in each; the first redistributor is asked. */
  function WindowSize(gicV4: bool, firstTyper: bv64): nat {
    if gicV4 && VirtualLpisSupported(firstTyper) then 2 * GICR_SGI_SIZE else GICR_SGI_SIZE
  }

  /** The distance in numbers.  It is 256 KiB exactly for a GICv4 whose first
      redistributor has bit 1 of its type register set, and 128 KiB otherwise. */
  lemma WindowSizes(gicV4: bool, firstTyper: bv64)
    ensures WindowSize(gicV4, firstTyper) == if gicV4 && (firstTyper >> 1) & 1 == 1 then 0x4_0000 else 0x2_0000
  {
  }

  /** The address of a redistributor, in an address space of the given size.
      The addition wraps around. */
  function RedistributorAddress(base: nat, cpu: nat, stride: nat, space: nat): nat
    requires space > 0
  {
    (base + cpu * stride) % space
  }

  /** The per-core registers the driver accesses. */
  datatype Register =
    | GicrCtlr | GicrIidr | GicrTyper | GicrWaker | GicrPwrr
    | Igroupr0 | Isenabler0 | Icenabler0 | Igrpmodr0
    | Ipriorityr(id: nat) | Icfgr(index: nat)
  {
    predicate Exists() {
      match this
      case Ipriorityr(id) => id < 32
      case Icfgr(index) => index < 6
      case _ => true
    }

    function Offset(): nat {
      match this
      case GicrCtlr => 0x0
      case GicrIidr => 0x4
      case GicrTyper => 0x8
      case GicrWaker => 0x14
      case GicrPwrr => 0x24
      case Igroupr0 => FRAME_SIZE + 0x80
      case Isenabler0 => FRAME_SIZE + 0x100
      case Icenabler0 => FRAME_SIZE + 0x180
      case Ipriorityr(id) => FRAME_SIZE + 0x400 + id
      case Icfgr(index) => FRAME_SIZE + 0xc00 + 4 * index
      case Igrpmodr0 => FRAME_SIZE + 0xd00
    }

    function Size(): nat {
      match this
      case GicrTyper => 8
      case Ipriorityr(_) => 1
      case _ => 4
    }
  }

  /** Do all windows fit between base and the end of the address space? */
  predicate Fits(base: nat, cpuCount: nat, stride: nat, space: nat) {
    space > 0 && base + cpuCount * stride <= space
  }

  /** Windows of different cores share no address, for either stride. */
  lemma WindowsDisjoint(base: nat, cpuCount: nat, gicV4: bool, firstTyper: bv64, space: nat, c: nat, d: nat)
    requires Fits(base, cpuCount, WindowSize(gicV4, firstTyper), space)
    requires c < d < cpuCount
    ensures var stride := WindowSize(gicV4, firstTyper);
            && stride == (if gicV4 && (firstTyper >> 1) & 1 == 1 then 0x4_0000 else 0x2_0000)
            && RedistributorAddress(base, c, stride, space) + stride <= RedistributorAddress(base, d, stride, space)
  {
    WindowSizes(gicV4, firstTyper);
    StridesApart(base, cpuCount, WindowSize(gicV4, firstTyper), space, c, d);
  }

  /** Windows at any stride are apart. */
  lemma StridesApart(base: nat, cpuCount: nat, stride: nat, space: nat, c: nat, d: nat)
    requires Fits(base, cpuCount, stride, space) && c < d < cpuCount && stride > 0
    ensures RedistributorAddress(base, c, stride, space) + stride <= RedistributorAddress(base, d, stride, space)
  {
    NoWrap(base, cpuCount, stride, space, c);
    NoWrap(base, cpuCount, stride, space, d);
    StrideStep(c, d, stride);
  }

  lemma NoWrap(base: nat, cpuCount: nat, stride: nat, space: nat, cpu: nat)
    requires Fits(base, cpuCount, stride, space) && cpu < cpuCount && stride > 0
    ensures RedistributorAddress(base, cpu, stride, space) == base + cpu * stride
    ensures base + cpu * stride + stride <= space
  {
    StrideStep(cpu, cpuCount, stride);
    SmallMod(base + cpu * stride, space);
  }

  lemma SmallMod(a: nat, m: nat)
    requires a < m
    ensures a % m == a
  {
  }

  lemma StrideStep(c: nat, d: nat, stride: nat)
    requires c < d
    ensures c * stride + stride <= d * stride
  {
    assert (d - c - 1) * stride >= 0;
    assert d * stride == c * stride + stride + (d - c - 1) * stride;
  }

  // ---------- offsets, from the members of the register structs ----------

  /** A member of a struct: where it starts, its size and its alignment. */
  datatype Member = Member(start: nat, size: nat, align: nat)
  {
    predicate IsAligned() {
      align > 0 && start % align == 0
    }

    /** Where the next member starts, if it needs no padding. */
    function End(): nat {
      start + size
    }
  }

  const GICR_MEMBERS: nat := 28

  /** The members of Gicr, in order. */
  function Gicr(k: nat): Member {
    match k
    case 0 => Member(0x0, 4, 4)
    case 1 => Member(0x4, 4, 4)
    case 2 => Member(0x8, 8, 8)
    case 3 => Member(0x10, 4, 4)
    case 4 => Member(0x14, 4, 4)
    case 5 => Member(0x18, 4, 4)
    case 6 => Member(0x1c, 4, 4)
    case 7 => Member(0x20, 4, 4)
    case 8 => Member(0x24, 4, 4)
    case 9 => Member(0x28, 4 * 6, 4)
    case 10 => Member(0x40, 8, 8)
    case 11 => Member(0x48, 8, 8)
    case 12 => Member(0x50, 4 * 8, 4)
    case 13 => Member(0x70, 8, 8)
    case 14 => Member(0x78, 8, 8)
    case 15 => Member(0x80, 4 * 8, 4)
    case 16 => Member(0xa0, 8, 8)
    case 17 => Member(0xa8, 8, 8)
    case 18 => Member(0xb0, 8, 8)
    case 19 => Member(0xb8, 8, 8)
    case 20 => Member(0xc0, 4, 4)
    case 21 => Member(0xc4, 4 * 15, 4)
    case 22 => Member(0x100, 8, 8)
    case 23 => Member(0x108, 8, 8)
    case 24 => Member(0x110, 8, 8)
    case 25 => Member(0x118, 4 * 12218, 4)
    case 26 => Member(0xc000, 4 * 4084, 4)
    case _ => Member(0xffd0, 4 * 12, 4)
  }

  const SGI_MEMBERS: nat := 37

  /** The members of Sgi, in order. */
  function Sgi(k: nat): Member {
    match k
    case 0 => Member(0x0, 4 * 32, 4)
    case 1 => Member(0x80, 4, 4)
    case 2 => Member(0x84, 8, 4)
    case 3 => Member(0x8c, 4 * 29, 4)
    case 4 => Member(0x100, 4, 4)
    case 5 => Member(0x104, 8, 4)
    case 6 => Member(0x10c, 4 * 29, 4)
    case 7 => Member(0x180, 4, 4)
    case 8 => Member(0x184, 8, 4)
    case 9 => Member(0x18c, 4 * 29, 4)
    case 10 => Member(0x200, 4, 4)
    case 11 => Member(0x204, 8, 4)
    case 12 => Member(0x20c, 4 * 29, 4)
    case 13 => Member(0x280, 4, 4)
    case 14 => Member(0x284, 8, 4)
    case 15 => Member(0x28c, 4 * 29, 4)
    case 16 => Member(0x300, 4, 4)
    case 17 => Member(0x304, 8, 4)
    case 18 => Member(0x30c, 4 * 29, 4)
    case 19 => Member(0x380, 4, 4)
    case 20 => Member(0x384, 8, 4)
    case 21 => Member(0x38c, 4 * 29, 4)
    case 22 => Member(0x400, 32, 1)
    case 23 => Member(0x420, 64, 1)
    case 24 => Member(0x460, 4 * 488, 4)
    case 25 => Member(0xc00, 4 * 6, 4)
    case 26 => Member(0xc18, 4 * 58, 4)
    case 27 => Member(0xd00, 4, 4)
    case 28 => Member(0xd04, 8, 4)
    case 29 => Member(0xd0c, 4 * 61, 4)
    case 30 => Member(0xe00, 4, 4)
    case 31 => Member(0xe04, 4 * 95, 4)
    case 32 => Member(0xf80, 4, 4)
    case 33 => Member(0xf84, 4 * 31, 4)
    case 34 => Member(0x1000, 4 * 11264, 4)
    case 35 => Member(0xc000, 4 * 4084, 4)
    case _ => Member(0xffd0, 4 * 12, 4)
  }

  /** Both structs are laid out as a C compiler lays them out, which needs no
      padding, and each is as large as a frame. */
  lemma StructsFillFrames()
    ensures Gicr(0).start == 0 && Gicr(GICR_MEMBERS - 1).End() == FRAME_SIZE == 0x1_0000
    ensures forall k: nat | k < GICR_MEMBERS :: Gicr(k).IsAligned()
    ensures forall k: nat | k < GICR_MEMBERS - 1 :: Gicr(k).End() == Gicr(k + 1).start
    ensures Sgi(0).start == 0 && Sgi(SGI_MEMBERS - 1).End() == FRAME_SIZE
    ensures forall k: nat | k < SGI_MEMBERS :: Sgi(k).IsAligned()
    ensures forall k: nat | k < SGI_MEMBERS - 1 :: Sgi(k).End() == Sgi(k + 1).start
  {
  }

  /** So where the compiler puts the registers is where the architecture has them. */
  lemma OffsetsFollowStructs()
    ensures GicrCtlr.Offset() == Gicr(0).start == 0x0 && GicrIidr.Offset() == Gicr(1).start == 0x4
    ensures GicrTyper.Offset() == Gicr(2).start == 0x8 && GicrWaker.Offset() == Gicr(4).start == 0x14
    ensures GicrPwrr.Offset() == Gicr(8).start == 0x24
    ensures Igroupr0.Offset() == 0x1_0000 + Sgi(1).start == 0x1_0080
    ensures Isenabler0.Offset() == 0x1_0000 + Sgi(4).start == 0x1_0100
    ensures Icenabler0.Offset() == 0x1_0000 + Sgi(7).start == 0x1_0180
    ensures forall id | 0 <= id < 32 :: Ipriorityr(id).Offset() == 0x1_0000 + Sgi(22).start + id == 0x1_0400 + id
    ensures forall k | 0 <= k < 6 :: Icfgr(k).Offset() == 0x1_0000 + Sgi(25).start + 4 * k == 0x1_0c00 + 4 * k
    ensures Igrpmodr0.Offset() == 0x1_0000 + Sgi(27).start == 0x1_0d00
  {
    assert Sgi(22).start == 0x400 && Sgi(25).start == 0xc00;
  }

  // ---------- addresses of registers ----------

  function RegisterAddress(base: nat, cpu: nat, stride: nat, space: nat, r: Register): nat
    requires space > 0
  {
    RedistributorAddress(base, cpu, stride, space) + r.Offset()
  }

  lemma OffsetsDisjoint(r: Register, s: Register)
    requires r.Exists() && s.Exists()
    ensures r.Offset() + r.Size() <= GICR_SGI_SIZE
    ensures r != s ==> r.Offset() + r.Size() <= s.Offset() || s.Offset() + s.Size() <= r.Offset()
  {
  }

  /** Two different per-core registers never share a byte: not within one
      redistributor, and not across redistributors. */
  lemma RegistersDisjoint(
    base: nat, cpuCount: nat, gicV4: bool, firstTyper: bv64, space: nat, c: nat, r: Register, d: nat, s: Register)
    requires Fits(base, cpuCount, WindowSize(gicV4, firstTyper), space)
    requires c < cpuCount && d < cpuCount && r.Exists() && s.Exists() && (c, r) != (d, s)
    ensures var stride := WindowSize(gicV4, firstTyper);
            var a := RegisterAddress(base, c, stride, space, r);
            var b := RegisterAddress(base, d, stride, space, s);
            a + r.Size() <= b || b + s.Size() <= a
  {
    OffsetsDisjoint(r, s);
    OffsetsDisjoint(s, r);
    RangesDisjoint(base, cpuCount, gicV4, firstTyper, space, c, r.Offset(), r.Size(), d, s.Offset(), s.Size());
  }

  lemma RangesDisjoint(
    base: nat, cpuCount: nat, gicV4: bool, firstTyper: bv64, space: nat,
    c: nat, i: nat, m: nat, d: nat, j: nat, n: nat)
    requires Fits(base, cpuCount, WindowSize(gicV4, firstTyper), space)
    requires c < cpuCount && d < cpuCount && i + m <= GICR_SGI_SIZE && j + n <= GICR_SGI_SIZE
    requires c == d ==> i + m <= j || j + n <= i
    ensures var stride := WindowSize(gicV4, firstTyper);
            var a := RedistributorAddress(base, c, stride, space) + i;
            var b := RedistributorAddress(base, d, stride, space) + j;
            a + m <= b || b + n <= a
  {
    if c < d {
      WindowsDisjoint(base, cpuCount, gicV4, firstTyper, space, c, d);
    } else if d < c {
      WindowsDisjoint(base, cpuCount, gicV4, firstTyper, space, d, c);
    }
  }

  // ---------- memory ----------

  /** The bytes of memory after a write of data at address a. */
  function Stored(memory: seq<bv8>, a: nat, data: seq<bv8>): (r: seq<bv8>)
    requires a + |data| <= |memory|
    ensures |r| == |memory|
  {
    memory[..a] + data + memory[a + |data|..]
  }

  /** A write to a register of core c leaves the whole window of every other core
      unchanged, byte for byte, and stays inside c's own window. */
  lemma OtherWindowsUnchanged(
    memory: seq<bv8>, base: nat, cpuCount: nat, gicV4: bool, firstTyper: bv64,
    c: nat, r: Register, data: seq<bv8>, d: nat)
    requires Fits(base, cpuCount, WindowSize(gicV4, firstTyper), |memory|)
    requires c < cpuCount && d < cpuCount && c != d && r.Exists() && |data| == r.Size()
    ensures var stride := WindowSize(gicV4, firstTyper);
            var a := RegisterAddress(base, c, stride, |memory|, r);
            var w := RedistributorAddress(base, d, stride, |memory|);
            && a + |data| <= RedistributorAddress(base, c, stride, |memory|) + stride <= |memory|
            && w + stride <= |memory|
            && Stored(memory, a, data)[w..w + stride] == memory[w..w + stride]
  {
    var stride := WindowSize(gicV4, firstTyper);
    NoWrap(base, cpuCount, stride, |memory|, c);
    NoWrap(base, cpuCount, stride, |memory|, d);
    OffsetsDisjoint(r, r);
    var a := RegisterAddress(base, c, stride, |memory|, r);
    var w := RedistributorAddress(base, d, stride, |memory|);
    if c < d {
      WindowsDisjoint(base, cpuCount, gicV4, firstTyper, |memory|, c, d);
      StoredElsewhere(memory, a, data, w, w + stride);
    } else {
      WindowsDisjoint(base, cpuCount, gicV4, firstTyper, |memory|, d, c);
      StoredElsewhere(memory, a, data, w, w + stride);
    }
  }

  lemma StoredElsewhere(memory: seq<bv8>, a: nat, data: seq<bv8>, lo: nat, hi: nat)
    requires a + |data| <= |memory| && lo <= hi <= |memory|
    requires hi <= a || a + |data| <= lo
    ensures Stored(memory, a, data)[lo..hi] == memory[lo..hi]
  {
  }

  // ---------- operations of several writes ----------

  datatype RegisterWrite = RegisterWrite(register: Register, data: seq<bv8>)
  {
    predicate Valid() {
      register.Exists() && |data| == register.Size()
    }
  }

  /** The bytes of memory after a sequence of writes to registers of one core. */
  function StoredAll(
    memory: seq<bv8>, base: nat, cpuCount: nat, gicV4: bool, firstTyper: bv64,
    c: nat, writes: seq<RegisterWrite>): (r: seq<bv8>)
    requires Fits(base, cpuCount, WindowSize(gicV4, firstTyper), |memory|) && c < cpuCount
    requires forall i | 0 <= i < |writes| :: writes[i].Valid()
    ensures |r| == |memory|
  {
    if writes == [] then memory
    else
      var k := |writes| - 1;
      var before := StoredAll(memory, base, cpuCount, gicV4, firstTyper, c, writes[..k]);
      var w := writes[k];
      assert w.Valid();
      RegisterInMemory(base, cpuCount, gicV4, firstTyper, |memory|, c, w.register);
      Stored(before, RegisterAddress(base, c, WindowSize(gicV4, firstTyper), |memory|, w.register), w.data)
  }

  lemma RegisterInMemory(
    base: nat, cpuCount: nat, gicV4: bool, firstTyper: bv64, space: nat, c: nat, r: Register)
    requires Fits(base, cpuCount, WindowSize(gicV4, firstTyper), space) && c < cpuCount && r.Exists()
    ensures RegisterAddress(base, c, WindowSize(gicV4, firstTyper), space, r) + r.Size() <= space
  {
    NoWrap(base, cpuCount, WindowSize(gicV4, firstTyper), space, c);
    OffsetsDisjoint(r, r);
  }

  /** An operation on one core, of any number of register writes, leaves the whole
      window of every other core unchanged, byte for byte. */
  lemma {:induction false} OtherWindowsUnchangedByAll(
    memory: seq<bv8>, base: nat, cpuCount: nat, gicV4: bool, firstTyper: bv64,
    c: nat, writes: seq<RegisterWrite>, d: nat)
    requires Fits(base, cpuCount, WindowSize(gicV4, firstTyper), |memory|)
    requires c < cpuCount && d < cpuCount && c != d
    requires forall i | 0 <= i < |writes| :: writes[i].Valid()
    ensures var stride := WindowSize(gicV4, firstTyper);
            var w := RedistributorAddress(base, d, stride, |memory|);
            && w + stride <= |memory|
            && StoredAll(memory, base, cpuCount, gicV4, firstTyper, c, writes)[w..w + stride] == memory[w..w + stride]
  {
    NoWrap(base, cpuCount, WindowSize(gicV4, firstTyper), |memory|, d);
    if writes != [] {
      var k := |writes| - 1;
      OtherWindowsUnchangedByAll(memory, base, cpuCount, gicV4, firstTyper, c, writes[..k], d);
      var before := StoredAll(memory, base, cpuCount, gicV4, firstTyper, c, writes[..k]);
      OtherWindowsUnchanged(
        before, base, cpuCount, gicV4, firstTyper, c, writes[k].register, writes[k].data, d);
    }
  }
}
