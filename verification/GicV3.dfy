/** The GICv3 driver, over a distributor and one redistributor per core. */
module GicV3Driver {
  import opened Wrappers
  import opened IntIds
  import opened Configuration
  import opened Banks
  import opened Bits
  import opened RegisterFile
  import opened ConfigurationRuns
  import opened WakerProtocol
  import opened ControlBarrier
  import opened TypeRegisters
  import Layout
  import opened PowerSequence
  import SgiRouting

  // ---------- system registers ----------

  datatype SystemRegister = IccSre | IccCtlr | IccIgrpen1 | IccSgi0r | IccSgi1r | IccAsgi1r

  datatype SystemWrite = SystemWrite(register: SystemRegister, value: bv64)

  /** The CPU interface, as the trace of writes to it. */
  class SystemRegisters {
    var trace: seq<SystemWrite>

    constructor ()
      ensures trace == []
    {
      trace := [];
    }

    method Store(register: SystemRegister, value: bv64)
      modifies this
      ensures trace == old(trace) + [SystemWrite(register, value)]
    {
      trace := trace + [SystemWrite(register, value)];
    }
  }

  /** What a register holds: the value last written to it, if there is one. */
  function LastValue(trace: seq<SystemWrite>, register: SystemRegister): Option<bv64> {
    if trace == [] then None
    else
      var n := |trace| - 1;
      if trace[n].register == register then Some(trace[n].value) else LastValue(trace[..n], register)
  }

  /** The writes of one setup, in order. */
  const SETUP_TRACE: seq<SystemWrite> :=
    [SystemWrite(IccSre, 1), SystemWrite(IccCtlr, 0), SystemWrite(IccIgrpen1, 1)]

  // ---------- the hardware the driver is given ----------

  /** GICD_CTLR: a pending write shows in the bit the driver polls, and the flags
      that setup writes can be written, or are fixed to one. */
  ghost predicate DistributorControl(r: ControlRegister)
    reads r
  {
    && r.Valid() && r.pendingBit == GICD_RWP
    && {ARE_S, ENABLE_GRP1_NS} <= r.writable + r.value
  }

  /** GICR_CTLR: a pending write shows in the bit the driver polls. */
  ghost predicate RedistributorControl(r: ControlRegister)
    reads r
  {
    r.Valid() && r.pendingBit == GICR_RWP
  }

  ghost function FramesOf(sgi: seq<Bank>): set<object> {
    set c, o | 0 <= c < |sgi| && o in sgi[c].Repr :: o
  }

  ghost function ControlsOf(
    gicdCtlr: ControlRegister, wakers: Wakers, gicrCtlr: seq<ControlRegister>, pwrr: seq<PowerRegister>): set<object>
  {
    {gicdCtlr, wakers}
    + (set c | 0 <= c < |gicrCtlr| :: gicrCtlr[c])
    + (set c | 0 <= c < |pwrr| :: pwrr[c])
  }

  // ---------- the driver ----------

  class GicV3 {
    const gicd: Bank
    const gicdCtlr: ControlRegister
    const typer: bv32
    const sgi: seq<Bank>
    const gicrCtlr: seq<ControlRegister>
    const pwrr: seq<PowerRegister>
    const iidr: seq<bv32>
    const wakers: Wakers
    const system: SystemRegisters
    const cpuCount: nat
    /** Where the redistributors lie, in an address space of the given size. */
    const gicrBase: nat
    const gicrStride: nat
    const addressSpace: nat
    /** The register arrays of all redistributor frames. */
    ghost const framesRepr: set<object>
    /** The control, wake and power registers. */
    ghost const controlRepr: set<object>

    /** The caller promises the hardware: a distributor of 1024 interrupts, a frame
        of 32 for each core, control registers that show a pending write where the
        driver polls for it and take the flags that setup writes, redistributors
        that fit the address space, and no register at two places. */
    constructor (
      gicd: Bank, gicdCtlr: ControlRegister, typer: bv32, sgi: seq<Bank>, gicrCtlr: seq<ControlRegister>,
      pwrr: seq<PowerRegister>, iidr: seq<bv32>, wakers: Wakers, system: SystemRegisters,
      gicrBase: nat, addressSpace: nat, gicV4: bool, firstTyper: bv64)
      requires |gicrCtlr| == |pwrr| == |iidr| == |sgi| == |wakers.regs| && wakers.Valid()
      requires DistributorControl(gicdCtlr)
      requires forall c | 0 <= c < |sgi| :: RedistributorControl(gicrCtlr[c]) && pwrr[c].Valid()
      requires gicd.Valid() && gicd.words == 32
      requires forall c | 0 <= c < |sgi| :: sgi[c].Valid() && sgi[c].words == 1
      requires forall c, d | 0 <= c < |sgi| && 0 <= d < |sgi| && c != d :: sgi[c].Repr !! sgi[d].Repr
      requires forall c, d | 0 <= c < d < |sgi| :: gicrCtlr[c] != gicrCtlr[d] && pwrr[c] != pwrr[d]
      requires gicdCtlr !in gicrCtlr && FramesOf(sgi) !! gicd.Repr
      requires ControlsOf(gicdCtlr, wakers, gicrCtlr, pwrr) + {system} !! FramesOf(sgi) + gicd.Repr
      requires Layout.Fits(gicrBase, |sgi|, Layout.WindowSize(gicV4, firstTyper), addressSpace)
      ensures Valid() && Mapped() && Pinned()
      ensures this.gicd == gicd && this.gicdCtlr == gicdCtlr && this.typer == typer && this.sgi == sgi
      ensures this.gicrCtlr == gicrCtlr && this.pwrr == pwrr && this.iidr == iidr
      ensures this.wakers == wakers && this.system == system
      ensures cpuCount == |sgi| && gicrStride == Layout.WindowSize(gicV4, firstTyper)
      ensures this.gicrBase == gicrBase && this.addressSpace == addressSpace
      // In numbers: the stride, and the bits in which a pending write shows.
      ensures gicrStride == if gicV4 && (firstTyper >> 1) & 1 == 1 then 0x4_0000 else 0x2_0000
      ensures gicdCtlr.pendingBit == 31 && forall c | 0 <= c < cpuCount :: gicrCtlr[c].pendingBit == 3
    {
      Layout.WindowSizes(gicV4, firstTyper);
      this.gicd := gicd;
      this.gicdCtlr := gicdCtlr;
      this.typer := typer;
      this.sgi := sgi;
      this.gicrCtlr := gicrCtlr;
      this.pwrr := pwrr;
      this.iidr := iidr;
      this.wakers := wakers;
      this.system := system;
      this.gicrBase := gicrBase;
      this.addressSpace := addressSpace;
      cpuCount := |sgi|;
      gicrStride := Layout.WindowSize(gicV4, firstTyper);
      framesRepr := FramesOf(sgi);
      controlRepr := ControlsOf(gicdCtlr, wakers, gicrCtlr, pwrr);
    }

    /** The shape of the register banks, and that no register is shared between them. */
    ghost predicate Wired() {
      && gicd.Valid() && gicd.words == 32
      && |sgi| == cpuCount
      && (forall c | 0 <= c < cpuCount :: sgi[c].Valid() && sgi[c].words == 1)
      && (forall c | 0 <= c < cpuCount :: sgi[c].Repr <= framesRepr)
      && framesRepr !! gicd.Repr
      && (forall c, d | 0 <= c < cpuCount && 0 <= d < cpuCount && c != d :: sgi[c].Repr !! sgi[d].Repr)
    }

    /** The other registers are apart from the banks and from each other. */
    ghost predicate Apart() {
      && |gicrCtlr| == |pwrr| == |iidr| == cpuCount
      && gicdCtlr in controlRepr && wakers in controlRepr
      && (forall c | 0 <= c < cpuCount :: gicrCtlr[c] in controlRepr && pwrr[c] in controlRepr)
      && controlRepr !! framesRepr && controlRepr !! gicd.Repr
      && system !in framesRepr && system !in gicd.Repr
      && gicdCtlr !in gicrCtlr
      && (forall c, d | 0 <= c < d < cpuCount :: gicrCtlr[c] != gicrCtlr[d] && pwrr[c] != pwrr[d])
    }

    /** What the two sets hold: the registers, and nothing else. */
    ghost predicate Pinned() {
      framesRepr == FramesOf(sgi) && controlRepr == ControlsOf(gicdCtlr, wakers, gicrCtlr, pwrr)
    }

    /** The control, wake and power registers are as the driver needs them. */
    ghost predicate Controlled()
      requires Apart()
      reads controlRepr
    {
      && wakers.Valid() && |wakers.regs| == cpuCount
      && DistributorControl(gicdCtlr)
      && forall c | 0 <= c < cpuCount :: RedistributorControl(gicrCtlr[c]) && pwrr[c].Valid()
    }

    ghost predicate Valid()
      reads controlRepr
    {
      Wired() && Apart() && Controlled()
    }

    /** The redistributors fit the address space, at a stride the hardware has. */
    ghost predicate Mapped() {
      && Layout.Fits(gicrBase, cpuCount, gicrStride, addressSpace)
      && (gicrStride == Layout.GICR_SGI_SIZE || gicrStride == 2 * Layout.GICR_SGI_SIZE)
    }

    /** The contents of all registers. */
    ghost function Registers(): (f: File)
      requires Wired()
      reads gicd.Repr, framesRepr
      ensures f.Shaped() && |f.frames| == cpuCount
    {
      File(
        gicd.Contents(),
        seq(cpuCount, c requires 0 <= c < cpuCount && Wired() reads gicd.Repr, framesRepr => sgi[c].Contents()))
    }

    /** What the registers say about every interrupt. */
    ghost function Config(): (m: Config)
      requires Wired()
      reads gicd.Repr, framesRepr
      ensures m.Keys == Slots(cpuCount)
    {
      Registers().Config()
    }

    /** The configuration is what the bits of the registers say, in the frame of the
        core or in the distributor. */
    lemma ConfigReadsRegisters(t: Slot)
      requires Wired() && IsSlot(cpuCount, t)
      ensures t in Config()
      ensures var e, bank := Config()[t], if t.Private? then sgi[t.cpu] else gicd;
              && (e.enabled <==> Test(bank.enabled[t.id / 32], t.id % 32))
              && (e.nonSecure <==> Test(bank.igroupr[t.id / 32], t.id % 32))
              && (e.modifier <==> Test(bank.igrpmodr[t.id / 32], t.id % 32))
              && (e.low <==> Test(bank.icfgr[t.id / 16], 2 * (t.id % 16)))
              && (e.edge <==> Test(bank.icfgr[t.id / 16], 2 * (t.id % 16) + 1))
              && e.priority == bank.ipriorityr[t.id]
    {
      var bank := if t.Private? then sgi[t.cpu] else gicd;
      EntryBits(bank.Contents(), t.id);
    }

    ghost function SpiCount(): nat {
      NumSpis(typer)
    }

    /** Writes to one frame change that frame. */
    twostate lemma OnlyFrame(cpu: nat)
      requires Wired() && cpu < cpuCount
      requires unchanged(gicd.Repr)
      requires forall c | 0 <= c < cpuCount && c != cpu :: unchanged(sgi[c].Repr)
      ensures Registers() == old(Registers()).(frames := old(Registers()).frames[cpu := sgi[cpu].Contents()])
    {
    }

    /** Writes to the distributor change the distributor. */
    twostate lemma OnlyDistributor()
      requires Wired()
      requires unchanged(framesRepr)
      ensures Registers() == old(Registers()).(shared := gicd.Contents())
    {
    }

    /** Writes to the banks leave the other registers as they are. */
    twostate lemma OnlyBanks()
      requires Apart() && old(Controlled()) && unchanged(controlRepr)
      ensures Controlled() && gicdCtlr.value == old(gicdCtlr.value) && wakers.regs == old(wakers.regs)
    {
    }

    twostate lemma BanksUntouched()
      requires Wired() && unchanged(gicd.Repr) && unchanged(framesRepr)
      ensures Registers() == old(Registers())
    {
    }

    // ---------- per-interrupt operations ----------

    /** The registers one of these operations may touch: the frame of the core, or
        the distributor.  All other banks keep their contents. */
    ghost function Touched(intid: IntId, cpu: Option<nat>): set<object>
      requires Wired() && Addressable(cpuCount, intid, cpu)
    {
      if IsPrivate(intid) then sgi[cpu.value].Repr else gicd.Repr
    }

    /** Enables or disables one interrupt. */
    method EnableInterrupt(intid: IntId, cpu: Option<nat>, enable: bool)
      requires Wired() && Addressable(cpuCount, intid, cpu)
      modifies Touched(intid, cpu)
      ensures Config() == Apply(SpiCount(), Configuration.EnableInterrupt(intid, cpu, enable), old(Config()))
    {
      ghost var call := Configuration.EnableInterrupt(intid, cpu, enable);
      if IsPrivate(intid) {
        var frame := sgi[cpu.value];
        if enable {
          frame.Enable(intid);
        } else {
          frame.Disable(intid);
        }
        OnlyFrame(cpu.value);
        PrivateStep(old(Registers()), SpiCount(), call, frame.Contents());
      } else {
        if enable {
          gicd.Enable(intid);
        } else {
          gicd.Disable(intid);
        }
        OnlyDistributor();
        SharedStep(old(Registers()), SpiCount(), call, gicd.Contents());
      }
    }

    /** Sets the priority of one interrupt. */
    method SetInterruptPriority(intid: IntId, cpu: Option<nat>, priority: bv8)
      requires Wired() && Addressable(cpuCount, intid, cpu)
      modifies Touched(intid, cpu)
      ensures Config() == Apply(SpiCount(), SetPriority(intid, cpu, priority), old(Config()))
    {
      ghost var call := SetPriority(intid, cpu, priority);
      if IsPrivate(intid) {
        var frame := sgi[cpu.value];
        frame.SetPriority(intid, priority);
        OnlyFrame(cpu.value);
        PrivateStep(old(Registers()), SpiCount(), call, frame.Contents());
      } else {
        gicd.SetPriority(intid, priority);
        OnlyDistributor();
        SharedStep(old(Registers()), SpiCount(), call, gicd.Contents());
      }
    }

    /** Configures one interrupt as edge or level triggered. */
    method SetTrigger(intid: IntId, cpu: Option<nat>, trigger: Trigger)
      requires Wired() && Addressable(cpuCount, intid, cpu)
      modifies Touched(intid, cpu)
      ensures Config() == Apply(SpiCount(), Configuration.SetTrigger(intid, cpu, trigger), old(Config()))
    {
      ghost var call := Configuration.SetTrigger(intid, cpu, trigger);
      if IsPrivate(intid) {
        var frame := sgi[cpu.value];
        frame.SetTrigger(intid, trigger);
        OnlyFrame(cpu.value);
        PrivateStep(old(Registers()), SpiCount(), call, frame.Contents());
      } else {
        gicd.SetTrigger(intid, trigger);
        OnlyDistributor();
        SharedStep(old(Registers()), SpiCount(), call, gicd.Contents());
      }
    }

    /** Assigns one interrupt to a group, by two register writes. */
    method SetGroup(intid: IntId, cpu: Option<nat>, group: Group)
      requires Wired() && Addressable(cpuCount, intid, cpu)
      modifies Touched(intid, cpu)
      ensures Config() == Apply(SpiCount(), Configuration.SetGroup(intid, cpu, group), old(Config()))
    {
      ghost var call := Configuration.SetGroup(intid, cpu, group);
      if IsPrivate(intid) {
        var frame := sgi[cpu.value];
        ghost var half := frame.SetGroup(intid, group);
        OnlyFrame(cpu.value);
        PrivateStep(old(Registers()), SpiCount(), call, frame.Contents());
      } else {
        ghost var half := gicd.SetGroup(intid, group);
        OnlyDistributor();
        SharedStep(old(Registers()), SpiCount(), call, gicd.Contents());
      }
    }

    // ---------- bulk operations ----------

    /** Enables or disables every implemented interrupt on every core. */
    method EnableAllInterrupts(enable: bool)
      requires Wired()
      modifies gicd.Repr, framesRepr
      ensures Config() == Apply(SpiCount(), EnableAll(enable), old(Config()))
    {
      NumSpisBound(typer);
      var maxReg := NumSpis(typer) + 32;
      gicd.EnableSpis(maxReg, enable);
      EnableOnEveryCore(enable);
      EnableAllStep(old(Registers()), SpiCount(), enable, Registers());
    }

    /** The loop over the redistributors. */
    method EnableOnEveryCore(enable: bool)
      requires Wired()
      modifies framesRepr
      ensures forall c | 0 <= c < cpuCount :: sgi[c].Contents() == EnabledFirst(old(sgi[c].Contents()), enable)
    {
      for cpu := 0 to cpuCount
        invariant forall c | 0 <= c < cpu :: sgi[c].Contents() == EnabledFirst(old(sgi[c].Contents()), enable)
        invariant forall c | cpu <= c < cpuCount :: unchanged(sgi[c].Repr)
      {
        sgi[cpu].EnablePrivate(enable);
      }
    }

    /** The loop that puts every SGI and PPI into non-secure group 1. */
    method GroupOnEveryCore()
      requires Wired()
      modifies framesRepr
      ensures forall c | 0 <= c < cpuCount :: sgi[c].Contents() == GroupedFirst(old(sgi[c].Contents()))
    {
      for cpu := 0 to cpuCount
        invariant forall c | 0 <= c < cpu :: sgi[c].Contents() == GroupedFirst(old(sgi[c].Contents()))
        invariant forall c | cpu <= c < cpuCount :: unchanged(sgi[c].Repr)
      {
        sgi[cpu].GroupPrivate();
      }
    }

    /** The group writes of a setup: first the redistributors, then the SPIs. */
    method GroupAll(ghost core: nat)
      requires Wired()
      modifies gicd.Repr, framesRepr
      ensures Config() == Apply(SpiCount(), Configuration.Setup(core), old(Config()))
    {
      GroupOnEveryCore();
      NumSpisBound(typer);
      var maxReg := NumSpis(typer) + 32;
      gicd.GroupSpis(maxReg);
      SetupStep(old(Registers()), SpiCount(), core, Registers());
    }

    // ---------- initialisation ----------

    /** Enables system register access and marks the core as awake. */
    method InitCpu(cpu: nat)
      requires Valid() && cpu < cpuCount
      modifies system, wakers
      ensures Valid()
      ensures system.trace == old(system.trace) + [SystemWrite(IccSre, 1), SystemWrite(IccCtlr, 0)]
      ensures CoreWoken(old(wakers.regs), wakers.regs, cpu)
      // The core is awake, or was on its way to sleep and seen awake.
      ensures !wakers.regs[cpu].childrenAsleep
      ensures wakers.regs[cpu].processorSleep ==>
                old(wakers.regs)[cpu].processorSleep && !old(wakers.regs)[cpu].childrenAsleep
    {
      system.Store(IccSre, 1);
      // An error means that the core is already awake.
      var r := wakers.MarkCoreAwake(cpu);
      system.Store(IccCtlr, 0);
    }

    /** What setup does before the group writes: the core, then the control
        register, with affinity routing and non-secure group 1 enabled. */
    method SetupControl(cpu: nat)
      requires Valid() && cpu < cpuCount
      modifies gicdCtlr, wakers, system
      ensures Valid()
      ensures gicdCtlr.value == ControlAfterSetup(old(gicdCtlr.value), gicdCtlr.writable)
      ensures {ARE_S, ENABLE_GRP1_NS} <= gicdCtlr.value
      ensures system.trace == old(system.trace) + SETUP_TRACE[..2]
      ensures CoreWoken(old(wakers.regs), wakers.regs, cpu)
    {
      InitCpu(cpu);
      gicdCtlr.Store({ARE_S, ENABLE_GRP1_NS});
    }

    /** The group writes of a setup, with the other registers as they are. */
    method SetupBanks(ghost core: nat)
      requires Valid()
      modifies gicd.Repr, framesRepr
      ensures Valid()
      ensures Config() == Apply(SpiCount(), Configuration.Setup(core), old(Config()))
      ensures forall t | t in Config() && Implemented(SpiCount(), t) :: Config()[t].Group() == Group1NS
      ensures gicdCtlr.value == old(gicdCtlr.value) && wakers.regs == old(wakers.regs)
      ensures system.trace == old(system.trace)
    {
      GroupAll(core);
      OnlyBanks();
      SetupGroups(SpiCount(), core, old(Config()));
    }

    /** Initialises the GIC and marks the core as awake. */
    method Setup(cpu: nat)
      requires Valid() && cpu < cpuCount
      modifies gicd.Repr, framesRepr, gicdCtlr, wakers, system
      ensures Valid()
      ensures Config() == Apply(SpiCount(), Configuration.Setup(cpu), old(Config()))
      ensures forall t | t in Config() && Implemented(SpiCount(), t) :: Config()[t].Group() == Group1NS
      ensures gicdCtlr.value == ControlAfterSetup(old(gicdCtlr.value), gicdCtlr.writable)
      ensures {1, 4} <= gicdCtlr.value
      // System register access is enabled first, and group 1 last.
      ensures system.trace ==
              old(system.trace) + [SystemWrite(IccSre, 1), SystemWrite(IccCtlr, 0), SystemWrite(IccIgrpen1, 1)]
      ensures CoreWoken(old(wakers.regs), wakers.regs, cpu)
      // The core is awake, or was on its way to sleep and seen awake.
      ensures !wakers.regs[cpu].childrenAsleep
      ensures wakers.regs[cpu].processorSleep ==>
                old(wakers.regs)[cpu].processorSleep && !old(wakers.regs)[cpu].childrenAsleep
    {
      SetupControl(cpu);
      BanksUntouched();
      SetupBanks(cpu);
      EnableGroup1(true);
      assert SETUP_TRACE == SETUP_TRACE[..2] + [SystemWrite(IccIgrpen1, 1)];
    }

    method EnableGroup1(enable: bool)
      modifies system
      ensures system.trace == old(system.trace) + [SystemWrite(IccIgrpen1, if enable then 1 else 0)]
    {
      system.Store(IccIgrpen1, if enable then 1 else 0);
    }

    /** A second setup, of any core, leaves the configuration and the control
        register as the first one left them, and the core it names awake.  With no
        handshake under way, a second setup of the same core changes nothing at all. */
    method SetupTwice(cpu: nat, again: nat) returns (ghost config: Config, ghost ctlr: Flags, ghost waker: seq<Waker>)
      requires Valid() && cpu < cpuCount && again < cpuCount
      modifies gicd.Repr, framesRepr, gicdCtlr, wakers, system
      ensures Valid()
      ensures config == Apply(SpiCount(), Configuration.Setup(cpu), old(Config()))
      ensures CoreWoken(old(wakers.regs), waker, cpu) && CoreWoken(waker, wakers.regs, again)
      ensures Config() == config && gicdCtlr.value == ctlr
      ensures old(wakers.AllSettled()) && again == cpu ==> wakers.regs == waker
      ensures system.trace == old(system.trace) + SETUP_TRACE + SETUP_TRACE
    {
      Setup(cpu);
      config, ctlr, waker := Config(), gicdCtlr.value, wakers.regs;
      SetupIdempotent(SpiCount(), cpu, again, old(Config()));
      Setup(again);
    }

    // ---------- control, barriers and power ----------

    /** Waits until no distributor write is in progress. */
    method GicdBarrier()
      requires Valid()
      modifies gicdCtlr`pending
      ensures Valid() && gicdCtlr.pending == 0
    {
      gicdCtlr.Barrier(GICD_RWP);
    }

    method GicdSetControl(flags: Flags)
      requires Valid()
      modifies gicdCtlr
      ensures Valid() && gicdCtlr.pending == 0
      ensures gicdCtlr.value == old(gicdCtlr.value) + flags * gicdCtlr.writable
    {
      gicdCtlr.SetControl(flags);
    }

    method GicdClearControl(flags: Flags)
      requires Valid()
      modifies gicdCtlr
      ensures Valid() && gicdCtlr.pending == 0
      ensures gicdCtlr.value == old(gicdCtlr.value) - flags * gicdCtlr.writable
    {
      gicdCtlr.ClearControl(flags);
    }

    /** Waits until no write to the redistributor is in progress. */
    method GicrBarrier(cpu: nat)
      requires Valid() && cpu < cpuCount
      modifies gicrCtlr[cpu]
      ensures Valid() && gicrCtlr[cpu].pending == 0 && gicrCtlr[cpu].value == old(gicrCtlr[cpu].value)
    {
      gicrCtlr[cpu].Barrier(GICR_RWP);
    }

    /** Powers a redistributor on, if it is of a model that needs it.  Other
        models are not touched. */
    method GicrPowerOn(cpu: nat) returns (r: Outcome)
      requires Valid() && cpu < cpuCount
      modifies pwrr[cpu]
      ensures Valid()
      ensures NeedsPowerManagement(iidr[cpu]) ==>
                && (r.Returned? <==> OnReturns(old(pwrr[cpu].Future())))
                && OnWrites(old(pwrr[cpu].Future()), old(pwrr[cpu].instant), old(pwrr[cpu].writes), pwrr[cpu].writes)
                && forall i | |old(pwrr[cpu].writes)| <= i < |pwrr[cpu].writes| ::
                     pwrr[cpu].writes[i].value == PowerSequence.FromBits(0)
      ensures !NeedsPowerManagement(iidr[cpu]) ==> r.Returned? && unchanged(pwrr[cpu])
    {
      r := Returned;
      if NeedsPowerManagement(iidr[cpu]) {
        r := pwrr[cpu].PowerOn();
      }
    }

    /** Powers a redistributor off, if it is of a model that needs it. */
    method GicrPowerOff(cpu: nat) returns (r: Outcome)
      requires Valid() && cpu < cpuCount
      modifies pwrr[cpu]
      ensures Valid()
      ensures NeedsPowerManagement(iidr[cpu]) ==>
                && (r.Returned? <==> OffReturns(old(pwrr[cpu].Future())))
                && pwrr[cpu].writes ==
                   old(pwrr[cpu].writes) + OffWrites(old(pwrr[cpu].Future()), old(pwrr[cpu].instant))
                && forall i | |old(pwrr[cpu].writes)| <= i < |pwrr[cpu].writes| ::
                     pwrr[cpu].writes[i].value == PowerSequence.FromBits(0x1)
      ensures !NeedsPowerManagement(iidr[cpu]) ==> r.Returned? && unchanged(pwrr[cpu])
    {
      r := Returned;
      if NeedsPowerManagement(iidr[cpu]) {
        r := pwrr[cpu].PowerOff();
      }
    }

    /** The address of a core's redistributor.  Its window is in the address space
        and apart from the windows of the other cores. */
    method GicrSgiPtr(cpu: nat) returns (address: nat)
      requires Wired() && Mapped() && cpu < cpuCount
      ensures address == gicrBase + cpu * gicrStride
      ensures gicrBase <= address && address + gicrStride <= gicrBase + cpuCount * gicrStride <= addressSpace
      ensures forall c | 0 <= c < cpuCount && c != cpu ::
                var other := Layout.RedistributorAddress(gicrBase, c, gicrStride, addressSpace);
                address + gicrStride <= other || other + gicrStride <= address
    {
      address := (gicrBase + cpu * gicrStride) % addressSpace;
      Layout.NoWrap(gicrBase, cpuCount, gicrStride, addressSpace, cpu);
      Layout.StrideStep(cpu, cpuCount, gicrStride);
      forall c | 0 <= c < cpuCount && c != cpu
        ensures var other := Layout.RedistributorAddress(gicrBase, c, gicrStride, addressSpace);
                address + gicrStride <= other || other + gicrStride <= address
      {
        if c < cpu {
          Layout.StridesApart(gicrBase, cpuCount, gicrStride, addressSpace, c, cpu);
        } else {
          Layout.StridesApart(gicrBase, cpuCount, gicrStride, addressSpace, cpu, c);
        }
      }
    }

    /** Sends a software-generated interrupt: one write, to the register of the
        group, of a value that asks for the interrupt and reaches the cores of the
        request and no others. */
    method SendSgi(intid: IntId, target: SgiRouting.SgiTarget, group: SgiRouting.SgiTargetGroup)
      requires IsSgi(intid)
      modifies system
      ensures exists v ::
                && SgiRouting.Serves(v, intid, target)
                && (group == SgiRouting.Group0 ==> system.trace == old(system.trace) + [SystemWrite(IccSgi0r, v)])
                && (group == SgiRouting.CurrentGroup1 ==>
                      system.trace == old(system.trace) + [SystemWrite(IccSgi1r, v)])
                && (group == SgiRouting.OtherGroup1 ==> system.trace == old(system.trace) + [SystemWrite(IccAsgi1r, v)])
    {
      var value := SgiRouting.SgiValue(intid, target);
      SgiRouting.ValueServesRequest(intid, target);
      match group {
        case Group0 => system.Store(IccSgi0r, value);
        case CurrentGroup1 => system.Store(IccSgi1r, value);
        case OtherGroup1 => system.Store(IccAsgi1r, value);
      }
    }

    // ---------- runs ----------

    /** What the driver can observe: the configuration, the control register, the
        system register writes and the wake registers. */
    ghost function State(): State
      requires Wired()
      reads gicd.Repr, framesRepr, gicdCtlr, system, wakers
    {
      DriverState(Config(), gicdCtlr.value, system.trace, wakers.regs)
    }

    /** One configuration call. */
    method Perform(call: Call)
      requires Valid() && Accepted(cpuCount, call)
      modifies gicd.Repr, framesRepr, gicdCtlr, wakers, system
      ensures Valid()
      ensures Stepped(SpiCount(), gicdCtlr.writable, call, old(State()), State())
    {
      if call.Setup? {
        Setup(call.core);
      } else {
        PerformOnBanks(call);
        OnlyBanks();
      }
    }

    /** One configuration call that is not a setup.  It writes to the banks only. */
    method PerformOnBanks(call: Call)
      requires Wired() && Accepted(cpuCount, call) && !call.Setup?
      modifies gicd.Repr, framesRepr
      ensures Config() == Apply(SpiCount(), call, old(Config()))
    {
      match call {
        case EnableInterrupt(id, cpu, enable) => EnableInterrupt(id, cpu, enable);
        case EnableAll(enable) => EnableAllInterrupts(enable);
        case SetPriority(id, cpu, priority) => SetInterruptPriority(id, cpu, priority);
        case SetTrigger(id, cpu, trigger) => SetTrigger(id, cpu, trigger);
        case SetGroup(id, cpu, group) => SetGroup(id, cpu, group);
      }
    }

    /** A run of configuration calls, as the driver's whole state sees it. */
    method RunAll(calls: seq<Call>)
      requires Valid() && AllAccepted(cpuCount, calls)
      modifies gicd.Repr, framesRepr, gicdCtlr, wakers, system
      ensures Valid()
      ensures RanTo(cpuCount, SpiCount(), gicdCtlr.writable, calls, old(State()), State())
    {
      ghost var start := State();
      for n := 0 to |calls|
        invariant Valid()
        invariant RanTo(cpuCount, SpiCount(), gicdCtlr.writable, calls[..n], start, State())
      {
        ghost var before := State();
        Perform(calls[n]);
        RanFurther(cpuCount, SpiCount(), gicdCtlr.writable, calls[..n], calls[n], start, before, State());
        assert calls[..n + 1] == calls[..n] + [calls[n]];
      }
      assert calls[..|calls|] == calls;
    }

    /** A run of configuration calls: the registers simulate the map of entries,
        and decoded they simulate the map from interrupts to settings. */
    method RunCalls(calls: seq<Call>)
      requires Valid() && AllAccepted(cpuCount, calls)
      modifies gicd.Repr, framesRepr, gicdCtlr, wakers, system
      ensures Valid()
      ensures Config() == Run(cpuCount, SpiCount(), calls, old(Config()))
      ensures forall t | t in Config() && IsInterrupt(t) ::
                View(Config()[t]) == RunSetting(cpuCount, SpiCount(), calls, t, View(old(Config())[t]))
      // The setups of the run, and nothing else, show outside the banks.
      ensures RanTo(cpuCount, SpiCount(), gicdCtlr.writable, calls, old(State()), State())
    {
      TyperHasShape(typer);
      DecodedRunOfMap(cpuCount, SpiCount(), calls, Config());
      RunAll(calls);
    }
  }

  // ---------- runs as a whole ----------

  datatype State = DriverState(config: Config, control: Flags, trace: seq<SystemWrite>, wakers: seq<Waker>)
  {
    ghost predicate AllSettled() {
      forall c | 0 <= c < |wakers| :: wakers[c].Settled()
    }
  }

  /** What one call does.  Only a setup reaches past the register banks. */
  ghost predicate Stepped(n: nat, writable: Flags, call: Call, s: State, s': State)
    requires WellFormed(call)
  {
    && s'.config == Apply(n, call, s.config)
    && if call.Setup? then
         && s'.control == ControlAfterSetup(s.control, writable)
         && s'.trace == s.trace + SETUP_TRACE
         && CoreWoken(s.wakers, s'.wakers, call.core)
       else s'.control == s.control && s'.trace == s.trace && s'.wakers == s.wakers
  }

  /** What a run does: the configuration follows the calls; if there is a setup among
      them the control register has its flags; the system registers see the writes
      of each setup; and every core that a setup names is awake in the end. */
  ghost predicate RanTo(cpuCount: nat, n: nat, writable: Flags, calls: seq<Call>, s: State, s': State)
    requires AllAccepted(cpuCount, calls)
  {
    && s'.config == Run(cpuCount, n, calls, s.config)
    && s'.control == (if HasSetup(calls) then ControlAfterSetup(s.control, writable) else s.control)
    && s'.trace == s.trace + SetupTrace(calls)
    && (s.AllSettled() ==> s'.wakers == WokenBy(calls, s.wakers))
  }

  /** After a run with a setup in it, the system registers hold what a setup writes. */
  lemma {:induction false} SetupTraceLast(calls: seq<Call>, before: seq<SystemWrite>)
    ensures var trace := before + SetupTrace(calls);
            if exists i :: 0 <= i < |calls| && calls[i].Setup? then
              && LastValue(trace, IccSre) == Some(1)
              && LastValue(trace, IccCtlr) == Some(0)
              && LastValue(trace, IccIgrpen1) == Some(1)
            else trace == before
  {
    if calls != [] {
      var n := |calls| - 1;
      SetupTraceLast(calls[..n], before);
      assert forall i | 0 <= i < n :: calls[..n][i] == calls[i];
      if calls[n].Setup? {
        LastOfSetup(before + SetupTrace(calls[..n]));
        assert before + SetupTrace(calls) == before + SetupTrace(calls[..n]) + SETUP_TRACE;
      } else {
        assert SetupTrace(calls) == SetupTrace(calls[..n]);
      }
    }
  }

  lemma LastOfSetup(before: seq<SystemWrite>)
    ensures LastValue(before + SETUP_TRACE, IccSre) == Some(1)
    ensures LastValue(before + SETUP_TRACE, IccCtlr) == Some(0)
    ensures LastValue(before + SETUP_TRACE, IccIgrpen1) == Some(1)
  {
    var trace := before + SETUP_TRACE;
    var n := |before|;
    assert trace[..n + 2][..n + 1] == trace[..n + 1];
    assert LastValue(trace[..n + 1], IccSre) == Some(1);
  }

  /** What a run leaves outside the banks.  After a setup, group 1 is enabled at the CPU
      interface and in the distributor, and the core is awake, whatever calls follow.
      Without one nothing has changed. */
  lemma RunsInFull(cpuCount: nat, n: nat, writable: Flags, calls: seq<Call>, s: State, s': State)
    requires AllAccepted(cpuCount, calls) && RanTo(cpuCount, n, writable, calls, s, s')
    requires {1, 4} <= writable + s.control && |s.wakers| == cpuCount
    ensures if exists i :: 0 <= i < |calls| && calls[i].Setup? then
              && s'.control == s.control - writable + {1, 4} * writable
              && {1, 4} <= s'.control
              && LastValue(s'.trace, IccSre) == Some(1)
              && LastValue(s'.trace, IccCtlr) == Some(0)
              && LastValue(s'.trace, IccIgrpen1) == Some(1)
            else s'.control == s.control && s'.trace == s.trace
    ensures s.AllSettled() ==>
              && |s'.wakers| == |s.wakers|
              && forall c | 0 <= c < |s.wakers| ::
                   if exists i :: 0 <= i < |calls| && calls[i] == Configuration.Setup(c)
                     then s'.wakers[c] == Waker(false, false, s.wakers[c].rest)
                     else s'.wakers[c] == s.wakers[c]
  {
    SetupTraceLast(calls, s.trace);
    ControlInFull(s.control, writable);
  }

  lemma RanFurther(
    cpuCount: nat, n: nat, writable: Flags, calls: seq<Call>, call: Call, s: State, s1: State, s2: State)
    requires AllAccepted(cpuCount, calls) && Accepted(cpuCount, call)
    requires RanTo(cpuCount, n, writable, calls, s, s1) && Stepped(n, writable, call, s1, s2)
    ensures AllAccepted(cpuCount, calls + [call])
    ensures RanTo(cpuCount, n, writable, calls + [call], s, s2)
  {
    var all := calls + [call];
    assert all[..|calls|] == calls;
    HasSetupFurther(calls, call);
    ControlTwice(s.control, writable);
    TraceFurther(calls, call, s.trace);
    if s.AllSettled() {
      WokenFurther(calls, call, s.wakers, s2.wakers);
    }
  }

  lemma ControlTwice(value: Flags, writable: Flags)
    ensures ControlAfterSetup(ControlAfterSetup(value, writable), writable) == ControlAfterSetup(value, writable)
  {
  }

  lemma TraceFurther(calls: seq<Call>, call: Call, trace: seq<SystemWrite>)
    ensures trace + SetupTrace(calls + [call]) ==
            trace + SetupTrace(calls) + if call.Setup? then SETUP_TRACE else []
  {
    assert (calls + [call])[..|calls|] == calls;
  }

  lemma HasSetupFurther(calls: seq<Call>, call: Call)
    ensures HasSetup(calls + [call]) <==> HasSetup(calls) || call.Setup?
  {
    var all := calls + [call];
    assert all[|calls|] == call;
    if HasSetup(calls) {
      var i :| 0 <= i < |calls| && calls[i].Setup?;
      assert all[i].Setup?;
    }
  }

  lemma WokenFurther(calls: seq<Call>, call: Call, regs: seq<Waker>, now: seq<Waker>)
    requires forall c | 0 <= c < |regs| :: regs[c].Settled()
    requires if call.Setup? then CoreWoken(WokenBy(calls, regs), now, call.core) else now == WokenBy(calls, regs)
    ensures now == WokenBy(calls + [call], regs)
  {
    forall c | 0 <= c < |regs|
      ensures now[c] == WokenBy(calls + [call], regs)[c]
    {
      var setup := Configuration.Setup(c);
      assert setup in calls + [call] <==> setup in calls || call == setup;
    }
  }

  // ---------- what setups leave outside the banks ----------

  function ControlAfterSetup(value: Flags, writable: Flags): Flags {
    Latched(value, {ARE_S, ENABLE_GRP1_NS}, writable)
  }

  /** Flags 1 and 4 are written, and read-only flags stay. */
  lemma ControlInFull(value: Flags, writable: Flags)
    ensures ControlAfterSetup(value, writable) == value - writable + {1, 4} * writable
  {
  }

  /** What waking one core does to the wake registers.  The core is awake for good,
      unless it was on its way to sleep and was taken for awake.  Other cores see
      only their own hardware, and nothing if no handshake is under way. */
  ghost predicate CoreWoken(was: seq<Waker>, now: seq<Waker>, cpu: nat) {
    && |was| == |now| && cpu < |was|
    && !now[cpu].childrenAsleep
    && (now[cpu] == was[cpu].After(false) || (was[cpu].FallingAsleep() && now[cpu] == was[cpu]))
    && forall c | 0 <= c < |was| && c != cpu :: was[c].Reaches(now[c])
  }

  /** The core is awake for good exactly when its register is settled.  It can be left
      otherwise exactly from a register on its way to sleep, which the next hardware
      step takes to sleep; a settled system changes in the one register only. */
  lemma WokenForGood(was: seq<Waker>, now: seq<Waker>, cpu: nat)
    requires CoreWoken(was, now, cpu)
    ensures now[cpu].Settled() <==> now[cpu] == was[cpu].After(false)
    ensures !now[cpu].Settled() ==> was[cpu].FallingAsleep() && now[cpu].Follow().childrenAsleep
    ensures was[cpu].FallingAsleep() <==> exists w: seq<Waker> :: CoreWoken(was, w, cpu) && !w[cpu].Settled()
    ensures (forall c | 0 <= c < |was| :: was[c].Settled()) ==> now == was[cpu := was[cpu].After(false)]
    ensures forall c | 0 <= c < |was| && c != cpu ::
              now[c] == was[c] || now[c] == was[c].(childrenAsleep := was[c].processorSleep)
  {
    if was[cpu].FallingAsleep() {
      assert CoreWoken(was, was, cpu);
    }
  }

  predicate HasSetup(calls: seq<Call>) {
    exists i :: 0 <= i < |calls| && calls[i].Setup?
  }

  /** The system register writes of a run: those of each setup in it, in order. */
  function SetupTrace(calls: seq<Call>): seq<SystemWrite> {
    if calls == [] then []
    else
      var n := |calls| - 1;
      SetupTrace(calls[..n]) + if calls[n].Setup? then SETUP_TRACE else []
  }

  /** The wake registers with every core that a setup names awake. */
  function WokenBy(calls: seq<Call>, regs: seq<Waker>): seq<Waker> {
    seq(|regs|, c requires 0 <= c < |regs| =>
      if Configuration.Setup(c) in calls then regs[c].After(false) else regs[c])
  }
}
