/** The example of the crate's documentation: a single-core GICv3 is set up, and a
    software-generated interrupt is configured and sent to the core itself. */
module Example {
  import opened Wrappers
  import opened IntIds
  import opened Configuration
  import opened ConfigurationRuns
  import opened Banks
  import opened WakerProtocol
  import opened ControlBarrier
  import opened GicV3Driver
  import opened PowerSequence
  import SgiRouting

  const SGI_INTID: IntId := 3

  /** A core's own request: affinity zero, the first core of the list. */
  const SELF: SgiRouting.SgiTarget := SgiRouting.List(0, 0, 0, 1)

  /** The registers of a GICv3 with one core, outside the banks. */
  method BuildControls(latency: nat)
    returns (gicdCtlr: ControlRegister, gicrCtlr: ControlRegister, pwrr: PowerRegister, wakers: Wakers)
    ensures fresh({gicdCtlr, gicrCtlr, pwrr, wakers}) && gicdCtlr != gicrCtlr
    ensures DistributorControl(gicdCtlr) && RedistributorControl(gicrCtlr) && pwrr.Valid()
    ensures wakers.Valid() && wakers.AllSettled() && |wakers.regs| == 1
    ensures ControlsOf(gicdCtlr, wakers, [gicrCtlr], [pwrr]) == {gicdCtlr, wakers, gicrCtlr, pwrr}
  {
    gicdCtlr := new ControlRegister(GICD_RWP, {0, ENABLE_GRP1_NS, 2, ARE_S}, {}, latency);
    gicrCtlr := new ControlRegister(GICR_RWP, {0, 24, 25, 26}, {}, latency);
    pwrr := new PowerRegister([]);
    wakers := new Wakers([Waker(true, true, 0)], [latency]);
    assert [gicrCtlr][0] == gicrCtlr && [pwrr][0] == pwrr;
  }

  /** The banks of a GICv3 with one core. */
  method BuildBanks() returns (gicd: Bank, frame: Bank)
    ensures gicd.Valid() && gicd.words == 32 && frame.Valid() && frame.words == 1
    ensures fresh(gicd.Repr) && fresh(frame.Repr) && frame.Repr !! gicd.Repr
    ensures FramesOf([frame]) == frame.Repr
  {
    gicd := new Bank(32, 64);
    frame := new Bank(1, 6);
    assert [frame][0] == frame;
  }

  /** A GICv3 with one core, fresh out of reset with the core asleep: hardware as
      the driver's constructor asks for, on which every call can be made. */
  method SingleCore(typer: bv32, iidr: bv32, latency: nat) returns (gic: GicV3)
    ensures gic.Valid() && gic.Mapped() && gic.cpuCount == 1 && gic.typer == typer
    ensures gic.wakers.AllSettled() && gic.system.trace == []
    ensures fresh(gic.gicd.Repr) && fresh(gic.framesRepr) && fresh(gic.controlRepr) && fresh(gic.system)
  {
    var gicd, frame := BuildBanks();
    var gicdCtlr, gicrCtlr, pwrr, wakers := BuildControls(latency);
    var system := new SystemRegisters();
    gic := new GicV3(
      gicd, gicdCtlr, typer, [frame], [gicrCtlr], [pwrr], [iidr], wakers, system, 0x80a_0000, 0x1_0000_0000, false, 0);
  }

  /** The settings after the calls of the example. */
  lemma ExampleSettings(n: nat, m: Config)
    requires Private(0, SGI_INTID) in m
    ensures var done := Apply(n, EnableInterrupt(SGI_INTID, Some(0), true),
                              Apply(n, SetPriority(SGI_INTID, Some(0), 0x80), Apply(n, Setup(0), m)));
            && Private(0, SGI_INTID) in done
            && View(done[Private(0, SGI_INTID)]) ==
               Setting(true, Group1NS, View(m[Private(0, SGI_INTID)]).trigger, 0x80)
  {
  }

  /** The calls of the example, and what they amount to: the interrupt is enabled in
      non-secure group 1 with its priority, the core is awake, and the last write
      sends the interrupt to the core. */
  method SetUpAndSend(gic: GicV3)
    requires gic.Valid() && gic.cpuCount == 1
    modifies gic.gicd.Repr, gic.framesRepr, gic.gicdCtlr, gic.wakers, gic.system
    ensures Private(0, SGI_INTID) in gic.Config()
    ensures var s := View(gic.Config()[Private(0, SGI_INTID)]);
            s.enabled && s.group == Group1NS && s.priority == 0x80
    ensures CoreWoken(old(gic.wakers.regs), gic.wakers.regs, 0)
    ensures !gic.wakers.regs[0].childrenAsleep && {1, 4} <= gic.gicdCtlr.value
    ensures exists v ::
              && SgiRouting.Serves(v, 3, SgiRouting.List(0, 0, 0, 0x1))
              && gic.system.trace ==
                 old(gic.system.trace)
                 + [SystemWrite(IccSre, 1), SystemWrite(IccCtlr, 0), SystemWrite(IccIgrpen1, 1)]
                 + [SystemWrite(IccSgi1r, v)]
  {
    Configure(gic);
    gic.SendSgi(SGI_INTID, SELF, SgiRouting.CurrentGroup1);
  }

  method Configure(gic: GicV3)
    requires gic.Valid() && gic.cpuCount == 1
    modifies gic.gicd.Repr, gic.framesRepr, gic.gicdCtlr, gic.wakers, gic.system
    ensures gic.Valid()
    ensures Private(0, SGI_INTID) in gic.Config()
    ensures var s := View(gic.Config()[Private(0, SGI_INTID)]);
            s.enabled && s.group == Group1NS && s.priority == 0x80
    ensures CoreWoken(old(gic.wakers.regs), gic.wakers.regs, 0)
    ensures !gic.wakers.regs[0].childrenAsleep && {1, 4} <= gic.gicdCtlr.value
    ensures gic.system.trace ==
            old(gic.system.trace) + [SystemWrite(IccSre, 1), SystemWrite(IccCtlr, 0), SystemWrite(IccIgrpen1, 1)]
  {
    ExampleSettings(gic.SpiCount(), gic.Config());
    gic.Setup(0);
    label ready:
    gic.SetInterruptPriority(SGI_INTID, Some(0), 0x80);
    gic.EnableInterrupt(SGI_INTID, Some(0), true);
    gic.OnlyBanks@ready();
  }
}
