/** The GICv2 driver, over one distributor and one CPU interface. */
module GicV2Driver {
  import opened Wrappers
  import opened IntIds
  import opened Bits
  import opened RegisterBank
  import opened GicV2Lines
  import opened GicV2Sgi
  import Configuration
  import Banks

  // ---------- the registers as lines ----------

  /** The contents of the distributor. */
  datatype Registers = Registers(group: seq<bv32>, enabled: seq<bv32>, config: seq<bv32>, priority: seq<bv32>)
  {
    ghost predicate Shaped() {
      |group| == |enabled| == 32 && |config| == 64 && |priority| == 256
    }

    ghost function At(id: nat): Line
      requires Shaped() && id < 1024
    {
      Line(
        BitOf(enabled, id), BitOf(group, id), Banks.ConfigBit(config, id, 0), Banks.ConfigBit(config, id, 1),
        Byte(priority[id / 4], id % 4))
    }

    ghost function Lines(): (s: seq<Line>)
      requires Shaped()
    {
      seq(1024, id requires 0 <= id < 1024 => At(id))
    }
  }

  /** The identifiers whose bits are set. */
  ghost function Ones(words: seq<bv32>): set<nat> {
    set n: nat | n < 32 * |words| && BitOf(words, n)
  }

  // ---------- the driver ----------

  const ENABLE_GRP1: bv32 := 0x2

  class GicV2 {
    const igroupr: array<bv32>
    const enabled: array<bv32>
    const icfgr: array<bv32>
    const ipriorityr: array<bv32>
    /** The enable bits that exist in hardware. */
    const implemented: seq<bv32>
    var gicdCtlr: bv32
    var giccCtlr: bv32
    var giccPmr: bv32
    /** The values written to generate SGIs. */
    var sgir: seq<bv32>

    constructor (implemented: seq<bv32>)
      requires |implemented| == 32
      ensures Valid() && this.implemented == implemented && sgir == []
      ensures fresh(Repr())
    {
      igroupr := new bv32[32](_ => 0);
      enabled := new bv32[32](_ => 0);
      icfgr := new bv32[64](_ => 0);
      ipriorityr := new bv32[256](_ => 0);
      this.implemented := implemented;
      gicdCtlr, giccCtlr, giccPmr, sgir := 0, 0, 0, [];
      new;
      forall id | 0 <= id < 1024
        ensures !BitOf(enabled[..], id)
      {
        ConstantBits(id % 32);
      }
    }

    ghost function Repr(): set<object> {
      {igroupr, enabled, icfgr, ipriorityr}
    }

    ghost predicate Wired() {
      && igroupr.Length == enabled.Length == |implemented| == 32
      && icfgr.Length == 64 && ipriorityr.Length == 256
      && igroupr != enabled && igroupr != icfgr && igroupr != ipriorityr
      && enabled != icfgr && enabled != ipriorityr && icfgr != ipriorityr
    }

    /** Only implemented interrupts are ever enabled. */
    ghost predicate Valid()
      reads enabled
    {
      Wired() && Ones(enabled[..]) <= Implemented()
    }

    ghost function Implemented(): set<nat>
      requires Wired()
    {
      Ones(implemented)
    }

    ghost function Contents(): (r: Registers)
      requires Wired()
      reads Repr()
      ensures r.Shaped()
    {
      Registers(igroupr[..], enabled[..], icfgr[..], ipriorityr[..])
    }

    ghost function Lines(): (s: seq<Line>)
      requires Wired()
      reads Repr()
      ensures |s| == 1024
    {
      Contents().Lines()
    }

    /** The lines are what the bits of the registers say. */
    lemma LinesReadRegisters(id: nat)
      requires Wired() && id < 1024
      ensures var l := Lines()[id];
              && (l.enabled <==> Test(enabled[id / 32], id % 32))
              && (l.group1 <==> Test(igroupr[id / 32], id % 32))
              && (l.low <==> Test(icfgr[id / 16], 2 * (id % 16)))
              && (l.edge <==> Test(icfgr[id / 16], 2 * (id % 16) + 1))
              && l.priority == match id % 4
                               case 0 => (ipriorityr[id / 4] & 0xff) as bv8
                               case 1 => ((ipriorityr[id / 4] >> 8) & 0xff) as bv8
                               case 2 => ((ipriorityr[id / 4] >> 16) & 0xff) as bv8
                               case _ => (ipriorityr[id / 4] >> 24) as bv8
      ensures id in Implemented() <==> Test(implemented[id / 32], id % 32)
    {
      assert id % 16 * 2 == 2 * (id % 16);
    }

    /** A set-enable write reaches implemented bits only. */
    method WriteIsenabler(i: nat, v: bv32)
      requires Wired() && i < 32
      modifies enabled
      ensures enabled[..] == Stored(SetOnes, old(enabled[..]), i, implemented[i] & v)
    {
      WriteWord(Port(enabled, SetOnes), i, implemented[i] & v);
    }

    method WriteIcenabler(i: nat, v: bv32)
      requires Wired() && i < 32
      modifies enabled
      ensures enabled[..] == Stored(ClearOnes, old(enabled[..]), i, v)
    {
      WriteWord(Port(enabled, ClearOnes), i, v);
    }

    /** Enables or disables one interrupt; enabling reports whether it exists. */
    method EnableInterrupt(intid: IntId, enable: bool) returns (r: Result<Unit, Unit>)
      requires Valid() && intid < SPECIAL_END
      modifies enabled
      ensures Valid()
      ensures r.Ok? <==> (enable ==> intid in Implemented())
      ensures Lines() == Apply(Implemented(), Call.EnableInterrupt(intid, enable), old(Lines()))
    {
      var index := intid / 32;
      var bit := Mask(intid % 32);
      r := Ok(Unit);
      if enable {
        WriteIsenabler(index, bit);
        EnableStep(old(Contents()), implemented, intid);
        if !Test(enabled[index], intid % 32) {
          r := Err(Unit);
        }
      } else {
        WriteIcenabler(index, bit);
        DisableStep(old(Contents()), implemented, intid);
      }
    }

    /** Enables or disables all interrupts. */
    method EnableAllInterrupts(enable: bool)
      requires Valid()
      modifies enabled
      ensures Valid()
      ensures Lines() == Apply(Implemented(), Call.EnableAll(enable), old(Lines()))
    {
      for i := 0 to 32
        invariant forall k | 0 <= k < 32 ::
                    enabled[k] ==
                    if k < i then AllWritten(enable, old(enabled[..]), implemented)[k] else old(enabled[k])
      {
        if enable {
          WriteIsenabler(i, ONES);
        } else {
          WriteIcenabler(i, ONES);
        }
      }
      assert enabled[..] == AllWritten(enable, old(enabled[..]), implemented);
      EnableAllStep(old(Contents()), implemented, enable);
    }

    /** Sets the priority of one interrupt, by writing the word of four priorities. */
    method SetInterruptPriority(intid: IntId, priority: bv8)
      requires Wired() && intid < SPECIAL_END
      modifies ipriorityr
      ensures Lines() == Apply(Implemented(), Call.SetPriority(intid, priority), old(Lines()))
    {
      var idx := intid / 4;
      ipriorityr[idx] := ByteWord(priority, intid % 4);
      PriorityStep(old(Contents()), Implemented(), intid, priority);
      assert Contents() == old(Contents()).(priority := old(ipriorityr[..])[idx := ByteWord(priority, intid % 4)]);
    }

    /** Configures one interrupt as edge or level triggered. */
    method SetTrigger(intid: IntId, trigger: Configuration.Trigger)
      requires Wired() && intid < SPECIAL_END
      modifies icfgr
      ensures Lines() == Apply(Implemented(), Call.SetTrigger(intid, trigger), old(Lines()))
    {
      var index := intid / 16;
      var v := icfgr[index];
      icfgr[index] := match trigger
        case Edge => Put(v, intid % 16 * 2 + 1, true)
        case Level => Put(v, intid % 16 * 2 + 1, false);
      TriggerStep(old(Contents()), Implemented(), intid, trigger);
      assert Contents() == old(Contents()).(config := Banks.Triggered(old(icfgr[..]), intid, trigger));
    }

    /** Puts every interrupt into group 1, and opens the CPU interface. */
    method Setup()
      requires Wired()
      modifies this, igroupr
      ensures Lines() == Apply(Implemented(), Call.Setup, old(Lines()))
      ensures gicdCtlr == 0x2 && giccCtlr == 1 && giccPmr == 0xff && sgir == old(sgir)
    {
      gicdCtlr := ENABLE_GRP1;
      for i := 0 to 32
        invariant forall k | 0 <= k < 32 :: igroupr[k] == if k < i then ONES else old(igroupr[k])
        invariant gicdCtlr == ENABLE_GRP1 && sgir == old(sgir)
      {
        igroupr[i] := ONES;
      }
      giccCtlr := 1;
      giccPmr := 0xff;
      SetupStep(old(Contents()), Implemented());
      assert Contents() == old(Contents()).(group := seq(32, _ => ONES));
    }

    /** Sends a software-generated interrupt: one write, which serves the request. */
    method SendSgi(intid: IntId, target: SgiTarget)
      requires IsSgi(intid)
      modifies this`sgir
      ensures exists v :: sgir == old(sgir) + [v] && Serves(v, intid, target)
    {
      var sgiValue := SgiValue(intid, target);
      ValueServesRequest(intid, target);
      sgir := sgir + [sgiValue];
    }

    // ---------- runs ----------

    /** One configuration call, and whether it reports success. */
    method Perform(call: Call) returns (ok: bool)
      requires Valid() && Accepted(call)
      modifies this, Repr()
      ensures Valid()
      ensures Lines() == Apply(Implemented(), call, old(Lines()))
      ensures ok <==> (call.EnableInterrupt? && call.on ==> call.id in Implemented())
    {
      ok := true;
      match call {
        case EnableInterrupt(id, on) =>
          var r := EnableInterrupt(id, on);
          ok := r.Ok?;
        case EnableAll(on) => EnableAllInterrupts(on);
        case SetPriority(id, priority) => SetInterruptPriority(id, priority);
        case SetTrigger(id, trigger) => SetTrigger(id, trigger);
        case Setup => Setup();
      }
    }

    /** A run of configuration calls: the registers simulate the lines. */
    method RunCalls(calls: seq<Call>)
      requires Valid()
      requires forall i | 0 <= i < |calls| :: Accepted(calls[i])
      modifies this, Repr()
      ensures Valid()
      ensures Lines() == Run(Implemented(), calls, old(Lines()))
    {
      for n := 0 to |calls|
        invariant Valid()
        invariant Lines() == Run(Implemented(), calls[..n], old(Lines()))
      {
        var ok := Perform(calls[n]);
        assert calls[..n + 1][..n] == calls[..n];
      }
      assert calls[..|calls|] == calls;
    }
  }

  // ---------- register changes as line changes ----------

  /** Lines are compared one by one. */
  lemma LineByLine(r: Registers, implemented: set<nat>, call: Call, r': Registers)
    requires r.Shaped() && r'.Shaped()
    requires forall t: nat | t < 1024 :: r'.At(t) == Effect(implemented, call, t, r.At(t))
    ensures r'.Lines() == Apply(implemented, call, r.Lines())
  {
  }

  /** One bit set through the set-enable register, if it is implemented. */
  lemma EnabledOne(r: Registers, implemented: seq<bv32>, id: nat, t: nat)
    requires r.Shaped() && |implemented| == 32 && id < 1024 && t < 1024
    ensures BitOf(Stored(SetOnes, r.enabled, id / 32, Masked(id % 32, implemented[id / 32])), t) ==
            (BitOf(r.enabled, t) || (t == id && BitOf(implemented, t)))
  {
    var v := Masked(id % 32, implemented[id / 32]);
    StoredBits(SetOnes, r.enabled, id / 32, v, t);
    MaskedBits(id % 32, implemented[id / 32], t % 32);
  }

  lemma DisabledOne(r: Registers, id: nat, t: nat)
    requires r.Shaped() && id < 1024 && t < 1024
    ensures BitOf(Stored(ClearOnes, r.enabled, id / 32, Mask(id % 32)), t) == (BitOf(r.enabled, t) && t != id)
  {
    StoredBits(ClearOnes, r.enabled, id / 32, Mask(id % 32), t);
    MaskBits(id % 32, t % 32);
  }

  lemma EnableStep(r: Registers, implemented: seq<bv32>, id: nat)
    requires r.Shaped() && |implemented| == 32 && id < 1024
    requires Ones(r.enabled) <= Ones(implemented)
    ensures var r' := r.(enabled := Stored(SetOnes, r.enabled, id / 32, Masked(id % 32, implemented[id / 32])));
            && r'.Lines() == Apply(Ones(implemented), Call.EnableInterrupt(id, true), r.Lines())
            && Ones(r'.enabled) <= Ones(implemented)
            && (BitOf(r'.enabled, id) <==> BitOf(implemented, id))
  {
    var r' := r.(enabled := Stored(SetOnes, r.enabled, id / 32, Masked(id % 32, implemented[id / 32])));
    forall t: nat | t < 1024
      ensures r'.At(t) == Effect(Ones(implemented), Call.EnableInterrupt(id, true), t, r.At(t))
      ensures BitOf(r'.enabled, t) ==> BitOf(implemented, t)
    {
      EnabledOne(r, implemented, id, t);
      assert t in Ones(r.enabled) <==> BitOf(r.enabled, t);
    }
    EnabledOne(r, implemented, id, id);
    assert id in Ones(r.enabled) <==> BitOf(r.enabled, id);
    LineByLine(r, Ones(implemented), Call.EnableInterrupt(id, true), r');
  }

  lemma DisableStep(r: Registers, implemented: seq<bv32>, id: nat)
    requires r.Shaped() && |implemented| == 32 && id < 1024
    requires Ones(r.enabled) <= Ones(implemented)
    ensures var r' := r.(enabled := Stored(ClearOnes, r.enabled, id / 32, Mask(id % 32)));
            && r'.Lines() == Apply(Ones(implemented), Call.EnableInterrupt(id, false), r.Lines())
            && Ones(r'.enabled) <= Ones(implemented)
  {
    var r' := r.(enabled := Stored(ClearOnes, r.enabled, id / 32, Mask(id % 32)));
    forall t: nat | t < 1024
      ensures r'.At(t) == Effect(Ones(implemented), Call.EnableInterrupt(id, false), t, r.At(t))
      ensures BitOf(r'.enabled, t) ==> BitOf(r.enabled, t)
    {
      DisabledOne(r, id, t);
    }
    LineByLine(r, Ones(implemented), Call.EnableInterrupt(id, false), r');
  }

  /** An enable word after ones are written to its set or clear register. */
  function OnesWritten(enable: bool, w: bv32, implemented: bv32): bv32 {
    if enable then Written(SetOnes, w, implemented & ONES) else Written(ClearOnes, w, ONES)
  }

  lemma OnesWrittenBits(enable: bool, w: bv32, implemented: bv32, k: nat)
    requires k < 32
    ensures Test(OnesWritten(enable, w, implemented), k) == (enable && (Test(w, k) || Test(implemented, k)))
  {
    OnesWrittenWord(w, implemented);
    OrBits(w, implemented, k);
    ConstantBits(k);
  }

  lemma OnesWrittenWord(w: bv32, implemented: bv32)
    ensures OnesWritten(true, w, implemented) == w | implemented
    ensures OnesWritten(false, w, implemented) == 0
  {
  }

  function AllWritten(enable: bool, words: seq<bv32>, implemented: seq<bv32>): (r: seq<bv32>)
    requires |words| == |implemented|
    ensures |r| == |words|
  {
    seq(|words|, k requires 0 <= k < |words| => OnesWritten(enable, words[k], implemented[k]))
  }

  lemma AllWrittenBits(enable: bool, words: seq<bv32>, implemented: seq<bv32>, t: nat)
    requires |words| == |implemented| && t < 32 * |words|
    ensures BitOf(AllWritten(enable, words, implemented), t) ==
            (enable && (BitOf(words, t) || BitOf(implemented, t)))
  {
    OnesWrittenBits(enable, words[t / 32], implemented[t / 32], t % 32);
  }

  lemma EnableAllStep(r: Registers, implemented: seq<bv32>, enable: bool)
    requires r.Shaped() && |implemented| == 32
    requires Ones(r.enabled) <= Ones(implemented)
    ensures var r' := r.(enabled := AllWritten(enable, r.enabled, implemented));
            && r'.Lines() == Apply(Ones(implemented), Call.EnableAll(enable), r.Lines())
            && Ones(r'.enabled) <= Ones(implemented)
  {
    var r' := r.(enabled := AllWritten(enable, r.enabled, implemented));
    forall t: nat | t < 1024
      ensures r'.At(t) == Effect(Ones(implemented), Call.EnableAll(enable), t, r.At(t))
      ensures BitOf(r'.enabled, t) ==> BitOf(implemented, t)
    {
      AllWrittenBits(enable, r.enabled, implemented, t);
      assert t in Ones(r.enabled) <==> BitOf(r.enabled, t);
    }
    LineByLine(r, Ones(implemented), Call.EnableAll(enable), r');
  }

  lemma PriorityStep(r: Registers, implemented: set<nat>, id: nat, priority: bv8)
    requires r.Shaped() && id < 1024
    ensures var r' := r.(priority := r.priority[id / 4 := ByteWord(priority, id % 4)]);
            r'.Lines() == Apply(implemented, Call.SetPriority(id, priority), r.Lines())
  {
    var r' := r.(priority := r.priority[id / 4 := ByteWord(priority, id % 4)]);
    forall t: nat | t < 1024
      ensures r'.At(t) == Effect(implemented, Call.SetPriority(id, priority), t, r.At(t))
    {
      ByteWordLanes(priority, id % 4, t % 4);
    }
    LineByLine(r, implemented, Call.SetPriority(id, priority), r');
  }

  lemma TriggerStep(r: Registers, implemented: set<nat>, id: nat, trigger: Configuration.Trigger)
    requires r.Shaped() && id < 1024
    ensures var r' := r.(config := Banks.Triggered(r.config, id, trigger));
            r'.Lines() == Apply(implemented, Call.SetTrigger(id, trigger), r.Lines())
  {
    var r' := r.(config := Banks.Triggered(r.config, id, trigger));
    forall t: nat | t < 1024
      ensures r'.At(t) == Effect(implemented, Call.SetTrigger(id, trigger), t, r.At(t))
    {
      Banks.TriggeredBits(r.config, id, trigger, t);
    }
    LineByLine(r, implemented, Call.SetTrigger(id, trigger), r');
  }

  lemma SetupStep(r: Registers, implemented: set<nat>)
    requires r.Shaped()
    ensures var r' := r.(group := seq(32, _ => ONES));
            r'.Lines() == Apply(implemented, Call.Setup, r.Lines())
  {
    var r' := r.(group := seq(32, _ => ONES));
    forall t: nat | t < 1024
      ensures r'.At(t) == Effect(implemented, Call.Setup, t, r.At(t))
    {
      ConstantBits(t % 32);
    }
    LineByLine(r, implemented, Call.Setup, r');
  }
}
