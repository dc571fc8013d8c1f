/** Properties of runs of configuration calls. */
module ConfigurationRuns {
  import opened IntIds
  import opened Wrappers
  import opened Configuration
  import opened TypeRegisters

  // ---------- what a call leaves alone ----------

  /** The entries a call may change: those it names, except that disabling one
      interrupt reaches its whole word. */
  predicate Names(n: nat, call: Call, t: Slot)
    requires WellFormed(call)
  {
    match call
    case EnableInterrupt(id, cpu, false) => SameWord(t, Target(id, cpu))
    case EnableAll(_) => Implemented(n, t)
    case Setup(_) => Implemented(n, t) || (32 <= t.id && t.id / 32 * 32 < 32 + n)
    case _ => t == Target(call.id, call.cpu)
  }

  /** A run changes no entry that none of its calls names. */
  lemma {:induction false} UnnamedUnchanged(cpuCount: nat, n: nat, calls: seq<Call>, t: Slot, e: Entry)
    requires AllAccepted(cpuCount, calls)
    requires forall i | 0 <= i < |calls| :: !Names(n, calls[i], t)
    ensures RunEntry(cpuCount, n, calls, t, e) == e
  {
    if calls != [] {
      UnnamedUnchanged(cpuCount, n, calls[..|calls| - 1], t, e);
    }
  }

  /** A private interrupt is out of reach of calls for other cores. */
  lemma OtherCoresUnnamed(n: nat, call: Call, t: Slot)
    requires t.Private? && PerInterrupt(call)
    requires IsPrivate(call.id) ==> call.cpu.value != t.cpu
    ensures !Names(n, call, t)
  {
  }

  // ---------- calls in full ----------

  /** What a call on one interrupt does to the whole map. */
  lemma PerInterruptInFull(n: nat, call: Call, t: Slot, m: Config)
    requires PerInterrupt(call) && t in m
    requires t == if call.id < 32 then Private(call.cpu.value, call.id) else Shared(call.id)
    ensures call.SetPriority? ==> Apply(n, call, m) == m[t := m[t].(priority := call.priority)]
    ensures call.SetTrigger? ==> Apply(n, call, m) == m[t := m[t].(edge := call.trigger == Edge)]
    ensures call.SetGroup? ==>
              Apply(n, call, m) ==
              m[t := m[t].(nonSecure := call.group == Group1NS, modifier := call.group == Secure(Group1S))]
    ensures call.EnableInterrupt? && call.enable ==> Apply(n, call, m) == m[t := m[t].(enabled := true)]
  {
  }

  /** Disabling reaches the other interrupts of the word. */
  lemma DisableInFull(n: nat, id: IntId, cpu: Option<nat>, m: Config)
    requires id < 32 ==> cpu.Some?
    requires forall s | s in m && s.Private? :: s.id < 32
    ensures Apply(n, EnableInterrupt(id, cpu, false), m) ==
            map s | s in m ::
              if (if id < 32 then s.Private? && s.cpu == cpu.value else s.Shared? && s.id / 32 == id / 32)
                then m[s].(enabled := false)
                else m[s]
  {
  }

  /** The interrupts a type register has, in numbers. */
  lemma ImplementedByNumber(typer: bv32, t: Slot)
    ensures Implemented(NumSpis(typer), t) <==>
              t.Private? || (32 <= t.id < 1020 && t.id < 32 + 32 * ((typer & 0x1f) as nat))
  {
  }

  lemma EnableAllInFull(typer: bv32, on: bool, m: Config)
    ensures Apply(NumSpis(typer), EnableAll(on), m) ==
            map s | s in m ::
              if s.Private? || (32 <= s.id < 1020 && s.id < 32 + 32 * ((typer & 0x1f) as nat))
                then m[s].(enabled := on)
                else m[s]
  {
    forall s
      ensures Implemented(NumSpis(typer), s) <==>
                s.Private? || (32 <= s.id < 1020 && s.id < 32 + 32 * ((typer & 0x1f) as nat))
    {
      ImplementedByNumber(typer, s);
    }
  }

  /** Setup sets group bits, and with 31 lines clears those of the special identifiers. */
  lemma SetupInFull(typer: bv32, core: nat, m: Config)
    requires forall s | s in m :: s.id < 1024
    ensures Apply(NumSpis(typer), Setup(core), m) ==
            map s | s in m ::
              if s.Private? || (32 <= s.id < 1020 && s.id < 32 + 32 * ((typer & 0x1f) as nat))
                then m[s].(nonSecure := true)
              else if 1020 <= s.id && typer & 0x1f == 0x1f then m[s].(nonSecure := false)
              else m[s]
  {
    NumSpisShape(typer);
    forall s | s in m
      ensures Implemented(NumSpis(typer), s) <==>
                s.Private? || (32 <= s.id < 1020 && s.id < 32 + 32 * ((typer & 0x1f) as nat))
    {
      ImplementedByNumber(typer, s);
    }
  }

  // ---------- decoded settings ----------

  /** What an interrupt is configured to do. */
  datatype Setting = Setting(enabled: bool, group: Group, trigger: Trigger, priority: bv8)

  function View(e: Entry): Setting {
    Setting(e.enabled, e.Group(), e.Trigger(), e.priority)
  }

  /** A setting, from the bits of an entry. */
  lemma ViewByBits(e: Entry)
    ensures View(e).enabled == e.enabled && View(e).priority == e.priority
    ensures View(e).trigger == Edge <==> e.edge
    ensures View(e).group == Group1NS <==> e.nonSecure
    ensures View(e).group == Secure(Group1S) <==> !e.nonSecure && e.modifier
    ensures View(e).group == Secure(Group0) <==> !e.nonSecure && !e.modifier
  {
  }

  /** Interrupts proper: not the special identifiers 1020 to 1023. */
  predicate IsInterrupt(t: Slot) {
    t.Private? || 32 <= t.id < SPECIAL_START
  }

  /** The calls on decoded settings. */
  function SettingEffect(n: nat, call: Call, t: Slot, s: Setting): Setting
    requires WellFormed(call)
  {
    if !Names(n, call, t) then s
    else match call
      case EnableInterrupt(_, _, on) => s.(enabled := on)
      case EnableAll(on) => s.(enabled := on)
      case SetPriority(_, _, p) => s.(priority := p)
      case SetTrigger(_, _, trigger) => s.(trigger := trigger)
      case SetGroup(_, _, g) => s.(group := g)
      case Setup(_) => s.(group := Group1NS)
  }

  function RunSetting(cpuCount: nat, n: nat, calls: seq<Call>, t: Slot, s: Setting): Setting
    requires AllAccepted(cpuCount, calls)
  {
    if calls == [] then s
    else
      var k := |calls| - 1;
      SettingEffect(n, calls[k], t, RunSetting(cpuCount, n, calls[..k], t, s))
  }

  /** SPI counts as the type register reports them. */
  predicate SpiCountShape(n: nat) {
    n <= MAX_SPI_COUNT && (n < MAX_SPI_COUNT ==> n % 32 == 0)
  }

  lemma TyperHasShape(typer: bv32)
    ensures SpiCountShape(NumSpis(typer))
  {
    NumSpisBound(typer);
    NumSpisShape(typer);
  }

  /** Decoding commutes with every call on every interrupt. */
  lemma DecodedStep(n: nat, call: Call, t: Slot, e: Entry)
    requires WellFormed(call)
    requires IsInterrupt(t) && SpiCountShape(n)
    ensures View(Effect(n, call, t, e)) == SettingEffect(n, call, t, View(e))
  {
    match call
    case Setup(_) =>
      if t.Shared? {
        assert 32 + n <= t.id ==> 32 + n <= t.id / 32 * 32;
      }
    case SetGroup(_, _, g) =>
      GroupReached(e, g);
    case _ =>
  }

  /** Over every run, the register entries simulate the map from interrupts to
      (enabled, group, trigger, priority). */
  lemma {:induction false} DecodedRun(cpuCount: nat, n: nat, calls: seq<Call>, t: Slot, e: Entry)
    requires AllAccepted(cpuCount, calls)
    requires IsInterrupt(t) && SpiCountShape(n)
    ensures View(RunEntry(cpuCount, n, calls, t, e)) == RunSetting(cpuCount, n, calls, t, View(e))
  {
    if calls != [] {
      var k := |calls| - 1;
      DecodedRun(cpuCount, n, calls[..k], t, e);
      DecodedStep(n, calls[k], t, RunEntry(cpuCount, n, calls[..k], t, e));
    }
  }

  /** The same over the whole map. */
  lemma DecodedRunOfMap(cpuCount: nat, n: nat, calls: seq<Call>, m: Config)
    requires AllAccepted(cpuCount, calls) && SpiCountShape(n)
    ensures Run(cpuCount, n, calls, m).Keys == m.Keys
    ensures forall t | t in m && IsInterrupt(t) ::
              View(Run(cpuCount, n, calls, m)[t]) == RunSetting(cpuCount, n, calls, t, View(m[t]))
  {
    RunIsPointwise(cpuCount, n, calls, m);
    forall t | t in m && IsInterrupt(t)
      ensures View(Run(cpuCount, n, calls, m)[t]) == RunSetting(cpuCount, n, calls, t, View(m[t]))
    {
      DecodedRun(cpuCount, n, calls, t, m[t]);
    }
  }

  /** For the special identifiers the decoded settings are not enough: a setup
      that fills the last word takes them to a group that depends on the modifier. */
  lemma SpecialIdsNeedModifier(t: Slot, e: Entry, f: Entry)
    requires t.Shared? && SPECIAL_START <= t.id < SPECIAL_END
    requires e.nonSecure && f == e.(modifier := !e.modifier)
    ensures View(e) == View(f)
    ensures View(SetupEntry(MAX_SPI_COUNT, t, e)) != View(SetupEntry(MAX_SPI_COUNT, t, f))
  {
  }

  // ---------- setup ----------

  /** After a setup every private interrupt and every implemented SPI is in
      non-secure group 1, whatever the registers held. */
  lemma SetupGroups(n: nat, core: nat, m: Config)
    ensures forall t | t in m && Implemented(n, t) :: Apply(n, Setup(core), m)[t].Group() == Group1NS
    ensures forall t | t in m ::
              View(Apply(n, Setup(core), m)[t]) == View(m[t]).(group := Apply(n, Setup(core), m)[t].Group())
  {
  }

  /** A second setup, of any core, changes no interrupt. */
  lemma SetupIdempotent(n: nat, core: nat, again: nat, m: Config)
    ensures Apply(n, Setup(again), Apply(n, Setup(core), m)) == Apply(n, Setup(core), m)
  {
    var once := Apply(n, Setup(core), m);
    forall t | t in m
      ensures SetupEntry(n, t, once[t]) == once[t]
    {
    }
  }

  // ---------- setup against setting groups one by one ----------

  /** The calls move implemented interrupts to non-secure group 1, and miss none. */
  predicate GroupsAll(cpuCount: nat, n: nat, calls: seq<Call>) {
    && AllAccepted(cpuCount, calls)
    && (forall i | 0 <= i < |calls| ::
          && calls[i].SetGroup? && calls[i].group == Group1NS
          && Implemented(n, Target(calls[i].id, calls[i].cpu)))
    && (forall t | t in Slots(cpuCount) && Implemented(n, t) ::
          exists i :: 0 <= i < |calls| && Target(calls[i].id, calls[i].cpu) == t)
  }

  /** Every order of enables is an order of moves between groups. */
  lemma EnableOrderIsGroupOrder(cpuCount: nat, n: nat, calls: seq<Call>, enable: bool)
    requires EnablesAll(cpuCount, n, calls, enable)
    ensures GroupsAll(
              cpuCount, n,
              seq(|calls|, i requires 0 <= i < |calls| => SetGroup(calls[i].id, calls[i].cpu, Group1NS)))
  {
    var groups := seq(|calls|, i requires 0 <= i < |calls| => SetGroup(calls[i].id, calls[i].cpu, Group1NS));
    forall t | t in Slots(cpuCount) && Implemented(n, t)
      ensures exists i :: 0 <= i < |groups| && Target(groups[i].id, groups[i].cpu) == t
    {
      var i := CallFor(cpuCount, n, calls, enable, t);
      assert Target(groups[i].id, groups[i].cpu) == t;
    }
  }

  /** What a sequence of moves to non-secure group 1 does to one entry. */
  lemma {:induction false} SingleGroups(cpuCount: nat, n: nat, calls: seq<Call>, t: Slot, e: Entry)
    requires AllAccepted(cpuCount, calls)
    requires forall i | 0 <= i < |calls| :: calls[i].SetGroup? && calls[i].group == Group1NS
    ensures RunEntry(cpuCount, n, calls, t, e) ==
            if exists i :: 0 <= i < |calls| && Names(n, calls[i], t) then GroupBits(e, Group1NS) else e
  {
    if calls != [] {
      var k := |calls| - 1;
      SingleGroups(cpuCount, n, calls[..k], t, e);
      if i :| 0 <= i < k && Names(n, calls[..k][i], t) {
        assert Names(n, calls[i], t);
      }
      assert forall i | 0 <= i < k :: calls[..k][i] == calls[i];
    }
  }

  /** The whole effect of such a run: both group bits of every implemented interrupt. */
  lemma GroupsAllEntry(cpuCount: nat, n: nat, calls: seq<Call>, t: Slot, e: Entry)
    requires GroupsAll(cpuCount, n, calls) && IsSlot(cpuCount, t)
    ensures RunEntry(cpuCount, n, calls, t, e) == if Implemented(n, t) then GroupBits(e, Group1NS) else e
  {
    SingleGroups(cpuCount, n, calls, t, e);
    if Implemented(n, t) {
      assert t in Slots(cpuCount);
      var i :| 0 <= i < |calls| && Target(calls[i].id, calls[i].cpu) == t;
      assert Names(n, calls[i], t);
    }
  }

  /** A setup puts interrupts where moving every implemented interrupt to
      non-secure group 1 puts them, one by one, in any order and with any
      repetitions: decoded, the two agree on every interrupt. */
  lemma SetupIsEveryGroup(cpuCount: nat, n: nat, calls: seq<Call>, core: nat, m: Config)
    requires m.Keys == Slots(cpuCount) && GroupsAll(cpuCount, n, calls) && SpiCountShape(n)
    ensures Run(cpuCount, n, calls, m).Keys == Apply(n, Setup(core), m).Keys == m.Keys
    ensures forall t | t in m && IsInterrupt(t) ::
              View(Run(cpuCount, n, calls, m)[t]) == View(Apply(n, Setup(core), m)[t])
  {
    RunIsPointwise(cpuCount, n, calls, m);
    forall t | t in m && IsInterrupt(t)
      ensures View(Run(cpuCount, n, calls, m)[t]) == View(Apply(n, Setup(core), m)[t])
    {
      SetupIsEveryGroupAt(cpuCount, n, calls, core, t, m[t]);
    }
  }

  lemma SetupIsEveryGroupAt(cpuCount: nat, n: nat, calls: seq<Call>, core: nat, t: Slot, e: Entry)
    requires IsSlot(cpuCount, t) && IsInterrupt(t) && GroupsAll(cpuCount, n, calls) && SpiCountShape(n)
    ensures View(RunEntry(cpuCount, n, calls, t, e)) == View(Effect(n, Setup(core), t, e))
  {
    GroupsAllEntry(cpuCount, n, calls, t, e);
    GroupReached(e, Group1NS);
    DecodedStep(n, Setup(core), t, e);
    if !Implemented(n, t) {
      UnimplementedUnnamed(n, core, t);
    }
  }

  /** Below the special identifiers, setup names implemented interrupts only. */
  lemma UnimplementedUnnamed(n: nat, core: nat, t: Slot)
    requires IsInterrupt(t) && SpiCountShape(n) && !Implemented(n, t)
    ensures !Names(n, Setup(core), t)
  {
  }

  /** The registers behind them may differ, since setup leaves the modifier bits as
      they are.  They are equal exactly where no modifier bit is stale, and at the
      special identifiers where there is no group bit to clear. */
  lemma SetupLeavesModifier(cpuCount: nat, n: nat, calls: seq<Call>, core: nat, t: Slot, e: Entry)
    requires GroupsAll(cpuCount, n, calls) && SpiCountShape(n) && IsSlot(cpuCount, t)
    ensures RunEntry(cpuCount, n, calls, t, e) == Effect(n, Setup(core), t, e) <==>
            if Implemented(n, t) then !e.modifier
            else !(n == MAX_SPI_COUNT && SPECIAL_START <= t.id && e.nonSecure)
  {
    GroupsAllEntry(cpuCount, n, calls, t, e);
    if !Implemented(n, t) && IsInterrupt(t) {
      UnimplementedUnnamed(n, core, t);
      UnnamedStep(n, Setup(core), t, e);
    }
  }

  // ---------- disabling one interrupt ----------

  /** Disabling an interrupt does only that, as documented, exactly when no other
      interrupt of its word is enabled. */
  lemma DisableAsDocumented(n: nat, id: IntId, cpu: Option<nat>, m: Config)
    requires IsPrivate(id) ==> cpu.Some?
    requires Target(id, cpu) in m
    ensures var t := Target(id, cpu);
            Apply(n, EnableInterrupt(id, cpu, false), m) == m[t := m[t].(enabled := false)] <==>
            forall s | s in m && s != t && SameWord(s, t) :: !m[s].enabled
  {
    var t := Target(id, cpu);
    var done := Apply(n, EnableInterrupt(id, cpu, false), m);
    var documented := m[t := m[t].(enabled := false)];
    forall s | s in m
      ensures done[s] == documented[s] <==> s == t || !SameWord(s, t) || !m[s].enabled
    {
      SameWordSelf(t);
    }
    if done == documented {
      forall s | s in m && s != t && SameWord(s, t)
        ensures !m[s].enabled
      {
        assert done[s] == documented[s];
      }
    }
  }

  /** The documented effect fails: enabling 40 and 41 and disabling 40 disables 41. */
  lemma DisableExample(cpuCount: nat, n: nat, e: Entry)
    ensures var calls := [EnableInterrupt(40, None, true), EnableInterrupt(41, None, true),
                          EnableInterrupt(40, None, false)];
            && AllAccepted(cpuCount, calls)
            && RunEntry(cpuCount, n, calls[..2], Shared(41), e).enabled
            && !RunEntry(cpuCount, n, calls, Shared(41), e).enabled
  {
  }

  lemma SameWordSelf(t: Slot)
    ensures SameWord(t, t)
  {
  }

  // ---------- bulk enabling against enabling one by one ----------

  /** The calls are enables, of implemented interrupts, and miss none. */
  predicate EnablesAll(cpuCount: nat, n: nat, calls: seq<Call>, enable: bool) {
    && AllAccepted(cpuCount, calls)
    && (forall i | 0 <= i < |calls| ::
          && calls[i].EnableInterrupt? && calls[i].enable == enable
          && Implemented(n, Target(calls[i].id, calls[i].cpu)))
    && (forall t | t in Slots(cpuCount) && Implemented(n, t) ::
          exists i :: 0 <= i < |calls| && Target(calls[i].id, calls[i].cpu) == t)
  }

  /** What a sequence of single enables or disables does to one entry. */
  lemma {:induction false} SingleCalls(cpuCount: nat, n: nat, calls: seq<Call>, enable: bool, t: Slot, e: Entry)
    requires AllAccepted(cpuCount, calls)
    requires forall i | 0 <= i < |calls| :: calls[i].EnableInterrupt? && calls[i].enable == enable
    ensures RunEntry(cpuCount, n, calls, t, e) ==
            if exists i :: 0 <= i < |calls| && Names(n, calls[i], t) then e.(enabled := enable) else e
  {
    if calls != [] {
      var k := |calls| - 1;
      SingleCalls(cpuCount, n, calls[..k], enable, t, e);
      if i :| 0 <= i < k && Names(n, calls[..k][i], t) {
        assert Names(n, calls[i], t);
      }
      assert forall i | 0 <= i < k :: calls[..k][i] == calls[i];
    }
  }

  /** Enabling everything at once is enabling every implemented interrupt one by
      one, in any order and with any repetitions. */
  lemma EnableAllIsEveryEnable(cpuCount: nat, n: nat, calls: seq<Call>, m: Config)
    requires m.Keys == Slots(cpuCount) && EnablesAll(cpuCount, n, calls, true)
    ensures Run(cpuCount, n, calls, m) == Apply(n, EnableAll(true), m)
  {
    RunIsPointwise(cpuCount, n, calls, m);
    forall t | t in m
      ensures RunEntry(cpuCount, n, calls, t, m[t]) == Effect(n, EnableAll(true), t, m[t])
    {
      SingleCalls(cpuCount, n, calls, true, t, m[t]);
      if Implemented(n, t) {
        var i :| 0 <= i < |calls| && Target(calls[i].id, calls[i].cpu) == t;
        assert Names(n, calls[i], t);
      }
    }
  }

  /** Disabling one by one agrees with disabling everything at once on every
      interrupt; the two differ exactly at an enabled special identifier that
      shares a word with an implemented SPI. */
  lemma DisableAllAgainstEveryDisable(cpuCount: nat, n: nat, calls: seq<Call>, t: Slot, e: Entry)
    requires EnablesAll(cpuCount, n, calls, false) && SpiCountShape(n) && IsSlot(cpuCount, t)
    ensures RunEntry(cpuCount, n, calls, t, e) == Effect(n, EnableAll(false), t, e) <==>
              !(n == MAX_SPI_COUNT && t.Shared? && SPECIAL_START <= t.id && e.enabled)
  {
    SingleCalls(cpuCount, n, calls, false, t, e);
    if Implemented(n, t) {
      var i := CallFor(cpuCount, n, calls, false, t);
      assert Names(n, calls[i], t);
    } else if n == MAX_SPI_COUNT && SPECIAL_START <= t.id {
      var i := CallFor(cpuCount, n, calls, false, Shared(1000));
      assert Names(n, calls[i], t);
    } else {
      forall i | 0 <= i < |calls|
        ensures !Names(n, calls[i], t)
      {
        OtherWord(n, Target(calls[i].id, calls[i].cpu), t);
      }
    }
  }

  /** Every private interrupt of every core, then the first n SPIs. */
  function EveryInterrupt(cpuCount: nat, n: nat, enable: bool): (calls: seq<Call>)
    requires n <= MAX_SPI_COUNT
    ensures |calls| == 32 * cpuCount + n
  {
    seq(32 * cpuCount, i requires 0 <= i < 32 * cpuCount => EnableInterrupt(i % 32, Some(i / 32), enable))
    + seq(n, i requires 0 <= i < n => EnableInterrupt(32 + i, None, enable))
  }

  /** The plain enumeration is one of the orders that miss nothing. */
  lemma EveryInterruptEnablesAll(cpuCount: nat, n: nat, enable: bool)
    requires n <= MAX_SPI_COUNT
    ensures EnablesAll(cpuCount, n, EveryInterrupt(cpuCount, n, enable), enable)
  {
    var calls := EveryInterrupt(cpuCount, n, enable);
    forall t | t in Slots(cpuCount) && Implemented(n, t)
      ensures exists i :: 0 <= i < |calls| && Target(calls[i].id, calls[i].cpu) == t
    {
      var i := match t
        case Private(cpu, id) => 32 * cpu + id
        case Shared(id) => 32 * cpuCount + id - 32;
      assert Target(calls[i].id, calls[i].cpu) == t;
    }
  }

  lemma CallFor(cpuCount: nat, n: nat, calls: seq<Call>, enable: bool, t: Slot) returns (i: nat)
    requires EnablesAll(cpuCount, n, calls, enable) && IsSlot(cpuCount, t) && Implemented(n, t)
    ensures i < |calls| && Target(calls[i].id, calls[i].cpu) == t
  {
    assert t in Slots(cpuCount);
    i :| 0 <= i < |calls| && Target(calls[i].id, calls[i].cpu) == t;
  }

  /** Away from the cap, an unimplemented identifier shares no word with an implemented one. */
  lemma OtherWord(n: nat, s: Slot, t: Slot)
    requires SpiCountShape(n) && Implemented(n, s) && !Implemented(n, t)
    requires n == MAX_SPI_COUNT ==> t.id < SPECIAL_START
    ensures !SameWord(t, s)
  {
  }

  // ---------- moving between groups ----------

  /** A group change ends in the requested group and keeps the rest of the entry. */
  lemma GroupReached(e: Entry, g: Group)
    ensures GroupBits(e, g).Group() == g
    ensures View(GroupBits(e, g)) == View(e).(group := g)
    ensures g == Group1NS ==> GroupHalf(e, g).Group() == Group1NS
  {
    match g
    case Group1NS =>
    case Secure(Group1S) =>
    case Secure(Group0) =>
  }

  /** Between its writes an interrupt is in a third group, neither the old nor the
      new, in two cases only: from a plain group 1 non-secure to group 1 secure it
      passes through group 0, and from both bits set to group 0 it passes through
      group 1 secure. */
  lemma ThirdGroupExactly(e: Entry, g: Group)
    ensures GroupHalf(e, g).Group() != e.Group() && GroupHalf(e, g).Group() != g <==>
              || (e.nonSecure && !e.modifier && g == Secure(Group1S))
              || (e.nonSecure && e.modifier && g == Secure(Group0))
    ensures GroupHalf(e, g).Group() in {e.Group(), g, Secure(Group0)} <==>
              !(e.nonSecure && e.modifier && g == Secure(Group0))
  {
    match g
    case Group1NS =>
    case Secure(Group1S) =>
    case Secure(Group0) =>
  }

  // ---------- the last call decides ----------

  /** The fields of an entry that a call decides, one by one. */
  lemma FieldStep(n: nat, call: Call, t: Slot, e: Entry)
    requires WellFormed(call)
    ensures Effect(n, call, t, e).priority ==
            if call.SetPriority? && Names(n, call, t) then call.priority else e.priority
    ensures Effect(n, call, t, e).edge ==
            if call.SetTrigger? && Names(n, call, t) then call.trigger.Edge? else e.edge
    ensures Effect(n, call, t, e).enabled ==
            if (call.EnableInterrupt? || call.EnableAll?) && Names(n, call, t) then call.enable else e.enabled
    ensures Effect(n, call, t, e).low == e.low
  {
  }

  /** An interrupt is enabled as the last call that names it left it; a disable
      names its whole word. */
  lemma {:induction false} LastEnable(cpuCount: nat, n: nat, calls: seq<Call>, t: Slot, e: Entry, i: nat)
    requires AllAccepted(cpuCount, calls) && i < |calls|
    requires (calls[i].EnableInterrupt? || calls[i].EnableAll?) && Names(n, calls[i], t)
    requires forall j | i < j < |calls| ::
               !((calls[j].EnableInterrupt? || calls[j].EnableAll?) && Names(n, calls[j], t))
    ensures RunEntry(cpuCount, n, calls, t, e).enabled == calls[i].enable
  {
    var k := |calls| - 1;
    FieldStep(n, calls[k], t, RunEntry(cpuCount, n, calls[..k], t, e));
    if i < k {
      LastEnable(cpuCount, n, calls[..k], t, e, i);
    }
  }

  /** An interrupt is in the group that the last call on its group gave it. */
  lemma {:induction false} LastGroup(cpuCount: nat, n: nat, calls: seq<Call>, t: Slot, e: Entry, i: nat)
    requires AllAccepted(cpuCount, calls) && i < |calls| && IsInterrupt(t) && SpiCountShape(n)
    requires (calls[i].SetGroup? || calls[i].Setup?) && Names(n, calls[i], t)
    requires forall j | i < j < |calls| :: !((calls[j].SetGroup? || calls[j].Setup?) && Names(n, calls[j], t))
    ensures RunEntry(cpuCount, n, calls, t, e).Group() == if calls[i].SetGroup? then calls[i].group else Group1NS
  {
    var k := |calls| - 1;
    DecodedStep(n, calls[k], t, RunEntry(cpuCount, n, calls[..k], t, e));
    if i < k {
      LastGroup(cpuCount, n, calls[..k], t, e, i);
    }
  }

  /** A priority reads back as last set. */
  lemma {:induction false} LastPriority(cpuCount: nat, n: nat, calls: seq<Call>, t: Slot, e: Entry, i: nat)
    requires AllAccepted(cpuCount, calls) && i < |calls|
    requires calls[i].SetPriority? && Names(n, calls[i], t)
    requires forall j | i < j < |calls| :: !(calls[j].SetPriority? && Names(n, calls[j], t))
    ensures RunEntry(cpuCount, n, calls, t, e).priority == calls[i].priority
  {
    var k := |calls| - 1;
    FieldStep(n, calls[k], t, RunEntry(cpuCount, n, calls[..k], t, e));
    if i < k {
      LastPriority(cpuCount, n, calls[..k], t, e, i);
    }
  }

  /** A trigger reads back as last set. */
  lemma {:induction false} LastTrigger(cpuCount: nat, n: nat, calls: seq<Call>, t: Slot, e: Entry, i: nat)
    requires AllAccepted(cpuCount, calls) && i < |calls|
    requires calls[i].SetTrigger? && Names(n, calls[i], t)
    requires forall j | i < j < |calls| :: !(calls[j].SetTrigger? && Names(n, calls[j], t))
    ensures RunEntry(cpuCount, n, calls, t, e).Trigger() == calls[i].trigger
  {
    var k := |calls| - 1;
    FieldStep(n, calls[k], t, RunEntry(cpuCount, n, calls[..k], t, e));
    if i < k {
      LastTrigger(cpuCount, n, calls[..k], t, e, i);
    }
  }

  /** No call changes the low configuration bit of any interrupt. */
  lemma {:induction false} LowBitNeverChanges(cpuCount: nat, n: nat, calls: seq<Call>, t: Slot, e: Entry)
    requires AllAccepted(cpuCount, calls)
    ensures RunEntry(cpuCount, n, calls, t, e).low == e.low
  {
    if calls != [] {
      var k := |calls| - 1;
      FieldStep(n, calls[k], t, RunEntry(cpuCount, n, calls[..k], t, e));
      LowBitNeverChanges(cpuCount, n, calls[..k], t, e);
    }
  }

  /** One call enables and the other disables, in the same word. */
  predicate Clash(a: Call, b: Call)
    requires PerInterrupt(a)
    requires PerInterrupt(b)
  {
    && a.EnableInterrupt? && b.EnableInterrupt? && a.enable != b.enable
    && SameWord(Target(a.id, a.cpu), Target(b.id, b.cpu))
  }

  lemma UnnamedStep(n: nat, call: Call, t: Slot, e: Entry)
    requires WellFormed(call)
    requires !Names(n, call, t)
    ensures Effect(n, call, t, e) == e
  {
  }

  lemma EffectsCommute(n: nat, a: Call, b: Call, t: Slot, e: Entry)
    requires PerInterrupt(a)
    requires PerInterrupt(b)
    requires Target(a.id, a.cpu) != Target(b.id, b.cpu) && !Clash(a, b)
    ensures Effect(n, a, t, Effect(n, b, t, e)) == Effect(n, b, t, Effect(n, a, t, e))
  {
    if !Names(n, a, t) {
      UnnamedStep(n, a, t, e);
      UnnamedStep(n, a, t, Effect(n, b, t, e));
    } else if !Names(n, b, t) {
      UnnamedStep(n, b, t, e);
      UnnamedStep(n, b, t, Effect(n, a, t, e));
    } else if a.EnableInterrupt? && !a.enable {
      DisableCommutes(n, a, b, t, e);
    } else {
      DisableCommutes(n, b, a, t, e);
    }
  }

  lemma DisableCommutes(n: nat, a: Call, b: Call, t: Slot, e: Entry)
    requires a.EnableInterrupt? && !a.enable && WellFormed(a)
    requires PerInterrupt(b)
    requires Names(n, a, t) && Names(n, b, t) && !(b.EnableInterrupt? && b.enable)
    ensures Effect(n, a, t, Effect(n, b, t, e)) == Effect(n, b, t, Effect(n, a, t, e))
  {
  }

  lemma EffectsClash(n: nat, a: Call, b: Call, e: Entry)
    requires a.EnableInterrupt? && WellFormed(a)
    requires b.EnableInterrupt? && WellFormed(b)
    requires Target(a.id, a.cpu) != Target(b.id, b.cpu) && Clash(a, b) && a.enable
    ensures Effect(n, a, Target(a.id, a.cpu), Effect(n, b, Target(a.id, a.cpu), e)).enabled
    ensures !Effect(n, b, Target(a.id, a.cpu), Effect(n, a, Target(a.id, a.cpu), e)).enabled
  {
  }

  lemma Composed(n: nat, a: Call, b: Call, m: Config, t: Slot)
    requires WellFormed(a)
    requires WellFormed(b)
    requires t in m
    ensures Apply(n, a, Apply(n, b, m)).Keys == m.Keys
    ensures Apply(n, a, Apply(n, b, m))[t] == Effect(n, a, t, Effect(n, b, t, m[t]))
  {
  }

  lemma ClashingCallsDiffer(n: nat, a: Call, b: Call, m: Config)
    requires a.EnableInterrupt? && WellFormed(a)
    requires b.EnableInterrupt? && WellFormed(b)
    requires Target(a.id, a.cpu) != Target(b.id, b.cpu) && Clash(a, b) && a.enable
    requires Target(a.id, a.cpu) in m
    ensures Apply(n, a, Apply(n, b, m)) != Apply(n, b, Apply(n, a, m))
  {
    var t := Target(a.id, a.cpu);
    EffectsClash(n, a, b, m[t]);
    Composed(n, a, b, m, t);
    Composed(n, b, a, m, t);
  }

  lemma PointwiseCommute(n: nat, a: Call, b: Call, m: Config)
    requires WellFormed(a)
    requires WellFormed(b)
    requires forall t | t in m :: Effect(n, a, t, Effect(n, b, t, m[t])) == Effect(n, b, t, Effect(n, a, t, m[t]))
    ensures Apply(n, a, Apply(n, b, m)) == Apply(n, b, Apply(n, a, m))
  {
    forall t | t in m
      ensures Apply(n, a, Apply(n, b, m))[t] == Apply(n, b, Apply(n, a, m))[t]
    {
      Composed(n, a, b, m, t);
      Composed(n, b, a, m, t);
    }
  }

  /** Two calls that name different interrupts commute, unless one is an enable
      and the other a disable that clears its word. */
  lemma DistinctCallsCommute(n: nat, a: Call, b: Call, m: Config)
    requires PerInterrupt(a)
    requires PerInterrupt(b)
    requires Target(a.id, a.cpu) != Target(b.id, b.cpu)
    requires Target(a.id, a.cpu) in m && Target(b.id, b.cpu) in m
    ensures Apply(n, a, Apply(n, b, m)) == Apply(n, b, Apply(n, a, m)) <==> !Clash(a, b)
  {
    if Clash(a, b) {
      if a.enable {
        ClashingCallsDiffer(n, a, b, m);
      } else {
        ClashingCallsDiffer(n, b, a, m);
      }
    } else {
      forall t | t in m
        ensures Effect(n, a, t, Effect(n, b, t, m[t])) == Effect(n, b, t, Effect(n, a, t, m[t]))
      {
        EffectsCommute(n, a, b, t, m[t]);
      }
      PointwiseCommute(n, a, b, m);
    }
  }
}
