/** One bank of interrupt configuration registers: the distributor's, or the SGI
    and PPI frame of one redistributor. */
module Banks {
  import opened Bits
  import opened Configuration
  import opened RegisterBank

  /** The contents of a bank. */
  datatype Regs = Regs(
    group: seq<bv32>, modifier: seq<bv32>, enabled: seq<bv32>, config: seq<bv32>, priority: seq<bv8>)
  {
    ghost predicate Shaped(words: nat) {
      && |group| == |modifier| == |enabled| == words
      && |config| >= 2 * words
      && |priority| == 32 * words
    }

    ghost function At(id: nat): Entry
      requires Shaped(|group|) && id < 32 * |group|
    {
      Entry(
        BitOf(enabled, id), BitOf(group, id), BitOf(modifier, id),
        ConfigBit(config, id, 0), ConfigBit(config, id, 1),
        priority[id])
    }
  }

  /** Bit 0 or 1 of the two-bit configuration lane of an interrupt. */
  predicate ConfigBit(config: seq<bv32>, id: nat, k: nat)
    requires id < 16 * |config| && k < 2
  {
    Test(config[id / 16], id % 16 * 2 + k)
  }

  /** Where the architecture has each bit of an entry. */
  lemma EntryBits(r: Regs, id: nat)
    requires r.Shaped(|r.group|) && id < 32 * |r.group|
    ensures r.At(id).enabled <==> Test(r.enabled[id / 32], id % 32)
    ensures r.At(id).nonSecure <==> Test(r.group[id / 32], id % 32)
    ensures r.At(id).modifier <==> Test(r.modifier[id / 32], id % 32)
    ensures r.At(id).low <==> Test(r.config[id / 16], 2 * (id % 16))
    ensures r.At(id).edge <==> Test(r.config[id / 16], 2 * (id % 16) + 1)
    ensures r.At(id).priority == r.priority[id]
  {
  }

  /** The configuration words after a trigger is set. */
  function Triggered(config: seq<bv32>, id: nat, trigger: Trigger): seq<bv32>
    requires id < 16 * |config|
  {
    config[id / 16 := Put(config[id / 16], id % 16 * 2 + 1, trigger.Edge?)]
  }

  /** Setting a trigger changes the high bit of one lane, and no low bit. */
  lemma TriggeredBits(config: seq<bv32>, id: nat, trigger: Trigger, t: nat)
    requires id < 16 * |config| && t < 16 * |config|
    ensures ConfigBit(Triggered(config, id, trigger), t, 0) == ConfigBit(config, t, 0)
    ensures ConfigBit(Triggered(config, id, trigger), t, 1) ==
            if t == id then trigger.Edge? else ConfigBit(config, t, 1)
  {
    PutBits(config[id / 16], id % 16 * 2 + 1, trigger.Edge?);
  }

  class Bank {
    const words: nat
    const igroupr: array<bv32>
    const igrpmodr: array<bv32>
    const enabled: array<bv32>
    const icfgr: array<bv32>
    const ipriorityr: array<bv8>
    /** The five arrays. */
    ghost const Repr: set<object>

    /** A bank of 32 * n interrupts, out of reset. */
    constructor (n: nat, configWords: nat)
      requires configWords >= 2 * n
      ensures words == n && Valid()
      ensures fresh(Repr)
    {
      words := n;
      var groups := new bv32[n](_ => 0);
      var modifiers := new bv32[n](_ => 0);
      var enables := new bv32[n](_ => 0);
      var configs := new bv32[configWords](_ => 0);
      var priorities := new bv8[32 * n](_ => 0);
      igroupr, igrpmodr, enabled, icfgr, ipriorityr := groups, modifiers, enables, configs, priorities;
      Repr := {groups, modifiers, enables, configs, priorities};
    }

    ghost predicate Valid() {
      && Repr == {igroupr, igrpmodr, enabled, icfgr, ipriorityr}
      && igroupr.Length == igrpmodr.Length == enabled.Length == words
      && icfgr.Length >= 2 * words
      && ipriorityr.Length == 32 * words
      && igroupr != igrpmodr && igroupr != enabled && igroupr != icfgr
      && igrpmodr != enabled && igrpmodr != icfgr && enabled != icfgr
    }

    /** Everything the bank holds. */
    ghost function Contents(): (r: Regs)
      requires Valid()
      reads Repr
      ensures r.Shaped(words)
    {
      Regs(igroupr[..], igrpmodr[..], enabled[..], icfgr[..], ipriorityr[..])
    }

    function Isenabler(): Port {
      Port(enabled, SetOnes)
    }

    function Icenabler(): Port {
      Port(enabled, ClearOnes)
    }

    function Igroupr(): Port {
      Port(igroupr, Store)
    }

    function Igrpmodr(): Port {
      Port(igrpmodr, Store)
    }

    method Enable(id: nat)
      requires Valid() && id < 32 * words
      modifies Repr
      ensures Contents() == old(Contents()).(enabled := Modified(SetOnes, old(enabled[..]), id, true))
      ensures forall t | 0 <= t < 32 * words ::
                Contents().At(t) == if t == id then old(Contents()).At(t).(enabled := true) else old(Contents()).At(t)
    {
      SetBit(Isenabler(), id);
      forall t | 0 <= t < 32 * words
        ensures Contents().At(t) == if t == id then old(Contents()).At(t).(enabled := true) else old(Contents()).At(t)
      {
        ModifiedBits(SetOnes, old(enabled[..]), id, true, t);
      }
    }

    /** The read-modify-write on the clear-enable register clears the whole word. */
    method Disable(id: nat)
      requires Valid() && id < 32 * words
      modifies Repr
      ensures Contents() == old(Contents()).(enabled := Modified(ClearOnes, old(enabled[..]), id, true))
      ensures forall t | 0 <= t < 32 * words ::
                Contents().At(t) ==
                if t / 32 == id / 32 then old(Contents()).At(t).(enabled := false) else old(Contents()).At(t)
    {
      SetBit(Icenabler(), id);
      forall t | 0 <= t < 32 * words
        ensures Contents().At(t) ==
                if t / 32 == id / 32 then old(Contents()).At(t).(enabled := false) else old(Contents()).At(t)
      {
        ModifiedClearsWord(old(enabled[..]), id, t);
      }
    }

    method SetPriority(id: nat, priority: bv8)
      requires Valid() && id < 32 * words
      modifies Repr
      ensures Contents() == old(Contents()).(priority := old(ipriorityr[..])[id := priority])
      ensures forall t | 0 <= t < 32 * words ::
                Contents().At(t) ==
                if t == id then old(Contents()).At(t).(priority := priority) else old(Contents()).At(t)
    {
      ipriorityr[id] := priority;
    }

    method SetTrigger(id: nat, trigger: Trigger)
      requires Valid() && id < 32 * words
      modifies Repr
      ensures Contents() == old(Contents()).(config := Triggered(old(icfgr[..]), id, trigger))
      ensures forall t | 0 <= t < 32 * words ::
                Contents().At(t) ==
                if t == id then old(Contents()).At(t).(edge := trigger.Edge?) else old(Contents()).At(t)
    {
      var index := id / 16;
      var v := icfgr[index];
      icfgr[index] := match trigger
        case Edge => Put(v, id % 16 * 2 + 1, true)
        case Level => Put(v, id % 16 * 2 + 1, false);
      forall t | 0 <= t < 32 * words
        ensures Contents().At(t) ==
                if t == id then old(Contents()).At(t).(edge := trigger.Edge?) else old(Contents()).At(t)
      {
        TriggeredBits(old(icfgr[..]), id, trigger, t);
      }
    }

    /** Two register writes: the group bit, then the modifier bit.  The
        contents between them are returned as half. */
    method SetGroup(id: nat, group: Group) returns (ghost half: Regs)
      requires Valid() && id < 32 * words
      modifies Repr
      ensures half == old(Contents()).(group := Modified(Store, old(igroupr[..]), id, group.Group1NS?))
      ensures Contents() == half.(modifier := Modified(Store, old(igrpmodr[..]), id, group == Secure(Group1S)))
      ensures forall t | 0 <= t < 32 * words ::
                half.At(t) ==
                if t == id then GroupHalf(old(Contents()).At(t), group) else old(Contents()).At(t)
      ensures forall t | 0 <= t < 32 * words ::
                Contents().At(t) == if t == id then GroupBits(old(Contents()).At(t), group) else old(Contents()).At(t)
    {
      if group.Secure? {
        ClearBit(Igroupr(), id);
        half := Contents();
        match group.secure {
          case Group1S => SetBit(Igrpmodr(), id);
          case Group0 => ClearBit(Igrpmodr(), id);
        }
      } else {
        SetBit(Igroupr(), id);
        half := Contents();
        ClearBit(Igrpmodr(), id);
      }
      GroupWrites(old(Contents()), id, group);
    }

    /** Writes ones for the interrupts 32 to maxReg - 1 to the set-enable or
        clear-enable registers. */
    method EnableSpis(maxReg: nat, enable: bool)
      requires Valid() && 32 <= maxReg <= 32 * words
      modifies Repr
      ensures Contents() == old(Contents()).(
                enabled := Strided(if enable then SetOnes else ClearOnes, old(enabled[..]), maxReg))
      ensures forall t | 0 <= t < 32 * words ::
                Contents().At(t) ==
                if 32 <= t < maxReg then old(Contents()).At(t).(enabled := enable) else old(Contents()).At(t)
    {
      var port := if enable then Isenabler() else Icenabler();
      WriteSpiMasks(port, maxReg);
      forall t | 0 <= t < 32 * words
        ensures Contents().At(t) ==
                if 32 <= t < maxReg then old(Contents()).At(t).(enabled := enable) else old(Contents()).At(t)
      {
        StridedBits(port.kind, old(enabled[..]), maxReg, t);
      }
    }

    /** Writes ones for the interrupts 32 to maxReg - 1 to the group registers. */
    method GroupSpis(maxReg: nat)
      requires Valid() && 32 <= maxReg <= 32 * words
      modifies Repr
      ensures Contents() == old(Contents()).(group := Strided(Store, old(igroupr[..]), maxReg))
      ensures forall t | 0 <= t < 32 * words ::
                Contents().At(t) ==
                old(Contents()).At(t).(nonSecure := StridedGroup(maxReg, t, old(Contents()).At(t).nonSecure))
    {
      WriteSpiMasks(Igroupr(), maxReg);
      forall t | 0 <= t < 32 * words
        ensures Contents().At(t) ==
                old(Contents()).At(t).(nonSecure := StridedGroup(maxReg, t, old(Contents()).At(t).nonSecure))
      {
        StridedBits(Store, old(igroupr[..]), maxReg, t);
      }
    }

    /** Writes ones to the first set-enable or clear-enable register. */
    method EnablePrivate(enable: bool)
      requires Valid() && words >= 1
      modifies Repr
      ensures Contents() == EnabledFirst(old(Contents()), enable)
    {
      AllOnes(enabled[0]);
      WriteWord(if enable then Isenabler() else Icenabler(), 0, ONES);
    }

    /** Writes ones to the first group register. */
    method GroupPrivate()
      requires Valid() && words >= 1
      modifies Repr
      ensures Contents() == GroupedFirst(old(Contents()))
    {
      WriteWord(Igroupr(), 0, ONES);
    }
  }

  /** The entries after the first and after both writes of a group change. */
  lemma GroupWrites(r: Regs, id: nat, group: Group)
    requires r.Shaped(|r.group|) && id < 32 * |r.group|
    ensures var half := r.(group := Modified(Store, r.group, id, group.Group1NS?));
            var full := half.(modifier := Modified(Store, r.modifier, id, group == Secure(Group1S)));
            forall t | 0 <= t < 32 * |r.group| ::
              && half.At(t) == (if t == id then GroupHalf(r.At(t), group) else r.At(t))
              && full.At(t) == (if t == id then GroupBits(r.At(t), group) else r.At(t))
  {
    var half := r.(group := Modified(Store, r.group, id, group.Group1NS?));
    var full := half.(modifier := Modified(Store, r.modifier, id, group == Secure(Group1S)));
    forall t | 0 <= t < 32 * |r.group|
      ensures half.At(t) == if t == id then GroupHalf(r.At(t), group) else r.At(t)
      ensures full.At(t) == if t == id then GroupBits(r.At(t), group) else r.At(t)
    {
      ModifiedBits(Store, r.group, id, group.Group1NS?, t);
      ModifiedBits(Store, r.modifier, id, group == Secure(Group1S), t);
    }
  }

  lemma AllOnes(w: bv32)
    ensures Written(SetOnes, w, ONES) == ONES && Written(ClearOnes, w, ONES) == 0
  {
  }

  /** A bank with its first 32 interrupts enabled or disabled. */
  function EnabledFirst(r: Regs, enable: bool): Regs
    requires |r.enabled| >= 1
  {
    r.(enabled := r.enabled[0 := if enable then ONES else 0])
  }

  /** A bank with the group bits of its first 32 interrupts set. */
  function GroupedFirst(r: Regs): Regs
    requires |r.group| >= 1
  {
    r.(group := r.group[0 := ONES])
  }

  lemma EnabledFirstEntries(r: Regs, enable: bool, t: nat)
    requires r.Shaped(1) && t < 32
    ensures EnabledFirst(r, enable).At(t) == r.At(t).(enabled := enable)
  {
    ConstantBits(t);
  }

  lemma GroupedFirstEntries(r: Regs, t: nat)
    requires r.Shaped(1) && t < 32
    ensures GroupedFirst(r).At(t) == r.At(t).(nonSecure := true)
  {
    ConstantBits(t);
  }
}
