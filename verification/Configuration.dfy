/** The meaning of the GICv3 register file: a map from interrupts to settings,
    and the effect of each driver call on one entry of that map. */
module Configuration {
  import opened IntIds
  import opened Wrappers

  datatype Trigger = Edge | Level

  datatype SecureIntGroup = Group1S | Group0

  datatype Group = Secure(secure: SecureIntGroup) | Group1NS

  /** One interrupt of one core, or one interrupt of the distributor. */
  datatype Slot =
    | Private(cpu: nat, id: nat)
    | Shared(id: nat)

  /** Everything the registers hold about one interrupt: the enable bit, the two
      group bits, the two configuration bits and the priority byte. */
  datatype Entry = Entry(
    enabled: bool, nonSecure: bool, modifier: bool, low: bool, edge: bool, priority: bv8)
  {
    function Group(): Group {
      DecodeGroup(nonSecure, modifier)
    }

    function Trigger(): Trigger {
      if edge then Edge else Level
    }
  }

  /** How the hardware reads the two group bits, section 12.9 of Arm IHI 0069H.
      With both bits set the interrupt is treated as non-secure group 1. */
  function DecodeGroup(nonSecure: bool, modifier: bool): Group {
    if nonSecure then Group1NS
    else if modifier then Secure(Group1S)
    else Secure(Group0)
  }

  type Config = map<Slot, Entry>

  datatype Call =
    | EnableInterrupt(id: IntId, cpu: Option<nat>, enable: bool)
    | EnableAll(enable: bool)
    | SetPriority(id: IntId, cpu: Option<nat>, priority: bv8)
    | SetTrigger(id: IntId, cpu: Option<nat>, trigger: Trigger)
    | SetGroup(id: IntId, cpu: Option<nat>, group: Group)
    | Setup(core: nat)

  // ---------- which arguments the driver accepts ----------

  /** Outside this the driver panics: it unwraps a missing core, asserts the
      core index, or indexes past a register array. */
  predicate Addressable(cpuCount: nat, id: IntId, cpu: Option<nat>) {
    if IsPrivate(id) then cpu.Some? && cpu.value < cpuCount else id < SPECIAL_END
  }

  /** The same in numbers: identifiers below 1024, with a core for the first 32. */
  lemma AddressableByNumber(cpuCount: nat, id: IntId, cpu: Option<nat>)
    ensures Addressable(cpuCount, id, cpu) <==> id < 1024 && (id < 32 ==> cpu.Some? && cpu.value < cpuCount)
  {
  }

  predicate Accepted(cpuCount: nat, call: Call) {
    match call
    case EnableAll(_) => true
    case Setup(core) => core < cpuCount
    case _ => Addressable(cpuCount, call.id, call.cpu)
  }

  /** A call that names a private interrupt names a core with it. */
  predicate WellFormed(call: Call) {
    call.EnableAll? || call.Setup? || (IsPrivate(call.id) ==> call.cpu.Some?)
  }

  /** A call that names one interrupt. */
  predicate PerInterrupt(call: Call) {
    !call.EnableAll? && !call.Setup? && WellFormed(call)
  }

  function Target(id: IntId, cpu: Option<nat>): Slot
    requires IsPrivate(id) ==> cpu.Some?
  {
    if IsPrivate(id) then Private(cpu.value, id) else Shared(id)
  }

  /** The slots of a register file with cpuCount redistributors. */
  function Slots(cpuCount: nat): (s: set<Slot>)
    ensures forall t :: t in s <==> IsSlot(cpuCount, t)
  {
    (set id | 0 <= id < 1024 :: Shared(id))
    + (set cpu, id | 0 <= cpu < cpuCount && 0 <= id < 32 :: Private(cpu, id))
  }

  predicate IsSlot(cpuCount: nat, t: Slot) {
    match t
    case Private(cpu, id) => cpu < cpuCount && id < 32
    case Shared(id) => id < 1024
  }

  /** The interrupts the bulk operations are about. */
  predicate Implemented(numSpis: nat, t: Slot) {
    t.Private? || 32 <= t.id < 32 + numSpis
  }

  /** The same bank and the same group of 32 identifiers. */
  predicate SameWord(s: Slot, t: Slot) {
    match (s, t)
    case (Private(c, i), Private(d, j)) => c == d && i / 32 == j / 32
    case (Shared(i), Shared(j)) => i / 32 == j / 32
    case _ => false
  }

  // ---------- effect of a call on one entry ----------

  /** An entry between the two writes of a group change. */
  function GroupHalf(e: Entry, g: Group): Entry {
    e.(nonSecure := g.Group1NS?)
  }

  /** An entry after both writes of a group change. */
  function GroupBits(e: Entry, g: Group): Entry {
    e.(nonSecure := g.Group1NS?, modifier := g == Secure(Group1S))
  }

  /** The group bit of a shared interrupt after the strided group writes up to
      maxReg.  The last word written may reach past maxReg, and clears the bits there. */
  function StridedGroup(maxReg: nat, id: nat, was: bool): bool {
    if 32 <= id < maxReg then true
    else if 32 <= id && id / 32 * 32 < maxReg then false
    else was
  }

  /** Setup moves private and implemented interrupts to non-secure group 1. */
  function SetupEntry(numSpis: nat, t: Slot, e: Entry): Entry {
    match t
    case Private(_, _) => e.(nonSecure := true)
    case Shared(id) => e.(nonSecure := StridedGroup(32 + numSpis, id, e.nonSecure))
  }

  function Effect(numSpis: nat, call: Call, t: Slot, e: Entry): Entry
    requires WellFormed(call)
  {
    match call
    case EnableInterrupt(id, cpu, true) => if t == Target(id, cpu) then e.(enabled := true) else e
    case EnableInterrupt(id, cpu, false) => if SameWord(t, Target(id, cpu)) then e.(enabled := false) else e
    case EnableAll(on) => if Implemented(numSpis, t) then e.(enabled := on) else e
    case SetPriority(id, cpu, p) => if t == Target(id, cpu) then e.(priority := p) else e
    case SetTrigger(id, cpu, trigger) => if t == Target(id, cpu) then e.(edge := trigger.Edge?) else e
    case SetGroup(id, cpu, g) => if t == Target(id, cpu) then GroupBits(e, g) else e
    case Setup(_) => SetupEntry(numSpis, t, e)
  }

  function Apply(numSpis: nat, call: Call, m: Config): Config
    requires WellFormed(call)
  {
    map t | t in m :: Effect(numSpis, call, t, m[t])
  }

  // ---------- runs ----------

  predicate AllAccepted(cpuCount: nat, calls: seq<Call>) {
    forall i | 0 <= i < |calls| :: Accepted(cpuCount, calls[i])
  }

  function Run(cpuCount: nat, numSpis: nat, calls: seq<Call>, m: Config): Config
    requires AllAccepted(cpuCount, calls)
  {
    if calls == [] then m
    else
      var n := |calls| - 1;
      Apply(numSpis, calls[n], Run(cpuCount, numSpis, calls[..n], m))
  }

  /** The history of one entry over a run. */
  function RunEntry(cpuCount: nat, numSpis: nat, calls: seq<Call>, t: Slot, e: Entry): Entry
    requires AllAccepted(cpuCount, calls)
  {
    if calls == [] then e
    else
      var n := |calls| - 1;
      Effect(numSpis, calls[n], t, RunEntry(cpuCount, numSpis, calls[..n], t, e))
  }

  /** A run acts on every entry on its own. */
  lemma {:induction false} RunIsPointwise(cpuCount: nat, numSpis: nat, calls: seq<Call>, m: Config)
    requires AllAccepted(cpuCount, calls)
    ensures Run(cpuCount, numSpis, calls, m).Keys == m.Keys
    ensures forall t | t in m ::
              Run(cpuCount, numSpis, calls, m)[t] == RunEntry(cpuCount, numSpis, calls, t, m[t])
  {
    if calls != [] {
      RunIsPointwise(cpuCount, numSpis, calls[..|calls| - 1], m);
    }
  }
}
