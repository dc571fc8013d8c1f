/** The whole register file as a value, its meaning as a configuration, and how
    a change to one bank shows in that meaning. */
module RegisterFile {
  import opened IntIds
  import opened Wrappers
  import opened Configuration
  import opened Banks

  datatype File = File(shared: Regs, frames: seq<Regs>)
  {
    ghost predicate Shaped() {
      shared.Shaped(32) && forall c | 0 <= c < |frames| :: frames[c].Shaped(1)
    }

    ghost function Lookup(t: Slot): Entry
      requires Shaped() && IsSlot(|frames|, t)
    {
      match t
      case Private(cpu, id) => frames[cpu].At(id)
      case Shared(id) => shared.At(id)
    }

    /** The configuration of every interrupt. */
    ghost function Config(): (m: Config)
      requires Shaped()
      ensures m.Keys == Slots(|frames|)
    {
      map t | t in Slots(|frames|) :: Lookup(t)
    }
  }

  /** Calls that name one interrupt. */
  predicate NamesInterrupt(cpuCount: nat, call: Call) {
    !call.EnableAll? && !call.Setup? && Addressable(cpuCount, call.id, call.cpu)
  }

  /** Such a call has no effect outside the bank of its interrupt. */
  lemma EffectIsLocal(cpuCount: nat, n: nat, call: Call, t: Slot, e: Entry)
    requires NamesInterrupt(cpuCount, call)
    requires match Target(call.id, call.cpu)
             case Private(c, _) => !t.Private? || t.cpu != c
             case Shared(_) => t.Private?
    ensures Effect(n, call, t, e) == e
  {
  }

  /** Configurations are compared slot by slot. */
  lemma SlotBySlot(f: File, n: nat, call: Call, g: File)
    requires f.Shaped() && g.Shaped() && |g.frames| == |f.frames| && WellFormed(call)
    requires forall t | IsSlot(|f.frames|, t) :: g.Lookup(t) == Effect(n, call, t, f.Lookup(t))
    ensures g.Config() == Apply(n, call, f.Config())
  {
  }

  /** A call on a private interrupt, seen as a change to one frame. */
  lemma PrivateStep(f: File, n: nat, call: Call, r: Regs)
    requires f.Shaped() && r.Shaped(1)
    requires NamesInterrupt(|f.frames|, call) && IsPrivate(call.id)
    requires forall t: nat | t < 32 ::
               r.At(t) == Effect(n, call, Private(call.cpu.value, t), f.frames[call.cpu.value].At(t))
    ensures f.(frames := f.frames[call.cpu.value := r]).Config() == Apply(n, call, f.Config())
  {
    var g := f.(frames := f.frames[call.cpu.value := r]);
    forall t | IsSlot(|f.frames|, t)
      ensures g.Lookup(t) == Effect(n, call, t, f.Lookup(t))
    {
      if t.Shared? || t.cpu != call.cpu.value {
        EffectIsLocal(|f.frames|, n, call, t, f.Lookup(t));
      }
    }
    SlotBySlot(f, n, call, g);
  }

  /** A call on an interrupt of the distributor, seen as a change to its bank. */
  lemma SharedStep(f: File, n: nat, call: Call, r: Regs)
    requires f.Shaped() && r.Shaped(32)
    requires NamesInterrupt(|f.frames|, call) && !IsPrivate(call.id)
    requires forall t: nat | t < 1024 :: r.At(t) == Effect(n, call, Shared(t), f.shared.At(t))
    ensures f.(shared := r).Config() == Apply(n, call, f.Config())
  {
    var g := f.(shared := r);
    forall t | IsSlot(|f.frames|, t)
      ensures g.Lookup(t) == Effect(n, call, t, f.Lookup(t))
    {
      if t.Private? {
        EffectIsLocal(|f.frames|, n, call, t, f.Lookup(t));
      }
    }
    SlotBySlot(f, n, call, g);
  }

  /** Enabling everything, seen as a change to every bank. */
  lemma EnableAllStep(f: File, n: nat, enable: bool, g: File)
    requires f.Shaped() && g.Shaped() && |g.frames| == |f.frames|
    requires forall t: nat | t < 1024 ::
               g.shared.At(t) == if 32 <= t < 32 + n then f.shared.At(t).(enabled := enable) else f.shared.At(t)
    requires forall c | 0 <= c < |f.frames| :: g.frames[c] == EnabledFirst(f.frames[c], enable)
    ensures g.Config() == Apply(n, EnableAll(enable), f.Config())
  {
    forall t | IsSlot(|f.frames|, t)
      ensures g.Lookup(t) == Effect(n, EnableAll(enable), t, f.Lookup(t))
    {
      if t.Private? {
        EnabledFirstEntries(f.frames[t.cpu], enable, t.id);
      }
    }
    SlotBySlot(f, n, EnableAll(enable), g);
  }

  /** The group writes of a setup, seen as a change to every bank. */
  lemma SetupStep(f: File, n: nat, core: nat, g: File)
    requires f.Shaped() && g.Shaped() && |g.frames| == |f.frames|
    requires forall t: nat | t < 1024 :: g.shared.At(t) == SetupEntry(n, Shared(t), f.shared.At(t))
    requires forall c | 0 <= c < |f.frames| :: g.frames[c] == GroupedFirst(f.frames[c])
    ensures g.Config() == Apply(n, Setup(core), f.Config())
  {
    forall t | IsSlot(|f.frames|, t)
      ensures g.Lookup(t) == Effect(n, Setup(core), t, f.Lookup(t))
    {
      if t.Private? {
        GroupedFirstEntries(f.frames[t.cpu], t.id);
      }
    }
    SlotBySlot(f, n, Setup(core), g);
  }
}
