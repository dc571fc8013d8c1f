/** Where the two drivers agree: the same calls, on the same SPIs. */
module Comparison {
  import opened IntIds
  import opened Wrappers
  import opened Configuration
  import V2 = GicV2Lines

  // ---------- both drivers on the same SPIs ----------

  /** The two register files have the same enabled SPIs, or the same triggers. */
  ghost predicate SameEnabled(m: Config, lines: seq<V2.Line>) {
    && |lines| == 1024
    && forall id: nat | 32 <= id < 1024 :: Shared(id) in m && m[Shared(id)].enabled == lines[id].enabled
  }

  ghost predicate SameTriggers(m: Config, lines: seq<V2.Line>) {
    && |lines| == 1024
    && forall id: nat | 32 <= id < 1024 :: Shared(id) in m && m[Shared(id)].Trigger() == lines[id].Trigger()
  }

  /** Enabling an implemented SPI keeps the drivers in agreement. */
  lemma EnablesAgree(n: nat, implemented: set<nat>, id: IntId, cpu: Option<nat>, m: Config, lines: seq<V2.Line>)
    requires SameEnabled(m, lines) && 32 <= id < 1024 && id in implemented
    ensures SameEnabled(
              Apply(n, EnableInterrupt(id, cpu, true), m), V2.Apply(implemented, V2.EnableInterrupt(id, true), lines))
  {
  }

  /** Disabling an SPI disables it in both; the drivers still agree exactly when
      no other interrupt of its group of 32 was enabled. */
  lemma DisablesAgree(n: nat, implemented: set<nat>, id: IntId, cpu: Option<nat>, m: Config, lines: seq<V2.Line>)
    requires SameEnabled(m, lines) && 32 <= id < 1024
    ensures var m' := Apply(n, EnableInterrupt(id, cpu, false), m);
            var lines' := V2.Apply(implemented, V2.EnableInterrupt(id, false), lines);
            && !m'[Shared(id)].enabled && !lines'[id].enabled
            && (SameEnabled(m', lines') <==>
                forall j: nat | 32 <= j < 1024 && j != id && j / 32 == id / 32 :: !lines[j].enabled)
  {
    var m' := Apply(n, EnableInterrupt(id, cpu, false), m);
    var lines' := V2.Apply(implemented, V2.EnableInterrupt(id, false), lines);
    forall j: nat | 32 <= j < 1024
      ensures m'[Shared(j)].enabled == (lines[j].enabled && j / 32 != id / 32)
      ensures lines'[j].enabled == (lines[j].enabled && j != id)
    {
      assert m[Shared(j)].enabled == lines[j].enabled;
    }
    if SameEnabled(m', lines') {
      forall j: nat | 32 <= j < 1024 && j != id && j / 32 == id / 32
        ensures !lines[j].enabled
      {
        assert m'[Shared(j)].enabled == lines'[j].enabled;
      }
    }
  }

  datatype EnableOp = EnableOp(id: IntId, on: bool)

  function EnableCallsV3(ops: seq<EnableOp>): seq<Call> {
    seq(|ops|, i requires 0 <= i < |ops| => EnableInterrupt(ops[i].id, None, ops[i].on))
  }

  function EnableCallsV2(ops: seq<EnableOp>): seq<V2.Call> {
    seq(|ops|, i requires 0 <= i < |ops| => V2.EnableInterrupt(ops[i].id, ops[i].on))
  }

  /** Since the last call on interrupt t, or since the start if there is none, no
      other interrupt of its group of 32 has been disabled. */
  predicate Undisturbed(ops: seq<EnableOp>, t: nat) {
    if ops == [] then true
    else
      var k := |ops| - 1;
      ops[k].id == t || ((ops[k].on || ops[k].id / 32 != t / 32) && Undisturbed(ops[..k], t))
  }

  /** After the same enables and disables of implemented SPIs, from equal enabled
      sets, an SPI is enabled in the GICv3 exactly when it is enabled in the GICv2
      and undisturbed. */
  lemma {:induction false} EnablesCompared(
    cpuCount: nat, n: nat, implemented: set<nat>, ops: seq<EnableOp>, m: Config, lines: seq<V2.Line>, t: nat)
    requires forall i | 0 <= i < |ops| :: 32 <= ops[i].id < 1024 && ops[i].id in implemented
    requires 32 <= t < |lines| && Shared(t) in m && m[Shared(t)].enabled == lines[t].enabled
    ensures Run(cpuCount, n, EnableCallsV3(ops), m).Keys == m.Keys
    ensures |V2.Run(implemented, EnableCallsV2(ops), lines)| == |lines|
    ensures Run(cpuCount, n, EnableCallsV3(ops), m)[Shared(t)].enabled <==>
              V2.Run(implemented, EnableCallsV2(ops), lines)[t].enabled && Undisturbed(ops, t)
  {
    if ops != [] {
      var k := |ops| - 1;
      EnablesCompared(cpuCount, n, implemented, ops[..k], m, lines, t);
      assert EnableCallsV3(ops)[..k] == EnableCallsV3(ops[..k]);
      assert EnableCallsV2(ops)[..k] == EnableCallsV2(ops[..k]);
      EnableStepCompared(
        n, implemented, ops[k],
        Run(cpuCount, n, EnableCallsV3(ops[..k]), m), V2.Run(implemented, EnableCallsV2(ops[..k]), lines), t);
    }
  }

  lemma EnableStepCompared(n: nat, implemented: set<nat>, op: EnableOp, m: Config, lines: seq<V2.Line>, t: nat)
    requires 32 <= op.id < 1024 && op.id in implemented && t < |lines| && Shared(t) in m
    ensures Apply(n, EnableInterrupt(op.id, None, op.on), m).Keys == m.Keys
    ensures Apply(n, EnableInterrupt(op.id, None, op.on), m)[Shared(t)].enabled ==
            if op.id == t then op.on else m[Shared(t)].enabled && (op.on || op.id / 32 != t / 32)
    ensures |V2.Apply(implemented, V2.EnableInterrupt(op.id, op.on), lines)| == |lines|
    ensures V2.Apply(implemented, V2.EnableInterrupt(op.id, op.on), lines)[t].enabled ==
            if op.id == t then op.on else lines[t].enabled
  {
  }

  /** So the SPIs enabled in the GICv3 are among those enabled in the GICv2, and
      the two sets are equal exactly when every SPI enabled in the GICv2 is
      undisturbed. */
  lemma EnabledSetsCompared(
    cpuCount: nat, n: nat, implemented: set<nat>, ops: seq<EnableOp>, m: Config, lines: seq<V2.Line>)
    requires forall i | 0 <= i < |ops| :: 32 <= ops[i].id < 1024 && ops[i].id in implemented
    requires SameEnabled(m, lines)
    ensures var m', lines' := Run(cpuCount, n, EnableCallsV3(ops), m), V2.Run(implemented, EnableCallsV2(ops), lines);
            && m'.Keys == m.Keys && |lines'| == 1024
            && (forall t: nat | 32 <= t < 1024 && m'[Shared(t)].enabled :: lines'[t].enabled)
            && (SameEnabled(m', lines') <==>
                forall t: nat | 32 <= t < 1024 && lines'[t].enabled :: Undisturbed(ops, t))
  {
    var m', lines' := Run(cpuCount, n, EnableCallsV3(ops), m), V2.Run(implemented, EnableCallsV2(ops), lines);
    forall t: nat | 32 <= t < 1024
      ensures m'.Keys == m.Keys && |lines'| == 1024
      ensures m'[Shared(t)].enabled <==> lines'[t].enabled && Undisturbed(ops, t)
    {
      EnablesCompared(cpuCount, n, implemented, ops, m, lines, t);
    }
    EnablesCompared(cpuCount, n, implemented, ops, m, lines, 32);
    assert SameEnabled(m', lines') ==> forall t: nat | 32 <= t < 1024 :: m'[Shared(t)].enabled == lines'[t].enabled;
  }

  datatype TriggerOp = TriggerOp(id: IntId, trigger: Trigger)

  function CallsV3(ops: seq<TriggerOp>): seq<Call> {
    seq(|ops|, i requires 0 <= i < |ops| => SetTrigger(ops[i].id, None, ops[i].trigger))
  }

  function CallsV2(ops: seq<TriggerOp>): seq<V2.Call> {
    seq(|ops|, i requires 0 <= i < |ops| => V2.SetTrigger(ops[i].id, ops[i].trigger))
  }

  /** From equal triggers, any sequence of trigger calls on SPIs takes both
      drivers to equal triggers. */
  lemma {:induction false} TriggersAgree(
    cpuCount: nat, n: nat, implemented: set<nat>, ops: seq<TriggerOp>, m: Config, lines: seq<V2.Line>)
    requires forall i | 0 <= i < |ops| :: 32 <= ops[i].id < 1024
    requires SameTriggers(m, lines)
    ensures SameTriggers(Run(cpuCount, n, CallsV3(ops), m), V2.Run(implemented, CallsV2(ops), lines))
  {
    if ops != [] {
      var k := |ops| - 1;
      TriggersAgree(cpuCount, n, implemented, ops[..k], m, lines);
      assert CallsV3(ops)[..k] == CallsV3(ops[..k]);
      assert CallsV2(ops)[..k] == CallsV2(ops[..k]);
      TriggerStepAgrees(
        n, implemented, ops[k], Run(cpuCount, n, CallsV3(ops[..k]), m), V2.Run(implemented, CallsV2(ops[..k]), lines));
    }
  }

  lemma TriggerStepAgrees(n: nat, implemented: set<nat>, op: TriggerOp, m: Config, lines: seq<V2.Line>)
    requires 32 <= op.id < 1024 && SameTriggers(m, lines)
    ensures SameTriggers(
              Apply(n, SetTrigger(op.id, None, op.trigger), m),
              V2.Apply(implemented, V2.SetTrigger(op.id, op.trigger), lines))
  {
  }

  datatype PriorityOp = PriorityOp(id: IntId, priority: bv8)

  function PriorityCallsV3(ops: seq<PriorityOp>): seq<Call> {
    seq(|ops|, i requires 0 <= i < |ops| => SetPriority(ops[i].id, None, ops[i].priority))
  }

  function PriorityCallsV2(ops: seq<PriorityOp>): seq<V2.Call> {
    seq(|ops|, i requires 0 <= i < |ops| => V2.SetPriority(ops[i].id, ops[i].priority))
  }

  /** Was t the last interrupt written among the four of its word, if any was? */
  predicate LastOfWord(ops: seq<PriorityOp>, t: nat) {
    if ops == [] then true
    else
      var k := |ops| - 1;
      if ops[k].id / 4 == t / 4 then ops[k].id == t else LastOfWord(ops[..k], t)
  }

  /** After the same priority calls, from equal priorities, GICv2 reads what
      GICv3 reads for the interrupt written last in each word, and zero for the
      others; GICv3 keeps them all. */
  lemma {:induction false} PrioritiesCompared(
    cpuCount: nat, n: nat, implemented: set<nat>, ops: seq<PriorityOp>, m: Config, lines: seq<V2.Line>, t: nat)
    requires forall i | 0 <= i < |ops| :: 32 <= ops[i].id < 1024
    requires t < |lines| && Shared(t) in m && m[Shared(t)].priority == lines[t].priority
    ensures Run(cpuCount, n, PriorityCallsV3(ops), m).Keys == m.Keys
    ensures |V2.Run(implemented, PriorityCallsV2(ops), lines)| == |lines|
    ensures V2.Run(implemented, PriorityCallsV2(ops), lines)[t].priority ==
            if LastOfWord(ops, t) then Run(cpuCount, n, PriorityCallsV3(ops), m)[Shared(t)].priority else 0
  {
    if ops != [] {
      var k := |ops| - 1;
      PrioritiesCompared(cpuCount, n, implemented, ops[..k], m, lines, t);
      assert PriorityCallsV3(ops)[..k] == PriorityCallsV3(ops[..k]);
      assert PriorityCallsV2(ops)[..k] == PriorityCallsV2(ops[..k]);
      PriorityStepCompared(
        n, implemented, ops[k],
        Run(cpuCount, n, PriorityCallsV3(ops[..k]), m), V2.Run(implemented, PriorityCallsV2(ops[..k]), lines), t);
    }
  }

  lemma PriorityStepCompared(n: nat, implemented: set<nat>, op: PriorityOp, m: Config, lines: seq<V2.Line>, t: nat)
    requires 32 <= op.id < 1024 && t < |lines| && Shared(t) in m
    ensures Apply(n, SetPriority(op.id, None, op.priority), m).Keys == m.Keys
    ensures Apply(n, SetPriority(op.id, None, op.priority), m)[Shared(t)].priority ==
            if t == op.id then op.priority else m[Shared(t)].priority
    ensures |V2.Apply(implemented, V2.SetPriority(op.id, op.priority), lines)| == |lines|
    ensures V2.Apply(implemented, V2.SetPriority(op.id, op.priority), lines)[t].priority ==
            if t == op.id then op.priority else if t / 4 == op.id / 4 then 0 else lines[t].priority
  {
  }
}
