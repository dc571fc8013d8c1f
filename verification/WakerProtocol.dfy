/** The GICR_WAKER handshake.  Software writes ProcessorSleep, and the hardware
    makes ChildrenAsleep follow it after a while.  Hardware steps, on any
    redistributor, happen between any two register accesses of the driver. */
module WakerProtocol {
  import opened Wrappers

  datatype GicrError = AlreadyAwake | AlreadyAsleep

  // ---------- the register ----------

  const PROCESSOR_SLEEP: bv32 := 0x2
  const CHILDREN_ASLEEP: bv32 := 0x4

  /** A GICR_WAKER value as its two flags and the bits the driver passes through. */
  datatype Waker = Waker(processorSleep: bool, childrenAsleep: bool, rest: bv32)
  {
    /** Has the hardware caught up with the last request? */
    predicate Settled() {
      processorSleep == childrenAsleep
    }

    /** The core has been told to sleep, or to wake, and the hardware has not followed. */
    predicate FallingAsleep() {
      processorSleep && !childrenAsleep
    }

    predicate WakingUp() {
      !processorSleep && childrenAsleep
    }

    /** ChildrenAsleep takes the value of ProcessorSleep. */
    function Follow(): Waker {
      this.(childrenAsleep := processorSleep)
    }

    /** Where hardware steps can take the register. */
    predicate Reaches(w: Waker) {
      w == this || w == Follow()
    }

    /** The register after a whole handshake. */
    function After(asleep: bool): Waker {
      Waker(asleep, asleep, rest)
    }
  }

  function FromBits(v: bv32): Waker {
    Waker(v & PROCESSOR_SLEEP != 0, v & CHILDREN_ASLEEP != 0, v & !(PROCESSOR_SLEEP | CHILDREN_ASLEEP))
  }

  /** A software write of v: ChildrenAsleep is read-only. */
  function Overwrite(w: Waker, v: Waker): Waker {
    v.(childrenAsleep := w.childrenAsleep)
  }

  function ToBits(w: Waker): bv32 {
    w.rest | (if w.processorSleep then PROCESSOR_SLEEP else 0) | (if w.childrenAsleep then CHILDREN_ASLEEP else 0)
  }

  /** No information is lost in either direction. */
  lemma BitsRoundTrip(v: bv32)
    ensures ToBits(FromBits(v)) == v
  {
    if FromBits(v).processorSleep {
      assert v & 2 == 2;
    }
    if FromBits(v).childrenAsleep {
      assert v & 4 == 4;
    }
  }

  /** The word operations of the driver are the flag operations of this model. */
  lemma FlagOperations(v: bv32)
    ensures FromBits(v & !PROCESSOR_SLEEP) == FromBits(v).(processorSleep := false)
    ensures FromBits(v | PROCESSOR_SLEEP) == FromBits(v).(processorSleep := true)
    ensures FromBits(v).childrenAsleep <==> v & CHILDREN_ASLEEP == CHILDREN_ASLEEP
  {
  }

  /** Where the two flags are. */
  lemma FlagBits(v: bv32)
    ensures FromBits(v).processorSleep <==> v & 0x2 != 0
    ensures FromBits(v).childrenAsleep <==> v & 0x4 != 0
  {
  }

  // ---------- the trace of writes ----------

  /** One software write: the register just before it and just after it. */
  datatype Write = Write(cpu: nat, before: Waker, after: Waker)

  /** ProcessorSleep is cleared only while ChildrenAsleep is set, and set only
      while ChildrenAsleep is clear. */
  predicate Disciplined(w: Write) {
    && (w.before.processorSleep && !w.after.processorSleep ==> w.before.childrenAsleep)
    && (!w.before.processorSleep && w.after.processorSleep ==> !w.before.childrenAsleep)
  }

  /** The trace has grown by one disciplined write to the given redistributor. */
  predicate OneMore(was: seq<Write>, now: seq<Write>, cpu: nat) {
    && |now| == |was| + 1
    && now[..|was|] == was
    && now[|was|].cpu == cpu
    && Disciplined(now[|was|])
  }

  /** Such a trace spelled out: one write more, which keeps the order of the handshake. */
  lemma OneMoreInFull(was: seq<Write>, now: seq<Write>, cpu: nat)
    requires OneMore(was, now, cpu)
    ensures |now| == |was| + 1
    ensures var w := now[|was|];
            && now == was + [w] && w.cpu == cpu
            && (w.before.processorSleep && !w.after.processorSleep ==> w.before.childrenAsleep)
            && (!w.before.processorSleep && w.after.processorSleep ==> !w.before.childrenAsleep)
  {
  }

  // ---------- handshakes that are under way ----------

  /** The state After(false) lasts: hardware steps do not leave it.  A core on its
      way to sleep reads as awake and is reported as such, and the next hardware
      step puts it to sleep. */
  lemma AwakeIsStable(w: Waker, w': Waker)
    ensures w.After(false).Reaches(w') ==> w' == w.After(false)
    ensures w.FallingAsleep() <==> !w.childrenAsleep && w.Follow().childrenAsleep
    ensures w.Reaches(w') <==> w' == w || w' == w.(childrenAsleep := w.processorSleep)
    ensures w.Settled() <==> forall w' :: w.Reaches(w') ==> w' == w
  {
    assert w.Reaches(w.Follow());
  }

  // ---------- driver and hardware ----------

  /** The wake registers of all redistributors. */
  class Wakers {
    var regs: seq<Waker>
    /** Hardware steps still to pass before ChildrenAsleep follows. */
    var delay: seq<nat>
    /** The software writes so far. */
    ghost var writes: seq<Write>

    constructor (reset: seq<Waker>, latency: seq<nat>)
      requires |reset| == |latency|
      ensures Valid() && regs == reset && delay == latency && writes == []
    {
      regs := reset;
      delay := latency;
      writes := [];
    }

    ghost predicate Valid()
      reads this
    {
      |regs| == |delay|
    }

    ghost predicate AllSettled()
      reads this
    {
      forall c | 0 <= c < |regs| :: regs[c].Settled()
    }

    /** One hardware step of one redistributor. */
    method StepOne(cpu: nat)
      requires Valid() && cpu < |regs|
      modifies this`regs, this`delay
      ensures Valid() && |regs| == |old(regs)|
      ensures forall c | 0 <= c < |regs| && c != cpu :: regs[c] == old(regs)[c] && delay[c] == old(delay)[c]
      ensures old(regs)[cpu].Reaches(regs[cpu]) && delay[cpu] <= old(delay)[cpu]
      ensures !regs[cpu].Settled() ==> delay[cpu] < old(delay)[cpu]
    {
      if regs[cpu].Settled() {
      } else if delay[cpu] == 0 {
        regs := regs[cpu := regs[cpu].Follow()];
      } else {
        delay := delay[cpu := delay[cpu] - 1];
      }
    }

    /** Any number of hardware steps, of any redistributors in any order. */
    method HardwareSteps()
      requires Valid()
      modifies this`regs, this`delay
      ensures Valid() && |regs| == |old(regs)|
      ensures forall c | 0 <= c < |regs| :: old(regs)[c].Reaches(regs[c]) && delay[c] <= old(delay)[c]
    {
      var steps: nat := *;
      while steps > 0
        invariant Valid() && |regs| == |old(regs)|
        invariant forall c | 0 <= c < |regs| :: old(regs)[c].Reaches(regs[c]) && delay[c] <= old(delay)[c]
      {
        var cpu: nat := *;
        if cpu < |regs| {
          StepOne(cpu);
        }
        steps := steps - 1;
      }
    }

    /** A register read.  Polling makes progress: a register that is still not
        settled is one step closer to it. */
    method Read(cpu: nat) returns (v: Waker)
      requires Valid() && cpu < |regs|
      modifies this`regs, this`delay
      ensures Valid() && |regs| == |old(regs)| && v == regs[cpu]
      ensures forall c | 0 <= c < |regs| :: old(regs)[c].Reaches(regs[c])
      ensures !regs[cpu].Settled() ==> delay[cpu] < old(delay)[cpu]
    {
      HardwareSteps();
      StepOne(cpu);
      v := regs[cpu];
    }

    /** A register write, after which the hardware takes an arbitrary time to follow. */
    method Store(cpu: nat, v: Waker) returns (ghost before: Waker)
      requires Valid() && cpu < |regs|
      modifies this
      ensures Valid() && |regs| == |old(regs)|
      ensures forall c | 0 <= c < |regs| && c != cpu :: old(regs)[c].Reaches(regs[c])
      ensures old(regs)[cpu].Reaches(before) && regs[cpu] == Overwrite(before, v)
      ensures writes == old(writes) + [Write(cpu, before, regs[cpu])]
    {
      HardwareSteps();
      before := regs[cpu];
      var latency: nat := *;
      regs := regs[cpu := Overwrite(regs[cpu], v)];
      delay := delay[cpu := latency];
      writes := writes + [Write(cpu, before, regs[cpu])];
    }

    /** Tells the hardware that the core is awake, and waits until it agrees. */
    method MarkCoreAwake(cpu: nat) returns (r: Result<Unit, GicrError>)
      requires Valid() && cpu < |regs|
      modifies this
      ensures Valid() && |regs| == |old(regs)|
      ensures r == Ok(Unit) || r == Err(AlreadyAwake)
      // Other redistributors see only their own hardware.
      ensures forall c | 0 <= c < |regs| && c != cpu :: old(regs)[c].Reaches(regs[c])
      // Success completes the handshake; an error changes nothing.
      ensures r.Ok? ==> regs[cpu] == Waker(false, false, old(regs)[cpu].rest)
      // The core is awake for good, unless it was found on its way to sleep.
      ensures regs[cpu] == old(regs)[cpu].After(false) <==> r.Ok? || !old(regs)[cpu].FallingAsleep()
      ensures r.Err? ==> old(regs)[cpu].Reaches(regs[cpu]) && !regs[cpu].childrenAsleep
      ensures old(regs)[cpu].Settled() ==> (r.Ok? <==> old(regs)[cpu].childrenAsleep)
      // One disciplined write on success, none on error.
      ensures if r.Ok? then OneMore(old(writes), writes, cpu) else writes == old(writes)
      ensures r.Ok? ==> var w := writes[|old(writes)|];
                        !w.after.processorSleep && (w.before.processorSleep ==> w.before.childrenAsleep)
    {
      var gicrWaker := Read(cpu);
      if !gicrWaker.childrenAsleep {
        return Err(AlreadyAwake);
      }
      gicrWaker := gicrWaker.(processorSleep := false);
      ghost var before := Store(cpu, gicrWaker);
      var v := Read(cpu);
      while v.childrenAsleep
        invariant Valid() && |regs| == |old(regs)| && v == regs[cpu]
        invariant regs[cpu] == old(regs)[cpu].After(false).(childrenAsleep := v.childrenAsleep)
        invariant forall c | 0 <= c < |regs| && c != cpu :: old(regs)[c].Reaches(regs[c])
        invariant OneMore(old(writes), writes, cpu) && !writes[|old(writes)|].after.processorSleep
        decreases v.childrenAsleep, delay[cpu]
      {
        v := Read(cpu);
      }
      r := Ok(Unit);
    }

    /** Tells the hardware that the core is asleep, and waits until it agrees. */
    method MarkCoreAsleep(cpu: nat) returns (r: Result<Unit, GicrError>)
      requires Valid() && cpu < |regs|
      modifies this
      ensures Valid() && |regs| == |old(regs)|
      ensures r == Ok(Unit) || r == Err(AlreadyAsleep)
      ensures forall c | 0 <= c < |regs| && c != cpu :: old(regs)[c].Reaches(regs[c])
      ensures r.Ok? ==> regs[cpu] == Waker(true, true, old(regs)[cpu].rest)
      // The core is asleep for good, unless it was found on its way to wake.
      ensures regs[cpu] == old(regs)[cpu].After(true) <==> r.Ok? || !old(regs)[cpu].WakingUp()
      ensures r.Err? ==> old(regs)[cpu].Reaches(regs[cpu]) && regs[cpu].childrenAsleep
      ensures old(regs)[cpu].Settled() ==> (r.Ok? <==> !old(regs)[cpu].childrenAsleep)
      ensures if r.Ok? then OneMore(old(writes), writes, cpu) else writes == old(writes)
      ensures r.Ok? ==> var w := writes[|old(writes)|];
                        w.after.processorSleep && (!w.before.processorSleep ==> !w.before.childrenAsleep)
    {
      var gicrWaker := Read(cpu);
      if gicrWaker.childrenAsleep {
        return Err(AlreadyAsleep);
      }
      gicrWaker := gicrWaker.(processorSleep := true);
      ghost var before := Store(cpu, gicrWaker);
      var v := Read(cpu);
      while !v.childrenAsleep
        invariant Valid() && |regs| == |old(regs)| && v == regs[cpu]
        invariant regs[cpu] == old(regs)[cpu].After(true).(childrenAsleep := v.childrenAsleep)
        invariant forall c | 0 <= c < |regs| && c != cpu :: old(regs)[c].Reaches(regs[c])
        invariant OneMore(old(writes), writes, cpu) && writes[|old(writes)|].after.processorSleep
        decreases !v.childrenAsleep, delay[cpu]
      {
        v := Read(cpu);
      }
      r := Ok(Unit);
    }

    /** One call, between two states in which every core is settled. */
    method PerformCall(call: PowerCall) returns (r: Result<Unit, GicrError>)
      requires Valid() && AllSettled() && call.cpu < |regs|
      modifies this
      ensures Valid() && AllSettled() && |regs| == |old(regs)|
      ensures r == Outcome(old(SleepStates()), call)
      ensures SleepStates() == old(SleepStates())[call.cpu := call.MarkAsleep?]
      ensures forall c | 0 <= c < |regs| :: regs[c].rest == old(regs)[c].rest
      ensures if r.Ok? then OneMore(old(writes), writes, call.cpu) else writes == old(writes)
    {
      match call {
        case MarkAwake(cpu) => r := MarkCoreAwake(cpu);
        case MarkAsleep(cpu) => r := MarkCoreAsleep(cpu);
      }
    }

    /** A whole run of calls, on any cores in any order. */
    method RunCalls(calls: seq<PowerCall>) returns (results: seq<Result<Unit, GicrError>>)
      requires Valid() && AllSettled()
      requires forall i | 0 <= i < |calls| :: calls[i].cpu < |regs|
      modifies this
      ensures Valid() && AllSettled() && |regs| == |old(regs)|
      // The results are those of the abstract sleep states, and so is the final state.
      ensures results == Outcomes(old(SleepStates()), calls)
      ensures SleepStates() == FinalStates(old(SleepStates()), calls)
      ensures forall c | 0 <= c < |regs| :: regs[c].rest == old(regs)[c].rest
      // Every write of the run keeps the discipline.
      ensures |writes| >= |old(writes)| && writes[..|old(writes)|] == old(writes)
      ensures forall i | |old(writes)| <= i < |writes| :: Disciplined(writes[i])
    {
      results := [];
      ghost var asleep := SleepStates();
      for n := 0 to |calls|
        invariant Valid() && AllSettled() && |regs| == |old(regs)|
        invariant results == Outcomes(asleep, calls[..n])
        invariant SleepStates() == FinalStates(asleep, calls[..n])
        invariant forall c | 0 <= c < |regs| :: regs[c].rest == old(regs)[c].rest
        invariant |writes| >= |old(writes)| && writes[..|old(writes)|] == old(writes)
        invariant forall i | |old(writes)| <= i < |writes| :: Disciplined(writes[i])
      {
        var r := PerformCall(calls[n]);
        results := results + [r];
        assert calls[..n + 1][..n] == calls[..n];
      }
      assert calls[..|calls|] == calls;
    }

    /** Which cores sleep, as ChildrenAsleep tells. */
    ghost function SleepStates(): (s: seq<bool>)
      reads this
    {
      seq(|regs|, c requires 0 <= c < |regs| reads this => regs[c].childrenAsleep)
    }
  }

  // ---------- what a run returns ----------

  datatype PowerCall = MarkAwake(cpu: nat) | MarkAsleep(cpu: nat)

  predicate InRange(asleep: seq<bool>, calls: seq<PowerCall>) {
    forall i | 0 <= i < |calls| :: calls[i].cpu < |asleep|
  }

  function FinalStates(asleep: seq<bool>, calls: seq<PowerCall>): (r: seq<bool>)
    requires InRange(asleep, calls)
    ensures |r| == |asleep|
  {
    if calls == [] then asleep
    else
      var n := |calls| - 1;
      FinalStates(asleep, calls[..n])[calls[n].cpu := calls[n].MarkAsleep?]
  }

  function Outcome(asleep: seq<bool>, call: PowerCall): Result<Unit, GicrError>
    requires call.cpu < |asleep|
  {
    match call
    case MarkAwake(cpu) => if asleep[cpu] then Ok(Unit) else Err(AlreadyAwake)
    case MarkAsleep(cpu) => if asleep[cpu] then Err(AlreadyAsleep) else Ok(Unit)
  }

  function Outcomes(asleep: seq<bool>, calls: seq<PowerCall>): (r: seq<Result<Unit, GicrError>>)
    requires InRange(asleep, calls)
    ensures |r| == |calls|
  {
    if calls == [] then []
    else
      var n := |calls| - 1;
      Outcomes(asleep, calls[..n]) + [Outcome(FinalStates(asleep, calls[..n]), calls[n])]
  }

  lemma {:induction false} OutcomeAt(asleep: seq<bool>, calls: seq<PowerCall>, i: nat)
    requires InRange(asleep, calls) && i < |calls|
    ensures Outcomes(asleep, calls)[i] == Outcome(FinalStates(asleep, calls[..i]), calls[i])
  {
    var n := |calls| - 1;
    if i < n {
      OutcomeAt(asleep, calls[..n], i);
      assert calls[..n][..i] == calls[..i];
    }
  }

  /** On one core, successful wakes and sleeps strictly alternate: between two
      successful calls of the same kind lies a successful call of the other. */
  lemma {:induction false} SuccessesAlternate(asleep: seq<bool>, calls: seq<PowerCall>, i: nat, k: nat)
    requires InRange(asleep, calls) && i < k < |calls| && calls[i].cpu == calls[k].cpu
    requires Outcomes(asleep, calls)[i].Ok? && Outcomes(asleep, calls)[k].Ok?
    requires forall j | i < j < k && calls[j].cpu == calls[i].cpu :: Outcomes(asleep, calls)[j].Err?
    ensures calls[i].MarkAwake? <==> calls[k].MarkAsleep?
  {
    FailuresKeepState(asleep, calls, i, k);
    OutcomeAt(asleep, calls, k);
  }

  /** After a successful call the core stays as that call left it for as long as
      its calls fail. */
  lemma {:induction false} FailuresKeepState(asleep: seq<bool>, calls: seq<PowerCall>, i: nat, k: nat)
    requires InRange(asleep, calls) && i < k <= |calls|
    requires forall j | i < j < k && calls[j].cpu == calls[i].cpu :: Outcomes(asleep, calls)[j].Err?
    ensures FinalStates(asleep, calls[..k])[calls[i].cpu] == calls[i].MarkAsleep?
  {
    assert calls[..k][..k - 1] == calls[..k - 1];
    if k > i + 1 {
      FailuresKeepState(asleep, calls, i, k - 1);
      OutcomeAt(asleep, calls, k - 1);
    }
  }
}
