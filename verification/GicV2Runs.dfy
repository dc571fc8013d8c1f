/** Properties of runs of the GICv2 driver. */
module GicV2Runs {
  import opened IntIds
  import opened GicV2Lines
  import opened GicV2Sgi

  // ---------- GICv2 enables as set algebra ----------

  /** The enabled interrupts. */
  ghost function EnabledIds(lines: seq<Line>): set<nat> {
    set t: nat | t < |lines| && lines[t].enabled
  }

  /** What each call does to the set of enabled interrupts. */
  function EnableSet(implemented: set<nat>, call: Call, s: set<nat>): set<nat> {
    match call
    case EnableInterrupt(id, true) => (s + {id}) * implemented
    case EnableInterrupt(id, false) => s - {id}
    case EnableAll(true) => implemented
    case EnableAll(false) => {}
    case _ => s
  }

  function FoldEnables(implemented: set<nat>, calls: seq<Call>, s: set<nat>): set<nat> {
    if calls == [] then s
    else
      var n := |calls| - 1;
      EnableSet(implemented, calls[n], FoldEnables(implemented, calls[..n], s))
  }

  lemma EnableSetStep(implemented: set<nat>, call: Call, lines: seq<Line>)
    requires Accepted(call) && |lines| == 1024
    requires (forall t | t in implemented :: t < 1024) && EnabledIds(lines) <= implemented
    ensures EnabledIds(Apply(implemented, call, lines)) == EnableSet(implemented, call, EnabledIds(lines))
    ensures EnabledIds(Apply(implemented, call, lines)) <= implemented
  {
    forall t: nat
      ensures t in EnabledIds(Apply(implemented, call, lines)) <==> t in EnableSet(implemented, call, EnabledIds(lines))
    {
      if t < 1024 {
        assert t in EnabledIds(lines) <==> lines[t].enabled;
      }
    }
  }

  /** Over every run, on hardware with any set of implemented interrupts, the
      enabled set is the fold of union, difference and intersection. */
  lemma {:induction false} EnablesAreSetAlgebra(implemented: set<nat>, calls: seq<Call>, lines: seq<Line>)
    requires AllAccepted(calls) && |lines| == 1024
    requires (forall t | t in implemented :: t < 1024) && EnabledIds(lines) <= implemented
    ensures EnabledIds(Run(implemented, calls, lines)) == FoldEnables(implemented, calls, EnabledIds(lines))
    ensures EnabledIds(Run(implemented, calls, lines)) <= implemented
  {
    if calls != [] {
      var n := |calls| - 1;
      EnablesAreSetAlgebra(implemented, calls[..n], lines);
      RunLength(implemented, calls[..n], lines);
      EnableSetStep(implemented, calls[n], Run(implemented, calls[..n], lines));
    }
  }

  // ---------- GICv2 priorities ----------

  /** Does the call write the priority word of interrupt t? */
  predicate WritesPriorityWord(call: Call, t: nat) {
    call.SetPriority? && call.id / 4 == t / 4
  }

  /** Without a write to its word, a priority keeps its first value. */
  lemma {:induction false} PriorityKept(implemented: set<nat>, calls: seq<Call>, lines: seq<Line>, t: nat)
    requires t < |lines|
    requires forall i | 0 <= i < |calls| :: !WritesPriorityWord(calls[i], t)
    ensures |Run(implemented, calls, lines)| == |lines|
    ensures Run(implemented, calls, lines)[t].priority == lines[t].priority
  {
    if calls != [] {
      PriorityKept(implemented, calls[..|calls| - 1], lines, t);
    }
  }

  /** The last write to the word of t decides: its own interrupt reads back the
      priority, and the other three in the word read zero, whatever was written
      to them before. */
  lemma {:induction false} LastWriteOwnsWord(
    implemented: set<nat>, calls: seq<Call>, lines: seq<Line>, t: nat, i: nat)
    requires t < |lines| && i < |calls| && WritesPriorityWord(calls[i], t)
    requires forall j | i < j < |calls| :: !WritesPriorityWord(calls[j], t)
    ensures |Run(implemented, calls, lines)| == |lines|
    ensures Run(implemented, calls, lines)[t].priority == if t == calls[i].id then calls[i].priority else 0
  {
    var n := |calls| - 1;
    RunLength(implemented, calls[..n], lines);
    if i < n {
      LastWriteOwnsWord(implemented, calls[..n], lines, t, i);
    }
  }

  /** From zeroed registers, at most one interrupt of a word has a priority, and
      it is the one written last in that word. */
  lemma OneLanePerWord(implemented: set<nat>, calls: seq<Call>, lines: seq<Line>, s: nat, t: nat)
    requires s < |lines| && t < |lines| && s / 4 == t / 4
    requires lines[s].priority == 0 && lines[t].priority == 0
    ensures |Run(implemented, calls, lines)| == |lines|
    ensures Run(implemented, calls, lines)[s].priority != 0 && Run(implemented, calls, lines)[t].priority != 0 ==>
              s == t
    ensures Run(implemented, calls, lines)[t].priority != 0 ==>
              exists i :: 0 <= i < |calls| && calls[i].SetPriority? && calls[i].id == t
                          && forall j | i < j < |calls| :: !WritesPriorityWord(calls[j], t)
  {
    var i := LastWrite(calls, t);
    if i < 0 {
      PriorityKept(implemented, calls, lines, t);
    } else {
      LastWriteOwnsWord(implemented, calls, lines, t, i);
      LastWriteOwnsWord(implemented, calls, lines, s, i);
    }
  }

  /** The last write to the word of t, or -1. */
  lemma {:induction false} LastWrite(calls: seq<Call>, t: nat) returns (i: int)
    ensures -1 <= i < |calls|
    ensures i >= 0 ==> WritesPriorityWord(calls[i], t)
    ensures forall j | i < j < |calls| :: !WritesPriorityWord(calls[j], t)
  {
    i := |calls| - 1;
    while i >= 0 && !WritesPriorityWord(calls[i], t)
      invariant -1 <= i < |calls|
      invariant forall j | i < j < |calls| :: !WritesPriorityWord(calls[j], t)
    {
      i := i - 1;
    }
  }

  /** Setting a priority does only that, as documented, exactly when the other
      priorities of the word are zero. */
  lemma PriorityAsDocumented(implemented: set<nat>, id: IntId, priority: bv8, lines: seq<Line>)
    requires id < |lines|
    ensures Apply(implemented, SetPriority(id, priority), lines) == lines[id := lines[id].(priority := priority)] <==>
            forall t: nat | t < |lines| && t != id && t / 4 == id / 4 :: lines[t].priority == 0
  {
    var done := Apply(implemented, SetPriority(id, priority), lines);
    var documented := lines[id := lines[id].(priority := priority)];
    forall t: nat | t < |lines|
      ensures done[t] == documented[t] <==> t == id || t / 4 != id / 4 || lines[t].priority == 0
    {
    }
    if done == documented {
      forall t: nat | t < |lines| && t != id && t / 4 == id / 4
        ensures lines[t].priority == 0
      {
        assert done[t] == documented[t];
      }
    }
  }

  /** The documented effect fails: a second priority in a word clears the first. */
  lemma PriorityExample(implemented: set<nat>, lines: seq<Line>)
    requires |lines| == 1024
    ensures var calls := [SetPriority(40, 0x80), SetPriority(41, 0x90)];
            && AllAccepted(calls)
            && |Run(implemented, calls[..1], lines)| == |Run(implemented, calls, lines)| == 1024
            && Run(implemented, calls[..1], lines)[40].priority == 0x80
            && Run(implemented, calls, lines)[40].priority == 0
  {
    var calls := [SetPriority(40, 0x80), SetPriority(41, 0x90)];
    LastWriteOwnsWord(implemented, calls[..1], lines, 40, 0);
    LastWriteOwnsWord(implemented, calls, lines, 40, 1);
  }

  /** No GICv2 call changes the low configuration bit of any interrupt. */
  lemma {:induction false} LowBitNeverChanges(implemented: set<nat>, calls: seq<Call>, lines: seq<Line>, t: nat)
    requires t < |lines|
    ensures |Run(implemented, calls, lines)| == |lines|
    ensures Run(implemented, calls, lines)[t].low == lines[t].low
  {
    if calls != [] {
      LowBitNeverChanges(implemented, calls[..|calls| - 1], lines, t);
    }
  }

  // ---------- setup and software-generated interrupts ----------

  /** A setup puts every interrupt into group 1, which a secure All request does not
      select: it reaches no CPU interface.  A List request does reach its targets. */
  lemma SetupHidesSecureAll(implemented: set<nat>, lines: seq<Line>, intid: IntId, target: SgiTarget)
    requires IsSgi(intid) && intid < |lines|
    ensures var group1 := Apply(implemented, Setup, lines)[intid].group1;
            forall self, cpu ::
              Forwarded(SgiValue(intid, target), SecureAccess, self, cpu, group1) <==>
              target.List? && IsFor(target, self, cpu)
  {
    ValueServesRequest(intid, target);
  }
}
