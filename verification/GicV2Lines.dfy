/** The meaning of the GICv2 distributor: one line of settings for each interrupt,
    and the effect of each driver call on one line. */
module GicV2Lines {
  import opened IntIds
  import Configuration

  /** Everything the distributor holds about one interrupt. */
  datatype Line = Line(enabled: bool, group1: bool, low: bool, edge: bool, priority: bv8)
  {
    function Trigger(): Configuration.Trigger {
      if edge then Configuration.Edge else Configuration.Level
    }
  }

  datatype Call =
    | EnableInterrupt(id: IntId, on: bool)
    | EnableAll(on: bool)
    | SetPriority(id: IntId, priority: bv8)
    | SetTrigger(id: IntId, trigger: Configuration.Trigger)
    | Setup

  /** Outside this the driver panics, indexing past a register array. */
  predicate Accepted(call: Call) {
    call.EnableAll? || call.Setup? || call.id < SPECIAL_END
  }

  /** The effect of a call on line t of hardware that implements the given interrupts. */
  function Effect(implemented: set<nat>, call: Call, t: nat, l: Line): Line {
    match call
    case EnableInterrupt(id, true) => if t == id && t in implemented then l.(enabled := true) else l
    case EnableInterrupt(id, false) => if t == id then l.(enabled := false) else l
    case EnableAll(true) => l.(enabled := l.enabled || t in implemented)
    case EnableAll(false) => l.(enabled := false)
    case SetPriority(id, p) =>
      // The write covers the word of four priorities.
      if t == id then l.(priority := p) else if t / 4 == id / 4 then l.(priority := 0) else l
    case SetTrigger(id, trigger) => if t == id then l.(edge := trigger.Edge?) else l
    case Setup => l.(group1 := true)
  }

  function Apply(implemented: set<nat>, call: Call, lines: seq<Line>): seq<Line> {
    seq(|lines|, t requires 0 <= t < |lines| => Effect(implemented, call, t, lines[t]))
  }

  /** What each call does to the whole of the lines. */
  lemma CallsInFull(implemented: set<nat>, call: Call, lines: seq<Line>)
    requires |lines| == 1024 && Accepted(call)
    requires forall t | 0 <= t < 1024 && lines[t].enabled :: t in implemented
    ensures var after := Apply(implemented, call, lines);
            match call
            case EnableInterrupt(id, on) =>
              after == if on && id !in implemented then lines else lines[id := lines[id].(enabled := on)]
            case EnableAll(on) =>
              after == seq(1024, t requires 0 <= t < 1024 => lines[t].(enabled := on && t in implemented))
            case SetPriority(id, p) =>
              after == seq(1024, t requires 0 <= t < 1024 =>
                if t == id then lines[t].(priority := p)
                else if t / 4 == id / 4 then lines[t].(priority := 0)
                else lines[t])
            case SetTrigger(id, trigger) => after == lines[id := lines[id].(edge := trigger == Configuration.Edge)]
            case Setup => after == seq(1024, t requires 0 <= t < 1024 => lines[t].(group1 := true))
  {
  }

  function Run(implemented: set<nat>, calls: seq<Call>, lines: seq<Line>): seq<Line> {
    if calls == [] then lines
    else
      var n := |calls| - 1;
      Apply(implemented, calls[n], Run(implemented, calls[..n], lines))
  }

  predicate AllAccepted(calls: seq<Call>) {
    forall i | 0 <= i < |calls| :: Accepted(calls[i])
  }

  lemma {:induction false} RunLength(implemented: set<nat>, calls: seq<Call>, lines: seq<Line>)
    ensures |Run(implemented, calls, lines)| == |lines|
  {
    if calls != [] {
      RunLength(implemented, calls[..|calls| - 1], lines);
    }
  }
}
