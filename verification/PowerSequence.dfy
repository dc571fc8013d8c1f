/** The power-on and power-off sequences of a GIC-600 or GIC-700 redistributor
    through GICR_PWRR.

    The hardware owns the register.  At every instant, that is at every register
    access of the driver and at every turn of its waiting loop, the register has
    whatever value the hardware gives it; a run is observed for as long as the
    given sequence of values lasts. */
module PowerSequence {

  /** GICR_PWRR, as its four flags. */
  datatype Pwrr = Pwrr(groupPoweredOff: bool, groupPowerDown: bool, applyGroup: bool, powerDown: bool)
  {
    /** The group has not reached its intended power state. */
    predicate InTransit() {
      groupPowerDown != groupPoweredOff
    }
  }

  /** The value written to power a redistributor on. */
  const EMPTY: Pwrr := Pwrr(false, false, false, false)

  /** The value written to power it off. */
  const POWER_DOWN: Pwrr := Pwrr(false, false, false, true)

  function FromBits(v: bv32): Pwrr {
    Pwrr(v & 0x8 != 0, v & 0x4 != 0, v & 0x2 != 0, v & 0x1 != 0)
  }

  lemma WrittenFlags()
    ensures FromBits(0) == EMPTY && FromBits(0x1) == POWER_DOWN
  {
  }

  /** A register word is in transit exactly when its bits 2 and 3 differ. */
  lemma InTransitBits(v: bv32)
    ensures FromBits(v).InTransit() <==> v & 0xc == 0x4 || v & 0xc == 0x8
    ensures FromBits(v).groupPowerDown <==> v & 0x4 != 0
    ensures FromBits(v).powerDown <==> v & 0x1 != 0
  {
  }

  datatype Outcome =
    | Returned
    | StillRunning

  /** A software write and the number of values read or passed before it. */
  datatype Write = Write(instant: nat, value: Pwrr)

  /** The register, with the values it takes from now on until the end of the
      observation. */
  class PowerRegister {
    var instant: nat
    const values: seq<Pwrr>
    var writes: seq<Write>

    constructor (values: seq<Pwrr>)
      ensures this.values == values && instant == 0 && writes == []
    {
      this.values := values;
      instant := 0;
      writes := [];
    }

    ghost predicate Valid()
      reads this
    {
      instant <= |values|
    }

    /** One more instant passes, unless the observation is over. */
    method Read() returns (v: Pwrr)
      requires instant < |values|
      modifies this`instant
      ensures instant == old(instant) + 1 && v == values[old(instant)]
    {
      v := values[instant];
      instant := instant + 1;
    }

    method Store(v: Pwrr)
      requires instant < |values|
      modifies this
      ensures instant == old(instant) + 1
      ensures writes == old(writes) + [Write(old(instant), v)]
    {
      writes := writes + [Write(instant, v)];
      instant := instant + 1;
    }

    /** The values from now on. */
    ghost function Future(): seq<Pwrr>
      requires Valid()
      reads this
    {
      values[instant..]
    }

    /** Waits for the group to be out of transit.  The register is read once, and
        the loop tests that one sample. */
    method WaitUntilGroupNotInTransit() returns (r: Outcome)
      requires Valid()
      modifies this`instant
      ensures Valid()
      ensures r == if old(instant) < |values| && !values[old(instant)].InTransit() then Returned else StillRunning
      ensures r.Returned? ==> values[old(instant)].groupPowerDown == values[old(instant)].groupPoweredOff
      ensures r.Returned? ==> instant == old(instant) + 1
      ensures r.StillRunning? ==> instant == |values|
    {
      if instant == |values| {
        return StillRunning;
      }
      var pwrr := Read();
      while pwrr.groupPowerDown != pwrr.groupPoweredOff
        invariant Valid()
        invariant !pwrr.InTransit() ==> instant == old(instant) + 1
        decreases |values| - instant
      {
        if instant == |values| {
          return StillRunning;
        }
        instant := instant + 1;
      }
      r := Returned;
    }

    /** Powers the redistributor on, retrying until the hardware accepts. */
    method PowerOn() returns (r: Outcome)
      requires Valid()
      modifies this
      ensures Valid() && instant >= old(instant)
      ensures r.Returned? <==> OnReturns(old(Future()))
      ensures forall n: nat | OnReturnsAt(old(Future()), n) :: instant == old(instant) + 3 * n + 3
      ensures OnWrites(old(Future()), old(instant), old(writes), writes)
      ensures forall n: nat | OnReturnsAt(old(Future()), n) :: |writes| == |old(writes)| + n + 1
      // Every write is of zero.
      ensures forall i | |old(writes)| <= i < |writes| :: writes[i].value == FromBits(0)
    {
      WrittenFlags();
      ghost var start, future := instant, Future();
      ghost var round: nat := 0;
      while true
        invariant Valid() && instant == start + 3 * round
        invariant |writes| == |old(writes)| + round && OnWrites(future, start, old(writes), writes)
        invariant forall i: nat | i < round :: OnRefused(future, i)
        invariant forall i | |old(writes)| <= i < |writes| :: writes[i].value == EMPTY
        decreases |values| - instant
      {
        r := WaitUntilGroupNotInTransit();
        if r.StillRunning? || instant == |values| {
          NoReturn(future, round);
          return StillRunning;
        }
        Store(EMPTY);
        if instant == |values| {
          NoReturn(future, round);
          return StillRunning;
        }
        var v := Read();
        if !v.powerDown {
          assert OnReturnsAt(future, round);
          ReturnIsUnique(future, round);
          return Returned;
        }
        round := round + 1;
      }
    }

    /** Powers the redistributor off. */
    method PowerOff() returns (r: Outcome)
      requires Valid()
      modifies this
      ensures Valid() && instant >= old(instant)
      ensures r.Returned? <==> OffReturns(old(Future()))
      ensures writes == old(writes) + OffWrites(old(Future()), old(instant))
      // RDPD is written, exactly when the first sample is settled and the write is still observed.
      ensures var s := old(instant);
              writes == if s + 1 < |values| && values[s].groupPowerDown == values[s].groupPoweredOff
                then old(writes) + [Write(s + 1, FromBits(0x1))]
                else old(writes)
    {
      WrittenFlags();
      r := WaitUntilGroupNotInTransit();
      if r.StillRunning? || instant == |values| {
        return StillRunning;
      }
      Store(POWER_DOWN);
      if instant == |values| {
        return StillRunning;
      }
      var v := Read();
      if v.groupPowerDown {
        r := WaitUntilGroupNotInTransit();
      }
    }
  }

  // ---------- when power-on returns ----------

  /** The writes of a power-on that starts at the given instant: each writes the
      empty value, right after a settled sample. */
  ghost predicate OnWrites(future: seq<Pwrr>, start: nat, was: seq<Write>, now: seq<Write>) {
    && |now| >= |was| && now[..|was|] == was
    && forall i: nat | i < |now| - |was| ::
         3 * i + 1 < |future| && now[|was| + i] == Write(start + 3 * i + 1, EMPTY) && !future[3 * i].InTransit()
  }

  /** Such writes spelled out. */
  lemma OnWritesInFull(future: seq<Pwrr>, start: nat, was: seq<Write>, now: seq<Write>)
    requires OnWrites(future, start, was, now)
    ensures |now| >= |was| && now[..|was|] == was
    ensures forall i | |was| <= i < |now| ::
              var k := 3 * (i - |was|);
              && k + 1 < |future|
              && future[k].groupPowerDown == future[k].groupPoweredOff
              && now[i] == Write(start + k + 1, FromBits(0))
  {
    WrittenFlags();
    forall i | |was| <= i < |now|
      ensures var k := 3 * (i - |was|);
              && k + 1 < |future|
              && future[k].groupPowerDown == future[k].groupPoweredOff
              && now[i] == Write(start + k + 1, FromBits(0))
    {
      assert now[i] == now[|was| + (i - |was|)];
    }
  }

  /** Round i sampled a settled group, wrote, and read that the hardware has refused. */
  predicate OnRefused(values: seq<Pwrr>, i: nat) {
    3 * i + 2 < |values| && !values[3 * i].InTransit() && values[3 * i + 2].powerDown
  }

  /** Power-on returns at the end of round n: its check reads RDPD as zero. */
  predicate OnReturnsAt(values: seq<Pwrr>, n: nat) {
    && (forall i: nat | i < n :: OnRefused(values, i))
    && 3 * n + 2 < |values|
    && !values[3 * n].InTransit()
    && !values[3 * n + 2].powerDown
  }

  ghost predicate OnReturns(values: seq<Pwrr>) {
    exists n: nat :: OnReturnsAt(values, n)
  }

  /** The accesses spelled out: they go round in threes, every sample finds the group
      where it intends to be, every check but the last finds RDPD set, and the last
      finds it clear. */
  lemma OnReturnsSpelledOut(values: seq<Pwrr>, n: nat)
    ensures OnReturnsAt(values, n) <==>
              && 3 * n + 2 < |values|
              && (forall k | 0 <= k <= 3 * n && k % 3 == 0 :: values[k].groupPowerDown == values[k].groupPoweredOff)
              && (forall k | 0 <= k <= 3 * n + 2 && k % 3 == 2 :: values[k].powerDown <==> k < 3 * n + 2)
  {
    if OnReturnsAt(values, n) {
      forall k | 0 <= k <= 3 * n + 2
        ensures k % 3 == 0 ==> values[k].groupPowerDown == values[k].groupPoweredOff
        ensures k % 3 == 2 ==> (values[k].powerDown <==> k < 3 * n + 2)
      {
        assert k / 3 < n ==> OnRefused(values, k / 3);
      }
    }
  }

  /** Once a round neither completes nor is refused, no later round is reached. */
  lemma NoReturn(values: seq<Pwrr>, round: nat)
    requires forall i: nat | i < round :: OnRefused(values, i)
    requires 3 * round + 2 >= |values| || values[3 * round].InTransit()
    ensures !OnReturns(values)
  {
    forall n: nat
      ensures !OnReturnsAt(values, n)
    {
      if n < round {
        assert OnRefused(values, n);
      } else if round < n {
        assert !OnRefused(values, round);
      }
    }
  }

  lemma ReturnIsUnique(values: seq<Pwrr>, n: nat)
    requires OnReturnsAt(values, n)
    ensures forall m: nat | OnReturnsAt(values, m) :: m == n
  {
    forall m: nat | OnReturnsAt(values, m)
      ensures m == n
    {
      assert m < n ==> OnRefused(values, m);
      assert n < m ==> OnRefused(values, n);
    }
  }

  /** How many of the first n checks find the write refused. */
  function Refusals(values: seq<Pwrr>, n: nat): nat
    requires 3 * n <= |values|
  {
    if n == 0 then 0
    else Refusals(values, n - 1) + if values[3 * n - 1].powerDown then 1 else 0
  }

  predicate SamplesSettled(values: seq<Pwrr>, n: nat)
    requires 3 * n <= |values|
  {
    forall i: nat | i < n :: !values[3 * i].InTransit()
  }

  /** If the samples are settled and the hardware refuses at most r of the writes
      in r + 1 rounds, power-on returns within those rounds. */
  lemma PowerOnTerminates(values: seq<Pwrr>, r: nat)
    requires 3 * (r + 1) <= |values|
    requires SamplesSettled(values, r + 1) && Refusals(values, r + 1) <= r
    ensures exists n: nat :: n <= r && OnReturnsAt(values, n)
  {
    var n := FirstAccepted(values, r + 1);
    if n == r + 1 {
      assert false;
    }
    assert OnReturnsAt(values, n);
  }

  /** The first round, among n, that is not refused; n if there is none. */
  lemma {:induction false} FirstAccepted(values: seq<Pwrr>, n: nat) returns (k: nat)
    requires 3 * n <= |values| && SamplesSettled(values, n)
    ensures k <= n
    ensures forall i: nat | i < k :: OnRefused(values, i)
    ensures if k < n then !values[3 * k + 2].powerDown else Refusals(values, n) == n
  {
    if n == 0 {
      k := 0;
    } else {
      k := FirstAccepted(values, n - 1);
      if k == n - 1 && values[3 * n - 1].powerDown {
        k := n;
      }
    }
  }

  /** From an in-transit sample nothing the hardware does lets power-on return:
      the waiting loop tests the one sample it took. */
  lemma PowerOnStuck(values: seq<Pwrr>, n: nat, later: seq<Pwrr>)
    requires 3 * n < |values| && values[3 * n].InTransit()
    requires forall i: nat | i < n :: OnRefused(values, i)
    ensures !OnReturns(values + later)
  {
    forall i: nat | i < n
      ensures OnRefused(values + later, i)
    {
      assert OnRefused(values, i);
    }
    NoReturn(values + later, n);
  }

  /** The stale sample: an in-transit sample with nothing but settled, powered-up
      values after it.  Reading again would let power-on return, and it does not. */
  lemma StaleSampleExample(values: seq<Pwrr>)
    requires |values| >= 1 && values[0] == Pwrr(false, true, false, true)
    requires forall i | 1 <= i < |values| :: values[i] == EMPTY
    ensures !OnReturns(values)
    ensures |values| >= 4 ==> OnReturns(values[1..])
  {
    NoReturn(values, 0);
    if |values| >= 4 {
      assert OnReturnsAt(values[1..], 0);
    }
  }

  // ---------- when power-off returns ----------

  /** Power-off returns after its check when that reads RDGPD as zero, and
      otherwise after one more sample, which must be settled. */
  predicate OffReturns(values: seq<Pwrr>) {
    && |values| >= 3
    && !values[0].InTransit()
    && (values[2].groupPowerDown ==> |values| >= 4 && !values[3].InTransit())
  }

  /** The writes of a power-off that starts at the given instant: one, of RDPD,
      right after a settled sample. */
  function OffWrites(future: seq<Pwrr>, start: nat): seq<Write> {
    if |future| >= 2 && !future[0].InTransit() then [Write(start + 1, POWER_DOWN)] else []
  }

  /** Whether power-off ever returns is settled by its first four accesses: over
      all longer observations, it returns exactly when each sample it takes is settled. */
  lemma PowerOffDecided(values: seq<Pwrr>, later: seq<Pwrr>)
    requires |values| >= 4
    ensures OffReturns(values + later) <==> OffReturns(values)
    ensures OffReturns(values + later) <==>
              !values[0].InTransit() && !(values[2].groupPowerDown && values[3].InTransit())
  {
    assert forall i | 0 <= i < 4 :: (values + later)[i] == values[i];
  }
}
