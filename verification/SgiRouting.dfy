/** Software-generated interrupts of the GICv3: the register value that the
    driver builds, and the cores that the interrupt reaches. */
module SgiRouting {
  import opened IntIds
  import opened TypeRegisters

  datatype SgiTarget =
    | All
    | List(affinity3: bv8, affinity2: bv8, affinity1: bv8, targetList: bv16)

  datatype SgiTargetGroup = Group0 | CurrentGroup1 | OtherGroup1

  /** The low four bits of an identifier. */
  function SgiNumber(intid: IntId): bv4 {
    (intid % 16) as bv4
  }

  /** The 64-bit value written to generate an SGI. */
  function SgiValue(intid: IntId, target: SgiTarget): bv64
    requires IsSgi(intid)
  {
    Packed(SgiNumber(intid), target)
  }

  function Packed(number: bv4, target: SgiTarget): bv64 {
    match target
    case All => ((number as bv64) << 24) | (1 << 40)
    case List(affinity3, affinity2, affinity1, targetList) =>
      (targetList as bv64)
      | ((affinity1 as bv64) << 16)
      | ((number as bv64) << 24)
      | ((affinity2 as bv64) << 32)
      | (0 << 40)
      | ((affinity3 as bv64) << 48)
  }

  // ---------- the layout of ICC_SGI1R_EL1, section 12.2 of Arm IHI 0069H ----------

  datatype SgiFields = SgiFields(
    aff3: bv8, rangeSelector: bv4, irm: bool, aff2: bv8, intid: bv4, aff1: bv8, targetList: bv16)

  function Fields(v: bv64): SgiFields {
    SgiFields(
      ((v >> 48) & 0xff) as bv8, ((v >> 44) & 0xf) as bv4, (v >> 40) & 1 == 1, ((v >> 32) & 0xff) as bv8,
      ((v >> 24) & 0xf) as bv4, ((v >> 16) & 0xff) as bv8, (v & 0xffff) as bv16)
  }

  /** Does the register value v, written by the core with affinity self, send
      the interrupt to the core with affinity a? */
  predicate Reaches(v: bv64, self: Affinity, a: Affinity) {
    var f := Fields(v);
    if f.irm then a != self
    else
      && f.aff3 == a.aff3 && f.aff2 == a.aff2 && f.aff1 == a.aff1
      && (a.aff0 >> 4) as bv4 == f.rangeSelector
      && (f.targetList >> (a.aff0 & 0xf)) & 1 == 1
  }

  /** Each field is where the architecture has it in the word, and all else is zero. */
  lemma ValueBits(number: bv4, target: SgiTarget)
    ensures var v := Packed(number, target);
            && (v >> 24) & 0xf == number as bv64
            && match target
               case All => v & 0xffff_ffff_f0ff_ffff == 0x100_0000_0000
               case List(a3, a2, a1, list) =>
                 && v & 0xffff == list as bv64 && (v >> 16) & 0xff == a1 as bv64
                 && (v >> 32) & 0xff == a2 as bv64 && v >> 48 == a3 as bv64
                 && v & 0xff00_f000_0000 == 0
  {
  }

  /** Decoding a List value gives back every field; decoding All gives IRM set. */
  lemma EncodingRoundTrip(number: bv4, target: SgiTarget)
    ensures Fields(Packed(number, target)) ==
            match target
            case All => SgiFields(0, 0, true, 0, number, 0, 0)
            case List(a3, a2, a1, list) => SgiFields(a3, 0, false, a2, number, a1, list)
  {
  }

  lemma SgiNumberRoundTrip(intid: IntId)
    requires IsSgi(intid)
    ensures SgiNumber(intid) as nat == intid
  {
  }

  /** No two requests share a register value, so All is told from every List. */
  lemma EncodingInjective(i: IntId, s: SgiTarget, j: IntId, t: SgiTarget)
    requires IsSgi(i) && IsSgi(j)
    ensures SgiValue(i, s) == SgiValue(j, t) <==> i == j && s == t
  {
    EncodingRoundTrip(SgiNumber(i), s);
    EncodingRoundTrip(SgiNumber(j), t);
    SgiNumberRoundTrip(i);
    SgiNumberRoundTrip(j);
  }

  /** What a List request reaches: the cores of the named cluster whose level 0
      affinity is below 16 and listed.  Cores from 16 up are out of reach,
      because the range selector is always zero. */
  lemma ListReaches(intid: IntId, target: SgiTarget, self: Affinity, a: Affinity)
    requires IsSgi(intid) && target.List?
    ensures Reaches(SgiValue(intid, target), self, a) <==>
              && target.affinity3 == a.aff3 && target.affinity2 == a.aff2 && target.affinity1 == a.aff1
              && a.aff0 < 16
              && (target.targetList >> a.aff0) & 1 == 1
  {
    EncodingRoundTrip(SgiNumber(intid), target);
    NoRangeSelector(a.aff0);
  }

  lemma NoRangeSelector(aff0: bv8)
    ensures (aff0 >> 4) as bv4 == 0 <==> aff0 < 16
    ensures aff0 < 16 ==> aff0 & 0xf == aff0
  {
  }

  /** All reaches every core but the sender. */
  lemma AllReaches(intid: IntId, self: Affinity, a: Affinity)
    requires IsSgi(intid)
    ensures Reaches(SgiValue(intid, All), self, a) <==> a != self
  {
    EncodingRoundTrip(SgiNumber(intid), All);
  }

  /** The cores a request reaches. */
  predicate IsFor(target: SgiTarget, self: Affinity, a: Affinity) {
    match target
    case All => a != self
    case List(a3, a2, a1, list) =>
      a3 == a.aff3 && a2 == a.aff2 && a1 == a.aff1 && a.aff0 < 16 && (list >> a.aff0) & 1 == 1
  }

  /** The value v asks for interrupt intid, and reaches exactly the cores of the request. */
  ghost predicate Serves(v: bv64, intid: IntId, target: SgiTarget) {
    && Fields(v).intid as nat == intid
    && forall self, a :: Reaches(v, self, a) <==> IsFor(target, self, a)
  }

  /** Such a value in numbers. */
  lemma ServesInFull(v: bv64, intid: IntId, target: SgiTarget)
    requires Serves(v, intid, target)
    ensures Fields(v).intid as nat == intid
    ensures target == All ==> forall self, a :: Reaches(v, self, a) <==> a != self
    ensures target.List? ==>
              forall self, a ::
                Reaches(v, self, a) <==>
                  && target.affinity3 == a.aff3 && target.affinity2 == a.aff2 && target.affinity1 == a.aff1
                  && a.aff0 < 16 && (target.targetList >> a.aff0) & 1 == 1
  {
  }

  lemma ValueServesRequest(intid: IntId, target: SgiTarget)
    requires IsSgi(intid)
    ensures Serves(SgiValue(intid, target), intid, target)
  {
    ValueHasNumber(intid, target);
    ValueReaches(SgiValue(intid, target), intid, target);
  }

  lemma ValueHasNumber(intid: IntId, target: SgiTarget)
    requires IsSgi(intid)
    ensures Fields(SgiValue(intid, target)).intid as nat == intid
  {
    SgiNumberRoundTrip(intid);
    EncodingRoundTrip(SgiNumber(intid), target);
  }

  lemma ValueReaches(v: bv64, intid: IntId, target: SgiTarget)
    requires IsSgi(intid) && v == SgiValue(intid, target)
    ensures forall self, a :: Reaches(v, self, a) <==> IsFor(target, self, a)
  {
    forall self, a
      ensures Reaches(v, self, a) <==> IsFor(target, self, a)
    {
      ValueReachesCore(intid, target, self, a);
    }
  }

  lemma ValueReachesCore(intid: IntId, target: SgiTarget, self: Affinity, a: Affinity)
    requires IsSgi(intid)
    ensures Reaches(SgiValue(intid, target), self, a) <==> IsFor(target, self, a)
  {
    match target
    case All => AllReaches(intid, self, a);
    case List(_, _, _, _) => ListReaches(intid, target, self, a);
  }

  /** The request for one core, built from the MPIDR its redistributor reports. */
  function TargetOf(mpidr: bv64): SgiTarget {
    var a := MpidrAffinity(mpidr);
    List(a.aff3, a.aff2, a.aff1, if a.aff0 < 16 then 1 << a.aff0 else 0)
  }

  /** An SGI built from a redistributor's MPIDR reaches that redistributor's
      core and no core of another affinity; with level 0 affinity 16 or more it
      reaches nobody. */
  lemma SgiReachesItsRedistributor(intid: IntId, typer: bv64, self: Affinity, other: bv64)
    requires IsSgi(intid)
    ensures Reaches(SgiValue(intid, TargetOf(CoreMpidr(typer))), self, AffinityValue(other)) <==>
              && AffinityValue(typer) == AffinityValue(other)
              && AffinityValue(typer).aff0 < 16
  {
    var a, b := AffinityValue(typer), AffinityValue(other);
    MpidrRoundTrip(a);
    ListReaches(intid, TargetOf(Mpidr(a)), self, b);
    if a.aff0 < 16 && b.aff0 < 16 {
      OneTarget(a.aff0, b.aff0);
    } else if b.aff0 < 16 {
      assert (0 as bv16 >> b.aff0) & 1 == 0;
    }
  }

  lemma OneTarget(j: bv8, k: bv8)
    requires j < 16 && k < 16
    ensures (((1 as bv16) << j) >> k) & 1 == 1 <==> j == k
  {
  }

  /** In a collection of redistributors with distinct affinities, exactly the
      addressed one is reached. */
  lemma SgiReachesExactlyOne(intid: IntId, typers: seq<bv64>, self: Affinity, r: nat)
    requires IsSgi(intid) && r < |typers|
    requires forall i, j | 0 <= i < j < |typers| :: AffinityValue(typers[i]) != AffinityValue(typers[j])
    requires AffinityValue(typers[r]).aff0 < 16
    ensures forall i | 0 <= i < |typers| ::
              Reaches(SgiValue(intid, TargetOf(CoreMpidr(typers[r]))), self, AffinityValue(typers[i])) <==> i == r
  {
    forall i | 0 <= i < |typers|
      ensures Reaches(SgiValue(intid, TargetOf(CoreMpidr(typers[r]))), self, AffinityValue(typers[i])) <==> i == r
    {
      SgiReachesItsRedistributor(intid, typers[r], self, typers[i]);
    }
  }
}
