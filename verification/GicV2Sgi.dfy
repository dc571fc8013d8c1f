/** Software-generated interrupts of the GICv2: the register value that the
    driver builds, and the CPU interfaces that the interrupt reaches. */
module GicV2Sgi {
  import opened IntIds

  datatype SgiTargetListFilter = CPUTargetList | ForwardOthersOnly | ForwardSelfOnly

  datatype SgiTarget =
    | All
    | List(filter: SgiTargetListFilter, targetList: bv16)

  function FilterCode(filter: SgiTargetListFilter): bv32 {
    match filter
    case CPUTargetList => 0
    case ForwardOthersOnly => 1
    case ForwardSelfOnly => 2
  }

  /** The low four bits of an identifier. */
  function SgiNumber(intid: IntId): bv4 {
    (intid % 16) as bv4
  }

  /** The value written to generate an SGI. */
  function SgiValue(intid: IntId, target: SgiTarget): bv32
    requires IsSgi(intid)
  {
    Packed(SgiNumber(intid), target)
  }

  function Packed(number: bv4, target: SgiTarget): bv32 {
    match target
    case All => (number as bv32) | (0xff << 16)
    case List(filter, targetList) =>
      (number as bv32)
      | (FilterCode(filter) << 24)
      | (((targetList & 0xff) as bv32) << 16)
      | (1 << 15)
  }

  // ---------- the layout of GICD_SGIR, section 4.3.15 of Arm IHI 0048B ----------

  datatype SgiFields = SgiFields(filter: bv2, targetList: bv8, nsatt: bool, intid: bv4)

  function Fields(v: bv32): SgiFields {
    SgiFields(((v >> 24) & 3) as bv2, ((v >> 16) & 0xff) as bv8, (v >> 15) & 1 == 1, (v & 0xf) as bv4)
  }

  /** Does a write with these fields, by CPU interface self, name CPU interface cpu? */
  predicate Names(f: SgiFields, self: bv3, cpu: bv3) {
    match f.filter
    case 0 => (f.targetList >> cpu) & 1 == 1
    case 1 => cpu != self
    case 2 => cpu == self
    case _ => false
  }

  /** How the distributor is written: without the Security Extensions, or with
      them and from one of the two security states. */
  datatype Access = NoSecurity | SecureAccess | NonSecureAccess

  /** Is the interrupt forwarded to CPU interface cpu, where it is in group 1 or
      in group 0?  A secure write selects one of the groups by NSATT, and a
      non-secure write reaches group 1 only. */
  predicate Forwarded(v: bv32, access: Access, self: bv3, cpu: bv3, group1: bool) {
    && Names(Fields(v), self, cpu)
    && match access
       case NoSecurity => true
       case SecureAccess => Fields(v).nsatt == group1
       case NonSecureAccess => group1
  }

  /** Each field is where the architecture has it in the word, and all else is zero. */
  lemma ValueBits(number: bv4, target: SgiTarget)
    ensures var v := Packed(number, target);
            && v & 0xf == number as bv32
            && match target
               case All => v >> 4 == 0xff000
               case List(filter, list) =>
                 && (v >> 16) & 0xff == (list as bv32) & 0xff
                 && (v >> 4) & 0xfff == 0x800
                 && v >> 24 == match filter
                               case CPUTargetList => 0
                               case ForwardOthersOnly => 1
                               case ForwardSelfOnly => 2
  {
  }

  /** Decoding gives back every field.  A List request selects group 1 and an All
      request group 0. */
  lemma EncodingRoundTrip(number: bv4, target: SgiTarget)
    ensures Fields(Packed(number, target)) ==
            match target
            case All => SgiFields(0, 0xff, false, number)
            case List(filter, list) => SgiFields(FilterCode(filter) as bv2, (list & 0xff) as bv8, true, number)
  {
  }

  lemma SgiNumberRoundTrip(intid: IntId)
    requires IsSgi(intid)
    ensures SgiNumber(intid) as nat == intid
  {
  }

  // ---------- what a request reaches ----------

  /** The CPU interfaces a request is for, as the code has it. */
  predicate IsFor(target: SgiTarget, self: bv3, cpu: bv3) {
    match target
    case All => true
    case List(CPUTargetList, list) => (list >> cpu) & 1 == 1
    case List(ForwardOthersOnly, _) => cpu != self
    case List(ForwardSelfOnly, _) => cpu == self
  }

  /** The groups a request reaches. */
  predicate GroupReached(target: SgiTarget, access: Access, group1: bool) {
    match access
    case NoSecurity => true
    case SecureAccess => target.List? <==> group1
    case NonSecureAccess => group1
  }

  /** The value v asks for interrupt intid, and is forwarded to exactly the CPU
      interfaces and groups of the request. */
  ghost predicate Serves(v: bv32, intid: IntId, target: SgiTarget) {
    && Fields(v).intid as nat == intid
    && forall access, self, cpu, group1 ::
         Forwarded(v, access, self, cpu, group1) <==> IsFor(target, self, cpu) && GroupReached(target, access, group1)
  }

  /** Such a value spelled out: a List request reaches the CPU interfaces of its
      filter where the interrupt is in group 1, an All request every one of them where
      a secure write finds it in group 0.  Without security states the group is no matter. */
  lemma ServesInFull(v: bv32, intid: IntId, target: SgiTarget, self: bv3, cpu: bv3, group1: bool)
    requires Serves(v, intid, target)
    ensures Fields(v).intid as nat == intid
    ensures var selected := target == All || match target.filter
                                             case CPUTargetList => (target.targetList >> cpu) & 1 == 1
                                             case ForwardOthersOnly => cpu != self
                                             case ForwardSelfOnly => cpu == self;
            && (Forwarded(v, NoSecurity, self, cpu, group1) <==> selected)
            && (Forwarded(v, SecureAccess, self, cpu, group1) <==> selected && (target.List? <==> group1))
            && (Forwarded(v, NonSecureAccess, self, cpu, group1) <==> selected && group1)
  {
  }

  lemma ValueServesRequest(intid: IntId, target: SgiTarget)
    requires IsSgi(intid)
    ensures Serves(SgiValue(intid, target), intid, target)
  {
    SgiNumberRoundTrip(intid);
    forall access, self, cpu, group1
      ensures Forwarded(SgiValue(intid, target), access, self, cpu, group1) <==>
              IsFor(target, self, cpu) && GroupReached(target, access, group1)
    {
      PackedForwarded(SgiNumber(intid), target, access, self, cpu, group1);
    }
    EncodingRoundTrip(SgiNumber(intid), target);
  }

  lemma PackedForwarded(number: bv4, target: SgiTarget, access: Access, self: bv3, cpu: bv3, group1: bool)
    ensures Forwarded(Packed(number, target), access, self, cpu, group1) <==>
            IsFor(target, self, cpu) && GroupReached(target, access, group1)
  {
    EncodingRoundTrip(number, target);
    match target
    case All => AllListed(cpu);
    case List(_, list) => LowListed(list, cpu);
  }

  lemma AllListed(cpu: bv3)
    ensures ((0xff as bv8) >> cpu) & 1 == 1
  {
  }

  lemma LowListed(list: bv16, cpu: bv3)
    ensures (((list & 0xff) as bv8) >> cpu) & 1 == 1 <==> (list >> cpu) & 1 == 1
  {
  }

  /** What each filter of a List request selects. */
  lemma ListReaches(intid: IntId, list: bv16, self: bv3, cpu: bv3)
    requires IsSgi(intid)
    ensures Names(Fields(SgiValue(intid, List(CPUTargetList, list))), self, cpu) <==> (list >> cpu) & 1 == 1
    ensures Names(Fields(SgiValue(intid, List(ForwardOthersOnly, list))), self, cpu) <==> cpu != self
    ensures Names(Fields(SgiValue(intid, List(ForwardSelfOnly, list))), self, cpu) <==> cpu == self
  {
    EncodingRoundTrip(SgiNumber(intid), List(CPUTargetList, list));
    EncodingRoundTrip(SgiNumber(intid), List(ForwardOthersOnly, list));
    EncodingRoundTrip(SgiNumber(intid), List(ForwardSelfOnly, list));
    LowListed(list, cpu);
  }

  /** All is documented as leaving out the sending core.  For every sender the set
      it reaches is another one, since it contains the sender; the filter
      ForwardOthersOnly reaches the documented set. */
  lemma AllReachesSender(intid: IntId, self: bv3)
    requires IsSgi(intid)
    ensures exists cpu :: Forwarded(SgiValue(intid, All), NoSecurity, self, cpu, true) != (cpu != self)
    ensures forall cpu ::
              Forwarded(SgiValue(intid, List(ForwardOthersOnly, 0)), NoSecurity, self, cpu, true) == (cpu != self)
  {
    ValueServesRequest(intid, All);
    ValueServesRequest(intid, List(ForwardOthersOnly, 0));
    assert Forwarded(SgiValue(intid, All), NoSecurity, self, self, true);
  }
}
