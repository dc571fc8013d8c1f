/** Read-only identification registers: the fields the drivers decode. */
module TypeRegisters {
  import opened IntIds

  // ---------- GICD_TYPER ----------

  function ItLines(typer: bv32): nat {
    (typer & 0x1f) as nat
  }

  /** How many SPIs the distributor implements. */
  function NumSpis(typer: bv32): nat {
    if 32 * ItLines(typer) < MAX_SPI_COUNT then 32 * ItLines(typer) else MAX_SPI_COUNT
  }

  lemma NumSpisBound(typer: bv32)
    ensures NumSpis(typer) <= MAX_SPI_COUNT
  {
  }

  /** The SPI count fills whole words of 32, except at the cap, where the last
      of 31 words holds 28. */
  lemma NumSpisShape(typer: bv32)
    ensures NumSpis(typer) < MAX_SPI_COUNT ==> NumSpis(typer) / 32 == (typer & 0x1f) as nat
    ensures NumSpis(typer) % 32 == if NumSpis(typer) == MAX_SPI_COUNT then 28 else 0
    ensures NumSpis(typer) == MAX_SPI_COUNT <==> typer & 0x1f == 0x1f
  {
    var lines := typer & 0x1f;
    assert lines <= 0x1f;
    assert ItLines(typer) <= 31;
    assert lines == 0x1f <==> ItLines(typer) == 31;
  }

  // ---------- GICR_IIDR ----------

  const MODEL_ID_ARM_GIC_600: bv32 := 0x0200_043b
  const MODEL_ID_ARM_GIC_600AE: bv32 := 0x0300_043b
  const MODEL_ID_ARM_GIC_700: bv32 := 0x0400_043b

  function ModelId(iidr: bv32): bv32 {
    iidr & (0xff00_0000 | 0xfff)
  }

  predicate NeedsPowerManagement(iidr: bv32) {
    || ModelId(iidr) == MODEL_ID_ARM_GIC_600
    || ModelId(iidr) == MODEL_ID_ARM_GIC_600AE
    || ModelId(iidr) == MODEL_ID_ARM_GIC_700
  }

  /** The models are told by implementer and product alone: Arm's products 2, 3
      and 4, of any variant and revision. */
  lemma PowerManagedModels(product: bv8, variantAndRevision: bv12, implementer: bv12)
    ensures NeedsPowerManagement(
              ((product as bv32) << 24) | ((variantAndRevision as bv32) << 12) | (implementer as bv32)) <==>
              implementer == 0x43b && 2 <= product <= 4
  {
  }

  // ---------- GICR_TYPER ----------

  predicate VirtualLpisSupported(typer: bv64) {
    typer & 2 != 0
  }

  /** Affinity levels 3 to 0 of a core. */
  datatype Affinity = Affinity(aff3: bv8, aff2: bv8, aff1: bv8, aff0: bv8)

  function AffinityValue(typer: bv64): Affinity {
    var v := ((typer >> 32) & 0xffff_ffff) as bv32;
    Affinity((v >> 24) as bv8, ((v >> 16) & 0xff) as bv8, ((v >> 8) & 0xff) as bv8, (v & 0xff) as bv8)
  }

  /** The levels as fields of the type register. */
  lemma AffinityBits(typer: bv64)
    ensures AffinityValue(typer).aff0 as bv64 == (typer >> 32) & 0xff
    ensures AffinityValue(typer).aff1 as bv64 == (typer >> 40) & 0xff
    ensures AffinityValue(typer).aff2 as bv64 == (typer >> 48) & 0xff
    ensures AffinityValue(typer).aff3 as bv64 == typer >> 56
  {
  }

  /** The MPIDR_EL1 form of an affinity: levels 2 to 0 in the low 24 bits, level 3
      in bits 39 to 32. */
  function Mpidr(a: Affinity): bv64 {
    (a.aff0 as bv64) | ((a.aff1 as bv64) << 8) | ((a.aff2 as bv64) << 16) | ((a.aff3 as bv64) << 32)
  }

  function CoreMpidr(typer: bv64): bv64 {
    Mpidr(AffinityValue(typer))
  }

  /** Levels 2 to 0 are bits 55 to 32 of the type register, and level 3 its top byte. */
  lemma CoreMpidrBits(typer: bv64)
    ensures CoreMpidr(typer) & 0xff_ffff == (typer >> 32) & 0xff_ffff
    ensures CoreMpidr(typer) >> 32 == typer >> 56
  {
  }

  /** The affinity fields of an MPIDR_EL1 value, as software reads them. */
  function MpidrAffinity(mpidr: bv64): Affinity {
    Affinity(
      ((mpidr >> 32) & 0xff) as bv8, ((mpidr >> 16) & 0xff) as bv8,
      ((mpidr >> 8) & 0xff) as bv8, (mpidr & 0xff) as bv8)
  }

  /** Re-spacing an affinity loses nothing and sets no other MPIDR bit. */
  lemma MpidrRoundTrip(a: Affinity)
    ensures MpidrAffinity(Mpidr(a)) == a
    ensures Mpidr(a) & !0xff_00ff_ffff == 0
  {
  }

  /** Two redistributors report the same MPIDR exactly when they serve the same affinity. */
  lemma MpidrIdentifiesCore(s: bv64, t: bv64)
    ensures CoreMpidr(s) == CoreMpidr(t) <==> AffinityValue(s) == AffinityValue(t)
  {
    MpidrRoundTrip(AffinityValue(s));
    MpidrRoundTrip(AffinityValue(t));
  }
}
