/** Interrupt identifiers: the ranges of the identifier space, the constructors
    and classifiers of each range, and the text by which an identifier prints. */
module IntIds {

  type IntId = id: nat | id < 0x1_0000_0000

  const SGI_START: IntId := 0
  const PPI_START: IntId := 16
  const SPI_START: IntId := 32
  const SPECIAL_START: IntId := 1020
  const SPECIAL_END: IntId := 1024
  const EPPI_START: IntId := 1056
  const EPPI_END: IntId := 1120
  const ESPI_START: IntId := 4096
  const ESPI_END: IntId := 5120
  const LPI_START: IntId := 8192

  const SGI_COUNT: nat := PPI_START - SGI_START
  const PPI_COUNT: nat := SPI_START - PPI_START
  const MAX_SPI_COUNT: nat := SPECIAL_START - SPI_START
  const MAX_EPPI_COUNT: nat := EPPI_END - EPPI_START
  const MAX_ESPI_COUNT: nat := ESPI_END - ESPI_START
  const MAX_LPI_COUNT: nat := 0x1_0000_0000 - LPI_START

  predicate IsSgi(id: IntId) {
    id < PPI_START
  }

  predicate IsPpi(id: IntId) {
    PPI_START <= id < SPI_START
  }

  predicate IsPrivate(id: IntId) {
    IsSgi(id) || IsPpi(id)
  }

  predicate IsSpi(id: IntId) {
    SPI_START <= id < SPECIAL_START
  }

  function Sgi(n: nat): IntId
    requires n < SGI_COUNT
  {
    SGI_START + n
  }

  function Ppi(n: nat): IntId
    requires n < PPI_COUNT
  {
    PPI_START + n
  }

  function Spi(n: nat): IntId
    requires n < MAX_SPI_COUNT
  {
    SPI_START + n
  }

  function Eppi(n: nat): IntId
    requires n < MAX_EPPI_COUNT
  {
    EPPI_START + n
  }

  function Espi(n: nat): IntId
    requires n < MAX_ESPI_COUNT
  {
    ESPI_START + n
  }

  /** The 32-bit addition in the constructor overflows for larger n. */
  function Lpi(n: nat): IntId
    requires n < MAX_LPI_COUNT
  {
    LPI_START + n
  }

  // ---------- kinds ----------

  datatype Kind = SGI | PPI | SPI | Special | Reserved | EPPI | ESPI | LPI

  /** The kind of an identifier and the number shown after it. */
  datatype Shown = Shown(kind: Kind, number: nat)

  function Classify(id: IntId): Shown {
    if id < PPI_START then Shown(SGI, id - SGI_START)
    else if id < SPI_START then Shown(PPI, id - PPI_START)
    else if id < SPECIAL_START then Shown(SPI, id - SPI_START)
    else if id < SPECIAL_END then Shown(Special, id)
    else if id < EPPI_START then Shown(Reserved, id)
    else if id < EPPI_END then Shown(EPPI, id - EPPI_START)
    else if id < ESPI_START then Shown(Reserved, id)
    else if id < ESPI_END then Shown(ESPI, id - ESPI_START)
    else if id < LPI_START then Shown(Reserved, id)
    else Shown(LPI, id - LPI_START)
  }

  /** The identifier that a kind and number stand for, read through the constructors. */
  function Denotes(s: Shown): (id: IntId)
    requires InRange(s)
  {
    match s.kind
    case SGI => Sgi(s.number)
    case PPI => Ppi(s.number)
    case SPI => Spi(s.number)
    case EPPI => Eppi(s.number)
    case ESPI => Espi(s.number)
    case LPI => Lpi(s.number)
    case Special => s.number
    case Reserved => s.number
  }

  /** The numbers that exist in each kind. */
  predicate InRange(s: Shown) {
    match s.kind
    case SGI => s.number < SGI_COUNT
    case PPI => s.number < PPI_COUNT
    case SPI => s.number < MAX_SPI_COUNT
    case EPPI => s.number < MAX_EPPI_COUNT
    case ESPI => s.number < MAX_ESPI_COUNT
    case LPI => s.number < MAX_LPI_COUNT
    case Special => SPECIAL_START <= s.number < SPECIAL_END
    case Reserved =>
      || SPECIAL_END <= s.number < EPPI_START
      || EPPI_END <= s.number < ESPI_START
      || ESPI_END <= s.number < LPI_START
  }

  /** Classification and construction are inverse, so the kinds partition the
      32-bit identifiers: no identifier is left out and none is in two kinds. */
  lemma ClassifyInvertsConstruction(id: IntId, s: Shown)
    ensures InRange(Classify(id)) && Denotes(Classify(id)) == id
    ensures InRange(s) ==> Classify(Denotes(s)) == s
    ensures IsSgi(id) <==> Classify(id).kind == SGI
    ensures IsPpi(id) <==> Classify(id).kind == PPI
    ensures IsSpi(id) <==> Classify(id).kind == SPI
  {
    if InRange(s) {
      match s.kind
      case SGI =>
      case PPI =>
      case SPI =>
      case EPPI =>
      case ESPI =>
      case LPI =>
      case Special =>
      case Reserved =>
    }
  }

  /** The ranges in numbers. */
  lemma KindsByNumber(id: IntId)
    ensures Classify(id) ==
            if id < 16 then Shown(SGI, id)
            else if id < 32 then Shown(PPI, id - 16)
            else if id < 1020 then Shown(SPI, id - 32)
            else if id < 1024 then Shown(Special, id)
            else if id < 1056 then Shown(Reserved, id)
            else if id < 1120 then Shown(EPPI, id - 1056)
            else if id < 4096 then Shown(Reserved, id)
            else if id < 5120 then Shown(ESPI, id - 4096)
            else if id < 8192 then Shown(Reserved, id)
            else Shown(LPI, id - 8192)
    ensures IsPrivate(id) <==> id < 32
  {
  }

  // ---------- the printed text ----------

  function Digit(d: nat): char
    requires d < 10
  {
    '0' + d as char
  }

  function Decimal(n: nat): string {
    if n < 10 then [Digit(n)] else Decimal(n / 10) + [Digit(n % 10)]
  }

  function Label(k: Kind): string {
    match k
    case SGI => "SGI "
    case PPI => "PPI "
    case SPI => "SPI "
    case Special => "Special IntId "
    case Reserved => "Reserved IntId "
    case EPPI => "EPPI "
    case ESPI => "ESPI "
    case LPI => "LPI "
  }

  function Text(id: IntId): string {
    var s := Classify(id);
    Label(s.kind) + Decimal(s.number)
  }

  lemma {:induction false} DecimalInjective(m: nat, n: nat)
    requires Decimal(m) == Decimal(n)
    ensures m == n
  {
    var s := Decimal(m);
    assert s[|s| - 1] == Digit(m % 10) == Digit(n % 10);
    DecimalNonempty(m / 10);
    DecimalNonempty(n / 10);
    if m >= 10 && n >= 10 {
      assert s[..|s| - 1] == Decimal(m / 10) == Decimal(n / 10);
      DecimalInjective(m / 10, n / 10);
    }
  }

  /** The number that a string of decimal digits is read as. */
  function ReadDecimal(s: string): int {
    if s == [] then 0 else 10 * ReadDecimal(s[..|s| - 1]) + (s[|s| - 1] as int - '0' as int)
  }

  /** A number prints as decimal digits without a leading zero, and reads back as itself. */
  lemma {:induction false} DecimalReadsBack(n: nat)
    ensures ReadDecimal(Decimal(n)) == n
    ensures forall i | 0 <= i < |Decimal(n)| :: '0' <= Decimal(n)[i] <= '9'
    ensures |Decimal(n)| >= 1 && (n > 0 ==> Decimal(n)[0] != '0')
  {
    if n >= 10 {
      DecimalReadsBack(n / 10);
      assert Decimal(n)[..|Decimal(n)| - 1] == Decimal(n / 10);
    }
  }

  /** An identifier prints as the label of its range and a number. */
  lemma TextsByNumber(id: IntId)
    ensures Text(id) ==
            if id < 16 then "SGI " + Decimal(id)
            else if id < 32 then "PPI " + Decimal(id - 16)
            else if id < 1020 then "SPI " + Decimal(id - 32)
            else if id < 1024 then "Special IntId " + Decimal(id)
            else if id < 1056 then "Reserved IntId " + Decimal(id)
            else if id < 1120 then "EPPI " + Decimal(id - 1056)
            else if id < 4096 then "Reserved IntId " + Decimal(id)
            else if id < 5120 then "ESPI " + Decimal(id - 4096)
            else if id < 8192 then "Reserved IntId " + Decimal(id)
            else "LPI " + Decimal(id - 8192)
  {
    KindsByNumber(id);
  }

  lemma DecimalNonempty(n: nat)
    ensures |Decimal(n)| > 0
  {
  }

  /** Labels are told apart by their first two characters. */
  lemma LabelsDiffer(j: Kind, k: Kind)
    requires j != k
    ensures Label(j)[..2] != Label(k)[..2]
  {
    assert Label(j)[..2][0] == Label(j)[0] && Label(k)[..2][0] == Label(k)[0];
    assert Label(j)[..2][1] == Label(j)[1] && Label(k)[..2][1] == Label(k)[1];
  }

  /** Two different identifiers never print the same text. */
  lemma TextInjective(a: IntId, b: IntId)
    requires Text(a) == Text(b)
    ensures a == b
  {
    var s, t := Classify(a), Classify(b);
    assert Text(a)[..2] == Label(s.kind)[..2];
    assert Text(b)[..2] == Label(t.kind)[..2];
    if s.kind != t.kind {
      LabelsDiffer(s.kind, t.kind);
    } else {
      var l := |Label(s.kind)|;
      assert Text(a)[l..] == Decimal(s.number) && Text(b)[l..] == Decimal(t.number);
      DecimalInjective(s.number, t.number);
      ClassifyInvertsConstruction(a, s);
      ClassifyInvertsConstruction(b, t);
    }
  }

  // ---------- enumerations ----------

  function Private(): seq<IntId> {
    seq(SGI_COUNT, n requires 0 <= n < SGI_COUNT => Sgi(n))
    + seq(PPI_COUNT, n requires 0 <= n < PPI_COUNT => Ppi(n))
  }

  function Spis(): seq<IntId> {
    seq(MAX_SPI_COUNT, n requires 0 <= n < MAX_SPI_COUNT => Spi(n))
  }

  /** The private identifiers followed by the SPIs are 0, 1, ..., 1019: each
      identifier below the special ones once, in order. */
  lemma EnumerationIsExact()
    ensures |Private() + Spis()| == SPECIAL_START
    ensures forall k | 0 <= k < SPECIAL_START :: (Private() + Spis())[k] == k
    ensures forall id: IntId :: id in Private() <==> IsPrivate(id)
    ensures forall id: IntId :: id in Spis() <==> IsSpi(id)
  {
    forall id: IntId
      ensures id in Private() <==> IsPrivate(id)
    {
      if IsPrivate(id) {
        assert Private()[id] == id;
      }
    }
    forall id: IntId
      ensures id in Spis() <==> IsSpi(id)
    {
      if IsSpi(id) {
        assert Spis()[id - SPI_START] == id;
      }
    }
  }
}
