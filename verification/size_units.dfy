/**
 The size column of the generated directory index. The source divides a
 double by 1024 up to three times, each time only while the value is
 strictly greater than 1024; the printed number itself (DecimalFormat) is a
 collaborator, the unit is computed here.
 */
module SizeUnits {

  datatype SizeUnit = B | KB | MB | GB

  function UnitName(u: SizeUnit): string {
    match u
    case B => "B"
    case KB => "KB"
    case MB => "MB"
    case GB => "GB"
  }

  const Kibi: nat := 1024

  /** The unit as integer thresholds: each bound is inclusive. */
  function UnitOf(n: nat): SizeUnit {
    if n <= Kibi then B
    else if n <= Kibi * Kibi then KB
    else if n <= Kibi * Kibi * Kibi then MB
    else GB
  }

  function Divisor(u: SizeUnit): (d: nat)
    ensures d > 0
  {
    match u
    case B => 1
    case KB => Kibi
    case MB => Kibi * Kibi
    case GB => Kibi * Kibi * Kibi
  }

  datatype Scaled = Scaled(value: real, unit: SizeUnit)

  /** One step of the source: divide by 1024 and move to `next` when the value exceeds 1024. */
  function Step(s: Scaled, next: SizeUnit): Scaled {
    if s.value > Kibi as real then Scaled(s.value / Kibi as real, next) else s
  }

  /**
   The three conditional divisions, on exact reals. In the source the length
   is first converted to a double, which rounds lengths above 2^53. Dividing
   by a power of two adds no further error. The unit reached is the
   integer-threshold unit, and the value shown is the length divided by
   that unit's size.
   */
  function Scale(n: nat): (r: Scaled)
    ensures r.unit == UnitOf(n)
    ensures r.value * Divisor(r.unit) as real == n as real
  {
    Step(Step(Step(Scaled(n as real, B), KB), MB), GB)
  }
}
