/** The human-readable size of `dirstat`: a byte count is shown in the
    largest of five units (B, KB, MB, GB, TB, powers of 1024) whose divisor
    does not exceed it, with B for everything below 1024 and TB without an
    upper bound. */
module Units {

  /** The five magnitude tiers. */
  datatype SizeUnit = B | KB | MB | GB | TB

  /** A byte count scaled to a unit. The scaled value is the exact quotient;
      the program holds it as a 64-bit float. */
  datatype SizeWithUnit = SizeWithUnit(size: real, unit: SizeUnit)

  /** Position of a unit in ascending order. */
  function Rank(u: SizeUnit): nat
  {
    match u
    case B => 0
    case KB => 1
    case MB => 2
    case GB => 3
    case TB => 4
  }

  /** 1024 to the power `k`. */
  function Pow1024(k: nat): (r: nat)
    ensures r >= 1
  {
    if k == 0 then 1 else 1024 * Pow1024(k - 1)
  }

  /** The number of bytes in one of unit `u`, as the program writes it:
      a left shift of one by 0, 10, 20, 30 or 40 bits. */
  function Divisor(u: SizeUnit): nat
  {
    match u
    case B => 1
    case KB => 0x400
    case MB => 0x10_0000
    case GB => 0x4000_0000
    case TB => 0x100_0000_0000
  }

  /** Unit `u`, of rank k, is the right one for `bytes`: 1024^k does not
      exceed the count (B excepted: byte counts are never scaled down) and
      1024^(k+1) does (TB excepted: it has no upper bound). */
  predicate Fits(u: SizeUnit, bytes: nat)
  {
    && (u == B || Pow1024(Rank(u)) <= bytes)
    && (u == TB || bytes < Pow1024(Rank(u) + 1))
  }

  /** Chooses the unit by comparing against ascending thresholds, first
      match wins, and divides by that unit's divisor. */
  function NewSizeWithUnit(bytes: nat): (r: SizeWithUnit)
    ensures Fits(r.unit, bytes)
    ensures r.size * Divisor(r.unit) as real == bytes as real
    ensures r.unit == B ==> r.size == bytes as real
    ensures r.unit != B ==> 1.0 <= r.size
    ensures r.unit != TB ==> r.size < 1024.0
  {
    var chosen :=
      if bytes < 0x400 then
        SizeWithUnit(bytes as real, B)
      else if bytes < 0x10_0000 then
        SizeWithUnit(bytes as real / 0x400 as real, KB)
      else if bytes < 0x4000_0000 then
        SizeWithUnit(bytes as real / 0x10_0000 as real, MB)
      else if bytes < 0x100_0000_0000 then
        SizeWithUnit(bytes as real / 0x4000_0000 as real, GB)
      else
        SizeWithUnit(bytes as real / 0x100_0000_0000 as real, TB);
    DivisorIsPower(chosen.unit);
    chosen
  }

  /** The abbreviation printed after the scaled value. */
  function Suffix(u: SizeUnit): string
  {
    match u
    case B => "B"
    case KB => "KB"
    case MB => "MB"
    case GB => "GB"
    case TB => "TB"
  }

  /** Each unit is 1024 times the one below it, starting from one byte. */
  lemma DivisorIsPower(u: SizeUnit)
    ensures Divisor(u) == Pow1024(Rank(u))
    ensures 1024 * Divisor(u) == Pow1024(Rank(u) + 1)
  {
    assert Pow1024(1) == 1024 * Pow1024(0);
    assert Pow1024(2) == 1024 * Pow1024(1);
    assert Pow1024(3) == 1024 * Pow1024(2);
    assert Pow1024(4) == 1024 * Pow1024(3);
    assert Pow1024(5) == 1024 * Pow1024(4);
  }

  /** Exactly one unit fits any byte count, and it is the one chosen. */
  lemma FitsExactlyChosen(u: SizeUnit, bytes: nat)
    ensures Fits(u, bytes) <==> u == NewSizeWithUnit(bytes).unit
  {
    DivisorIsPower(u);
  }

  /** A larger byte count never gets a smaller unit. */
  lemma UnitMonotone(a: nat, b: nat)
    requires a <= b
    ensures Rank(NewSizeWithUnit(a).unit) <= Rank(NewSizeWithUnit(b).unit)
  {
  }

  /** Different units print different suffixes, so the unit can be read
      back from the suffix. */
  lemma SuffixInjective(u: SizeUnit, v: SizeUnit)
    ensures Suffix(u) == Suffix(v) <==> u == v
  {
  }
}
