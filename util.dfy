/** `size_human_readable_ceil` of util.rs: a byte count as a number of the largest binary
  * unit it reaches, rounded up. */
module Util {
  import Arith

  const KIB: nat := 1024
  const MIB: nat := 1024 * 1024
  const GIB: nat := 1024 * 1024 * 1024
  const TIB: nat := 1024 * 1024 * 1024 * 1024

  /** `usize::div_ceil`: the quotient, plus one when there is a remainder. */
  function DivCeil(a: nat, b: nat): (q: nat)
    requires b > 0
    ensures q * b >= a > (q - 1) * b
  {
    Arith.RoundDown(a, b);
    a / b + (if a % b > 0 then 1 else 0)
  }

  /** The number of bytes a unit name returned by `SizeHumanReadableCeil` stands for. */
  function UnitSize(unit: string): (n: nat)
    ensures n > 0
  {
    if unit == "TiB" then TIB
    else if unit == "GiB" then GIB
    else if unit == "MiB" then MIB
    else if unit == "KiB" then KIB
    else 1
  }

  /** `size_human_readable_ceil`: the largest of TiB, GiB, MiB and KiB that is not above
    * `size`, and `size` divided by it rounded up; below 1 KiB the size in bytes. */
  function SizeHumanReadableCeil(size: nat): (r: (nat, string))
    ensures r.1 in {"TiB", "GiB", "MiB", "KiB", "Byte"}
    ensures r.1 == "Byte" <==> size < KIB
    ensures r.1 == "Byte" ==> r.0 == size
  {
    if size / TIB > 0 then (DivCeil(size, TIB), "TiB")
    else if size / GIB > 0 then (DivCeil(size, GIB), "GiB")
    else if size / MIB > 0 then (DivCeil(size, MIB), "MiB")
    else if size / KIB > 0 then (DivCeil(size, KIB), "KiB")
    else (size, "Byte")
  }

  /** A size of at least one unit and fewer than 1024 of them is 1 to 1024 units, rounded up. */
  lemma WithinUnit(size: nat, unit: nat)
    requires 0 < unit <= size < KIB * unit
    ensures 1 <= DivCeil(size, unit) <= 1024
  {
    var q := DivCeil(size, unit);
    if q > 1024 {
      Arith.MulLeRight(KIB, q - 1, unit);
      assert false;
    }
  }

  /** The unit is the largest one the size reaches, the number is the size in that unit
    * rounded up, and below TiB that number lies between 1 and 1024. */
  lemma SizeHumanReadableCeilBounds(size: nat)
    ensures var r := SizeHumanReadableCeil(size);
      (r.1 != "Byte" ==> UnitSize(r.1) <= size && (r.1 == "TiB" || size < KIB * UnitSize(r.1)))
      && r.0 * UnitSize(r.1) >= size > (r.0 - 1) * UnitSize(r.1)
      && (r.1 in {"GiB", "MiB", "KiB"} ==> 1 <= r.0 <= 1024)
  {
    if size / TIB > 0 {
      assert TIB <= size;
    } else if size / GIB > 0 {
      WithinUnit(size, GIB);
    } else if size / MIB > 0 {
      WithinUnit(size, MIB);
    } else if size / KIB > 0 {
      WithinUnit(size, KIB);
    }
  }
}
