/** DisplayController.format_file_size: divide by 1024 until the value is below
    1024, through B, KB, MB and GB, and report anything larger in TB. The
    `.2f` text is not modelled; the result is the unit and the scaled value. */
module FileSize {

  datatype Unit = B | KB | MB | GB | TB

  /** The units in the loop's order, TB last. */
  function UnitAt(k: nat): (u: Unit)
    requires k <= 4
    ensures Index(u) == k
  {
    [B, KB, MB, GB, TB][k]
  }

  function Index(u: Unit): nat {
    match u
    case B => 0
    case KB => 1
    case MB => 2
    case GB => 3
    case TB => 4
  }

  /** 1024 to the k. */
  function Pow1024(k: nat): (p: real)
    ensures p >= 1.0
  {
    if k == 0 then 1.0 else 1024.0 * Pow1024(k - 1)
  }

  /** The index of the unit chosen for size: the first k below 4 with
      size / 1024^k under 1024, and 4 when there is none. */
  function UnitIndex(size: real): (k: nat)
    ensures k <= 4
  {
    if size < 1024.0 then 0
    else if size / 1024.0 < 1024.0 then 1
    else if size / 1024.0 / 1024.0 < 1024.0 then 2
    else if size / 1024.0 / 1024.0 / 1024.0 < 1024.0 then 3
    else 4
  }

  /** `size` divided k times by 1024 is size / 1024^k. */
  lemma {:induction false} RepeatedDivision(size: real, k: nat)
    ensures Divided(size, k) == size / Pow1024(k)
  {
    if k > 0 {
      RepeatedDivision(size, k - 1);
      assert Divided(size, k) == (size / Pow1024(k - 1)) / 1024.0;
      DivDiv(size, Pow1024(k - 1), 1024.0);
    }
  }

  lemma DivDiv(a: real, p: real, q: real)
    requires p > 0.0 && q > 0.0
    ensures a / p / q == a / (q * p)
  {
    assert a / p / q * (q * p) == a;
  }

  /** The value after k passes of `size /= 1024`. */
  function Divided(size: real, k: nat): real {
    if k == 0 then size else Divided(size, k - 1) / 1024.0
  }

  /** The unit index is the first at which the divided size is below 1024. */
  lemma UnitIndexIsFirst(size: real)
    ensures UnitIndex(size) < 4 ==> Divided(size, UnitIndex(size)) < 1024.0
    ensures forall j :: 0 <= j < UnitIndex(size) ==> Divided(size, j) >= 1024.0
  {
    assert Divided(size, 1) == size / 1024.0;
    assert Divided(size, 2) == size / 1024.0 / 1024.0;
    assert Divided(size, 3) == size / 1024.0 / 1024.0 / 1024.0;
  }

  /** format_file_size: the unit and the value it is reported in. */
  method FormatFileSize(size: real) returns (value: real, unit: Unit)
    ensures forall j :: 0 <= j < Index(unit) ==> Divided(size, j) >= 1024.0
    ensures unit != TB ==> value < 1024.0
    ensures value == Divided(size, Index(unit))
  {
    var s := size;
    var k := 0;
    while k < 4
      invariant 0 <= k <= 4 && s == Divided(size, k)
      invariant forall j :: 0 <= j < k ==> Divided(size, j) >= 1024.0
    {
      if s < 1024.0 {
        return s, UnitAt(k);
      }
      s := s / 1024.0;
      k := k + 1;
    }
    return s, TB;
  }

  /** Below 1024 the size is reported as it is, in bytes. */
  lemma SmallSizeInBytes(size: real)
    requires size < 1024.0
    ensures UnitIndex(size) == 0 && Divided(size, 0) == size
  {
  }

  /** Whatever the method returns is the unit UnitIndex chooses. */
  lemma {:induction false} ChosenUnitIsUnitIndex(size: real, value: real, unit: Unit)
    requires forall j :: 0 <= j < Index(unit) ==> Divided(size, j) >= 1024.0
    requires unit != TB ==> Divided(size, Index(unit)) < 1024.0
    ensures Index(unit) == UnitIndex(size)
  {
    UnitIndexIsFirst(size);
    var k, u := UnitIndex(size), Index(unit);
    assert u < k ==> Divided(size, u) >= 1024.0;
    assert k < u ==> Divided(size, k) >= 1024.0;
  }

  /** TB is chosen exactly when size / 1024^4 is at least 1. */
  lemma {:induction false} TerabytesAtLeastOne(size: real)
    ensures UnitIndex(size) == 4 <==> Divided(size, 4) >= 1.0
  {
    assert Divided(size, 1) == size / 1024.0;
    assert Divided(size, 2) == size / 1024.0 / 1024.0;
    assert Divided(size, 3) == size / 1024.0 / 1024.0 / 1024.0;
    assert Divided(size, 4) == Divided(size, 3) / 1024.0;
    if Divided(size, 4) >= 1.0 {
      assert Divided(size, 3) >= 1024.0;
      assert Divided(size, 2) >= 1024.0 * 1024.0;
      assert Divided(size, 1) >= 1024.0 * 1024.0 * 1024.0;
    }
  }

  /** A larger size never selects a smaller unit. */
  lemma {:induction false} UnitMonotone(a: real, b: real)
    requires a <= b
    ensures UnitIndex(a) <= UnitIndex(b)
  {
    DivMono(a, b);
    DivMono(a / 1024.0, b / 1024.0);
    DivMono(a / 1024.0 / 1024.0, b / 1024.0 / 1024.0);
  }

  lemma DivMono(a: real, b: real)
    requires a <= b
    ensures a / 1024.0 <= b / 1024.0
  {
  }
}
