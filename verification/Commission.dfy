/**
 * Commission allocation over the legs of one fill.
 *
 * A commission is a decimal with `digits` counted in its own quantum, `10^-scale`; an
 * exponent that is not negative has quantum one, so it is written with scale zero.  Parts
 * are counted in the same quantum.
 */
module Commission {
  import opened Basics
  import opened IdOrder

  datatype Decimal = Decimal(digits: int, scale: nat)

  /** The size of one unit in the last place. */
  function Quantum(scale: nat): (q: real)
    ensures q > 0.0
  {
    if scale == 0 then 1.0 else Quantum(scale - 1) / 10.0
  }

  function Value(d: Decimal): real {
    d.digits as real * Quantum(d.scale)
  }

  /** A quantum is one over ten to the scale. */
  lemma {:induction false} QuantumIsDecimal(scale: nat)
    ensures Quantum(scale) * Pow10(scale) as real == 1.0
  {
    if scale > 0 {
      QuantumIsDecimal(scale - 1);
      assert Quantum(scale) * (10 * Pow10(scale - 1)) as real == Quantum(scale - 1) * Pow10(scale - 1) as real;
    }
  }

  /** Rounds to the nearest integer, ties away from zero. */
  function RoundHalfUp(x: real): (n: int)
    ensures x - 0.5 <= n as real <= x + 0.5
    ensures x >= 0.0 ==> n as real > x - 0.5
    ensures x <= 0.0 ==> (n as real) < x + 0.5
  {
    if x >= 0.0 then (x + 0.5).Floor else -((0.5 - x).Floor)
  }

  function Magnitudes(units: seq<real>): (sizes: seq<real>)
    ensures |sizes| == |units| && forall i :: 0 <= i < |units| ==> sizes[i] == Abs(units[i])
  {
    seq(|units|, i requires 0 <= i < |units| => Abs(units[i]))
  }

  function TotalAbs(units: seq<real>): (total: real) {
    Sum(Magnitudes(units))
  }

  lemma {:induction false} SumIsZeroIffAllAre(s: seq<real>)
    requires forall i :: 0 <= i < |s| ==> s[i] >= 0.0
    ensures Sum(s) >= 0.0
    ensures Sum(s) == 0.0 <==> forall i :: 0 <= i < |s| ==> s[i] == 0.0
  {
    if s != [] {
      var n := |s| - 1;
      SumIsZeroIffAllAre(s[..n]);
      assert forall i :: 0 <= i < n ==> s[..n][i] == s[i];
      assert (forall i :: 0 <= i < |s| ==> s[i] == 0.0) <==> (forall i :: 0 <= i < n ==> s[..n][i] == 0.0) && s[n] == 0.0;
    }
  }

  /** The exact, unrounded share of one leg. */
  function RawShare(total: int, unit: real, whole: real): real
    requires whole != 0.0
  {
    total as real * Abs(unit) / whole
  }

  function Shares(total: int, units: seq<real>): (shares: seq<real>)
    requires TotalAbs(units) != 0.0
    ensures |shares| == |units|
  {
    var whole := TotalAbs(units);
    seq(|units|, i requires 0 <= i < |units| => RawShare(total, units[i], whole))
  }

  function Rounded(shares: seq<real>): (parts: seq<int>)
    ensures |parts| == |shares| && forall i :: 0 <= i < |shares| ==> parts[i] == RoundHalfUp(shares[i])
  {
    seq(|shares|, i requires 0 <= i < |shares| => RoundHalfUp(shares[i]))
  }

  /** All but the last share rounded, then the residue of the total. */
  function WithResidue(total: int, shares: seq<real>): (parts: seq<int>)
    requires shares != []
    ensures |parts| == |shares|
  {
    var rounded := Rounded(shares[..|shares| - 1]);
    rounded + [total - SumInts(rounded)]
  }

  /** What the allocation loop computes. */
  function Allocation(total: int, units: seq<real>): (parts: seq<int>)
    ensures |parts| == |units|
  {
    if units == [] then []
    else if TotalAbs(units) == 0.0 then seq(|units|, _ => 0)
    else WithResidue(total, Shares(total, units))
  }

  lemma OneMoreRounded(shares: seq<real>, index: nat)
    requires index < |shares|
    ensures Rounded(shares[..index + 1]) == Rounded(shares[..index]) + [RoundHalfUp(shares[index])]
    ensures SumInts(Rounded(shares[..index + 1])) == SumInts(Rounded(shares[..index])) + RoundHalfUp(shares[index])
  {
    SumIntsSnoc(Rounded(shares[..index]), RoundHalfUp(shares[index]));
  }

  method AllocateCommission(total: int, units: seq<real>) returns (allocations: seq<int>)
    ensures allocations == Allocation(total, units)
  {
    allocations := [];
    if |units| == 0 {
      return;
    }
    var whole := TotalAbs(units);
    if whole == 0.0 {
      return seq(|units|, _ => 0);
    }
    ghost var shares := Shares(total, units);
    var running := 0;
    for index := 0 to |units|
      invariant index < |units| ==> allocations == Rounded(shares[..index]) && running == SumInts(allocations)
      invariant index == |units| ==> allocations == WithResidue(total, shares)
    {
      var allocation;
      if index == |units| - 1 {
        allocation := total - running;
      } else {
        var rawShare := RawShare(total, units[index], whole);
        allocation := RoundHalfUp(rawShare);
        running := running + allocation;
        OneMoreRounded(shares, index);
      }
      allocations := allocations + [allocation];
    }
  }

  /** No quantum of the commission is lost or invented. */
  lemma AllocationIsExact(total: int, units: seq<real>)
    requires TotalAbs(units) != 0.0
    ensures SumInts(Allocation(total, units)) == total
  {
    var rounded := Rounded(Shares(total, units)[..|units| - 1]);
    SumIntsSnoc(rounded, total - SumInts(rounded));
  }

  lemma SharesMakeTheTotal(total: int, units: seq<real>)
    requires TotalAbs(units) != 0.0
    ensures Sum(Shares(total, units)) == total as real
  {
    SumScales(Magnitudes(units), Shares(total, units), total as real / TotalAbs(units));
  }

  lemma {:induction false} RoundingDrift(shares: seq<real>)
    ensures -(|shares| as real / 2.0) <= SumInts(Rounded(shares)) as real - Sum(shares) <= |shares| as real / 2.0
  {
    if shares != [] {
      var n := |shares| - 1;
      RoundingDrift(shares[..n]);
      assert Rounded(shares)[..n] == Rounded(shares[..n]);
    }
  }

  lemma ResidueIsClose(total: int, shares: seq<real>, i: nat)
    requires i < |shares| && Sum(shares) == total as real
    ensures var error := WithResidue(total, shares)[i] as real - shares[i];
            var bound := if i < |shares| - 1 then 0.5 else (|shares| - 1) as real / 2.0;
            -bound <= error <= bound
  {
    RoundingDrift(shares[..|shares| - 1]);
  }

  lemma AllocationIsNearItsShares(total: int, units: seq<real>, i: nat)
    requires TotalAbs(units) != 0.0 && i < |units|
    ensures var error := Allocation(total, units)[i] as real - Shares(total, units)[i];
            var bound := if i < |units| - 1 then 0.5 else (|units| - 1) as real / 2.0;
            -bound <= error <= bound
  {
    SharesMakeTheTotal(total, units);
    ResidueIsClose(total, Shares(total, units), i);
  }

  /** `part * whole` and `product` differ by at most `quanta` halves of the whole. */
  predicate WithinHalves(part: real, product: real, whole: real, quanta: real) {
    -(quanta * whole / 2.0) <= part * whole - product <= quanta * whole / 2.0
  }

  /** The parts follow the units: each part but the last is within half a quantum of the total's
      share of its units, and the last, which takes the residue, within (n - 1) / 2 quanta. */
  lemma AllocationIsNearlyProportional(total: int, units: seq<real>, i: nat)
    requires TotalAbs(units) != 0.0 && i < |units|
    ensures WithinHalves(Allocation(total, units)[i] as real, total as real * Abs(units[i]), TotalAbs(units),
                         if i < |units| - 1 then 1.0 else (|units| - 1) as real)
  {
    SumIsZeroIffAllAre(Magnitudes(units));
    AllocationIsNearItsShares(total, units, i);
    ScaleHalf(Allocation(total, units)[i] as real, total as real * Abs(units[i]), TotalAbs(units),
              if i < |units| - 1 then 1.0 else (|units| - 1) as real);
  }

  lemma ScaleHalf(part: real, product: real, whole: real, quanta: real)
    requires whole > 0.0 && -(quanta / 2.0) <= part - product / whole <= quanta / 2.0
    ensures WithinHalves(part, product, whole, quanta)
  {
    ScaleError(part, product, whole, quanta / 2.0);
    HalfOf(quanta, whole);
  }

  lemma ScaleError(part: real, product: real, whole: real, bound: real)
    requires whole > 0.0 && -bound <= part - product / whole <= bound
    ensures -(bound * whole) <= part * whole - product <= bound * whole
  {
    var share := product / whole;
    assert share * whole == product;
    var error := part - share;
    assert error * whole == part * whole - product;
    assert (bound - error) * whole >= 0.0 && (bound + error) * whole >= 0.0;
  }

  lemma HalfOf(n: real, whole: real)
    ensures n / 2.0 * whole == n * whole / 2.0
  {
  }

  /** 0.10 over 9000 and 1000 units. */
  lemma NineToOne()
    ensures Allocation(10, [9000.0, -1000.0]) == [9, 1]
  {
    var units := [9000.0, -1000.0];
    assert Magnitudes(units) == [9000.0] + [1000.0] && [9000.0][..0] == [];
    SumSnoc([9000.0], 1000.0);
    SumSnoc([], 9000.0);
    assert Magnitudes(units) == [9000.0, 1000.0];
    assert ([] + [9000.0]) + [1000.0] == [9000.0, 1000.0];
    var shares := Shares(10, units);
    assert shares[0] == 9.0;
    assert Rounded(shares[..1]) == [9];
    SumIntsSnoc([], 9);
    assert [] + [9] == [9];
  }

  ghost predicate NonZero(units: seq<real>) {
    forall i :: 0 <= i < |units| ==> units[i] != 0.0
  }

  ghost predicate NonNegative(parts: seq<int>) {
    forall i :: 0 <= i < |parts| ==> parts[i] >= 0
  }

  lemma SharesKeepTheSign(total: int, units: seq<real>)
    requires total >= 0 && TotalAbs(units) != 0.0
    ensures forall i :: 0 <= i < |units| ==>
              var share := Shares(total, units)[i];
              share >= 0.0 && (total == 0 ==> share == 0.0) && (total > 0 && units[i] != 0.0 ==> share > 0.0)
  {
    SumIsZeroIffAllAre(Magnitudes(units));
    forall i | 0 <= i < |units|
      ensures var share := Shares(total, units)[i];
              share >= 0.0 && (total == 0 ==> share == 0.0) && (total > 0 && units[i] != 0.0 ==> share > 0.0)
    {
      QuotientKeepsTheSign(total as real, Abs(units[i]), TotalAbs(units));
    }
  }

  lemma QuotientKeepsTheSign(x: real, y: real, z: real)
    requires x >= 0.0 && y >= 0.0 && z > 0.0
    ensures x * y / z >= 0.0 && (x == 0.0 ==> x * y / z == 0.0) && (x > 0.0 && y > 0.0 ==> x * y / z > 0.0)
  {
    var p := x * y;
    assert p >= 0.0 && (x > 0.0 && y > 0.0 ==> p > 0.0);
  }

  lemma FewSharesStayNonNegative(total: int, shares: seq<real>)
    requires 0 < |shares| <= 3 && Sum(shares) == total as real && total >= 0
    requires forall i :: 0 <= i < |shares| ==> shares[i] >= 0.0 && (total == 0 ==> shares[i] == 0.0) && (total > 0 ==> shares[i] > 0.0)
    ensures NonNegative(WithResidue(total, shares))
  {
    var parts := WithResidue(total, shares);
    forall i | 0 <= i < |parts| ensures parts[i] >= 0 {
      ResidueIsClose(total, shares, i);
      if total == 0 {
        SumOfConstant(Rounded(shares[..|shares| - 1]), 0);
      }
    }
  }

  lemma NonZeroTotal(units: seq<real>)
    requires NonZero(units) && units != []
    ensures TotalAbs(units) > 0.0
  {
    SumIsZeroIffAllAre(Magnitudes(units));
    assert Magnitudes(units)[0] != 0.0;
  }

  lemma FewLegsStayNonNegative(total: int, units: seq<real>)
    requires total >= 0 && NonZero(units) && |units| <= 3
    ensures NonNegative(Allocation(total, units))
  {
    if units != [] {
      NonZeroTotal(units);
      SharesMakeTheTotal(total, units);
      SharesKeepTheSign(total, units);
      FewSharesStayNonNegative(total, Shares(total, units));
    }
  }

  lemma {:induction false} SumOfConstant(s: seq<int>, c: int)
    requires forall i :: 0 <= i < |s| ==> s[i] == c
    ensures SumInts(s) == |s| * c
  {
    if s != [] {
      SumOfConstant(s[..|s| - 1], c);
    }
  }

  lemma {:induction false} SumOfOnes(s: seq<real>)
    requires forall i :: 0 <= i < |s| ==> s[i] == 1.0
    ensures Sum(s) == |s| as real
  {
    if s != [] {
      SumOfOnes(s[..|s| - 1]);
    }
  }

  lemma ShareOfOne(total: real, n: real)
    requires n > 0.0 && n <= 2.0 * total < 2.0 * n
    ensures 0.5 <= total * 1.0 / n < 1.0
  {
    var share := total * 1.0 / n;
    assert share * n == total;
  }

  /** With n >= 4 equal legs and half of n quanta to hand out, every leg rounds up and the
      last one pays for it: 0.02 over four legs leaves -0.01. */
  lemma ManyLegsCanGoNegative(n: nat)
    requires n >= 4
    ensures NonZero(seq(n, _ => 1.0))
    ensures Allocation((n + 1) / 2, seq(n, _ => 1.0))[n - 1] == (n + 1) / 2 - (n - 1) < 0
  {
    var units, total := seq(n, _ => 1.0), (n + 1) / 2;
    SumOfOnes(Magnitudes(units));
    var shares := Shares(total, units);
    forall i | 0 <= i < n - 1 ensures RoundHalfUp(shares[i]) == 1 {
      ShareOfOne(total as real, n as real);
    }
    SumOfConstant(Rounded(shares[..n - 1]), 1);
  }

  /** Exactly when a commission can never turn into a negative charge on some leg. */
  lemma NoNegativePartIffAtMostThreeLegs(n: nat)
    ensures (forall total: nat, units: seq<real> :: |units| == n && NonZero(units) ==>
               NonNegative(Allocation(total, units)))
            <==> n <= 3
  {
    if n <= 3 {
      forall total: nat, units: seq<real> | |units| == n && NonZero(units)
        ensures NonNegative(Allocation(total, units))
      {
        FewLegsStayNonNegative(total, units);
      }
    } else {
      ManyLegsCanGoNegative(n);
      var units := seq(n, _ => 1.0);
      assert !NonNegative(Allocation((n + 1) / 2, units));
    }
  }
}
