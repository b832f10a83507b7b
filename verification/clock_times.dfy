/** The static time arithmetic of the helper: clock minutes on a 60-minute
    dial, the right-hand times derived from the left departure, and the
    travel time apportioned to one leg of a non-stop chain. */
module ClockTimes {
  import opened TrainrunModel

  type PosInt = n: int | n > 0 witness 1

  /** The travel-time factor, an exact ratio `num / den`. */
  datatype Factor = Factor(num: int, den: PosInt)

  /** JavaScript's `x % 60`: the remainder of truncating division, which
      takes the sign of the dividend. */
  function JsRemainder60(a: int): (r: int)
    ensures (a - r) % 60 == 0
    ensures a >= 0 ==> 0 <= r < 60
    ensures a < 0 ==> -60 < r <= 0
  {
    if a >= 0 then a % 60 else -((-a) % 60)
  }

  /** Rounding to zero fraction digits: the nearest integer to `num / den`,
      halves rounded upwards. */
  function RoundHalfUp(num: int, den: PosInt): (r: int)
    ensures 2 * den * r - den <= 2 * num < 2 * den * r + den
  {
    (2 * num + den) / (2 * den)
  }

  /** The reflection of a clock minute across the hour; 0 is its own image. */
  function GetSymmetricTime(time: int): (r: int)
    ensures time == 0 ==> r == 0
    ensures 0 < time < 60 ==> 0 < r < 60
    ensures (r + time) % 60 == 0
  {
    if time == 0 then 0 else 60 - time
  }

  /** The seed used before a side swap: the left times are kept, the right
      times and the travel time are cleared. */
  function GetDefaultTimeStructure(ts: LeftAndRightTimeStructure): (r: LeftAndRightTimeStructure)
    ensures r.leftDepartureTime == ts.leftDepartureTime
    ensures r.leftArrivalTime == ts.leftArrivalTime
    ensures r.rightDepartureTime == 0 && r.rightArrivalTime == 0 && r.travelTime == 0
  {
    LeftAndRightTimeStructure(ts.leftDepartureTime, ts.leftArrivalTime, 0, 0, 0)
  }

  /** The travel time of one leg: a leg that ends in a non-stop transit node
      gets its own travel time scaled by the factor, the final leg gets what
      remains of the total; never less than one minute. */
  function GetTravelTime(
    totalTravelTime: int,
    summedTravelTime: int,
    travelTimeFactor: Factor,
    trsTravelTime: int,
    isRightNodeNonStopTransit: bool): (r: int)
    ensures r >= 1
    ensures !isRightNodeNonStopTransit ==>
      r == if totalTravelTime - summedTravelTime >= 1 then totalTravelTime - summedTravelTime else 1
    ensures isRightNodeNonStopTransit ==>
      (r == 1 <==> 2 * (trsTravelTime * travelTimeFactor.num) < 3 * travelTimeFactor.den)
    ensures isRightNodeNonStopTransit && r > 1 ==>
      var num, den := trsTravelTime * travelTimeFactor.num, travelTimeFactor.den;
      2 * den * r - den <= 2 * num < 2 * den * r + den
  {
    if isRightNodeNonStopTransit then
      Max(RoundHalfUp(trsTravelTime * travelTimeFactor.num, travelTimeFactor.den), 1)
    else
      Max(totalTravelTime - summedTravelTime, 1)
  }

  function Max(a: int, b: int): (r: int)
    ensures r >= a && r >= b && (r == a || r == b)
  {
    if a >= b then a else b
  }

  /** The right arrival: the left departure advanced by the travel time, on
      the 60-minute dial. */
  function GetRightArrivalTime(ts: LeftAndRightTimeStructure): (r: int)
    ensures ts.leftDepartureTime >= 0 && ts.travelTime >= 0 ==>
      0 <= r < 60 && r == (ts.leftDepartureTime + ts.travelTime) % 60
  {
    JsRemainder60(ts.leftDepartureTime + JsRemainder60(ts.travelTime))
  }

  /** The right departure: the symmetric time of the right arrival. */
  function GetRightDepartureTime(ts: LeftAndRightTimeStructure): (r: int)
    ensures 0 <= ts.rightArrivalTime < 60 ==> 0 <= r < 60
    ensures (r + ts.rightArrivalTime) % 60 == 0
  {
    GetSymmetricTime(ts.rightArrivalTime)
  }

  /** Symmetric time is an involution on the dial. */
  lemma SymmetricTimeInvolution(t: int)
    requires 0 <= t < 60
    ensures GetSymmetricTime(GetSymmetricTime(t)) == t
  {
  }

  /** With a symmetric left side (left arrival = symmetric left departure) and
      right times derived by the helper, the journey leaving on the right
      reaches the left at the left arrival minute: the derived right times
      keep the timetable symmetric. */
  lemma DerivedRightTimesKeepSymmetry(ts: LeftAndRightTimeStructure)
    requires 0 <= ts.leftDepartureTime < 60 && ts.travelTime >= 0
    requires ts.leftArrivalTime == GetSymmetricTime(ts.leftDepartureTime)
    ensures
      var withArrival := ts.(rightArrivalTime := GetRightArrivalTime(ts));
      var rightDeparture := GetRightDepartureTime(withArrival);
      (rightDeparture + ts.travelTime) % 60 == ts.leftArrivalTime
  {
  }

  /** A worked example: leaving the left at minute 50 with 25 minutes of
      travel arrives on the right at minute 15, which departs at minute 45. */
  lemma RightTimesExample()
    ensures
      var ts := LeftAndRightTimeStructure(50, 10, 0, 0, 25);
      && GetRightArrivalTime(ts) == 15
      && GetRightDepartureTime(ts.(rightArrivalTime := GetRightArrivalTime(ts))) == 45
  {
  }

  /** Rounding depends on the value of the ratio only, not on its
      representation. */
  lemma RoundHalfUpRespectsValue(n1: int, d1: PosInt, n2: int, d2: PosInt)
    requires n1 * d2 == n2 * d1
    ensures RoundHalfUp(n1, d1) == RoundHalfUp(n2, d2)
  {
    var r1, r2 := RoundHalfUp(n1, d1), RoundHalfUp(n2, d2);
    // r1 is within half of n1/d1; scaling by d2 places it within half of n2/d2.
    assert 2 * d1 * r1 - d1 <= 2 * n1 < 2 * d1 * r1 + d1;
    ScaleBounds(2 * d1 * r1 - d1, 2 * n1, 2 * d1 * r1 + d1, d2);
    assert (2 * d1 * r1 - d1) * d2 == d1 * (2 * d2 * r1 - d2);
    assert (2 * n1) * d2 == d1 * (2 * n2);
    assert (2 * d1 * r1 + d1) * d2 == d1 * (2 * d2 * r1 + d2);
    CancelBounds(2 * d2 * r1 - d2, 2 * n2, 2 * d2 * r1 + d2, d1);
    UniqueNearest(n2, d2, r1, r2);
  }

  lemma ScaleBounds(lo: int, x: int, hi: int, k: PosInt)
    requires lo <= x < hi
    ensures lo * k <= x * k < hi * k
  {
  }

  lemma CancelBounds(lo: int, x: int, hi: int, k: PosInt)
    requires k * lo <= k * x < k * hi
    ensures lo <= x < hi
  {
  }

  /** A positive factor can be cancelled from a strict inequality. */
  lemma LessCancel(k: PosInt, x: int, y: int)
    requires k * x < k * y
    ensures x < y
  {
  }

  lemma UniqueNearest(num: int, den: PosInt, a: int, b: int)
    requires 2 * den * a - den <= 2 * num < 2 * den * a + den
    requires 2 * den * b - den <= 2 * num < 2 * den * b + den
    ensures a == b
  {
    assert (2 * den) * (a - b) < (2 * den) * 1;
    assert (2 * den) * (b - a) < (2 * den) * 1;
    LessCancel(2 * den, a - b, 1);
    LessCancel(2 * den, b - a, 1);
  }

  /** On a leg ending in a non-stop transit node, the travel time depends on
      `trsTravelTime * travelTimeFactor` only. */
  lemma ApportionedTravelTimeDependsOnProduct(
    total1: int, summed1: int, factor1: Factor, trs1: int,
    total2: int, summed2: int, factor2: Factor, trs2: int)
    requires trs1 * factor1.num * factor2.den == trs2 * factor2.num * factor1.den
    ensures GetTravelTime(total1, summed1, factor1, trs1, true)
         == GetTravelTime(total2, summed2, factor2, trs2, true)
  {
    assert (trs1 * factor1.num) * factor2.den == (trs2 * factor2.num) * factor1.den;
    RoundHalfUpRespectsValue(trs1 * factor1.num, factor1.den, trs2 * factor2.num, factor2.den);
  }

  /** A worked example with 100 minutes in total, 40 already used, factor
      0.5 and a leg of 20 minutes: the final leg gets the remaining 60, a leg
      into a non-stop node gets half its own 20. */
  lemma TravelTimeExample()
    ensures GetTravelTime(100, 40, Factor(1, 2), 20, false) == 60
    ensures GetTravelTime(100, 40, Factor(1, 2), 20, true) == 10
  {
  }
}
