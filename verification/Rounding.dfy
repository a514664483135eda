/** Rounded divisions: hourly costs (cost/cost.go) and the billable throughput
    of a file system (aws/terraform/efs_file_system.go). */
module Rounding {
  import opened Costs
  import opened Orders

  // The integer nearest to y; a half goes away from zero.
  function Nearest(y: real): int {
    if y >= 0.0 then (y + 0.5).Floor else -(0.5 - y).Floor
  }

  // `scale` is the number of units in 1: 10 to the power of the precision.
  function Round(x: real, scale: real): real
    requires scale > 0.0
  {
    Nearest(x * scale) as real / scale
  }

  predicate IsWhole(y: real) {
    y.Floor as real == y
  }

  function Abs(x: real): real {
    if x < 0.0 then -x else x
  }

  const PLACES_6 := 1000000.0
  const PLACES_10 := 10000000000.0
  const PLACES_16 := 10000000000000000.0

  // ----- what rounding means -----

  // `n` is a better choice for y than k: nearer, or as near and no closer to zero.
  predicate Beats(y: real, n: int, k: int) {
    var d, e := Abs(y - n as real), Abs(y - k as real);
    d < e || (d == e && Abs(k as real) <= Abs(n as real))
  }

  /** No integer beats the rounded one: none is nearer, and of two equally near
      ones it is the one further from zero. */
  lemma NearestBeats(y: real, k: int)
    ensures Abs(y - Nearest(y) as real) <= 0.5
    ensures Beats(y, Nearest(y), k)
  {
    var n := Nearest(y);
    assert k < n ==> k <= n - 1;
    assert k > n ==> k >= n + 1;
  }

  /** That leaves no other candidate. */
  lemma NearestUnique(y: real, n: int)
    requires forall k: int :: Beats(y, n, k)
    ensures n == Nearest(y)
  {
    NearestBeats(y, n);
    assert Beats(y, n, Nearest(y));
  }

  lemma NearestMonotone(y: real, z: real)
    requires y <= z
    ensures Nearest(y) <= Nearest(z)
  {
  }

  lemma NearestExactly(y: real)
    ensures Nearest(y) as real == y <==> IsWhole(y)
  {
    if IsWhole(y) {
      var k := y.Floor;
      NearestBeats(y, k);
    }
  }

  lemma RoundNear(x: real, scale: real)
    requires scale > 0.0
    ensures Abs(Round(x, scale) - x) * scale <= 0.5
    ensures IsWhole(Round(x, scale) * scale)
  {
    var y := x * scale;
    var n := Nearest(y) as real;
    NearestBeats(y, 0);
    var r := n / scale;
    assert r * scale == n;
    assert Round(x, scale) * scale == n;
    assert IsWhole(n);
    assert (r - x) * scale == n - y;
    assert (x - r) * scale == y - n;
  }

  lemma RoundMonotone(x: real, z: real, scale: real)
    requires scale > 0.0 && x <= z
    ensures Round(x, scale) <= Round(z, scale)
  {
    assert x * scale <= z * scale;
    NearestMonotone(x * scale, z * scale);
    var a, b := Nearest(x * scale) as real, Nearest(z * scale) as real;
    Divided(a, b, scale);
  }

  lemma Divided(a: real, b: real, scale: real)
    requires scale > 0.0 && a <= b
    ensures a / scale <= b / scale
  {
    assert (b - a) / scale >= 0.0;
  }

  lemma RoundExactly(x: real, scale: real)
    requires scale > 0.0
    ensures Round(x, scale) == x <==> IsWhole(x * scale)
  {
    var n := Nearest(x * scale) as real;
    assert (n / scale) * scale == n;
    NearestExactly(x * scale);
    if n == x * scale {
      assert (x * scale) / scale == x;
    }
  }

  // Of two nearest multiples it is the one further from zero.
  lemma RoundTies(x: real, scale: real)
    requires scale > 0.0
    ensures (Round(x, scale) - x) * scale == 0.5 ==> x >= 0.0
    ensures (Round(x, scale) - x) * scale == -0.5 ==> x < 0.0
  {
    var y := x * scale;
    var n := Nearest(y) as real;
    assert (n / scale) * scale == n;
    assert (Round(x, scale) - x) * scale == n - y;
    assert y >= 0.0 <==> x >= 0.0;
  }

  // ----- hourly and monthly costs -----

  function DivRound(x: real, d: real, scale: real): real
    requires d != 0.0 && scale > 0.0
  {
    Round(x / d, scale)
  }

  function Hourly(c: Cost): real {
    DivRound(c.Decimal.Amount(), HOURS_PER_MONTH, PLACES_6)
  }

  /** A price per hour comes back rounded to 6 places: unchanged exactly when it
      has no more than 6. */
  lemma HourlyRoundTrip(h: Decimal, currency: string)
    ensures Hourly(NewHourly(h, currency)) == Round(h.Amount(), PLACES_6)
    ensures Hourly(NewHourly(h, currency)) == h.Amount() <==> IsWhole(h.Amount() * PLACES_6)
  {
    assert h.Amount() * HOURS_PER_MONTH / HOURS_PER_MONTH == h.Amount();
    RoundExactly(h.Amount(), PLACES_6);
  }

  /** 730 rounded hours are within 0.000365 of the month. */
  lemma HourlyTimesMonth(c: Cost)
    ensures Abs(Hourly(c) * HOURS_PER_MONTH - c.Decimal.Amount()) <= 0.000365
  {
    RoundNear(c.Decimal.Amount() / HOURS_PER_MONTH, PLACES_6);
  }

  // The bound is reached.
  lemma HourlyBoundIsTight(currency: string)
    ensures var c := NewMonthly(Is(0.000365), currency);
            Abs(Hourly(c) * HOURS_PER_MONTH - c.Decimal.Amount()) == 0.000365
  {
    var y := 0.000365 / HOURS_PER_MONTH * PLACES_6;
    assert y == 0.5;
    assert (y + 0.5).Floor == 1;
  }

  function HourlyEach(months: seq<real>): (r: seq<real>)
    ensures |r| == |months|
  {
    seq(|months|, i requires 0 <= i < |months| => DivRound(months[i], HOURS_PER_MONTH, PLACES_6))
  }

  /** The hourly total and the total of n hourly costs differ by at most
      (n + 1) / 2 millionths. */
  lemma {:induction false} HourlyTotalDrift(months: seq<real>)
    ensures Abs(Sum(HourlyEach(months)) * HOURS_PER_MONTH - Sum(months)) <= 0.000365 * |months| as real
    ensures Abs(Sum(HourlyEach(months)) - DivRound(Sum(months), HOURS_PER_MONTH, PLACES_6))
            <= (|months| + 1) as real / 2000000.0
  {
    if months != [] {
      var front, last := months[..|months| - 1], months[|months| - 1];
      HourlyTotalDrift(front);
      assert HourlyEach(months)[..|months| - 1] == HourlyEach(front);
      RoundNear(last / HOURS_PER_MONTH, PLACES_6);
    }
    RoundNear(Sum(months) / HOURS_PER_MONTH, PLACES_6);
  }

  // ----- billable throughput -----

  // Dividing without a precision rounds to 16 places.
  function Div(x: real, d: real): real
    requires d != 0.0
  {
    DivRound(x, d, PLACES_16)
  }

  function CalculateProvisionedThroughput(storageGB: real, throughput: real): real {
    var defaultThroughput := storageGB * Div(730.0, 20.0 * 1.0);
    var totalProvisionedThroughput := throughput * 730.0;
    var totalBillable := Div(totalProvisionedThroughput - defaultThroughput, 730.0);
    if totalBillable > 0.0 then totalBillable else 0.0
  }

  function Excess(storageGB: real, throughput: real): real {
    throughput - storageGB / 20.0
  }

  lemma BillableIsRounded(storageGB: real, throughput: real)
    ensures var r := Round(Excess(storageGB, throughput), PLACES_16);
            CalculateProvisionedThroughput(storageGB, throughput) == if r > 0.0 then r else 0.0
  {
    RoundExactly(36.5, PLACES_16);
    assert IsWhole(36.5 * PLACES_16) by {
      assert 36.5 * PLACES_16 == 365000000000000000 as real;
    }
    assert 730.0 / (20.0 * 1.0) == 36.5;
    assert Div(730.0, 20.0 * 1.0) == 36.5;
    var net := throughput * 730.0 - storageGB * Div(730.0, 20.0 * 1.0);
    assert net == throughput * 730.0 - storageGB * 36.5;
    assert net / 730.0 == Excess(storageGB, throughput);
  }

  /** The billable throughput is what exceeds a twentieth of the storage, and
      nothing below that, within half a unit in the 16th place. */
  lemma BillableNear(storageGB: real, throughput: real)
    ensures var billable := CalculateProvisionedThroughput(storageGB, throughput);
            var excess := Excess(storageGB, throughput);
            billable >= 0.0 && Abs(billable - if excess > 0.0 then excess else 0.0) * PLACES_16 <= 0.5
  {
    BillableIsRounded(storageGB, throughput);
    RoundNear(Excess(storageGB, throughput), PLACES_16);
  }

  /** Nothing is billed exactly when the excess is below half a unit. */
  lemma BillableZeroExactly(storageGB: real, throughput: real)
    ensures CalculateProvisionedThroughput(storageGB, throughput) == 0.0 <==>
              Excess(storageGB, throughput) * PLACES_16 < 0.5
  {
    BillableIsRounded(storageGB, throughput);
    var y := Excess(storageGB, throughput) * PLACES_16;
    assert Nearest(y) > 0 <==> y >= 0.5;
    assert Round(Excess(storageGB, throughput), PLACES_16) == Nearest(y) as real / PLACES_16;
  }

  /** More throughput is never billed less, more storage never more. */
  lemma BillableMonotone(storageGB: real, throughput: real, storageGB': real, throughput': real)
    requires storageGB' <= storageGB && throughput <= throughput'
    ensures CalculateProvisionedThroughput(storageGB, throughput) <= CalculateProvisionedThroughput(storageGB', throughput')
  {
    BillableIsRounded(storageGB, throughput);
    BillableIsRounded(storageGB', throughput');
    RoundMonotone(Excess(storageGB, throughput), Excess(storageGB', throughput'), PLACES_16);
  }
}
