/**
 * The read side of the reading table (MedicalData in Backend/models.py):
 * the latest reading of a user and the per-user statistics over a window of
 * days. Both are queries, so both are functions of the table.
 */
module Statistics {
  import opened Wrappers
  import opened Vitals
  import opened Records

  const SecondsPerDay: int := 86400

  /** The three filters of get_statistics: the user, the window (no upper bound) and `is_valid`. */
  predicate Qualifies(r: Reading, user: int, now: int, days: int) {
    r.userId == user && r.timestamp >= now - days * SecondsPerDay && r.isValid
  }

  /** The rows get_statistics aggregates, in table order. */
  function Qualifying(rows: seq<Reading>, user: int, now: int, days: int): (q: seq<Reading>)
    ensures |q| <= |rows|
    ensures forall r :: r in q <==> r in rows && Qualifies(r, user, now, days)
  {
    if |rows| == 0 then []
    else
      var rest := Qualifying(rows[..|rows| - 1], user, now, days);
      var last := rows[|rows| - 1];
      assert rows == rows[..|rows| - 1] + [last];
      if Qualifies(last, user, now, days) then rest + [last] else rest
  }

  /** Each qualifying row is kept as often as the table holds it; no other row is kept. */
  lemma {:induction false} QualifyingCounts(rows: seq<Reading>, user: int, now: int, days: int)
    ensures forall r :: multiset(Qualifying(rows, user, now, days))[r] == if Qualifies(r, user, now, days) then multiset(rows)[r] else 0
  {
    if |rows| > 0 {
      var init, last := rows[..|rows| - 1], rows[|rows| - 1];
      QualifyingCounts(init, user, now, days);
      assert rows == init + [last];
      QualifyingSnoc(init, last, user, now, days);
      assert multiset(rows) == multiset(init) + multiset{last};
    }
  }

  /** A row added at the end is kept, at the end, exactly when it qualifies. */
  lemma QualifyingSnoc(rows: seq<Reading>, x: Reading, user: int, now: int, days: int)
    ensures Qualifying(rows + [x], user, now, days)
      == Qualifying(rows, user, now, days) + if Qualifies(x, user, now, days) then [x] else []
  {
    assert (rows + [x])[..|rows|] == rows;
  }

  /** The filter keeps table order: the qualifying rows of two runs of rows are those of the first, then those of the second. */
  lemma {:induction false} QualifyingConcat(a: seq<Reading>, b: seq<Reading>, user: int, now: int, days: int)
    ensures Qualifying(a + b, user, now, days) == Qualifying(a, user, now, days) + Qualifying(b, user, now, days)
  {
    if |b| == 0 {
      assert a + b == a;
    } else {
      var n := |b| - 1;
      var tail := if Qualifies(b[n], user, now, days) then [b[n]] else [];
      calc {
        Qualifying(a + b, user, now, days);
      == { assert a + b == (a + b[..n]) + [b[n]]; QualifyingSnoc(a + b[..n], b[n], user, now, days); }
        Qualifying(a + b[..n], user, now, days) + tail;
      == { QualifyingConcat(a, b[..n], user, now, days); }
        (Qualifying(a, user, now, days) + Qualifying(b[..n], user, now, days)) + tail;
      == // concatenation is associative
        Qualifying(a, user, now, days) + (Qualifying(b[..n], user, now, days) + tail);
      == { assert b == b[..n] + [b[n]]; QualifyingSnoc(b[..n], b[n], user, now, days); }
        Qualifying(a, user, now, days) + Qualifying(b, user, now, days);
      }
    }
  }

  /** The aggregated columns. */
  datatype Column = Temperature | Pulse | HeartRate | OxygenSaturation

  function ColumnOf(r: Reading, c: Column): Field {
    match c
    case Temperature => r.bodyTemperature
    case Pulse => r.pulseRate
    case HeartRate => r.heartRate
    case OxygenSaturation => r.spo2
  }

  /** The non-NULL values of a column, which are what SQL's AVG, MIN and MAX see. */
  function Values(rows: seq<Reading>, c: Column): (vs: seq<real>)
    ensures |vs| <= |rows|
    ensures forall v :: v in vs ==> exists r :: r in rows && ColumnOf(r, c) == Num(v)
    ensures (forall r :: r in rows ==> ColumnOf(r, c).Num?) ==> |vs| == |rows|
  {
    if |rows| == 0 then []
    else
      var init := rows[..|rows| - 1];
      var rest := Values(init, c);
      assert forall r :: r in init ==> r in rows;
      assert rows == init + [rows[|rows| - 1]];
      match ColumnOf(rows[|rows| - 1], c)
      case Num(v) => rest + [v]
      case _ => rest
  }

  /** A row added at the end adds its value, if it has one, at the end: the values are the rows' numeric entries, one per row, in order. */
  lemma ValuesAppend(rows: seq<Reading>, x: Reading, c: Column)
    ensures Values(rows + [x], c) == Values(rows, c) + (if ColumnOf(x, c).Num? then [ColumnOf(x, c).v] else [])
  {
    assert (rows + [x])[..|rows|] == rows;
  }

  /** The values of two runs of rows are those of the first, then those of the second. */
  lemma {:induction false} ValuesConcat(a: seq<Reading>, b: seq<Reading>, c: Column)
    ensures Values(a + b, c) == Values(a, c) + Values(b, c)
  {
    if |b| == 0 {
      assert a + b == a;
    } else {
      var n := |b| - 1;
      var tail := if ColumnOf(b[n], c).Num? then [ColumnOf(b[n], c).v] else [];
      calc {
        Values(a + b, c);
      == { assert a + b == (a + b[..n]) + [b[n]]; ValuesAppend(a + b[..n], b[n], c); }
        Values(a + b[..n], c) + tail;
      == { ValuesConcat(a, b[..n], c); }
        (Values(a, c) + Values(b[..n], c)) + tail;
      == // concatenation is associative
        Values(a, c) + (Values(b[..n], c) + tail);
      == { assert b == b[..n] + [b[n]]; ValuesAppend(b[..n], b[n], c); }
        Values(a, c) + Values(b, c);
      }
    }
  }

  function Sum(vs: seq<real>): real {
    if |vs| == 0 then 0.0 else vs[0] + Sum(vs[1..])
  }

  function Minimum(vs: seq<real>): (m: real)
    requires |vs| > 0
    ensures m in vs && forall v :: v in vs ==> m <= v
  {
    if |vs| == 1 then vs[0]
    else
      var rest := Minimum(vs[1..]);
      assert forall v :: v in vs ==> v == vs[0] || v in vs[1..];
      if vs[0] <= rest then vs[0] else rest
  }

  function Maximum(vs: seq<real>): (m: real)
    requires |vs| > 0
    ensures m in vs && forall v :: v in vs ==> v <= m
  {
    if |vs| == 1 then vs[0]
    else
      var rest := Maximum(vs[1..]);
      assert forall v :: v in vs ==> v == vs[0] || v in vs[1..];
      if vs[0] >= rest then vs[0] else rest
  }

  /** SQL AVG, MIN and MAX: NULL (None) over no values. */
  function Avg(vs: seq<real>): Option<real> {
    if |vs| == 0 then None else Some(Sum(vs) / (|vs| as real))
  }

  function Min(vs: seq<real>): Option<real> {
    if |vs| == 0 then None else Some(Minimum(vs))
  }

  function Max(vs: seq<real>): Option<real> {
    if |vs| == 0 then None else Some(Maximum(vs))
  }

  /** `x if x else None`: an aggregate of exactly 0 is reported as missing too. */
  function IfTruthy(x: Option<real>): (r: Option<real>)
    ensures r.Some? <==> x.Some? && x.value != 0.0
    ensures r.Some? ==> r == x
  {
    if x.Some? && x.value != 0.0 then x else None
  }

  /** The dictionary get_statistics returns, without the rounding to one decimal. */
  datatype Stats = Stats(
    avgTemperature: Option<real>,
    minTemperature: Option<real>,
    maxTemperature: Option<real>,
    avgPulse: Option<real>,
    minPulse: Option<real>,
    maxPulse: Option<real>,
    avgHeartRate: Option<real>,
    avgSpo2: Option<real>,
    totalReadings: nat,
    periodDays: int)

  /**
   * get_statistics: the aggregates over the qualifying rows. The pulse
   * minimum and maximum are passed through as the database returns them;
   * every other aggregate goes through the truthiness test.
   */
  function GetStatistics(rows: seq<Reading>, user: int, now: int, days: int): (s: Stats)
    ensures s.totalReadings == |Qualifying(rows, user, now, days)|
    ensures s.periodDays == days
    ensures s.totalReadings == 0 ==>
      s.avgTemperature.None? && s.minTemperature.None? && s.maxTemperature.None?
      && s.avgPulse.None? && s.minPulse.None? && s.maxPulse.None?
      && s.avgHeartRate.None? && s.avgSpo2.None?
  {
    var q := Qualifying(rows, user, now, days);
    var temps, pulses := Values(q, Temperature), Values(q, Pulse);
    Stats(
      IfTruthy(Avg(temps)), IfTruthy(Min(temps)), IfTruthy(Max(temps)),
      IfTruthy(Avg(pulses)), Min(pulses), Max(pulses),
      IfTruthy(Avg(Values(q, HeartRate))),
      IfTruthy(Avg(Values(q, OxygenSaturation))),
      |q|, days)
  }

  lemma {:induction false} SumBounds(vs: seq<real>, lo: real, hi: real)
    requires forall v :: v in vs ==> lo <= v <= hi
    ensures (|vs| as real) * lo <= Sum(vs) <= (|vs| as real) * hi
  {
    if |vs| > 0 {
      assert forall v :: v in vs[1..] ==> v in vs;
      SumBounds(vs[1..], lo, hi);
      assert vs[0] in vs;
      ExtendBounds(|vs[1..]| as real, vs[0], Sum(vs[1..]), lo, hi);
    }
  }

  /** One more value within [lo, hi] keeps a sum of m values within m times the bounds. */
  lemma ExtendBounds(m: real, x: real, s: real, lo: real, hi: real)
    requires m * lo <= s <= m * hi && lo <= x <= hi
    ensures (m + 1.0) * lo <= x + s <= (m + 1.0) * hi
  {
  }

  lemma QuotientBetween(total: real, n: real, lo: real, hi: real)
    requires n > 0.0 && n * lo <= total <= n * hi
    ensures lo <= total / n <= hi
  {
    assert total / n - lo == (total - n * lo) / n;
    assert hi - total / n == (n * hi - total) / n;
  }

  /** The average of a non-empty list lies between its minimum and its maximum. */
  lemma AverageBetween(vs: seq<real>)
    requires |vs| > 0
    ensures Min(vs).value <= Avg(vs).value <= Max(vs).value
  {
    SumBounds(vs, Minimum(vs), Maximum(vs));
    QuotientBetween(Sum(vs), |vs| as real, Minimum(vs), Maximum(vs));
  }

  /**
   * min <= average <= max for the temperature whenever all three are
   * reported, and for the pulse whenever the average is reported.
   */
  lemma StatisticsAreOrdered(rows: seq<Reading>, user: int, now: int, days: int)
    ensures var s := GetStatistics(rows, user, now, days);
      s.avgTemperature.Some? && s.minTemperature.Some? && s.maxTemperature.Some? ==>
        s.minTemperature.value <= s.avgTemperature.value <= s.maxTemperature.value
    ensures var s := GetStatistics(rows, user, now, days);
      s.avgPulse.Some? ==> s.minPulse.Some? && s.maxPulse.Some? && s.minPulse.value <= s.avgPulse.value <= s.maxPulse.value
  {
    var q := Qualifying(rows, user, now, days);
    if |Values(q, Temperature)| > 0 {
      AverageBetween(Values(q, Temperature));
    }
    if |Values(q, Pulse)| > 0 {
      AverageBetween(Values(q, Pulse));
    }
  }

  /** A row that fails any one filter does not change the statistics. */
  lemma NonQualifyingRowIgnored(rows: seq<Reading>, r: Reading, user: int, now: int, days: int)
    requires !Qualifies(r, user, now, days)
    ensures GetStatistics(rows + [r], user, now, days) == GetStatistics(rows, user, now, days)
  {
    assert (rows + [r])[..|rows + [r]| - 1] == rows;
  }

  /** With every qualifying row complete, the count is the number of temperatures averaged. */
  lemma CountMatchesValues(rows: seq<Reading>, user: int, now: int, days: int)
    requires forall r :: r in rows ==> Storable(r) && Comparable(r)
    ensures |Values(Qualifying(rows, user, now, days), Temperature)| == GetStatistics(rows, user, now, days).totalReadings
  {
  }

  /**
   * get_latest_by_user: one of the user's rows with the largest timestamp,
   * or None when the user has none.
   */
  function LatestByUser(rows: seq<Reading>, user: int): (r: Option<Reading>)
    ensures r.None? <==> forall x :: x in rows ==> x.userId != user
    ensures r.Some? ==> r.value in rows && r.value.userId == user
    ensures r.Some? ==> forall x :: x in rows && x.userId == user ==> x.timestamp <= r.value.timestamp
  {
    if |rows| == 0 then None
    else
      var rest := LatestByUser(rows[1..], user);
      assert forall x :: x in rows ==> x == rows[0] || x in rows[1..];
      if rows[0].userId != user then rest
      else if rest.Some? && rest.value.timestamp > rows[0].timestamp then rest
      else Some(rows[0])
  }
}
