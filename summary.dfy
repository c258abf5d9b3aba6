/**
 * DataProcessor in backend/utils.py: the BMI category and the health
 * summary of a user (statistics, latest reading, the newest unacknowledged
 * alerts and the list of concerns).
 */
module Summary {
  import opened Wrappers
  import opened Records
  import opened Statistics

  /** get_bmi_category: the bands are split at 18.5, 25 and 30, each lower end inclusive. */
  function BmiCategory(bmi: Option<real>): (c: string)
    ensures bmi.None? <==> c == "Unknown"
    ensures c == "Underweight" <==> bmi.Some? && bmi.value < 18.5
    ensures c == "Normal" <==> bmi.Some? && 18.5 <= bmi.value < 25.0
    ensures c == "Overweight" <==> bmi.Some? && 25.0 <= bmi.value < 30.0
    ensures c == "Obese" <==> bmi.Some? && 30.0 <= bmi.value
  {
    if bmi.None? then "Unknown"
    else if bmi.value < 18.5 then "Underweight"
    else if bmi.value < 25.0 then "Normal"
    else if bmi.value < 30.0 then "Overweight"
    else "Obese"
  }

  const ElevatedTemperature: string := "Elevated average temperature"
  const ElevatedPulse: string := "Elevated average pulse rate"

  /** The concerns of get_health_summary, read off the statistics. */
  function Concerns(s: Stats): (c: seq<string>)
    ensures ElevatedTemperature in c <==> s.avgTemperature.Some? && s.avgTemperature.value > 99.0
    ensures ElevatedPulse in c <==> s.avgPulse.Some? && s.avgPulse.value > 100.0
    ensures |c| <= 2 && forall x :: x in c ==> x == ElevatedTemperature || x == ElevatedPulse
    ensures |c| == 2 ==> c[0] == ElevatedTemperature && c[1] == ElevatedPulse
  {
    (if s.avgTemperature.Some? && s.avgTemperature.value > 99.0 then [ElevatedTemperature] else [])
    + (if s.avgPulse.Some? && s.avgPulse.value > 100.0 then [ElevatedPulse] else [])
  }

  /** The cap on the alerts a summary lists. */
  const ActiveAlertLimit: nat := 10

  /** The user's alerts not yet acknowledged, in table order. */
  function Unacknowledged(alerts: seq<Alert>, user: int): (u: seq<Alert>)
    ensures forall a :: a in u <==> a in alerts && a.userId == user && !a.acknowledged
    ensures |u| <= |alerts|
  {
    if |alerts| == 0 then []
    else
      var rest := Unacknowledged(alerts[..|alerts| - 1], user);
      var last := alerts[|alerts| - 1];
      assert alerts == alerts[..|alerts| - 1] + [last];
      if last.userId == user && !last.acknowledged then rest + [last] else rest
  }

  predicate Open(a: Alert, user: int) {
    a.userId == user && !a.acknowledged
  }

  /** An alert added at the end is listed, at the end, exactly when it is the user's and open. */
  lemma UnacknowledgedSnoc(alerts: seq<Alert>, a: Alert, user: int)
    ensures Unacknowledged(alerts + [a], user) == Unacknowledged(alerts, user) + if Open(a, user) then [a] else []
  {
    assert (alerts + [a])[..|alerts|] == alerts;
  }

  /** The filter keeps table order: the open alerts of two runs of alerts are those of the first, then those of the second. */
  lemma {:induction false} UnacknowledgedConcat(a: seq<Alert>, b: seq<Alert>, user: int)
    ensures Unacknowledged(a + b, user) == Unacknowledged(a, user) + Unacknowledged(b, user)
  {
    if |b| == 0 {
      assert a + b == a;
    } else {
      var n := |b| - 1;
      var tail := if Open(b[n], user) then [b[n]] else [];
      calc {
        Unacknowledged(a + b, user);
      == { assert a + b == (a + b[..n]) + [b[n]]; UnacknowledgedSnoc(a + b[..n], b[n], user); }
        Unacknowledged(a + b[..n], user) + tail;
      == { UnacknowledgedConcat(a, b[..n], user); }
        (Unacknowledged(a, user) + Unacknowledged(b[..n], user)) + tail;
      == // concatenation is associative
        Unacknowledged(a, user) + (Unacknowledged(b[..n], user) + tail);
      == { assert b == b[..n] + [b[n]]; UnacknowledgedSnoc(b[..n], b[n], user); }
        Unacknowledged(a, user) + Unacknowledged(b, user);
      }
    }
  }

  /** Each open alert of the user is listed as often as the table holds it; no other alert is listed. */
  lemma {:induction false} UnacknowledgedCounts(alerts: seq<Alert>, user: int)
    ensures forall a :: multiset(Unacknowledged(alerts, user))[a] == if Open(a, user) then multiset(alerts)[a] else 0
  {
    if |alerts| > 0 {
      var init, last := alerts[..|alerts| - 1], alerts[|alerts| - 1];
      UnacknowledgedCounts(init, user);
      assert alerts == init + [last];
      UnacknowledgedSnoc(init, last, user);
      assert multiset(alerts) == multiset(init) + multiset{last};
    }
  }

  predicate NewestFirst(s: seq<Alert>) {
    forall i, j :: 0 <= i < j < |s| ==> s[i].createdAt >= s[j].createdAt
  }

  function InsertByTime(a: Alert, s: seq<Alert>): (r: seq<Alert>)
    requires NewestFirst(s)
    ensures NewestFirst(r) && multiset(r) == multiset(s) + multiset{a}
  {
    if |s| == 0 || a.createdAt >= s[0].createdAt then [a] + s
    else
      var rest := InsertByTime(a, s[1..]);
      InsertBehind(a, s, rest);
      [s[0]] + rest
  }

  /** An alert older than the head goes behind it: the result stays newest-first and gains exactly that alert. */
  lemma InsertBehind(a: Alert, s: seq<Alert>, rest: seq<Alert>)
    requires NewestFirst(s) && |s| > 0 && a.createdAt < s[0].createdAt
    requires NewestFirst(rest) && multiset(rest) == multiset(s[1..]) + multiset{a}
    ensures NewestFirst([s[0]] + rest) && multiset([s[0]] + rest) == multiset(s) + multiset{a}
  {
    var r := [s[0]] + rest;
    assert NewestFirst(r) by {
      NoNewerThan(a, s, rest);
      forall i, j | 0 <= i < j < |r| ensures r[i].createdAt >= r[j].createdAt {
        assert r[j] == rest[j - 1] && r[j] in rest;
        if i > 0 { assert r[i] == rest[i - 1]; }
      }
    }
    assert s == [s[0]] + s[1..];
    assert multiset(r) == multiset{s[0]} + multiset(rest);
  }

  lemma NoNewerThan(a: Alert, s: seq<Alert>, rest: seq<Alert>)
    requires NewestFirst(s) && |s| > 0 && a.createdAt < s[0].createdAt
    requires multiset(rest) == multiset(s[1..]) + multiset{a}
    ensures forall x :: x in rest ==> x.createdAt <= s[0].createdAt
  {
    forall x | x in rest ensures x.createdAt <= s[0].createdAt {
      assert x in multiset(rest);
      if x != a {
        assert x in multiset(s[1..]);
        var k :| 0 <= k < |s[1..]| && s[1..][k] == x;
        assert s[k + 1] == x;
      }
    }
  }

  /** `order_by(created_at.desc())`: newest first, the same alerts. */
  function SortByNewest(s: seq<Alert>): (r: seq<Alert>)
    ensures NewestFirst(r) && multiset(r) == multiset(s)
  {
    if |s| == 0 then []
    else
      assert s == [s[0]] + s[1..];
      InsertByTime(s[0], SortByNewest(s[1..]))
  }

  /** What a prefix of a newest-first list leaves out is no newer than what it keeps. */
  lemma PrefixIsNewest(sorted: seq<Alert>, n: nat)
    requires NewestFirst(sorted) && n <= |sorted|
    ensures forall a, b :: a in sorted && a !in sorted[..n] && b in sorted[..n] ==> a.createdAt <= b.createdAt
  {
    forall a, b | a in sorted && a !in sorted[..n] && b in sorted[..n] ensures a.createdAt <= b.createdAt {
      var i :| 0 <= i < |sorted| && sorted[i] == a;
      var j :| 0 <= j < n && sorted[..n][j] == b;
    }
  }

  /** The alert list of get_health_summary: the user's unacknowledged alerts, newest first, at most ten. */
  function ActiveAlerts(alerts: seq<Alert>, user: int): (r: seq<Alert>)
    ensures |r| == if |Unacknowledged(alerts, user)| < ActiveAlertLimit then |Unacknowledged(alerts, user)| else ActiveAlertLimit
    ensures NewestFirst(r)
    ensures forall a :: a in r ==> a in alerts && a.userId == user && !a.acknowledged
    ensures multiset(r) <= multiset(Unacknowledged(alerts, user))
  {
    var u := Unacknowledged(alerts, user);
    var sorted := SortByNewest(u);
    assert |sorted| == |u| by {
      assert |sorted| == |multiset(sorted)|;
    }
    var n := if |sorted| < ActiveAlertLimit then |sorted| else ActiveAlertLimit;
    NewestPrefix(sorted, n);
    assert forall a :: a in sorted ==> a in u by {
      forall a | a in sorted ensures a in u {
        assert a in multiset(sorted);
      }
    }
    sorted[..n]
  }

  /** A prefix of a newest-first list is newest-first and holds only members of the list. */
  lemma NewestPrefix(sorted: seq<Alert>, n: nat)
    requires NewestFirst(sorted) && n <= |sorted|
    ensures NewestFirst(sorted[..n])
    ensures forall a :: a in sorted[..n] ==> a in sorted
    ensures multiset(sorted[..n]) <= multiset(sorted)
  {
    assert sorted == sorted[..n] + sorted[n..];
  }

  /** No open alert of the user left out of the list is newer than one in it. */
  lemma ActiveAlertsAreNewest(alerts: seq<Alert>, user: int)
    ensures forall a, b ::
      (a in alerts && a.userId == user && !a.acknowledged && a !in ActiveAlerts(alerts, user) && b in ActiveAlerts(alerts, user))
      ==> a.createdAt <= b.createdAt
  {
    var u := Unacknowledged(alerts, user);
    var sorted := SortByNewest(u);
    assert |sorted| == |multiset(sorted)| == |u|;
    var n := if |sorted| < ActiveAlertLimit then |sorted| else ActiveAlertLimit;
    PrefixIsNewest(sorted, n);
    assert forall a :: a in u ==> a in multiset(sorted);
  }

  /** When the user has fewer than ten open alerts, the summary lists every one of them. */
  lemma ActiveAlertsComplete(alerts: seq<Alert>, user: int)
    requires |Unacknowledged(alerts, user)| < ActiveAlertLimit
    ensures multiset(ActiveAlerts(alerts, user)) == multiset(Unacknowledged(alerts, user))
  {
    var u := Unacknowledged(alerts, user);
    var sorted := SortByNewest(u);
    assert |sorted| == |multiset(sorted)| == |u|;
    assert sorted[..|sorted|] == sorted;
  }

  /** The dictionary get_health_summary returns. */
  datatype HealthSummary = HealthSummary(
    statistics: Stats,
    latestReading: Option<Reading>,
    activeAlerts: seq<Alert>,
    concerns: seq<string>,
    periodDays: int)

  /** get_health_summary over the reading and alert tables at time `now`. */
  function GetHealthSummary(readings: seq<Reading>, alerts: seq<Alert>, user: int, now: int, days: int): (h: HealthSummary)
    ensures h.statistics == GetStatistics(readings, user, now, days)
    ensures h.latestReading == LatestByUser(readings, user)
    ensures h.activeAlerts == ActiveAlerts(alerts, user)
    ensures h.concerns == Concerns(h.statistics)
    ensures h.statistics.totalReadings == |Qualifying(readings, user, now, days)|
    ensures h.periodDays == days && h.statistics.periodDays == days
    ensures h.latestReading.None? <==> forall r :: r in readings ==> r.userId != user
    ensures forall a :: a in h.activeAlerts ==> a.userId == user && !a.acknowledged
    ensures |h.activeAlerts| <= ActiveAlertLimit
    ensures ElevatedTemperature in h.concerns <==>
      h.statistics.avgTemperature.Some? && h.statistics.avgTemperature.value > 99.0
    ensures ElevatedPulse in h.concerns <==> h.statistics.avgPulse.Some? && h.statistics.avgPulse.value > 100.0
  {
    var stats := GetStatistics(readings, user, now, days);
    HealthSummary(stats, LatestByUser(readings, user), ActiveAlerts(alerts, user), Concerns(stats), days)
  }

  /** A reading outside the window, of another user or invalid never raises a concern. */
  lemma ConcernsIgnoreNonQualifying(readings: seq<Reading>, r: Reading, alerts: seq<Alert>, user: int, now: int, days: int)
    requires !Qualifies(r, user, now, days)
    ensures GetHealthSummary(readings + [r], alerts, user, now, days).concerns
         == GetHealthSummary(readings, alerts, user, now, days).concerns
  {
    NonQualifyingRowIgnored(readings, r, user, now, days);
  }
}
