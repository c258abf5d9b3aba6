/**
 * The threshold alert engine (HealthAlertManager.check_and_create_alerts):
 * one reading and the thresholds give an ordered list of alerts, checked
 * temperature, pulse, heart rate, SpO2, battery.
 */
module AlertEngine {
  import opened Wrappers
  import opened Vitals
  import opened Records
  import opened Storage

  /** The hard-coded cutoffs of the engine: critical fever and low battery. */
  const CriticalTemperature: real := 102.0
  const LowBattery: real := 15.0

  /** Which check an alert kind comes from, in the order the checks run. */
  function Group(k: AlertKind): nat {
    match k
    case TemperatureHigh => 0
    case TemperatureLow => 0
    case PulseHigh => 1
    case PulseLow => 1
    case HeartRateHigh => 2
    case Spo2Low => 3
    case BatteryLow => 4
  }

  /** The measured value an alert of kind `k` reports. */
  function Measured(r: Reading, k: AlertKind): Field {
    match Group(k)
    case 0 => r.bodyTemperature
    case 1 => r.pulseRate
    case 2 => r.heartRate
    case 3 => r.spo2
    case _ => r.batteryLevel
  }

  /** The threshold an alert of kind `k` reports. */
  function ThresholdOf(t: Thresholds, k: AlertKind): real {
    match k
    case TemperatureHigh => t.tempAlertHigh
    case TemperatureLow => t.tempAlertLow
    case PulseHigh => t.pulseAlertHigh
    case PulseLow => t.pulseAlertLow
    case HeartRateHigh => t.heartRateAlertHigh
    case Spo2Low => t.spo2AlertLow
    case BatteryLow => LowBattery
  }

  function NewAlert(r: Reading, k: AlertKind, s: Severity, value: real, threshold: real, now: int): Alert {
    Alert(r.userId, Some(r.id), k, s, value, threshold, now, false, None)
  }

  /** What every alert raised for `r` carries: its user and reading, the measured value and the crossed threshold. */
  predicate Fits(r: Reading, t: Thresholds, now: int, a: Alert) {
    && a.userId == r.userId && a.readingId == Some(r.id)
    && a.createdAt == now && !a.acknowledged && a.acknowledgedAt.None?
    && Measured(r, a.kind) == Num(a.value) && a.value != 0.0
    && a.threshold == ThresholdOf(t, a.kind)
  }

  /** The result of one check: at most one alert, from check `g`. */
  predicate CheckResult(r: Reading, t: Thresholds, now: int, g: nat, s: seq<Alert>) {
    |s| <= 1 && forall a :: a in s ==> Group(a.kind) == g && Fits(r, t, now, a)
  }

  /** Alerts in strictly increasing check order. */
  predicate InCheckOrder(s: seq<Alert>) {
    forall i, j :: 0 <= i < j < |s| ==> Group(s[i].kind) < Group(s[j].kind)
  }

  predicate Raised(alerts: seq<Alert>, k: AlertKind) {
    exists a :: a in alerts && a.kind == k
  }

  function TemperatureAlerts(r: Reading, t: Thresholds, now: int): (s: seq<Alert>)
    ensures CheckResult(r, t, now, 0, s)
  {
    match r.bodyTemperature
    case Num(v) =>
      if v == 0.0 then []
      else if v >= t.tempAlertHigh then
        [NewAlert(r, TemperatureHigh, if v < CriticalTemperature then Warning else Critical, v, t.tempAlertHigh, now)]
      else if v <= t.tempAlertLow then [NewAlert(r, TemperatureLow, Warning, v, t.tempAlertLow, now)]
      else []
    case _ => []
  }

  function PulseAlerts(r: Reading, t: Thresholds, now: int): (s: seq<Alert>)
    ensures CheckResult(r, t, now, 1, s)
  {
    match r.pulseRate
    case Num(v) =>
      if v == 0.0 then []
      else if v >= t.pulseAlertHigh then [NewAlert(r, PulseHigh, Warning, v, t.pulseAlertHigh, now)]
      else if v <= t.pulseAlertLow then [NewAlert(r, PulseLow, Warning, v, t.pulseAlertLow, now)]
      else []
    case _ => []
  }

  function HeartRateAlerts(r: Reading, t: Thresholds, now: int): (s: seq<Alert>)
    ensures CheckResult(r, t, now, 2, s)
  {
    match r.heartRate
    case Num(v) =>
      if v != 0.0 && v >= t.heartRateAlertHigh then [NewAlert(r, HeartRateHigh, Warning, v, t.heartRateAlertHigh, now)]
      else []
    case _ => []
  }

  function Spo2Alerts(r: Reading, t: Thresholds, now: int): (s: seq<Alert>)
    ensures CheckResult(r, t, now, 3, s)
  {
    match r.spo2
    case Num(v) =>
      if v != 0.0 && v < t.spo2AlertLow then [NewAlert(r, Spo2Low, Critical, v, t.spo2AlertLow, now)] else []
    case _ => []
  }

  function BatteryAlerts(r: Reading, t: Thresholds, now: int): (s: seq<Alert>)
    ensures CheckResult(r, t, now, 4, s)
  {
    match r.batteryLevel
    case Num(v) =>
      if v != 0.0 && v < LowBattery then [NewAlert(r, BatteryLow, Info, v, LowBattery, now)] else []
    case _ => []
  }

  /** The result of check `g`. */
  function CheckFor(r: Reading, t: Thresholds, now: int, g: nat): (s: seq<Alert>)
    ensures CheckResult(r, t, now, g, s)
  {
    match g
    case 0 => TemperatureAlerts(r, t, now)
    case 1 => PulseAlerts(r, t, now)
    case 2 => HeartRateAlerts(r, t, now)
    case 3 => Spo2Alerts(r, t, now)
    case 4 => BatteryAlerts(r, t, now)
    case _ => []
  }

  /** One more check's result, appended behind the earlier checks, keeps the check order. */
  lemma AppendCheck(r: Reading, t: Thresholds, now: int, g: nat, prefix: seq<Alert>, s: seq<Alert>)
    requires InCheckOrder(prefix) && CheckResult(r, t, now, g, s)
    requires forall a :: a in prefix ==> Group(a.kind) < g && Fits(r, t, now, a)
    ensures InCheckOrder(prefix + s)
    ensures forall a :: a in prefix + s ==> Group(a.kind) <= g && Fits(r, t, now, a)
  {
    var u := prefix + s;
    forall i, j | 0 <= i < j < |u| ensures Group(u[i].kind) < Group(u[j].kind) {
      if j < |prefix| {
        assert u[i] == prefix[i] && u[j] == prefix[j];
      } else {
        assert u[i] in prefix && u[j] in s;
      }
    }
  }

  /**
   * The alerts one reading raises. At most one per check, in check order
   * (so at most one temperature and one pulse alert); each names the
   * reading's user and id and reports the measured value and the threshold
   * it crossed.
   */
  function AlertsFor(r: Reading, t: Thresholds, now: int): (alerts: seq<Alert>)
    requires Comparable(r)
    ensures |alerts| <= 5
    ensures InCheckOrder(alerts)
    ensures forall a :: a in alerts ==> Fits(r, t, now, a)
  {
    var s0 := TemperatureAlerts(r, t, now);
    var s1 := PulseAlerts(r, t, now);
    AppendCheck(r, t, now, 1, s0, s1);
    var s2 := HeartRateAlerts(r, t, now);
    AppendCheck(r, t, now, 2, s0 + s1, s2);
    var s3 := Spo2Alerts(r, t, now);
    AppendCheck(r, t, now, 3, s0 + s1 + s2, s3);
    var s4 := BatteryAlerts(r, t, now);
    AppendCheck(r, t, now, 4, s0 + s1 + s2 + s3, s4);
    s0 + s1 + s2 + s3 + s4
  }

  /** The alerts of a reading are the five checks' results, in check order. */
  lemma AlertsForChecks(r: Reading, t: Thresholds, now: int)
    requires Comparable(r)
    ensures AlertsFor(r, t, now) ==
      CheckFor(r, t, now, 0) + CheckFor(r, t, now, 1) + CheckFor(r, t, now, 2) + CheckFor(r, t, now, 3) + CheckFor(r, t, now, 4)
  {
  }

  /** Whether an alert of kind `k` is raised, and which, is decided by the check `k` belongs to alone. */
  lemma OwnCheckDecides(r: Reading, t: Thresholds, now: int, k: AlertKind)
    requires Comparable(r)
    ensures forall a :: a in AlertsFor(r, t, now) && a.kind == k <==> a in CheckFor(r, t, now, Group(k)) && a.kind == k
    ensures Raised(AlertsFor(r, t, now), k) <==> Raised(CheckFor(r, t, now, Group(k)), k)
  {
    var s0, s1, s2 := TemperatureAlerts(r, t, now), PulseAlerts(r, t, now), HeartRateAlerts(r, t, now);
    var s3, s4 := Spo2Alerts(r, t, now), BatteryAlerts(r, t, now);
    assert AlertsFor(r, t, now) == s0 + s1 + s2 + s3 + s4;
    forall a ensures a in AlertsFor(r, t, now) <==> a in s0 || a in s1 || a in s2 || a in s3 || a in s4 {
    }
  }

  /** temperature_high fires iff the temperature is non-zero and at least the fever threshold; critical iff at least 102. */
  lemma TemperatureRule(r: Reading, t: Thresholds, now: int)
    requires Comparable(r)
    ensures Raised(AlertsFor(r, t, now), TemperatureHigh) <==>
      r.bodyTemperature.Truthy() && r.bodyTemperature.v >= t.tempAlertHigh
    ensures Raised(AlertsFor(r, t, now), TemperatureLow) <==>
      r.bodyTemperature.Truthy() && t.tempAlertHigh > r.bodyTemperature.v && r.bodyTemperature.v <= t.tempAlertLow
    ensures forall a :: a in AlertsFor(r, t, now) && a.kind == TemperatureHigh ==>
      (a.severity == Critical <==> a.value >= CriticalTemperature)
    ensures forall a :: a in AlertsFor(r, t, now) && a.kind == TemperatureHigh ==> a.severity in {Warning, Critical}
    ensures forall a :: a in AlertsFor(r, t, now) && a.kind == TemperatureLow ==> a.severity == Warning
  {
    OwnCheckDecides(r, t, now, TemperatureHigh);
    OwnCheckDecides(r, t, now, TemperatureLow);
  }

  /** pulse_high and pulse_low are the two exclusive branches of one check; heart_rate_high has no low twin. */
  lemma PulseRule(r: Reading, t: Thresholds, now: int)
    requires Comparable(r)
    ensures Raised(AlertsFor(r, t, now), PulseHigh) <==> r.pulseRate.Truthy() && r.pulseRate.v >= t.pulseAlertHigh
    ensures Raised(AlertsFor(r, t, now), PulseLow) <==>
      r.pulseRate.Truthy() && t.pulseAlertHigh > r.pulseRate.v && r.pulseRate.v <= t.pulseAlertLow
    ensures Raised(AlertsFor(r, t, now), HeartRateHigh) <==> r.heartRate.Truthy() && r.heartRate.v >= t.heartRateAlertHigh
    ensures forall a :: a in AlertsFor(r, t, now) && a.kind in {PulseHigh, PulseLow, HeartRateHigh} ==> a.severity == Warning
  {
    OwnCheckDecides(r, t, now, PulseHigh);
    OwnCheckDecides(r, t, now, PulseLow);
    OwnCheckDecides(r, t, now, HeartRateHigh);
  }

  /** spo2_low fires strictly below the threshold and is always critical; battery_low fires below 15, is info and reports 15. */
  lemma Spo2AndBatteryRule(r: Reading, t: Thresholds, now: int)
    requires Comparable(r)
    ensures Raised(AlertsFor(r, t, now), Spo2Low) <==> r.spo2.Truthy() && r.spo2.v < t.spo2AlertLow
    ensures Raised(AlertsFor(r, t, now), BatteryLow) <==> r.batteryLevel.Truthy() && r.batteryLevel.v < LowBattery
    ensures forall a :: a in AlertsFor(r, t, now) && a.kind == Spo2Low ==> a.severity == Critical
    ensures forall a :: a in AlertsFor(r, t, now) && a.kind == BatteryLow ==> a.severity == Info && a.threshold == 15.0
  {
    OwnCheckDecides(r, t, now, Spo2Low);
    OwnCheckDecides(r, t, now, BatteryLow);
  }

  /** The worked example: 101.2 degrees, pulse 130, heart rate 95, SpO2 88 under the defaults. */
  lemma DefaultsExample(id: nat, user: int, now: int)
    ensures
      var r := Reading(id, user, Num(101.2), Num(130.0), Num(95.0), Num(88.0), None, None, None,
                       Null, None, now, None, true, false, None);
      var alerts := AlertsFor(r, Defaults, now);
      |alerts| == 3
      && alerts[0].kind == TemperatureHigh && alerts[0].severity == Warning
      && alerts[1].kind == PulseHigh && alerts[1].severity == Warning
      && alerts[2].kind == Spo2Low && alerts[2].severity == Critical
  {
    var r := Reading(id, user, Num(101.2), Num(130.0), Num(95.0), Num(88.0), None, None, None,
                     Null, None, now, None, true, false, None);
    assert HeartRateAlerts(r, Defaults, now) == [] && BatteryAlerts(r, Defaults, now) == [];
  }

  /** The vitals whose checks read a threshold from the config: temperature, pulse, heart rate, SpO2. */
  predicate ReadsConfig(r: Reading) {
    r.bodyTemperature.Truthy() || r.pulseRate.Truthy() || r.heartRate.Truthy() || r.spo2.Truthy()
  }

  /**
   * check_and_create_alerts as the endpoints call it, with Flask's config
   * dict for `config`: the first check whose vital is truthy reads its
   * threshold as an attribute and raises AttributeError (None) before adding
   * an alert. Only the battery check, whose cutoff is a literal, can run.
   */
  function AlertsWithConfigDict(r: Reading, now: int): (res: Option<seq<Alert>>)
    requires Comparable(r)
    ensures res.None? <==> ReadsConfig(r)
  {
    if ReadsConfig(r) then None else Some(BatteryAlerts(r, Defaults, now))
  }

  /** When the call does not raise, it creates what the engine creates for any thresholds: at most a battery alert. */
  lemma ConfigDictAgreesOtherwise(r: Reading, t: Thresholds, now: int)
    requires Comparable(r) && !ReadsConfig(r)
    ensures AlertsWithConfigDict(r, now) == Some(AlertsFor(r, t, now))
    ensures forall a :: a in AlertsFor(r, t, now) ==> a.kind == BatteryLow
  {
    AlertsForChecks(r, t, now);
    assert TemperatureAlerts(r, t, now) == [] && PulseAlerts(r, t, now) == [];
    assert HeartRateAlerts(r, t, now) == [] && Spo2Alerts(r, t, now) == [];
    assert BatteryAlerts(r, t, now) == BatteryAlerts(r, Defaults, now);
    assert AlertsFor(r, t, now) == BatteryAlerts(r, t, now);
    forall a | a in AlertsFor(r, t, now) ensures a.kind == BatteryLow {
      assert Group(a.kind) == 4;
    }
  }

  /**
   * One of the five if-blocks of check_and_create_alerts: when check `g`
   * fires, its alert is added to the session and returned.
   */
  method RunCheck(store: Store, r: Reading, t: Thresholds, now: int, g: nat) returns (part: seq<Alert>)
    requires store.Valid() && !store.failed && Comparable(r)
    requires 1 <= r.id <= |store.readings| && store.readings[r.id - 1].userId == r.userId
    modifies store
    ensures store.Valid() && !store.failed
    ensures part == CheckFor(r, t, now, g)
    ensures store.alerts == old(store.alerts) + part
    ensures store.readings == old(store.readings)
    ensures store.savedReadings == old(store.savedReadings) && store.savedAlerts == old(store.savedAlerts)
  {
    part := [];
    match g {
    case 0 =>
      if r.bodyTemperature.Truthy() {
        var v := r.bodyTemperature.v;
        if v >= t.tempAlertHigh {
          part := [NewAlert(r, TemperatureHigh, if v < CriticalTemperature then Warning else Critical, v, t.tempAlertHigh, now)];
        } else if v <= t.tempAlertLow {
          part := [NewAlert(r, TemperatureLow, Warning, v, t.tempAlertLow, now)];
        }
      }
    case 1 =>
      if r.pulseRate.Truthy() {
        var v := r.pulseRate.v;
        if v >= t.pulseAlertHigh {
          part := [NewAlert(r, PulseHigh, Warning, v, t.pulseAlertHigh, now)];
        } else if v <= t.pulseAlertLow {
          part := [NewAlert(r, PulseLow, Warning, v, t.pulseAlertLow, now)];
        }
      }
    case 2 =>
      if r.heartRate.Truthy() && r.heartRate.v >= t.heartRateAlertHigh {
        part := [NewAlert(r, HeartRateHigh, Warning, r.heartRate.v, t.heartRateAlertHigh, now)];
      }
    case 3 =>
      if r.spo2.Truthy() && r.spo2.v < t.spo2AlertLow {
        part := [NewAlert(r, Spo2Low, Critical, r.spo2.v, t.spo2AlertLow, now)];
      }
    case 4 =>
      if r.batteryLevel.Truthy() && r.batteryLevel.v < LowBattery {
        part := [NewAlert(r, BatteryLow, Info, r.batteryLevel.v, LowBattery, now)];
      }
    case _ =>
    }
    if part != [] {
      store.AddAlert(part[0]);
    }
  }

  /**
   * check_and_create_alerts: the five checks run in order; every alert
   * raised is added to the store and to the returned list, in check order,
   * and the session is committed when there is at least one.
   */
  method CheckAndCreateAlerts(store: Store, r: Reading, t: Thresholds, now: int) returns (created: seq<Alert>)
    requires store.Valid() && !store.failed && Comparable(r)
    requires 1 <= r.id <= |store.readings| && store.readings[r.id - 1].userId == r.userId
    modifies store
    ensures store.Valid() && !store.failed
    ensures created == AlertsFor(r, t, now)
    ensures store.alerts == old(store.alerts) + created
    ensures store.readings == old(store.readings)
    ensures created != [] ==> store.Clean()
    ensures created == [] ==> store.savedReadings == old(store.savedReadings) && store.savedAlerts == old(store.savedAlerts)
  {
    created := RunCheck(store, r, t, now, 0);
    var pulse := RunCheck(store, r, t, now, 1);
    created := created + pulse;
    assert store.alerts == old(store.alerts) + created;
    var heartRate := RunCheck(store, r, t, now, 2);
    created := created + heartRate;
    assert store.alerts == old(store.alerts) + created;
    var spo2 := RunCheck(store, r, t, now, 3);
    created := created + spo2;
    assert store.alerts == old(store.alerts) + created;
    var battery := RunCheck(store, r, t, now, 4);
    created := created + battery;
    assert store.alerts == old(store.alerts) + created;
    assert created == AlertsFor(r, t, now) by { AlertsForChecks(r, t, now); }
    if created != [] {
      var _ := store.Commit();
    }
  }
}
