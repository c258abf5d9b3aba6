/**
 * The stored rows (MedicalData and Alert in Backend/models.py) and the
 * operations on a single row: the NOT NULL rule, the blood-pressure text of
 * `to_dict`, and `Alert.acknowledge`.
 */
module Records {
  import opened Wrappers
  import opened Text
  import opened Vitals
  import opened Validator

  /** A MedicalData row. Vitals keep the value the request carried (`Absent` never occurs here). */
  datatype Reading = Reading(
    id: nat,
    userId: int,
    bodyTemperature: Field,
    pulseRate: Field,
    heartRate: Field,
    spo2: Field,
    bpSystolic: Option<int>,
    bpDiastolic: Option<int>,
    deviceId: Option<string>,
    batteryLevel: Field,
    signalStrength: Option<int>,
    timestamp: int,
    recordedAt: Option<int>,
    isValid: bool,
    isOfflineData: bool,
    validationErrors: Option<ErrorMap>)

  /** body_temperature, pulse_rate and heart_rate are NOT NULL columns: a row with None there fails to insert. */
  predicate Storable(r: Reading) {
    !r.bodyTemperature.Null? && !r.bodyTemperature.Absent?
    && !r.pulseRate.Null? && !r.pulseRate.Absent?
    && !r.heartRate.Null? && !r.heartRate.Absent?
  }

  /** No vital of the row is a non-number, so the alert engine can compare every one of them. */
  predicate Comparable(r: Reading) {
    !r.bodyTemperature.Malformed? && !r.pulseRate.Malformed? && !r.heartRate.Malformed?
    && !r.spo2.Malformed? && !r.batteryLevel.Malformed?
  }

  /** `f"{s}/{d}" if systolic else None` (MedicalData.to_dict); a missing diastolic prints as "None". */
  function BloodPressureText(systolic: Option<int>, diastolic: Option<int>): (r: Option<string>)
    ensures r.Some? <==> systolic.Some? && systolic.value != 0
  {
    if systolic.Some? && systolic.value != 0 then
      Some(IntToString(systolic.value) + "/" + (if diastolic.Some? then IntToString(diastolic.value) else "None"))
    else None
  }

  /** The composed text splits at its one '/' back into the two numbers. */
  lemma BloodPressureRoundTrip(s: int, d: int)
    requires s != 0
    ensures BloodPressureText(Some(s), Some(d)).Some?
    ensures Split(BloodPressureText(Some(s), Some(d)).value, '/') == [IntToString(s), IntToString(d)]
    ensures ParseInt(Split(BloodPressureText(Some(s), Some(d)).value, '/')[0]) == Some(s)
    ensures ParseInt(Split(BloodPressureText(Some(s), Some(d)).value, '/')[1]) == Some(d)
  {
    var a, b := IntToString(s), IntToString(d);
    assert '/' !in a && '/' !in b;
    SplitJoin([a, b], '/');
    assert Join([a, b], '/') == a + "/" + b;
    IntToStringRoundTrip(s);
    IntToStringRoundTrip(d);
  }

  datatype AlertKind = TemperatureHigh | TemperatureLow | PulseHigh | PulseLow | HeartRateHigh | Spo2Low | BatteryLow

  datatype Severity = Info | Warning | Critical

  /** An Alert row; its id is its position in the alert table plus one. The message text is not modelled. */
  datatype Alert = Alert(
    userId: int,
    readingId: Option<nat>,
    kind: AlertKind,
    severity: Severity,
    value: real,
    threshold: real,
    createdAt: int,
    acknowledged: bool,
    acknowledgedAt: Option<int>)

  /** Alert.acknowledge: the flag is set and the time overwritten, every other field kept. */
  function Acknowledged(a: Alert, now: int): (r: Alert)
    ensures r.acknowledged && r.acknowledgedAt == Some(now)
    ensures r.(acknowledged := a.acknowledged, acknowledgedAt := a.acknowledgedAt) == a
  {
    a.(acknowledged := true, acknowledgedAt := Some(now))
  }

  /** Acknowledging again is not a no-op: the later time replaces the first one. */
  lemma AcknowledgeTwice(a: Alert, first: int, second: int)
    ensures Acknowledged(Acknowledged(a, first), second) == Acknowledged(a, second)
    ensures first != second ==> Acknowledged(Acknowledged(a, first), second).acknowledgedAt != Some(first)
  {
  }
}
