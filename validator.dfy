/**
 * The reading validator (MedicalDataValidator in backend/utils.py):
 * range checks per field, then a per-field error map; a reading is valid
 * exactly when that map is empty.
 */
module Validator {
  import opened Wrappers
  import opened Vitals

  /** A validation error: a fixed message, or the out-of-range message built from the value and the bounds. */
  datatype Issue = Message(text: string) | OutOfRange(value: real, low: real, high: real)

  /** The payload keys the validator can report on; `Name` is the key as it appears in the error map. */
  datatype Key = BodyTemperature | PulseRate | HeartRate | Spo2 | BatteryLevel {
    function Name(): string {
      match this
      case BodyTemperature => "body_temperature"
      case PulseRate => "pulse_rate"
      case HeartRate => "heart_rate"
      case Spo2 => "spo2"
      case BatteryLevel => "battery_level"
    }
  }

  type ErrorMap = map<Key, Issue>

  datatype Validation = Validation(isValid: bool, errors: ErrorMap)

  /** Python's `int(x)` on a float: truncation toward zero. */
  function Truncate(x: real): (n: int)
    ensures x >= 0.0 ==> n as real <= x < n as real + 1.0
    ensures x < 0.0 ==> n as real - 1.0 < x <= n as real
  {
    if x >= 0.0 then x.Floor else -((-x).Floor)
  }

  /** validate_temperature: None, a non-number and a value outside [low, high] are errors. */
  function CheckTemperature(f: Field, low: real, high: real): (r: Option<Issue>)
    requires !f.Absent?
    ensures r.None? <==> (f.Num? && low <= f.v <= high)
    ensures f.Num? && r.Some? ==> r.value == OutOfRange(f.v, low, high)
  {
    match f
    case Null => Some(Message("Temperature value is missing"))
    case Malformed => Some(Message("Invalid temperature format"))
    case Num(v) => if v < low || v > high then Some(OutOfRange(v, low, high)) else None
  }

  /**
   * The rule validate_pulse and validate_heart_rate share: None and a
   * non-number are issues with the check's own messages, and a number is
   * truncated by `int()` before the inclusive range check.
   */
  function CheckTruncated(f: Field, low: real, high: real, missing: string, invalid: string): (r: Option<Issue>)
    requires !f.Absent?
    ensures r.None? <==> (f.Num? && low <= Truncate(f.v) as real <= high)
    ensures f.Num? && r.Some? ==> r.value == OutOfRange(Truncate(f.v) as real, low, high)
    ensures f.Null? ==> r == Some(Message(missing))
    ensures f.Malformed? ==> r == Some(Message(invalid))
  {
    match f
    case Null => Some(Message(missing))
    case Malformed => Some(Message(invalid))
    case Num(v) =>
      var n := Truncate(v) as real;
      if n < low || n > high then Some(OutOfRange(n, low, high)) else None
  }

  /** validate_pulse: like the temperature check, but on the value truncated by `int()`. */
  function CheckPulse(f: Field, low: real, high: real): (r: Option<Issue>)
    requires !f.Absent?
    ensures r.None? <==> (f.Num? && low <= Truncate(f.v) as real <= high)
    ensures f.Num? && r.Some? ==> r.value == OutOfRange(Truncate(f.v) as real, low, high)
    ensures f.Null? ==> r == Some(Message("Pulse rate is missing"))
    ensures f.Malformed? ==> r == Some(Message("Invalid pulse format"))
  {
    CheckTruncated(f, low, high, "Pulse rate is missing", "Invalid pulse format")
  }

  /** validate_heart_rate: the same rule as the pulse check, with its own messages. */
  function CheckHeartRate(f: Field, low: real, high: real): (r: Option<Issue>)
    requires !f.Absent?
    ensures r.None? <==> (f.Num? && low <= Truncate(f.v) as real <= high)
    ensures f.Num? && r.Some? ==> r.value == OutOfRange(Truncate(f.v) as real, low, high)
    ensures f.Null? ==> r == Some(Message("Heart rate is missing"))
    ensures f.Malformed? ==> r == Some(Message("Invalid heart rate format"))
  {
    CheckTruncated(f, low, high, "Heart rate is missing", "Invalid heart rate format")
  }

  /** validate_spo2: None is accepted (SpO2 is optional); other values are range checked. */
  function CheckSpo2(f: Field, low: real, high: real): (r: Option<Issue>)
    requires !f.Absent?
    ensures r.None? <==> (f.Null? || (f.Num? && low <= f.v <= high))
    ensures f.Num? && r.Some? ==> r.value == OutOfRange(f.v, low, high)
  {
    match f
    case Null => None
    case Malformed => Some(Message("Invalid SpO2 format"))
    case Num(v) => if v < low || v > high then Some(OutOfRange(v, low, high)) else None
  }

  /** The error recorded under `key` for payload `p`, if any (one per branch of validate_medical_reading). */
  function IssueFor(p: Payload, t: Thresholds, key: Key): Option<Issue> {
    match key
    case BodyTemperature =>
      if p.bodyTemperature.Absent? then Some(Message("Temperature is required"))
      else CheckTemperature(p.bodyTemperature, t.bodyTempMin, t.bodyTempMax)
    case PulseRate =>
      if p.pulseRate.Absent? then Some(Message("Pulse rate is required"))
      else CheckPulse(p.pulseRate, t.pulseMin, t.pulseMax)
    case HeartRate =>
      if p.heartRate.Absent? then Some(Message("Heart rate is required"))
      else CheckHeartRate(p.heartRate, t.heartRateMin, t.heartRateMax)
    case Spo2 =>
      if p.spo2.Absent? then None
      else CheckSpo2(p.spo2, t.spo2Min, t.spo2Max)
    case BatteryLevel =>
      match p.batteryLevel
      case Malformed => Some(Message("Invalid battery level format"))
      case Num(b) => if b < 0.0 || b > 100.0 then Some(Message("Battery level must be 0-100%")) else None
      case _ => None
  }

  /**
   * validate_medical_reading with the thresholds passed as a record:
   * the map holds exactly the keys whose check failed, and the reading is
   * valid exactly when the map is empty.
   */
  function Validate(p: Payload, t: Thresholds): (r: Validation)
    ensures forall k: Key :: k in r.errors <==> IssueFor(p, t, k).Some?
    ensures forall k :: k in r.errors ==> r.errors[k] == IssueFor(p, t, k).value
    ensures r.isValid <==> r.errors == map[]
    ensures r.isValid <==> forall k: Key :: IssueFor(p, t, k).None?
  {
    var errors := map k: Key | IssueFor(p, t, k).Some? :: IssueFor(p, t, k).value;
    Validation(|errors| == 0, errors)
  }

  /** A missing required key is reported under its own key with the "is required" message, and invalidates the reading. */
  lemma MissingRequiredField(p: Payload, t: Thresholds)
    ensures p.bodyTemperature.Absent? ==>
      BodyTemperature in Validate(p, t).errors
      && Validate(p, t).errors[BodyTemperature] == Message("Temperature is required")
    ensures p.pulseRate.Absent? ==>
      PulseRate in Validate(p, t).errors
      && Validate(p, t).errors[PulseRate] == Message("Pulse rate is required")
    ensures p.heartRate.Absent? ==>
      HeartRate in Validate(p, t).errors
      && Validate(p, t).errors[HeartRate] == Message("Heart rate is required")
    ensures p.bodyTemperature.Absent? || p.pulseRate.Absent? || p.heartRate.Absent? ==> !Validate(p, t).isValid
  {
  }

  /** Inclusive bounds: a present number inside [min, max] adds no entry, one outside adds exactly the entry for its key. */
  lemma RangeRule(p: Payload, t: Thresholds)
    ensures p.bodyTemperature.Num? ==>
      (BodyTemperature in Validate(p, t).errors
       <==> p.bodyTemperature.v < t.bodyTempMin || p.bodyTemperature.v > t.bodyTempMax)
    ensures p.pulseRate.Num? ==>
      (PulseRate in Validate(p, t).errors
       <==> Truncate(p.pulseRate.v) as real < t.pulseMin || Truncate(p.pulseRate.v) as real > t.pulseMax)
    ensures p.heartRate.Num? ==>
      (HeartRate in Validate(p, t).errors
       <==> Truncate(p.heartRate.v) as real < t.heartRateMin || Truncate(p.heartRate.v) as real > t.heartRateMax)
    ensures p.spo2.Num? ==>
      (Spo2 in Validate(p, t).errors <==> p.spo2.v < t.spo2Min || p.spo2.v > t.spo2Max)
  {
  }

  /** SpO2 and battery are optional: missing or None never errs, and a battery level outside 0-100 always does. */
  lemma OptionalFields(p: Payload, t: Thresholds)
    ensures p.spo2.Absent? || p.spo2.Null? ==> Spo2 !in Validate(p, t).errors
    ensures p.batteryLevel.Absent? || p.batteryLevel.Null? ==> BatteryLevel !in Validate(p, t).errors
    ensures p.batteryLevel.Num? && (p.batteryLevel.v < 0.0 || p.batteryLevel.v > 100.0) ==>
      BatteryLevel in Validate(p, t).errors
      && Validate(p, t).errors[BatteryLevel] == Message("Battery level must be 0-100%")
  {
  }

  /** A valid payload holds numbers in the three required vitals and no malformed value anywhere. */
  lemma ValidIsNumeric(p: Payload, t: Thresholds)
    requires Validate(p, t).isValid
    ensures p.bodyTemperature.Num? && p.pulseRate.Num? && p.heartRate.Num?
    ensures t.bodyTempMin <= p.bodyTemperature.v <= t.bodyTempMax
    ensures !p.spo2.Malformed? && !p.batteryLevel.Malformed?
  {
    assert IssueFor(p, t, BodyTemperature).None?;
    assert IssueFor(p, t, PulseRate).None?;
    assert IssueFor(p, t, HeartRate).None?;
    assert IssueFor(p, t, Spo2).None?;
    assert IssueFor(p, t, BatteryLevel).None?;
  }

  /**
   * validate_medical_reading as the ingestion endpoints call it: the
   * thresholds argument is Flask's `app.config`, a dict, and reading
   * `config.BODY_TEMP_MIN` (or PULSE_MIN, HEART_RATE_MIN, SPO2_MIN) from it
   * raises AttributeError. None stands for that exception. The attribute is
   * only read once the field's key is found in the payload.
   */
  function ValidateWithConfigDict(p: Payload): (r: Option<Validation>)
    ensures r.None? <==> !(p.bodyTemperature.Absent? && p.pulseRate.Absent? && p.heartRate.Absent? && p.spo2.Absent?)
  {
    if !p.bodyTemperature.Absent? || !p.pulseRate.Absent? || !p.heartRate.Absent? || !p.spo2.Absent? then None
    else
      var errors := map[BodyTemperature := Message("Temperature is required"),
                        PulseRate := Message("Pulse rate is required"),
                        HeartRate := Message("Heart rate is required")]
                    + (var b := IssueFor(p, Defaults, BatteryLevel); if b.Some? then map[BatteryLevel := b.value] else map[]);
      Some(Validation(|errors| == 0, errors))
  }

  /** As written, no payload is ever judged valid: the call either raises or reports the required vitals missing. */
  lemma ConfigDictNeverValidates(p: Payload)
    ensures ValidateWithConfigDict(p).None? || !ValidateWithConfigDict(p).value.isValid
  {
    var r := ValidateWithConfigDict(p);
    if r.Some? {
      assert BodyTemperature in r.value.errors;
    }
  }

  /** The counterexample: an in-range reading is valid with the thresholds record, but raises as written. */
  lemma ConfigDictRejectsHealthyReading()
    ensures
      var p := Payload(Some(1), None, Num(98.6), Num(72.0), Num(75.0), Num(98.0), Num(85.5),
                       None, None, None, None, None);
      Validate(p, Defaults).isValid && ValidateWithConfigDict(p).None?
  {
    var p := Payload(Some(1), None, Num(98.6), Num(72.0), Num(75.0), Num(98.0), Num(85.5),
                     None, None, None, None, None);
    assert Truncate(72.0) == 72;
    assert Truncate(75.0) == 75;
    assert forall k: Key :: IssueFor(p, Defaults, k).None?;
  }
}
