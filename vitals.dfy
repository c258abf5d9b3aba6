/**
 * The raw shape of an incoming reading and the threshold configuration
 * (Backend/config.py holds the defaults).
 */
module Vitals {
  import opened Wrappers

  /**
   * One field of the JSON payload, with the three ways it can be unusable kept apart:
   * the key is missing, its value is `null`, or it is not a number
   * (taken to be a non-empty string, so Python treats it as true).
   */
  datatype Field = Absent | Null | Malformed | Num(v: real) {

    /** Python truthiness of the stored value: 0 and None are false. */
    predicate Truthy() {
      Malformed? || (Num? && v != 0.0)
    }

    /** `data.get(key)`: a missing key reads as None. */
    function Get(): Field {
      if Absent? then Null else this
    }

    /** `data.get(key, default)` */
    function GetOr(default: Field): Field {
      if Absent? then default else this
    }
  }

  /** An incoming reading payload (the keys both ingestion endpoints read). */
  datatype Payload = Payload(
    userId: Option<int>,
    deviceId: Option<string>,
    bodyTemperature: Field,
    pulseRate: Field,
    heartRate: Field,
    spo2: Field,
    batteryLevel: Field,
    bpSystolic: Option<int>,
    bpDiastolic: Option<int>,
    signalStrength: Option<int>,
    isOfflineData: Option<bool>,
    recordedAt: Option<string>)
  {
    /** `if not user_id`: a missing id and the id 0 are both refused. */
    predicate HasUserId() {
      userId.Some? && userId.value != 0
    }

    /** `not data`: the object has no key (a key holding null reads as missing in this model). */
    predicate NoKeys() {
      && userId.None? && deviceId.None? && bpSystolic.None? && bpDiastolic.None? && signalStrength.None?
      && isOfflineData.None? && recordedAt.None?
      && bodyTemperature.Absent? && pulseRate.Absent? && heartRate.Absent? && spo2.Absent? && batteryLevel.Absent?
    }
  }

  /** The named bounds the validator and the alert engine read from the configuration. */
  datatype Thresholds = Thresholds(
    bodyTempMin: real, bodyTempMax: real,
    pulseMin: real, pulseMax: real,
    heartRateMin: real, heartRateMax: real,
    spo2Min: real, spo2Max: real,
    tempAlertHigh: real, tempAlertLow: real,
    pulseAlertHigh: real, pulseAlertLow: real,
    heartRateAlertHigh: real, heartRateAlertLow: real,
    spo2AlertLow: real,
    maxBatchSize: int)

  /** The shipped configuration. */
  const Defaults := Thresholds(
    95.0, 107.0,
    40.0, 200.0,
    40.0, 200.0,
    70.0, 100.0,
    100.4, 96.0,
    120.0, 50.0,
    120.0, 50.0,
    90.0,
    100)

  /** Every alert bound lies inside the validation range of its field. */
  predicate AlertBoundsInsideValidation(t: Thresholds) {
    && t.bodyTempMin <= t.tempAlertLow < t.tempAlertHigh <= t.bodyTempMax
    && t.pulseMin <= t.pulseAlertLow < t.pulseAlertHigh <= t.pulseMax
    && t.heartRateMin <= t.heartRateAlertHigh <= t.heartRateMax
    && t.spo2Min <= t.spo2AlertLow <= t.spo2Max
  }

  /** The defaults are consistent: a valid reading can reach every alert. */
  lemma DefaultsAreConsistent()
    ensures AlertBoundsInsideValidation(Defaults)
    ensures Defaults.maxBatchSize == 100
  {
  }
}
