/**
 * The device endpoints of backend/app.py: a single reading from the
 * wearable, where a missing heart rate and pulse mean "no finger on the
 * sensor", and the offline batch upload, which stores every reading that
 * names a user and commits them together.
 */
module IngestDevice {
  import opened Wrappers
  import opened Vitals
  import opened Validator
  import opened Records
  import opened Storage
  import opened AlertEngine
  import IngestApi

  /** The HTTP outcome of a device request. */
  datatype Response =
    | BadRequest(message: string)
    | NotFound(message: string)
    | ServerError
    | Received(readingId: nat, userId: int, isValid: bool, fingerDetected: bool, alertsTriggered: nat,
               validationErrors: Option<ErrorMap>)
    | Uploaded(count: nat)

  /** The heart rate and the pulse after the no-finger rule: when both are None, both become 0. */
  function HeartAndPulse(p: Payload): (hp: (Field, Field))
    ensures p.heartRate.Get().Null? && p.pulseRate.Get().Null? ==> hp == (Num(0.0), Num(0.0))
    ensures !(p.heartRate.Get().Null? && p.pulseRate.Get().Null?) ==> hp == (p.heartRate.Get(), p.pulseRate.Get())
    ensures !hp.0.Absent? && !hp.1.Absent?
  {
    var hr, pulse := p.heartRate.Get(), p.pulseRate.Get();
    if hr.Null? && pulse.Null? then (Num(0.0), Num(0.0)) else (hr, pulse)
  }

  /** `hr and hr > 0` raises TypeError: the heart rate is a non-empty non-number. */
  predicate HeartRateUncomparable(p: Payload) {
    HeartAndPulse(p).0.Malformed?
  }

  /** A finger was on the sensor: the heart rate is a number above 0. */
  predicate FingerDetected(p: Payload) {
    var hr := HeartAndPulse(p).0;
    hr.Num? && hr.v > 0.0
  }

  /** The payload is validated only with a finger on the sensor; otherwise it counts as valid with no errors. */
  function DeviceValidation(p: Payload, t: Thresholds): (v: Validation)
    ensures !FingerDetected(p) ==> v == Validation(true, map[])
    ensures FingerDetected(p) ==> v == Validate(p, t)
    ensures v.isValid <==> v.errors == map[]
  {
    if FingerDetected(p) then Validate(p, t) else Validation(true, map[])
  }

  /** `value if value else default`. */
  function OrDefault(f: Field, default: real): (r: Field)
    ensures f.Truthy() ==> r == f
    ensures !f.Truthy() ==> r == Num(default)
    ensures !r.Null? && !r.Absent?
  {
    if f.Truthy() then f else Num(default)
  }

  /** The row the device endpoint stores: falsy vitals replaced by 36.5 (temperature) or 0. */
  function DeviceRow(p: Payload, user: int, t: Thresholds, id: nat, now: int, parseIso: string -> Option<int>): Reading {
    var (hr, pulse) := HeartAndPulse(p);
    var v := DeviceValidation(p, t);
    Reading(id, user, OrDefault(p.bodyTemperature.Get(), 36.5), OrDefault(pulse, 0.0), OrDefault(hr, 0.0),
            OrDefault(p.spo2.Get(), 0.0), p.bpSystolic, p.bpDiastolic, p.deviceId, p.batteryLevel.Get(),
            p.signalStrength, now, IngestApi.RecordedAt(p.recordedAt, parseIso), v.isValid,
            p.isOfflineData.GetOr(false), if v.errors != map[] then Some(v.errors) else None)
  }

  /** The defaults make every device row satisfy the NOT NULL columns, and a validated valid row comparable. */
  lemma DeviceRowStorable(p: Payload, user: int, t: Thresholds, id: nat, now: int, parseIso: string -> Option<int>)
    ensures Storable(DeviceRow(p, user, t, id, now, parseIso))
    ensures FingerDetected(p) && DeviceValidation(p, t).isValid ==> Comparable(DeviceRow(p, user, t, id, now, parseIso))
  {
    if FingerDetected(p) && Validate(p, t).isValid {
      ValidIsNumeric(p, t);
    }
  }

  /** Without a finger the reading is stored as valid, with heart rate and pulse 0 when both were missing, and raises no alert. */
  lemma NoFingerReading(p: Payload, user: int, t: Thresholds, id: nat, now: int, parseIso: string -> Option<int>)
    requires !FingerDetected(p)
    ensures var r := DeviceRow(p, user, t, id, now, parseIso);
      r.isValid && r.validationErrors.None?
      && (p.heartRate.Get().Null? && p.pulseRate.Get().Null? ==> r.heartRate == Num(0.0) && r.pulseRate == Num(0.0))
  {
  }

  /**
   * As written, every alert call of the device endpoint raises: the stored
   * temperature is never falsy, since 36.5 replaces a falsy one. The row is
   * committed before the call, so the answer is 500 with the reading stored.
   */
  lemma DeviceRowRaisesWithConfigDict(p: Payload, user: int, t: Thresholds, id: nat, now: int, parseIso: string -> Option<int>)
    requires FingerDetected(p) && DeviceValidation(p, t).isValid
    ensures var r := DeviceRow(p, user, t, id, now, parseIso);
      Storable(r) && Comparable(r) && AlertsWithConfigDict(r, now).None?
  {
    DeviceRowStorable(p, user, t, id, now, parseIso);
  }

  /** The alerts of a stored device reading: only with a finger on the sensor and a valid reading. */
  function DeviceAlerts(p: Payload, r: Reading, t: Thresholds, now: int): seq<Alert> {
    if FingerDetected(p) && r.isValid && Comparable(r) then AlertsFor(r, t, now) else []
  }

  /**
   * receive_medical_data of the device API: refuse a missing body, a
   * missing user id and an unknown user; fail before storing anything when
   * the heart rate cannot be compared with 0; otherwise store the row with
   * its defaults and raise alerts for a valid reading taken with a finger.
   */
  method ReceiveDeviceReading(store: Store, users: set<int>, t: Thresholds, data: Option<Payload>, now: int,
                              parseIso: string -> Option<int>) returns (out: Response)
    requires store.Valid() && store.Clean()
    modifies store
    ensures store.Valid() && store.Clean()
    ensures data.None? || data.value.NoKeys() ==> out == BadRequest("No data provided")
    ensures data.Some? && !data.value.NoKeys() && !data.value.HasUserId() ==> out == BadRequest("user_id is required")
    ensures data.Some? && data.value.HasUserId() && data.value.userId.value !in users ==> out == NotFound("User not found")
    ensures !out.Received? ==> store.readings == old(store.readings) && store.alerts == old(store.alerts)
    ensures data.Some? && data.value.HasUserId() && data.value.userId.value in users ==>
      var p := data.value;
      var row := DeviceRow(p, p.userId.value, t, |old(store.readings)| + 1, now, parseIso);
      if HeartRateUncomparable(p) then out == ServerError
      else
        && store.readings == old(store.readings) + [row]
        && store.alerts == old(store.alerts) + DeviceAlerts(p, row, t, now)
        && out == Received(row.id, row.userId, row.isValid, FingerDetected(p), |DeviceAlerts(p, row, t, now)|,
                           row.validationErrors)
  {
    if data.None? || data.value.NoKeys() {
      return BadRequest("No data provided");
    }
    var p := data.value;
    if !p.HasUserId() {
      return BadRequest("user_id is required");
    }
    var user := p.userId.value;
    if user !in users {
      return NotFound("User not found");
    }
    if HeartRateUncomparable(p) {
      store.Rollback();
      return ServerError;
    }
    var row := DeviceRow(p, user, t, |store.readings| + 1, now, parseIso);
    DeviceRowStorable(p, user, t, row.id, now, parseIso);
    var ok := store.Add(row);
    ok := store.Commit();
    var created: seq<Alert> := [];
    if row.isValid && FingerDetected(p) {
      created := CheckAndCreateAlerts(store, row, t, now);
    }
    out := Received(row.id, user, row.isValid, FingerDetected(p), |created|, row.validationErrors);
  }

  /** The batch body: the `readings` list, None when missing or null. */
  datatype DeviceBatch = DeviceBatch(readings: Option<seq<IngestApi.Item>>)

  /** `readings[:100]`: only the first hundred readings are looked at. */
  const UploadLimit: nat := 100

  function Head(items: seq<IngestApi.Item>): (h: seq<IngestApi.Item>)
    ensures |h| == if |items| < UploadLimit then |items| else UploadLimit
    ensures h == items[..|h|]
  {
    if |items| < UploadLimit then items else items[..UploadLimit]
  }

  /** The row of one uploaded reading: no blood pressure, signal or recording time, always offline. */
  function UploadRow(p: Payload, t: Thresholds, id: nat, now: int): Reading
    requires p.HasUserId()
  {
    var v := Validate(p, t);
    Reading(id, p.userId.value, p.bodyTemperature.Get(), p.pulseRate.GetOr(Num(0.0)), p.heartRate.GetOr(Num(0.0)),
            p.spo2.Get(), None, None, p.deviceId, p.batteryLevel.Get(), None, now, None, v.isValid, true,
            if v.errors != map[] then Some(v.errors) else None)
  }

  /** The rows of an upload: one per object naming a user, in order, ids from `firstId` on. */
  function UploadRows(items: seq<IngestApi.Item>, t: Thresholds, firstId: nat, now: int): (rows: seq<Reading>)
    ensures |rows| <= |items|
    ensures forall k :: 0 <= k < |rows| ==> rows[k].id == firstId + k && rows[k].isOfflineData
  {
    if |items| == 0 then []
    else
      var rows := UploadRows(items[..|items| - 1], t, firstId, now);
      var last := items[|items| - 1];
      if last.Entry? && last.p.HasUserId() then rows + [UploadRow(last.p, t, firstId + |rows|, now)] else rows
  }

  predicate AllObjects(items: seq<IngestApi.Item>) {
    forall k :: 0 <= k < |items| ==> items[k].Entry?
  }

  lemma UploadStep(items: seq<IngestApi.Item>, i: nat, t: Thresholds, firstId: nat, now: int, rows: seq<Reading>)
    requires i < |items| && rows == UploadRows(items[..i], t, firstId, now)
    ensures UploadRows(items[..i + 1], t, firstId, now) ==
      if items[i].Entry? && items[i].p.HasUserId() then rows + [UploadRow(items[i].p, t, firstId + |rows|, now)] else rows
    ensures AllObjects(items[..i + 1]) <==> AllObjects(items[..i]) && items[i].Entry?
  {
    assert items[..i + 1][..i] == items[..i];
  }

  /** As written, the item makes the validator raise on Flask's config dict: it names a user and carries a vital. */
  predicate RaisesAsWritten(item: IngestApi.Item) {
    item.Entry? && item.p.HasUserId() && ValidateWithConfigDict(item.p).None?
  }

  /**
   * As written, with Flask's config dict passed to the validator, an upload
   * never stores a reading: an item naming a user either carries a vital,
   * and the validator raises, or carries no temperature, and its row
   * breaks the NOT NULL temperature column at the commit. Either way the
   * upload ends in a server error and is rolled back.
   */
  lemma {:induction false} AsWrittenUploadNeverStores(items: seq<IngestApi.Item>, t: Thresholds, firstId: nat, now: int)
    ensures var rows := UploadRows(items, t, firstId, now);
      rows == [] || (exists k :: 0 <= k < |items| && RaisesAsWritten(items[k])) || (exists r :: r in rows && !Storable(r))
  {
    if |items| > 0 {
      var init := items[..|items| - 1];
      var last := items[|items| - 1];
      var rest := UploadRows(init, t, firstId, now);
      AsWrittenUploadNeverStores(init, t, firstId, now);
      assert forall k :: 0 <= k < |init| ==> init[k] == items[k];
      if last.Entry? && last.p.HasUserId() {
        var row := UploadRow(last.p, t, firstId + |rest|, now);
        assert UploadRows(items, t, firstId, now) == rest + [row];
        if RaisesAsWritten(last) {
          assert RaisesAsWritten(items[|items| - 1]);
        } else {
          assert !Storable(row);
          assert row in rest + [row];
        }
      } else {
        assert UploadRows(items, t, firstId, now) == rest;
      }
    }
  }

  /**
   * upload_batch_medical_data: a missing body fails, an empty or missing
   * list is refused; of the first hundred readings, those without a user
   * are skipped and the others collected, then all are inserted and
   * committed together. A non-object reading, or a row that breaks a NOT
   * NULL column, fails the whole upload with nothing stored.
   */
  method UploadBatch(store: Store, t: Thresholds, data: Option<DeviceBatch>, now: int) returns (out: Response)
    requires store.Valid() && store.Clean()
    modifies store
    ensures store.Valid() && store.Clean()
    ensures store.alerts == old(store.alerts)
    ensures data.None? ==> out == ServerError
    ensures data.Some? && (data.value.readings.None? || data.value.readings.value == []) ==> out == BadRequest("No readings")
    ensures !out.Uploaded? ==> store.readings == old(store.readings)
    ensures data.Some? && data.value.readings.Some? && data.value.readings.value != [] ==>
      var batch := Head(data.value.readings.value);
      var rows := UploadRows(batch, t, |old(store.readings)| + 1, now);
      && (out.Uploaded? <==> AllObjects(batch) && forall r :: r in rows ==> Storable(r))
      && (out.Uploaded? ==> store.readings == old(store.readings) + rows && out.count == |rows|)
      && (!out.Uploaded? ==> out == ServerError)
  {
    if data.None? {
      return ServerError;
    }
    if data.value.readings.None? || data.value.readings.value == [] {
      return BadRequest("No readings");
    }
    var batch := Head(data.value.readings.value);
    var objects, rows := CollectUploads(batch, t, |store.readings| + 1, now);
    if !objects {
      store.Rollback();
      return ServerError;
    }
    var ok := store.AddAll(rows);
    if ok {
      ok := store.Commit();
      out := Uploaded(|rows|);
    } else {
      store.Rollback();
      out := ServerError;
    }
  }

  /**
   * The loop of upload_batch_medical_data: one row per reading that names a
   * user. A reading that is not an object raises at `reading.get`, which
   * ends the loop.
   */
  method CollectUploads(batch: seq<IngestApi.Item>, t: Thresholds, firstId: nat, now: int)
    returns (objects: bool, rows: seq<Reading>)
    ensures objects <==> AllObjects(batch)
    ensures objects ==> rows == UploadRows(batch, t, firstId, now)
  {
    rows := [];
    for i := 0 to |batch|
      invariant AllObjects(batch[..i])
      invariant rows == UploadRows(batch[..i], t, firstId, now)
    {
      UploadStep(batch, i, t, firstId, now, rows);
      if batch[i].NotAnObject? {
        assert !AllObjects(batch) by { assert !batch[i].Entry?; }
        return false, rows;
      }
      var p := batch[i].p;
      if p.HasUserId() {
        rows := rows + [UploadRow(p, t, firstId + |rows|, now)];
      }
    }
    assert batch[..|batch|] == batch;
    objects := true;
  }

  predicate Uploadable(item: IngestApi.Item) {
    item.Entry? && item.p.HasUserId()
  }

  /** Row `r` comes from reading `k`: that reading names the row's user and device. */
  predicate OwnedBy(r: Reading, items: seq<IngestApi.Item>, k: int) {
    0 <= k < |items| && Uploadable(items[k]) && r.userId == items[k].p.userId.value && r.deviceId == items[k].p.deviceId
  }

  /** One row per object that names a user: the others are skipped. */
  lemma {:induction false} UploadRowsCount(items: seq<IngestApi.Item>, t: Thresholds, firstId: nat, now: int)
    ensures |UploadRows(items, t, firstId, now)| == |set k | 0 <= k < |items| && Uploadable(items[k])|
  {
    var s := set k | 0 <= k < |items| && Uploadable(items[k]);
    if |items| > 0 {
      var n := |items| - 1;
      UploadRowsCount(items[..n], t, firstId, now);
      var s' := set k | 0 <= k < n && Uploadable(items[..n][k]);
      if Uploadable(items[n]) {
        assert s == s' + {n};
      } else {
        assert s == s';
      }
    }
  }

  /** Every uploaded row belongs to the user and device its own reading names. */
  lemma {:induction false} UploadRowsOwners(items: seq<IngestApi.Item>, t: Thresholds, firstId: nat, now: int)
    ensures forall r :: r in UploadRows(items, t, firstId, now) ==> exists k :: OwnedBy(r, items, k)
  {
    if |items| > 0 {
      var n := |items| - 1;
      UploadRowsOwners(items[..n], t, firstId, now);
      var rows := UploadRows(items[..n], t, firstId, now);
      forall r | r in UploadRows(items, t, firstId, now)
        ensures exists k :: OwnedBy(r, items, k)
      {
        if r in rows {
          var k :| OwnedBy(r, items[..n], k);
          assert items[..n][k] == items[k] && OwnedBy(r, items, k);
        } else {
          assert OwnedBy(r, items, n);
        }
      }
    }
  }

  /** The count reported is at most the number of readings looked at, and never above a hundred. */
  lemma UploadedAtMostLimit(items: seq<IngestApi.Item>, t: Thresholds, firstId: nat, now: int)
    ensures |UploadRows(Head(items), t, firstId, now)| <= UploadLimit
    ensures |UploadRows(Head(items), t, firstId, now)| <= |items|
  {
  }
}
