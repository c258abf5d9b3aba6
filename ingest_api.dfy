/**
 * The ingestion endpoints of Backend/app.py: one reading, a batch of offline
 * readings, and the window of the statistics endpoint. The user table is a
 * set of ids; `parseIso` stands for `datetime.fromisoformat` (None where it
 * raises).
 */
module IngestApi {
  import opened Wrappers
  import opened Text
  import opened Vitals
  import opened Validator
  import opened Records
  import opened Storage
  import opened AlertEngine

  /** The HTTP outcome of an ingestion request. */
  datatype Outcome =
    | BadRequest(message: string)
    | NotFound(message: string)
    | ServerError
    | Stored(readingId: nat, userId: int, isValid: bool, alertsTriggered: nat, validationErrors: Option<ErrorMap>)
    | BatchStored(userId: int, totalReadings: nat, savedReadings: nat, alertsTriggered: nat)

  /** `recorded_at`: only a non-empty text is parsed, after 'Z' becomes "+00:00"; a failed parse leaves it unset. */
  function RecordedAt(raw: Option<string>, parseIso: string -> Option<int>): (r: Option<int>)
    ensures raw.None? || raw.value == [] ==> r.None?
    ensures raw.Some? && raw.value != [] ==> r == parseIso(Replace(raw.value, 'Z', "+00:00"))
  {
    if raw.Some? && raw.value != [] then parseIso(Replace(raw.value, 'Z', "+00:00")) else None
  }

  /** The MedicalData row receive_medical_data builds from the payload and its validation. */
  function NewReading(p: Payload, user: int, v: Validation, id: nat, now: int, parseIso: string -> Option<int>): Reading {
    Reading(id, user, p.bodyTemperature.Get(), p.pulseRate.Get(), p.heartRate.Get(), p.spo2.Get(),
            p.bpSystolic, p.bpDiastolic, p.deviceId, p.batteryLevel.Get(), p.signalStrength,
            now, RecordedAt(p.recordedAt, parseIso), v.isValid, p.isOfflineData.GetOr(false),
            if v.isValid then None else Some(v.errors))
  }

  /** The alerts the engine raises for a stored row: none unless it was judged valid. */
  function AlertsIfValid(r: Reading, t: Thresholds, now: int): seq<Alert> {
    if r.isValid && Comparable(r) then AlertsFor(r, t, now) else []
  }

  /** A row built from a payload that passed validation can be stored and compared. */
  lemma ValidRowIsComplete(p: Payload, user: int, t: Thresholds, id: nat, now: int, parseIso: string -> Option<int>)
    requires Validate(p, t).isValid
    ensures var r := NewReading(p, user, Validate(p, t), id, now, parseIso);
      Storable(r) && Comparable(r) && r.validationErrors.None?
  {
    ValidIsNumeric(p, t);
  }

  /** The row of the single-reading endpoint for an accepted payload. */
  function SingleRow(p: Payload, t: Thresholds, id: nat, now: int, parseIso: string -> Option<int>): Reading
    requires p.HasUserId()
  {
    NewReading(p, p.userId.value, Validate(p, t), id, now, parseIso)
  }

  /**
   * receive_medical_data: refuse a missing body, a missing user id and an
   * unknown user; otherwise store the reading with its validity (or fail
   * with nothing stored when a NOT NULL vital is None) and, for a valid
   * reading only, raise its alerts.
   */
  method ReceiveMedicalData(store: Store, users: set<int>, t: Thresholds, data: Option<Payload>, now: int,
                            parseIso: string -> Option<int>) returns (out: Outcome)
    requires store.Valid() && store.Clean()
    modifies store
    ensures store.Valid() && store.Clean()
    ensures data.None? || data.value.NoKeys() ==> out == BadRequest("No data provided")
    ensures data.Some? && !data.value.NoKeys() && !data.value.HasUserId() ==> out == BadRequest("user_id is required")
    ensures data.Some? && data.value.HasUserId() && data.value.userId.value !in users ==> out == NotFound("User not found")
    ensures !out.Stored? ==> store.readings == old(store.readings) && store.alerts == old(store.alerts)
    ensures data.Some? && data.value.HasUserId() && data.value.userId.value in users ==>
      var row := SingleRow(data.value, t, |old(store.readings)| + 1, now, parseIso);
      if Storable(row) then
        && store.readings == old(store.readings) + [row]
        && store.alerts == old(store.alerts) + AlertsIfValid(row, t, now)
        && out == Stored(row.id, row.userId, row.isValid, |AlertsIfValid(row, t, now)|, row.validationErrors)
      else out == ServerError
  {
    if data.None? || data.value.NoKeys() {
      return BadRequest("No data provided");
    }
    var p := data.value;
    if !p.HasUserId() {
      return BadRequest("user_id is required");
    }
    var user := p.userId.value;
    if user !in users {
      return NotFound("User not found");
    }
    var v := Validate(p, t);
    var row := NewReading(p, user, v, |store.readings| + 1, now, parseIso);
    var ok := store.Add(row);
    if !ok {
      store.Rollback();
      return ServerError;
    }
    ok := store.Commit();
    var created: seq<Alert> := [];
    if v.isValid {
      ValidRowIsComplete(p, user, t, row.id, now, parseIso);
      created := CheckAndCreateAlerts(store, row, t, now);
    }
    out := Stored(row.id, user, v.isValid, |created|, if v.isValid then None else Some(v.errors));
  }

  /**
   * As written, the alert call on a row judged valid raises: a valid
   * temperature lies within a range above zero, so it is truthy and its
   * check reads the config. The single endpoint has committed the row by
   * then, so it answers 500 with the reading stored.
   */
  lemma ValidRowRaisesWithConfigDict(p: Payload, user: int, t: Thresholds, id: nat, now: int,
                                     parseIso: string -> Option<int>)
    requires Validate(p, t).isValid && t.bodyTempMin > 0.0
    ensures var r := NewReading(p, user, Validate(p, t), id, now, parseIso);
      Storable(r) && r.isValid && Comparable(r) && AlertsWithConfigDict(r, now).None?
  {
    ValidRowIsComplete(p, user, t, id, now, parseIso);
    ValidIsNumeric(p, t);
  }

  /** A reading is stored with its validity flag; its errors are kept exactly when it is invalid. */
  lemma SingleRowRecordsValidity(p: Payload, t: Thresholds, id: nat, now: int, parseIso: string -> Option<int>)
    requires p.HasUserId()
    ensures SingleRow(p, t, id, now, parseIso).isValid == Validate(p, t).isValid
    ensures SingleRow(p, t, id, now, parseIso).validationErrors.Some? <==> !Validate(p, t).isValid
    ensures !Validate(p, t).isValid ==> AlertsIfValid(SingleRow(p, t, id, now, parseIso), t, now) == []
  {
  }

  /** A missing or None temperature, pulse or heart rate makes the insert fail. */
  lemma MissingVitalIsNotStorable(p: Payload, t: Thresholds, id: nat, now: int, parseIso: string -> Option<int>)
    requires p.HasUserId()
    ensures Storable(SingleRow(p, t, id, now, parseIso)) <==>
      !(p.bodyTemperature.Absent? || p.bodyTemperature.Null?)
      && !(p.pulseRate.Absent? || p.pulseRate.Null?)
      && !(p.heartRate.Absent? || p.heartRate.Null?)
  {
  }

  /** One element of the `readings` list: a JSON object, or anything else (item assignment on it raises). */
  datatype Item = NotAnObject | Entry(p: Payload)

  /** The batch body: the batch's user and device, and the `readings` list when the key is present. */
  datatype BatchRequest = BatchRequest(userId: Option<int>, deviceId: Option<string>, readings: Option<seq<Item>>)

  /** The body holds a `readings` key. */
  predicate HasReadings(data: Option<BatchRequest>) {
    data.Some? && data.value.readings.Some?
  }

  /** The body's `user_id` is truthy. */
  predicate HasUser(data: Option<BatchRequest>) {
    data.Some? && data.value.userId.Some? && data.value.userId.value != 0
  }

  /** The body passes the checks before the size limit. */
  predicate Accepted(data: Option<BatchRequest>, users: set<int>) {
    HasReadings(data) && HasUser(data) && data.value.userId.value in users
  }

  /** The merge with the common data: the batch's user and device, and the offline flag. */
  function Merged(p: Payload, user: int, device: Option<string>): (m: Payload)
    ensures m.userId == Some(user) && m.deviceId == device && m.isOfflineData == Some(true)
    ensures m.bodyTemperature == p.bodyTemperature && m.pulseRate == p.pulseRate && m.heartRate == p.heartRate
    ensures m.spo2 == p.spo2 && m.batteryLevel == p.batteryLevel && m.recordedAt == p.recordedAt
  {
    p.(userId := Some(user), deviceId := device, isOfflineData := Some(true))
  }

  /** The row of one batch item: as for a single reading from the merged payload, with no blood pressure. */
  function BatchRow(p: Payload, user: int, device: Option<string>, t: Thresholds, id: nat, now: int,
                    parseIso: string -> Option<int>): Reading
  {
    var m := Merged(p, user, device);
    NewReading(m, user, Validate(m, t), id, now, parseIso).(bpSystolic := None, bpDiastolic := None)
  }

  /** A batch row is an offline reading of the batch's user and device, and can be stored exactly when its item is insertable; a valid one can be compared. */
  lemma BatchRowShape(p: Payload, user: int, device: Option<string>, t: Thresholds, id: nat, now: int,
                      parseIso: string -> Option<int>)
    ensures var r := BatchRow(p, user, device, t, id, now, parseIso);
      && r.id == id && r.userId == user && r.deviceId == device && r.isOfflineData
      && r.bpSystolic.None? && r.bpDiastolic.None?
      && (Storable(r) <==> Insertable(p))
      && (r.isValid ==> Comparable(r))
  {
    var m := Merged(p, user, device);
    if Validate(m, t).isValid {
      ValidIsNumeric(m, t);
    }
  }

  /**
   * As written, a valid batch item is added and flushed, then its alert call
   * raises; the loop's handler skips the item before `saved_count` grows, and
   * the final commit stores the row all the same.
   */
  lemma BatchValidRowRaisesWithConfigDict(p: Payload, user: int, device: Option<string>, t: Thresholds, id: nat, now: int,
                                          parseIso: string -> Option<int>)
    requires Validate(Merged(p, user, device), t).isValid && t.bodyTempMin > 0.0
    ensures var r := BatchRow(p, user, device, t, id, now, parseIso);
      Storable(r) && r.isValid && Comparable(r) && AlertsWithConfigDict(r, now).None?
  {
    BatchRowShape(p, user, device, t, id, now, parseIso);
    ValidIsNumeric(Merged(p, user, device), t);
  }

  /** The three NOT NULL vitals of an item are present and not None. */
  predicate Insertable(p: Payload) {
    !p.bodyTemperature.Get().Null? && !p.pulseRate.Get().Null? && !p.heartRate.Get().Null?
  }

  predicate AllInsertable(items: seq<Item>) {
    forall k :: 0 <= k < |items| && items[k].Entry? ==> Insertable(items[k].p)
  }

  /** The rows a list of items yields when no insert fails: one per object item, built by `rowOf` with ids from `firstId` on. */
  function CollectRows(items: seq<Item>, rowOf: (Payload, nat) -> Reading, firstId: nat): (rows: seq<Reading>)
    ensures |rows| <= |items|
  {
    if |items| == 0 then []
    else
      var rows := CollectRows(items[..|items| - 1], rowOf, firstId);
      match items[|items| - 1]
      case NotAnObject => rows
      case Entry(p) => rows + [rowOf(p, firstId + |rows|)]
  }

  /** The batch row of an item, as a function of the item and its id. */
  function RowBuilder(user: int, device: Option<string>, t: Thresholds, now: int, parseIso: string -> Option<int>): (Payload, nat) -> Reading {
    (p: Payload, id: nat) => BatchRow(p, user, device, t, id, now, parseIso)
  }

  /** The rows a batch stores when no insert fails. */
  function BatchRows(items: seq<Item>, user: int, device: Option<string>, t: Thresholds, firstId: nat, now: int,
                     parseIso: string -> Option<int>): seq<Reading>
  {
    CollectRows(items, RowBuilder(user, device, t, now, parseIso), firstId)
  }

  /** The alerts of a list of rows, row by row, for a given way of raising the alerts of one row. */
  function RaiseAll(rows: seq<Reading>, alertsOf: Reading -> seq<Alert>): seq<Alert> {
    if |rows| == 0 then [] else RaiseAll(rows[..|rows| - 1], alertsOf) + alertsOf(rows[|rows| - 1])
  }

  /** The alert engine applied to one stored row. */
  function RowAlerts(t: Thresholds, now: int): Reading -> seq<Alert> {
    r => AlertsIfValid(r, t, now)
  }

  /** The alerts a batch raises for the rows it stores. */
  function BatchAlerts(rows: seq<Reading>, t: Thresholds, now: int): seq<Alert> {
    RaiseAll(rows, RowAlerts(t, now))
  }

  /** `rowOf` builds the batch rows of this batch. */
  ghost predicate BuildsBatchRows(rowOf: (Payload, nat) -> Reading, user: int, device: Option<string>, t: Thresholds,
                                  now: int, parseIso: string -> Option<int>) {
    forall p, id {:trigger BatchRow(p, user, device, t, id, now, parseIso)} ::
      rowOf(p, id) == BatchRow(p, user, device, t, id, now, parseIso)
  }

  /** `alertsOf` is the alert engine on a stored row. */
  ghost predicate RaisesRowAlerts(alertsOf: Reading -> seq<Alert>, t: Thresholds, now: int) {
    forall r {:trigger AlertsIfValid(r, t, now)} :: alertsOf(r) == AlertsIfValid(r, t, now)
  }

  /** Every object item is saved: the count of stored rows is the count of object items. */
  lemma {:induction false} CollectRowsCount(items: seq<Item>, rowOf: (Payload, nat) -> Reading, firstId: nat)
    ensures |CollectRows(items, rowOf, firstId)| == |set k | 0 <= k < |items| && items[k].Entry?|
  {
    var s := set k | 0 <= k < |items| && items[k].Entry?;
    if |items| > 0 {
      var n := |items| - 1;
      CollectRowsCount(items[..n], rowOf, firstId);
      var s' := set k | 0 <= k < n && items[..n][k].Entry?;
      if items[n].Entry? {
        assert s == s' + {n};
      } else {
        assert s == s';
      }
    }
  }

  /** Batch rows take consecutive ids and belong to the batch's user and device, as offline readings without blood pressure. */
  lemma {:induction false} BatchRowsShape(items: seq<Item>, user: int, device: Option<string>, t: Thresholds, firstId: nat,
                                          now: int, parseIso: string -> Option<int>)
    ensures var rows := BatchRows(items, user, device, t, firstId, now, parseIso);
      forall k :: 0 <= k < |rows| ==>
        rows[k].id == firstId + k && rows[k].userId == user && rows[k].deviceId == device && rows[k].isOfflineData
        && rows[k].bpSystolic.None? && rows[k].bpDiastolic.None?
  {
    if |items| > 0 {
      var n := |items| - 1;
      BatchRowsShape(items[..n], user, device, t, firstId, now, parseIso);
      var rows := BatchRows(items[..n], user, device, t, firstId, now, parseIso);
      if items[n].Entry? {
        BatchRowShape(items[n].p, user, device, t, firstId + |rows|, now, parseIso);
        assert BatchRows(items, user, device, t, firstId, now, parseIso)
            == rows + [BatchRow(items[n].p, user, device, t, firstId + |rows|, now, parseIso)];
      }
    }
  }

  lemma CollectStep(items: seq<Item>, i: nat, rowOf: (Payload, nat) -> Reading, firstId: nat)
    requires i < |items|
    ensures var rows := CollectRows(items[..i], rowOf, firstId);
      CollectRows(items[..i + 1], rowOf, firstId) == if items[i].Entry? then rows + [rowOf(items[i].p, firstId + |rows|)] else rows
    ensures AllInsertable(items[..i + 1]) <==> AllInsertable(items[..i]) && (items[i].Entry? ==> Insertable(items[i].p))
  {
    assert items[..i + 1][..i] == items[..i];
  }

  lemma RaiseAllStep(rows: seq<Reading>, r: Reading, alertsOf: Reading -> seq<Alert>)
    ensures RaiseAll(rows + [r], alertsOf) == RaiseAll(rows, alertsOf) + alertsOf(r)
  {
    assert (rows + [r])[..|rows|] == rows;
  }

  /**
   * One pass of the batch loop: the item is merged, validated, added and
   * flushed, and its alerts raised when valid. A non-object item raises
   * and is skipped; so is every item once a flush has failed.
   */
  method SaveBatchItem(store: Store, item: Item, user: int, device: Option<string>, t: Thresholds, now: int,
                       parseIso: string -> Option<int>, ghost rowOf: (Payload, nat) -> Reading,
                       ghost alertsOf: Reading -> seq<Alert>) returns (saved: bool, alerts: nat)
    requires store.Valid()
    requires BuildsBatchRows(rowOf, user, device, t, now, parseIso) && RaisesRowAlerts(alertsOf, t, now)
    modifies store
    ensures store.Valid()
    ensures saved <==> item.Entry? && !old(store.failed) && Insertable(item.p)
    ensures saved ==>
      var row := rowOf(item.p, |old(store.readings)| + 1);
      && store.readings == old(store.readings) + [row]
      && store.alerts == old(store.alerts) + alertsOf(row)
      && alerts == |alertsOf(row)|
      && !store.failed
    ensures !saved ==> alerts == 0 && store.savedReadings == old(store.savedReadings) && store.savedAlerts == old(store.savedAlerts)
    ensures !saved && (old(store.failed) || item.Entry?) ==>
      && store.failed
      && store.readings == old(store.readings)[..old(store.savedReadings)]
      && store.alerts == old(store.alerts)[..old(store.savedAlerts)]
    ensures !old(store.failed) && !item.Entry? ==>
      store.readings == old(store.readings) && store.alerts == old(store.alerts) && !store.failed
    ensures old(store.savedReadings) <= store.savedReadings && old(store.savedAlerts) <= store.savedAlerts
  {
    alerts := 0;
    if item.NotAnObject? {
      assert store.failed ==> store.readings[..store.savedReadings] == store.readings && store.alerts[..store.savedAlerts] == store.alerts;
      return false, 0;
    }
    var row := BatchRow(item.p, user, device, t, |store.readings| + 1, now, parseIso);
    BatchRowShape(item.p, user, device, t, |store.readings| + 1, now, parseIso);
    assert alertsOf(row) == AlertsIfValid(row, t, now);
    saved := store.Add(row);
    if saved && row.isValid {
      var created := CheckAndCreateAlerts(store, row, t, now);
      alerts := |created|;
    }
  }

  /** `prefix` is a prefix of `s`. */
  predicate Extends<T(==)>(s: seq<T>, prefix: seq<T>) {
    |prefix| <= |s| && s[..|prefix|] == prefix
  }

  lemma ExtendsTransitive<T>(a: seq<T>, b: seq<T>, c: seq<T>)
    requires Extends(a, b) && Extends(b, c)
    ensures Extends(a, c)
  {
    assert a[..|c|] == a[..|b|][..|c|];
  }

  lemma ExtendsCut<T>(s: seq<T>, prefix: seq<T>, n: nat)
    requires Extends(s, prefix) && |prefix| <= n <= |s|
    ensures Extends(s[..n], prefix) && Extends(s, s[..n])
  {
    assert s[..n][..|prefix|] == s[..|prefix|];
  }

  /** The rows of a longer prefix of the items extend those of a shorter one. */
  lemma CollectGrows(items: seq<Item>, i: nat, rowOf: (Payload, nat) -> Reading, start: seq<Reading>)
    requires i < |items|
    ensures Extends(start + CollectRows(items[..i + 1], rowOf, |start| + 1), start + CollectRows(items[..i], rowOf, |start| + 1))
  {
    CollectStep(items, i, rowOf, |start| + 1);
    var rows := CollectRows(items[..i], rowOf, |start| + 1);
    var rows' := CollectRows(items[..i + 1], rowOf, |start| + 1);
    if items[i].Entry? {
      SnocExtends(rows, rowOf(items[i].p, |start| + 1 + |rows|));
    } else {
      assert rows[..|rows|] == rows;
    }
    AppendKeepsExtends(start, rows', rows);
  }

  lemma SnocExtends<T>(s: seq<T>, x: T)
    ensures Extends(s + [x], s)
  {
    assert (s + [x])[..|s|] == s;
  }

  lemma AppendKeepsExtends<T>(start: seq<T>, s: seq<T>, prefix: seq<T>)
    requires Extends(s, prefix)
    ensures Extends(start + s, start + prefix)
  {
    assert (start + s)[..|start + prefix|] == start + s[..|prefix|];
  }

  /**
   * Where the batch loop stands after the first `i` items, starting from the
   * tables `start` and `startAlerts`: while no flush has failed, the tables
   * hold exactly the rows and alerts of those items and the counters count
   * them; once one has failed, the session holds only committed rows, a
   * prefix of what the batch would have stored.
   */
  ghost predicate Progress(items: seq<Item>, i: nat, rowOf: (Payload, nat) -> Reading, alertsOf: Reading -> seq<Alert>,
                           start: seq<Reading>, startAlerts: seq<Alert>,
                           readings: seq<Reading>, alerts: seq<Alert>, failed: bool, savedCount: nat, alertCount: nat)
    requires i <= |items|
  {
    var rows := CollectRows(items[..i], rowOf, |start| + 1);
    && Extends(readings, start) && Extends(alerts, startAlerts)
    && (!failed <==> AllInsertable(items[..i]))
    && (!failed ==>
          && readings == start + rows && alerts == startAlerts + RaiseAll(rows, alertsOf)
          && savedCount == |rows| && alertCount == |RaiseAll(rows, alertsOf)|)
    && (failed ==> Extends(start + rows, readings))
  }

  /** An item once the session has failed changes nothing that is not committed already. */
  lemma FailedStep(items: seq<Item>, i: nat, rowOf: (Payload, nat) -> Reading, alertsOf: Reading -> seq<Alert>,
                   start: seq<Reading>, startAlerts: seq<Alert>,
                   readings: seq<Reading>, alerts: seq<Alert>, savedCount: nat, alertCount: nat,
                   readings': seq<Reading>, alerts': seq<Alert>, failed': bool)
    requires i < |items|
    requires Progress(items, i, rowOf, alertsOf, start, startAlerts, readings, alerts, true, savedCount, alertCount)
    requires readings' == readings && alerts' == alerts && failed'
    ensures Progress(items, i + 1, rowOf, alertsOf, start, startAlerts, readings', alerts', failed', savedCount, alertCount)
  {
    CollectStep(items, i, rowOf, |start| + 1);
    CollectGrows(items, i, rowOf, start);
    ExtendsTransitive(start + CollectRows(items[..i + 1], rowOf, |start| + 1), start + CollectRows(items[..i], rowOf, |start| + 1), readings);
  }

  /** A non-object item in a healthy session is skipped. */
  lemma SkipStep(items: seq<Item>, i: nat, rowOf: (Payload, nat) -> Reading, alertsOf: Reading -> seq<Alert>,
                 start: seq<Reading>, startAlerts: seq<Alert>,
                 readings: seq<Reading>, alerts: seq<Alert>, savedCount: nat, alertCount: nat,
                 readings': seq<Reading>, alerts': seq<Alert>, failed': bool)
    requires i < |items| && items[i].NotAnObject?
    requires Progress(items, i, rowOf, alertsOf, start, startAlerts, readings, alerts, false, savedCount, alertCount)
    requires readings' == readings && alerts' == alerts && !failed'
    ensures Progress(items, i + 1, rowOf, alertsOf, start, startAlerts, readings', alerts', failed', savedCount, alertCount)
  {
    CollectStep(items, i, rowOf, |start| + 1);
  }

  /** An insertable object item in a healthy session adds its row and its alerts. */
  lemma SavedStep(items: seq<Item>, i: nat, rowOf: (Payload, nat) -> Reading, alertsOf: Reading -> seq<Alert>,
                  start: seq<Reading>, startAlerts: seq<Alert>,
                  readings: seq<Reading>, alerts: seq<Alert>, savedCount: nat, alertCount: nat,
                  readings': seq<Reading>, alerts': seq<Alert>, failed': bool, savedCount': nat, alertCount': nat)
    requires i < |items| && items[i].Entry? && Insertable(items[i].p)
    requires Progress(items, i, rowOf, alertsOf, start, startAlerts, readings, alerts, false, savedCount, alertCount)
    requires var row := rowOf(items[i].p, |readings| + 1);
      && readings' == readings + [row] && alerts' == alerts + alertsOf(row) && !failed'
      && savedCount' == savedCount + 1 && alertCount' == alertCount + |alertsOf(row)|
    ensures Progress(items, i + 1, rowOf, alertsOf, start, startAlerts, readings', alerts', failed', savedCount', alertCount')
  {
    var rows := CollectRows(items[..i], rowOf, |start| + 1);
    var row := rowOf(items[i].p, |readings| + 1);
    var rows' := CollectRows(items[..i + 1], rowOf, |start| + 1);
    assert readings == start + rows && alerts == startAlerts + RaiseAll(rows, alertsOf);
    assert rows' == rows + [row] && AllInsertable(items[..i + 1]) by {
      CollectStep(items, i, rowOf, |start| + 1);
    }
    assert readings' == start + rows' by {
      assert readings' == (start + rows) + [row];
    }
    assert alerts' == startAlerts + RaiseAll(rows', alertsOf) by {
      RaiseAllStep(rows, row, alertsOf);
      assert alerts' == (startAlerts + RaiseAll(rows, alertsOf)) + alertsOf(row);
    }
    HealthyProgress(items, i + 1, rowOf, alertsOf, start, startAlerts, rows', readings', alerts', savedCount', alertCount');
  }

  /** Progress of a session that has not failed: exactly the rows and alerts of the items so far were added. */
  lemma HealthyProgress(items: seq<Item>, i: nat, rowOf: (Payload, nat) -> Reading, alertsOf: Reading -> seq<Alert>,
                        start: seq<Reading>, startAlerts: seq<Alert>, rows: seq<Reading>,
                        readings: seq<Reading>, alerts: seq<Alert>, savedCount: nat, alertCount: nat)
    requires i <= |items| && AllInsertable(items[..i])
    requires rows == CollectRows(items[..i], rowOf, |start| + 1)
    requires readings == start + rows && alerts == startAlerts + RaiseAll(rows, alertsOf)
    requires savedCount == |rows| && alertCount == |RaiseAll(rows, alertsOf)|
    ensures Progress(items, i, rowOf, alertsOf, start, startAlerts, readings, alerts, false, savedCount, alertCount)
  {
    assert readings[..|start|] == start;
    assert alerts[..|startAlerts|] == startAlerts;
  }

  /** An object item that breaks a NOT NULL column fails the session, which keeps only its committed rows. */
  lemma BrokenStep(items: seq<Item>, i: nat, rowOf: (Payload, nat) -> Reading, alertsOf: Reading -> seq<Alert>,
                   start: seq<Reading>, startAlerts: seq<Alert>,
                   readings: seq<Reading>, alerts: seq<Alert>, savedCount: nat, alertCount: nat,
                   savedReadings: nat, savedAlerts: nat, readings': seq<Reading>, alerts': seq<Alert>, failed': bool)
    requires i < |items| && items[i].Entry? && !Insertable(items[i].p)
    requires Progress(items, i, rowOf, alertsOf, start, startAlerts, readings, alerts, false, savedCount, alertCount)
    requires |start| <= savedReadings <= |readings| && |startAlerts| <= savedAlerts <= |alerts|
    requires readings' == readings[..savedReadings] && alerts' == alerts[..savedAlerts] && failed'
    ensures Progress(items, i + 1, rowOf, alertsOf, start, startAlerts, readings', alerts', failed', savedCount, alertCount)
  {
    CollectStep(items, i, rowOf, |start| + 1);
    CollectGrows(items, i, rowOf, start);
    ExtendsCut(readings, start, savedReadings);
    ExtendsCut(alerts, startAlerts, savedAlerts);
    ExtendsTransitive(start + CollectRows(items[..i + 1], rowOf, |start| + 1), readings, readings[..savedReadings]);
  }

  /** One pass of the batch loop, from what SaveBatchItem promises about the tables before and after it. */
  lemma ItemStep(items: seq<Item>, i: nat, rowOf: (Payload, nat) -> Reading, alertsOf: Reading -> seq<Alert>,
                 start: seq<Reading>, startAlerts: seq<Alert>,
                 readings: seq<Reading>, alerts: seq<Alert>, failed: bool, savedCount: nat, alertCount: nat,
                 savedReadings: nat, savedAlerts: nat, saved: bool,
                 readings': seq<Reading>, alerts': seq<Alert>, failed': bool, savedCount': nat, alertCount': nat)
    requires i < |items|
    requires Progress(items, i, rowOf, alertsOf, start, startAlerts, readings, alerts, failed, savedCount, alertCount)
    requires |start| <= savedReadings <= |readings| && |startAlerts| <= savedAlerts <= |alerts|
    requires failed ==> |readings| == savedReadings && |alerts| == savedAlerts
    requires saved <==> items[i].Entry? && !failed && Insertable(items[i].p)
    requires saved ==>
      var row := rowOf(items[i].p, |readings| + 1);
      && readings' == readings + [row] && alerts' == alerts + alertsOf(row) && !failed'
      && savedCount' == savedCount + 1 && alertCount' == alertCount + |alertsOf(row)|
    requires !saved ==> savedCount' == savedCount && alertCount' == alertCount
    requires !saved && (failed || items[i].Entry?) ==>
      failed' && readings' == readings[..savedReadings] && alerts' == alerts[..savedAlerts]
    requires !failed && !items[i].Entry? ==> readings' == readings && alerts' == alerts && !failed'
    ensures Progress(items, i + 1, rowOf, alertsOf, start, startAlerts, readings', alerts', failed', savedCount', alertCount')
  {
    if failed {
      assert readings[..|readings|] == readings && alerts[..|alerts|] == alerts;
      FailedStep(items, i, rowOf, alertsOf, start, startAlerts, readings, alerts, savedCount, alertCount,
                 readings', alerts', failed');
    } else if items[i].NotAnObject? {
      SkipStep(items, i, rowOf, alertsOf, start, startAlerts, readings, alerts, savedCount, alertCount,
               readings', alerts', failed');
    } else if saved {
      SavedStep(items, i, rowOf, alertsOf, start, startAlerts, readings, alerts, savedCount, alertCount,
                readings', alerts', failed', savedCount', alertCount');
    } else {
      BrokenStep(items, i, rowOf, alertsOf, start, startAlerts, readings, alerts, savedCount, alertCount,
                 savedReadings, savedAlerts, readings', alerts', failed');
    }
  }

  /**
   * The loop of receive_medical_data_batch. While no flush fails, every
   * object item adds its row and its alerts; once one fails, the session
   * stays failed and holds only committed rows, which are a prefix of what
   * the batch would have stored.
   */
  method SaveBatch(store: Store, items: seq<Item>, user: int, device: Option<string>, t: Thresholds, now: int,
                   parseIso: string -> Option<int>, ghost rowOf: (Payload, nat) -> Reading,
                   ghost alertsOf: Reading -> seq<Alert>) returns (savedCount: nat, alertCount: nat)
    requires store.Valid() && store.Clean()
    requires BuildsBatchRows(rowOf, user, device, t, now, parseIso) && RaisesRowAlerts(alertsOf, t, now)
    modifies store
    ensures store.Valid()
    ensures Progress(items, |items|, rowOf, alertsOf, old(store.readings), old(store.alerts),
                     store.readings, store.alerts, store.failed, savedCount, alertCount)
  {
    ghost var start, startAlerts := store.readings, store.alerts;
    savedCount, alertCount := 0, 0;
    assert start[..|start|] == start && startAlerts[..|startAlerts|] == startAlerts;
    for i := 0 to |items|
      invariant store.Valid()
      invariant |start| <= store.savedReadings && |startAlerts| <= store.savedAlerts
      invariant Progress(items, i, rowOf, alertsOf, start, startAlerts,
                         store.readings, store.alerts, store.failed, savedCount, alertCount)
    {
      ghost var readings, alerts, failed := store.readings, store.alerts, store.failed;
      ghost var savedReadings, savedAlerts := store.savedReadings, store.savedAlerts;
      ghost var counted, raisedSoFar := savedCount, alertCount;
      var saved, raised := SaveBatchItem(store, items[i], user, device, t, now, parseIso, rowOf, alertsOf);
      if saved {
        savedCount, alertCount := savedCount + 1, alertCount + raised;
      }
      ItemStep(items, i, rowOf, alertsOf, start, startAlerts, readings, alerts, failed, counted, raisedSoFar,
               savedReadings, savedAlerts, saved, store.readings, store.alerts, store.failed, savedCount, alertCount);
    }
  }

  /**
   * receive_medical_data_batch: refuse a body without `readings`, a missing
   * or unknown user and an oversized batch, with nothing stored. Otherwise
   * every object item is saved as an offline reading of the batch's user and
   * device, with its alerts when valid. When an item breaks a NOT NULL
   * column, the session fails: later items are skipped, the final commit
   * raises and the request ends in a server error, keeping only what the
   * alert engine committed before.
   */
  method ReceiveMedicalDataBatch(store: Store, users: set<int>, t: Thresholds, data: Option<BatchRequest>, now: int,
                                 parseIso: string -> Option<int>) returns (out: Outcome)
    requires store.Valid() && store.Clean()
    modifies store
    ensures store.Valid() && store.Clean()
    ensures !HasReadings(data) ==> out == BadRequest("No readings provided")
    ensures HasReadings(data) && !HasUser(data) ==> out == BadRequest("user_id is required")
    ensures HasReadings(data) && HasUser(data) && data.value.userId.value !in users ==> out == NotFound("User not found")
    ensures Accepted(data, users) && |data.value.readings.value| > t.maxBatchSize ==>
      out == BadRequest("Batch size exceeds maximum of " + IntToString(t.maxBatchSize))
    ensures out.BadRequest? || out.NotFound? ==> store.readings == old(store.readings) && store.alerts == old(store.alerts)
    ensures out.BatchStored? || out.ServerError? ==> Accepted(data, users) && |data.value.readings.value| <= t.maxBatchSize
    ensures Accepted(data, users) ==>
      var items, user, device := data.value.readings.value, data.value.userId.value, data.value.deviceId;
      var rows := BatchRows(items, user, device, t, |old(store.readings)| + 1, now, parseIso);
      && (out.BatchStored? <==> |items| <= t.maxBatchSize && AllInsertable(items))
      && (out.BatchStored? ==>
            && store.readings == old(store.readings) + rows
            && store.alerts == old(store.alerts) + BatchAlerts(rows, t, now)
            && out == BatchStored(user, |items|, |rows|, |BatchAlerts(rows, t, now)|))
      && (out.ServerError? ==>
            && Extends(store.readings, old(store.readings)) && Extends(old(store.readings) + rows, store.readings)
            && Extends(store.alerts, old(store.alerts)))
  {
    if data.None? || data.value.readings.None? {
      return BadRequest("No readings provided");
    }
    var userId := data.value.userId;
    if !(userId.Some? && userId.value != 0) {
      return BadRequest("user_id is required");
    }
    var user := userId.value;
    if user !in users {
      return NotFound("User not found");
    }
    var items := data.value.readings.value;
    if |items| > t.maxBatchSize {
      return BadRequest("Batch size exceeds maximum of " + IntToString(t.maxBatchSize));
    }
    var device := data.value.deviceId;
    ghost var rowOf, alertsOf := RowBuilder(user, device, t, now, parseIso), RowAlerts(t, now);
    var savedCount, alertCount := SaveBatch(store, items, user, device, t, now, parseIso, rowOf, alertsOf);
    assert items[..|items|] == items;
    var ok := store.Commit();
    if !ok {
      assert store.readings[..store.savedReadings] == store.readings && store.alerts[..store.savedAlerts] == store.alerts;
      store.Rollback();
      return ServerError;
    }
    out := BatchStored(user, |items|, savedCount, alertCount);
  }

  /** `min(days, 90)` after `request.args.get('days', 7, type=int)`: None when the parameter is missing or not an integer. */
  function ClampDays(days: Option<int>): (d: int)
    ensures d <= 90
    ensures days.None? ==> d == 7
    ensures days.Some? ==> d == if days.value < 90 then days.value else 90
  {
    var requested := days.GetOr(7);
    if requested < 90 then requested else 90
  }

  /** The clamp has no lower bound: any window up to 90, zero and negatives included, passes through. */
  lemma ClampDaysNoLowerBound(n: int)
    requires n <= 90
    ensures ClampDays(Some(n)) == n
  {
  }
}
