/**
 * The database as the core sees it: the reading table and the alert table,
 * each an append-only sequence, behind one session. Rows added since the
 * last commit are pending; a flush that breaks a NOT NULL column rolls the
 * pending rows back and leaves the session failed until the next rollback.
 * Reading ids are assigned in insertion order; an alert's id is its
 * position plus one.
 */
module Storage {
  import opened Wrappers
  import opened Records

  /** The answer of acknowledge_alert: 404, 403, or acknowledged. */
  datatype AckOutcome = NoSuchAlert | NotOwner | Done

  class Store {
    var readings: seq<Reading>
    var alerts: seq<Alert>
    /** How many rows of each table are committed. */
    var savedReadings: nat
    var savedAlerts: nat
    /** A flush failed: every flush and commit raises until the session is rolled back. */
    var failed: bool

    /**
     * Ids are 1, 2, 3, ...; every stored row satisfies the NOT NULL columns;
     * every alert points at a stored reading of its own user, and a committed
     * alert at a committed reading.
     */
    ghost predicate Valid()
      reads this
    {
      && savedReadings <= |readings| && savedAlerts <= |alerts|
      && (forall i :: 0 <= i < |readings| ==> readings[i].id == i + 1 && Storable(readings[i]))
      && (forall a :: a in alerts ==> PointsIntoTable(a))
      && (forall i :: 0 <= i < savedAlerts ==> PointsIntoSaved(alerts[i]))
      && (failed ==> |readings| == savedReadings && |alerts| == savedAlerts)
    }

    ghost predicate PointsIntoTable(a: Alert)
      reads this
    {
      a.readingId.Some? ==> 1 <= a.readingId.value <= |readings| && readings[a.readingId.value - 1].userId == a.userId
    }

    ghost predicate PointsIntoSaved(a: Alert)
      reads this
    {
      a.readingId.Some? ==> a.readingId.value <= savedReadings
    }

    /** No pending rows and no failed flush: the state between two requests. */
    predicate Clean()
      reads this
    {
      !failed && savedReadings == |readings| && savedAlerts == |alerts|
    }

    constructor ()
      ensures Valid() && Clean()
      ensures readings == [] && alerts == []
    {
      readings := [];
      alerts := [];
      savedReadings := 0;
      savedAlerts := 0;
      failed := false;
    }

    /**
     * `db.session.add(reading)` followed by a flush: the row takes the next
     * id. A failed session raises again; a row with None in a NOT NULL
     * column raises and rolls the pending rows back.
     */
    method Add(r: Reading) returns (ok: bool)
      requires Valid()
      requires r.id == |readings| + 1
      modifies this
      ensures Valid()
      ensures ok <==> !old(failed) && Storable(r)
      ensures ok ==> readings == old(readings) + [r] && alerts == old(alerts) && !failed
      ensures !ok ==> failed && readings == old(readings)[..old(savedReadings)] && alerts == old(alerts)[..old(savedAlerts)]
      ensures savedReadings == old(savedReadings) && savedAlerts == old(savedAlerts)
    {
      if failed {
        return false;
      }
      if !Storable(r) {
        BackToSaved();
        return false;
      }
      readings := readings + [r];
      ok := true;
    }

    /**
     * Several `db.session.add` calls flushed together: all rows are
     * inserted, or, when one of them breaks a NOT NULL column, none.
     */
    method AddAll(rs: seq<Reading>) returns (ok: bool)
      requires Valid()
      requires forall i :: 0 <= i < |rs| ==> rs[i].id == |readings| + i + 1
      modifies this
      ensures Valid()
      ensures ok <==> !old(failed) && forall r :: r in rs ==> Storable(r)
      ensures ok ==> readings == old(readings) + rs && alerts == old(alerts) && !failed
      ensures !ok ==> failed && readings == old(readings)[..old(savedReadings)] && alerts == old(alerts)[..old(savedAlerts)]
      ensures savedReadings == old(savedReadings) && savedAlerts == old(savedAlerts)
    {
      if failed {
        return false;
      }
      if exists r :: r in rs && !Storable(r) {
        BackToSaved();
        return false;
      }
      readings := readings + rs;
      ok := true;
    }

    /** `db.session.add(alert)`: alert rows have no NULL in a NOT NULL column. */
    method AddAlert(a: Alert)
      requires Valid() && !failed && PointsIntoTable(a)
      modifies this
      ensures Valid() && !failed
      ensures alerts == old(alerts) + [a] && readings == old(readings)
      ensures savedReadings == old(savedReadings) && savedAlerts == old(savedAlerts)
    {
      alerts := alerts + [a];
    }

    /** `db.session.commit()`: raises in a failed session, otherwise every pending row is committed. */
    method Commit() returns (ok: bool)
      requires Valid()
      modifies this
      ensures Valid()
      ensures ok <==> !old(failed)
      ensures readings == old(readings) && alerts == old(alerts) && failed == old(failed)
      ensures ok ==> Clean()
      ensures !ok ==> savedReadings == old(savedReadings) && savedAlerts == old(savedAlerts)
    {
      if failed {
        return false;
      }
      savedReadings := |readings|;
      savedAlerts := |alerts|;
      assert forall i :: 0 <= i < |alerts| ==> alerts[i] in alerts;
      ok := true;
    }

    /** A failed flush: the pending rows are dropped and the session is marked failed. */
    method BackToSaved()
      requires Valid()
      modifies this
      ensures Valid() && failed
      ensures readings == old(readings)[..old(savedReadings)] && alerts == old(alerts)[..old(savedAlerts)]
      ensures savedReadings == old(savedReadings) && savedAlerts == old(savedAlerts)
    {
      readings := readings[..savedReadings];
      alerts := alerts[..savedAlerts];
      failed := true;
      forall a | a in alerts ensures PointsIntoTable(a) {
        var i :| 0 <= i < |alerts| && alerts[i] == a;
        assert PointsIntoSaved(old(alerts)[i]) && old(alerts)[i] in old(alerts);
      }
    }

    /** `db.session.rollback()`: back to the last commit. */
    method Rollback()
      requires Valid()
      modifies this
      ensures Valid() && Clean()
      ensures readings == old(readings)[..old(savedReadings)] && alerts == old(alerts)[..old(savedAlerts)]
    {
      BackToSaved();
      failed := false;
    }

    /**
     * acknowledge_alert: 404 when no alert has the id; 403 when a user is
     * logged in and the alert is someone else's; otherwise Alert.acknowledge
     * and its commit. A refused request changes nothing, and an acknowledge
     * changes no other alert and no reading.
     */
    method Acknowledge(alertId: nat, sessionUser: Option<int>, now: int) returns (out: AckOutcome)
      requires Valid() && Clean()
      modifies this
      ensures Valid() && Clean()
      ensures out == NoSuchAlert <==> !(1 <= alertId <= |old(alerts)|)
      ensures out == NotOwner <==>
        1 <= alertId <= |old(alerts)| && sessionUser.Some? && sessionUser.value != old(alerts)[alertId - 1].userId
      ensures alerts == if out == Done then old(alerts)[alertId - 1 := Acknowledged(old(alerts)[alertId - 1], now)] else old(alerts)
      ensures readings == old(readings)
    {
      if !(1 <= alertId <= |alerts|) {
        return NoSuchAlert;
      }
      if sessionUser.Some? && sessionUser.value != alerts[alertId - 1].userId {
        return NotOwner;
      }
      out := Done;
      var k := alertId - 1;
      alerts := alerts[k := Acknowledged(alerts[k], now)];
      assert forall i :: 0 <= i < |alerts| ==> alerts[i].readingId == old(alerts)[i].readingId && alerts[i].userId == old(alerts)[i].userId;
      assert forall a :: a in alerts ==> PointsIntoTable(a) by {
        forall a | a in alerts ensures PointsIntoTable(a) {
          var i :| 0 <= i < |alerts| && alerts[i] == a;
          assert old(alerts)[i] in old(alerts);
        }
      }
    }
  }
}
