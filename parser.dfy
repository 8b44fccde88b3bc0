/**
 * parse_store_cumtd_data: classify a real-time response, normalise each
 * departure's timestamps, compute its delay and hand one record per
 * departure to update_db, counting them.
 */
module Parser {
  import opened Options
  import opened Calendar
  import opened Timestamps
  import opened StampText
  import opened Store

  /** The provider's "hourly request limit reached" status. */
  const QUOTA_STATUS := 403

  /** One entry of `departures`: is_scheduled, trip.trip_id, scheduled, expected. */
  datatype Departure = Departure(isScheduled: bool, tripId: string, scheduled: Stamp, expected: Stamp)

  /** The JSON body: status.code, the `departures` list if present, and the top-level route.route_id if present. */
  datatype Response = Response(statusCode: int, departures: Option<seq<Departure>>, routeId: Option<string>)

  /** What parse_store_cumtd_data gives the poll loop. */
  datatype Reply =
    | LimitReached                       // raises HourlyRequestLimitReached
    | Done(success: bool, logged: nat)   // returns (success, departures_logged)
    | Raised                             // raises an exception the poll loop does not catch

  /** The update_db calls made for the departures looked at so far, and whether all of them succeeded. */
  datatype Batch = Batch(writes: seq<DelayRecord>, ok: bool)

  /** The reply and the update_db calls made before it. */
  datatype Outcome = Outcome(reply: Reply, writes: seq<DelayRecord>)

  /**
   * Lines 215-218 with the expected hour read like the scheduled one: both
   * timestamps roll over exactly when the scheduled hour exceeds 23.
   */
  function NormalizePair(d: Departure): Option<(Stamp, Stamp)> {
    var roll := d.scheduled.clock.hour > 23;
    match (Normalize(d.scheduled, roll), Normalize(d.expected, roll))
    case (Some(s), Some(e)) => Some((s, e))
    case _ => None
  }

  /**
   * The record one departure becomes: the scheduled stamp's date and
   * "HH:MM:SS" (from `str(scheduled_time).split(' ')`), the delay, and the
   * trip or the response's route. None where the source raises.
   */
  function RecordOf(resp: Response, d: Departure): Option<DelayRecord> {
    if !d.isScheduled && resp.routeId.None? then None
    else match NormalizePair(d)
      case None => None
      case Some((s, e)) =>
        var date, time, diff := DateText(s.date), ClockText(s.clock), Delay(s, e);
        Some(if d.isScheduled then ScheduledDelay(d.tripId, date, time, diff)
             else UnscheduledDelay(resp.routeId.value, date, time, diff))
  }

  /** The departures processed in order; processing stops at the first one that raises. */
  function Process(resp: Response, ds: seq<Departure>): Batch
    decreases |ds|
  {
    if |ds| == 0 then Batch([], true)
    else
      var b := Process(resp, ds[..|ds| - 1]);
      if !b.ok then b
      else match RecordOf(resp, ds[|ds| - 1])
        case None => Batch(b.writes, false)
        case Some(r) => Batch(b.writes + [r], true)
  }

  /** The specification of parse_store_cumtd_data. */
  function Parse(resp: Response): Outcome {
    match resp.departures
    case None => if resp.statusCode == QUOTA_STATUS then Outcome(LimitReached, []) else Outcome(Done(false, 0), [])
    case Some(ds) =>
      var b := Process(resp, ds);
      Outcome(if b.ok then Done(true, |b.writes|) else Raised, b.writes)
  }

  /** parse_store_cumtd_data, writing each departure's record to the store as it goes. */
  method ParseStore(db: Database, resp: Response) returns (reply: Reply)
    modifies db
    ensures reply == Parse(resp).reply
    ensures db.Snapshot() == ApplyAll(old(db.Snapshot()), Parse(resp).writes)
  {
    if resp.departures.None? {
      if resp.statusCode == QUOTA_STATUS {
        return LimitReached;
      }
      return Done(false, 0);
    }
    var ds := resp.departures.value;
    var logged := 0;
    ghost var written: seq<DelayRecord> := [];
    var i := 0;
    while i < |ds|
      invariant 0 <= i <= |ds|
      invariant Process(resp, ds[..i]) == Batch(written, true)
      invariant logged == |written|
      invariant db.Snapshot() == ApplyAll(old(db.Snapshot()), written)
    {
      var rec := RecordOf(resp, ds[i]);
      ProcessStep(resp, ds, i, written);
      if rec.None? {
        ProcessStopsAtFailure(resp, ds, i + 1);
        return Raised;
      }
      db.UpdateDb(rec.value);
      ApplyAllSnoc(old(db.Snapshot()), written, rec.value);
      written := written + [rec.value];
      logged := logged + 1;
      i := i + 1;
    }
    assert ds[..i] == ds;
    reply := Done(true, logged);
  }

  /** One more departure: written when it yields a record, otherwise the batch fails. */
  lemma ProcessStep(resp: Response, ds: seq<Departure>, i: nat, written: seq<DelayRecord>)
    requires i < |ds| && Process(resp, ds[..i]) == Batch(written, true)
    ensures Process(resp, ds[..i + 1]) ==
      match RecordOf(resp, ds[i])
      case None => Batch(written, false)
      case Some(r) => Batch(written + [r], true)
  {
    assert ds[..i + 1][..i] == ds[..i];
  }

  // ---- lemmas ----

  /** Once a departure raises, no later departure is written. */
  lemma {:induction false} ProcessStopsAtFailure(resp: Response, ds: seq<Departure>, k: nat)
    requires k <= |ds| && !Process(resp, ds[..k]).ok
    ensures Process(resp, ds) == Process(resp, ds[..k])
    decreases |ds| - k
  {
    if k < |ds| {
      assert ds[..k + 1][..k] == ds[..k];
      ProcessStopsAtFailure(resp, ds, k + 1);
    } else {
      assert ds[..k] == ds;
    }
  }

  /**
   * Without `departures`: status 403 and only 403 signals the quota; any
   * other status (404 included) is (False, 0). Nothing is written.
   */
  lemma ClassifyWithoutDepartures(resp: Response)
    requires resp.departures.None?
    ensures Parse(resp).reply == LimitReached <==> resp.statusCode == QUOTA_STATUS
    ensures resp.statusCode != QUOTA_STATUS ==> Parse(resp).reply == Done(false, 0)
    ensures Parse(resp).writes == []
  {
  }

  /** The quota is only ever signalled by a response without departures. */
  lemma LimitOnlyWithoutDepartures(resp: Response)
    requires Parse(resp).reply == LimitReached
    ensures resp.departures.None? && resp.statusCode == QUOTA_STATUS && Parse(resp).writes == []
  {
  }

  /**
   * With `departures` and no departure that raises: (True, n) with n the
   * number of departures, and exactly n writes, the i-th for the i-th
   * departure, scheduled exactly when it is.
   */
  lemma {:induction false} ProcessAll(resp: Response, ds: seq<Departure>)
    requires forall i :: 0 <= i < |ds| ==> RecordOf(resp, ds[i]).Some?
    ensures Process(resp, ds).ok && |Process(resp, ds).writes| == |ds|
    ensures forall i :: 0 <= i < |ds| ==> Process(resp, ds).writes[i] == RecordOf(resp, ds[i]).value
    ensures forall i :: 0 <= i < |ds| ==> (Process(resp, ds).writes[i].ScheduledDelay? <==> ds[i].isScheduled)
    decreases |ds|
  {
    if |ds| > 0 {
      ProcessAll(resp, ds[..|ds| - 1]);
    }
  }

  lemma LoggedCountsDepartures(resp: Response)
    requires resp.departures.Some?
    requires forall i :: 0 <= i < |resp.departures.value| ==> RecordOf(resp, resp.departures.value[i]).Some?
    ensures Parse(resp).reply == Done(true, |resp.departures.value|)
    ensures |Parse(resp).writes| == |resp.departures.value|
  {
    ProcessAll(resp, resp.departures.value);
  }

  /** The first departure that raises ends the call; exactly the departures before it were written. */
  lemma RaisedAtFirstFailure(resp: Response, k: nat)
    requires resp.departures.Some? && k < |resp.departures.value|
    requires RecordOf(resp, resp.departures.value[k]).None?
    requires forall i :: 0 <= i < k ==> RecordOf(resp, resp.departures.value[i]).Some?
    ensures Parse(resp).reply == Raised
    ensures |Parse(resp).writes| == k
    ensures forall i :: 0 <= i < k ==> Parse(resp).writes[i] == RecordOf(resp, resp.departures.value[i]).value
  {
    var ds := resp.departures.value;
    ProcessAll(resp, ds[..k]);
    assert ds[..k + 1][..k] == ds[..k];
    ProcessStopsAtFailure(resp, ds, k + 1);
  }

  /**
   * For feed timestamps with hours below 48, the pair normalises exactly when
   * both hours are on the same side of 24, and the delay is then the
   * difference of the raw service-day instants.
   */
  lemma NormalizePairSucceeds(d: Departure)
    requires WellFormedRaw(d.scheduled) && WellFormedRaw(d.expected)
    requires d.scheduled.clock.hour <= 47 && d.expected.clock.hour <= 47
    requires d.scheduled.date != Date(MAX_YEAR, 12, 31) && d.expected.date != Date(MAX_YEAR, 12, 31)
    ensures NormalizePair(d).Some? <==> (d.scheduled.clock.hour > 23 <==> d.expected.clock.hour > 23)
    ensures NormalizePair(d).Some? ==>
      Delay(NormalizePair(d).value.0, NormalizePair(d).value.1) == Instant(d.expected) - Instant(d.scheduled)
  {
    if d.scheduled.clock.hour > 23 {
      NextDayOrdinal(d.scheduled.date);
      NextDayOrdinal(d.expected.date);
      if d.expected.clock.hour > 23 {
        RollOverKeepsInstant(d.scheduled);
        RollOverKeepsInstant(d.expected);
      }
    }
  }

  /** The stored arrival time always has an hour below 24. */
  lemma RecordHourInRange(resp: Response, d: Departure)
    requires RecordOf(resp, d).Some?
    ensures var s := NormalizePair(d).value.0;
      ValidClock(s.clock) && RecordOf(resp, d).value.arrivalTime == ClockText(s.clock)
  {
  }

  /**
   * A static row kept with its schedule time "24:MM:SS" or later is never the
   * target of an update: the stored key of every measurement has an hour
   * below 24.
   */
  lemma OvernightRowNeverUpdated(resp: Response, d: Departure, row: StopTime, c: Clock)
    requires RecordOf(resp, d).Some? && RecordOf(resp, d).value.ScheduledDelay?
    requires PrintableClock(c) && c.hour >= 24 && row.arrivalTime == ClockText(c)
    ensures !Keyed(row, RecordOf(resp, d).value.tripId, RecordOf(resp, d).value.arrivalTime)
  {
    var s := NormalizePair(d).value.0;
    if ClockText(c) == ClockText(s.clock) {
      ClockTextInjective(c, s.clock);
    }
  }

  /** Trip T1 scheduled 2024-01-01 23:55:00-06:00, expected 00:01:00 the next day: +360 s in column "2024-01-01". */
  lemma LateAcrossMidnight(resp: Response)
    ensures RecordOf(resp, Departure(true, "T1",
              Stamp(Date(2024, 1, 1), Clock(23, 55, 0), -360),
              Stamp(Date(2024, 1, 2), Clock(0, 1, 0), -360)))
      == Some(ScheduledDelay("T1", "2024-01-01", "23:55:00", 360))
  {
    DelayScenario();
    assert DateText(Date(2024, 1, 1)) == "2024-01-01" by {
      assert Pad4(2024) == "2024" && Pad2(1) == "01";
    }
    assert ClockText(Clock(23, 55, 0)) == "23:55:00" by {
      assert Pad2(23) == "23" && Pad2(55) == "55" && Pad2(0) == "00";
    }
  }

  /** Scheduled 2024-01-01T25:10:00-06:00 is stored as date 2024-01-02, time 01:10:00. */
  lemma RolledOverScenario(resp: Response)
    ensures RecordOf(resp, Departure(true, "T2",
              Stamp(Date(2024, 1, 1), Clock(25, 10, 0), -360),
              Stamp(Date(2024, 1, 1), Clock(25, 12, 0), -360)))
      == Some(ScheduledDelay("T2", "2024-01-02", "01:10:00", 120))
  {
    var s := Stamp(Date(2024, 1, 1), Clock(25, 10, 0), -360);
    var e := Stamp(Date(2024, 1, 1), Clock(25, 12, 0), -360);
    var d := Departure(true, "T2", s, e);
    NormalizeOverflow(s);
    NormalizeOverflow(e);
    var rs := Stamp(Date(2024, 1, 2), Clock(1, 10, 0), -360);
    var re := Stamp(Date(2024, 1, 2), Clock(1, 12, 0), -360);
    assert NormalizePair(d) == Some((rs, re));
    DelaySameDay(rs, re);
    assert Delay(rs, re) == 120;
    assert DateText(Date(2024, 1, 2)) == "2024-01-02" by {
      assert Pad4(2024) == "2024" && Pad2(1) == "01" && Pad2(2) == "02";
    }
    assert ClockText(Clock(1, 10, 0)) == "01:10:00" by {
      assert Pad2(1) == "01" && Pad2(10) == "10" && Pad2(0) == "00";
    }
  }

  /** A scheduled 23:59 with an expected 24:01 raises: the expected hour is not rolled over on its own. */
  lemma ExpectedOverflowAloneRaises(resp: Response)
    ensures RecordOf(resp, Departure(true, "T3",
              Stamp(Date(2024, 1, 1), Clock(23, 59, 0), -360),
              Stamp(Date(2024, 1, 1), Clock(24, 1, 0), -360))) == None
  {
  }

  /** An unscheduled departure in a response with no top-level route raises (KeyError). */
  lemma UnscheduledNeedsRoute(resp: Response, d: Departure)
    requires !d.isScheduled && resp.routeId.None?
    ensures RecordOf(resp, d) == None
  {
  }
}
