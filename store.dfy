/**
 * The two sqlite tables as an in-memory model. `stop_times` holds one row per
 * static (trip_id, arrival_time) and gains one nullable integer column per
 * observed arrival date; `unscheduled_stops` is append-only.
 */
module Store {
  import opened Calendar
  import opened StampText

  /** The columns stop_times is created with; date columns are appended after them. */
  const BASE_COLUMNS: seq<string> := ["trip_id", "arrival_time", "stop_id", "stop_sequence", "route_id"]

  /** A row of stop_times; `delays` holds the non-NULL cells of the date columns. */
  datatype StopTime = StopTime(
    tripId: string, arrivalTime: string, stopId: string, stopSequence: int, routeId: string,
    delays: map<string, int>)

  /** A row of unscheduled_stops. */
  datatype UnscheduledStop = UnscheduledStop(routeId: string, arrivalDate: string, arrivalTime: string, delay: int)

  /** One measurement handed to update_db: by trip when scheduled, by route when not. */
  datatype DelayRecord =
    | ScheduledDelay(tripId: string, arrivalDate: string, arrivalTime: string, delay: int)
    | UnscheduledDelay(routeId: string, arrivalDate: string, arrivalTime: string, delay: int)

  /** The whole store: the column list of stop_times, its rows, and unscheduled_stops. */
  datatype Tables = Tables(columns: seq<string>, stopTimes: seq<StopTime>, unscheduled: seq<UnscheduledStop>)

  predicate Distinct(s: seq<string>) {
    forall i, j :: 0 <= i < j < |s| ==> s[i] != s[j]
  }

  /** Column names are unique, and every filled delay cell belongs to a declared column. */
  predicate TablesValid(t: Tables) {
    && Distinct(t.columns)
    && forall i, c :: 0 <= i < |t.stopTimes| && c in t.stopTimes[i].delays ==> c in t.columns
  }

  /** The row an UPDATE ... WHERE trip_id = .. AND arrival_time = .. selects. */
  predicate Keyed(row: StopTime, tripId: string, arrivalTime: string) {
    row.tripId == tripId && row.arrivalTime == arrivalTime
  }

  /** ALTER TABLE ADD, performed only when no column of that name exists yet. */
  function AddColumn(columns: seq<string>, name: string): seq<string> {
    if name in columns then columns else columns + [name]
  }

  /** UPDATE stop_times SET <column> = diff on the rows keyed by (tripId, arrivalTime). */
  function SetDelay(rows: seq<StopTime>, tripId: string, arrivalTime: string, column: string, diff: int): seq<StopTime> {
    seq(|rows|, i requires 0 <= i < |rows| =>
      if Keyed(rows[i], tripId, arrivalTime) then rows[i].(delays := rows[i].delays[column := diff]) else rows[i])
  }

  /** The effect of one update_db call. */
  function Apply(t: Tables, r: DelayRecord): Tables {
    match r
    case ScheduledDelay(trip, date, time, diff) =>
      Tables(AddColumn(t.columns, date), SetDelay(t.stopTimes, trip, time, date, diff), t.unscheduled)
    case UnscheduledDelay(route, date, time, diff) =>
      t.(unscheduled := t.unscheduled + [UnscheduledStop(route, date, time, diff)])
  }

  /** The effect of a sequence of update_db calls, in order. */
  function ApplyAll(t: Tables, rs: seq<DelayRecord>): Tables
    decreases |rs|
  {
    if |rs| == 0 then t else Apply(ApplyAll(t, rs[..|rs| - 1]), rs[|rs| - 1])
  }

  function CountUnscheduled(rs: seq<DelayRecord>): nat
    decreases |rs|
  {
    if |rs| == 0 then 0
    else CountUnscheduled(rs[..|rs| - 1]) + (if rs[|rs| - 1].UnscheduledDelay? then 1 else 0)
  }

  /** The static part of a row, which no write touches. */
  predicate SameStatic(a: StopTime, b: StopTime) {
    a.tripId == b.tripId && a.arrivalTime == b.arrivalTime && a.stopId == b.stopId
    && a.stopSequence == b.stopSequence && a.routeId == b.routeId
  }

  // ---- lemmas ----

  /**
   * A scheduled write: the date column exists afterwards, added at the end only
   * if it was absent; exactly the keyed rows get that cell set to the delay;
   * no row is inserted or otherwise changed; unscheduled_stops is untouched.
   */
  lemma ScheduledWrite(t: Tables, trip: string, date: string, time: string, diff: int)
    ensures var u := Apply(t, ScheduledDelay(trip, date, time, diff));
      && date in u.columns
      && u.columns == (if date in t.columns then t.columns else t.columns + [date])
      && |u.stopTimes| == |t.stopTimes|
      && (forall i :: 0 <= i < |t.stopTimes| && Keyed(t.stopTimes[i], trip, time) ==>
            SameStatic(u.stopTimes[i], t.stopTimes[i]) && u.stopTimes[i].delays == t.stopTimes[i].delays[date := diff])
      && (forall i :: 0 <= i < |t.stopTimes| && !Keyed(t.stopTimes[i], trip, time) ==> u.stopTimes[i] == t.stopTimes[i])
      && u.unscheduled == t.unscheduled
  {
  }

  /** A second write for the same date adds no further column. */
  lemma SameDateAddsNoColumn(t: Tables, r1: DelayRecord, r2: DelayRecord)
    requires r1.ScheduledDelay? && r2.ScheduledDelay? && r1.arrivalDate == r2.arrivalDate
    ensures Apply(Apply(t, r1), r2).columns == Apply(t, r1).columns
  {
  }

  /** Date columns are named by the date's text, which never clashes with a base column. */
  lemma DateColumnIsNotBase(d: Date)
    requires PrintableDate(d)
    ensures DateText(d) !in BASE_COLUMNS
  {
    assert IsDigit(DateText(d)[0]);
  }

  /** Writes for two distinct dates leave two distinct date columns. */
  lemma TwoDatesTwoColumns(t: Tables, d1: Date, d2: Date, r1: DelayRecord, r2: DelayRecord)
    requires PrintableDate(d1) && PrintableDate(d2) && d1 != d2
    requires r1.ScheduledDelay? && r1.arrivalDate == DateText(d1)
    requires r2.ScheduledDelay? && r2.arrivalDate == DateText(d2)
    requires DateText(d1) !in t.columns && DateText(d2) !in t.columns
    ensures var u := Apply(Apply(t, r1), r2);
      u.columns == t.columns + [DateText(d1), DateText(d2)] && DateText(d1) != DateText(d2)
  {
    if DateText(d1) == DateText(d2) {
      DateTextInjective(d1, d2);
    }
  }

  /** An unscheduled write appends exactly one row and changes nothing else. */
  lemma UnscheduledWrite(t: Tables, route: string, date: string, time: string, diff: int)
    ensures var u := Apply(t, UnscheduledDelay(route, date, time, diff));
      u.unscheduled == t.unscheduled + [UnscheduledStop(route, date, time, diff)]
      && u.columns == t.columns && u.stopTimes == t.stopTimes
  {
  }

  /** Every write keeps the column names unique and every cell inside a declared column. */
  lemma ApplyKeepsValid(t: Tables, r: DelayRecord)
    requires TablesValid(t)
    ensures TablesValid(Apply(t, r))
  {
    if r.ScheduledDelay? {
      var u := Apply(t, r);
      forall i, j | 0 <= i < j < |u.columns| ensures u.columns[i] != u.columns[j] {
        if j == |t.columns| {
          assert u.columns[j] == r.arrivalDate && r.arrivalDate !in t.columns;
          assert u.columns[i] in t.columns;
        }
      }
      assert forall c :: c in t.columns ==> c in u.columns;
    }
  }

  /**
   * Over any sequence of writes: the column list only grows at its end, no
   * row of stop_times is inserted or loses its static fields, and
   * unscheduled_stops grows by one row per unscheduled record, keeping its
   * old rows as a prefix.
   */
  lemma {:induction false} ApplyAllGrowth(t: Tables, rs: seq<DelayRecord>)
    ensures var u := ApplyAll(t, rs);
      && |t.columns| <= |u.columns| && u.columns[..|t.columns|] == t.columns
      && |u.stopTimes| == |t.stopTimes|
      && (forall i :: 0 <= i < |t.stopTimes| ==> SameStatic(u.stopTimes[i], t.stopTimes[i]))
      && |u.unscheduled| == |t.unscheduled| + CountUnscheduled(rs)
      && u.unscheduled[..|t.unscheduled|] == t.unscheduled
    decreases |rs|
  {
    if |rs| > 0 {
      var v := ApplyAll(t, rs[..|rs| - 1]);
      ApplyAllGrowth(t, rs[..|rs| - 1]);
      var u := Apply(v, rs[|rs| - 1]);
      assert u.columns[..|v.columns|] == v.columns;
      assert u.columns[..|t.columns|] == v.columns[..|v.columns|][..|t.columns|];
      assert u.unscheduled[..|v.unscheduled|] == v.unscheduled;
      assert u.unscheduled[..|t.unscheduled|] == v.unscheduled[..|t.unscheduled|];
    }
  }

  /** The table invariant survives any sequence of writes. */
  lemma {:induction false} ApplyAllKeepsValid(t: Tables, rs: seq<DelayRecord>)
    requires TablesValid(t)
    ensures TablesValid(ApplyAll(t, rs))
    decreases |rs|
  {
    if |rs| > 0 {
      ApplyAllKeepsValid(t, rs[..|rs| - 1]);
      ApplyKeepsValid(ApplyAll(t, rs[..|rs| - 1]), rs[|rs| - 1]);
    }
  }

  lemma ApplyAllSnoc(t: Tables, rs: seq<DelayRecord>, r: DelayRecord)
    ensures ApplyAll(t, rs + [r]) == Apply(ApplyAll(t, rs), r)
  {
    assert (rs + [r])[..|rs|] == rs;
  }

  /** The sqlite file: the two tables, opened, changed and committed one write at a time. */
  class Database {
    var columns: seq<string>
    var stopTimes: seq<StopTime>
    var unscheduled: seq<UnscheduledStop>

    function Snapshot(): Tables
      reads this
    {
      Tables(columns, stopTimes, unscheduled)
    }

    constructor (initial: Tables)
      ensures Snapshot() == initial
    {
      columns := initial.columns;
      stopTimes := initial.stopTimes;
      unscheduled := initial.unscheduled;
    }

    /** The PRAGMA table_info scan: true when no column is named `name` yet. */
    method IsNewColumn(name: string) returns (newColumn: bool)
      ensures newColumn <==> name !in columns
    {
      newColumn := true;
      var i := 0;
      while i < |columns|
        invariant 0 <= i <= |columns|
        invariant newColumn <==> name !in columns[..i]
      {
        if columns[i] == name {
          newColumn := false;
        }
        assert columns[..i + 1] == columns[..i] + [columns[i]];
        i := i + 1;
      }
      assert columns[..i] == columns;
    }

    /** update_db: adds the date column if absent and updates keyed rows, or appends an unscheduled row. */
    method UpdateDb(rec: DelayRecord)
      modifies this
      ensures Snapshot() == Apply(old(Snapshot()), rec)
      ensures rec.ScheduledDelay? ==>
        && rec.arrivalDate in columns
        && |stopTimes| == old(|stopTimes|)
        && unscheduled == old(unscheduled)
      ensures rec.UnscheduledDelay? ==>
        && unscheduled == old(unscheduled) + [UnscheduledStop(rec.routeId, rec.arrivalDate, rec.arrivalTime, rec.delay)]
        && columns == old(columns) && stopTimes == old(stopTimes)
    {
      match rec
      case ScheduledDelay(trip, date, time, diff) =>
        var newColumn := IsNewColumn(date);
        if newColumn {
          columns := columns + [date];
        }
        stopTimes := SetDelay(stopTimes, trip, time, date, diff);
      case UnscheduledDelay(route, date, time, diff) =>
        unscheduled := unscheduled + [UnscheduledStop(route, date, time, diff)];
    }
  }
}
