/**
 * The stop filter: a stop is worth a request when the static schedule has an
 * arrival for it strictly between now and `minutes` minutes from now, on the
 * same clock day (no wrap past midnight).
 */
module StopFilter {
  import opened Options
  import opened Timestamps
  import opened StampText
  import opened Store

  /** `stop_id LIKE 'X:%' OR stop_id LIKE 'X'`, read as exact text matching. */
  predicate StopMatches(rowStop: string, stopId: string) {
    rowStop == stopId || stopId + ":" <= rowStop
  }

  /** `if other_time[0] > 23: other_time[0] -= 24`. */
  function FoldHour(c: Clock): Clock {
    if c.hour > 23 then c.(hour := c.hour - 24) else c
  }

  /** The folded arrival minus now, in seconds, both read as times of one day. */
  function SecondsAhead(arrival: Clock, now: Clock): int {
    SecondOfDay(FoldHour(arrival)) - SecondOfDay(now)
  }

  /** `timedelta(0) < arrival - now < timedelta(minutes=minutes)`. */
  predicate InWindow(arrival: Clock, now: Clock, minutes: int) {
    0 < SecondsAhead(arrival, now) < minutes * 60
  }

  /** A stop_times row that makes `stopId` available. */
  predicate Qualifies(row: StopTime, stopId: string, minutes: int, now: Clock) {
    && StopMatches(row.stopId, stopId)
    && match ParseClock(row.arrivalTime)
       case Some(c) => InWindow(c, now, minutes)
       case None => false
  }

  /** has_stops's answer, as a property of the table. */
  predicate Available(rows: seq<StopTime>, stopId: string, minutes: int, now: Clock) {
    exists i :: 0 <= i < |rows| && Qualifies(rows[i], stopId, minutes, now)
  }

  /** What has_stops needs of the rows it reads: their arrival_time splits on ':' into at least three pieces, each an integer. */
  predicate Readable(rows: seq<StopTime>, stopId: string) {
    forall i :: 0 <= i < |rows| && StopMatches(rows[i].stopId, stopId) ==> ParseClock(rows[i].arrivalTime).Some?
  }

  /** `list(filter(lambda x: has_stops(x, minutes), stops))`. */
  function Filter(rows: seq<StopTime>, stops: seq<string>, minutes: int, now: Clock): seq<string>
    decreases |stops|
  {
    if |stops| == 0 then []
    else
      var last := stops[|stops| - 1];
      Filter(rows, stops[..|stops| - 1], minutes, now) + (if Available(rows, last, minutes, now) then [last] else [])
  }

  /**
   * has_stops: scans the rows of the stop (base id or any "base:" id) and
   * answers true at the first arrival inside the window.
   */
  method HasStops(db: Database, stopId: string, minutes: int, now: Clock) returns (found: bool)
    requires Readable(db.stopTimes, stopId)
    ensures found == Available(db.stopTimes, stopId, minutes, now)
  {
    var rows := db.stopTimes;
    var i := 0;
    while i < |rows|
      invariant 0 <= i <= |rows|
      invariant forall k :: 0 <= k < i ==> !Qualifies(rows[k], stopId, minutes, now)
    {
      var row := rows[i];
      if StopMatches(row.stopId, stopId) {
        var t := ParseClock(row.arrivalTime).value;
        var hour := t.hour;
        if hour > 23 {
          hour := hour - 24;
        }
        var ahead := hour * 3600 + t.minute * 60 + t.second - (now.hour * 3600 + now.minute * 60 + now.second);
        if 0 < ahead < minutes * 60 {
          return true;
        }
      }
      i := i + 1;
    }
    return false;
  }

  /** collect_available_stops: the candidates has_stops accepts, in their original order. */
  method CollectAvailableStops(db: Database, stops: seq<string>, minutes: int, now: Clock) returns (available: seq<string>)
    requires forall s :: s in stops ==> Readable(db.stopTimes, s)
    ensures available == Filter(db.stopTimes, stops, minutes, now)
  {
    available := [];
    var i := 0;
    while i < |stops|
      invariant 0 <= i <= |stops|
      invariant available == Filter(db.stopTimes, stops[..i], minutes, now)
    {
      var keep := HasStops(db, stops[i], minutes, now);
      assert stops[..i + 1][..i] == stops[..i];
      if keep {
        available := available + [stops[i]];
      }
      i := i + 1;
    }
    assert stops[..i] == stops;
  }

  // ---- lemmas ----

  /** The filter keeps exactly the available stops. */
  lemma {:induction false} FilterMembers(rows: seq<StopTime>, stops: seq<string>, minutes: int, now: Clock)
    ensures forall x :: x in Filter(rows, stops, minutes, now) <==> x in stops && Available(rows, x, minutes, now)
    decreases |stops|
  {
    if |stops| > 0 {
      var init := stops[..|stops| - 1];
      FilterMembers(rows, init, minutes, now);
      assert stops == init + [stops[|stops| - 1]];
    }
  }

  /** The filter distributes over concatenation, so it keeps the order of its input. */
  lemma {:induction false} FilterConcat(rows: seq<StopTime>, a: seq<string>, b: seq<string>, minutes: int, now: Clock)
    ensures Filter(rows, a + b, minutes, now) == Filter(rows, a, minutes, now) + Filter(rows, b, minutes, now)
    decreases |b|
  {
    if |b| == 0 {
      assert a + b == a;
    } else {
      var init := b[..|b| - 1];
      FilterConcat(rows, a, init, minutes, now);
      assert (a + b)[..|a + b| - 1] == a + init;
    }
  }

  /** A stop whose every candidate is available passes through whole. */
  lemma {:induction false} FilterKeepsAll(rows: seq<StopTime>, stops: seq<string>, minutes: int, now: Clock)
    requires forall x :: x in stops ==> Available(rows, x, minutes, now)
    ensures Filter(rows, stops, minutes, now) == stops
    decreases |stops|
  {
    if |stops| > 0 {
      FilterKeepsAll(rows, stops[..|stops| - 1], minutes, now);
      assert stops[..|stops| - 1] + [stops[|stops| - 1]] == stops;
    }
  }

  /** An arrival half an hour ahead is inside a 60-minute window and outside a 20-minute one. */
  lemma WindowBounds(arrival: Clock, now: Clock)
    requires SecondsAhead(arrival, now) == 1800
    ensures InWindow(arrival, now, 60) && !InWindow(arrival, now, 20)
  {
  }

  /** Both ends are open: an arrival exactly now, or exactly `minutes` ahead, does not count. */
  lemma WindowIsOpen(arrival: Clock, now: Clock, minutes: int)
    requires SecondsAhead(arrival, now) == 0 || SecondsAhead(arrival, now) == minutes * 60
    ensures !InWindow(arrival, now, minutes)
  {
  }

  /** There is no wrap past midnight: at 23:50 an arrival at 00:10 is never in the window. */
  lemma NoMidnightWrap(minutes: int)
    ensures !InWindow(Clock(0, 10, 0), Clock(23, 50, 0), minutes)
  {
  }

  /**
   * A row stored as "25:10:00" for stop "IU:2" makes "IU" available at
   * 00:40:00 with a 60-minute window: the hour is folded back to 01.
   */
  lemma FoldedArrivalQualifies(trip: string, seqNo: int, route: string)
    ensures Available([StopTime(trip, ClockText(Clock(25, 10, 0)), "IU:2", seqNo, route, map[])], "IU", 60, Clock(0, 40, 0))
  {
    ParseClockText(Clock(25, 10, 0));
    assert "IU" + ":" <= "IU:2";
    var rows := [StopTime(trip, ClockText(Clock(25, 10, 0)), "IU:2", seqNo, route, map[])];
    assert Qualifies(rows[0], "IU", 60, Clock(0, 40, 0));
  }

  /** A longer id with the same leading letters is not one of the stop's points. */
  lemma StopMatchesNeedsColon()
    ensures StopMatches("IU:2", "IU") && StopMatches("IU", "IU") && !StopMatches("IUB", "IU")
  {
    assert "IU" + ":" <= "IU:2";
    assert ("IU" + ":")[2] != "IUB"[2];
  }
}
