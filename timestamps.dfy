/**
 * Departure timestamps as integer fields, the service-day rollover that turns
 * an hour of 24 or more into the next calendar day, and the signed delay
 * between two aware datetimes.
 */
module Timestamps {
  import opened Options
  import opened Calendar

  const SECONDS_PER_DAY := 86400
  /** Python's timezone() refuses offsets of a whole day or more. */
  const MAX_OFFSET_MINUTES := 1439

  /** A wall-clock time of day; the schedule writes post-midnight service as hour 24 and up. */
  datatype Clock = Clock(hour: int, minute: int, second: int)

  /** "YYYY-MM-DDTHH:MM:SS+hh:mm" field by field; `offset` is in minutes east of UTC. */
  datatype Stamp = Stamp(date: Date, clock: Clock, offset: int)

  predicate ValidClock(c: Clock) {
    0 <= c.hour <= 23 && 0 <= c.minute <= 59 && 0 <= c.second <= 59
  }

  predicate ValidOffset(offset: int) {
    -MAX_OFFSET_MINUTES <= offset <= MAX_OFFSET_MINUTES
  }

  /** What `strptime(s, "%Y-%m-%dT%H:%M:%S%z")` accepts. */
  predicate ValidStamp(ts: Stamp) {
    ValidDate(ts.date) && ValidClock(ts.clock) && ValidOffset(ts.offset)
  }

  /**
   * A timestamp as the real-time feed writes it: a valid date, a two-digit hour
   * that may run past 23, valid minutes, seconds and offset.
   */
  predicate WellFormedRaw(ts: Stamp) {
    && ValidDate(ts.date)
    && 0 <= ts.clock.hour <= 99 && 0 <= ts.clock.minute <= 59 && 0 <= ts.clock.second <= 59
    && ValidOffset(ts.offset)
  }

  function SecondOfDay(c: Clock): int {
    c.hour * 3600 + c.minute * 60 + c.second
  }

  /** Seconds on one absolute UTC scale; an hour past 23 reads as that many hours after midnight. */
  function Instant(ts: Stamp): int {
    Ordinal(ts.date) * SECONDS_PER_DAY + SecondOfDay(ts.clock) - ts.offset * 60
  }

  /** `int((expected - scheduled).total_seconds())`: positive when late, negative when early. */
  function Delay(scheduled: Stamp, expected: Stamp): int {
    Instant(expected) - Instant(scheduled)
  }

  /** One day later on the calendar and 24 hours earlier on the clock. */
  function RollOver(ts: Stamp): Stamp
    requires ValidDate(ts.date)
  {
    Stamp(NextDay(ts.date), ts.clock.(hour := ts.clock.hour - 24), ts.offset)
  }

  /**
   * The timestamp after the rollover fix (when `roll`) and the parse that
   * follows it; None where the source's strptime or date arithmetic raises.
   */
  function Normalize(ts: Stamp, roll: bool): (r: Option<Stamp>)
    ensures r.Some? ==> ValidStamp(r.value)
  {
    if !ValidDate(ts.date) then None
    else
      var t := if roll then RollOver(ts) else ts;
      if ValidStamp(t) then Some(t) else None
  }

  /** Rolling over moves no instant: hour h of day d is hour h-24 of the next day. */
  lemma RollOverKeepsInstant(ts: Stamp)
    requires ValidDate(ts.date)
    ensures Instant(RollOver(ts)) == Instant(ts)
  {
    NextDayOrdinal(ts.date);
  }

  /** A timestamp whose hour is 23 or less passes through unchanged. */
  lemma NormalizeInRange(ts: Stamp)
    requires WellFormedRaw(ts) && ts.clock.hour <= 23
    ensures Normalize(ts, false) == Some(ts)
  {
  }

  /**
   * An hour h in 24..47 becomes h-24 on the next calendar day, with minute,
   * second and offset unchanged; only 9999-12-31 has no next day.
   */
  lemma NormalizeOverflow(ts: Stamp)
    requires WellFormedRaw(ts) && 24 <= ts.clock.hour <= 47
    requires ts.date != Date(MAX_YEAR, 12, 31)
    ensures Normalize(ts, true).Some?
    ensures var t := Normalize(ts, true).value;
      && t.date == NextDay(ts.date) && Ordinal(t.date) == Ordinal(ts.date) + 1
      && t.clock == Clock(ts.clock.hour - 24, ts.clock.minute, ts.clock.second)
      && t.offset == ts.offset
      && Instant(t) == Instant(ts)
  {
    NextDayOrdinal(ts.date);
  }

  /** An hour of 48 or more cannot be repaired by one rollover, and one below 24 cannot be rolled. */
  lemma NormalizeRollFails(ts: Stamp, roll: bool)
    requires WellFormedRaw(ts)
    requires (roll && ts.clock.hour < 24) || (roll && ts.clock.hour >= 48) || (!roll && ts.clock.hour >= 24)
    ensures Normalize(ts, roll) == None
  {
  }

  /** The delay of a timestamp against itself is zero. */
  lemma DelaySelf(ts: Stamp)
    ensures Delay(ts, ts) == 0
  {
  }

  /** Same date and offset: the delay is the difference of the times of day. */
  lemma DelaySameDay(s: Stamp, e: Stamp)
    requires s.date == e.date && s.offset == e.offset
    ensures Delay(s, e) == SecondOfDay(e.clock) - SecondOfDay(s.clock)
    ensures Delay(s, e) < 0 <==> SecondOfDay(e.clock) < SecondOfDay(s.clock)
  {
  }

  /** Expected on the next calendar day: a full day is added across midnight. */
  lemma DelayAcrossMidnight(s: Stamp, e: Stamp)
    requires ValidDate(s.date) && e.date == NextDay(s.date) && s.offset == e.offset
    ensures Delay(s, e) == SECONDS_PER_DAY + SecondOfDay(e.clock) - SecondOfDay(s.clock)
  {
    NextDayOrdinal(s.date);
  }

  /** Offsets count: the same wall clock an hour further west is an hour later. */
  lemma DelayUsesOffsets(s: Stamp, e: Stamp)
    requires s.date == e.date && s.clock == e.clock
    ensures Delay(s, e) == (s.offset - e.offset) * 60
  {
  }

  /** Scheduled 2024-01-01 23:55:00-06:00, expected 2024-01-02 00:01:00-06:00: six minutes late. */
  lemma DelayScenario()
    ensures Delay(Stamp(Date(2024, 1, 1), Clock(23, 55, 0), -360),
                  Stamp(Date(2024, 1, 2), Clock(0, 1, 0), -360)) == 360
  {
    DelayAcrossMidnight(Stamp(Date(2024, 1, 1), Clock(23, 55, 0), -360),
                        Stamp(Date(2024, 1, 2), Clock(0, 1, 0), -360));
  }
}
