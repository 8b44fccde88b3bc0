/**
 * The textual side of the timestamps: the fixed-width layout the real-time
 * feed sends, Python's slicing and int() on it, the colon strip before
 * `%z`, `str()` of an aware datetime, and `str.split`.
 */
module StampText {
  import opened Options
  import opened Calendar
  import opened Timestamps

  predicate IsDigit(c: char) {
    '0' <= c <= '9'
  }

  predicate AllDigits(s: string) {
    forall i :: 0 <= i < |s| ==> IsDigit(s[i])
  }

  function DigitChar(d: int): char
    requires 0 <= d <= 9
  {
    ('0' as int + d) as char
  }

  function DigitValue(c: char): int
    requires IsDigit(c)
  {
    c as int - '0' as int
  }

  /** Zero-padded two-digit field, as `%m`, `%d`, `%H`, `%M`, `%S` print it. */
  function Pad2(n: int): string
    requires 0 <= n <= 99
  {
    [DigitChar(n / 10), DigitChar(n % 10)]
  }

  /** Zero-padded four-digit year, as `%Y` prints it. */
  function Pad4(n: int): string
    requires 0 <= n <= 9999
  {
    [DigitChar(n / 1000), DigitChar(n / 100 % 10), DigitChar(n / 10 % 10), DigitChar(n % 10)]
  }

  function DigitsValue(s: string): nat
    requires AllDigits(s)
    decreases |s|
  {
    if |s| == 0 then 0 else DigitsValue(s[..|s| - 1]) * 10 + DigitValue(s[|s| - 1])
  }

  /** `int(s)`; None where int() raises ValueError. */
  function ParseNat(s: string): Option<nat> {
    if |s| > 0 && AllDigits(s) then Some(DigitsValue(s)) else None
  }

  /** Python's `s[i:j]` for non-negative bounds: both are clamped to the length. */
  function Slice(s: string, i: nat, j: nat): string {
    var lo := if i < |s| then i else |s|;
    var hi := if j < |s| then j else |s|;
    if lo <= hi then s[lo..hi] else ""
  }

  /** Python's `s[:-k]`. */
  function DropLast(s: string, k: nat): string {
    if k <= |s| then s[..|s| - k] else ""
  }

  /** Python's `s[-k:]` for k > 0. */
  function TakeLast(s: string, k: nat): string {
    if k <= |s| then s[|s| - k..] else s
  }

  /** `s.split(sep)`: the pieces between occurrences of sep, empty pieces included. */
  function Split(s: string, sep: char): (r: seq<string>)
    ensures |r| >= 1
    decreases |s|
  {
    if |s| == 0 then [""]
    else
      var rest := Split(s[1..], sep);
      if s[0] == sep then [""] + rest else [[s[0]] + rest[0]] + rest[1..]
  }

  /**
   * `[int(x) for x in s.split(":")]` read as hours, minutes, seconds; None
   * where that raises: some piece is not an integer, or there are fewer than
   * three pieces. Pieces after the third are converted but not used.
   */
  function ParseClock(s: string): Option<Clock> {
    var parts := Split(s, ':');
    if |parts| < 3 || exists k :: 0 <= k < |parts| && ParseNat(parts[k]).None? then None
    else Some(Clock(ParseNat(parts[0]).value, ParseNat(parts[1]).value, ParseNat(parts[2]).value))
  }

  predicate PrintableDate(d: Date) {
    0 <= d.year <= 9999 && 0 <= d.month <= 99 && 0 <= d.day <= 99
  }

  predicate PrintableClock(c: Clock) {
    0 <= c.hour <= 99 && 0 <= c.minute <= 99 && 0 <= c.second <= 99
  }

  predicate Printable(ts: Stamp) {
    PrintableDate(ts.date) && PrintableClock(ts.clock) && ValidOffset(ts.offset)
  }

  /** "YYYY-MM-DD". */
  function DateText(d: Date): string
    requires PrintableDate(d)
  {
    Pad4(d.year) + "-" + Pad2(d.month) + "-" + Pad2(d.day)
  }

  /** "HH:MM:SS". */
  function ClockText(c: Clock): string
    requires PrintableClock(c)
  {
    Pad2(c.hour) + ":" + Pad2(c.minute) + ":" + Pad2(c.second)
  }

  function Abs(n: int): nat {
    if n < 0 then -n else n
  }

  function SignChar(offset: int): char {
    if offset < 0 then '-' else '+'
  }

  /** "+hh:mm", the offset as the feed and `str(datetime)` write it. */
  function ZoneText(offset: int): string
    requires ValidOffset(offset)
  {
    [SignChar(offset)] + Pad2(Abs(offset) / 60) + ":" + Pad2(Abs(offset) % 60)
  }

  /** "+hhmm", the offset as `%z` reads it. */
  function CompactZoneText(offset: int): string
    requires ValidOffset(offset)
  {
    [SignChar(offset)] + Pad2(Abs(offset) / 60) + Pad2(Abs(offset) % 60)
  }

  /** A timestamp as the real-time feed sends it: "2024-01-01T23:55:00-06:00". */
  function FeedText(ts: Stamp): string
    requires Printable(ts)
  {
    DateText(ts.date) + "T" + ClockText(ts.clock) + ZoneText(ts.offset)
  }

  /** The layout of the format "%Y-%m-%dT%H:%M:%S%z". */
  function CompactFeedText(ts: Stamp): string
    requires Printable(ts)
  {
    DateText(ts.date) + "T" + ClockText(ts.clock) + CompactZoneText(ts.offset)
  }

  /** `str()` of an aware datetime without microseconds: "2024-01-01 23:55:00-06:00". */
  function DatetimeText(ts: Stamp): string
    requires Printable(ts)
  {
    DateText(ts.date) + " " + ClockText(ts.clock) + ZoneText(ts.offset)
  }

  /** `s[:-3] + s[-2:]`, the colon strip applied to both timestamps. */
  function StripColon(s: string): string {
    DropLast(s, 3) + TakeLast(s, 2)
  }

  /** The hour field read from characters 11..13 (the scheduled timestamp's read). */
  function HourField(s: string): Option<nat> {
    ParseNat(Slice(s, 11, 13))
  }

  /** The expected timestamp's hour read as the source writes it, from characters 1..13. */
  function ExpectedHourAsWritten(s: string): Option<nat> {
    ParseNat(Slice(s, 1, 13))
  }

  /** `str(n)` for 0 <= n <= 99: no leading zero. */
  function NatText(n: int): string
    requires 0 <= n <= 99
  {
    if n < 10 then [DigitChar(n)] else Pad2(n)
  }

  /** The rollover rewrite: the next day's date, 'T', `str(hour - 24)`, then the text from the first minute colon on. */

  function RollOverRewrite(s: string, next: Date, hour: int): string
    requires PrintableDate(next) && 24 <= hour <= 99
  {
    DateText(next) + "T" + NatText(hour - 24) + Slice(s, 13, |s|)
  }

  // ---- lemmas ----

  lemma ParsePad2(n: int)
    requires 0 <= n <= 99
    ensures ParseNat(Pad2(n)) == Some(n)
  {
    var s := Pad2(n);
    assert s[..1] == [s[0]];
    assert DigitsValue(s[..1]) == DigitValue(s[0]);
  }

  lemma DigitsValue4(s: string)
    requires |s| == 4 && AllDigits(s)
    ensures DigitsValue(s) == ((DigitValue(s[0]) * 10 + DigitValue(s[1])) * 10 + DigitValue(s[2])) * 10 + DigitValue(s[3])
  {
    assert s[..1] == [s[0]] && DigitsValue(s[..1]) == DigitValue(s[0]);
    assert s[..2][..1] == s[..1] && DigitsValue(s[..2]) == DigitsValue(s[..1]) * 10 + DigitValue(s[1]);
    assert s[..3][..2] == s[..2] && DigitsValue(s[..3]) == DigitsValue(s[..2]) * 10 + DigitValue(s[2]);
    assert s[..3] == s[..|s| - 1];
  }

  lemma ParsePad4(n: int)
    requires 0 <= n <= 9999
    ensures ParseNat(Pad4(n)) == Some(n)
  {
    var s := Pad4(n);
    DigitsValue4(s);
    var hundreds, tens := n / 100, n / 10;
    assert hundreds == (n / 1000) * 10 + n / 100 % 10;
    assert tens == hundreds * 10 + n / 10 % 10;
    assert n == tens * 10 + n % 10;
  }

  /** The two-digit hour sits at characters 11..13 of the feed's timestamp. */
  lemma HourFieldReadsHour(ts: Stamp)
    requires Printable(ts)
    ensures |FeedText(ts)| == 25
    ensures HourField(FeedText(ts)) == Some(ts.clock.hour)
  {
    var s := FeedText(ts);
    assert Slice(s, 11, 13) == Pad2(ts.clock.hour);
    ParsePad2(ts.clock.hour);
  }

  /** Characters 1..13 hold a '-' after the year's digits: int() raises on every feed timestamp. */
  lemma ExpectedHourAsWrittenRaises(ts: Stamp)
    requires Printable(ts)
    ensures ExpectedHourAsWritten(FeedText(ts)) == None
  {
    var s := FeedText(ts);
    assert Slice(s, 1, 13)[3] == s[4] == '-';
  }

  /** The first ten characters are the date, as `[:10]` reads them. */
  lemma DateFieldReadsDate(ts: Stamp)
    requires Printable(ts)
    ensures Slice(FeedText(ts), 0, 10) == DateText(ts.date)
  {
  }

  /** The feed text split at the hour field: date, 'T', hour, then the rest from position 13. */
  lemma StampTextAroundHour(ts: Stamp)
    requires Printable(ts)
    ensures var s := FeedText(ts);
      var rest := ":" + Pad2(ts.clock.minute) + ":" + Pad2(ts.clock.second) + ZoneText(ts.offset);
      && s == DateText(ts.date) + "T" + Pad2(ts.clock.hour) + rest
      && |DateText(ts.date) + "T"| == 11 && |s| == 25
      && Slice(s, 13, |s|) == rest && Slice(s, 13, 25) == rest
  {
  }

  /**
   * The string rewrite of the rollover yields the text of the rolled
   * timestamp (next date, hour minus 24, minute, second and offset characters
   * untouched), except that `str()` drops the leading zero of an hour below 10.
   */
  lemma RollOverRewriteMatches(ts: Stamp)
    requires Printable(ts) && ValidDate(ts.date) && 24 <= ts.clock.hour
    requires ts.date != Date(MAX_YEAR, 12, 31)
    ensures ValidDate(NextDay(ts.date))
    ensures var padded := FeedText(RollOver(ts));
      RollOverRewrite(FeedText(ts), NextDay(ts.date), ts.clock.hour)
        == if ts.clock.hour >= 34 then padded else padded[..11] + padded[12..]
    ensures Slice(FeedText(RollOver(ts)), 13, 25) == Slice(FeedText(ts), 13, 25)
  {
    NextDayOrdinal(ts.date);
    var r := RollOver(ts);
    StampTextAroundHour(ts);
    StampTextAroundHour(r);
    var rest := ":" + Pad2(ts.clock.minute) + ":" + Pad2(ts.clock.second) + ZoneText(ts.offset);
    var h := ts.clock.hour - 24;
    var head := DateText(NextDay(ts.date)) + "T";
    var padded := FeedText(r);
    assert padded == head + Pad2(h) + rest;
    if h < 10 {
      assert Pad2(h) == ['0', DigitChar(h)];
      assert padded[..11] == head;
      assert padded[12..] == [DigitChar(h)] + rest;
    }
  }

  /** The colon strip deletes exactly the third character from the end; strings of two or fewer are kept. */
  lemma StripColonDeletesOne(s: string)
    ensures |s| >= 3 ==> (
      && |StripColon(s)| == |s| - 1
      && (forall i :: 0 <= i < |s| - 3 ==> StripColon(s)[i] == s[i])
      && (forall i :: |s| - 3 <= i < |s| - 1 ==> StripColon(s)[i] == s[i + 1]))
    ensures |s| <= 2 ==> StripColon(s) == s
  {
  }

  /** Stripping the feed's "-06:00" gives the "-0600" that `%z` reads; the rest is untouched. */
  lemma StripColonStamp(ts: Stamp)
    requires Printable(ts)
    ensures StripColon(FeedText(ts)) == CompactFeedText(ts)
  {
    var s := FeedText(ts);
    assert DropLast(s, 3) == DateText(ts.date) + "T" + ClockText(ts.clock) + [SignChar(ts.offset)] + Pad2(Abs(ts.offset) / 60);
    assert TakeLast(s, 2) == Pad2(Abs(ts.offset) % 60);
  }

  lemma SplitNoSep(a: string, sep: char)
    requires sep !in a
    ensures Split(a, sep) == [a]
    decreases |a|
  {
    if |a| > 0 {
      assert a[0] in a;
      assert forall c :: c in a[1..] ==> c in a;
      SplitNoSep(a[1..], sep);
      assert [a[0]] + a[1..] == a;
    }
  }

  lemma {:induction false} SplitAt(a: string, sep: char, b: string)
    requires sep !in a
    ensures Split(a + [sep] + b, sep) == [a] + Split(b, sep)
    decreases |a|
  {
    if |a| == 0 {
      assert a + [sep] + b == [sep] + b;
      assert ([sep] + b)[1..] == b;
    } else {
      assert (a + [sep] + b)[1..] == a[1..] + [sep] + b;
      SplitAt(a[1..], sep, b);
      assert [a[0]] + a[1..] == a;
    }
  }

  /** `str(scheduled_time).split(' ')` gives the date and "HH:MM:SS+hh:mm"; `[:-6]` leaves "HH:MM:SS". */
  lemma DatetimeTextFields(ts: Stamp)
    requires Printable(ts)
    ensures Split(DatetimeText(ts), ' ') == [DateText(ts.date), ClockText(ts.clock) + ZoneText(ts.offset)]
    ensures DropLast(ClockText(ts.clock) + ZoneText(ts.offset), 6) == ClockText(ts.clock)
  {
    var tail := ClockText(ts.clock) + ZoneText(ts.offset);
    assert ' ' !in DateText(ts.date);
    assert ' ' !in tail;
    assert DatetimeText(ts) == DateText(ts.date) + [' '] + tail;
    SplitAt(DateText(ts.date), ' ', tail);
    SplitNoSep(tail, ' ');
  }

  /** Reading "HH:MM:SS" back with split and int() recovers the clock. */
  lemma ParseClockText(c: Clock)
    requires PrintableClock(c)
    ensures ParseClock(ClockText(c)) == Some(c)
  {
    var h, m, s := Pad2(c.hour), Pad2(c.minute), Pad2(c.second);
    assert ClockText(c) == h + [':'] + (m + [':'] + s);
    SplitAt(h, ':', m + [':'] + s);
    SplitAt(m, ':', s);
    SplitNoSep(s, ':');
    ParsePad2(c.hour);
    ParsePad2(c.minute);
    ParsePad2(c.second);
    assert Split(ClockText(c), ':') == [h, m, s];
  }

  /** Every piece is converted: a fourth piece that is not an integer makes the read raise. */
  lemma ParseClockConvertsEveryPiece(c: Clock, junk: string)
    requires PrintableClock(c) && ':' !in junk && ParseNat(junk).None?
    ensures ParseClock(ClockText(c) + [':'] + junk) == None
  {
    var h, m, sec := Pad2(c.hour), Pad2(c.minute), Pad2(c.second);
    var text := ClockText(c) + [':'] + junk;
    assert text == h + [':'] + (m + [':'] + (sec + [':'] + junk));
    SplitAt(h, ':', m + [':'] + (sec + [':'] + junk));
    SplitAt(m, ':', sec + [':'] + junk);
    SplitAt(sec, ':', junk);
    SplitNoSep(junk, ':');
    assert Split(text, ':') == [h, m, sec, junk];
    assert Split(text, ':')[3] == junk;
  }

  /** Distinct dates print as distinct column names. */
  lemma DateTextInjective(d1: Date, d2: Date)
    requires PrintableDate(d1) && PrintableDate(d2)
    requires DateText(d1) == DateText(d2)
    ensures d1 == d2
  {
    var t1, t2 := DateText(d1), DateText(d2);
    assert t1[..4] == Pad4(d1.year) && t2[..4] == Pad4(d2.year);
    assert t1[5..7] == Pad2(d1.month) && t2[5..7] == Pad2(d2.month);
    assert t1[8..] == Pad2(d1.day) && t2[8..] == Pad2(d2.day);
    ParsePad4(d1.year);
    ParsePad4(d2.year);
    ParsePad2(d1.month);
    ParsePad2(d2.month);
    ParsePad2(d1.day);
    ParsePad2(d2.day);
  }

  /** Distinct clocks print as distinct arrival_time keys. */
  lemma ClockTextInjective(c1: Clock, c2: Clock)
    requires PrintableClock(c1) && PrintableClock(c2)
    requires ClockText(c1) == ClockText(c2)
    ensures c1 == c2
  {
    ParseClockText(c1);
    ParseClockText(c2);
  }
}
