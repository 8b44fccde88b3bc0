/**
 * analyze_all_stops, the rate-governed poll loop, and the run that main()
 * drives: candidates, filter, then one request per available stop until the
 * hourly quota is reported.
 */
module Poller {
  import opened Timestamps
  import opened Store
  import opened StopIds
  import opened StopFilter
  import opened Parser

  /** The lookahead window main() uses, in minutes. */
  const MINUTES_BETWEEN := 60

  /** What `requests.get(...)` followed by `r.json()` gives for one stop. */
  datatype Fetch = ConnectionError | Json(response: Response)

  /**
   * The loop variables of analyze_all_stops, whether an uncaught exception
   * ended it, the requests issued and the sleeps taken, and the store.
   */
  datatype PollState = PollState(
    stopsRequested: nat, totalLogged: nat, continueCollecting: bool, raised: bool,
    requested: seq<string>, sleeps: nat, tables: Tables)

  function Start(t: Tables): PollState {
    PollState(0, 0, true, false, [], 0, t)
  }

  /** The loop body for one stop id. */
  function Step(st: PollState, stop: string, fetch: string -> Fetch): PollState {
    if st.raised || !st.continueCollecting then st
    else
      var asked := st.(requested := st.requested + [stop]);
      match fetch(stop)
      case ConnectionError => asked
      case Json(resp) =>
        var out := Parse(resp);
        var t := ApplyAll(st.tables, out.writes);
        match out.reply
        case LimitReached => asked.(continueCollecting := false, tables := t)
        case Raised => asked.(raised := true, tables := t)
        case Done(success, n) =>
          asked.(totalLogged := st.totalLogged + n,
                 stopsRequested := st.stopsRequested + (if success then 1 else 0),
                 sleeps := st.sleeps + (if success then 1 else 0),
                 tables := t)
  }

  /** The loop over a list of stops. */
  function Run(st: PollState, stops: seq<string>, fetch: string -> Fetch): PollState
    decreases |stops|
  {
    if |stops| == 0 then st else Step(Run(st, stops[..|stops| - 1], fetch), stops[|stops| - 1], fetch)
  }

  /** A reply that ends the loop: the quota, or an exception the loop does not catch. */
  predicate Ends(f: Fetch) {
    f.Json? && (Parse(f.response).reply.LimitReached? || Parse(f.response).reply.Raised?)
  }

  predicate IsQuota(f: Fetch) {
    f.Json? && Parse(f.response).reply.LimitReached?
  }

  /** The departures one reply contributes to total_departures_logged. */
  function LoggedBy(f: Fetch): nat {
    if f.Json? && Parse(f.response).reply.Done? then Parse(f.response).reply.logged else 0
  }

  /** Whether one reply counts as a successful request. */
  function SucceededBy(f: Fetch): nat {
    if f.Json? && Parse(f.response).reply.Done? && Parse(f.response).reply.success then 1 else 0
  }

  function SumLogged(stops: seq<string>, fetch: string -> Fetch): nat
    decreases |stops|
  {
    if |stops| == 0 then 0 else SumLogged(stops[..|stops| - 1], fetch) + LoggedBy(fetch(stops[|stops| - 1]))
  }

  function CountSucceeded(stops: seq<string>, fetch: string -> Fetch): nat
    decreases |stops|
  {
    if |stops| == 0 then 0 else CountSucceeded(stops[..|stops| - 1], fetch) + SucceededBy(fetch(stops[|stops| - 1]))
  }

  /** Requests go out in list order, and all of the list unless the loop ended. */
  predicate InOrder(st: PollState, stops: seq<string>) {
    && |st.requested| <= |stops| && st.requested == stops[..|st.requested|]
    && (!st.raised && st.continueCollecting ==> |st.requested| == |stops|)
  }

  /** The counters are sums over the replies to the stops requested, one sleep per success. */
  predicate Counted(st: PollState, fetch: string -> Fetch) {
    && st.sleeps == st.stopsRequested
    && st.stopsRequested == CountSucceeded(st.requested, fetch)
    && st.totalLogged == SumLogged(st.requested, fetch)
  }

  /** Only the last request can have ended the loop, and a 403 is what clears continue_collecting. */
  predicate EndedByLast(st: PollState, fetch: string -> Fetch) {
    && (forall i :: 0 <= i < |st.requested| - 1 ==> !Ends(fetch(st.requested[i])))
    && (st.raised || !st.continueCollecting <==> |st.requested| > 0 && Ends(fetch(st.requested[|st.requested| - 1])))
    && (!st.continueCollecting <==> |st.requested| > 0 && IsQuota(fetch(st.requested[|st.requested| - 1])))
  }

  /**
   * analyze_all_stops: requests each stop in turn while collecting continues;
   * a connection error skips the stop, a success counts and sleeps, the quota
   * stops all further requests, and any other exception ends the call.
   */
  method AnalyzeAllStops(db: Database, stops: seq<string>, fetch: string -> Fetch)
    returns (stopsRequested: nat, totalLogged: nat, requested: seq<string>, sleeps: nat, raised: bool)
    modifies db
    ensures var r := Run(Start(old(db.Snapshot())), stops, fetch);
      && stopsRequested == r.stopsRequested && totalLogged == r.totalLogged
      && requested == r.requested && sleeps == r.sleeps && raised == r.raised
      && db.Snapshot() == r.tables
  {
    stopsRequested, totalLogged, requested, sleeps, raised := 0, 0, [], 0, false;
    var continueCollecting := true;
    var i := 0;
    while i < |stops|
      invariant 0 <= i <= |stops|
      invariant Run(Start(old(db.Snapshot())), stops[..i], fetch)
        == PollState(stopsRequested, totalLogged, continueCollecting, false, requested, sleeps, db.Snapshot())
    {
      var stopId := stops[i];
      assert stops[..i + 1][..i] == stops[..i];
      if continueCollecting {
        requested := requested + [stopId];
        match fetch(stopId)
        case ConnectionError =>
        case Json(resp) =>
          var reply := ParseStore(db, resp);
          match reply
          case LimitReached =>
            continueCollecting := false;
          case Raised =>
            raised := true;
            RunSettled(Start(old(db.Snapshot())), stops, i + 1, fetch);
            return;
          case Done(success, logged) =>
            totalLogged := totalLogged + logged;
            if success {
              stopsRequested := stopsRequested + 1;
              sleeps := sleeps + 1;
            }
      }
      i := i + 1;
    }
    assert stops[..i] == stops;
  }

  /**
   * main(): derive the candidate ids, keep those with an arrival in the next
   * MINUTES_BETWEEN minutes, and poll them (with no delay between queries).
   */
  method CollectOnce(db: Database, allStops: seq<string>, now: Clock, fetch: string -> Fetch)
    returns (available: seq<string>, stopsAnalyzed: nat, departuresLogged: nat, raised: bool)
    requires forall s :: s in Candidates(allStops) ==> Readable(db.stopTimes, s)
    modifies db
    ensures available == Filter(old(db.stopTimes), Candidates(allStops), MINUTES_BETWEEN, now)
    ensures var r := Run(Start(old(db.Snapshot())), available, fetch);
      stopsAnalyzed == r.stopsRequested && departuresLogged == r.totalLogged && raised == r.raised
      && db.Snapshot() == r.tables
  {
    var stops := Candidates(allStops);
    available := CollectAvailableStops(db, stops, MINUTES_BETWEEN, now);
    var requested, sleeps;
    stopsAnalyzed, departuresLogged, requested, sleeps, raised := AnalyzeAllStops(db, available, fetch);
  }

  // ---- lemmas ----

  /** After the quota or an uncaught exception, the remaining stops change nothing. */
  lemma {:induction false} RunSettled(st: PollState, stops: seq<string>, k: nat, fetch: string -> Fetch)
    requires k <= |stops|
    requires Run(st, stops[..k], fetch).raised || !Run(st, stops[..k], fetch).continueCollecting
    ensures Run(st, stops, fetch) == Run(st, stops[..k], fetch)
    decreases |stops| - k
  {
    if k < |stops| {
      assert stops[..k + 1][..k] == stops[..k];
      RunSettled(st, stops, k + 1, fetch);
    } else {
      assert stops[..k] == stops;
    }
  }

  /** A connection error records the attempt and changes no counter and no table. */
  lemma ConnectionErrorSkips(st: PollState, stop: string, fetch: string -> Fetch)
    requires !st.raised && st.continueCollecting && fetch(stop) == ConnectionError
    ensures Step(st, stop, fetch) == st.(requested := st.requested + [stop])
  {
  }

  /** A 403 stops collection and keeps every count and table as it was. */
  lemma QuotaKeepsCounts(st: PollState, stop: string, fetch: string -> Fetch)
    requires !st.raised && st.continueCollecting && IsQuota(fetch(stop))
    ensures Step(st, stop, fetch) == st.(requested := st.requested + [stop], continueCollecting := false)
  {
  }

  lemma {:induction false} SumsSnoc(stops: seq<string>, s: string, fetch: string -> Fetch)
    ensures SumLogged(stops + [s], fetch) == SumLogged(stops, fetch) + LoggedBy(fetch(s))
    ensures CountSucceeded(stops + [s], fetch) == CountSucceeded(stops, fetch) + SucceededBy(fetch(s))
  {
    assert (stops + [s])[..|stops|] == stops;
  }

  /** One step of an active loop, in terms of the reply to the stop it requests. */
  lemma StepFacts(st: PollState, stop: string, fetch: string -> Fetch)
    requires !st.raised && st.continueCollecting
    ensures var n := Step(st, stop, fetch);
      && n.requested == st.requested + [stop]
      && n.totalLogged == st.totalLogged + LoggedBy(fetch(stop))
      && n.stopsRequested == st.stopsRequested + SucceededBy(fetch(stop))
      && n.sleeps == st.sleeps + SucceededBy(fetch(stop))
      && (n.raised || !n.continueCollecting <==> Ends(fetch(stop)))
      && (!n.continueCollecting <==> IsQuota(fetch(stop)))
  {
  }

  /** An ended loop ignores further stops. */
  lemma StepIdle(st: PollState, stop: string, fetch: string -> Fetch)
    requires st.raised || !st.continueCollecting
    ensures Step(st, stop, fetch) == st
  {
  }

  /** Requests go out in list order and never beyond it; the loop ends early only by the quota or an exception. */
  lemma {:induction false} RunInOrder(t: Tables, stops: seq<string>, fetch: string -> Fetch)
    ensures InOrder(Run(Start(t), stops, fetch), stops)
    decreases |stops|
  {
    if |stops| > 0 {
      var init := stops[..|stops| - 1];
      var s := stops[|stops| - 1];
      RunInOrder(t, init, fetch);
      var st := Run(Start(t), init, fetch);
      if !st.raised && st.continueCollecting {
        StepFacts(st, s, fetch);
        assert st.requested + [s] == stops;
      } else {
        StepIdle(st, s, fetch);
        assert init[..|st.requested|] == stops[..|st.requested|];
      }
    }
  }

  /** stops_requested counts the successful replies, one sleep each; total_departures_logged sums the departures logged. */
  lemma {:induction false} RunCounted(t: Tables, stops: seq<string>, fetch: string -> Fetch)
    ensures Counted(Run(Start(t), stops, fetch), fetch)
    decreases |stops|
  {
    if |stops| > 0 {
      var init := stops[..|stops| - 1];
      var s := stops[|stops| - 1];
      RunCounted(t, init, fetch);
      var st := Run(Start(t), init, fetch);
      if !st.raised && st.continueCollecting {
        StepFacts(st, s, fetch);
        SumsSnoc(st.requested, s, fetch);
      } else {
        StepIdle(st, s, fetch);
      }
    }
  }

  /** Only the last request can be the one that ended the loop, and continue_collecting is cleared only by a 403. */
  lemma {:induction false} RunEndedByLast(t: Tables, stops: seq<string>, fetch: string -> Fetch)
    ensures EndedByLast(Run(Start(t), stops, fetch), fetch)
    decreases |stops|
  {
    if |stops| > 0 {
      var init := stops[..|stops| - 1];
      var s := stops[|stops| - 1];
      RunEndedByLast(t, init, fetch);
      var st := Run(Start(t), init, fetch);
      if !st.raised && st.continueCollecting {
        StepFacts(st, s, fetch);
        assert forall i :: 0 <= i < |st.requested| ==> (st.requested + [s])[i] == st.requested[i];
      } else {
        StepIdle(st, s, fetch);
      }
    }
  }

  /** stops_requested never exceeds the number of stops, and there is one sleep per success. */
  lemma RequestsBounded(t: Tables, stops: seq<string>, fetch: string -> Fetch)
    ensures var r := Run(Start(t), stops, fetch);
      r.stopsRequested <= |r.requested| <= |stops| && r.sleeps == r.stopsRequested
  {
    var r := Run(Start(t), stops, fetch);
    RunInOrder(t, stops, fetch);
    RunCounted(t, stops, fetch);
    CountAtMostLength(r.requested, fetch);
  }

  lemma {:induction false} CountAtMostLength(stops: seq<string>, fetch: string -> Fetch)
    ensures CountSucceeded(stops, fetch) <= |stops|
    decreases |stops|
  {
    if |stops| > 0 {
      CountAtMostLength(stops[..|stops| - 1], fetch);
    }
  }

  /** With no quota reply and no exception, every stop is requested and collection goes on. */
  lemma EveryStopRequested(t: Tables, stops: seq<string>, fetch: string -> Fetch)
    requires forall s :: s in stops ==> !Ends(fetch(s))
    ensures var r := Run(Start(t), stops, fetch);
      r.requested == stops && !r.raised && r.continueCollecting
  {
    var r := Run(Start(t), stops, fetch);
    RunInOrder(t, stops, fetch);
    RunEndedByLast(t, stops, fetch);
    if |r.requested| > 0 {
      assert r.requested[|r.requested| - 1] in stops;
    }
    assert stops[..|stops|] == stops;
  }

  /**
   * A 403 in the middle of a batch: no stop after it is requested, and the
   * counts and tables are the ones reached before it.
   */
  lemma QuotaMidBatch(t: Tables, before: seq<string>, stop: string, after: seq<string>, fetch: string -> Fetch)
    requires forall s :: s in before ==> !Ends(fetch(s))
    requires IsQuota(fetch(stop))
    ensures var r := Run(Start(t), before + [stop] + after, fetch);
      var p := Run(Start(t), before, fetch);
      && r.requested == before + [stop]
      && r.stopsRequested == p.stopsRequested && r.totalLogged == p.totalLogged
      && r.tables == p.tables && !r.continueCollecting && !r.raised
  {
    var stops := before + [stop] + after;
    var p := Run(Start(t), before, fetch);
    EveryStopRequested(t, before, fetch);
    var q := Run(Start(t), before + [stop], fetch);
    assert (before + [stop])[..|before|] == before;
    assert q == Step(p, stop, fetch);
    QuotaKeepsCounts(p, stop, fetch);
    assert stops[..|before| + 1] == before + [stop];
    RunSettled(Start(t), stops, |before| + 1, fetch);
  }

  /** The loop never inserts into stop_times and only appends to unscheduled_stops. */
  lemma {:induction false} RunNeverInserts(t: Tables, stops: seq<string>, fetch: string -> Fetch)
    ensures var u := Run(Start(t), stops, fetch).tables;
      |u.stopTimes| == |t.stopTimes| && |t.unscheduled| <= |u.unscheduled|
      && u.unscheduled[..|t.unscheduled|] == t.unscheduled
      && (forall i :: 0 <= i < |t.stopTimes| ==> SameStatic(u.stopTimes[i], t.stopTimes[i]))
    decreases |stops|
  {
    if |stops| > 0 {
      var init := stops[..|stops| - 1];
      RunNeverInserts(t, init, fetch);
      var v := Run(Start(t), init, fetch).tables;
      var f := fetch(stops[|stops| - 1]);
      if f.Json? {
        ApplyAllGrowth(v, Parse(f.response).writes);
        var u := Run(Start(t), stops, fetch).tables;
        assert u.unscheduled[..|t.unscheduled|] == u.unscheduled[..|v.unscheduled|][..|t.unscheduled|];
      }
    }
  }
}
