/**
 * When refreshes arrive: the load loop on a clock. A lease lasts LEASE_SEC from the moment the
 * request arrives; the refresh timer is restarted every time the loop goes back to its select.
 */
module LeaseTiming {
  import opened LoadSplit
  import opened LoadLoop

  /** One turn of the loop: what select picked and when, when the pass it caused ended, and when
      each pod acknowledged its request. */
  datatype Turn = Turn(choice: Choice, at: real, end: real, arrivals: map<string, real>)

  const REFRESH: real := CONSUMPTION_DURATION_SEC as real
  const LEASE: real := LEASE_SEC as real
  const SLACK: real := LEASE - REFRESH

  function Choices(ts: seq<Turn>): seq<Choice> {
    seq(|ts|, i requires 0 <= i < |ts| => ts[i].choice)
  }

  /** When the select of turn i was entered. */
  function Since(start: real, ts: seq<Turn>, i: nat): real
    requires i < |ts|
  {
    if i == 0 then start else ts[i - 1].end
  }

  /** The value in force when turn i is picked. */
  function Before(ts: seq<Turn>, i: nat): int
    requires i < |ts|
  {
    ValueAfter(Choices(ts)[..i])
  }

  /** An ideal timer fires exactly REFRESH after its select was entered, so a command is picked no
      later than that. Requests arrive while their pass lasts; a turn that sends nothing is over at once. */
  ghost predicate TimedAt(start: real, ts: seq<Turn>, i: nat)
    requires i < |ts|
  {
    var t := ts[i];
    && (t.choice.Take? || t.choice.Tick?)
    && Since(start, ts, i) <= t.at <= Since(start, ts, i) + REFRESH
    && (t.choice.Tick? ==> t.at == Since(start, ts, i) + REFRESH)
    && t.at <= t.end
    && (forall p :: p in t.arrivals ==> t.at <= t.arrivals[p] <= t.end)
    && (!Sends(Before(ts, i), t.choice) ==> t.end == t.at && t.arrivals == map[])
  }

  ghost predicate Timed(start: real, ts: seq<Turn>) {
    forall i :: 0 <= i < |ts| ==> TimedAt(start, ts, i)
  }

  function Duration(t: Turn): real { t.end - t.at }

  /** Pod p runs and acknowledges in every turn from lo to hi. */
  ghost predicate Serves(ts: seq<Turn>, p: string, lo: nat, hi: nat) {
    hi < |ts| && forall i :: lo <= i <= hi ==> p in ts[i].arrivals
  }

  /** p holds a lease at time t from one of the turns lo..hi. */
  ghost predicate Covered(ts: seq<Turn>, p: string, lo: nat, hi: nat, t: real)
    requires hi < |ts|
  {
    exists i :: lo <= i <= hi && p in ts[i].arrivals && ts[i].arrivals[p] <= t < ts[i].arrivals[p] + LEASE
  }

  ghost predicate CoveredThroughout(ts: seq<Turn>, p: string, lo: nat, hi: nat)
    requires Serves(ts, p, lo, hi) && lo <= hi
  {
    forall t :: ts[lo].arrivals[p] <= t < ts[hi].arrivals[p] + LEASE ==> Covered(ts, p, lo, hi, t)
  }

  /** The part of two consecutive passes between p's two requests. */
  function Between(ts: seq<Turn>, p: string, i: nat): real
    requires i + 1 < |ts| && p in ts[i].arrivals && p in ts[i + 1].arrivals
  {
    (ts[i].end - ts[i].arrivals[p]) + (ts[i + 1].arrivals[p] - ts[i + 1].at)
  }

  /** The gap between two requests to a pod: the time in the passes plus the time in the select. */
  lemma GapBetweenRequests(start: real, ts: seq<Turn>, p: string, i: nat)
    requires Timed(start, ts) && Serves(ts, p, i, i + 1)
    ensures var gap := ts[i + 1].arrivals[p] - ts[i].arrivals[p];
            && gap == Between(ts, p, i) + (ts[i + 1].at - ts[i].end)
            && 0.0 <= gap <= Between(ts, p, i) + 30.0
            && (ts[i + 1].choice.Tick? ==> gap == Between(ts, p, i) + 30.0)
            && 0.0 <= Between(ts, p, i) <= Duration(ts[i]) + Duration(ts[i + 1])
  {
    assert TimedAt(start, ts, i) && TimedAt(start, ts, i + 1);
    assert Since(start, ts, i + 1) == ts[i].end;
  }

  lemma {:induction false} ArrivalsInOrder(start: real, ts: seq<Turn>, p: string, i: nat, j: nat)
    requires Timed(start, ts) && i <= j && Serves(ts, p, i, j)
    ensures ts[i].arrivals[p] <= ts[j].arrivals[p]
    decreases j
  {
    if i < j {
      ArrivalsInOrder(start, ts, p, i, j - 1);
      GapBetweenRequests(start, ts, p, j - 1);
    }
  }

  /** Leases chain: if every next request comes before the previous lease ends, nothing is uncovered. */
  lemma {:induction false} ShortGapsCover(ts: seq<Turn>, p: string, lo: nat, hi: nat, t: real)
    requires lo <= hi && Serves(ts, p, lo, hi)
    requires forall i :: lo < i <= hi ==> ts[i].arrivals[p] <= ts[i - 1].arrivals[p] + LEASE
    requires ts[lo].arrivals[p] <= t < ts[hi].arrivals[p] + LEASE
    ensures Covered(ts, p, lo, hi, t)
    decreases hi
  {
    if t < ts[hi].arrivals[p] {
      assert lo < hi;
      ShortGapsCover(ts, p, lo, hi - 1, t);
      var i :| lo <= i <= hi - 1 && p in ts[i].arrivals && ts[i].arrivals[p] <= t < ts[i].arrivals[p] + LEASE;
    }
  }

  /** ... and a gap longer than a lease leaves the moment the lease ends uncovered. */
  lemma LongGapLapses(start: real, ts: seq<Turn>, p: string, lo: nat, hi: nat, i: nat)
    requires Timed(start, ts) && lo <= i < hi && Serves(ts, p, lo, hi)
    requires ts[i + 1].arrivals[p] > ts[i].arrivals[p] + LEASE
    ensures !Covered(ts, p, lo, hi, ts[i].arrivals[p] + LEASE)
    ensures !CoveredThroughout(ts, p, lo, hi)
  {
    var t := ts[i].arrivals[p] + LEASE;
    forall k | lo <= k <= hi
      ensures !(ts[k].arrivals[p] <= t < ts[k].arrivals[p] + LEASE)
    {
      if k <= i {
        ArrivalsInOrder(start, ts, p, k, i);
      } else {
        ArrivalsInOrder(start, ts, p, i + 1, k);
      }
    }
    ArrivalsInOrder(start, ts, p, lo, i);
    ArrivalsInOrder(start, ts, p, i + 1, hi);
  }

  /** The load never lapses: if any two consecutive passes together last at most ten seconds, a pod
      that runs and acknowledges throughout is covered from its first request to the end of its last
      lease, whether the passes in between are refreshes or new commands. */
  lemma LoadNeverLapses(start: real, ts: seq<Turn>, p: string, lo: nat, hi: nat)
    requires Timed(start, ts) && lo <= hi && Serves(ts, p, lo, hi)
    requires forall i :: lo <= i < hi ==> Duration(ts[i]) + Duration(ts[i + 1]) <= 10.0
    ensures CoveredThroughout(ts, p, lo, hi)
  {
    forall i | lo < i <= hi
      ensures ts[i].arrivals[p] <= ts[i - 1].arrivals[p] + LEASE
    {
      assert Duration(ts[i - 1]) + Duration(ts[i - 1 + 1]) <= SLACK;
      GapBetweenRequests(start, ts, p, i - 1);
    }
    forall t | ts[lo].arrivals[p] <= t < ts[hi].arrivals[p] + LEASE
      ensures Covered(ts, p, lo, hi, t)
    {
      ShortGapsCover(ts, p, lo, hi, t);
    }
  }

  /** Over refreshes the condition is exact: the pod is covered throughout if and only if, between
      each two of its requests, the passes take at most ten seconds. */
  lemma RefreshCoverageExactly(start: real, ts: seq<Turn>, p: string, lo: nat, hi: nat)
    requires Timed(start, ts) && lo <= hi && Serves(ts, p, lo, hi)
    requires forall i :: lo < i <= hi ==> ts[i].choice.Tick?
    ensures CoveredThroughout(ts, p, lo, hi) <==> forall i :: lo <= i < hi ==> Between(ts, p, i) <= 10.0
  {
    forall i | lo <= i < hi
      ensures Between(ts, p, i) <= SLACK <==> ts[i + 1].arrivals[p] <= ts[i].arrivals[p] + LEASE
    {
      assert ts[i + 1].choice.Tick?;
      GapBetweenRequests(start, ts, p, i);
    }
    if i :| lo <= i < hi && Between(ts, p, i) > SLACK {
      LongGapLapses(start, ts, p, lo, hi, i);
    } else {
      forall i | lo < i <= hi
        ensures ts[i].arrivals[p] <= ts[i - 1].arrivals[p] + LEASE
      {
        assert Between(ts, p, i - 1) <= SLACK;
      }
      forall t | ts[lo].arrivals[p] <= t < ts[hi].arrivals[p] + LEASE
        ensures Covered(ts, p, lo, hi, t)
      {
        ShortGapsCover(ts, p, lo, hi, t);
      }
    }
  }

  /** A positive command followed by refreshes: the history with these two pass durations in which
      the pod is served first in one pass and last in the next. */
  function WorstPair(v: int, p: string, d: real, d': real): seq<Turn>
    requires v > 0 && d >= 0.0 && d' >= 0.0
  {
    [Turn(Take(v), 0.0, d, map[p := 0.0]),
     Turn(Tick, d + REFRESH, d + REFRESH + d', map[p := d + REFRESH + d'])]
  }

  /** Ten seconds is the best bound on durations alone: two pass durations are safe for every
      placement of the requests if and only if they add up to at most ten seconds. */
  lemma TenSecondsIsSharp(d: real, d': real, v: int, p: string)
    requires d >= 0.0 && d' >= 0.0 && v > 0
    ensures Timed(0.0, WorstPair(v, p, d, d')) && Serves(WorstPair(v, p, d, d'), p, 0, 1)
    ensures (forall start, ts: seq<Turn> ::
               |ts| == 2 && Timed(start, ts) && Serves(ts, p, 0, 1) && Duration(ts[0]) == d && Duration(ts[1]) == d'
               ==> CoveredThroughout(ts, p, 0, 1))
       <==> d + d' <= 10.0
  {
    var w := WorstPair(v, p, d, d');
    assert Choices(w)[..1] == [Take(v)];
    assert Choices(w)[..0] == [];
    assert TimedAt(0.0, w, 0) && TimedAt(0.0, w, 1);
    assert Serves(w, p, 0, 1);
    if d + d' > SLACK {
      LongGapLapses(0.0, w, p, 0, 1, 0);
      assert |w| == 2 && Timed(0.0, w) && Duration(w[0]) == d && Duration(w[1]) == d';
    } else {
      forall start, ts: seq<Turn> |
        |ts| == 2 && Timed(start, ts) && Serves(ts, p, 0, 1) && Duration(ts[0]) == d && Duration(ts[1]) == d'
        ensures CoveredThroughout(ts, p, 0, 1)
      {
        LoadNeverLapses(start, ts, p, 0, 1);
      }
    }
  }

  /** While a positive value is in force and no zero or negative command comes, every turn sends:
      no refresh is skipped, so the turns above are all the turns there are. */
  lemma {:induction false} PositiveValueAlwaysSends(ts: seq<Turn>, lo: nat, i: nat)
    requires lo < i < |ts|
    requires ValueAfter(Choices(ts)[..lo + 1]) > 0
    requires forall k :: lo < k <= i ==> ts[k].choice.Tick? || (ts[k].choice.Take? && ts[k].choice.v > 0)
    ensures Before(ts, i) > 0 && Sends(Before(ts, i), ts[i].choice)
    decreases i
  {
    if lo + 1 < i {
      PositiveValueAlwaysSends(ts, lo, i - 1);
      assert Choices(ts)[..i] == Choices(ts)[..i - 1] + [ts[i - 1].choice];
      LogSnoc(Choices(ts)[..i - 1], ts[i - 1].choice);
    }
    assert ts[i].choice.Tick? || ts[i].choice.Take?;
  }

  /** A fallback pass that exhausts its attempts has slept longer than the whole slack. */
  lemma ExhaustedFallbackOutlastsSlack(svc: string, total: int, ack: nat -> bool)
    requires forall k :: 0 <= k < 3 ==> !ack(k)
    ensures |Attempts(svc, total, ack, 0)| == 3
    ensures (BACKOFF_SEC * |Attempts(svc, total, ack, 0)|) as real == 15.0 > SLACK
  {
    AttemptsShape(svc, total, ack, 0);
  }

  /** The leases on the clock are those of the requests sent: every request of every pass asks for LEASE,
      which is ten seconds longer than the refresh period. */
  lemma LeasesAreWhatIsSent(svc: string, w: World, total: int)
    ensures forall r :: r in PassLog(svc, w, total) ==> r.durationSec as real == LEASE == REFRESH + 10.0
    ensures REFRESH == 30.0
  {
    EveryLeaseIsFortySeconds(svc, w, total);
  }
}
