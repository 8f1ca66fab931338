/**
 * The load the pods are under at every instant: what each pass sends, put on the clock. A pod is under
 * the amount of the last request that reached it, while that lease runs.
 */
module LoadOverTime {
  import opened Common
  import opened LoadSplit
  import opened LoadLoop
  import opened LeaseTiming

  /** A timed history of one loop, together with what the pass of each turn meets. */
  datatype Story = Story(svc: string, start: real, ts: seq<Turn>, worlds: seq<World>)

  ghost predicate Told(h: Story) { Timed(h.start, h.ts) && |h.worlds| == |h.ts| }

  /** The value in force after turn i: the latest command. */
  function InForce(h: Story, i: nat): int
    requires i < |h.ts|
  {
    ValueAfter(Choices(h.ts)[..i + 1])
  }

  /** The requests of turn i, if it sends: a pass with the value then in force. */
  function Pass(h: Story, i: nat): seq<Request>
    requires i < |h.ts| == |h.worlds|
  {
    PassLog(h.svc, h.worlds[i], InForce(h, i))
  }

  // ---------- Sums ----------

  function Sum(xs: seq<int>): int {
    if xs == [] then 0 else Sum(xs[..|xs| - 1]) + xs[|xs| - 1]
  }

  function Amounts(log: seq<Request>): seq<int> {
    seq(|log|, i requires 0 <= i < |log| => log[i].amount)
  }

  lemma {:induction false} SumOfAmounts(log: seq<Request>)
    ensures Sum(Amounts(log)) == SumAmounts(log)
  {
    if log != [] {
      SumOfAmounts(log[..|log| - 1]);
      assert Amounts(log)[..|log| - 1] == Amounts(log[..|log| - 1]);
    }
  }

  /** Terms of the same sign, of which some are dropped: what is left lies between zero and the whole,
      and is the whole only if what was dropped was zero. */
  lemma {:induction false} SumOfSome(xs: seq<int>, all: seq<int>)
    requires |xs| == |all| && forall i :: 0 <= i < |xs| ==> all[i] >= 0 && (xs[i] == all[i] || xs[i] == 0)
    ensures 0 <= Sum(xs) <= Sum(all)
    ensures Sum(xs) == Sum(all) <==> forall i :: 0 <= i < |xs| ==> xs[i] == all[i]
  {
    if xs != [] {
      var n := |xs| - 1;
      SumOfSome(xs[..n], all[..n]);
      assert (forall i :: 0 <= i < |xs| ==> xs[i] == all[i])
        <==> xs[n] == all[n] && forall i :: 0 <= i < n ==> xs[..n][i] == all[..n][i];
    }
  }

  function Negated(xs: seq<int>): seq<int> { seq(|xs|, i requires 0 <= i < |xs| => -xs[i]) }

  lemma {:induction false} SumNegated(xs: seq<int>)
    ensures Sum(Negated(xs)) == -Sum(xs)
  {
    if xs != [] {
      SumNegated(xs[..|xs| - 1]);
      assert Negated(xs)[..|xs| - 1] == Negated(xs[..|xs| - 1]);
    }
  }

  lemma SumOfSomeNegative(xs: seq<int>, all: seq<int>)
    requires |xs| == |all| && forall i :: 0 <= i < |xs| ==> all[i] <= 0 && (xs[i] == all[i] || xs[i] == 0)
    ensures Sum(all) <= Sum(xs) <= 0
    ensures Sum(xs) == Sum(all) <==> forall i :: 0 <= i < |xs| ==> xs[i] == all[i]
  {
    SumNegated(xs);
    SumNegated(all);
    SumOfSome(Negated(xs), Negated(all));
    assert forall i :: 0 <= i < |xs| ==> (xs[i] == all[i] <==> Negated(xs)[i] == Negated(all)[i]);
  }

  /** A sum between multiples, when the first term may be larger by e. */
  lemma {:induction false} SumBetween(xs: seq<int>, lo: int, hi: int, e: nat)
    requires forall i :: 0 <= i < |xs| ==> lo <= xs[i] <= hi + if i == 0 then e else 0
    ensures |xs| * lo <= Sum(xs) <= |xs| * hi + if xs == [] then 0 else e
  {
    if xs != [] {
      SumBetween(xs[..|xs| - 1], lo, hi, e);
      assert |xs| * lo == (|xs| - 1) * lo + lo && |xs| * hi == (|xs| - 1) * hi + hi;
    }
  }

  // ---------- The load of a pod ----------

  /** The request a pass sends to pod p. A fallback addresses the service: whoever gets it gets it all. */
  function RequestFor(log: seq<Request>, p: string): Option<Request> {
    if log == [] then None
    else
      var r := log[|log| - 1];
      if r.target.ServiceProxy? || r.target.name == p then Some(r) else RequestFor(log[..|log| - 1], p)
  }

  lemma {:induction false} RequestForAt(log: seq<Request>, q: nat)
    requires q < |log| && forall j :: q < j < |log| ==> log[j].target.PodProxy? && log[j].target.name != log[q].target.name
    ensures RequestFor(log, log[q].target.name) == Some(log[q])
  {
    if q < |log| - 1 {
      RequestForAt(log[..|log| - 1], q);
    }
  }

  /** The turn, among the first n, whose request was the last to reach p by time t. */
  function LatestTurn(ts: seq<Turn>, p: string, n: nat, t: real): (i: Option<nat>)
    requires n <= |ts|
    ensures i.Some? ==> i.value < n && p in ts[i.value].arrivals && ts[i.value].arrivals[p] <= t
  {
    if n == 0 then None
    else if p in ts[n - 1].arrivals && ts[n - 1].arrivals[p] <= t then Some(n - 1)
    else LatestTurn(ts, p, n - 1, t)
  }

  /** The load pod p is under at time t: the amount of the latest request of the whole history that has
      reached it, for as long as that request asks. */
  function LiveAmount(h: Story, p: string, t: real): int
    requires |h.worlds| == |h.ts|
  {
    var turn := LatestTurn(h.ts, p, |h.ts|, t);
    if turn.None? then 0
    else
      var r := RequestFor(Pass(h, turn.value), p);
      if r.Some? && t < h.ts[turn.value].arrivals[p] + r.value.durationSec as real then r.value.amount else 0
  }

  function Loads(h: Story, pods: seq<Pod>, t: real): seq<int>
    requires |h.worlds| == |h.ts|
  {
    seq(|pods|, q requires 0 <= q < |pods| => LiveAmount(h, pods[q].name, t))
  }

  /** ... and that of these pods together. */
  function TotalLoad(h: Story, pods: seq<Pod>, t: real): int
    requires |h.worlds| == |h.ts|
  {
    Sum(Loads(h, pods, t))
  }

  // ---------- Steady turns ----------

  /** In turn i exactly these pods run, and each acknowledges its request. */
  ghost predicate SteadyAt(h: Story, pods: seq<Pod>, i: nat)
    requires i < |h.ts| == |h.worlds|
  {
    && Splits(h.worlds[i].listing) && RunningPods(h.worlds[i].listing.pods) == pods && DistinctNames(pods)
    && forall q :: 0 <= q < |pods| ==> Pass(h, i)[q].acked && pods[q].name in h.ts[i].arrivals
  }

  /** They do so from turn lo to turn hi, and all that time value v is in force. */
  ghost predicate Steady(h: Story, pods: seq<Pod>, v: int, lo: nat, hi: nat) {
    && Told(h) && lo <= hi < |h.ts|
    && forall i :: lo <= i <= hi ==> SteadyAt(h, pods, i) && InForce(h, i) == v
  }

  lemma SteadyServes(h: Story, pods: seq<Pod>, v: int, lo: nat, hi: nat, q: nat)
    requires Steady(h, pods, v, lo, hi) && q < |pods|
    ensures Serves(h.ts, pods[q].name, lo, hi)
  {
    forall i | lo <= i <= hi
      ensures pods[q].name in h.ts[i].arrivals
    {
      assert SteadyAt(h, pods, i);
    }
  }

  /** What a pod is sent in a steady turn is its share. */
  lemma SteadyAmount(h: Story, pods: seq<Pod>, i: nat, q: nat)
    requires i < |h.ts| == |h.worlds| && SteadyAt(h, pods, i) && q < |pods|
    ensures |Pass(h, i)| == |pods| && Pass(h, i)[q].amount == Share(InForce(h, i), |pods|, q)
    ensures RequestFor(Pass(h, i), pods[q].name) == Some(Pass(h, i)[q]) && Pass(h, i)[q].durationSec as real == LEASE
  {
    RequestForAt(Pass(h, i), q);
    LeasesAreWhatIsSent(h.svc, h.worlds[i], InForce(h, i));
  }

  /** The shares of the pods in a steady turn, and their sum. */
  lemma ShareList(h: Story, pods: seq<Pod>, i: nat)
    requires i < |h.ts| == |h.worlds| && SteadyAt(h, pods, i)
    ensures |Amounts(Pass(h, i))| == |pods| && Sum(Amounts(Pass(h, i))) == InForce(h, i)
    ensures forall q :: 0 <= q < |pods| ==> Amounts(Pass(h, i))[q] == Share(InForce(h, i), |pods|, q)
  {
    Conservation(h.svc, h.worlds[i], InForce(h, i));
    SumOfAmounts(Pass(h, i));
    forall q | 0 <= q < |pods|
      ensures Amounts(Pass(h, i))[q] == Share(InForce(h, i), |pods|, q)
    {
      SteadyAmount(h, pods, i, q);
    }
  }

  // ---------- The latest request ----------

  lemma {:induction false} TurnsInOrder(start: real, ts: seq<Turn>, i: nat, j: nat)
    requires Timed(start, ts) && i <= j < |ts|
    ensures ts[i].at <= ts[j].at
    ensures i < j ==> ts[i].end <= ts[j].at
    decreases j
  {
    if i < j {
      TurnsInOrder(start, ts, i, j - 1);
      assert TimedAt(start, ts, j - 1) && TimedAt(start, ts, j);
    }
  }

  /** Turns picked after t have not reached anybody by t. */
  lemma {:induction false} LaterTurnsDoNotCount(start: real, ts: seq<Turn>, p: string, hi: nat, n: nat, t: real)
    requires Timed(start, ts) && hi < n <= |ts| && (hi + 1 < |ts| ==> t < ts[hi + 1].at)
    ensures LatestTurn(ts, p, n, t) == LatestTurn(ts, p, hi + 1, t)
    decreases n
  {
    if hi + 1 < n {
      LaterTurnsDoNotCount(start, ts, p, hi, n - 1, t);
      TurnsInOrder(start, ts, hi + 1, n - 1);
      assert TimedAt(start, ts, n - 1);
    }
  }

  /** Requests arrive in order, so if any lease covers p the one of its latest request does. */
  lemma {:induction false} LatestCovers(start: real, ts: seq<Turn>, p: string, lo: nat, hi: nat, t: real)
    requires Timed(start, ts) && lo <= hi && Serves(ts, p, lo, hi) && ts[lo].arrivals[p] <= t
    ensures var turn := LatestTurn(ts, p, hi + 1, t);
            && turn.Some? && lo <= turn.value <= hi
            && (Covered(ts, p, lo, hi, t) <==> t < ts[turn.value].arrivals[p] + LEASE)
    decreases hi
  {
    if ts[hi].arrivals[p] <= t {
      forall i | lo <= i <= hi
        ensures ts[i].arrivals[p] <= ts[hi].arrivals[p]
      {
        ArrivalsInOrder(start, ts, p, i, hi);
      }
    } else {
      LatestCovers(start, ts, p, lo, hi - 1, t);
      assert Covered(ts, p, lo, hi, t) <==> Covered(ts, p, lo, hi - 1, t);
    }
  }

  /** Instant t comes after turn lo has reached all the pods, and before a turn after hi is picked. */
  ghost predicate During(h: Story, pods: seq<Pod>, lo: nat, hi: nat, t: real)
    requires lo <= hi < |h.ts|
  {
    && (forall q :: 0 <= q < |pods| ==>
          pods[q].name in h.ts[lo].arrivals && h.ts[lo].arrivals[pods[q].name] <= t)
    && (hi + 1 < |h.ts| ==> t < h.ts[hi + 1].at)
  }

  /** A pod whose latest request is that of a steady turn is under its share of then, while the lease runs. */
  lemma LiveFrom(h: Story, pods: seq<Pod>, i: nat, t: real, q: nat)
    requires i < |h.ts| == |h.worlds| && SteadyAt(h, pods, i) && q < |pods|
    requires LatestTurn(h.ts, pods[q].name, |h.ts|, t) == Some(i)
    ensures LiveAmount(h, pods[q].name, t)
         == if t < h.ts[i].arrivals[pods[q].name] + LEASE then Share(InForce(h, i), |pods|, q) else 0
  {
    SteadyAmount(h, pods, i, q);
  }

  /** A pod's load is its share, exactly while it is covered. */
  lemma LiveExactly(h: Story, pods: seq<Pod>, v: int, lo: nat, hi: nat, t: real, q: nat)
    requires Steady(h, pods, v, lo, hi) && During(h, pods, lo, hi, t) && q < |pods|
    ensures LiveAmount(h, pods[q].name, t)
         == if Covered(h.ts, pods[q].name, lo, hi, t) then Share(v, |pods|, q) else 0
  {
    var p := pods[q].name;
    SteadyServes(h, pods, v, lo, hi, q);
    LaterTurnsDoNotCount(h.start, h.ts, p, hi, |h.ts|, t);
    LatestCovers(h.start, h.ts, p, lo, hi, t);
    var i := LatestTurn(h.ts, p, |h.ts|, t).value;
    assert SteadyAt(h, pods, i) && InForce(h, i) == v;
    LiveFrom(h, pods, i, t, q);
  }

  // ---------- One value in force ----------

  /** Every pod with a share is under its share. */
  ghost predicate AllUnder(h: Story, pods: seq<Pod>, v: int, lo: nat, hi: nat, t: real)
    requires hi < |h.ts|
  {
    forall q :: 0 <= q < |pods| && Share(v, |pods|, q) != 0 ==> Covered(h.ts, pods[q].name, lo, hi, t)
  }

  lemma LoadsAreShares(h: Story, pods: seq<Pod>, v: int, lo: nat, hi: nat, t: real)
    requires Steady(h, pods, v, lo, hi) && During(h, pods, lo, hi, t)
    ensures var loads, shares := Loads(h, pods, t), Amounts(Pass(h, lo));
            && |loads| == |shares| == |pods| && Sum(shares) == v
            && (forall q :: 0 <= q < |pods| ==> loads[q] == shares[q] || loads[q] == 0)
            && ((forall q :: 0 <= q < |pods| ==> loads[q] == shares[q]) <==> AllUnder(h, pods, v, lo, hi, t))
            && (v >= 0 ==> forall q :: 0 <= q < |pods| ==> shares[q] >= 0)
            && (v <= 0 ==> forall q :: 0 <= q < |pods| ==> shares[q] <= 0)
  {
    assert SteadyAt(h, pods, lo) && InForce(h, lo) == v;
    ShareList(h, pods, lo);
    var loads, shares := Loads(h, pods, t), Amounts(Pass(h, lo));
    forall q | 0 <= q < |pods|
      ensures loads[q] == shares[q] || loads[q] == 0
      ensures loads[q] == shares[q] <==> (Share(v, |pods|, q) != 0 ==> Covered(h.ts, pods[q].name, lo, hi, t))
      ensures v >= 0 ==> shares[q] >= 0
      ensures v <= 0 ==> shares[q] <= 0
    {
      NoOverflow(v, |pods|, q);
      LiveExactly(h, pods, v, lo, hi, t, q);
    }
  }

  /** While v is in force the load lies between zero and v, and it is all of v if and only if every pod
      with a share is covered just then. */
  lemma LoadInForceExactly(h: Story, pods: seq<Pod>, v: int, lo: nat, hi: nat, t: real)
    requires Steady(h, pods, v, lo, hi) && During(h, pods, lo, hi, t)
    ensures 0 <= TotalLoad(h, pods, t) <= v || v <= TotalLoad(h, pods, t) <= 0
    ensures TotalLoad(h, pods, t) == v <==> AllUnder(h, pods, v, lo, hi, t)
  {
    LoadsAreShares(h, pods, v, lo, hi, t);
    var loads, shares := Loads(h, pods, t), Amounts(Pass(h, lo));
    if v >= 0 {
      SumOfSome(loads, shares);
    } else {
      SumOfSomeNegative(loads, shares);
    }
  }

  /** No lease of turn hi has ended. */
  ghost predicate LeasesRun(h: Story, pods: seq<Pod>, hi: nat, t: real)
    requires hi < |h.ts|
  {
    forall q :: 0 <= q < |pods| ==>
      pods[q].name in h.ts[hi].arrivals && t < h.ts[hi].arrivals[pods[q].name] + 40.0
  }

  /** The commanded load is kept up: while the pods run and acknowledge, one value is in force and no
      two consecutive passes together take more than ten seconds, the loads of the pods add up to that
      value at every instant from the first pass on, until a lease of the last one ends or the next
      turn is picked. */
  lemma CommandedLoadIsKeptUp(h: Story, pods: seq<Pod>, v: int, lo: nat, hi: nat, t: real)
    requires Steady(h, pods, v, lo, hi) && During(h, pods, lo, hi, t) && LeasesRun(h, pods, hi, t)
    requires forall i :: lo <= i < hi ==> Duration(h.ts[i]) + Duration(h.ts[i + 1]) <= 10.0
    ensures TotalLoad(h, pods, t) == v
  {
    forall q | 0 <= q < |pods|
      ensures Covered(h.ts, pods[q].name, lo, hi, t)
    {
      SteadyServes(h, pods, v, lo, hi, q);
      LoadNeverLapses(h.start, h.ts, pods[q].name, lo, hi);
    }
    LoadInForceExactly(h, pods, v, lo, hi, t);
  }

  // ---------- Any commands ----------

  /** When the turn after i is picked; the timer sees to it that it is no later than this. */
  function NextPick(h: Story, i: nat): real
    requires i < |h.ts|
  {
    if i + 1 < |h.ts| then h.ts[i + 1].at else h.ts[i].end + REFRESH
  }

  /** The load follows the commands: whatever came before, between a pass in which the pods acknowledge
      and the next turn the loads of the pods add up to the latest command, if that pass took at most
      ten seconds. */
  lemma LoadFollowsCommands(h: Story, pods: seq<Pod>, i: nat, t: real)
    requires Told(h) && i < |h.ts| && SteadyAt(h, pods, i) && Duration(h.ts[i]) <= 10.0
    requires h.ts[i].end <= t < NextPick(h, i)
    ensures TotalLoad(h, pods, t) == InForce(h, i)
  {
    assert TimedAt(h.start, h.ts, i);
    assert i + 1 < |h.ts| ==> TimedAt(h.start, h.ts, i + 1);
    CommandedLoadIsKeptUp(h, pods, InForce(h, i), i, i, t);
  }

  /** Every pod with a share was reached within the last ten seconds of the pass. */
  ghost predicate ReachedLate(h: Story, pods: seq<Pod>, i: nat)
    requires i < |h.ts| == |h.worlds| && SteadyAt(h, pods, i)
  {
    forall q :: 0 <= q < |pods| && Share(InForce(h, i), |pods|, q) != 0 ==>
      h.ts[i].end - h.ts[i].arrivals[pods[q].name] <= 10.0
  }

  lemma BetweenExactly(h: Story, pods: seq<Pod>, i: nat, t: real)
    requires Told(h) && i < |h.ts| && SteadyAt(h, pods, i) && h.ts[i].end <= t < NextPick(h, i)
    ensures TotalLoad(h, pods, t) == InForce(h, i)
       <==> forall q :: 0 <= q < |pods| && Share(InForce(h, i), |pods|, q) != 0 ==>
              t < h.ts[i].arrivals[pods[q].name] + LEASE
  {
    assert TimedAt(h.start, h.ts, i);
    LoadInForceExactly(h, pods, InForce(h, i), i, i, t);
    forall q | 0 <= q < |pods|
      ensures Covered(h.ts, pods[q].name, i, i, t) <==> t < h.ts[i].arrivals[pods[q].name] + LEASE
    {
      assert h.ts[i].arrivals[pods[q].name] <= h.ts[i].end;
    }
  }

  /** The exact condition when a refresh comes next: the load is kept up all the time in between if and
      only if every pod with a share was reached within the last ten seconds of the pass. */
  lemma LoadUntilRefreshExactly(h: Story, pods: seq<Pod>, i: nat)
    requires Told(h) && i < |h.ts| && SteadyAt(h, pods, i)
    requires i + 1 < |h.ts| ==> h.ts[i + 1].choice.Tick?
    ensures (forall t :: h.ts[i].end <= t < NextPick(h, i) ==> TotalLoad(h, pods, t) == InForce(h, i))
       <==> ReachedLate(h, pods, i)
  {
    assert i + 1 < |h.ts| ==> TimedAt(h.start, h.ts, i + 1);
    assert NextPick(h, i) == h.ts[i].end + REFRESH;
    if ReachedLate(h, pods, i) {
      forall t | h.ts[i].end <= t < NextPick(h, i)
        ensures TotalLoad(h, pods, t) == InForce(h, i)
      {
        BetweenExactly(h, pods, i, t);
      }
    } else {
      var q :| 0 <= q < |pods| && Share(InForce(h, i), |pods|, q) != 0
            && h.ts[i].end - h.ts[i].arrivals[pods[q].name] > SLACK;
      var lapse := h.ts[i].arrivals[pods[q].name] + LEASE;
      var t := if lapse < h.ts[i].end then h.ts[i].end else lapse;
      BetweenExactly(h, pods, i, t);
      assert TotalLoad(h, pods, t) != InForce(h, i);
    }
  }

  // ---------- During a pass ----------

  /** The latest request while pass i + 1 goes on is that pass's, if it has arrived, or the one before. */
  lemma LatestOfTwo(start: real, ts: seq<Turn>, p: string, i: nat, t: real)
    requires Timed(start, ts) && Serves(ts, p, i, i + 1) && ts[i + 1].at <= t < ts[i + 1].end
    ensures LatestTurn(ts, p, |ts|, t) == Some(if ts[i + 1].arrivals[p] <= t then i + 1 else i)
  {
    assert TimedAt(start, ts, i) && TimedAt(start, ts, i + 1);
    if i + 2 < |ts| {
      TurnsInOrder(start, ts, i + 1, i + 2);
    }
    LaterTurnsDoNotCount(start, ts, p, i + 1, |ts|, t);
  }

  /** While pass i + 1 goes on, a pod is under its new share if that has reached it, and under its old
      one otherwise. */
  lemma PodWhileChanging(h: Story, pods: seq<Pod>, i: nat, t: real, q: nat)
    requires Told(h) && i + 1 < |h.ts| && SteadyAt(h, pods, i) && SteadyAt(h, pods, i + 1)
    requires Duration(h.ts[i]) + Duration(h.ts[i + 1]) <= 10.0
    requires h.ts[i + 1].at <= t < h.ts[i + 1].end && q < |pods|
    ensures LiveAmount(h, pods[q].name, t)
         == if h.ts[i + 1].arrivals[pods[q].name] <= t then Share(InForce(h, i + 1), |pods|, q)
            else Share(InForce(h, i), |pods|, q)
  {
    var p := pods[q].name;
    assert TimedAt(h.start, h.ts, i) && TimedAt(h.start, h.ts, i + 1);
    LatestOfTwo(h.start, h.ts, p, i, t);
    GapBetweenRequests(h.start, h.ts, p, i);
    if h.ts[i + 1].arrivals[p] <= t {
      LiveFrom(h, pods, i + 1, t, q);
    } else {
      LiveFrom(h, pods, i, t, q);
    }
  }

  function Min(a: int, b: int): int { if a < b then a else b }
  function Max(a: int, b: int): int { if a < b then b else a }

  lemma MultiplesApart(n: nat, x: int, y: int)
    requires x > y
    ensures n * x >= n * y + n
  {
    assert n * x == n * y + n + n * (x - y - 1);
    assert n * (x - y - 1) >= 0;
  }

  lemma QuotientsInOrder(a: int, b: int, n: nat)
    requires 0 <= a <= b && n > 0
    ensures 0 <= Quo(a, n) <= Quo(b, n)
  {
    GoDivision(a, n);
    GoDivision(b, n);
    if Quo(a, n) > Quo(b, n) {
      MultiplesApart(n, Quo(a, n), Quo(b, n));
    }
  }

  /** A share of either of two totals. */
  lemma ShareBetween(v: int, w: int, n: nat, q: nat)
    requires v >= 0 && w >= 0 && q < n
    ensures Quo(Min(v, w), n) <= Share(v, n, q) <= Quo(Max(v, w), n) + if q == 0 then n - 1 else 0
  {
    QuotientsInOrder(Min(v, w), v, n);
    QuotientsInOrder(v, Max(v, w), n);
    GoDivision(v, n);
  }

  /** A pass that changes the load from one value to another, or refreshes it, keeps it at every instant
      less than the number of pods away from the range between the two. */
  lemma LoadWhileChanging(h: Story, pods: seq<Pod>, i: nat, t: real)
    requires Told(h) && i + 1 < |h.ts| && SteadyAt(h, pods, i) && SteadyAt(h, pods, i + 1)
    requires Duration(h.ts[i]) + Duration(h.ts[i + 1]) <= 10.0
    requires h.ts[i + 1].at <= t < h.ts[i + 1].end
    requires InForce(h, i) >= 0 && InForce(h, i + 1) >= 0
    ensures Min(InForce(h, i), InForce(h, i + 1)) - |pods| < TotalLoad(h, pods, t)
    ensures TotalLoad(h, pods, t) < Max(InForce(h, i), InForce(h, i + 1)) + |pods|
  {
    var n, v, w := |pods|, InForce(h, i), InForce(h, i + 1);
    forall q | 0 <= q < n
      ensures Quo(Min(v, w), n) <= Loads(h, pods, t)[q] <= Quo(Max(v, w), n) + if q == 0 then n - 1 else 0
    {
      PodWhileChanging(h, pods, i, t, q);
      ShareBetween(v, w, n, q);
      ShareBetween(w, v, n, q);
    }
    SumBetween(Loads(h, pods, t), Quo(Min(v, w), n), Quo(Max(v, w), n), n - 1);
    GoDivision(Min(v, w), n);
    GoDivision(Max(v, w), n);
  }

  // ---------- Histories in which the load is not kept ----------

  /** Pods that all run and acknowledge everything. */
  function GoodWorld(pods: seq<Pod>): World { World(Listed(pods), k => true) }

  /** One pod, served first in one pass and last in the next: a command and its refresh. */
  function OnePodStory(svc: string, v: int, p: Pod, d: real, d': real): Story
    requires v > 0 && d >= 0.0 && d' >= 0.0
  {
    Story(svc, 0.0, WorstPair(v, p.name, d, d'), [GoodWorld([p]), GoodWorld([p])])
  }

  lemma OnePodValue(svc: string, v: int, p: Pod, d: real, d': real)
    requires v > 0 && d >= 0.0 && d' >= 0.0
    ensures var h := OnePodStory(svc, v, p, d, d');
            InForce(h, 0) == v && InForce(h, 1) == v
  {
    var cs := Choices(OnePodStory(svc, v, p, d, d').ts);
    assert cs[..1] == [Take(v)] && cs[..2] == [Take(v)] + [Tick];
    LogSnoc([], Take(v));
    LogSnoc([Take(v)], Tick);
  }

  lemma OnePodSteady(svc: string, v: int, p: Pod, d: real, d': real)
    requires v > 0 && d >= 0.0 && d' >= 0.0 && p.phase == Running
    ensures Steady(OnePodStory(svc, v, p, d, d'), [p], v, 0, 1)
  {
    var h := OnePodStory(svc, v, p, d, d');
    OnePodValue(svc, v, p, d, d');
    TenSecondsIsSharp(d, d', v, p.name);
    FilterKeepsAll(IsRunning, [p]);
    assert SteadyAt(h, [p], 0) && SteadyAt(h, [p], 1);
  }

  lemma SumOfOne(xs: seq<int>)
    requires |xs| == 1
    ensures Sum(xs) == xs[0]
  {
    assert Sum(xs[..0]) == 0;
  }

  /** Ten seconds is the best bound for the load as well: beyond it, two passes can leave an instant at
      which every other condition holds and none of the commanded load is live. */
  lemma LongPassesDropTheLoad(svc: string, v: int, p: Pod, d: real, d': real)
    requires v > 0 && d >= 0.0 && d' >= 0.0 && p.phase == Running && d + d' > 10.0
    ensures var h := OnePodStory(svc, v, p, d, d');
            && Steady(h, [p], v, 0, 1) && During(h, [p], 0, 1, 40.0) && LeasesRun(h, [p], 1, 40.0)
            && TotalLoad(h, [p], 40.0) == 0
  {
    var h := OnePodStory(svc, v, p, d, d');
    OnePodSteady(svc, v, p, d, d');
    LiveExactly(h, [p], v, 0, 1, LEASE, 0);
    assert !Covered(h.ts, p.name, 0, 1, LEASE);
    SumOfOne(Loads(h, [p], LEASE));
  }

  /** Three pods told to take 5 together, and a second later 6: the first pod hears of it first. */
  function RaiseStory(svc: string, pods: seq<Pod>): Story
    requires |pods| == 3
  {
    var a, b, c := pods[0].name, pods[1].name, pods[2].name;
    Story(svc, 0.0,
          [Turn(Take(5), 0.0, 0.0, map[c := 0.0, b := 0.0, a := 0.0]),
           Turn(Take(6), 1.0, 2.0, map[c := 2.0, b := 2.0, a := 1.0])],
          [GoodWorld(pods), GoodWorld(pods)])
  }

  lemma RaiseValues(svc: string, pods: seq<Pod>)
    requires |pods| == 3
    ensures InForce(RaiseStory(svc, pods), 0) == 5 && InForce(RaiseStory(svc, pods), 1) == 6
  {
    var cs := Choices(RaiseStory(svc, pods).ts);
    assert cs[..1] == [Take(5)] && cs[..2] == [Take(5)] + [Take(6)];
    LogSnoc([], Take(5));
    LogSnoc([Take(5)], Take(6));
  }

  lemma RaiseSteady(svc: string, pods: seq<Pod>)
    requires |pods| == 3 && DistinctNames(pods) && forall q :: 0 <= q < 3 ==> pods[q].phase == Running
    ensures Told(RaiseStory(svc, pods))
    ensures SteadyAt(RaiseStory(svc, pods), pods, 0) && SteadyAt(RaiseStory(svc, pods), pods, 1)
  {
    var h := RaiseStory(svc, pods);
    FilterKeepsAll(IsRunning, pods);
    assert TimedAt(0.0, h.ts, 0) && TimedAt(0.0, h.ts, 1);
  }

  lemma SumOfThree(xs: seq<int>)
    requires |xs| == 3
    ensures Sum(xs) == xs[0] + xs[1] + xs[2]
  {
    SumOfOne(xs[..1]);
    assert xs[..2][..1] == xs[..1];
    assert Sum(xs[..2]) == Sum(xs[..1]) + xs[1];
  }

  /** A pass need not keep the load between its two values: raised from 5 to 6 over three pods, it is 4
      when the new share of the first pod (2 for 3) has arrived and the others (1 each) are still due. */
  lemma RaiseCanDip(svc: string, pods: seq<Pod>)
    requires |pods| == 3 && DistinctNames(pods) && forall q :: 0 <= q < 3 ==> pods[q].phase == Running
    ensures var h := RaiseStory(svc, pods);
            Told(h) && SteadyAt(h, pods, 0) && SteadyAt(h, pods, 1) && TotalLoad(h, pods, 1.0) == 4
  {
    var h := RaiseStory(svc, pods);
    RaiseValues(svc, pods);
    RaiseSteady(svc, pods);
    forall q | 0 <= q < 3
      ensures Loads(h, pods, 1.0)[q] == if q == 0 then Share(6, 3, 0) else Share(5, 3, q)
    {
      PodWhileChanging(h, pods, 0, 1.0, q);
    }
    SumOfThree(Loads(h, pods, 1.0));
  }
}
