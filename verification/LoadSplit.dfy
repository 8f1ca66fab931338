/**
 * One send pass of the resource consumer: how a total load is split over the running pods,
 * what happens when there is nobody to split it over, and how much load is ever acknowledged.
 */
module LoadSplit {
  import opened Common

  const RESOURCE_CONSUMER_PORT := 8080
  const RESOURCE_CONSUMER_SERVICE_PORT := 80
  const CONSUMPTION_DURATION_SEC := 30
  const LEASE_SEC := CONSUMPTION_DURATION_SEC + 10
  const MAX_ATTEMPTS := 3
  const BACKOFF_SEC := 5

  datatype Phase = Pending | Running | Succeeded | Failed | Unknown
  datatype Pod = Pod(name: string, phase: Phase)
  datatype Listing = ListFailed | Listed(pods: seq<Pod>)
  datatype Target = PodProxy(name: string, port: nat) | ServiceProxy(name: string, port: nat)
  datatype Request = Request(target: Target, amount: int, durationSec: nat, acked: bool)

  /** What the cluster does during one pass: the pod list it returns, and whether it acknowledges
      the k-th request of the pass. */
  datatype World = World(listing: Listing, ack: nat -> bool)

  // ---------- Go's integer division ----------

  /** Go's `/`: the quotient truncated toward zero. */
  function Quo(a: int, b: int): int
    requires b != 0
  {
    if a >= 0 then a / b else -((-a) / b)
  }

  /** Go's `%`: what `/` leaves over. */
  function Rem(a: int, b: int): int
    requires b != 0
  {
    a - b * Quo(a, b)
  }

  lemma ScaleUp(q: nat, n: nat)
    requires n > 0
    ensures q <= n * q
  {
    assert n * q == (n - 1) * q + q;
    assert (n - 1) * q >= 0;
  }

  lemma Euclid(m: nat, b: nat)
    requires b > 0
    ensures m == b * (m / b) + m % b && 0 <= m % b < b && 0 <= m / b <= m
  {
    ScaleUp(m / b, b);
  }

  /** The properties the Go specification gives `/` and `%` for a positive divisor. */
  lemma GoDivision(a: int, b: int)
    requires b > 0
    ensures a == b * Quo(a, b) + Rem(a, b)
    ensures -b < Rem(a, b) < b
    ensures a >= 0 ==> 0 <= Quo(a, b) <= a && 0 <= Rem(a, b)
    ensures a <= 0 ==> a <= Quo(a, b) <= 0 && Rem(a, b) <= 0
  {
    Euclid(if a >= 0 then a else -a, b);
    if a < 0 {
      assert b * -((-a) / b) == -(b * ((-a) / b));
    }
  }

  // ---------- Shares ----------

  predicate IsRunning(p: Pod) { p.phase == Running }

  function RunningPods(pods: seq<Pod>): seq<Pod> { Filter(IsRunning, pods) }

  /** The load given to the i-th of n running pods: the first one also takes the remainder. */
  function Share(total: int, n: nat, i: nat): int
    requires n > 0
  {
    Quo(total, n) + if i == 0 then Rem(total, n) else 0
  }

  function SumAmounts(log: seq<Request>): int {
    if log == [] then 0 else SumAmounts(log[..|log| - 1]) + log[|log| - 1].amount
  }

  function AckedLoad(log: seq<Request>): int {
    if log == [] then 0
    else AckedLoad(log[..|log| - 1]) + if log[|log| - 1].acked then log[|log| - 1].amount else 0
  }

  /** The attempts of the retrying fallback from attempt k on: it stops at the first
      acknowledgement and gives up after MAX_ATTEMPTS. */
  function Attempts(svc: string, total: int, ack: nat -> bool, k: nat): seq<Request>
    requires k <= MAX_ATTEMPTS
    decreases MAX_ATTEMPTS - k
  {
    if k == MAX_ATTEMPTS then []
    else
      [Request(ServiceProxy(svc, RESOURCE_CONSUMER_SERVICE_PORT), total, LEASE_SEC, ack(k))]
      + if ack(k) then [] else Attempts(svc, total, ack, k + 1)
  }

  predicate Splits(listing: Listing) {
    listing.Listed? && RunningPods(listing.pods) != []
  }

  /** Every request of one pass, in order. */
  function PassLog(svc: string, w: World, total: int): seq<Request> {
    if Splits(w.listing) then
      var pods := RunningPods(w.listing.pods);
      seq(|pods|, i requires 0 <= i < |pods| =>
        Request(PodProxy(pods[i].name, RESOURCE_CONSUMER_PORT), Share(total, |pods|, i), LEASE_SEC, w.ack(i)))
    else
      Attempts(svc, total, w.ack, 0)
  }

  // ---------- The two methods ----------

  predicate Unanswered(r: Request) { !r.acked }

  /** How many of the attempts fail, when only the last can succeed. */
  lemma FailedAttempts(sent: seq<Request>, r: Request)
    requires forall q :: q in sent ==> !q.acked
    ensures |Filter(Unanswered, sent)| == |sent|
    ensures |Filter(Unanswered, sent + [r])| == |sent| + if r.acked then 0 else 1
  {
    FilterFull(Unanswered, sent);
    FilterSnoc(Unanswered, sent, r);
  }

  /** The fallback: up to three attempts, sleeping after every failed one. */
  method SendRequest(svc: string, total: int, ack: nat -> bool) returns (log: seq<Request>, sleptSec: nat)
    ensures log == Attempts(svc, total, ack, 0)
    ensures sleptSec == 5 * |Filter(Unanswered, log)|
  {
    log, sleptSec := [], 0;
    var attempt := 0;
    while attempt < MAX_ATTEMPTS
      invariant 0 <= attempt <= MAX_ATTEMPTS && |log| == attempt
      invariant forall r :: r in log ==> !r.acked
      invariant sleptSec == BACKOFF_SEC * attempt && |Filter(Unanswered, log)| == attempt
      invariant log + Attempts(svc, total, ack, attempt) == Attempts(svc, total, ack, 0)
    {
      var r := Request(ServiceProxy(svc, RESOURCE_CONSUMER_SERVICE_PORT), total, LEASE_SEC, ack(attempt));
      ghost var sent := log;
      log := log + [r];
      assert sent + ([r] + if r.acked then [] else Attempts(svc, total, ack, attempt + 1))
          == log + if r.acked then [] else Attempts(svc, total, ack, attempt + 1);
      FailedAttempts(sent, r);
      if r.acked {
        return;
      }
      sleptSec := sleptSec + BACKOFF_SEC;
      attempt := attempt + 1;
    }
  }

  /** What looking at the k-th pod adds to the running pods seen so far. */
  lemma RunningStep(pods: seq<Pod>, k: nat)
    requires k < |pods|
    ensures var before, all := RunningPods(pods[..k]), RunningPods(pods);
            && RunningPods(pods[..k + 1]) == before + (if pods[k].phase == Running then [pods[k]] else [])
            && RunningPods(pods[..k + 1]) <= all
            && (pods[k].phase == Running ==> |before| < |all| && all[|before|] == pods[k])
  {
    assert pods[..k + 1] == pods[..k] + [pods[k]] && pods == pods[..k + 1] + pods[k + 1..];
    FilterSnoc(IsRunning, pods[..k], pods[k]);
    FilterConcat(IsRunning, pods[..k + 1], pods[k + 1..]);
  }

  /** A whole pass: list, count the running pods, then either fall back or send each its share. */
  method SendPerPod(svc: string, w: World, total: int) returns (log: seq<Request>)
    ensures log == PassLog(svc, w, total)
  {
    if w.listing.ListFailed? || |w.listing.pods| == 0 {
      var slept;
      log, slept := SendRequest(svc, total, w.ack);
      return;
    }
    var pods := w.listing.pods;
    var runningPods := 0;
    for k := 0 to |pods|
      invariant runningPods == |RunningPods(pods[..k])|
    {
      RunningStep(pods, k);
      if pods[k].phase == Running {
        runningPods := runningPods + 1;
      }
    }
    assert pods[..|pods|] == pods;
    if runningPods == 0 {
      var slept;
      log, slept := SendRequest(svc, total, w.ack);
      return;
    }
    var perPod, remainder := Quo(total, runningPods), Rem(total, runningPods);
    var sent := 0;
    log := [];
    for k := 0 to |pods|
      invariant sent == |log| == |RunningPods(pods[..k])| <= runningPods
      invariant forall i :: 0 <= i < sent ==> log[i] == PassLog(svc, w, total)[i]
    {
      RunningStep(pods, k);
      if pods[k].phase != Running {
        continue;
      }
      var amount := perPod;
      if sent == 0 {
        amount := amount + remainder;
      }
      log := log + [Request(PodProxy(pods[k].name, RESOURCE_CONSUMER_PORT), amount, LEASE_SEC, w.ack(sent))];
      sent := sent + 1;
    }
  }

  // ---------- Conservation ----------

  /** The amounts of a pass, when each is the quotient and the first also takes the remainder. */
  lemma {:induction false} SumOfShares(log: seq<Request>, q: int, r: int)
    requires forall i :: 0 <= i < |log| ==> log[i].amount == q + if i == 0 then r else 0
    ensures SumAmounts(log) == |log| * q + if log != [] then r else 0
  {
    if log != [] {
      SumOfShares(log[..|log| - 1], q, r);
      assert |log| * q == (|log| - 1) * q + q;
    }
  }

  /** The amounts of a split pass add up to what is split. */
  lemma SharesSum(svc: string, w: World, total: int)
    requires Splits(w.listing)
    ensures SumAmounts(PassLog(svc, w, total)) == total
  {
    var n := |RunningPods(w.listing.pods)|;
    GoDivision(total, n);
    forall i | 0 <= i < n
      ensures PassLog(svc, w, total)[i].amount == Quo(total, n) + if i == 0 then Rem(total, n) else 0
    {
      assert PassLog(svc, w, total)[i].amount == Share(total, n, i);
    }
    SumOfShares(PassLog(svc, w, total), Quo(total, n), Rem(total, n));
  }

  /** With a running pod, the shares sum to the total for every integer total, the targets are
      exactly the running pods in list order, and no other pod is addressed. */
  lemma Conservation(svc: string, w: World, total: int)
    requires Splits(w.listing)
    ensures var log, pods := PassLog(svc, w, total), RunningPods(w.listing.pods);
            && SumAmounts(log) == total
            && |log| == |pods|
            && (forall i :: 0 <= i < |log| ==> log[i].target == PodProxy(pods[i].name, 8080))
            && (forall r :: r in log ==> exists p :: p in w.listing.pods && p.phase == Running && r.target.name == p.name)
  {
    var log, pods := PassLog(svc, w, total), RunningPods(w.listing.pods);
    SharesSum(svc, w, total);
    FilterMembers(IsRunning, w.listing.pods);
    forall r | r in log
      ensures exists p :: p in w.listing.pods && p.phase == Running && r.target.name == p.name
    {
      var i :| 0 <= i < |log| && log[i] == r;
      assert pods[i] in pods;
    }
  }

  /** For a non-negative total every share is non-negative and two shares differ by at most the
      remainder, which is below the number of running pods. */
  lemma Fairness(total: int, n: nat, i: nat, j: nat)
    requires n > 0 && i < n && j < n && total >= 0
    ensures 0 <= Share(total, n, i) <= total
    ensures -Rem(total, n) <= Share(total, n, i) - Share(total, n, j) <= Rem(total, n) < n
  {
    GoDivision(total, n);
    ScaleUp(Quo(total, n), n);
  }

  /** No share exceeds the total in magnitude, so machine integers that hold the total hold every share. */
  lemma NoOverflow(total: int, n: nat, i: nat)
    requires n > 0 && i < n
    ensures total >= 0 ==> 0 <= Share(total, n, i) <= total
    ensures total <= 0 ==> total <= Share(total, n, i) <= 0
  {
    GoDivision(total, n);
    var q := Quo(total, n);
    ScaleUp(if q >= 0 then q else -q, n);
    assert q < 0 ==> n * -q == -(n * q);
  }

  // ---------- Acknowledged load ----------

  lemma {:induction false} AckedVersusSum(log: seq<Request>)
    requires forall r :: r in log ==> r.amount >= 0
    ensures 0 <= AckedLoad(log) <= SumAmounts(log)
    ensures AckedLoad(log) == SumAmounts(log) <==> forall r :: r in log && r.amount != 0 ==> r.acked
  {
    if log != [] {
      var init, x := log[..|log| - 1], log[|log| - 1];
      assert log == init + [x];
      assert forall r :: r in log <==> r in init || r == x;
      AckedVersusSum(init);
    }
  }

  lemma {:induction false} NothingAcked(log: seq<Request>)
    requires forall i :: 0 <= i < |log| ==> !log[i].acked
    ensures AckedLoad(log) == 0
  {
    if log != [] {
      NothingAcked(log[..|log| - 1]);
    }
  }

  /** If only the last request can be acknowledged, it alone decides. */
  lemma LastDecides(log: seq<Request>)
    requires log != [] && forall i :: 0 <= i < |log| - 1 ==> !log[i].acked
    ensures AckedLoad(log) == if log[|log| - 1].acked then log[|log| - 1].amount else 0
  {
    NothingAcked(log[..|log| - 1]);
  }

  /** The attempts from k on: at least one, as long as there are any left, all but the last
      unacknowledged, and stopping early only on an acknowledgement. */
  lemma {:induction false} AttemptsForm(svc: string, total: int, ack: nat -> bool, k: nat)
    requires k < MAX_ATTEMPTS
    ensures var log := Attempts(svc, total, ack, k);
            && 1 <= |log| <= MAX_ATTEMPTS - k
            && (forall i :: 0 <= i < |log| ==>
                  log[i] == Request(ServiceProxy(svc, RESOURCE_CONSUMER_SERVICE_PORT), total, LEASE_SEC, ack(k + i)))
            && (forall i :: 0 <= i < |log| - 1 ==> !log[i].acked)
            && (|log| < MAX_ATTEMPTS - k ==> log[|log| - 1].acked)
    decreases MAX_ATTEMPTS - k
  {
    if !ack(k) && k + 1 < MAX_ATTEMPTS {
      var log, rest := Attempts(svc, total, ack, k), Attempts(svc, total, ack, k + 1);
      AttemptsForm(svc, total, ack, k + 1);
      forall i | 0 < i < |log|
        ensures log[i] == Request(ServiceProxy(svc, RESOURCE_CONSUMER_SERVICE_PORT), total, LEASE_SEC, ack(k + i))
      {
        assert log[i] == rest[i - 1] && ack(k + 1 + (i - 1)) == ack(k + i);
      }
    }
  }

  /** The fallback makes one to three attempts (from the first, k is 0), all but the last unacknowledged,
      stops early only on an acknowledgement, and so gets all of the load acknowledged or none. */
  lemma AttemptsShape(svc: string, total: int, ack: nat -> bool, k: nat)
    requires k < 3
    ensures var log := Attempts(svc, total, ack, k);
            && 1 <= |log| <= 3 - k
            && (forall i :: 0 <= i < |log| ==>
                  log[i] == Request(ServiceProxy(svc, 80), total, 40, ack(k + i)))
            && (forall i :: 0 <= i < |log| - 1 ==> !log[i].acked)
            && (|log| < 3 - k ==> log[|log| - 1].acked)
            && AckedLoad(log) == if log[|log| - 1].acked then total else 0
  {
    AttemptsForm(svc, total, ack, k);
    LastDecides(Attempts(svc, total, ack, k));
  }

  ghost predicate DistinctNames(pods: seq<Pod>) {
    forall i, j :: 0 <= i < j < |pods| ==> pods[i].name != pods[j].name
  }

  /** Some request to t was acknowledged. */
  ghost predicate Reached(log: seq<Request>, t: Target) {
    exists r :: r in log && r.target == t && r.acked
  }

  lemma AmountsNonNegative(svc: string, w: World, total: int)
    requires total >= 0
    ensures forall r :: r in PassLog(svc, w, total) ==> r.amount >= 0
  {
    var log := PassLog(svc, w, total);
    if Splits(w.listing) {
      forall i | 0 <= i < |log|
        ensures log[i].amount >= 0
      {
        NoOverflow(total, |log|, i);
      }
    } else {
      AttemptsShape(svc, total, w.ack, 0);
    }
  }

  /** Whatever branch a pass takes and whatever requests fail, the acknowledged load is between
      zero and the requested one. */
  lemma AckedNeverExceeds(svc: string, w: World, total: int)
    requires total >= 0
    ensures 0 <= AckedLoad(PassLog(svc, w, total)) <= total
  {
    var log := PassLog(svc, w, total);
    if Splits(w.listing) {
      Conservation(svc, w, total);
      AmountsNonNegative(svc, w, total);
      AckedVersusSum(log);
    } else {
      AttemptsShape(svc, total, w.ack, 0);
    }
  }

  /** In a split pass each target gets one request, so it is reached when that one is acknowledged. */
  lemma ReachedMeansAcked(svc: string, w: World, total: int, r: Request)
    requires Splits(w.listing) && DistinctNames(RunningPods(w.listing.pods))
    requires r in PassLog(svc, w, total)
    ensures Reached(PassLog(svc, w, total), r.target) <==> r.acked
  {
    var log := PassLog(svc, w, total);
    if Reached(log, r.target) {
      var q :| q in log && q.target == r.target && q.acked;
      var i :| 0 <= i < |log| && log[i] == r;
      var j :| 0 <= j < |log| && log[j] == q;
      assert i == j;
    }
  }

  lemma FallbackAckedExactly(svc: string, w: World, total: int)
    requires total >= 0 && !Splits(w.listing)
    ensures var log := PassLog(svc, w, total);
            AckedLoad(log) == total <==> forall r :: r in log && r.amount != 0 ==> Reached(log, r.target)
  {
    var log := PassLog(svc, w, total);
    AttemptsShape(svc, total, w.ack, 0);
    var last := log[|log| - 1];
    assert last in log && forall r :: r in log ==> r.target == last.target;
    assert Reached(log, last.target) <==> last.acked;
  }

  /** The whole requested load is acknowledged exactly when every distinct target that was given a
      non-zero amount acknowledged a request. Pod names are unique within a namespace. */
  lemma FullyAckedExactly(svc: string, w: World, total: int)
    requires total >= 0
    requires Splits(w.listing) ==> DistinctNames(RunningPods(w.listing.pods))
    ensures var log := PassLog(svc, w, total);
            AckedLoad(log) == total <==> forall r :: r in log && r.amount != 0 ==> Reached(log, r.target)
  {
    var log := PassLog(svc, w, total);
    if Splits(w.listing) {
      Conservation(svc, w, total);
      AmountsNonNegative(svc, w, total);
      AckedVersusSum(log);
      forall r | r in log
        ensures Reached(log, r.target) <==> r.acked
      {
        ReachedMeansAcked(svc, w, total, r);
      }
    } else {
      FallbackAckedExactly(svc, w, total);
    }
  }

  /** The fallback never gets two acknowledgements, so its load is never applied twice over. */
  lemma AtMostOneFallbackAck(svc: string, w: World, total: int, i: nat, j: nat)
    requires !Splits(w.listing)
    requires i < |PassLog(svc, w, total)| && j < |PassLog(svc, w, total)|
    requires PassLog(svc, w, total)[i].acked && PassLog(svc, w, total)[j].acked
    ensures i == j == |PassLog(svc, w, total)| - 1 < 3
  {
    AttemptsShape(svc, total, w.ack, 0);
  }

  // ---------- The requests of a pass ----------

  lemma SplitRequests(svc: string, w: World, total: int) returns (q: int, r: int)
    requires Splits(w.listing)
    ensures var log, pods := PassLog(svc, w, total), RunningPods(w.listing.pods);
            && |log| == |pods| && total == |pods| * q + r && -|pods| < r < |pods|
            && (total >= 0 ==> r >= 0) && (total <= 0 ==> r <= 0)
            && forall i :: 0 <= i < |log| ==>
                 log[i] == Request(PodProxy(pods[i].name, 8080), q + (if i == 0 then r else 0), 40, w.ack(i))
  {
    var n := |RunningPods(w.listing.pods)|;
    GoDivision(total, n);
    q, r := Quo(total, n), Rem(total, n);
    forall i | 0 <= i < n
      ensures PassLog(svc, w, total)[i].amount == q + if i == 0 then r else 0
    {
      assert PassLog(svc, w, total)[i].amount == Share(total, n, i);
    }
  }

  lemma FallbackRequests(svc: string, w: World, total: int)
    requires !Splits(w.listing)
    ensures var log := PassLog(svc, w, total);
            && 1 <= |log| <= 3 && (|log| < 3 ==> w.ack(|log| - 1)) && (forall i :: 0 <= i < |log| - 1 ==> !w.ack(i))
            && forall i :: 0 <= i < |log| ==> log[i] == Request(ServiceProxy(svc, 80), total, 40, w.ack(i))
  {
    AttemptsShape(svc, total, w.ack, 0);
  }

  /** A pass is split exactly when the listing succeeds and some listed pod runs. */
  lemma SplitsExactly(listing: Listing)
    ensures Splits(listing) <==> listing.Listed? && exists p :: p in listing.pods && p.phase == Running
  {
    if listing.Listed? {
      FilterEmpty(IsRunning, listing.pods);
    }
  }

  /** Everything a pass sends. If some listed pod runs, each running one gets, in list order, a request on
      port 8080 for 40 seconds: the quotient q, and the first also the remainder r. Otherwise the service
      gets up to three on port 80, for the whole total and as long. */
  lemma PassRequests(svc: string, w: World, total: int) returns (q: int, r: int)
    ensures var log := PassLog(svc, w, total);
            if w.listing.Listed? && exists p :: p in w.listing.pods && p.phase == Running then
              var pods := RunningPods(w.listing.pods);
              && |log| == |pods| && total == |pods| * q + r && -|pods| < r < |pods|
              && (total >= 0 ==> r >= 0) && (total <= 0 ==> r <= 0)
              && forall i :: 0 <= i < |log| ==>
                   log[i] == Request(PodProxy(pods[i].name, 8080), q + (if i == 0 then r else 0), 40, w.ack(i))
            else
              && 1 <= |log| <= 3 && (|log| < 3 ==> w.ack(|log| - 1)) && (forall i :: 0 <= i < |log| - 1 ==> !w.ack(i))
              && forall i :: 0 <= i < |log| ==> log[i] == Request(ServiceProxy(svc, 80), total, 40, w.ack(i))
  {
    SplitsExactly(w.listing);
    if Splits(w.listing) {
      q, r := SplitRequests(svc, w, total);
    } else {
      q, r := 0, 0;
      FallbackRequests(svc, w, total);
    }
  }

  /** Whatever a pass meets, the load it asks for is asked for 40 seconds. */
  lemma EveryLeaseIsFortySeconds(svc: string, w: World, total: int)
    ensures forall r :: r in PassLog(svc, w, total) ==> r.durationSec == 40
  {
    if Splits(w.listing) {
      var q, rem := SplitRequests(svc, w, total);
    } else {
      FallbackRequests(svc, w, total);
    }
  }
}
