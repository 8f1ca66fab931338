/**
 * The event watcher as interleaved steps of dispatches, registrations and enables under its two
 * levels of locks: one mutex for the handler list and one per handler.
 */
module EventWatcher {
  import opened Common

  datatype Event = Event(id: nat, created: int)

  type Matcher = Event -> bool

  /** `received` are the events passed to the callback. `seen` and `since` are history: how many
      dispatched events have been examined for this handler, and how many had been when it was enabled. */
  datatype Handler = Handler(
    matcher: Matcher, enabled: bool, lock: Option<nat>,
    received: seq<Event>, seen: nat, since: nat)

  datatype Op = Dispatch(e: Event) | Register(m: Matcher) | Enable(h: nat)

  /** Where a thread is in the operation it runs. */
  datatype Thread =
    | DStart(e: Event)              // before the creation-time check and the list lock
    | DWalk(e: Event, i: nat)       // list lock held, at the head of the loop
    | DHeld(e: Event, i: nat)       // also holds the lock of handler i
    | DCalled(e: Event, i: nat)     // has matched and called handler i, about to unlock it
    | RStart(m: Matcher)
    | RHeld(m: Matcher)             // list lock held
    | RAppended
    | EStart(h: nat)
    | EHeld(h: nat)                 // handler lock held
    | ESet(h: nat)
    | Done

  datatype State = State(
    startTime: int,
    listLock: Option<nat>,
    handlers: seq<Handler>,
    threads: seq<Thread>,
    dispatched: seq<Event>)         // history: events in the order their dispatches took the list lock

  datatype Label = Spawn(op: Op) | Step(t: nat)

  // ---------- Steps ----------

  function Begin(op: Op): Thread {
    match op
    case Dispatch(e) => DStart(e)
    case Register(m) => RStart(m)
    case Enable(h) => EStart(h)
  }

  /** A thread waits only for the lock it is about to take. */
  predicate CanStep(s: State, t: nat) {
    t < |s.threads| &&
    match s.threads[t]
    case DStart(e) => e.created < s.startTime || s.listLock.None?
    case DWalk(e, i) => i < |s.handlers| ==> s.handlers[i].lock.None?
    case DHeld(e, i) => i < |s.handlers|
    case DCalled(e, i) => i < |s.handlers|
    case RStart(m) => s.listLock.None?
    case RHeld(m) => true
    case RAppended => true
    case EStart(h) => h < |s.handlers| && s.handlers[h].lock.None?
    case EHeld(h) => h < |s.handlers|
    case ESet(h) => h < |s.handlers|
    case Done => false
  }

  /** A handler can be enabled once it is in the list. */
  predicate Enabled(s: State, l: Label) {
    match l
    case Spawn(op) => op.Enable? ==> op.h < |s.handlers|
    case Step(t) => CanStep(s, t)
  }

  /** The callback runs if the handler is enabled and matches. */
  function Deliver(h: Handler, e: Event): Handler {
    h.(received := if h.enabled && h.matcher(e) then h.received + [e] else h.received, seen := h.seen + 1)
  }

  function SetEnabled(h: Handler): Handler {
    if h.enabled then h else h.(enabled := true, since := h.seen)
  }

  function At(s: State, t: nat, thread: Thread): State
    requires t < |s.threads|
  {
    s.(threads := s.threads[t := thread])
  }

  function WithHandler(s: State, i: nat, h: Handler): State
    requires i < |s.handlers|
  {
    s.(handlers := s.handlers[i := h])
  }

  function StepThread(s: State, t: nat): State
    requires CanStep(s, t)
  {
    match s.threads[t]
    case DStart(e) =>
      if e.created < s.startTime then At(s, t, Done)
      else At(s, t, DWalk(e, 0)).(listLock := Some(t), dispatched := s.dispatched + [e])
    case DWalk(e, i) =>
      if i < |s.handlers| then WithHandler(At(s, t, DHeld(e, i)), i, s.handlers[i].(lock := Some(t)))
      else At(s, t, Done).(listLock := None)
    case DHeld(e, i) => WithHandler(At(s, t, DCalled(e, i)), i, Deliver(s.handlers[i], e))
    case DCalled(e, i) => WithHandler(At(s, t, DWalk(e, i + 1)), i, s.handlers[i].(lock := None))
    case RStart(m) => At(s, t, RHeld(m)).(listLock := Some(t))
    case RHeld(m) =>
      var n := |s.dispatched|;
      At(s, t, RAppended).(handlers := s.handlers + [Handler(m, false, None, [], n, n)])
    case RAppended => At(s, t, Done).(listLock := None)
    case EStart(h) => WithHandler(At(s, t, EHeld(h)), h, s.handlers[h].(lock := Some(t)))
    case EHeld(h) => WithHandler(At(s, t, ESet(h)), h, SetEnabled(s.handlers[h]))
    case ESet(h) => WithHandler(At(s, t, Done), h, s.handlers[h].(lock := None))
  }

  function Apply(s: State, l: Label): State
    requires Enabled(s, l)
  {
    match l
    case Spawn(op) => s.(threads := s.threads + [Begin(op)])
    case Step(t) => StepThread(s, t)
  }

  function Run(s: State, ls: seq<Label>): Option<State>
    decreases ls
  {
    if ls == [] then Some(s)
    else if Enabled(s, ls[0]) then Run(Apply(s, ls[0]), ls[1..])
    else None
  }

  function Init(startTime: int): State { State(startTime, None, [], [], []) }

  ghost predicate Reachable(s: State) {
    exists startTime, ls :: Run(Init(startTime), ls) == Some(s)
  }

  // ---------- Lock discipline ----------

  predicate HoldsList(th: Thread) { th.DWalk? || th.DHeld? || th.DCalled? || th.RHeld? || th.RAppended? }

  /** The handler whose lock a thread holds. */
  function HeldHandler(th: Thread): Option<nat> {
    match th
    case DHeld(_, i) => Some(i)
    case DCalled(_, i) => Some(i)
    case EHeld(h) => Some(h)
    case ESet(h) => Some(h)
    case _ => None
  }

  predicate IndexOk(th: Thread, n: nat) {
    match th
    case DWalk(_, i) => i <= n
    case DHeld(_, i) => i < n
    case DCalled(_, i) => i < n
    case EStart(h) => h < n
    case EHeld(h) => h < n
    case ESet(h) => h < n
    case _ => true
  }

  ghost predicate ListLockInv(s: State) {
    && (s.listLock.Some? ==> s.listLock.value < |s.threads|)
    && forall t :: 0 <= t < |s.threads| ==> (HoldsList(s.threads[t]) <==> s.listLock == Some(t))
  }

  /** A locked handler is locked by a thread that is inside it ... */
  predicate Owned(s: State, j: nat)
    requires j < |s.handlers|
  {
    var lock := s.handlers[j].lock;
    lock.Some? ==> lock.value < |s.threads| && HeldHandler(s.threads[lock.value]) == Some(j)
  }

  /** ... and a thread inside a handler has it locked. */
  predicate Owns(s: State, t: nat)
    requires t < |s.threads|
  {
    var held := HeldHandler(s.threads[t]);
    held.Some? ==> held.value < |s.handlers| && s.handlers[held.value].lock == Some(t)
  }

  ghost predicate HandlerLockInv(s: State) {
    && (forall j :: 0 <= j < |s.handlers| ==> Owned(s, j))
    && (forall t :: 0 <= t < |s.threads| ==> Owns(s, t))
  }

  ghost predicate IndexInv(s: State) {
    forall t :: 0 <= t < |s.threads| ==> IndexOk(s.threads[t], |s.handlers|)
  }

  lemma ListLockStep(s: State, l: Label)
    requires ListLockInv(s) && Enabled(s, l)
    ensures ListLockInv(Apply(s, l))
  {
  }

  /** What a thread's step does to the lock of handler j: it takes it when it gets inside the handler
      and releases it when it leaves. */
  ghost predicate LockChange(s: State, s': State, t: nat, j: nat)
    requires t < |s.threads| && t < |s'.threads| && j < |s'.handlers|
  {
    var held, held' := HeldHandler(s.threads[t]), HeldHandler(s'.threads[t]);
    var lock := if j < |s.handlers| then s.handlers[j].lock else None;
    && s'.threads == s.threads[t := s'.threads[t]]
    && |s.handlers| <= |s'.handlers|
    && (held != held' && held' == Some(j) ==> lock.None?)
    && s'.handlers[j].lock == if held == held' then lock
                              else if held' == Some(j) then Some(t)
                              else if held == Some(j) then None
                              else lock
  }

  lemma LockEffect(s: State, t: nat, j: nat)
    requires CanStep(s, t) && j < |StepThread(s, t).handlers|
    ensures |StepThread(s, t).threads| == |s.threads|
    ensures LockChange(s, StepThread(s, t), t, j)
  {
  }

  lemma OwnedKept(s: State, s': State, t: nat, j: nat)
    requires t < |s.threads| == |s'.threads| && j < |s'.handlers| && LockChange(s, s', t, j)
    requires j < |s.handlers| ==> Owned(s, j)
    ensures Owned(s', j)
  {
  }

  lemma OwnedStep(s: State, l: Label, j: nat)
    requires HandlerLockInv(s) && Enabled(s, l) && j < |Apply(s, l).handlers|
    ensures Owned(Apply(s, l), j)
  {
    if l.Step? {
      LockEffect(s, l.t, j);
      OwnedKept(s, Apply(s, l), l.t, j);
    } else {
      assert Owned(s, j);
    }
  }

  /** A handler a thread is inside of exists, before and after a step. */
  lemma InsideExists(s: State, u: nat, t: nat)
    requires CanStep(s, u) && t < |s.threads| && Owns(s, t)
    ensures |StepThread(s, u).threads| == |s.threads|
    ensures var held' := HeldHandler(StepThread(s, u).threads[t]);
            held'.Some? ==> held'.value < |StepThread(s, u).handlers|
  {
  }

  lemma OwnsKept(s: State, s': State, u: nat, t: nat, j: nat)
    requires u < |s.threads| == |s'.threads| && t < |s.threads| && j < |s'.handlers| && LockChange(s, s', u, j)
    requires HeldHandler(s'.threads[t]) == Some(j)
    requires Owns(s, t) && Owns(s, u)
    ensures Owns(s', t)
  {
  }

  lemma OwnsThreadStep(s: State, s': State, u: nat, t: nat)
    requires HandlerLockInv(s) && CanStep(s, u) && s' == StepThread(s, u) && t < |s.threads| == |s'.threads|
    ensures Owns(s', t)
  {
    if HeldHandler(s'.threads[t]).Some? {
      var j := HeldHandler(s'.threads[t]).value;
      assert Owns(s, t) && Owns(s, u);
      InsideExists(s, u, t);
      LockEffect(s, u, j);
      OwnsKept(s, s', u, t, j);
    }
  }

  lemma OwnsStep(s: State, l: Label, t: nat)
    requires HandlerLockInv(s) && Enabled(s, l) && t < |Apply(s, l).threads|
    ensures Owns(Apply(s, l), t)
  {
    assert t < |s.threads| ==> Owns(s, t);
    if l.Step? {
      OwnsThreadStep(s, StepThread(s, l.t), l.t, t);
    }
  }

  lemma HandlerLockStep(s: State, l: Label)
    requires HandlerLockInv(s) && Enabled(s, l)
    ensures HandlerLockInv(Apply(s, l))
  {
    forall j | 0 <= j < |Apply(s, l).handlers|
      ensures Owned(Apply(s, l), j)
    {
      OwnedStep(s, l, j);
    }
    forall t | 0 <= t < |Apply(s, l).threads|
      ensures Owns(Apply(s, l), t)
    {
      OwnsStep(s, l, t);
    }
  }

  lemma IndexEffect(s: State, t: nat)
    requires CanStep(s, t) && IndexOk(s.threads[t], |s.handlers|)
    ensures var s' := StepThread(s, t);
            && |s'.threads| == |s.threads| && s'.threads == s.threads[t := s'.threads[t]]
            && |s.handlers| <= |s'.handlers|
            && IndexOk(s'.threads[t], |s'.handlers|)
  {
  }

  lemma IndexStep(s: State, l: Label)
    requires IndexInv(s) && Enabled(s, l)
    ensures IndexInv(Apply(s, l))
  {
    if l.Step? {
      IndexEffect(s, l.t);
    }
    forall t | 0 <= t < |Apply(s, l).threads|
      ensures IndexOk(Apply(s, l).threads[t], |Apply(s, l).handlers|)
    {
      assert t < |s.threads| ==> IndexOk(s.threads[t], |s.handlers|);
    }
  }

  // ---------- What a handler has received ----------

  /** The dispatch in progress, if there is one, has not delivered to handler j yet. */
  predicate Behind(s: State, j: nat) {
    s.listLock.Some? && s.listLock.value < |s.threads| &&
    match s.threads[s.listLock.value]
    case DWalk(_, i) => i <= j
    case DHeld(_, i) => i <= j
    case DCalled(_, i) => i < j
    case _ => false
  }

  /** A handler has examined every dispatched event (but the one on its way), and has received its
      matcher's selection of those that came after it was enabled. */
  predicate HandlerInv(h: Handler, dispatched: seq<Event>, behind: bool) {
    && h.seen + (if behind then 1 else 0) == |dispatched|
    && h.since <= h.seen
    && h.received == if h.enabled then Filter(h.matcher, dispatched[h.since..h.seen]) else []
  }

  predicate EventOf(th: Thread, e: Event) {
    match th
    case DWalk(d, _) => d == e
    case DHeld(d, _) => d == e
    case DCalled(d, _) => d == e
    case _ => false
  }

  /** The dispatch that holds the list lock is dispatching the last event, and no event is stale. */
  ghost predicate EventsInv(s: State) {
    && (forall e :: e in s.dispatched ==> e.created >= s.startTime)
    && (forall t, e :: 0 <= t < |s.threads| && EventOf(s.threads[t], e) ==>
          s.dispatched != [] && s.dispatched[|s.dispatched| - 1] == e)
  }

  ghost predicate LogsInv(s: State) {
    forall j :: 0 <= j < |s.handlers| ==> HandlerInv(s.handlers[j], s.dispatched, Behind(s, j))
  }

  ghost predicate Inv(s: State) {
    ListLockInv(s) && HandlerLockInv(s) && IndexInv(s) && EventsInv(s) && LogsInv(s)
  }

  /** A thread that carries an event took it along, or has just taken the list lock with it. */
  lemma CarriedBefore(s: State, u: nat, t: nat, e: Event)
    requires CanStep(s, u) && t < |s.threads| && EventOf(StepThread(s, u).threads[t], e)
    ensures |StepThread(s, u).threads| == |s.threads|
    ensures EventOf(s.threads[t], e) || (t == u && s.threads[t] == DStart(e) && e.created >= s.startTime)
    ensures EventOf(s.threads[t], e) ==> HoldsList(s.threads[t])
  {
  }

  /** What a step adds to the dispatched events. */
  lemma DispatchedEffect(s: State, t: nat)
    requires CanStep(s, t)
    ensures var th := s.threads[t];
            StepThread(s, t).dispatched
              == if th.DStart? && th.e.created >= s.startTime then s.dispatched + [th.e] else s.dispatched
    ensures StepThread(s, t).startTime == s.startTime
    ensures s.threads[t].DStart? && s.threads[t].e.created >= s.startTime ==> s.listLock.None?
    ensures |StepThread(s, t).threads| == |s.threads|
  {
  }

  lemma EventsThreadStep(s: State, u: nat, s': State)
    requires EventsInv(s) && ListLockInv(s) && CanStep(s, u) && s' == StepThread(s, u)
    ensures EventsInv(s')
  {
    DispatchedEffect(s, u);
    forall t, e | 0 <= t < |s'.threads| && EventOf(s'.threads[t], e)
      ensures s'.dispatched != [] && s'.dispatched[|s'.dispatched| - 1] == e
    {
      CarriedBefore(s, u, t, e);
    }
  }

  lemma EventsStep(s: State, l: Label)
    requires EventsInv(s) && ListLockInv(s) && Enabled(s, l)
    ensures EventsInv(Apply(s, l))
  {
    if l.Step? {
      EventsThreadStep(s, l.t, StepThread(s, l.t));
    }
  }

  lemma ExtendHandler(h: Handler, dispatched: seq<Event>, e: Event)
    requires HandlerInv(h, dispatched, false)
    ensures HandlerInv(h, dispatched + [e], true)
  {
    assert (dispatched + [e])[h.since..h.seen] == dispatched[h.since..h.seen];
  }

  lemma DeliverHandler(h: Handler, dispatched: seq<Event>)
    requires HandlerInv(h, dispatched, true)
    ensures HandlerInv(Deliver(h, dispatched[|dispatched| - 1]), dispatched, false)
  {
    var e := dispatched[|dispatched| - 1];
    assert dispatched[h.since..] == dispatched[h.since..h.seen] + [e];
    assert dispatched[h.since..h.seen + 1] == dispatched[h.since..];
    FilterSnoc(h.matcher, dispatched[h.since..h.seen], e);
  }

  lemma EnableHandler(h: Handler, dispatched: seq<Event>, behind: bool)
    requires HandlerInv(h, dispatched, behind)
    ensures HandlerInv(SetEnabled(h), dispatched, behind)
  {
    assert dispatched[h.seen..h.seen] == [];
  }

  /** Being behind starts when a dispatch takes the list lock and ends with the delivery. */
  predicate StillBehind(th: Thread, startTime: int, j: nat, behind: bool) {
    if th.DStart? && th.e.created >= startTime then true
    else behind && !(th.DHeld? && th.i == j)
  }

  /** Whether handler j is still to be reached only changes when the list lock is taken or when the
      current dispatch delivers to it. */
  lemma BehindStep(s: State, l: Label, j: nat)
    requires Inv(s) && Enabled(s, l) && j < |s.handlers|
    ensures var s' := Apply(s, l);
            Behind(s', j) <==>
              if l.Step? then StillBehind(s.threads[l.t], s.startTime, j, Behind(s, j)) else Behind(s, j)
  {
    if l.Step? {
      assert HoldsList(s.threads[l.t]) <==> s.listLock == Some(l.t);
      assert IndexOk(s.threads[l.t], |s.handlers|);
    }
  }

  /** What a thread's step does to handler j, its lock aside: delivery and enabling, nothing else. */
  lemma HandlerEffect(s: State, t: nat, j: nat)
    requires CanStep(s, t) && j < |s.handlers|
    ensures var th, h, s' := s.threads[t], s.handlers[j], StepThread(s, t);
            && j < |s'.handlers|
            && s'.handlers[j].(lock := None)
               == (if th.DHeld? && th.i == j then Deliver(h, th.e)
                   else if th.EHeld? && th.h == j then SetEnabled(h)
                   else h).(lock := None)
  {
  }

  lemma LogKept(
    th: Thread, startTime: int, j: nat, h: Handler, h': Handler, d: seq<Event>, d': seq<Event>, behind: bool)
    requires HandlerInv(h, d, behind)
    requires h'.(lock := None)
               == (if th.DHeld? && th.i == j then Deliver(h, th.e)
                   else if th.EHeld? && th.h == j then SetEnabled(h)
                   else h).(lock := None)
    requires d' == if th.DStart? && th.e.created >= startTime then d + [th.e] else d
    requires th.DStart? && th.e.created >= startTime ==> !behind
    requires th.DHeld? && th.i == j ==> behind && d != [] && d[|d| - 1] == th.e
    ensures HandlerInv(h', d', StillBehind(th, startTime, j, behind))
  {
    if th.DStart? && th.e.created >= startTime {
      ExtendHandler(h, d, th.e);
    } else if th.DHeld? && th.i == j {
      DeliverHandler(h, d);
    } else if th.EHeld? && th.h == j {
      EnableHandler(h, d, behind);
    }
  }

  lemma LogThreadStep(s: State, t: nat, j: nat, s': State)
    requires Inv(s) && CanStep(s, t) && s' == StepThread(s, t) && j < |s.handlers|
    requires Behind(s', j) <==> StillBehind(s.threads[t], s.startTime, j, Behind(s, j))
    ensures j < |s'.handlers| && HandlerInv(s'.handlers[j], s'.dispatched, Behind(s', j))
  {
    var h, th := s.handlers[j], s.threads[t];
    assert HandlerInv(h, s.dispatched, Behind(s, j));
    assert HoldsList(th) <==> s.listLock == Some(t);
    HandlerEffect(s, t, j);
    DispatchedEffect(s, t);
    assert th.DHeld? ==> EventOf(th, th.e);
    LogKept(th, s.startTime, j, h, s'.handlers[j], s.dispatched, s'.dispatched, Behind(s, j));
  }

  lemma LogStep(s: State, l: Label, j: nat)
    requires Inv(s) && Enabled(s, l) && j < |s.handlers|
    ensures var s' := Apply(s, l);
            j < |s'.handlers| && HandlerInv(s'.handlers[j], s'.dispatched, Behind(s', j))
  {
    BehindStep(s, l, j);
    if l.Step? {
      LogThreadStep(s, l.t, j, StepThread(s, l.t));
    }
  }

  lemma LogsStep(s: State, l: Label)
    requires Inv(s) && Enabled(s, l)
    ensures LogsInv(Apply(s, l))
  {
    var s' := Apply(s, l);
    forall j | 0 <= j < |s'.handlers|
      ensures HandlerInv(s'.handlers[j], s'.dispatched, Behind(s', j))
    {
      if j < |s.handlers| {
        LogStep(s, l, j);
      } else {
        assert HoldsList(s.threads[l.t]);
      }
    }
  }

  lemma StepKeepsInv(s: State, l: Label)
    requires Inv(s) && Enabled(s, l)
    ensures Inv(Apply(s, l))
  {
    ListLockStep(s, l);
    HandlerLockStep(s, l);
    IndexStep(s, l);
    EventsStep(s, l);
    LogsStep(s, l);
  }

  lemma {:induction false} RunKeepsInv(s: State, ls: seq<Label>)
    requires Inv(s) && Run(s, ls).Some?
    ensures Inv(Run(s, ls).value)
    decreases ls
  {
    if ls != [] {
      StepKeepsInv(s, ls[0]);
      RunKeepsInv(Apply(s, ls[0]), ls[1..]);
    }
  }

  lemma ReachableInv(s: State)
    requires Reachable(s)
    ensures Inv(s)
  {
    var startTime, ls :| Run(Init(startTime), ls) == Some(s);
    RunKeepsInv(Init(startTime), ls);
  }

  // ---------- Delivery ----------

  lemma FilteredSuffix(h: Handler, dispatched: seq<Event>, behind: bool) returns (k: nat)
    requires HandlerInv(h, dispatched, behind)
    ensures k <= h.seen && h.received == Filter(h.matcher, dispatched[k..h.seen])
    ensures multiset(h.received) <= multiset(dispatched)
    ensures forall e :: e in h.received ==> h.matcher(e) && e in dispatched
  {
    k := if h.enabled then h.since else h.seen;
    assert dispatched[h.seen..h.seen] == [];
    FilterOfSlice(h.matcher, dispatched, k, h.seen);
  }

  /** In every interleaving a handler has received exactly its matcher's selection of a run of the
      dispatched events that reaches up to the end (short of the one being dispatched right now), in
      order, each at most as often as dispatched, and nothing from before the watcher was created. */
  lemma ReceivedIsFilteredSuffix(s: State, j: nat)
    requires Reachable(s) && j < |s.handlers|
    ensures var h, n := s.handlers[j], |s.dispatched| - (if Behind(s, j) then 1 else 0);
            && (exists k :: 0 <= k <= n && h.received == Filter(h.matcher, s.dispatched[k..n]))
            && (!h.enabled ==> h.received == [])
            && multiset(h.received) <= multiset(s.dispatched)
            && (forall e :: e in h.received ==> h.matcher(e) && e.created >= s.startTime)
  {
    ReachableInv(s);
    var k := FilteredSuffix(s.handlers[j], s.dispatched, Behind(s, j));
  }

  /** How a handler and the dispatched events may change over a run. */
  ghost predicate Evolves(h: Handler, h': Handler, d: seq<Event>, d': seq<Event>) {
    && d <= d' && h'.matcher == h.matcher && h.seen <= h'.seen
    && (h.enabled ==> h'.enabled && h'.since == h.since)
    && (!h.enabled && h'.enabled ==> h.seen <= h'.since)
  }

  lemma HandlerStep(s: State, l: Label, j: nat)
    requires Enabled(s, l) && j < |s.handlers|
    ensures j < |Apply(s, l).handlers|
    ensures Evolves(s.handlers[j], Apply(s, l).handlers[j], s.dispatched, Apply(s, l).dispatched)
  {
    if l.Step? {
      HandlerEffect(s, l.t, j);
      DispatchedEffect(s, l.t);
    }
  }

  lemma {:induction false} HandlerHistory(s: State, ls: seq<Label>, j: nat)
    requires Run(s, ls).Some? && j < |s.handlers|
    ensures var s' := Run(s, ls).value;
            j < |s'.handlers| && Evolves(s.handlers[j], s'.handlers[j], s.dispatched, s'.dispatched)
    decreases ls
  {
    if ls != [] {
      HandlerStep(s, ls[0], j);
      HandlerHistory(Apply(s, ls[0]), ls[1..], j);
    }
  }

  lemma ReceivedGrows(h: Handler, h': Handler, d: seq<Event>, d': seq<Event>)
    requires HandlerInv(h, d, false) && HandlerInv(h', d', false)
    requires d <= d' && h.enabled && h'.enabled && h'.matcher == h.matcher && h'.since == h.since
    ensures h'.received == h.received + Filter(h.matcher, d'[|d|..])
  {
    assert d'[h.since..h'.seen] == d[h.since..h.seen] + d'[|d|..];
    FilterConcat(h.matcher, d[h.since..h.seen], d'[|d|..]);
  }

  /** Once enabled, a handler misses nothing: between two moments at which no dispatch is on its way
      to it, it receives exactly the matching events dispatched in between, in order. */
  lemma EnabledHandlerMissesNothing(s: State, ls: seq<Label>, j: nat)
    requires Reachable(s) && Run(s, ls).Some? && j < |s.handlers|
    requires s.handlers[j].enabled && !Behind(s, j) && !Behind(Run(s, ls).value, j)
    ensures var s' := Run(s, ls).value;
            && s.dispatched <= s'.dispatched && j < |s'.handlers|
            && s'.handlers[j].received
               == s.handlers[j].received + Filter(s.handlers[j].matcher, s'.dispatched[|s.dispatched|..])
  {
    ReachableInv(s);
    RunKeepsInv(s, ls);
    HandlerHistory(s, ls, j);
    var s' := Run(s, ls).value;
    ReceivedGrows(s.handlers[j], s'.handlers[j], s.dispatched, s'.dispatched);
  }

  /** ... and it never receives an event whose delivery was over before it was enabled. */
  lemma NothingFromBeforeEnable(s: State, ls: seq<Label>, j: nat)
    requires Reachable(s) && Run(s, ls).Some? && j < |s.handlers|
    requires !s.handlers[j].enabled && !Behind(s, j) && !Behind(Run(s, ls).value, j)
    ensures var s' := Run(s, ls).value;
            && j < |s'.handlers|
            && exists k :: |s.dispatched| <= k <= |s'.dispatched|
                 && s'.handlers[j].received == Filter(s.handlers[j].matcher, s'.dispatched[k..])
  {
    ReachableInv(s);
    RunKeepsInv(s, ls);
    HandlerHistory(s, ls, j);
    var s' := Run(s, ls).value;
    var h, h' := s.handlers[j], s'.handlers[j];
    assert HandlerInv(h, s.dispatched, false) && HandlerInv(h', s'.dispatched, false);
    var n := |s'.dispatched|;
    var k := if h'.enabled then h'.since else n;
    assert s'.dispatched[k..] == s'.dispatched[k..n] && s'.dispatched[n..] == [];
    assert h'.received == Filter(h.matcher, s'.dispatched[k..]);
  }

  // ---------- Progress ----------

  /** Follow the locks from a waiting thread to one that can step: a thread waiting for the list
      lock waits for its holder, and whoever holds a handler lock waits for nothing. */
  lemma RunnableFrom(s: State, t: nat) returns (u: nat)
    requires Inv(s) && t < |s.threads| && !s.threads[t].Done?
    ensures CanStep(s, u)
  {
    u := t;
    if !CanStep(s, u) && (s.threads[u].DStart? || s.threads[u].RStart?) {
      u := s.listLock.value;
      assert HoldsList(s.threads[u]);
    }
    assert IndexOk(s.threads[u], |s.handlers|);
    if !CanStep(s, u) {
      var j := if s.threads[u].DWalk? then s.threads[u].i else s.threads[u].h;
      assert Owned(s, j);
      u := s.handlers[j].lock.value;
    }
  }

  /** The watcher never deadlocks: with an operation pending, some thread can step. */
  lemma NeverDeadlocks(s: State)
    requires Reachable(s)
    requires exists t :: 0 <= t < |s.threads| && !s.threads[t].Done?
    ensures exists t :: CanStep(s, t)
  {
    ReachableInv(s);
    var t :| 0 <= t < |s.threads| && !s.threads[t].Done?;
    var u := RunnableFrom(s, t);
  }

  /** The steps a thread has left when the list ends up with n handlers. */
  function Work(th: Thread, n: nat): nat {
    match th
    case DStart(_) => 3 * n + 2
    case DWalk(_, i) => if i <= n then 3 * (n - i) + 1 else 1
    case DHeld(_, i) => if i < n then 3 * (n - i) else 0
    case DCalled(_, i) => if i < n then 3 * (n - i) - 1 else 0
    case RStart(_) => 3
    case RHeld(_) => 2
    case RAppended => 1
    case EStart(_) => 3
    case EHeld(_) => 2
    case ESet(_) => 1
    case Done => 0
  }

  function TotalWork(ths: seq<Thread>, n: nat): nat {
    if ths == [] then 0 else Work(ths[0], n) + TotalWork(ths[1..], n)
  }

  function Registrations(ths: seq<Thread>): nat {
    if ths == [] then 0
    else (if ths[0].RStart? || ths[0].RHeld? then 1 else 0) + Registrations(ths[1..])
  }

  /** How many handlers there will be when all pending registrations are through. */
  function FinalCount(s: State): nat { |s.handlers| + Registrations(s.threads) }

  function Potential(s: State): nat { TotalWork(s.threads, FinalCount(s)) }

  lemma {:induction false} UpdateThread(ths: seq<Thread>, t: nat, th: Thread, n: nat)
    requires t < |ths|
    ensures TotalWork(ths[t := th], n) == TotalWork(ths, n) - Work(ths[t], n) + Work(th, n)
    ensures Registrations(ths[t := th])
         == Registrations(ths) - (if ths[t].RStart? || ths[t].RHeld? then 1 else 0)
                               + (if th.RStart? || th.RHeld? then 1 else 0)
  {
    if t == 0 {
      assert ths[t := th][1..] == ths[1..];
    } else {
      assert ths[t := th][1..] == ths[1..][t - 1 := th];
      UpdateThread(ths[1..], t - 1, th, n);
    }
  }

  lemma {:induction false} CountsItself(ths: seq<Thread>, t: nat)
    requires t < |ths| && (ths[t].RStart? || ths[t].RHeld?)
    ensures Registrations(ths) >= 1
  {
    if t > 0 {
      CountsItself(ths[1..], t - 1);
    }
  }

  lemma ThreadAdvances(s: State, t: nat, n: nat)
    requires IndexInv(s) && CanStep(s, t) && n >= |s.handlers|
    ensures Work(StepThread(s, t).threads[t], n) < Work(s.threads[t], n)
  {
    assert IndexOk(s.threads[t], |s.handlers|);
  }

  lemma StepMakesProgress(s: State, t: nat)
    requires IndexInv(s) && CanStep(s, t)
    ensures FinalCount(StepThread(s, t)) == FinalCount(s)
    ensures Potential(StepThread(s, t)) < Potential(s)
  {
    var s' := StepThread(s, t);
    assert s'.threads == s.threads[t := s'.threads[t]];
    UpdateThread(s.threads, t, s'.threads[t], FinalCount(s));
    ThreadAdvances(s, t, FinalCount(s));
    if s.threads[t].RHeld? {
      CountsItself(s.threads, t);
    }
  }

  ghost predicate OnlySteps(ls: seq<Label>) { forall l :: l in ls ==> l.Step? }

  /** Without new operations every run is finite, whatever the scheduler does. */
  lemma {:induction false} RunsAreBounded(s: State, ls: seq<Label>)
    requires Inv(s) && OnlySteps(ls) && Run(s, ls).Some?
    ensures |ls| <= Potential(s)
    decreases ls
  {
    if ls != [] {
      assert ls[0] in ls;
      StepKeepsInv(s, ls[0]);
      StepMakesProgress(s, ls[0].t);
      RunsAreBounded(Apply(s, ls[0]), ls[1..]);
    }
  }

  /** So a run that cannot be extended has carried every operation to its end. */
  lemma MaximalRunsFinish(s: State, ls: seq<Label>)
    requires Reachable(s) && OnlySteps(ls) && Run(s, ls).Some?
    requires forall t :: !CanStep(Run(s, ls).value, t)
    ensures |ls| <= Potential(s)
    ensures forall t :: 0 <= t < |Run(s, ls).value.threads| ==> Run(s, ls).value.threads[t].Done?
  {
    ReachableInv(s);
    RunsAreBounded(s, ls);
    RunKeepsInv(s, ls);
    var s' := Run(s, ls).value;
    if t :| 0 <= t < |s'.threads| && !s'.threads[t].Done? {
      var u := RunnableFrom(s', t);
    }
  }

  // ---------- Operations run alone ----------

  /** No lock is taken. */
  ghost predicate Quiet(s: State) {
    s.listLock.None? && forall j :: 0 <= j < |s.handlers| ==> s.handlers[j].lock.None?
  }

  /** With every operation done, as before the first and whenever a run cannot go on, nothing is locked. */
  lemma DoneMeansQuiet(s: State)
    requires Reachable(s) && forall t :: 0 <= t < |s.threads| ==> s.threads[t].Done?
    ensures Quiet(s)
  {
    ReachableInv(s);
    assert s.listLock.Some? ==> HoldsList(s.threads[s.listLock.value]);
    forall j | 0 <= j < |s.handlers|
      ensures s.handlers[j].lock.None?
    {
      assert Owned(s, j);
    }
  }

  /** What the operations do to the list of handlers, as one step. */
  function Dispatched(hs: seq<Handler>, e: Event): seq<Handler> {
    seq(|hs|, i requires 0 <= i < |hs| => Deliver(hs[i], e))
  }

  function Registered(hs: seq<Handler>, m: Matcher, seen: nat): seq<Handler> {
    hs + [Handler(m, false, None, [], seen, seen)]
  }

  /** n steps of thread t. */
  function Steps(t: nat, n: nat): seq<Label> { seq(n, i => Step(t)) }

  /** n steps of thread t lead from s to s', whatever comes after them. */
  ghost predicate Leads(s: State, t: nat, n: nat, s': State) {
    forall m: nat {:trigger Run(s', Steps(t, m))} :: Run(s, Steps(t, n + m)) == Run(s', Steps(t, m))
  }

  lemma LeadsOne(s: State, t: nat, s': State)
    requires CanStep(s, t) && StepThread(s, t) == s'
    ensures Leads(s, t, 1, s')
  {
    forall m: nat
      ensures Run(s, Steps(t, 1 + m)) == Run(s', Steps(t, m))
    {
      assert Steps(t, 1 + m)[1..] == Steps(t, m);
    }
  }

  lemma LeadsThen(s: State, t: nat, n: nat, s': State, n': nat, s'': State)
    requires Leads(s, t, n, s') && Leads(s', t, n', s'')
    ensures Leads(s, t, n + n', s'')
  {
    forall m: nat
      ensures Run(s, Steps(t, n + n' + m)) == Run(s'', Steps(t, m))
    {
      assert Run(s', Steps(t, n' + m)) == Run(s'', Steps(t, m));
      assert n + n' + m == n + (n' + m);
    }
  }

  /** From the first step of an operation to a run of it. */
  lemma RunAlone(s: State, op: Op, started: State, n: nat, s': State)
    requires Enabled(s, Spawn(op)) && started == s.(threads := s.threads + [Begin(op)])
    requires Leads(started, |s.threads|, n, s')
    ensures Run(s, [Spawn(op)] + Steps(|s.threads|, n)) == Some(s')
  {
    var t, ls := |s.threads|, [Spawn(op)] + Steps(|s.threads|, n);
    assert ls[0] == Spawn(op) && ls[1..] == Steps(t, n + 0);
    assert Steps(t, 0) == [] && Run(s', Steps(t, 0)) == Some(s');
  }

  lemma UpdateTwice(hs: seq<Handler>, i: nat, h: Handler, h': Handler)
    requires i < |hs|
    ensures hs[i := h][i := h'] == hs[i := h']
  {
  }

  lemma ThreadTwice(ths: seq<Thread>, t: nat, th: Thread, th': Thread)
    requires t < |ths|
    ensures ths[t := th][t := th'] == ths[t := th']
  {
  }

  lemma LastThread(ths: seq<Thread>, th: Thread, th': Thread)
    ensures (ths + [th])[|ths| := th'] == ths + [th']
  {
  }

  /** The state in which thread t is somewhere else and handler i is another. */
  function Moved(s: State, t: nat, th: Thread, i: nat, h: Handler): State
    requires t < |s.threads| && i < |s.handlers|
  {
    s.(threads := s.threads[t := th], handlers := s.handlers[i := h])
  }

  lemma MovedTwice(s: State, t: nat, th: Thread, th': Thread, i: nat, h: Handler, h': Handler)
    requires t < |s.threads| && i < |s.handlers|
    ensures Moved(Moved(s, t, th, i, h), t, th', i, h') == Moved(s, t, th', i, h')
  {
    UpdateTwice(s.handlers, i, h, h');
    ThreadTwice(s.threads, t, th, th');
  }

  lemma LockHandler(s: State, t: nat, e: Event, i: nat)
    requires t < |s.threads| && s.threads[t] == DWalk(e, i) && i < |s.handlers| && s.handlers[i].lock.None?
    ensures Leads(s, t, 1, Moved(s, t, DHeld(e, i), i, s.handlers[i].(lock := Some(t))))
  {
    LeadsOne(s, t, Moved(s, t, DHeld(e, i), i, s.handlers[i].(lock := Some(t))));
  }

  lemma CallHandler(s: State, t: nat, e: Event, i: nat)
    requires t < |s.threads| && s.threads[t] == DHeld(e, i) && i < |s.handlers|
    ensures Leads(s, t, 1, Moved(s, t, DCalled(e, i), i, Deliver(s.handlers[i], e)))
  {
    LeadsOne(s, t, Moved(s, t, DCalled(e, i), i, Deliver(s.handlers[i], e)));
  }

  lemma UnlockHandler(s: State, t: nat, e: Event, i: nat)
    requires t < |s.threads| && s.threads[t] == DCalled(e, i) && i < |s.handlers|
    ensures Leads(s, t, 1, Moved(s, t, DWalk(e, i + 1), i, s.handlers[i].(lock := None)))
  {
    LeadsOne(s, t, Moved(s, t, DWalk(e, i + 1), i, s.handlers[i].(lock := None)));
  }

  /** A handler whose lock is held: delivered to, unlocked. */
  lemma VisitHeld(s: State, t: nat, e: Event, i: nat)
    requires t < |s.threads| && s.threads[t] == DHeld(e, i) && i < |s.handlers|
    ensures Leads(s, t, 2, Moved(s, t, DWalk(e, i + 1), i, Deliver(s.handlers[i], e).(lock := None)))
  {
    var h := Deliver(s.handlers[i], e);
    var s1 := Moved(s, t, DCalled(e, i), i, h);
    CallHandler(s, t, e, i);
    MovedTwice(s, t, DCalled(e, i), DWalk(e, i + 1), i, h, h.(lock := None));
    UnlockHandler(s1, t, e, i);
    LeadsThen(s, t, 1, s1, 1, Moved(s, t, DWalk(e, i + 1), i, h.(lock := None)));
  }

  /** One handler visited: locked, delivered to, unlocked. */
  lemma VisitAlone(s: State, t: nat, e: Event, i: nat)
    requires t < |s.threads| && s.threads[t] == DWalk(e, i) && i < |s.handlers| && s.handlers[i].lock.None?
    ensures Leads(s, t, 3, Moved(s, t, DWalk(e, i + 1), i, Deliver(s.handlers[i], e)))
  {
    var h := s.handlers[i].(lock := Some(t));
    var s1 := Moved(s, t, DHeld(e, i), i, h);
    LockHandler(s, t, e, i);
    MovedTwice(s, t, DHeld(e, i), DWalk(e, i + 1), i, h, Deliver(s.handlers[i], e));
    VisitHeld(s1, t, e, i);
    LeadsThen(s, t, 1, s1, 2, Moved(s, t, DWalk(e, i + 1), i, Deliver(s.handlers[i], e)));
  }

  lemma DispatchedFrom(hs: seq<Handler>, i: nat, e: Event)
    requires i < |hs|
    ensures var hs' := hs[i := Deliver(hs[i], e)];
            hs'[..i + 1] + Dispatched(hs'[i + 1..], e) == hs[..i] + Dispatched(hs[i..], e)
  {
    var hs' := hs[i := Deliver(hs[i], e)];
    assert hs'[i + 1..] == hs[i + 1..];
    assert Dispatched(hs[i..], e) == [Deliver(hs[i], e)] + Dispatched(hs[i + 1..], e);
    assert hs'[..i + 1] == hs[..i] + [Deliver(hs[i], e)];
  }

  /** The rest of the list, from handler i on. */
  lemma {:induction false} WalkAlone(s: State, t: nat, i: nat, e: Event)
    requires t < |s.threads| && s.threads[t] == DWalk(e, i) && i <= |s.handlers|
    requires forall j :: i <= j < |s.handlers| ==> s.handlers[j].lock.None?
    ensures Leads(s, t, 3 * (|s.handlers| - i) + 1,
                  s.(threads := s.threads[t := Done], listLock := None,
                     handlers := s.handlers[..i] + Dispatched(s.handlers[i..], e)))
    decreases |s.handlers| - i
  {
    if i == |s.handlers| {
      assert s.handlers[..i] + Dispatched(s.handlers[i..], e) == s.handlers;
      LeadsOne(s, t, s.(threads := s.threads[t := Done], listLock := None));
    } else {
      var s' := Moved(s, t, DWalk(e, i + 1), i, Deliver(s.handlers[i], e));
      VisitAlone(s, t, e, i);
      WalkAlone(s', t, i + 1, e);
      ThreadTwice(s.threads, t, DWalk(e, i + 1), Done);
      DispatchedFrom(s.handlers, i, e);
      LeadsThen(s, t, 3, s', 3 * (|s.handlers| - (i + 1)) + 1,
                s.(threads := s.threads[t := Done], listLock := None,
                   handlers := s.handlers[..i] + Dispatched(s.handlers[i..], e)));
    }
  }

  lemma StaleAlone(s: State, e: Event)
    requires e.created < s.startTime
    ensures Run(s, [Spawn(Dispatch(e))] + Steps(|s.threads|, 1)) == Some(s.(threads := s.threads + [Done]))
  {
    var started, after := s.(threads := s.threads + [DStart(e)]), s.(threads := s.threads + [Done]);
    LastThread(s.threads, DStart(e), Done);
    LeadsOne(started, |s.threads|, after);
    RunAlone(s, Dispatch(e), started, 1, after);
  }

  /** What a dispatch leaves when its thread ends up in the given list. */
  function Delivered(s: State, e: Event, threads: seq<Thread>): State {
    s.(threads := threads, handlers := Dispatched(s.handlers, e), dispatched := s.dispatched + [e])
  }

  lemma FreshLeads(s: State, t: nat, e: Event)
    requires Quiet(s) && t < |s.threads| && s.threads[t] == DStart(e) && e.created >= s.startTime
    ensures Leads(s, t, 3 * |s.handlers| + 2, Delivered(s, e, s.threads[t := Done]))
  {
    var s' := s.(threads := s.threads[t := DWalk(e, 0)], listLock := Some(t), dispatched := s.dispatched + [e]);
    LeadsOne(s, t, s');
    WalkAlone(s', t, 0, e);
    ThreadTwice(s.threads, t, DWalk(e, 0), Done);
    assert s.handlers[..0] + Dispatched(s.handlers[0..], e) == Dispatched(s.handlers, e);
    LeadsThen(s, t, 1, s', 3 * |s.handlers| + 1, Delivered(s, e, s.threads[t := Done]));
  }

  lemma DeliveredLast(s: State, e: Event)
    ensures var started := s.(threads := s.threads + [DStart(e)]);
            Delivered(started, e, started.threads[|s.threads| := Done]) == Delivered(s, e, s.threads + [Done])
  {
    LastThread(s.threads, DStart(e), Done);
  }

  lemma FreshStarted(s: State, e: Event, started: State)
    requires Quiet(s) && e.created >= s.startTime && started == s.(threads := s.threads + [DStart(e)])
    ensures started == s.(threads := s.threads + [Begin(Dispatch(e))]) && Enabled(s, Spawn(Dispatch(e)))
    ensures Leads(started, |s.threads|, 3 * |s.handlers| + 2, Delivered(s, e, s.threads + [Done]))
  {
    DeliveredLast(s, e);
    FreshLeads(started, |s.threads|, e);
  }

  lemma FreshAlone(s: State, e: Event, n: nat, after: State)
    requires Quiet(s) && e.created >= s.startTime
    requires n == 3 * |s.handlers| + 2 && after == Delivered(s, e, s.threads + [Done])
    ensures Run(s, [Spawn(Dispatch(e))] + Steps(|s.threads|, n)) == Some(after)
  {
    var started := s.(threads := s.threads + [DStart(e)]);
    FreshStarted(s, e, started);
    RunAlone(s, Dispatch(e), started, n, after);
  }

  /** A dispatch that nobody interferes with skips a stale event; otherwise, in 3n+2 steps for n handlers,
      it appends the event to what every enabled handler with a matching matcher has received. */
  lemma DispatchAlone(s: State, e: Event)
    requires Quiet(s)
    ensures if e.created < s.startTime then
              Run(s, [Spawn(Dispatch(e))] + Steps(|s.threads|, 1)) == Some(s.(threads := s.threads + [Done]))
            else
              Run(s, [Spawn(Dispatch(e))] + Steps(|s.threads|, 3 * |s.handlers| + 2))
                == Some(Delivered(s, e, s.threads + [Done]))
    ensures var after := Delivered(s, e, s.threads + [Done]);
            && |after.handlers| == |s.handlers|
            && forall j :: 0 <= j < |s.handlers| ==>
                 var h := s.handlers[j];
                 after.handlers[j] == h.(seen := h.seen + 1,
                   received := if h.enabled && h.matcher(e) then h.received + [e] else h.received)
  {
    if e.created < s.startTime {
      StaleAlone(s, e);
    } else {
      FreshAlone(s, e, 3 * |s.handlers| + 2, Delivered(s, e, s.threads + [Done]));
    }
  }

  lemma RegisterLeads(s: State, t: nat, m: Matcher)
    requires Quiet(s) && t < |s.threads| && s.threads[t] == RStart(m)
    ensures Leads(s, t, 3, s.(threads := s.threads[t := Done], handlers := Registered(s.handlers, m, |s.dispatched|)))
  {
    var hs := Registered(s.handlers, m, |s.dispatched|);
    var s1 := s.(threads := s.threads[t := RHeld(m)], listLock := Some(t));
    var s2 := s.(threads := s.threads[t := RAppended], listLock := Some(t), handlers := hs);
    var s3 := s.(threads := s.threads[t := Done], handlers := hs);
    LeadsOne(s, t, s1);
    ThreadTwice(s.threads, t, RHeld(m), RAppended);
    LeadsOne(s1, t, s2);
    ThreadTwice(s.threads, t, RAppended, Done);
    LeadsOne(s2, t, s3);
    LeadsThen(s, t, 1, s1, 1, s2);
    LeadsThen(s, t, 2, s2, 1, s3);
  }

  /** A registration alone appends one handler: disabled, with the given matcher and nothing received. */
  lemma RegisterAlone(s: State, m: Matcher)
    requires Quiet(s)
    ensures Run(s, [Spawn(Register(m))] + Steps(|s.threads|, 3))
         == Some(s.(threads := s.threads + [Done],
                    handlers := s.handlers + [Handler(m, false, None, [], |s.dispatched|, |s.dispatched|)]))
  {
    var started := s.(threads := s.threads + [RStart(m)]);
    var after := s.(threads := s.threads + [Done], handlers := Registered(s.handlers, m, |s.dispatched|));
    LastThread(s.threads, RStart(m), Done);
    assert started.(threads := started.threads[|s.threads| := Done], handlers := after.handlers) == after;
    RegisterLeads(started, |s.threads|, m);
    RunAlone(s, Register(m), started, 3, after);
  }

  lemma EnableLeads(s: State, t: nat, h: nat)
    requires Quiet(s) && t < |s.threads| && s.threads[t] == EStart(h) && h < |s.handlers|
    ensures Leads(s, t, 3, Moved(s, t, Done, h, SetEnabled(s.handlers[h])))
  {
    var x := s.handlers[h].(lock := Some(t));
    var s1 := Moved(s, t, EHeld(h), h, x);
    var s2 := Moved(s, t, ESet(h), h, SetEnabled(x));
    var s3 := Moved(s, t, Done, h, SetEnabled(s.handlers[h]));
    LeadsOne(s, t, s1);
    MovedTwice(s, t, EHeld(h), ESet(h), h, x, SetEnabled(x));
    LeadsOne(s1, t, s2);
    MovedTwice(s, t, ESet(h), Done, h, SetEnabled(x), SetEnabled(s.handlers[h]));
    LeadsOne(s2, t, s3);
    LeadsThen(s, t, 1, s1, 1, s2);
    LeadsThen(s, t, 2, s2, 1, s3);
  }

  lemma EnableStarted(s: State, h: nat, started: State)
    requires Quiet(s) && h < |s.handlers| && started == s.(threads := s.threads + [EStart(h)])
    ensures Leads(started, |s.threads|, 3,
                  s.(threads := s.threads + [Done], handlers := s.handlers[h := SetEnabled(s.handlers[h])]))
  {
    LastThread(s.threads, EStart(h), Done);
    EnableLeads(started, |s.threads|, h);
  }

  /** Enabling alone enables the handler, which from then on accounts for what is dispatched, and changes
      nothing else. */
  lemma EnableAlone(s: State, h: nat)
    requires Quiet(s) && h < |s.handlers|
    ensures var before := s.handlers[h];
            var enabled := before.(enabled := true, since := if before.enabled then before.since else before.seen);
            Run(s, [Spawn(Enable(h))] + Steps(|s.threads|, 3))
              == Some(s.(threads := s.threads + [Done], handlers := s.handlers[h := enabled]))
  {
    var started := s.(threads := s.threads + [EStart(h)]);
    var after := s.(threads := s.threads + [Done], handlers := s.handlers[h := SetEnabled(s.handlers[h])]);
    EnableStarted(s, h, started);
    RunAlone(s, Enable(h), started, 3, after);
  }

  // ---------- Operations among others ----------

  /** The enabling thread t is still before setting the flag, or the handler is enabled. */
  predicate EnableGoing(s: State, t: nat, h: nat) {
    && t < |s.threads| && h < |s.handlers|
    && (s.threads[t] == EStart(h) || s.threads[t] == EHeld(h) || s.handlers[h].enabled)
  }

  /** A step of one thread moves that thread only. */
  lemma ThreadsEffect(s: State, t: nat)
    requires CanStep(s, t)
    ensures |StepThread(s, t).threads| == |s.threads|
    ensures StepThread(s, t).threads == s.threads[t := StepThread(s, t).threads[t]]
    ensures s.threads[t].EStart? ==> StepThread(s, t).threads[t] == EHeld(s.threads[t].h)
    ensures s.threads[t].DStart? && s.threads[t].e.created >= s.startTime ==> !StepThread(s, t).threads[t].DStart?
  {
  }

  lemma EnableGoesOn(s: State, l: Label, t: nat, h: nat)
    requires EnableGoing(s, t, h) && Enabled(s, l)
    ensures EnableGoing(Apply(s, l), t, h)
  {
    if l.Step? {
      HandlerEffect(s, l.t, h);
      ThreadsEffect(s, l.t);
    }
  }

  lemma {:induction false} EnableKeepsGoing(s: State, ls: seq<Label>, t: nat, h: nat)
    requires EnableGoing(s, t, h) && Run(s, ls).Some?
    ensures EnableGoing(Run(s, ls).value, t, h)
    decreases ls
  {
    if ls != [] {
      EnableGoesOn(s, ls[0], t, h);
      EnableKeepsGoing(Apply(s, ls[0]), ls[1..], t, h);
    }
  }

  /** In every interleaving, when an enable has returned its handler is enabled, and stays so. */
  lemma EnableTakesEffect(s: State, ls: seq<Label>, t: nat, h: nat)
    requires t < |s.threads| && s.threads[t] == EStart(h) && h < |s.handlers|
    requires Run(s, ls).Some? && t < |Run(s, ls).value.threads| && Run(s, ls).value.threads[t].Done?
    ensures h < |Run(s, ls).value.handlers| && Run(s, ls).value.handlers[h].enabled
  {
    EnableKeepsGoing(s, ls, t, h);
  }

  /** The dispatching thread t is still before taking the list lock, or its event is among those dispatched
      after the first n. */
  ghost predicate DispatchGoing(s: State, t: nat, e: Event, n: nat) {
    && t < |s.threads| && n <= |s.dispatched|
    && (s.threads[t] == DStart(e) || e in s.dispatched[n..])
  }

  lemma DispatchGoesOn(s: State, l: Label, t: nat, e: Event, n: nat)
    requires DispatchGoing(s, t, e, n) && Enabled(s, l) && e.created >= s.startTime
    ensures DispatchGoing(Apply(s, l), t, e, n) && Apply(s, l).startTime == s.startTime
  {
    if l.Step? {
      DispatchedEffect(s, l.t);
      ThreadsEffect(s, l.t);
      var more := Apply(s, l).dispatched[|s.dispatched|..];
      assert Apply(s, l).dispatched[n..] == s.dispatched[n..] + more;
      assert l.t == t && s.threads[t] == DStart(e) ==> more == [e];
    }
  }

  lemma {:induction false} DispatchKeepsGoing(s: State, ls: seq<Label>, t: nat, e: Event, n: nat)
    requires DispatchGoing(s, t, e, n) && Run(s, ls).Some? && e.created >= s.startTime
    ensures DispatchGoing(Run(s, ls).value, t, e, n)
    decreases ls
  {
    if ls != [] {
      DispatchGoesOn(s, ls[0], t, e, n);
      DispatchKeepsGoing(Apply(s, ls[0]), ls[1..], t, e, n);
    }
  }

  /** In every interleaving, a fresh event whose dispatch begins after a handler was enabled and has
      returned was received by that handler if it matches (unless a later dispatch is just on its way to
      the handler, after which the same holds). */
  lemma CompletedDispatchIsReceived(s: State, ls: seq<Label>, t: nat, e: Event, j: nat)
    requires Reachable(s) && Run(s, ls).Some? && j < |s.handlers| && t < |s.threads|
    requires s.threads[t] == DStart(e) && e.created >= s.startTime
    requires s.handlers[j].enabled && s.handlers[j].matcher(e) && !Behind(s, j)
    requires t < |Run(s, ls).value.threads| && Run(s, ls).value.threads[t].Done? && !Behind(Run(s, ls).value, j)
    ensures j < |Run(s, ls).value.handlers| && e in Run(s, ls).value.handlers[j].received
  {
    EnabledHandlerMissesNothing(s, ls, j);
    DispatchKeepsGoing(s, ls, t, e, |s.dispatched|);
    FilterMembers(s.handlers[j].matcher, Run(s, ls).value.dispatched[|s.dispatched|..]);
  }

  /** The locks exclude: at most one thread holds the list, and at most one is inside a handler. */
  lemma MutualExclusion(s: State, t: nat, u: nat)
    requires Reachable(s) && t < u < |s.threads|
    ensures !(HoldsList(s.threads[t]) && HoldsList(s.threads[u]))
    ensures HeldHandler(s.threads[t]).Some? ==> HeldHandler(s.threads[t]) != HeldHandler(s.threads[u])
  {
    ReachableInv(s);
    assert Owns(s, t) && Owns(s, u);
  }

  // ---------- The objects ----------

  /** A handler without its history counts and its lock: what an object holds of it. */
  function Plain(h: Handler): Handler { h.(lock := None, seen := 0, since := 0) }

  function PlainAll(hs: seq<Handler>): seq<Handler> {
    seq(|hs|, i requires 0 <= i < |hs| => Plain(hs[i]))
  }

  /** Without interference the protocol's operations do to what objects hold of the handlers exactly
      what the methods below promise. */
  lemma ObjectsFollowProtocol(hs: seq<Handler>, e: Event, m: Matcher, seen: nat, h: nat)
    ensures PlainAll(Dispatched(hs, e)) == PlainAll(Dispatched(PlainAll(hs), e))
    ensures PlainAll(Registered(hs, m, seen)) == Registered(PlainAll(hs), m, 0)
    ensures h < |hs| ==> PlainAll(hs[h := SetEnabled(hs[h])]) == PlainAll(hs)[h := SetEnabled(PlainAll(hs)[h])]
  {
  }

  /** A registered handler; `received` stands for the effect of its callback. */
  class EventHandler {
    const matcher: Matcher
    var enabled: bool
    var received: seq<Event>

    /** What the protocol knows of this handler. */
    ghost function Snapshot(): Handler
      reads this
    {
      Handler(matcher, enabled, None, received, 0, 0)
    }

    constructor (matcher: Matcher)
      ensures this.matcher == matcher && !enabled && received == []
    {
      this.matcher := matcher;
      enabled, received := false, [];
    }

    method Enable()
      modifies this`enabled
      ensures Snapshot() == SetEnabled(old(Snapshot()))
      ensures enabled && received == old(received)
    {
      enabled := true;
    }

    method Receive(event: Event)
      modifies this`received
      ensures Snapshot() == Plain(Deliver(old(Snapshot()), event))
      ensures received == if enabled && matcher(event) then old(received) + [event] else old(received)
    {
      if enabled && matcher(event) {
        received := received + [event];
      }
    }
  }

  class Watcher {
    const startTime: int
    var eventHandlers: seq<EventHandler>

    ghost predicate Valid()
      reads this
    {
      forall i, j :: 0 <= i < j < |eventHandlers| ==> eventHandlers[i] != eventHandlers[j]
    }

    constructor (startTime: int)
      ensures this.startTime == startTime && eventHandlers == [] && Valid()
    {
      this.startTime := startTime;
      eventHandlers := [];
    }

    ghost function Snapshots(): seq<Handler>
      reads this, eventHandlers
    {
      seq(|eventHandlers|, i requires 0 <= i < |eventHandlers| reads this, eventHandlers => eventHandlers[i].Snapshot())
    }

    method OnEvent(matcher: Matcher) returns (h: EventHandler)
      requires Valid()
      modifies this`eventHandlers
      ensures Valid() && fresh(h) && eventHandlers == old(eventHandlers) + [h]
      ensures h.matcher == matcher && !h.enabled && h.received == []
      ensures Snapshots() == Registered(old(Snapshots()), matcher, 0)
    {
      h := new EventHandler(matcher);
      eventHandlers := eventHandlers + [h];
    }

    /** The informer's callback: skip stale events, otherwise deliver to each handler in turn. */
    method Dispatch(event: Event)
      requires Valid()
      modifies eventHandlers
      ensures Snapshots() == if event.created < startTime then old(Snapshots())
                             else PlainAll(Dispatched(old(Snapshots()), event))
      ensures forall h :: h in eventHandlers ==>
                && h.enabled == old(h.enabled)
                && h.received == if event.created >= startTime && old(h.enabled) && h.matcher(event)
                                 then old(h.received) + [event] else old(h.received)
    {
      if event.created < startTime {
        return;
      }
      ghost var before := Snapshots();
      assert forall k :: 0 <= k < |eventHandlers| ==>
          before[k] == Handler(eventHandlers[k].matcher, eventHandlers[k].enabled, None, eventHandlers[k].received, 0, 0);
      for i := 0 to |eventHandlers|
        invariant forall k :: 0 <= k < i ==> eventHandlers[k].Snapshot() == Plain(Deliver(before[k], event))
        invariant forall k :: i <= k < |eventHandlers| ==> eventHandlers[k].Snapshot() == before[k]
      {
        eventHandlers[i].Receive(event);
      }
    }
  }
}
