/**
 * The resource consumer as a concurrent protocol: callers, the two load loops, the context and
 * CleanUp, interleaved step by step. Each side (CPU or memory) is one `Side`; the shared state
 * between the sides is the WaitGroup counter and how far CleanUp has got.
 */
module ConsumerProtocol {
  import opened Common
  import opened LoadLoop

  datatype LoopId = CPU | Mem

  /** Where the goroutine of a loop is: not yet scheduled, blocked in select, inside a send pass,
      past the return statement with the deferred Done pending, gone. */
  datatype Pc = Spawned | Selecting | Sending | Returning | Exited

  datatype Side = Side(
    pc: Pc,
    value: int,
    choices: seq<Choice>,      // history: what select picked
    log: seq<Event>,           // history: commands, timers and passes
    pending: multiset<int>,    // callers blocked on the unbuffered channel
    stopped: bool,             // stop channel closed
    cancelled: bool)           // context done

  datatype SideLabel =
    | Go                // the goroutine runs wg.Add(1) and enters the loop
    | Call(v: int)      // somebody calls ConsumeCPU or ConsumeMem
    | Accept(v: int)    // rendezvous on the channel: the call returns, a pass begins
    | Timer             // time.After fires
    | EndPass           // sendPerPod returns
    | SeeCancel         // select picks ctx.Done()
    | SeeStop           // select picks the closed stop channel
    | Finish            // deferred wg.Done()
    | Cancelled         // the context is cancelled
    | Stop              // the stop channel is closed

  datatype CleanUp = NotCalled | ClosedCPU | Waiting | Returned

  datatype State = State(cpu: Side, mem: Side, wg: int, cleanup: CleanUp)

  datatype Label =
    | Of(id: LoopId, l: SideLabel)
    | CancelContext
    | CloseCPU
    | CloseMem
    | WaitReturns

  // ---------- Steps of one side ----------

  predicate SideEnabled(s: Side, l: SideLabel) {
    match l
    case Go => s.pc == Spawned
    case Call(v) => true
    case Accept(v) => s.pc == Selecting && v in s.pending
    case Timer => s.pc == Selecting
    case EndPass => s.pc == Sending
    case SeeCancel => s.pc == Selecting && s.cancelled
    case SeeStop => s.pc == Selecting && s.stopped
    case Finish => s.pc == Returning
    case Cancelled => true
    case Stop => true
  }

  function SideApply(s: Side, l: SideLabel): Side
    requires SideEnabled(s, l)
  {
    match l
    case Go => s.(pc := Selecting)
    case Call(v) => s.(pending := s.pending + multiset{v})
    case Accept(v) =>
      s.(pc := Sending, value := v, choices := s.choices + [Take(v)],
         log := s.log + [Accepted(v), PassBegin(v)], pending := s.pending - multiset{v})
    case Timer =>
      if s.value > 0 then
        s.(pc := Sending, choices := s.choices + [Tick], log := s.log + [TimerFired, PassBegin(s.value)])
      else
        s.(choices := s.choices + [Tick], log := s.log + [TimerFired])
    case EndPass => s.(pc := Selecting, log := s.log + [PassEnd(s.value)])
    case SeeCancel => s.(pc := Returning, choices := s.choices + [CtxDone])
    case SeeStop => s.(pc := Returning, choices := s.choices + [StopClosed])
    case Finish => s.(pc := Exited)
    case Cancelled => s.(cancelled := true)
    case Stop => s.(stopped := true)
  }

  function SideRun(s: Side, ls: seq<SideLabel>): Option<Side>
    decreases ls
  {
    if ls == [] then Some(s)
    else if SideEnabled(s, ls[0]) then SideRun(SideApply(s, ls[0]), ls[1..])
    else None
  }

  // ---------- Steps of the whole ----------

  function Get(s: State, id: LoopId): Side { if id == CPU then s.cpu else s.mem }

  function Set(s: State, id: LoopId, side: Side): State {
    if id == CPU then s.(cpu := side) else s.(mem := side)
  }

  predicate Enabled(s: State, l: Label) {
    match l
    case Of(id, sl) => !sl.Cancelled? && !sl.Stop? && SideEnabled(Get(s, id), sl)
    case CancelContext => true
    case CloseCPU => s.cleanup == NotCalled
    case CloseMem => s.cleanup == ClosedCPU
    case WaitReturns => s.cleanup == Waiting && s.wg == 0
  }

  function Apply(s: State, l: Label): State
    requires Enabled(s, l)
  {
    match l
    case Of(id, sl) =>
      Set(s, id, SideApply(Get(s, id), sl))
        .(wg := s.wg + if sl.Go? then 1 else if sl.Finish? then -1 else 0)
    case CancelContext => s.(cpu := SideApply(s.cpu, Cancelled), mem := SideApply(s.mem, Cancelled))
    case CloseCPU => s.(cpu := SideApply(s.cpu, Stop), cleanup := ClosedCPU)
    case CloseMem => s.(mem := SideApply(s.mem, Stop), cleanup := Waiting)
    case WaitReturns => s.(cleanup := Returned)
  }

  function Run(s: State, ls: seq<Label>): Option<State>
    decreases ls
  {
    if ls == [] then Some(s)
    else if Enabled(s, ls[0]) then Run(Apply(s, ls[0]), ls[1..])
    else None
  }

  const INIT_SIDE := Side(Spawned, 0, [], [], multiset{}, false, false)
  const INIT := State(INIT_SIDE, INIT_SIDE, 0, NotCalled)

  ghost predicate Reachable(s: State) { exists ls :: Run(INIT, ls) == Some(s) }

  // ---------- What every step keeps ----------

  predicate Started(s: Side) { s.pc != Spawned }

  predicate Active(s: Side) { s.pc in {Selecting, Sending, Returning} }

  function Count(s: Side): int { if Active(s) then 1 else 0 }

  predicate Gone(s: Side) { s.pc in {Returning, Exited} }

  /** The log with a pass in progress closed off. */
  function Closed(s: Side): seq<Event> {
    if s.pc == Sending then s.log + [PassEnd(s.value)] else s.log
  }

  /** A returning choice is the last one, and there is one exactly when the loop has returned. */
  ghost predicate ChoicesInv(s: Side) {
    && (Gone(s) ==> s.choices != [])
    && forall i :: 0 <= i < |s.choices| ==> (Returns(s.choices[i]) <==> i == |s.choices| - 1 && Gone(s))
  }

  /** The history of a side is what the loop by itself would have written for its choices; while a
      pass is in progress only its end is missing. */
  ghost predicate SideInv(s: Side) {
    && s.value == ValueAfter(s.choices)
    && LogOf(s.choices) == Closed(s)
    && (s.pc == Spawned ==> s.choices == [])
    && ChoicesInv(s)
  }

  /** What the sides share: the WaitGroup counter is loops started minus loops finished, and the
      stop channels are closed as far as CleanUp has got. */
  predicate SharedInv(s: State) {
    && s.wg == Count(s.cpu) + Count(s.mem)
    && s.cpu.cancelled == s.mem.cancelled
    && (s.cpu.stopped <==> s.cleanup != NotCalled)
    && (s.mem.stopped <==> s.cleanup in {Waiting, Returned})
  }

  ghost predicate Inv(s: State) {
    SideInv(s.cpu) && SideInv(s.mem) && SharedInv(s)
  }

  /** One outcome of the select. */
  lemma PickKeepsInv(s: Side, s': Side, c: Choice)
    requires SideInv(s) && s.pc == Selecting
    requires s'.choices == s.choices + [c]
    requires s'.pc == if Returns(c) then Returning else if Sends(s.value, c) then Sending else Selecting
    requires s'.value == if c.Take? then c.v else s.value
    requires Closed(s') == s.log + Block(s.value, c)
    ensures SideInv(s')
  {
    LogSnoc(s.choices, c);
  }

  lemma AcceptKeepsInv(s: Side, v: int)
    requires SideInv(s) && SideEnabled(s, Accept(v))
    ensures SideInv(SideApply(s, Accept(v)))
  {
    assert s.log + [Accepted(v), PassBegin(v)] + [PassEnd(v)] == s.log + Block(s.value, Take(v));
    PickKeepsInv(s, SideApply(s, Accept(v)), Take(v));
  }

  lemma TimerKeepsInv(s: Side)
    requires SideInv(s) && SideEnabled(s, Timer)
    ensures SideInv(SideApply(s, Timer))
  {
    if s.value > 0 {
      assert s.log + [TimerFired, PassBegin(s.value)] + [PassEnd(s.value)] == s.log + Block(s.value, Tick);
    }
    PickKeepsInv(s, SideApply(s, Timer), Tick);
  }

  lemma LeaveKeepsInv(s: Side, l: SideLabel)
    requires SideInv(s) && SideEnabled(s, l) && (l.SeeCancel? || l.SeeStop?)
    ensures SideInv(SideApply(s, l))
  {
    var c := if l.SeeCancel? then CtxDone else StopClosed;
    assert s.log + Block(s.value, c) == s.log;
    PickKeepsInv(s, SideApply(s, l), c);
  }

  /** Labels that pick nothing leave the choices and the closed log as they are. */
  lemma QuietKeepsInv(s: Side, l: SideLabel)
    requires SideInv(s) && SideEnabled(s, l)
    requires !l.Accept? && !l.Timer? && !l.SeeCancel? && !l.SeeStop?
    ensures SideInv(SideApply(s, l))
  {
    var s' := SideApply(s, l);
    assert s'.choices == s.choices && Closed(s') == Closed(s) && s'.value == s.value;
    assert Gone(s') == Gone(s);
  }

  lemma SideStepKeepsInv(s: Side, l: SideLabel)
    requires SideInv(s) && SideEnabled(s, l)
    ensures SideInv(SideApply(s, l))
  {
    if l.Accept? {
      AcceptKeepsInv(s, l.v);
    } else if l.Timer? {
      TimerKeepsInv(s);
    } else if l.SeeCancel? || l.SeeStop? {
      LeaveKeepsInv(s, l);
    } else {
      QuietKeepsInv(s, l);
    }
  }

  /** What a step of a side means for what is shared: it starts, finishes or goes on. */
  lemma SideStepShared(s: Side, l: SideLabel)
    requires SideEnabled(s, l)
    ensures Count(SideApply(s, l)) == Count(s) + (if l.Go? then 1 else if l.Finish? then -1 else 0)
    ensures SideApply(s, l).stopped == (s.stopped || l.Stop?)
    ensures SideApply(s, l).cancelled == (s.cancelled || l.Cancelled?)
  {
  }

  lemma SharedStep(s: State, l: Label)
    requires SharedInv(s) && Enabled(s, l)
    ensures SharedInv(Apply(s, l))
  {
    match l
    case Of(id, sl) => SideStepShared(Get(s, id), sl);
    case CancelContext =>
      SideStepShared(s.cpu, Cancelled);
      SideStepShared(s.mem, Cancelled);
    case CloseCPU => SideStepShared(s.cpu, Stop);
    case CloseMem => SideStepShared(s.mem, Stop);
    case WaitReturns =>
  }

  lemma StepKeepsInv(s: State, l: Label, id: LoopId)
    requires SideInv(Get(s, id)) && Enabled(s, l)
    ensures SideInv(Get(Apply(s, l), id))
  {
    match l
    case Of(i, sl) => if i == id { SideStepKeepsInv(Get(s, id), sl); }
    case CancelContext => SideStepKeepsInv(Get(s, id), Cancelled);
    case CloseCPU => SideStepKeepsInv(Get(s, id), Stop);
    case CloseMem => SideStepKeepsInv(Get(s, id), Stop);
    case WaitReturns =>
  }

  /** The WaitGroup counter always equals loops started minus loops finished, and each side stays
      in step with its sequential description, in every interleaving. */
  lemma {:induction false} RunKeepsInv(s: State, ls: seq<Label>)
    requires Inv(s) && Run(s, ls).Some?
    ensures Inv(Run(s, ls).value)
    decreases ls
  {
    if ls != [] {
      SharedStep(s, ls[0]);
      StepKeepsInv(s, ls[0], CPU);
      StepKeepsInv(s, ls[0], Mem);
      RunKeepsInv(Apply(s, ls[0]), ls[1..]);
    }
  }

  lemma ReachableInv(s: State)
    requires Reachable(s)
    ensures Inv(s)
  {
    var ls :| Run(INIT, ls) == Some(s);
    RunKeepsInv(INIT, ls);
  }

  lemma {:induction false} RunConcat(s: State, a: seq<Label>, b: seq<Label>)
    ensures Run(s, a + b) == match Run(s, a) case None => None case Some(m) => Run(m, b)
    decreases a
  {
    if a == [] {
      assert a + b == b;
    } else {
      assert (a + b)[0] == a[0] && (a + b)[1..] == a[1..] + b;
      if Enabled(s, a[0]) {
        RunConcat(Apply(s, a[0]), a[1..], b);
      }
    }
  }

  // ---------- Command semantics ----------

  /** At the moment a call of ConsumeCPU or ConsumeMem returns, every earlier pass of that loop has
      ended, so every earlier command has been carried out in full; the log is a complete legal log
      followed by the command just accepted. */
  lemma ReturnedCallFinishedEarlierPasses(s: State, id: LoopId, v: int)
    requires Reachable(s) && Enabled(s, Of(id, Accept(v)))
    ensures v in Get(s, id).pending && Legal(Get(s, id).log)
    ensures forall i :: 0 <= i < |Get(s, id).log| && Get(s, id).log[i].Accepted? ==>
              i + 2 < |Get(s, id).log| && Get(s, id).log[i + 2] == PassEnd(Get(s, id).log[i].v)
    ensures Get(Apply(s, Of(id, Accept(v))), id).log == Get(s, id).log + [Accepted(v), PassBegin(v)]
  {
    ReachableInv(s);
    LogsAreLegal(Get(s, id).choices);
    var log := Get(s, id).log;
    forall i | 0 <= i < |log| && log[i].Accepted?
      ensures i + 2 < |log| && log[i + 2] == PassEnd(log[i].v)
    {
      assert LegalAt(log, i);
    }
  }

  /** In every reachable state a loop's log, once a pass in progress is closed off, is legal: one
      pass per command, refreshes re-send the latest positive command, nothing else is sent. */
  lemma EveryLogIsLegal(s: State, id: LoopId)
    requires Reachable(s)
    ensures var side := Get(s, id);
            Closed(side) == LogOf(side.choices) && Legal(Closed(side))
  {
    ReachableInv(s);
    LogsAreLegal(Get(s, id).choices);
  }

  // ---------- The loops do not interfere ----------

  function View(id: LoopId, l: Label): seq<SideLabel> {
    match l
    case Of(i, sl) => if i == id then [sl] else []
    case CancelContext => [Cancelled]
    case CloseCPU => if id == CPU then [Stop] else []
    case CloseMem => if id == Mem then [Stop] else []
    case WaitReturns => []
  }

  function Project(id: LoopId, ls: seq<Label>): seq<SideLabel> {
    if ls == [] then [] else View(id, ls[0]) + Project(id, ls[1..])
  }

  /** Labels of the outside world and the loops, leaving CleanUp aside. */
  ghost predicate NoCleanUp(ls: seq<Label>) {
    forall l :: l in ls ==> l.CancelContext? || (l.Of? && !l.l.Cancelled? && !l.l.Stop?)
  }

  /** Any run of both loops projects to a valid run of each loop alone, ending in the same side. */
  lemma {:induction false} RunProjects(s: State, ls: seq<Label>, id: LoopId)
    requires Run(s, ls).Some?
    ensures SideRun(Get(s, id), Project(id, ls)) == Some(Get(Run(s, ls).value, id))
    decreases ls
  {
    if ls != [] {
      RunProjects(Apply(s, ls[0]), ls[1..], id);
      var v := View(id, ls[0]);
      if v != [] {
        assert (v + Project(id, ls[1..]))[1..] == Project(id, ls[1..]);
      } else {
        assert v + Project(id, ls[1..]) == Project(id, ls[1..]);
      }
    }
  }

  lemma SideRunHead(s: Side, id: LoopId, ls: seq<Label>)
    requires ls != []
    ensures var v, rest := View(id, ls[0]), Project(id, ls[1..]);
            SideRun(s, Project(id, ls)) ==
              if v == [] then SideRun(s, rest)
              else if SideEnabled(s, v[0]) then SideRun(SideApply(s, v[0]), rest) else None
  {
    var v, rest := View(id, ls[0]), Project(id, ls[1..]);
    assert if v == [] then v + rest == rest else (v + rest)[1..] == rest;
  }

  /** Conversely two runs of the loops alone can be interleaved in any order that agrees on when
      the context is cancelled: outside CleanUp neither loop ever blocks the other. */
  lemma {:induction false} ProjectionsCompose(s: State, ls: seq<Label>)
    requires NoCleanUp(ls)
    ensures Run(s, ls).Some?
       <==> SideRun(s.cpu, Project(CPU, ls)).Some? && SideRun(s.mem, Project(Mem, ls)).Some?
    decreases ls
  {
    if ls != [] {
      assert ls[0] in ls;
      SideRunHead(s.cpu, CPU, ls);
      SideRunHead(s.mem, Mem, ls);
      if Enabled(s, ls[0]) {
        ProjectionsCompose(Apply(s, ls[0]), ls[1..]);
      }
    }
  }

  // ---------- CleanUp as a barrier ----------

  predicate BothExited(s: State) { s.cpu.pc == Exited && s.mem.pc == Exited }

  /** Whatever happens from s on, when CleanUp has returned both loops are gone. */
  ghost predicate Barrier(s: State) {
    forall ls :: Run(s, ls).Some? && Run(s, ls).value.cleanup == Returned ==> BothExited(Run(s, ls).value)
  }

  /** A loop that has returned is never heard of again: no pass, no accepted command, in any
      continuation, even before its deferred Done has run. */
  lemma {:induction false} GoneStaysQuiet(s: State, ls: seq<Label>, id: LoopId)
    requires Gone(Get(s, id)) && Run(s, ls).Some?
    ensures Gone(Get(Run(s, ls).value, id))
    ensures Get(s, id).pc == Exited ==> Get(Run(s, ls).value, id).pc == Exited
    ensures Get(Run(s, ls).value, id).log == Get(s, id).log
    ensures Get(s, id).pending <= Get(Run(s, ls).value, id).pending
    ensures forall v :: Of(id, Accept(v)) !in ls
    decreases ls
  {
    if ls != [] {
      GoneStaysQuiet(Apply(s, ls[0]), ls[1..], id);
    }
  }

  lemma {:induction false} StartedStays(s: State, ls: seq<Label>, id: LoopId)
    requires Started(Get(s, id)) && Run(s, ls).Some?
    ensures Started(Get(Run(s, ls).value, id))
    decreases ls
  {
    if ls != [] {
      StartedStays(Apply(s, ls[0]), ls[1..], id);
    }
  }

  /** A run in which a loop accepted a command has started that loop. */
  lemma {:induction false} AcceptStarts(s: State, ls: seq<Label>, id: LoopId, v: int)
    requires Run(s, ls).Some? && Of(id, Accept(v)) in ls
    ensures Started(Get(Run(s, ls).value, id))
    decreases ls
  {
    if ls[0] == Of(id, Accept(v)) {
      StartedStays(Apply(s, ls[0]), ls[1..], id);
    } else {
      AcceptStarts(Apply(s, ls[0]), ls[1..], id, v);
    }
  }

  /** When Wait returns with both loops started, both have exited; this then holds for good. */
  lemma {:induction false} StartedGivesBarrier(s: State, ls: seq<Label>)
    requires SharedInv(s) && Started(s.cpu) && Started(s.mem) && Run(s, ls).Some?
    requires s.cleanup == Returned ==> BothExited(s)
    requires Run(s, ls).value.cleanup == Returned
    ensures BothExited(Run(s, ls).value)
    decreases ls
  {
    if ls != [] {
      var s' := Apply(s, ls[0]);
      SharedStep(s, ls[0]);
      StartedGivesBarrier(s', ls[1..]);
    }
  }

  /** The next step of a started loop whose stop channel is closed, if no new command distracts it. */
  function NextOut(s: Side): SideLabel
    requires Active(s)
  {
    if s.pc == Sending then EndPass else if s.pc == Selecting then SeeStop else Finish
  }

  function StepsOut(s: Side): nat {
    match s.pc case Sending => 3 case Selecting => 2 case Returning => 1 case _ => 0
  }

  /** What the scheduler can do to get a loop out of the way. */
  function Wind(id: LoopId, s: Side): seq<Label>
    requires s.stopped
    decreases StepsOut(s)
  {
    if Active(s) then [Of(id, NextOut(s))] + Wind(id, SideApply(s, NextOut(s))) else []
  }

  lemma {:induction false} WindRuns(s: State, id: LoopId)
    requires Get(s, id).stopped
    ensures var r := Run(s, Wind(id, Get(s, id)));
            && r.Some?
            && r.value == Set(s, id, Get(r.value, id)).(wg := s.wg - Count(Get(s, id)))
            && Get(r.value, id).pc == (if Started(Get(s, id)) then Exited else Spawned)
    decreases StepsOut(Get(s, id))
  {
    var side := Get(s, id);
    if Active(side) {
      var l := Of(id, NextOut(side));
      assert Wind(id, side)[1..] == Wind(id, SideApply(side, NextOut(side)));
      WindRuns(Apply(s, l), id);
    }
  }

  /** What is left of CleanUp's two closes. */
  function Closes(c: CleanUp): seq<Label> {
    match c case NotCalled => [CloseCPU, CloseMem] case ClosedCPU => [CloseMem] case _ => []
  }

  lemma RunOne(s: State, l: Label)
    requires Enabled(s, l)
    ensures Run(s, [l]) == Some(Apply(s, l))
  {
    assert [l][1..] == [];
  }

  lemma ClosesRun(s: State)
    requires SharedInv(s) && s.cleanup != Returned
    ensures var r := Run(s, Closes(s.cleanup));
            && r.Some? && SharedInv(r.value) && r.value.cleanup == Waiting
            && forall id: LoopId :: Get(r.value, id).pc == Get(s, id).pc
  {
    if s.cleanup == NotCalled {
      var s1 := Apply(s, CloseCPU);
      SharedStep(s, CloseCPU);
      SharedStep(s1, CloseMem);
      RunOne(s1, CloseMem);
      assert [CloseCPU, CloseMem][1..] == [CloseMem];
    } else if s.cleanup == ClosedCPU {
      SharedStep(s, CloseMem);
      RunOne(s, CloseMem);
    }
  }

  /** With the closes done, the started loops can leave and CleanUp can return. */
  lemma WaitCanReturn(s: State) returns (ls: seq<Label>)
    requires SharedInv(s) && s.cleanup == Waiting
    ensures Run(s, ls).Some? && Run(s, ls).value.cleanup == Returned
    ensures forall id: LoopId :: Get(Run(s, ls).value, id).pc == if Started(Get(s, id)) then Exited else Spawned
  {
    var b := Wind(CPU, s.cpu);
    WindRuns(s, CPU);
    var s1 := Run(s, b).value;
    var c := Wind(Mem, s1.mem);
    WindRuns(s1, Mem);
    var s2 := Run(s1, c).value;
    RunConcat(s, b, c);
    RunOne(s2, WaitReturns);
    RunConcat(s, b + c, [WaitReturns]);
    ls := b + c + [WaitReturns];
  }

  /** From any state before CleanUp has returned there is a schedule in which it returns and no loop
      that had not been scheduled yet ever ran. */
  lemma CleanUpCanReturn(s: State) returns (ls: seq<Label>)
    requires SharedInv(s) && s.cleanup != Returned
    ensures Run(s, ls).Some? && Run(s, ls).value.cleanup == Returned
    ensures forall id: LoopId :: Get(Run(s, ls).value, id).pc == if Started(Get(s, id)) then Exited else Spawned
  {
    ClosesRun(s);
    var rest := WaitCanReturn(Run(s, Closes(s.cleanup)).value);
    RunConcat(s, Closes(s.cleanup), rest);
    ls := Closes(s.cleanup) + rest;
  }

  /** The exact condition, at every moment before CleanUp has returned, between its call and its Wait
      included: it is a barrier from here on if and only if both goroutines have already executed
      their wg.Add. */
  lemma BarrierExactly(s: State)
    requires Reachable(s) && s.cleanup != Returned
    ensures Barrier(s) <==> Started(s.cpu) && Started(s.mem)
  {
    ReachableInv(s);
    if Started(s.cpu) && Started(s.mem) {
      forall ls | Run(s, ls).Some? && Run(s, ls).value.cleanup == Returned
        ensures BothExited(Run(s, ls).value)
      {
        StartedGivesBarrier(s, ls);
      }
    } else {
      var ls := CleanUpCanReturn(s);
      assert Get(Run(s, ls).value, CPU).pc == Spawned || Get(Run(s, ls).value, Mem).pc == Spawned;
      assert !BothExited(Run(s, ls).value);
    }
  }

  /** What a caller can rely on: after one completed ConsumeCPU and one completed ConsumeMem,
      CleanUp returns only when both loops are gone, and nothing is sent or accepted afterwards. */
  lemma CleanUpBarrier(before: seq<Label>, during: seq<Label>, after: seq<Label>, c: int, m: int)
    requires Run(INIT, before + during + after).Some?
    requires Of(CPU, Accept(c)) in before && Of(Mem, Accept(m)) in before
    requires Run(INIT, before).Some? && Run(INIT, before).value.cleanup == NotCalled
    requires Run(INIT, before + during).Some? && Run(INIT, before + during).value.cleanup == Returned
    ensures var end, later := Run(INIT, before + during).value, Run(INIT, before + during + after).value;
            BothExited(end) && BothExited(later) && later.cpu.log == end.cpu.log && later.mem.log == end.mem.log
  {
    var s := Run(INIT, before).value;
    AcceptStarts(INIT, before, CPU, c);
    AcceptStarts(INIT, before, Mem, m);
    assert Started(Get(s, CPU)) && Started(Get(s, Mem));
    RunKeepsInv(INIT, before);
    RunConcat(INIT, before, during);
    StartedGivesBarrier(s, during);
    RunConcat(INIT, before + during, after);
    var end := Run(INIT, before + during).value;
    GoneStaysQuiet(end, after, CPU);
    GoneStaysQuiet(end, after, Mem);
    assert Get(Run(end, after).value, CPU).pc == Exited && Get(Run(end, after).value, Mem).pc == Exited;
  }

  /** CreateResourceConsumer with these initial totals has returned: it calls ConsumeCPU and ConsumeMem
      only for positive totals, and returns after the calls have. */
  ghost predicate StartedUp(ls: seq<Label>, cpuTotal: int, memTotal: int) {
    && Run(INIT, ls).Some? && Run(INIT, ls).value.cleanup == NotCalled
    && (cpuTotal > 0 ==> Of(CPU, Accept(cpuTotal)) in ls)
    && (memTotal > 0 ==> Of(Mem, Accept(memTotal)) in ls)
  }

  lemma RunThree(s: State, l1: Label, l2: Label, l3: Label)
    requires Enabled(s, l1) && Enabled(Apply(s, l1), l2) && Enabled(Apply(Apply(s, l1), l2), l3)
    ensures Run(s, [l1, l2, l3]) == Some(Apply(Apply(Apply(s, l1), l2), l3))
  {
    var s1, s2 := Apply(s, l1), Apply(Apply(s, l1), l2);
    assert [l1, l2, l3][1..] == [l2, l3] && [l2, l3][1..] == [l3] && [l3][1..] == [];
    assert Run(s2, [l3]) == Run(Apply(s2, l3), []);
    assert Run(s1, [l2, l3]) == Run(s2, [l3]);
  }

  /** A start-up in which the scheduler runs only the loops it has to. */
  lemma LazyStartUp(cpuTotal: int, memTotal: int) returns (ls: seq<Label>)
    ensures StartedUp(ls, cpuTotal, memTotal)
    ensures Started(Run(INIT, ls).value.cpu) <==> cpuTotal > 0
    ensures Started(Run(INIT, ls).value.mem) <==> memTotal > 0
  {
    var a := [Of(CPU, Go), Of(CPU, Call(cpuTotal)), Of(CPU, Accept(cpuTotal))];
    var b := [Of(Mem, Go), Of(Mem, Call(memTotal)), Of(Mem, Accept(memTotal))];
    ls := [];
    if cpuTotal > 0 {
      RunThree(INIT, a[0], a[1], a[2]);
      ls := a;
    }
    if memTotal > 0 {
      var s := Run(INIT, ls).value;
      RunThree(s, b[0], b[1], b[2]);
      RunConcat(INIT, ls, b);
      ls := ls + b;
    }
  }

  /** The condition in terms of the configuration: for every run through start-up, CleanUp is then a
      barrier, if and only if both initial totals are positive. */
  lemma StartUpBarrierExactly(cpuTotal: int, memTotal: int)
    ensures (forall ls :: StartedUp(ls, cpuTotal, memTotal) ==> Barrier(Run(INIT, ls).value))
       <==> cpuTotal > 0 && memTotal > 0
  {
    if cpuTotal > 0 && memTotal > 0 {
      forall ls | StartedUp(ls, cpuTotal, memTotal)
        ensures Barrier(Run(INIT, ls).value)
      {
        AcceptStarts(INIT, ls, CPU, cpuTotal);
        AcceptStarts(INIT, ls, Mem, memTotal);
        var s := Run(INIT, ls).value;
        assert Started(Get(s, CPU)) && Started(Get(s, Mem));
        BarrierExactly(s);
      }
    } else {
      var ls := LazyStartUp(cpuTotal, memTotal);
      BarrierExactly(Run(INIT, ls).value);
    }
  }

  /** Without such calls CleanUp may return at once and a pass may still begin afterwards, because
      wg.Add runs inside the goroutine. */
  lemma UnconditionalBarrierFails(v: int)
    ensures var a, b := [CloseCPU, CloseMem, WaitReturns], [Of(CPU, Go), Of(CPU, Call(v)), Of(CPU, Accept(v))];
            && Run(INIT, a).Some? && Run(INIT, a).value.cleanup == Returned
            && Run(INIT, a + b).Some?
            && Run(INIT, a + b).value.cpu.log == [Accepted(v), PassBegin(v)]
  {
    var a, b := [CloseCPU, CloseMem, WaitReturns], [Of(CPU, Go), Of(CPU, Call(v)), Of(CPU, Accept(v))];
    RunThree(INIT, a[0], a[1], a[2]);
    RunThree(Run(INIT, a).value, b[0], b[1], b[2]);
    RunConcat(INIT, a, b);
  }

  /** CleanUp is never stuck: while it waits for a started loop that loop has a step, and a loop
      seeing its closed stop channel can leave. */
  lemma CleanUpNeverStuck(s: State)
    requires Reachable(s) && s.cleanup == Waiting
    ensures Enabled(s, WaitReturns)
         || exists id: LoopId, l: SideLabel :: l in {EndPass, SeeStop, Finish} && Enabled(s, Of(id, l))
  {
    ReachableInv(s);
    if s.wg != 0 {
      var id := if Active(s.cpu) then CPU else Mem;
      match Get(s, id).pc
      case Selecting => assert Enabled(s, Of(id, SeeStop));
      case Sending => assert Enabled(s, Of(id, EndPass));
      case Returning => assert Enabled(s, Of(id, Finish));
    }
  }

  /** The steps that bring a loop which has not returned to accept v. */
  function AcceptSteps(id: LoopId, s: Side, v: int): seq<Label> {
    match s.pc
    case Spawned => [Of(id, Go), Of(id, Accept(v))]
    case Sending => [Of(id, EndPass), Of(id, Accept(v))]
    case _ => [Of(id, Accept(v))]
  }

  /** The exact boundary for callers: a pending call can still return if and only if the loop has not
      returned from its select for good. */
  lemma PendingCallCanReturnExactly(s: State, id: LoopId, v: int)
    requires v in Get(s, id).pending
    ensures (exists ls :: Run(s, ls).Some? && Of(id, Accept(v)) in ls) <==> !Gone(Get(s, id))
  {
    if Gone(Get(s, id)) {
      forall ls | Run(s, ls).Some?
        ensures Of(id, Accept(v)) !in ls
      {
        GoneStaysQuiet(s, ls, id);
      }
    } else {
      var ls := AcceptSteps(id, Get(s, id), v);
      if |ls| == 1 {
        RunOne(s, ls[0]);
      } else {
        RunOne(s, ls[0]);
        RunOne(Apply(s, ls[0]), ls[1]);
        RunConcat(s, [ls[0]], [ls[1]]);
        assert ls == [ls[0]] + [ls[1]];
      }
      assert Run(s, ls).Some? && Of(id, Accept(v)) in ls;
    }
  }

  /** So a call made to a loop that has returned never returns itself. */
  lemma CallAfterExitBlocks(s: State, id: LoopId, v: int, ls: seq<Label>)
    requires Gone(Get(s, id)) && Run(s, [Of(id, Call(v))] + ls).Some?
    ensures Run(s, [Of(id, Call(v))]).Some?
    ensures v in Get(Run(s, [Of(id, Call(v))] + ls).value, id).pending
    ensures Of(id, Accept(v)) !in ls
  {
    RunConcat(s, [Of(id, Call(v))], ls);
    RunOne(s, Of(id, Call(v)));
    GoneStaysQuiet(Apply(s, Of(id, Call(v))), ls, id);
  }

  // ---------- Commands come from callers ----------

  /** The value with which a label calls ConsumeCPU or ConsumeMem, and the one the loop takes by it. */
  function CalledBy(l: Label, id: LoopId): multiset<int> {
    if l.Of? && l.id == id && l.l.Call? then multiset{l.l.v} else multiset{}
  }

  function TakenBy(l: Label, id: LoopId): multiset<int> {
    if l.Of? && l.id == id && l.l.Accept? then multiset{l.l.v} else multiset{}
  }

  /** ... and those of a run. */
  function Called(ls: seq<Label>, id: LoopId): multiset<int> {
    if ls == [] then multiset{} else CalledBy(ls[0], id) + Called(ls[1..], id)
  }

  function Taken(ls: seq<Label>, id: LoopId): multiset<int> {
    if ls == [] then multiset{} else TakenBy(ls[0], id) + Taken(ls[1..], id)
  }

  /** The commands in a log. */
  function Commands(log: seq<Event>): multiset<int> {
    if log == [] then multiset{}
    else Commands(log[..|log| - 1]) + if log[|log| - 1].Accepted? then multiset{log[|log| - 1].v} else multiset{}
  }

  lemma CommandsSnoc(log: seq<Event>, e: Event)
    ensures Commands(log + [e]) == Commands(log) + if e.Accepted? then multiset{e.v} else multiset{}
  {
    assert (log + [e])[..|log|] == log;
  }

  lemma CommandsOfTwo(log: seq<Event>, e: Event, e': Event)
    requires !e'.Accepted?
    ensures Commands(log + [e, e']) == Commands(log) + if e.Accepted? then multiset{e.v} else multiset{}
  {
    assert log + [e, e'] == log + [e] + [e'];
    CommandsSnoc(log, e);
    CommandsSnoc(log + [e], e');
  }

  /** A step adds to the log what it takes, and nothing else counts as a command. */
  lemma StepLogs(s: Side, l: SideLabel)
    requires SideEnabled(s, l)
    ensures Commands(SideApply(s, l).log) == Commands(s.log) + if l.Accept? then multiset{l.v} else multiset{}
  {
    match l
    case Accept(v) => CommandsOfTwo(s.log, Accepted(v), PassBegin(v));
    case Timer =>
      if s.value > 0 {
        CommandsOfTwo(s.log, TimerFired, PassBegin(s.value));
      } else {
        CommandsSnoc(s.log, TimerFired);
      }
    case EndPass => CommandsSnoc(s.log, PassEnd(s.value));
    case _ =>
  }

  lemma TakeOne(pending: multiset<int>, v: int)
    requires v in pending
    ensures pending - multiset{v} + multiset{v} == pending
  {
  }

  lemma SideStepTakes(s: Side, l: SideLabel)
    requires SideEnabled(s, l)
    ensures SideApply(s, l).pending + (if l.Accept? then multiset{l.v} else multiset{})
         == s.pending + if l.Call? then multiset{l.v} else multiset{}
  {
    if l.Accept? {
      TakeOne(s.pending, l.v);
    }
  }

  lemma StepTakes(s: State, l: Label, id: LoopId)
    requires Enabled(s, l)
    ensures Get(Apply(s, l), id).pending + TakenBy(l, id) == Get(s, id).pending + CalledBy(l, id)
  {
    if l.Of? && l.id == id {
      SideStepTakes(Get(s, id), l.l);
    }
  }

  lemma StepCommands(s: State, l: Label, id: LoopId)
    requires Enabled(s, l)
    ensures Commands(Get(Apply(s, l), id).log) == Commands(Get(s, id).log) + TakenBy(l, id)
  {
    if l.Of? && l.id == id {
      StepLogs(Get(s, id), l.l);
    }
  }

  lemma Chain(p0: multiset<int>, p1: multiset<int>, p2: multiset<int>,
              c: multiset<int>, c': multiset<int>, t: multiset<int>, t': multiset<int>)
    requires p1 + t == p0 + c && p2 + t' == p1 + c'
    ensures p2 + (t + t') == p0 + (c + c')
  {
    assert p2 + (t + t') == p2 + t' + t == p1 + c' + t == p1 + t + c' == p0 + c + c';
  }

  /** The rendezvous loses and invents nothing: over every run, what is pending plus what was taken is
      what was pending before plus what was called. */
  lemma {:induction false} CallsAreAccountedFor(s: State, ls: seq<Label>, id: LoopId)
    requires Run(s, ls).Some?
    ensures Get(Run(s, ls).value, id).pending + Taken(ls, id) == Get(s, id).pending + Called(ls, id)
    decreases ls
  {
    if ls != [] {
      var s1 := Apply(s, ls[0]);
      CallsAreAccountedFor(s1, ls[1..], id);
      StepTakes(s, ls[0], id);
      Chain(Get(s, id).pending, Get(s1, id).pending, Get(Run(s1, ls[1..]).value, id).pending,
            CalledBy(ls[0], id), Called(ls[1..], id), TakenBy(ls[0], id), Taken(ls[1..], id));
    }
  }

  lemma {:induction false} LogAccountsFor(s: State, ls: seq<Label>, id: LoopId)
    requires Run(s, ls).Some?
    ensures Commands(Get(Run(s, ls).value, id).log) == Commands(Get(s, id).log) + Taken(ls, id)
    decreases ls
  {
    if ls != [] {
      LogAccountsFor(Apply(s, ls[0]), ls[1..], id);
      StepCommands(s, ls[0], id);
    }
  }

  /** From the start: the commands a loop has carried out or is carrying out, and the calls still waiting,
      are together the calls that were made, each as often as it was made. */
  lemma CommandsAreCalls(ls: seq<Label>, id: LoopId)
    requires Run(INIT, ls).Some?
    ensures var side := Get(Run(INIT, ls).value, id);
            Commands(side.log) + side.pending == Called(ls, id)
  {
    CallsAreAccountedFor(INIT, ls, id);
    LogAccountsFor(INIT, ls, id);
    assert Get(INIT, id).pending == multiset{} && Commands(Get(INIT, id).log) == multiset{};
    assert multiset{} + Taken(ls, id) == Taken(ls, id) && multiset{} + Called(ls, id) == Called(ls, id);
  }

  lemma {:induction false} CalledInRun(ls: seq<Label>, id: LoopId, v: int)
    ensures v in Called(ls, id) <==> Of(id, Call(v)) in ls
  {
    if ls != [] {
      CalledInRun(ls[1..], id, v);
      assert ls == [ls[0]] + ls[1..];
    }
  }

  lemma {:induction false} CommandInLog(log: seq<Event>, i: nat)
    requires i < |log| && log[i].Accepted?
    ensures log[i].v in Commands(log)
  {
    if i < |log| - 1 {
      CommandInLog(log[..|log| - 1], i);
    }
  }

  /** No loop takes a command that nobody called. */
  lemma EveryCommandWasCalled(ls: seq<Label>, id: LoopId, i: nat)
    requires Run(INIT, ls).Some?
    requires i < |Get(Run(INIT, ls).value, id).log| && Get(Run(INIT, ls).value, id).log[i].Accepted?
    ensures Of(id, Call(Get(Run(INIT, ls).value, id).log[i].v)) in ls
  {
    var log := Get(Run(INIT, ls).value, id).log;
    CommandsAreCalls(ls, id);
    CommandInLog(log, i);
    CalledInRun(ls, id, log[i].v);
  }

  // ---------- Loops return when told to ----------

  /** What a step of one side can change about being told to return, and about having returned. */
  lemma SideStepTold(s: Side, l: SideLabel)
    requires SideEnabled(s, l)
    ensures SideApply(s, l).stopped <==> s.stopped || l.Stop?
    ensures SideApply(s, l).cancelled <==> s.cancelled || l.Cancelled?
    ensures Gone(SideApply(s, l)) ==> Gone(s) || s.stopped || s.cancelled
    ensures CtxDone in SideApply(s, l).choices ==> CtxDone in s.choices || s.cancelled
    ensures StopClosed in SideApply(s, l).choices ==> StopClosed in s.choices || s.stopped
  {
  }

  /** Where the closing of a loop's stop channel shows in a run. */
  function Closing(id: LoopId): Label { if id == CPU then CloseCPU else CloseMem }

  /** The loop is told to return exactly as the run shows, and has not returned untold. */
  ghost predicate Told(s: Side, ls: seq<Label>, id: LoopId) {
    && (s.stopped <==> Closing(id) in ls)
    && (s.cancelled <==> CancelContext in ls)
    && (Gone(s) ==> s.stopped || s.cancelled)
    && (CtxDone in s.choices ==> s.cancelled) && (StopClosed in s.choices ==> s.stopped)
  }

  lemma StepTold(s: State, ls: seq<Label>, l: Label, id: LoopId)
    requires Told(Get(s, id), ls, id) && Enabled(s, l)
    ensures Told(Get(Apply(s, l), id), ls + [l], id)
  {
    assert forall k :: k in ls + [l] <==> k in ls || k == l;
    match l
    case Of(i, sl) =>
      if i == id {
        SideStepTold(Get(s, id), sl);
      }
    case CancelContext => SideStepTold(Get(s, id), Cancelled);
    case CloseCPU => SideStepTold(s.cpu, Stop);
    case CloseMem => SideStepTold(s.mem, Stop);
    case WaitReturns =>
  }

  lemma {:induction false} RunTold(s: State, before: seq<Label>, ls: seq<Label>, id: LoopId)
    requires Told(Get(s, id), before, id) && Run(s, ls).Some?
    ensures Told(Get(Run(s, ls).value, id), before + ls, id)
    decreases ls
  {
    if ls == [] {
      assert before + ls == before;
    } else {
      StepTold(s, before, ls[0], id);
      RunTold(Apply(s, ls[0]), before + [ls[0]], ls[1..], id);
      assert before + [ls[0]] + ls[1..] == before + ls;
    }
  }

  /** A loop picks its stop channel only after that was closed and the context only after it was
      cancelled, and returns only after one or the other ... */
  lemma ReturnsOnlyWhenTold(ls: seq<Label>, id: LoopId)
    requires Run(INIT, ls).Some?
    ensures StopClosed in Get(Run(INIT, ls).value, id).choices ==> (if id == CPU then CloseCPU else CloseMem) in ls
    ensures CtxDone in Get(Run(INIT, ls).value, id).choices ==> CancelContext in ls
    ensures Get(Run(INIT, ls).value, id).pc in {Returning, Exited} ==>
              (if id == CPU then CloseCPU else CloseMem) in ls || CancelContext in ls
  {
    RunTold(INIT, [], ls, id);
    assert [] + ls == ls;
  }

  /** ... and whenever that has happened and it waits in its select, it can, whatever its value and
      whoever else waits on its channel. */
  lemma WaitingLoopCanReturnExactly(ls: seq<Label>, id: LoopId)
    requires Run(INIT, ls).Some? && Get(Run(INIT, ls).value, id).pc == Selecting
    ensures (exists l :: Enabled(Run(INIT, ls).value, Of(id, l))
                         && Get(Apply(Run(INIT, ls).value, Of(id, l)), id).pc in {Returning, Exited})
       <==> (if id == CPU then CloseCPU else CloseMem) in ls || CancelContext in ls
  {
    RunTold(INIT, [], ls, id);
    assert [] + ls == ls;
    var s := Run(INIT, ls).value;
    if Get(s, id).stopped {
      assert Enabled(s, Of(id, SeeStop)) && Get(Apply(s, Of(id, SeeStop)), id).pc == Returning;
    } else if Get(s, id).cancelled {
      assert Enabled(s, Of(id, SeeCancel)) && Get(Apply(s, Of(id, SeeCancel)), id).pc == Returning;
    } else {
      forall l | Enabled(s, Of(id, l))
        ensures Get(Apply(s, Of(id, l)), id).pc !in {Returning, Exited}
      {
        SideStepTold(Get(s, id), l);
      }
    }
  }
}
