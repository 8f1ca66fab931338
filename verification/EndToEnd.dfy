/** The pieces of the resource consumer put together: protocol, passes and clock. */
module EndToEnd {
  import opened Common
  import opened LoadSplit
  import opened LoadLoop
  import opened LeaseTiming
  import opened ConsumerProtocol

  lemma LatestStep(log: seq<Event>, i: nat)
    requires 0 < i <= |log|
    ensures Latest(log[..i]) == if log[i - 1].Accepted? then log[i - 1].v else Latest(log[..i - 1])
  {
    assert log[..i][..i - 1] == log[..i - 1];
  }

  /** In every interleaving, whatever pods a pass finds and whatever requests fail, the load it gets
      acknowledged is at most the loop's latest command, and no pass is made for a refresh of a
      command that is not positive. */
  lemma NoPassExceedsLatestCommand(s: State, id: LoopId, i: nat, svc: string, w: World)
    requires Reachable(s) && i < |Get(s, id).log| && Get(s, id).log[i].PassBegin?
    ensures var log := Get(s, id).log;
            && log[i].v == Latest(log[..i])
            && (log[i].v >= 0 ==> 0 <= AckedLoad(PassLog(svc, w, log[i].v)) <= Latest(log[..i]))
            && (log[i].v <= 0 ==> i > 0 && log[i - 1] == Accepted(log[i].v))
  {
    EveryLogIsLegal(s, id);
    var log, closed := Get(s, id).log, Closed(Get(s, id));
    assert LegalAt(closed, i) && closed[..i] == log[..i];
    assert LegalAt(closed, i - 1) && closed[..i - 1] == log[..i - 1] && closed[i - 1] == log[i - 1];
    LatestStep(log, i);
    if log[i].v >= 0 {
      AckedNeverExceeds(svc, w, log[i].v);
    }
  }

  /** The labels of one loop for a timed history: each command is called and accepted, each pass ends. */
  function LabelsOf(ts: seq<Turn>): seq<SideLabel> {
    if ts == [] then []
    else
      var n := |ts| - 1;
      LabelsOf(ts[..n])
      + match ts[n].choice
        case Take(v) => [Call(v), Accept(v), EndPass]
        case Tick => if ValueAfter(Choices(ts[..n])) > 0 then [Timer, EndPass] else [Timer]
        case _ => []
  }

  lemma {:induction false} SideRunConcat(s: Side, a: seq<SideLabel>, b: seq<SideLabel>)
    ensures SideRun(s, a + b) == match SideRun(s, a) case None => None case Some(m) => SideRun(m, b)
    decreases a
  {
    if a == [] {
      assert a + b == b;
    } else {
      assert (a + b)[0] == a[0] && (a + b)[1..] == a[1..] + b;
      if SideEnabled(s, a[0]) {
        SideRunConcat(SideApply(s, a[0]), a[1..], b);
      }
    }
  }

  const READY_SIDE := INIT_SIDE.(pc := Selecting)

  lemma TimedPrefix(start: real, ts: seq<Turn>, n: nat)
    requires Timed(start, ts) && n <= |ts|
    ensures Timed(start, ts[..n])
  {
    forall i | 0 <= i < n
      ensures TimedAt(start, ts[..n], i)
    {
      assert TimedAt(start, ts, i);
      assert Choices(ts[..n])[..i] == Choices(ts)[..i];
    }
  }

  lemma OneCommand(s: Side, v: int)
    requires s.pc == Selecting && s.pending == multiset{}
    ensures SideRun(s, [Call(v), Accept(v), EndPass])
         == Some(s.(choices := s.choices + [Take(v)], log := s.log + Block(s.value, Take(v)), value := v))
  {
    var s1 := SideApply(s, Call(v));
    var s2 := SideApply(s1, Accept(v));
    var s3 := SideApply(s2, EndPass);
    var ls := [Call(v), Accept(v), EndPass];
    assert ls[1..] == [Accept(v), EndPass] && ls[1..][1..] == [EndPass] && ls[1..][1..][1..] == [];
    assert SideRun(s2, [EndPass]) == SideRun(s3, []);
    assert SideRun(s1, ls[1..]) == SideRun(s2, [EndPass]);
    assert s3.log == s.log + Block(s.value, Take(v)) && s3.pending == multiset{};
  }

  lemma OneTimer(s: Side)
    requires s.pc == Selecting
    ensures SideRun(s, if s.value > 0 then [Timer, EndPass] else [Timer])
         == Some(s.(choices := s.choices + [Tick], log := s.log + Block(s.value, Tick)))
  {
    if s.value > 0 {
      var s1 := SideApply(s, Timer);
      var s2 := SideApply(s1, EndPass);
      assert [Timer, EndPass][1..] == [EndPass] && [EndPass][1..] == [];
      assert SideRun(s1, [EndPass]) == SideRun(s2, []);
      assert s2.log == s.log + Block(s.value, Tick);
    } else {
      assert [Timer][1..] == [];
    }
  }

  /** One turn of a loop with nobody else waiting on its channel. */
  lemma OneTurn(s: Side, c: Choice)
    requires s.pc == Selecting && s.pending == multiset{} && (c.Take? || c.Tick?)
    ensures var ls := if c.Take? then [Call(c.v), Accept(c.v), EndPass]
                      else if s.value > 0 then [Timer, EndPass] else [Timer];
            SideRun(s, ls) == Some(s.(choices := s.choices + [c], log := s.log + Block(s.value, c),
                                      value := if c.Take? then c.v else s.value))
  {
    if c.Take? {
      OneCommand(s, c.v);
    } else {
      OneTimer(s);
    }
  }

  /** The timed histories are runs of the protocol: every one is a run of a loop by itself, back in its
      select, with the same choices and hence the same passes. */
  lemma {:induction false} TimedHistoriesAreRuns(start: real, ts: seq<Turn>)
    requires Timed(start, ts)
    ensures var r := SideRun(READY_SIDE, LabelsOf(ts));
            && r.Some? && r.value.pc == Selecting && r.value.pending == multiset{}
            && r.value.choices == Choices(ts) && r.value.value == ValueAfter(Choices(ts))
            && r.value.log == LogOf(Choices(ts))
  {
    if ts != [] {
      var n := |ts| - 1;
      var init, c := ts[..n], ts[n].choice;
      TimedPrefix(start, ts, n);
      TimedHistoriesAreRuns(start, init);
      assert TimedAt(start, ts, n);
      assert Choices(ts) == Choices(init) + [c];
      LogSnoc(Choices(init), c);
      var s := SideRun(READY_SIDE, LabelsOf(init)).value;
      var ls := LabelsOf(ts)[|LabelsOf(init)|..];
      assert LabelsOf(ts) == LabelsOf(init) + ls;
      SideRunConcat(READY_SIDE, LabelsOf(init), ls);
      OneTurn(s, c);
    }
  }

  /** The latest command of a log, if it is not 0, is in it. */
  lemma {:induction false} LatestIsThere(log: seq<Event>) returns (i: nat)
    requires Latest(log) != 0
    ensures i < |log| && log[i] == Accepted(Latest(log))
  {
    if log[|log| - 1].Accepted? {
      i := |log| - 1;
    } else {
      i := LatestIsThere(log[..|log| - 1]);
    }
  }

  /** In every interleaving each pass sends a value with which somebody called: nothing is sent that was
      not asked for. */
  lemma PassesSendWhatWasCalled(ls: seq<Label>, id: LoopId, i: nat)
    requires Run(INIT, ls).Some?
    requires i < |Get(Run(INIT, ls).value, id).log| && Get(Run(INIT, ls).value, id).log[i].PassBegin?
    ensures Of(id, Call(Get(Run(INIT, ls).value, id).log[i].v)) in ls
  {
    var s := Run(INIT, ls).value;
    var log := Get(s, id).log;
    assert Reachable(s);
    EveryLogIsLegal(s, id);
    assert LegalAt(Closed(Get(s, id)), i) && Closed(Get(s, id))[..i] == log[..i];
    if log[i - 1].Accepted? {
      LatestStep(log, i);
      EveryCommandWasCalled(ls, id, i - 1);
    } else {
      assert LegalAt(Closed(Get(s, id)), i - 1) && Closed(Get(s, id))[..i - 1] == log[..i - 1];
      var j := LatestIsThere(log[..i - 1]);
      LatestStep(log, i);
      EveryCommandWasCalled(ls, id, j);
    }
  }
}
