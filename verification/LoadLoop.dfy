/**
 * One background load loop, seen by itself: what a sequence of `select` outcomes makes it do.
 * The CPU loop and the memory loop are this same loop over different channels.
 */
module LoadLoop {
  /** What one `select` picks. */
  datatype Choice = Take(v: int) | Tick | CtxDone | StopClosed

  datatype Event = Accepted(v: int) | TimerFired | PassBegin(v: int) | PassEnd(v: int)

  predicate Returns(c: Choice) { c.CtxDone? || c.StopClosed? }

  /** The loop's local variable after these choices: the latest command, or 0. */
  function ValueAfter(cs: seq<Choice>): int {
    if cs == [] then 0
    else if cs[|cs| - 1].Take? then cs[|cs| - 1].v
    else ValueAfter(cs[..|cs| - 1])
  }

  predicate Sends(value: int, c: Choice) { c.Take? || (c.Tick? && value > 0) }

  /** What one choice leaves in the log, given the value in force before it. */
  function Block(value: int, c: Choice): seq<Event> {
    match c
    case Take(v) => [Accepted(v), PassBegin(v), PassEnd(v)]
    case Tick => if value > 0 then [TimerFired, PassBegin(value), PassEnd(value)] else [TimerFired]
    case CtxDone => []
    case StopClosed => []
  }

  function LogOf(cs: seq<Choice>): seq<Event> {
    if cs == [] then []
    else LogOf(cs[..|cs| - 1]) + Block(ValueAfter(cs[..|cs| - 1]), cs[|cs| - 1])
  }

  lemma LogSnoc(cs: seq<Choice>, c: Choice)
    ensures LogOf(cs + [c]) == LogOf(cs) + Block(ValueAfter(cs), c)
    ensures ValueAfter(cs + [c]) == if c.Take? then c.v else ValueAfter(cs)
  {
    assert (cs + [c])[..|cs|] == cs;
  }

  lemma PrefixStep(script: seq<Choice>, k: nat)
    requires k < |script|
    ensures var cs, c := script[..k], script[k];
            && LogOf(script[..k + 1]) == LogOf(cs) + Block(ValueAfter(cs), c)
            && (Returns(c) ==> LogOf(script[..k + 1]) == LogOf(cs))
            && ValueAfter(script[..k + 1]) == if c.Take? then c.v else ValueAfter(cs)
  {
    assert script[..k + 1] == script[..k] + [script[k]];
    LogSnoc(script[..k], script[k]);
  }

  /** The goroutine: `script` is what successive selects would pick; the loop stops at the first
      returning choice and never looks past it. */
  method ConsumeLoop(script: seq<Choice>) returns (log: seq<Event>, used: nat)
    ensures used <= |script|
    ensures forall i :: 0 <= i < used - 1 ==> script[i] != CtxDone && script[i] != StopClosed
    ensures used < |script| ==> used > 0 && (script[used - 1] == CtxDone || script[used - 1] == StopClosed)
    ensures log == LogOf(script[..used])
  {
    log, used := [], 0;
    var value := 0;
    while used < |script|
      invariant 0 <= used <= |script|
      invariant forall i :: 0 <= i < used ==> !Returns(script[i])
      invariant value == ValueAfter(script[..used]) && log == LogOf(script[..used])
    {
      var c := script[used];
      PrefixStep(script, used);
      used := used + 1;
      match c
      case CtxDone =>
        return;
      case StopClosed =>
        return;
      case Take(v) =>
        value := v;
        log := log + [Accepted(v), PassBegin(v), PassEnd(v)];
      case Tick =>
        log := log + if value > 0 then [TimerFired, PassBegin(value), PassEnd(value)] else [TimerFired];
    }
  }

  // ---------- Command semantics, stated on the log alone ----------

  /** The latest command in a log, or 0. */
  function Latest(log: seq<Event>): int {
    if log == [] then 0
    else if log[|log| - 1].Accepted? then log[|log| - 1].v
    else Latest(log[..|log| - 1])
  }

  predicate Opens(e: Event) { e.Accepted? || e.TimerFired? }

  /** What a reader of the log relies on at position i. */
  ghost predicate LegalAt(log: seq<Event>, i: nat)
    requires i < |log|
  {
    match log[i]
    // An accepted command is followed by exactly one pass, with its value, before anything else is picked.
    case Accepted(v) =>
      i + 2 < |log| && log[i + 1] == PassBegin(v) && log[i + 2] == PassEnd(v)
      && (i + 3 < |log| ==> Opens(log[i + 3]))
    // A refresh re-sends the latest command if that is positive and otherwise sends nothing.
    case TimerFired =>
      if Latest(log[..i]) > 0 then
        i + 2 < |log| && log[i + 1] == PassBegin(Latest(log[..i])) && log[i + 2] == PassEnd(Latest(log[..i]))
        && (i + 3 < |log| ==> Opens(log[i + 3]))
      else
        i + 1 < |log| ==> Opens(log[i + 1])
    // No pass comes from nowhere, and passes do not overlap.
    case PassBegin(v) => i > 0 && Opens(log[i - 1]) && v == Latest(log[..i])
    case PassEnd(v) => i > 0 && log[i - 1] == PassBegin(v)
  }

  ghost predicate Legal(log: seq<Event>) {
    && (log != [] ==> Opens(log[0]))
    && forall i {:trigger LegalAt(log, i)} :: 0 <= i < |log| ==> LegalAt(log, i)
  }

  /** A block carries at most its first event as a command. */
  lemma LatestSkips(log: seq<Event>, block: seq<Event>)
    requires |block| <= 3
    requires forall i :: 0 < i < |block| ==> !block[i].Accepted?
    ensures Latest(log + block) == if block != [] && block[0].Accepted? then block[0].v else Latest(log)
  {
    if block == [] {
      assert log + block == log;
    } else {
      assert (log + block)[..|log| + |block| - 1] == log + block[..|block| - 1];
      LatestSkips(log, block[..|block| - 1]);
    }
  }

  lemma {:induction false} LatestOfLog(cs: seq<Choice>)
    ensures Latest(LogOf(cs)) == ValueAfter(cs)
  {
    if cs != [] {
      var init, c := cs[..|cs| - 1], cs[|cs| - 1];
      LatestOfLog(init);
      LatestSkips(LogOf(init), Block(ValueAfter(init), c));
    }
  }

  /** A block written after a log is legal there ... */
  lemma BlockIsLegal(earlier: seq<Event>, c: Choice, i: nat)
    requires |earlier| <= i < |earlier + Block(Latest(earlier), c)|
    ensures LegalAt(earlier + Block(Latest(earlier), c), i)
  {
    var block := Block(Latest(earlier), c);
    var log := earlier + block;
    assert log[..i] == earlier + block[..i - |earlier|];
    LatestSkips(earlier, block[..i - |earlier|]);
  }

  /** ... and what was legal before stays so. */
  lemma StaysLegal(earlier: seq<Event>, block: seq<Event>, i: nat)
    requires i < |earlier| && LegalAt(earlier, i) && (block != [] ==> Opens(block[0]))
    ensures LegalAt(earlier + block, i)
  {
    assert (earlier + block)[..i] == earlier[..i];
  }

  /** Every log a loop can write is legal. */
  lemma {:induction false} LogsAreLegal(cs: seq<Choice>)
    ensures Legal(LogOf(cs))
  {
    if cs != [] {
      var init, c := cs[..|cs| - 1], cs[|cs| - 1];
      LogsAreLegal(init);
      LatestOfLog(init);
      forall i | 0 <= i < |LogOf(cs)|
        ensures LegalAt(LogOf(cs), i)
      {
        if i < |LogOf(init)| {
          assert LegalAt(LogOf(init), i);
          StaysLegal(LogOf(init), Block(ValueAfter(init), c), i);
        } else {
          BlockIsLegal(LogOf(init), c, i);
        }
      }
    }
  }

  /** The last block of a legal log is what the loop writes for one more choice. */
  lemma BlockFrom(log: seq<Event>, n: nat)
    requires n < |log| && Opens(log[n]) && LegalAt(log, n)
    requires |log| == n + if log[n].Accepted? || Latest(log[..n]) > 0 then 3 else 1
    ensures log == log[..n] + Block(Latest(log[..n]), if log[n].Accepted? then Take(log[n].v) else Tick)
  {
    var value := Latest(log[..n]);
    if log[n].Accepted? {
      assert log[n..] == [log[n], log[n + 1], log[n + 2]];
    } else if value > 0 {
      assert log[n..] == [log[n], log[n + 1], log[n + 2]];
    } else {
      assert log[n..] == [log[n]];
    }
    assert log == log[..n] + log[n..];
  }

  /** Where the last block of a legal log starts. */
  lemma LastBlock(log: seq<Event>) returns (n: nat)
    requires Legal(log) && log != []
    ensures n < |log| && Opens(log[n])
    ensures |log| == n + if log[n].Accepted? || Latest(log[..n]) > 0 then 3 else 1
  {
    var last := |log| - 1;
    assert LegalAt(log, last);
    if Opens(log[last]) {
      return last;
    }
    assert LegalAt(log, last - 1);
    assert log[last].PassEnd?;
    assert LegalAt(log, last - 2);
    return last - 2;
  }

  lemma LegalPrefix(log: seq<Event>, n: nat)
    requires Legal(log) && n < |log| && Opens(log[n])
    ensures Legal(log[..n])
  {
    forall i | 0 <= i < n
      ensures LegalAt(log[..n], i)
    {
      assert LegalAt(log, i) && log[..n][..i] == log[..i];
      if i + 1 < |log| {
        assert LegalAt(log, i + 1);
      }
      if i + 2 < |log| {
        assert LegalAt(log, i + 2);
      }
    }
  }

  /** Conversely, every legal log is written by some sequence of choices: the two descriptions of the
      loop, by its steps and by what its log looks like, are the same. */
  lemma {:induction false} LegalLogsArise(log: seq<Event>) returns (cs: seq<Choice>)
    requires Legal(log)
    ensures LogOf(cs) == log && forall i :: 0 <= i < |cs| ==> !Returns(cs[i])
    decreases |log|
  {
    if log == [] {
      return [];
    }
    var n := LastBlock(log);
    assert LegalAt(log, n);
    LegalPrefix(log, n);
    cs := LegalLogsArise(log[..n]);
    LatestOfLog(cs);
    var c := if log[n].Accepted? then Take(log[n].v) else Tick;
    BlockFrom(log, n);
    LogSnoc(cs, c);
    cs := cs + [c];
  }

  // ---------- Logs and choices ----------

  /** What select picked, read off a log: a command for every accepted one, a tick for every timer. */
  function Picks(log: seq<Event>): seq<Choice> {
    if log == [] then []
    else
      Picks(log[..|log| - 1])
      + match log[|log| - 1]
        case Accepted(v) => [Take(v)]
        case TimerFired => [Tick]
        case _ => []
  }

  lemma PicksSnoc(log: seq<Event>, e: Event)
    ensures Picks(log + [e]) ==
              Picks(log) + if e.Accepted? then [Take(e.v)] else if e.TimerFired? then [Tick] else []
  {
    assert (log + [e])[..|log|] == log;
  }

  lemma PicksPass(log: seq<Event>, v: int)
    ensures Picks(log + [PassBegin(v), PassEnd(v)]) == Picks(log)
  {
    assert log + [PassBegin(v), PassEnd(v)] == log + [PassBegin(v)] + [PassEnd(v)];
    PicksSnoc(log, PassBegin(v));
    PicksSnoc(log + [PassBegin(v)], PassEnd(v));
  }

  lemma PicksOfBlock(log: seq<Event>, value: int, c: Choice)
    ensures Picks(log + Block(value, c)) == Picks(log) + if c.Take? || c.Tick? then [c] else []
  {
    match c
    case Take(v) =>
      assert log + Block(value, c) == log + [Accepted(v)] + [PassBegin(v), PassEnd(v)];
      PicksSnoc(log, Accepted(v));
      PicksPass(log + [Accepted(v)], v);
    case Tick =>
      PicksSnoc(log, TimerFired);
      if value > 0 {
        assert log + Block(value, c) == log + [TimerFired] + [PassBegin(value), PassEnd(value)];
        PicksPass(log + [TimerFired], value);
      }
    case _ =>
      assert log + [] == log;
  }

  /** Nothing picked is lost, altered or reordered: the choices of a loop that goes on can be read back
      from its log. */
  lemma {:induction false} ChoicesReadBack(cs: seq<Choice>)
    requires forall i :: 0 <= i < |cs| ==> cs[i] != CtxDone && cs[i] != StopClosed
    ensures Picks(LogOf(cs)) == cs
  {
    if cs != [] {
      var init, c := cs[..|cs| - 1], cs[|cs| - 1];
      ChoicesReadBack(init);
      PicksOfBlock(LogOf(init), ValueAfter(init), c);
    }
  }

  /** Before the first command nothing is sent, however many timers fire. */
  lemma {:induction false} NothingBeforeFirstCommand(cs: seq<Choice>)
    requires forall i :: 0 <= i < |cs| ==> !cs[i].Take?
    ensures ValueAfter(cs) == 0
    ensures forall i :: 0 <= i < |LogOf(cs)| ==> LogOf(cs)[i] == TimerFired
  {
    if cs != [] {
      NothingBeforeFirstCommand(cs[..|cs| - 1]);
    }
  }
}
