/** What every run of the interrupt driver guarantees to its readers. */
module WaitFlagRuns {
  import opened Schedules
  import opened WaitFlag

  lemma Reachable(readers: nat, handlers: nat, schedule: seq<Actor>)
    ensures Inv(Run(Initial(readers, handlers), schedule))
  {
    InitialInv(readers, handlers);
    RunKeepsInv(Initial(readers, handlers), schedule);
  }

  ghost function Log(readers: nat, handlers: nat, schedule: seq<Actor>): seq<Event> {
    Run(Initial(readers, handlers), schedule).log
  }

  /** No reader consumes the same interrupt twice: between any two of its clears an interrupt sets the flag. */
  lemma InterruptBetweenClears(readers: nat, handlers: nat, schedule: seq<Actor>, i: nat, j: nat)
    requires var log := Log(readers, handlers, schedule);
      i < j < |log| && log[i].Cleared? && log[j] == log[i]
    ensures exists k :: i < k < j && Log(readers, handlers, schedule)[k].Raised?
  {
    Reachable(readers, handlers, schedule);
  }

  /** Between two returns of a reader an interrupt sets the flag, unless that interrupt came after the clear
      that led to the first of them, just before the return. */
  lemma InterruptBetweenReturns(readers: nat, handlers: nat, schedule: seq<Actor>, i: nat, j: nat)
    requires var log := Log(readers, handlers, schedule);
      i < j < |log| && log[i].Returned? && log[j] == log[i]
    ensures var log := Log(readers, handlers, schedule);
      exists c, k :: c < i && c < k < j && 0 <= c && log[c] == Cleared(log[i].r)
        && Unreturned(log[..i], log[i].r, c) && log[k].Raised?
  {
    Reachable(readers, handlers, schedule);
    var c, k := BetweenReturns(Log(readers, handlers, schedule), i, j);
  }

  lemma BetweenReturns(log: seq<Event>, i: nat, j: nat) returns (c: nat, k: nat)
    requires ClearsSeparated(log) && ReturnsPaired(log)
    requires i < j < |log| && log[i].Returned? && log[j] == log[i]
    ensures c < i && c < k < j && log[c] == Cleared(log[i].r) && Unreturned(log[..i], log[i].r, c) && log[k].Raised?
  {
    c := ClearOf(log, i);
    var d := ClearOf(log, j);
    ClearedAfter(log, i, j, d);
    k := InterruptBetween(log, c, d);
  }

  /** The clear before the second return comes after the first return. */
  lemma ClearedAfter(log: seq<Event>, i: nat, j: nat, d: nat)
    requires i < j < |log| && d < j && log[i].Returned? && log[d].Cleared? && Unreturned(log[..j], log[i].r, d)
    ensures d > i
  {
    assert log[..j][i] == Returned(log[i].r);
  }

  lemma InterruptBetween(log: seq<Event>, c: nat, d: nat) returns (k: nat)
    requires ClearsSeparated(log) && c < d < |log| && log[c].Cleared? && log[d] == log[c]
    ensures c < k < d && log[k].Raised?
  {
    k :| c < k < d && log[k].Raised?;
  }

  /** The clear a return belongs to. */
  lemma ClearOf(log: seq<Event>, j: nat) returns (c: nat)
    requires ReturnsPaired(log) && j < |log| && log[j].Returned?
    ensures c < j && log[c] == Cleared(log[j].r) && Unreturned(log[..j], log[j].r, c)
  {
    c :| 0 <= c < j && log[c] == Cleared(log[j].r) && Unreturned(log[..j], log[j].r, c);
  }

  /** One more turn at the end of a run. */
  lemma Turn(s0: State, schedule: seq<Actor>, s: State, a: Actor, s': State)
    requires Run(s0, schedule) == s && Next(s, a) == s'
    ensures Run(s0, schedule + [a]) == s'
  {
    RunAppend(s0, schedule, [a]);
    assert Run(s, [a]) == Run(s', []);
  }

  /** The exception is real: one reader returns twice in a row with no interrupt between its returns. */
  lemma ReturnsWithoutInterruptBetween() returns (t: seq<Actor>)
    ensures Log(1, 1, t) == [Raised(0), Cleared(0), Raised(0), Returned(0), Cleared(0), Returned(0)]
  {
    var r, h, s0 := ReaderTurn(0), HandlerTurn(0), Initial(1, 1);
    var log1, log2 := [Raised(0)], [Raised(0), Cleared(0)];
    var log3, log4 := log2 + [Raised(0)], log2 + [Raised(0), Returned(0)];
    t := [];
    assert s0 == State(0, [Reader.Idle], [Handler.Idle], []);
    Turn(s0, t, s0, h, State(0, [Reader.Idle], [Raise], [])); t := t + [h];
    Turn(s0, t, State(0, [Reader.Idle], [Raise], []), h, State(1, [Reader.Idle], [Wake], log1)); t := t + [h];
    Turn(s0, t, State(1, [Reader.Idle], [Wake], log1), h, State(1, [Reader.Idle], [Handler.Idle], log1)); t := t + [h];
    Turn(s0, t, State(1, [Reader.Idle], [Handler.Idle], log1), r, State(1, [FirstTest], [Handler.Idle], log1));
    t := t + [r];
    Turn(s0, t, State(1, [FirstTest], [Handler.Idle], log1), r, State(1, [Clear], [Handler.Idle], log1)); t := t + [r];
    Turn(s0, t, State(1, [Clear], [Handler.Idle], log1), r, State(0, [Return], [Handler.Idle], log2)); t := t + [r];
    Turn(s0, t, State(0, [Return], [Handler.Idle], log2), h, State(0, [Return], [Raise], log2)); t := t + [h];
    Turn(s0, t, State(0, [Return], [Raise], log2), h, State(1, [Return], [Wake], log3)); t := t + [h];
    Turn(s0, t, State(1, [Return], [Wake], log3), r, State(1, [Reader.Idle], [Wake], log4)); t := t + [r];
    Turn(s0, t, State(1, [Reader.Idle], [Wake], log4), r, State(1, [FirstTest], [Wake], log4)); t := t + [r];
    Turn(s0, t, State(1, [FirstTest], [Wake], log4), r, State(1, [Clear], [Wake], log4)); t := t + [r];
    Turn(s0, t, State(1, [Clear], [Wake], log4), r, State(0, [Return], [Wake], log4 + [Cleared(0)])); t := t + [r];
    Turn(s0, t, State(0, [Return], [Wake], log4 + [Cleared(0)]), r,
      State(0, [Reader.Idle], [Wake], log4 + [Cleared(0), Returned(0)])); t := t + [r];
  }

  lemma {:induction false} RunAppend(s: State, a: seq<Actor>, b: seq<Actor>)
    ensures Run(s, a + b) == Run(Run(s, a), b)
    decreases |a|
  {
    if a == [] {
      assert a + b == b;
    } else {
      RunAppend(Next(s, a[0]), a[1..], b);
      assert (a + b)[1..] == a[1..] + b;
    }
  }

  lemma {:induction false} LogGrows(s: State, schedule: seq<Actor>)
    ensures s.log <= Run(s, schedule).log
    decreases |schedule|
  {
    if schedule != [] { LogGrows(Next(s, schedule[0]), schedule[1..]); }
  }

  /** The events a schedule adds. */
  ghost function NewEvents(s: State, schedule: seq<Actor>): seq<Event> {
    LogGrows(s, schedule);
    Run(s, schedule).log[|s.log|..]
  }

  ghost predicate HasInterrupt(events: seq<Event>) {
    exists k :: 0 <= k < |events| && events[k].Raised?
  }

  /** Reader r does not return again before the next interrupt, whatever is scheduled. */
  ghost predicate NeedsInterrupt(s: State, r: nat) {
    forall t :: Returned(r) in NewEvents(s, t) ==> HasInterrupt(NewEvents(s, t))
  }

  lemma NewEventsOfTurn(s: State, schedule: seq<Actor>)
    requires schedule != []
    ensures NewEvents(s, schedule) == NewEvents(s, [schedule[0]]) + NewEvents(Next(s, schedule[0]), schedule[1..])
    ensures NewEvents(s, [schedule[0]]) == Next(s, schedule[0]).log[|s.log|..]
  {
    LogGrows(Next(s, schedule[0]), schedule[1..]);
    assert Run(s, [schedule[0]]) == Run(Next(s, schedule[0]), []);
  }

  lemma {:induction false} NoReturnWhileClear(s: State, r: nat, t: seq<Actor>)
    requires r < |s.readers| && s.flag == 0 && !s.readers[r].Clear? && !s.readers[r].Return?
    ensures Returned(r) in NewEvents(s, t) ==> HasInterrupt(NewEvents(s, t))
    decreases |t|
  {
    if t != [] {
      NewEventsOfTurn(s, t);
      var first, rest := NewEvents(s, [t[0]]), NewEvents(Next(s, t[0]), t[1..]);
      var s' := Next(s, t[0]);
      if t[0].HandlerTurn? && t[0].h < |s.handlers| && s.handlers[t[0].h].Raise? {
        assert NewEvents(s, t)[0] == Raised(t[0].h);
      } else {
        NoReturnWhileClear(s', r, t[1..]);
        if HasInterrupt(rest) {
          var k :| 0 <= k < |rest| && rest[k].Raised?;
          assert NewEvents(s, t)[|first| + k].Raised?;
        }
      }
    }
  }

  lemma ReturnsAtOnce(s: State, r: nat) returns (t: seq<Actor>)
    requires r < |s.readers| && s.readers[r].Idle? && s.flag != 0
    ensures NewEvents(s, t) == [Cleared(r), Returned(r)]
  {
    var a := ReaderTurn(r);
    t := [];
    var s1 := s.(readers := s.readers[r := FirstTest]);
    var s2 := s.(readers := s.readers[r := Clear]);
    var s3 := s.(flag := 0, readers := s.readers[r := Return], log := s.log + [Cleared(r)]);
    Turn(s, t, s, a, s1); t := t + [a];
    Turn(s, t, s1, a, s2); t := t + [a];
    Turn(s, t, s2, a, s3); t := t + [a];
    Turn(s, t, s3, a, s3.(readers := s.readers[r := Reader.Idle], log := s.log + [Cleared(r)] + [Returned(r)]));
    t := t + [a];
  }

  /** A reader that is not inside the call, such as one that has just returned, waits for a further
      interrupt exactly when the flag is clear at that moment. */
  lemma NeedsInterruptIffFlagClear(s: State, r: nat)
    requires r < |s.readers| && s.readers[r].Idle?
    ensures NeedsInterrupt(s, r) <==> s.flag == 0
  {
    if s.flag == 0 {
      forall t
        ensures Returned(r) in NewEvents(s, t) ==> HasInterrupt(NewEvents(s, t))
      {
        NoReturnWhileClear(s, r, t);
      }
    } else {
      var t := ReturnsAtOnce(s, r);
      assert NewEvents(s, t)[1] == Returned(r);
      assert !HasInterrupt(NewEvents(s, t));
    }
  }

  /** No interrupt is lost: after it either the flag is still set, or a later clear took it, and the reader
      that cleared has returned since or is about to. */
  lemma InterruptConsumed(readers: nat, handlers: nat, schedule: seq<Actor>, i: nat)
    requires i < |Log(readers, handlers, schedule)| && Log(readers, handlers, schedule)[i].Raised?
    ensures var s := Run(Initial(readers, handlers), schedule);
      || s.flag != 0
      || exists c :: i < c < |s.log| && s.log[c].Cleared?
           && (!Unreturned(s.log, s.log[c].r, c) || (s.log[c].r < readers && s.readers[s.log[c].r].Return?))
  {
    Reachable(readers, handlers, schedule);
    var s := Run(Initial(readers, handlers), schedule);
    if s.flag == 0 {
      var c := ClearAfter(s.log, i);
    }
  }

  lemma {:induction false} ClearAfter(log: seq<Event>, i: nat) returns (c: nat)
    requires i < |log| && log[i].Raised? && !FlagSet(log)
    ensures i < c < |log| && log[c].Cleared?
    decreases |log|
  {
    var last := |log| - 1;
    if log[last].Cleared? {
      c := last;
    } else {
      assert log[last].Returned?;
      c := ClearAfter(log[..last], i);
    }
  }

  /** No lost wake-up: while the flag is set, a reader that is still asleep has been woken or is about to be. */
  lemma NoLostWakeUp(readers: nat, handlers: nat, schedule: seq<Actor>, r: nat)
    requires r < readers
    requires var s := Run(Initial(readers, handlers), schedule); s.flag != 0 && s.readers[r].Asleep?
    ensures var s := Run(Initial(readers, handlers), schedule); s.readers[r].woken || WakeUpDue(s)
  {
    Reachable(readers, handlers, schedule);
  }

  /** On the wait queue: from enqueueing to being taken off by a wake-up. */
  predicate Queued(reader: Reader) {
    (reader.Retest? || reader.Asleep?) && !reader.woken
  }

  /** A wake-up takes every reader off the queue and leaves the others alone; only readers put themselves on it,
      and only before they test the flag again. */
  lemma WakeUpEmptiesQueue(s: State, h: nat)
    requires h < |s.handlers| && s.handlers[h].Wake?
    ensures var s' := Next(s, HandlerTurn(h));
      && s'.flag == s.flag && s'.log == s.log
      && forall r :: 0 <= r < |s.readers| ==>
           && !Queued(s'.readers[r])
           && if Queued(s.readers[r]) then s'.readers[r] == s.readers[r].(woken := true)
              else s'.readers[r] == s.readers[r]
  {
  }

  /** A reader tests the flag once before it first enqueues; every later test is made by a reader that has
      enqueued since it last slept. */
  lemma LaterTestsAreQueued(s: State, a: Actor, r: nat)
    requires r < |s.readers|
    ensures Next(s, a).readers[r].FirstTest? && !s.readers[r].FirstTest? ==> s.readers[r].Idle?
    ensures Next(s, a).readers[r].Retest? && !s.readers[r].Retest? ==>
      s.readers[r].Prepare? && Queued(Next(s, a).readers[r])
    ensures Next(s, a).readers[r].Asleep? && !s.readers[r].Asleep? ==> s.readers[r].Retest? && s.flag == 0
    ensures s.readers[r].Asleep? && !Next(s, a).readers[r].Asleep? ==> s.readers[r].woken
  {
  }

  // ---- An interrupt gets a waiting reader through ----

  function Returns(log: seq<Event>): nat {
    if log == [] then 0 else Returns(log[..|log| - 1]) + (if log[|log| - 1].Returned? then 1 else 0)
  }

  /** Turns a reader inside the call needs before its return, while the flag stays set. */
  function Stage(reader: Reader): nat {
    match reader
    case Idle => 7
    case FirstTest => 3
    case Prepare => 4
    case Retest(_) => 3
    case Asleep(woken) => if woken then 5 else 6
    case Clear => 2
    case Return => 1
  }

  ghost predicate SomeoneReturning(s: State) {
    exists q :: 0 <= q < |s.readers| && s.readers[q].Return?
  }

  /** A return is at most k blocks away: some reader is about to return, or the flag is set and reader r is near. */
  ghost predicate Near(s: State, r: nat, k: nat) {
    || (k >= 1 && SomeoneReturning(s))
    || (s.flag != 0 && r < |s.readers| && !s.readers[r].Idle? && Stage(s.readers[r]) <= k)
  }

  /** The turn of actor a brings the return nearer. */
  ghost predicate Helps(s: State, r: nat, k: nat, a: Actor) {
    || (k >= 1 && a.ReaderTurn? && a.r < |s.readers| && s.readers[a.r].Return?)
    || (s.flag != 0 && r < |s.readers| && !s.readers[r].Idle? && Stage(s.readers[r]) <= k
        && if s.readers[r] == Asleep(false) then a.HandlerTurn? && a.h < |s.handlers| && s.handlers[a.h].Wake?
           else a == ReaderTurn(r))
  }

  lemma SomeoneHelps(s: State, r: nat, k: nat) returns (a: Actor)
    requires Inv(s) && Near(s, r, k)
    ensures Helps(s, r, k, a)
    ensures a.ReaderTurn? ==> a.r < |s.readers|
    ensures a.HandlerTurn? ==> a.h < |s.handlers|
  {
    if k >= 1 && SomeoneReturning(s) {
      var q :| 0 <= q < |s.readers| && s.readers[q].Return?;
      a := ReaderTurn(q);
    } else if s.readers[r] == Asleep(false) {
      assert WakeUpDue(s);
      var h :| 0 <= h < |s.handlers| && s.handlers[h].Wake?;
      a := HandlerTurn(h);
    } else {
      a := ReaderTurn(r);
    }
  }

  lemma OneMoreEvent(log: seq<Event>, e: Event)
    ensures Returns(log + [e]) == Returns(log) + (if e.Returned? then 1 else 0)
  {
    assert (log + [e])[..|log|] == log;
  }

  lemma ReturnsGrow(s: State, a: Actor)
    ensures Returns(Next(s, a).log) == Returns(s.log)
      + if a.ReaderTurn? && a.r < |s.readers| && s.readers[a.r].Return? then 1 else 0
  {
    var s' := Next(s, a);
    if s'.log != s.log {
      var e := s'.log[|s.log|];
      assert s'.log == s.log + [e];
      OneMoreEvent(s.log, e);
    }
  }

  lemma HelpfulTurn(s: State, r: nat, k: nat, a: Actor)
    requires k >= 1 && Helps(s, r, k, a)
    ensures Returns(Next(s, a).log) > Returns(s.log) || Near(Next(s, a), r, k - 1)
  {
    ReturnsGrow(s, a);
    var s' := Next(s, a);
    if !(a.ReaderTurn? && s.readers[a.r].Return?) && a.ReaderTurn? {
      assert s.readers[a.r].Clear? ==> s'.readers[a.r].Return?;
    }
  }

  lemma OtherTurnKeepsHelp(s: State, r: nat, k: nat, a: Actor, b: Actor)
    requires k >= 1 && Helps(s, r, k, a) && b != a
    ensures Returns(Next(s, b).log) > Returns(s.log) || Near(Next(s, b), r, k - 1) || Helps(Next(s, b), r, k, a)
  {
    if b.ReaderTurn? { OtherReaderKeepsHelp(s, r, k, a, b); } else { OtherHandlerKeepsHelp(s, r, k, a, b); }
  }

  /** Another reader may clear the flag; then it is about to return itself. */
  lemma OtherReaderKeepsHelp(s: State, r: nat, k: nat, a: Actor, b: Actor)
    requires k >= 1 && Helps(s, r, k, a) && b != a && b.ReaderTurn?
    ensures Returns(Next(s, b).log) > Returns(s.log) || Near(Next(s, b), r, k - 1) || Helps(Next(s, b), r, k, a)
  {
    ReturnsGrow(s, b);
    var s' := Next(s, b);
    if b.r < |s.readers| && s.readers[b.r].Clear? {
      assert s'.readers[b.r].Return?;
    } else if k >= 1 && a.ReaderTurn? && a.r < |s.readers| && s.readers[a.r].Return? {
      assert s'.readers[a.r].Return?;
    } else {
      assert s'.flag == s.flag && s'.handlers == s.handlers && s'.readers[r] == s.readers[r];
    }
  }

  lemma OtherHandlerKeepsHelp(s: State, r: nat, k: nat, a: Actor, b: Actor)
    requires k >= 1 && Helps(s, r, k, a) && b != a && b.HandlerTurn?
    ensures Near(Next(s, b), r, k - 1) || Helps(Next(s, b), r, k, a)
  {
  }

  lemma TurnKeepsNear(s: State, r: nat, k: nat, b: Actor)
    requires Near(s, r, k)
    ensures Returns(Next(s, b).log) > Returns(s.log) || Near(Next(s, b), r, k)
  {
    if k >= 1 && SomeoneReturning(s) {
      TurnKeepsReturning(s, b);
    } else {
      TurnWhileFlagSet(s, r, k, b);
    }
  }

  lemma TurnKeepsReturning(s: State, b: Actor)
    requires SomeoneReturning(s)
    ensures Returns(Next(s, b).log) > Returns(s.log) || SomeoneReturning(Next(s, b))
  {
    ReturnsGrow(s, b);
    var q :| 0 <= q < |s.readers| && s.readers[q].Return?;
    if b != ReaderTurn(q) { assert Next(s, b).readers[q].Return?; }
  }

  lemma TurnWhileFlagSet(s: State, r: nat, k: nat, b: Actor)
    requires s.flag != 0 && r < |s.readers| && !s.readers[r].Idle? && Stage(s.readers[r]) <= k
    ensures Returns(Next(s, b).log) > Returns(s.log) || Near(Next(s, b), r, k)
  {
    ReturnsGrow(s, b);
    if b.ReaderTurn? && b.r < |s.readers| && s.readers[b.r].Clear? {
      assert Next(s, b).readers[b.r].Return?;
    }
  }

  lemma {:induction false} BlockKeepsNear(s: State, r: nat, k: nat, block: seq<Actor>)
    requires Near(s, r, k)
    ensures Returns(Run(s, block).log) > Returns(s.log) || Near(Run(s, block), r, k)
    decreases |block|
  {
    if block != [] {
      TurnKeepsNear(s, r, k, block[0]);
      NeverFewerReturns(Next(s, block[0]), block[1..]);
      if Near(Next(s, block[0]), r, k) {
        ReturnsGrow(s, block[0]);
        BlockKeepsNear(Next(s, block[0]), r, k, block[1..]);
      }
    }
  }

  lemma {:induction false} NeverFewerReturns(s: State, block: seq<Actor>)
    ensures Returns(Run(s, block).log) >= Returns(s.log)
    decreases |block|
  {
    if block != [] {
      ReturnsGrow(s, block[0]);
      NeverFewerReturns(Next(s, block[0]), block[1..]);
    }
  }

  lemma {:induction false} HelpInBlock(s: State, r: nat, k: nat, a: Actor, block: seq<Actor>)
    requires k >= 1 && Helps(s, r, k, a) && a in block
    ensures Returns(Run(s, block).log) > Returns(s.log) || Near(Run(s, block), r, k - 1)
    decreases |block|
  {
    var s', rest := Next(s, block[0]), block[1..];
    ReturnsGrow(s, block[0]);
    NeverFewerReturns(s', rest);
    if block[0] == a { HelpfulTurn(s, r, k, a); } else { OtherTurnKeepsHelp(s, r, k, a, block[0]); }
    if Near(s', r, k - 1) {
      BlockKeepsNear(s', r, k - 1, rest);
    } else if Returns(s'.log) == Returns(s.log) {
      HelpInBlock(s', r, k, a, rest);
    }
  }

  ghost predicate Fair(s: State, block: seq<Actor>) {
    && (forall r :: 0 <= r < |s.readers| ==> ReaderTurn(r) in block)
    && (forall h :: 0 <= h < |s.handlers| ==> HandlerTurn(h) in block)
  }

  lemma {:induction false} ReturnComes(s: State, r: nat, k: nat, blocks: seq<seq<Actor>>)
    requires Inv(s) && Near(s, r, k) && |blocks| >= k
    requires forall b :: 0 <= b < |blocks| ==> Fair(s, blocks[b])
    ensures Returns(Run(s, Concat(blocks)).log) > Returns(s.log)
    decreases k
  {
    assert k >= 1;
    var a := SomeoneHelps(s, r, k);
    assert Fair(s, blocks[0]);
    var s', rest := Run(s, blocks[0]), blocks[1..];
    RunKeepsInv(s, blocks[0]);
    HelpInBlock(s, r, k, a, blocks[0]);
    RunAppend(s, blocks[0], Concat(rest));
    NeverFewerReturns(s, blocks[0]);
    NeverFewerReturns(s', Concat(rest));
    if Returns(s'.log) == Returns(s.log) {
      ReturnComes(s', r, k - 1, rest);
    }
  }

  /** Once the flag is set while reader r is inside the call, six rounds of any fair schedule bring
      some reader's return, whatever other readers and interrupts do meanwhile. */
  lemma InterruptWakesAReader(readers: nat, handlers: nat, schedule: seq<Actor>, r: nat, blocks: seq<seq<Actor>>)
    requires var s := Run(Initial(readers, handlers), schedule);
      && r < readers && s.flag != 0 && !s.readers[r].Idle?
      && |blocks| >= 6 && forall b :: 0 <= b < |blocks| ==> Fair(s, blocks[b])
    ensures var s := Run(Initial(readers, handlers), schedule);
      Returns(Run(s, Concat(blocks)).log) > Returns(s.log)
  {
    Reachable(readers, handlers, schedule);
    ReturnComes(Run(Initial(readers, handlers), schedule), r, 6, blocks);
  }
}
