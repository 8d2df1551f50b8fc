/** The interrupt wait flag: any number of threads read the device, any number of cores run the interrupt
    handler. `wait_event_interruptible` is its standard loop: test, enqueue on the wait queue, test again,
    sleep until woken. No signals arrive. Every access to the flag and to the queue is one atomic step. */
module WaitFlag {

  /** Retest and Asleep remember whether a wake-up has already taken the reader off the wait queue. */
  datatype Reader = Idle | FirstTest | Prepare | Retest(woken: bool) | Asleep(woken: bool) | Clear | Return
  datatype Handler = Idle | Raise | Wake

  datatype Event = Raised(h: nat) | Cleared(r: nat) | Returned(r: nat)

  datatype State = State(flag: int, readers: seq<Reader>, handlers: seq<Handler>, log: seq<Event>)

  datatype Actor = ReaderTurn(r: nat) | HandlerTurn(h: nat)

  function Initial(readers: nat, handlers: nat): State {
    State(0, seq(readers, _ => Reader.Idle), seq(handlers, _ => Handler.Idle), [])
  }

  /** enzian_fpi_read. */
  function StepReader(s: State, r: nat): State
    requires r < |s.readers|
  {
    match s.readers[r]
    case Idle => s.(readers := s.readers[r := FirstTest])
    case FirstTest => s.(readers := s.readers[r := if s.flag != 0 then Clear else Prepare])
    case Prepare => s.(readers := s.readers[r := Retest(false)])
    case Retest(woken) => s.(readers := s.readers[r := if s.flag != 0 then Clear else Asleep(woken)])
    case Asleep(woken) => if woken then s.(readers := s.readers[r := Prepare]) else s
    case Clear => s.(flag := 0, readers := s.readers[r := Return], log := s.log + [Cleared(r)])
    case Return => s.(readers := s.readers[r := Reader.Idle], log := s.log + [Returned(r)])
  }

  function Woken(reader: Reader): Reader {
    match reader
    case Retest(_) => Retest(true)
    case Asleep(_) => Asleep(true)
    case _ => reader
  }

  /** fpi_handler, from the arrival of an interrupt. */
  function StepHandler(s: State, h: nat): State
    requires h < |s.handlers|
  {
    match s.handlers[h]
    case Idle => s.(handlers := s.handlers[h := Raise])
    case Raise => s.(flag := 1, handlers := s.handlers[h := Wake], log := s.log + [Raised(h)])
    case Wake =>
      s.(readers := seq(|s.readers|, r requires 0 <= r < |s.readers| => Woken(s.readers[r])),
         handlers := s.handlers[h := Handler.Idle])
  }

  function Next(s: State, a: Actor): (s': State)
    ensures |s'.readers| == |s.readers| && |s'.handlers| == |s.handlers|
  {
    match a
    case ReaderTurn(r) => if r < |s.readers| then StepReader(s, r) else s
    case HandlerTurn(h) => if h < |s.handlers| then StepHandler(s, h) else s
  }

  function Run(s: State, schedule: seq<Actor>): (s': State)
    ensures |s'.readers| == |s.readers| && |s'.handlers| == |s.handlers|
    decreases |schedule|
  {
    if schedule == [] then s else Run(Next(s, schedule[0]), schedule[1..])
  }

  // ---- What the log says ----

  /** The flag: set when the newest event that touched it was an interrupt. */
  ghost predicate FlagSet(log: seq<Event>) {
    if log == [] then false
    else match log[|log| - 1]
      case Raised(_) => true
      case Cleared(_) => false
      case Returned(_) => FlagSet(log[..|log| - 1])
  }

  /** An interrupt set the flag at or after position i. */
  ghost predicate RaisedFrom(log: seq<Event>, i: nat) {
    exists k :: i <= k < |log| && log[k].Raised?
  }

  /** Reader r has not cleared the flag at or after position i. */
  ghost predicate NotClearedBy(log: seq<Event>, r: nat, i: nat) {
    forall k :: i <= k < |log| ==> log[k] != Cleared(r)
  }

  /** An interrupt has set the flag since reader r last cleared it. */
  ghost predicate RaisedSinceClear(log: seq<Event>, r: nat) {
    forall i :: 0 <= i <= |log| && NotClearedBy(log, r, i) && (i == 0 || log[i - 1] == Cleared(r)) ==>
      RaisedFrom(log, i)
  }

  /** Between two clears by the same reader an interrupt sets the flag. */
  ghost predicate ClearsSeparated(log: seq<Event>) {
    forall i, j :: 0 <= i < j < |log| && log[i].Cleared? && log[j] == log[i] ==>
      exists k :: i < k < j && log[k].Raised?
  }

  /** Reader r's clear at position c has not been followed by its return. */
  ghost predicate Unreturned(log: seq<Event>, r: nat, c: nat) {
    forall k :: c < k < |log| ==> log[k] != Returned(r)
  }

  /** Every return belongs to a clear by the same reader, with no other return of that reader between them. */
  ghost predicate ReturnsPaired(log: seq<Event>) {
    forall j :: 0 <= j < |log| && log[j].Returned? ==>
      exists c :: 0 <= c < j && log[c] == Cleared(log[j].r) && Unreturned(log[..j], log[j].r, c)
  }

  // ---- The invariant ----

  ghost predicate WakeUpDue(s: State) {
    exists h :: 0 <= h < |s.handlers| && s.handlers[h].Wake?
  }

  ghost predicate FlagInv(s: State) {
    s.flag != 0 <==> FlagSet(s.log)
  }

  /** No lost wake-up: a sleeper that no wake-up has reached has one coming whenever the flag is set. */
  ghost predicate WakeInv(s: State) {
    forall r :: 0 <= r < |s.readers| && s.readers[r] == Asleep(false) && s.flag != 0 ==> WakeUpDue(s)
  }

  ghost predicate ClearInv(s: State) {
    && ClearsSeparated(s.log)
    && forall r :: 0 <= r < |s.readers| && s.readers[r].Clear? ==> RaisedSinceClear(s.log, r)
  }

  ghost predicate ReturnInv(s: State) {
    && ReturnsPaired(s.log)
    && (forall r :: 0 <= r < |s.readers| && s.readers[r].Return? ==> ReturnDue(s.log, r))
    && (forall c :: 0 <= c < |s.log| && s.log[c].Cleared? && Unreturned(s.log, s.log[c].r, c) ==>
         s.log[c].r < |s.readers| && s.readers[s.log[c].r].Return?)
  }

  ghost predicate Inv(s: State) {
    FlagInv(s) && WakeInv(s) && ClearInv(s) && ReturnInv(s)
  }

  lemma InitialInv(readers: nat, handlers: nat)
    ensures Inv(Initial(readers, handlers))
  {
  }

  lemma NextKeepsFlag(s: State, a: Actor)
    requires FlagInv(s)
    ensures FlagInv(Next(s, a))
  {
    var s' := Next(s, a);
    assert |s'.log| > |s.log| ==> s'.log[..|s'.log| - 1] == s.log;
  }

  lemma NextKeepsWake(s: State, a: Actor)
    requires WakeInv(s)
    ensures WakeInv(Next(s, a))
  {
    var s' := Next(s, a);
    if a.HandlerTurn? && a.h < |s.handlers| {
      if s.handlers[a.h].Raise? {
        assert s'.handlers[a.h].Wake?;
      } else if s.handlers[a.h].Idle? {
        forall r | 0 <= r < |s'.readers| && s'.readers[r] == Asleep(false) && s'.flag != 0
          ensures WakeUpDue(s')
        {
          var h :| 0 <= h < |s.handlers| && s.handlers[h].Wake?;
          assert s'.handlers[h].Wake?;
        }
      }
    } else {
      assert s'.handlers == s.handlers;
      forall r | 0 <= r < |s'.readers| && s'.readers[r] == Asleep(false) && s'.flag != 0
        ensures WakeUpDue(s')
      {
        assert s.readers[r] == Asleep(false) && s.flag != 0;
      }
    }
  }

  /** The flag being set means an interrupt after every clear so far. */
  lemma {:induction false} SetFlagWasRaised(log: seq<Event>, r: nat)
    requires FlagSet(log)
    ensures RaisedSinceClear(log, r)
    decreases |log|
  {
    var last := |log| - 1;
    if log[last].Returned? {
      SetFlagWasRaised(log[..last], r);
      forall i | 0 <= i <= |log| && NotClearedBy(log, r, i) && (i == 0 || log[i - 1] == Cleared(r))
        ensures RaisedFrom(log, i)
      {
        assert i <= last;
        assert forall k :: i <= k < last ==> log[..last][k] == log[k];
        assert NotClearedBy(log[..last], r, i);
        assert i > 0 ==> log[..last][i - 1] == Cleared(r);
        var k :| i <= k < |log[..last]| && log[..last][k].Raised?;
        assert log[k].Raised?;
      }
    } else {
      assert log[last].Raised?;
      forall i | 0 <= i <= |log| && NotClearedBy(log, r, i) && (i == 0 || log[i - 1] == Cleared(r))
        ensures RaisedFrom(log, i)
      {
      }
    }
  }

  /** Events other than a clear by r do not undo an interrupt. */
  lemma StillRaised(log: seq<Event>, e: Event, r: nat)
    requires RaisedSinceClear(log, r) && e != Cleared(r)
    ensures RaisedSinceClear(log + [e], r)
  {
    var log' := log + [e];
    forall i | 0 <= i <= |log'| && NotClearedBy(log', r, i) && (i == 0 || log'[i - 1] == Cleared(r))
      ensures RaisedFrom(log', i)
    {
      assert i <= |log|;
      assert forall k :: i <= k < |log| ==> log[k] == log'[k];
      assert NotClearedBy(log, r, i);
      var k :| i <= k < |log| && log[k].Raised?;
      assert log'[k].Raised?;
    }
  }

  /** The newest clear by r before the end. */
  lemma {:induction false} LastClear(log: seq<Event>, r: nat, i: nat) returns (c: nat)
    requires i < |log| && log[i] == Cleared(r)
    ensures i <= c < |log| && log[c] == Cleared(r) && NotClearedBy(log, r, c + 1)
    decreases |log| - i
  {
    if NotClearedBy(log, r, i + 1) {
      c := i;
    } else {
      var k :| i + 1 <= k < |log| && log[k] == Cleared(r);
      c := LastClear(log, r, k);
    }
  }

  lemma ClearKeepsSeparated(log: seq<Event>, r: nat)
    requires ClearsSeparated(log) && RaisedSinceClear(log, r)
    ensures ClearsSeparated(log + [Cleared(r)])
  {
    var log' := log + [Cleared(r)];
    forall i, j | 0 <= i < j < |log'| && log'[i].Cleared? && log'[j] == log'[i]
      ensures exists k :: i < k < j && log'[k].Raised?
    {
      if j < |log| {
        assert log[i].Cleared? && log[j] == log[i];
        var k :| i < k < j && log[k].Raised?;
        assert log'[k].Raised?;
      } else {
        var c := LastClear(log, r, i);
        assert RaisedFrom(log, c + 1);
        var k :| c + 1 <= k < |log| && log[k].Raised?;
        assert log'[k].Raised?;
      }
    }
  }

  lemma OtherEventKeepsSeparated(log: seq<Event>, e: Event)
    requires ClearsSeparated(log) && !e.Cleared?
    ensures ClearsSeparated(log + [e])
  {
    var log' := log + [e];
    forall i, j | 0 <= i < j < |log'| && log'[i].Cleared? && log'[j] == log'[i]
      ensures exists k :: i < k < j && log'[k].Raised?
    {
      assert log[i].Cleared? && log[j] == log[i];
      var k :| i < k < j && log[k].Raised?;
      assert log'[k].Raised?;
    }
  }

  lemma NextKeepsClear(s: State, a: Actor)
    requires FlagInv(s) && ClearInv(s)
    ensures ClearInv(Next(s, a))
  {
    var s' := Next(s, a);
    if s'.log != s.log {
      var e := s'.log[|s.log|];
      assert s'.log == s.log + [e];
      if e.Cleared? { ClearKeepsSeparated(s.log, e.r); } else { OtherEventKeepsSeparated(s.log, e); }
    }
    forall r | 0 <= r < |s'.readers| && s'.readers[r].Clear?
      ensures RaisedSinceClear(s'.log, r)
    {
      if s.readers[r].Clear? {
        if s'.log != s.log { StillRaised(s.log, s'.log[|s.log|], r); }
      } else {
        SetFlagWasRaised(s.log, r);
      }
    }
  }

  lemma NextKeepsReturn(s: State, a: Actor)
    requires ReturnInv(s)
    ensures ReturnInv(Next(s, a))
  {
    var s' := Next(s, a);
    if s'.log == s.log {
      assert forall r :: 0 <= r < |s.readers| ==> (s'.readers[r].Return? <==> s.readers[r].Return?);
    } else {
      LoggedTurnKeepsReturn(s, a, s'.log[|s.log|]);
    }
  }

  /** Reader r has cleared the flag and not returned since. */
  ghost predicate ReturnDue(log: seq<Event>, r: nat) {
    exists c :: 0 <= c < |log| && log[c] == Cleared(r) && Unreturned(log, r, c)
  }

  lemma StillPaired(log: seq<Event>, e: Event)
    requires ReturnsPaired(log) && (e.Returned? ==> ReturnDue(log, e.r))
    ensures ReturnsPaired(log + [e])
  {
    var log' := log + [e];
    forall j | 0 <= j < |log'| && log'[j].Returned?
      ensures exists c :: 0 <= c < j && log'[c] == Cleared(log'[j].r) && Unreturned(log'[..j], log'[j].r, c)
    {
      assert log'[..j] == log[..j];
      if j < |log| {
        assert log[j].Returned?;
        var c :| 0 <= c < j && log[c] == Cleared(log[j].r) && Unreturned(log[..j], log[j].r, c);
        assert log'[c] == Cleared(log'[j].r) && Unreturned(log'[..j], log'[j].r, c);
      } else {
        var c :| 0 <= c < |log| && log[c] == Cleared(e.r) && Unreturned(log, e.r, c);
        assert log[..j] == log;
        assert log'[c] == Cleared(log'[j].r) && Unreturned(log'[..j], log'[j].r, c);
      }
    }
  }

  lemma StillDue(log: seq<Event>, e: Event, r: nat)
    requires e == Cleared(r) || (ReturnDue(log, r) && e != Returned(r))
    ensures ReturnDue(log + [e], r)
  {
    var log' := log + [e];
    if e == Cleared(r) {
      assert log'[|log|] == Cleared(r) && Unreturned(log', r, |log|);
    } else {
      var c :| 0 <= c < |log| && log[c] == Cleared(r) && Unreturned(log, r, c);
      assert log'[c] == Cleared(r) && Unreturned(log', r, c);
    }
  }

  lemma WasUnreturned(log: seq<Event>, e: Event, r: nat, c: nat)
    requires c < |log| && Unreturned(log + [e], r, c)
    ensures Unreturned(log, r, c) && e != Returned(r)
  {
    var log' := log + [e];
    forall k | c < k < |log|
      ensures log[k] != Returned(r)
    {
      assert log'[k] != Returned(r);
    }
    assert log'[|log|] != Returned(r);
  }

  lemma LoggedTurnKeepsReturn(s: State, a: Actor, e: Event)
    requires ReturnInv(s) && Next(s, a).log == s.log + [e]
    ensures ReturnInv(Next(s, a))
  {
    var s', log, log' := Next(s, a), s.log, s.log + [e];
    assert s'.log[|log|] == e;
    assert e.Returned? ==> s.readers[e.r].Return? && s'.readers == s.readers[e.r := Reader.Idle];
    assert e.Cleared? ==> s'.readers == s.readers[e.r := Return];
    assert e.Raised? ==> s'.readers == s.readers;
    StillPaired(log, e);
    forall r | 0 <= r < |s'.readers| && s'.readers[r].Return?
      ensures ReturnDue(log', r)
    {
      StillDue(log, e, r);
    }
    forall c | 0 <= c < |log'| && log'[c].Cleared? && Unreturned(log', log'[c].r, c)
      ensures log'[c].r < |s'.readers| && s'.readers[log'[c].r].Return?
    {
      if c < |log| { WasUnreturned(log, e, log[c].r, c); }
    }
  }

  lemma NextKeepsInv(s: State, a: Actor)
    requires Inv(s)
    ensures Inv(Next(s, a))
  {
    NextKeepsFlag(s, a);
    NextKeepsWake(s, a);
    NextKeepsClear(s, a);
    NextKeepsReturn(s, a);
  }

  lemma {:induction false} RunKeepsInv(s: State, schedule: seq<Actor>)
    requires Inv(s)
    ensures Inv(Run(s, schedule))
    decreases |schedule|
  {
    if schedule != [] {
      NextKeepsInv(s, schedule[0]);
      RunKeepsInv(Next(s, schedule[0]), schedule[1..]);
    }
  }
}
