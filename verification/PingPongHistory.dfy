/** What the echoing thread has stored, in every run of the core-to-core test. */
module PingPongHistory {
  import opened PingPong

  /** Stage 0 is the time before round n; stage g >= 1 is round n + 1 - g. */
  function StageOf(n: nat, i: nat): nat {
    if i <= n then n + 1 - i else 1
  }

  /** The value belonging to a stage: the initial 1, then n, n - 1, ..., 0. */
  function ValueAt(n: nat, g: nat): int {
    if g == 0 then 1 else n + 1 - g
  }

  /** The values are those of the stages 0, ..., g in order: stage 0 any number of times, every later
      stage at least once, and the last stage of all, n + 1, exactly once. */
  ghost predicate Follows(h: seq<int>, n: nat, g: nat) {
    if h == [] then g == 0
    else
      var rest := h[..|h| - 1];
      && h[|h| - 1] == ValueAt(n, g)
      && ((g != n + 1 && Follows(rest, n, g)) || (g > 0 && Follows(rest, n, g - 1)))
  }

  /** The stage of the newest echo. */
  ghost function EchoStage(s: State): nat {
    match s.t1
    case Publish(i) => StageOf(s.n, i) - 1
    case Fence(i) => if s.buf1 != [] then StageOf(s.n, i) - 1 else NewestStage(s, i)
    case Spin(i) => NewestStage(s, i)
    case Done => s.n + 1
    case _ => 0
  }

  ghost function NewestStage(s: State, i: nat): nat {
    var v := if s.t2.Fence? then s.t2.v else s.mem.pong;
    if v == i then StageOf(s.n, i) else StageOf(s.n, i) - 1
  }

  ghost predicate HistoryInv(s: State) {
    s.n != 1 && Inv(s) && (Bouncing(s) ==> Follows(s.echoes, s.n, EchoStage(s)))
  }

  /** A turn of thread 1 moves its round on, but not the stage of the newest echo. */
  lemma PingerKeepsStage(s: State)
    requires Bouncing(s) && s.n != 1
    ensures StepPinger(s).echoes == s.echoes && EchoStage(StepPinger(s)) == EchoStage(s)
  {
  }

  lemma PingerKeepsHistory(s: State)
    requires HistoryInv(s)
    ensures HistoryInv(StepPinger(s))
  {
    PingerKeepsInv(s);
    if Bouncing(s) {
      PingerKeepsStage(s);
    } else {
      assert StepPinger(s).echoes == [] && (Bouncing(StepPinger(s)) ==> StepPinger(s).t1.Held?);
    }
  }

  lemma FollowsExtend(h: seq<int>, h': seq<int>, n: nat, g: nat, g': nat)
    requires Follows(h, n, g)
    requires (g' == g && g != n + 1) || g' == g + 1
    requires h' != [] && h'[..|h'| - 1] == h && h'[|h'| - 1] == ValueAt(n, g')
    ensures Follows(h', n, g')
  {
  }

  /** An echo belongs to the stage of the newest one or to the next; stage n + 1 is not repeated. */
  lemma EchoMovesStage(s: State)
    requires Inv(s) && s.n != 1 && s.t2.Echo?
    ensures var g, g' := EchoStage(s), EchoStage(StepEchoer(s));
      ((g' == g && g != s.n + 1) || g' == g + 1) && s.t2.v == ValueAt(s.n, g')
  {
  }

  lemma EchoKeepsHistory(s: State)
    requires HistoryInv(s) && s.t2.Echo?
    ensures HistoryInv(StepEchoer(s))
  {
    EchoerKeepsInv(s);
    EchoMovesStage(s);
    EchoRecorded(s.echoes, StepEchoer(s).echoes, s.n, EchoStage(s), EchoStage(StepEchoer(s)));
  }

  lemma EchoRecorded(h: seq<int>, h': seq<int>, n: nat, g: nat, g': nat)
    requires Follows(h, n, g) && ((g' == g && g != n + 1) || g' == g + 1) && h' == h + [ValueAt(n, g')]
    ensures Follows(h', n, g')
  {
    assert h'[..|h'| - 1] == h;
    FollowsExtend(h, h', n, g, g');
  }

  lemma EchoerKeepsHistory(s: State)
    requires HistoryInv(s)
    ensures HistoryInv(StepEchoer(s))
  {
    EchoerKeepsInv(s);
    if s.t2.Echo? {
      EchoKeepsHistory(s);
    } else if Bouncing(s) {
      QuietEchoerStep(s);
    }
  }

  lemma QuietEchoerStep(s: State)
    requires Bouncing(s) && s.n != 1 && !s.t2.Echo?
    ensures StepEchoer(s).echoes == s.echoes && EchoStage(StepEchoer(s)) == EchoStage(s)
  {
  }

  lemma Drain1KeepsStage(s: State, slot: Slot)
    requires Bouncing(s) && s.n != 1
    ensures Next(s, Drain1(slot)).echoes == s.echoes && EchoStage(Next(s, Drain1(slot))) == EchoStage(s)
  {
    if Oldest(s.buf1, slot) < |s.buf1| { assert s.t1.Fence? && Next(s, Drain1(slot)).buf1 == []; }
  }

  lemma Drain2KeepsStage(s: State, slot: Slot)
    requires Bouncing(s)
    ensures Next(s, Drain2(slot)).echoes == s.echoes && EchoStage(Next(s, Drain2(slot))) == EchoStage(s)
  {
    if Oldest(s.buf2, slot) < |s.buf2| { assert s.t2.Fence? && Next(s, Drain2(slot)).buf2 == []; }
  }

  lemma DrainKeepsHistory(s: State, a: Actor)
    requires HistoryInv(s) && (a.Drain1? || a.Drain2?)
    ensures HistoryInv(Next(s, a))
  {
    NextKeepsInv(s, a);
    if Bouncing(s) {
      if a.Drain1? { Drain1KeepsStage(s, a.slot); } else { Drain2KeepsStage(s, a.slot); }
    }
  }

  lemma StepKeepsHistory(s: State, a: Actor)
    requires HistoryInv(s)
    ensures HistoryInv(Next(s, a))
  {
    match a
    case Thread1 => PingerKeepsHistory(s);
    case Thread2 => EchoerKeepsHistory(s);
    case MainThread => MainKeepsInv(s);
    case _ => DrainKeepsHistory(s, a);
  }

  lemma {:induction false} RunKeepsHistory(s: State, schedule: seq<Actor>)
    requires HistoryInv(s)
    ensures HistoryInv(Run(s, schedule))
    decreases |schedule|
  {
    if schedule != [] {
      StepKeepsHistory(s, schedule[0]);
      RunKeepsHistory(Next(s, schedule[0]), schedule[1..]);
    }
  }

  lemma {:induction false} ValuesSeen(h: seq<int>, n: nat, g: nat, f: nat)
    requires Follows(h, n, g) && 1 <= f <= g
    ensures ValueAt(n, f) in h
    decreases |h|
  {
    var rest := h[..|h| - 1];
    assert h == rest + [h[|h| - 1]];
    if f < g {
      if g != n + 1 && Follows(rest, n, g) { ValuesSeen(rest, n, g, f); } else { ValuesSeen(rest, n, g - 1, f); }
    }
  }

  /** The stages of a history, spelled out: they start at 0 or 1 and climb by 0 or 1; stage n + 1 comes last only. */
  lemma {:induction false} Stages(h: seq<int>, n: nat, g: nat) returns (stages: seq<nat>)
    requires Follows(h, n, g) && g <= n + 1
    ensures |stages| == |h|
    ensures forall k :: 0 <= k < |h| ==> h[k] == ValueAt(n, stages[k]) && stages[k] <= g
    ensures h != [] ==> stages[0] <= 1 && stages[|h| - 1] == g
    ensures forall k :: 0 <= k < |h| - 1 ==> stages[k] <= stages[k + 1] <= stages[k] + 1
    ensures forall k :: 0 <= k < |h| - 1 ==> stages[k] != n + 1
    decreases |h|
  {
    if h == [] {
      stages := [];
    } else {
      var rest := h[..|h| - 1];
      var before: nat;
      if g != n + 1 && Follows(rest, n, g) { before := g; } else { before := g - 1; }
      stages := Stages(rest, n, before);
      stages := stages + [g];
    }
  }

  /** The values are those of climbing stages: some 1s, then n one or more times, and so on down to 1 one or more
      times, then 0 exactly once, or a prefix of that. */
  ghost predicate Climbs(h: seq<int>, n: nat, stages: seq<nat>) {
    && |stages| == |h|
    && (forall k :: 0 <= k < |h| ==> h[k] == ValueAt(n, stages[k]) && stages[k] <= n + 1)
    && (h != [] ==> stages[0] <= 1)
    && (forall k :: 0 <= k < |h| - 1 ==> stages[k] <= stages[k + 1] <= stages[k] + 1)
    && (forall k :: 0 <= k < |h| - 1 ==> stages[k] != n + 1)
  }

  /** So it is for thread 2's stores in every run. */
  lemma EchoHistory(n: nat, mem: Memory, schedule: seq<Actor>) returns (stages: seq<nat>)
    requires n != 1
    ensures Climbs(Run(Initial(n, mem), schedule).echoes, n, stages)
  {
    var s := Run(Initial(n, mem), schedule);
    InitialInv(n, mem);
    RunKeepsHistory(Initial(n, mem), schedule);
    SameRounds(Initial(n, mem), schedule);
    if Bouncing(s) {
      stages := Stages(s.echoes, n, EchoStage(s));
    } else {
      stages := [];
    }
  }

  lemma {:induction false} SameRounds(s: State, schedule: seq<Actor>)
    ensures Run(s, schedule).n == s.n
    decreases |schedule|
  {
    if schedule != [] {
      SameRounds(Next(s, schedule[0]), schedule[1..]);
    }
  }

  /** When thread 1 has finished, thread 2 has echoed every round number. */
  lemma EveryRoundEchoed(n: nat, mem: Memory, schedule: seq<Actor>, i: nat)
    requires n != 1 && i <= n
    requires Run(Initial(n, mem), schedule).t1.Done?
    ensures i in Run(Initial(n, mem), schedule).echoes
  {
    var s := Run(Initial(n, mem), schedule);
    InitialInv(n, mem);
    RunKeepsHistory(Initial(n, mem), schedule);
    SameRounds(Initial(n, mem), schedule);
    ValuesSeen(s.echoes, n, n + 1, StageOf(n, i));
  }

  /** Thread 1 leaves the spin of round i in this turn. */
  ghost predicate Accepts(s: State, i: nat) {
    s.t1 == Spin(i) && StepPinger(s).t1 != Spin(i)
  }

  /** The round trip of round i is real: both lines hold i, thread 2's newest store is i,
      and nothing else is under way. */
  ghost predicate RoundTripDone(s: State, i: nat) {
    && s.mem == Memory(i, i)
    && s.buf1 == []
    && (forall k :: 0 <= k < |s.buf2| ==> s.buf2[k] == Entry(Pong, i))
    && (s.t2.Echo? || s.t2.Fence? ==> s.t2.v == i)
    && s.echoes != [] && s.echoes[|s.echoes| - 1] == i
  }

  /** In no run does thread 1 take a stale value for the echo of its round. */
  ghost predicate Safe(n: nat) {
    forall mem, schedule, i: nat ::
      Accepts(Run(Initial(n, mem), schedule), i) ==> RoundTripDone(Run(Initial(n, mem), schedule), i)
  }

  lemma AcceptedRound(s: State, i: nat)
    requires HistoryInv(s) && Accepts(s, i)
    ensures RoundTripDone(s, i)
  {
  }

  lemma ManyRoundsAreSafe(n: nat)
    requires n != 1
    ensures Safe(n)
  {
    forall mem, schedule, i: nat | Accepts(Run(Initial(n, mem), schedule), i)
      ensures RoundTripDone(Run(Initial(n, mem), schedule), i)
    {
      InitialInv(n, mem);
      RunKeepsHistory(Initial(n, mem), schedule);
      AcceptedRound(Run(Initial(n, mem), schedule), i);
    }
  }

  /** A schedule of one block after another. */
  lemma {:induction false} RunThen(s: State, a: seq<Actor>, r: State, b: seq<Actor>)
    requires Run(s, a) == r
    ensures Run(s, a + b) == Run(r, b)
  {
    RunAppend(s, a, b);
  }

  lemma OneRoundStart(s0: State, s1: State)
    requires s0 == Initial(1, Memory(5, 5))
    requires s1 == State(1, Memory(5, 5), [], [], InitPing, Echoer.Arrive, Main.Held, 1, [])
    ensures Run(s0, [MainThread, MainThread, MainThread]) == s1
  {
  }

  lemma OneRoundStores(s1: State, s2: State)
    requires s1 == State(1, Memory(5, 5), [], [], InitPing, Echoer.Arrive, Main.Held, 1, [])
    requires s2 == State(1, Memory(1, 5), [], [], InitPong, Echoer.Arrive, Main.Held, 1, [])
    ensures Run(s1, [Thread1, Drain1(Ping)]) == s2
  {
  }

  lemma OneRoundArrives(s2: State, s3: State)
    requires s2 == State(1, Memory(1, 5), [], [], InitPong, Echoer.Arrive, Main.Held, 1, [])
    requires s3 == State(1, Memory(1, 1), [], [], Pinger.Held, Echoer.Held, Main.Held, 3, [])
    ensures Run(s2, [Thread1, Drain1(Pong), Thread1, Thread2]) == s3
  {
    var s := State(1, Memory(1, 1), [], [], Pinger.Arrive, Echoer.Arrive, Main.Held, 1, []);
    assert Run(s2, [Thread1, Drain1(Pong)]) == s;
    assert Run(s, [Thread1, Thread2]) == s3;
    RunThen(s2, [Thread1, Drain1(Pong)], s, [Thread1, Thread2]);
    assert [Thread1, Drain1(Pong), Thread1, Thread2] == [Thread1, Drain1(Pong)] + [Thread1, Thread2];
  }

  lemma OneRoundSpins(s3: State, s4: State)
    requires s3 == State(1, Memory(1, 1), [], [], Pinger.Held, Echoer.Held, Main.Held, 3, [])
    requires s4 == State(1, Memory(1, 1), [], [], Spin(1), Echoer.Held, Main.Held, 3, [])
    ensures Run(s3, [Thread1, Thread1, Drain1(Ping), Thread1]) == s4
  {
    var s := State(1, Memory(1, 1), [Entry(Ping, 1)], [], Pinger.Fence(1), Echoer.Held, Main.Held, 3, []);
    assert Run(s3, [Thread1, Thread1]) == s;
    assert Run(s, [Drain1(Ping), Thread1]) == s4;
    RunThen(s3, [Thread1, Thread1], s, [Drain1(Ping), Thread1]);
    assert [Thread1, Thread1, Drain1(Ping), Thread1] == [Thread1, Thread1] + [Drain1(Ping), Thread1];
  }

  /** With a single round, thread 1 can see the number of its round before thread 2 has stored anything. */
  lemma OneRoundRun() returns (schedule: seq<Actor>)
    ensures Run(Initial(1, Memory(5, 5)), schedule)
      == State(1, Memory(1, 1), [], [], Spin(1), Echoer.Held, Main.Held, 3, [])
  {
    var s0 := Initial(1, Memory(5, 5));
    var s1 := State(1, Memory(5, 5), [], [], InitPing, Echoer.Arrive, Main.Held, 1, []);
    var s2 := State(1, Memory(1, 5), [], [], InitPong, Echoer.Arrive, Main.Held, 1, []);
    var s3 := State(1, Memory(1, 1), [], [], Pinger.Held, Echoer.Held, Main.Held, 3, []);
    var s4 := State(1, Memory(1, 1), [], [], Spin(1), Echoer.Held, Main.Held, 3, []);
    OneRoundStart(s0, s1);
    OneRoundStores(s1, s2);
    OneRoundArrives(s2, s3);
    OneRoundSpins(s3, s4);
    var a := [MainThread, MainThread, MainThread];
    var b := a + [Thread1, Drain1(Ping)];
    var c := b + [Thread1, Drain1(Pong), Thread1, Thread2];
    schedule := c + [Thread1, Thread1, Drain1(Ping), Thread1];
    RunThen(s0, a, s1, [Thread1, Drain1(Ping)]);
    RunThen(s0, b, s2, [Thread1, Drain1(Pong), Thread1, Thread2]);
    RunThen(s0, c, s3, [Thread1, Thread1, Drain1(Ping), Thread1]);
  }

  /** Then the initial 1 passes for the echo. */
  lemma OneRoundIsUnsafe()
    ensures !Safe(1)
  {
    var schedule := OneRoundRun();
    var s := State(1, Memory(1, 1), [], [], Spin(1), Echoer.Held, Main.Held, 3, []);
    assert Accepts(s, 1) && !RoundTripDone(s, 1);
    assert Accepts(Run(Initial(1, Memory(5, 5)), schedule), 1);
  }

  /** In every run thread 2 echoes every round before thread 1 finishes. */
  ghost predicate EchoesAll(n: nat) {
    forall mem, schedule, i: nat ::
      i <= n && Run(Initial(n, mem), schedule).t1.Done? ==> i in Run(Initial(n, mem), schedule).echoes
  }

  lemma OneRoundGoesOn(s4: State, s5: State)
    requires s4 == State(1, Memory(1, 1), [], [], Spin(1), Echoer.Held, Main.Held, 3, [])
    requires s5 == State(1, Memory(0, 1), [], [], Spin(0), Echoer.Held, Main.Held, 3, [])
    ensures Run(s4, [Thread1, Thread1, Drain1(Ping), Thread1]) == s5
  {
    var s := State(1, Memory(1, 1), [Entry(Ping, 0)], [], Pinger.Fence(0), Echoer.Held, Main.Held, 3, []);
    assert Run(s4, [Thread1, Thread1]) == s;
    assert Run(s, [Drain1(Ping), Thread1]) == s5;
    RunThen(s4, [Thread1, Thread1], s, [Drain1(Ping), Thread1]);
    assert [Thread1, Thread1, Drain1(Ping), Thread1] == [Thread1, Thread1] + [Drain1(Ping), Thread1];
  }

  lemma OneRoundEnds(s5: State, s6: State)
    requires s5 == State(1, Memory(0, 1), [], [], Spin(0), Echoer.Held, Main.Held, 3, [])
    requires s6 == State(1, Memory(0, 0), [], [], Pinger.Done, Echoer.Fence(0), Main.Held, 3, [0])
    ensures Run(s5, [Thread2, Thread2, Thread2, Drain2(Pong), Thread1]) == s6
  {
    var s := State(1, Memory(0, 1), [], [Entry(Pong, 0)], Spin(0), Echoer.Fence(0), Main.Held, 3, [0]);
    assert Run(s5, [Thread2, Thread2, Thread2]) == s;
    assert Run(s, [Drain2(Pong), Thread1]) == s6;
    RunThen(s5, [Thread2, Thread2, Thread2], s, [Drain2(Pong), Thread1]);
    assert [Thread2, Thread2, Thread2, Drain2(Pong), Thread1] == [Thread2, Thread2, Thread2] + [Drain2(Pong), Thread1];
  }

  lemma OneRoundWholeRun() returns (schedule: seq<Actor>)
    ensures Run(Initial(1, Memory(5, 5)), schedule)
      == State(1, Memory(0, 0), [], [], Pinger.Done, Echoer.Fence(0), Main.Held, 3, [0])
  {
    schedule := OneRoundRun();
    var s0 := Initial(1, Memory(5, 5));
    var s4 := State(1, Memory(1, 1), [], [], Spin(1), Echoer.Held, Main.Held, 3, []);
    var s5 := State(1, Memory(0, 1), [], [], Spin(0), Echoer.Held, Main.Held, 3, []);
    var s6 := State(1, Memory(0, 0), [], [], Pinger.Done, Echoer.Fence(0), Main.Held, 3, [0]);
    OneRoundGoesOn(s4, s5);
    OneRoundEnds(s5, s6);
    RunThen(s0, schedule, s4, [Thread1, Thread1, Drain1(Ping), Thread1]);
    schedule := schedule + [Thread1, Thread1, Drain1(Ping), Thread1];
    RunThen(s0, schedule, s5, [Thread2, Thread2, Thread2, Drain2(Pong), Thread1]);
    schedule := schedule + [Thread2, Thread2, Thread2, Drain2(Pong), Thread1];
  }

  /** With a single round, the whole test can run without an echo of that round. */
  lemma OneRoundSkipsEcho()
    ensures !EchoesAll(1)
  {
    var schedule := OneRoundWholeRun();
    var s := Run(Initial(1, Memory(5, 5)), schedule);
    assert s.t1.Done? && 1 !in s.echoes;
  }

  ghost predicate HasStages(h: seq<int>, n: nat) {
    exists stages :: Climbs(h, n, stages)
  }

  /** In every run thread 2's stores climb through the stages. */
  ghost predicate EchoesClimb(n: nat) {
    forall mem, schedule :: HasStages(Run(Initial(n, mem), schedule).echoes, n)
  }

  lemma OnlyZero(h: seq<int>)
    requires h == [0]
    ensures !HasStages(h, 1)
  {
    assert h[0] == 0 && ValueAt(1, 0) == ValueAt(1, 1) == 1;
  }

  /** They do exactly when the count is not 1: with a single round the only echo can be the 0. */
  lemma EchoesClimbIffNotOne(n: nat)
    ensures EchoesClimb(n) <==> n != 1
  {
    if n == 1 {
      var schedule := OneRoundWholeRun();
      OnlyZero([0]);
      assert !HasStages(Run(Initial(1, Memory(5, 5)), schedule).echoes, 1);
    } else {
      forall mem, schedule
        ensures HasStages(Run(Initial(n, mem), schedule).echoes, n)
      {
        var stages := EchoHistory(n, mem, schedule);
      }
    }
  }

  /** Thread 2 is sure to echo every round exactly when the count is not 1. */
  lemma EchoesAllIffNotOne(n: nat)
    ensures EchoesAll(n) <==> n != 1
  {
    if n == 1 {
      OneRoundSkipsEcho();
    } else {
      forall mem, schedule, i: nat | i <= n && Run(Initial(n, mem), schedule).t1.Done?
        ensures i in Run(Initial(n, mem), schedule).echoes
      {
        EveryRoundEchoed(n, mem, schedule, i);
      }
    }
  }

  /** The test measures real round trips exactly when the count is not 1. */
  lemma SafeIffNotOne(n: nat)
    ensures Safe(n) <==> n != 1
  {
    if n == 1 { OneRoundIsUnsafe(); } else { ManyRoundsAreSafe(n); }
  }

  /** Thread 2 never holds a 0 before thread 1 publishes round 0, whatever the memory held before. */
  lemma NoEarlyZero(n: nat, mem: Memory, schedule: seq<Actor>)
    requires Run(Initial(n, mem), schedule).t2 == Echo(0)
    ensures var t1 := Run(Initial(n, mem), schedule).t1; t1 == Pinger.Fence(0) || t1 == Spin(0)
  {
    InitialInv(n, mem);
    RunKeepsInv(Initial(n, mem), schedule);
  }

  /** When thread 2 stops, its final 0 is in memory, not in its store buffer. */
  lemma FinalZeroVisible(n: nat, mem: Memory, schedule: seq<Actor>)
    requires Run(Initial(n, mem), schedule).t2.Done?
    ensures var s := Run(Initial(n, mem), schedule); s.mem == Memory(0, 0) && s.buf2 == []
  {
    InitialInv(n, mem);
    RunKeepsInv(Initial(n, mem), schedule);
  }
}
