/** The throughput test never deadlocks and always ends. */
module WorkersProgress {
  import opened FiniteSets
  import opened Schedules
  import opened Workers

  /** Accesses of r passes. */
  function Passes(c: Config, r: nat): (l: nat)
    ensures r > 0 ==> l >= c.Reach()
  {
    if r == 0 then 0 else Passes(c, r - 1) + c.Reach()
  }

  function Rounds(c: Config, r: nat): nat {
    if r == 0 then 0 else Rounds(c, r - 1) + Passes(c, c.itn) + 3
  }

  function RoundsLeft(c: Config, k: nat): nat {
    if k < ROUNDS then Rounds(c, ROUNDS - k) else 0
  }

  /** Turns a worker has left, at most. */
  function WorkerRank(c: Config, w: Worker): nat {
    match w
    case Unborn => RoundsLeft(c, 0) + 1
    case Waiting(k) => RoundsLeft(c, k) + 1
    case Blocked(k, _) => RoundsLeft(c, k)
    case Working(k, j, d) =>
      RoundsLeft(c, k + 1) + 2 + (if j < c.itn && d <= c.Reach() then Passes(c, c.itn - j) - d else 0)
    case Finished => 0
  }

  function MainRank(c: Config, m: Main): nat {
    match m
    case Creating(i) => if i <= c.n then 2 * c.n + 11 + (c.n - i) else 0
    case Waiting(k) => if k < ROUNDS then c.n + 2 + 2 * (ROUNDS - k) else 0
    case Blocked(k, _) => if k < ROUNDS then c.n + 1 + 2 * (ROUNDS - k) else 0
    case Joining(i) => if i <= c.n then c.n - i + 2 else 0
    case Destroying => 1
    case Done => 0
  }

  function Total(c: Config, workers: seq<Worker>): nat {
    if workers == [] then 0 else WorkerRank(c, workers[0]) + Total(c, workers[1..])
  }

  lemma {:induction false} TotalUpdate(c: Config, workers: seq<Worker>, w: nat, x: Worker)
    requires w < |workers|
    ensures Total(c, workers[w := x]) == Total(c, workers) - WorkerRank(c, workers[w]) + WorkerRank(c, x)
    decreases |workers|
  {
    if w == 0 {
      assert workers[w := x][1..] == workers[1..];
    } else {
      assert workers[w := x][1..] == workers[1..][w - 1 := x];
      TotalUpdate(c, workers[1..], w - 1, x);
    }
  }

  function Rank(c: Config, s: State): nat {
    Total(c, s.workers) + MainRank(c, s.main)
  }

  /** Every turn that changes anything lowers the rank. */
  lemma WorkerTurnLowersRank(c: Config, s: State, w: nat)
    requires BarrierInv(c, s) && w < c.n && StepWorker(c, s, w) != s
    ensures Rank(c, StepWorker(c, s, w)) < Rank(c, s)
  {
    var s' := StepWorker(c, s, w);
    assert WorkerInStep(c, s, s.workers[w]);
    TotalUpdate(c, s.workers, w, s'.workers[w]);
    WorkerRankDrops(c, s.workers[w], s'.workers[w]);
    assert s'.workers == s.workers[w := s'.workers[w]] && s'.main == s.main;
  }

  lemma WorkerRankDrops(c: Config, w: Worker, w': Worker)
    requires c.slice >= 1
    requires w.Waiting? ==> w.k < ROUNDS && (w' == Working(w.k, 0, 0) || (w'.Blocked? && w'.k == w.k))
    requires w.Blocked? ==> w.k < ROUNDS && w' == Working(w.k, 0, 0)
    requires w.Working? ==> w.k < ROUNDS && (w.j < c.itn ==> InPass(c, w.d))
    requires w.Working? && w.j < c.itn ==>
      w' == if InPass(c, w.d + 1) then Working(w.k, w.j, w.d + 1) else Working(w.k, w.j + 1, 0)
    requires w.Working? && w.j >= c.itn ==> w' == if w.k + 1 < ROUNDS then Worker.Waiting(w.k + 1) else Finished
    requires !w.Unborn? && !w.Finished?
    ensures WorkerRank(c, w') < WorkerRank(c, w)
  {
    if w.Working? {
      if w.j < c.itn { assert Passes(c, c.itn - w.j) == Passes(c, c.itn - (w.j + 1)) + c.Reach(); }
    } else {
      OneRoundLess(c, w.k);
    }
  }

  lemma OneRoundLess(c: Config, k: nat)
    requires k < ROUNDS
    ensures RoundsLeft(c, k) == RoundsLeft(c, k + 1) + Passes(c, c.itn) + 3
  {
    assert Rounds(c, ROUNDS - k) == Rounds(c, ROUNDS - k - 1) + Passes(c, c.itn) + 3;
  }

  lemma MainTurnLowersRank(c: Config, s: State)
    requires BarrierInv(c, s) && StepMain(c, s) != s
    ensures Rank(c, StepMain(c, s)) < Rank(c, s)
  {
    var s' := StepMain(c, s);
    if s.main.Creating? && s.main.i < c.n {
      TotalUpdate(c, s.workers, s.main.i, Worker.Waiting(0));
    }
  }

  ghost predicate Moves(c: Config, s: State, t: nat)
    requires Sized(c, s)
  {
    Next(c, s, t) != s
  }

  /** No deadlock: until main is done, some thread can move. */
  lemma SomeoneMoves(c: Config, s: State) returns (t: nat)
    requires BarrierInv(c, s) && !s.main.Done?
    ensures t <= c.n && Moves(c, s, t)
  {
    if !(s.main.Blocked? && s.main.gen == s.gen) && !s.main.Joining? {
      t := c.n;
    } else if s.main.Joining? {
      if s.main.i < c.n && !s.workers[s.main.i].Finished? {
        t := s.main.i;
        assert WorkerInStep(c, s, s.workers[t]);
      } else {
        t := c.n;
      }
    } else {
      t := OutsideTheBarrier(c, s);
      assert WorkerInStep(c, s, s.workers[t]);
    }
  }

  /** While main is inside the barrier, some worker is not. */
  lemma OutsideTheBarrier(c: Config, s: State) returns (t: nat)
    requires BarrierInv(c, s) && Within(c, s, c.n)
    ensures t < c.n && !Within(c, s, t)
  {
    assert (forall u :: 0 <= u < c.n ==> Within(c, s, u)) ==> Inside(c, s) == Below(c.n + 1);
    t :| 0 <= t < c.n && !Within(c, s, t);
  }

  /** A thread that can move stays able to move until it does. */
  lemma StaysReady(c: Config, s: State, t: nat, u: nat)
    requires BarrierInv(c, s) && t <= c.n && u != t && Moves(c, s, t)
    ensures Moves(c, Next(c, s, u), t)
  {
    if t < c.n { WorkerStaysReady(c, s, t, u); } else { MainStaysReady(c, s, u); }
  }

  lemma WorkerStaysReady(c: Config, s: State, t: nat, u: nat)
    requires BarrierInv(c, s) && t < c.n && u != t && Moves(c, s, t)
    ensures Moves(c, Next(c, s, u), t)
  {
    var s' := Next(c, s, u);
    assert WorkerInStep(c, s, s.workers[t]);
    assert s'.workers[t] == s.workers[t] && (s'.gen == s.gen || s'.gen == s.gen + 1);
    assert StepWorker(c, s', t).workers[t] != s'.workers[t];
  }

  lemma MainStaysReady(c: Config, s: State, u: nat)
    requires BarrierInv(c, s) && u != c.n && Moves(c, s, c.n)
    ensures Moves(c, Next(c, s, u), c.n)
  {
    var s' := Next(c, s, u);
    assert s'.main == s.main && (s'.gen == s.gen || s'.gen == s.gen + 1);
    assert StepMain(c, s').main != s'.main;
  }

  ghost predicate Fair(c: Config, block: seq<nat>) {
    forall t :: 0 <= t <= c.n ==> t in block
  }

  lemma TurnKeepsRank(c: Config, s: State, t: nat)
    requires BarrierInv(c, s)
    ensures Rank(c, Next(c, s, t)) <= Rank(c, s)
    ensures Moves(c, s, t) ==> Rank(c, Next(c, s, t)) < Rank(c, s)
  {
    if Moves(c, s, t) {
      if t < c.n { WorkerTurnLowersRank(c, s, t); } else { MainTurnLowersRank(c, s); }
    }
  }

  lemma {:induction false} BlockLowersRank(c: Config, s: State, block: seq<nat>, t: nat)
    requires BarrierInv(c, s) && t <= c.n
    ensures Rank(c, Run(c, s, block)) <= Rank(c, s)
    ensures s.main.Done? ==> Run(c, s, block).main.Done?
    ensures t in block && Moves(c, s, t) ==> Rank(c, Run(c, s, block)) < Rank(c, s)
    decreases |block|
  {
    if block != [] {
      NextKeepsBarrier(c, s, block[0]);
      TurnKeepsRank(c, s, block[0]);
      BlockLowersRank(c, Next(c, s, block[0]), block[1..], t);
      if Moves(c, s, t) && block[0] != t { StaysReady(c, s, t, block[0]); }
    }
  }

  lemma {:induction false} RunAppend(c: Config, s: State, a: seq<nat>, b: seq<nat>)
    requires Sized(c, s)
    ensures Run(c, s, a + b) == Run(c, Run(c, s, a), b)
    decreases |a|
  {
    if a == [] {
      assert a + b == b;
    } else {
      RunAppend(c, Next(c, s, a[0]), a[1..], b);
      assert (a + b)[1..] == a[1..] + b;
    }
  }

  /** As many rounds of a fair schedule as the rank says complete the test. */
  lemma {:induction false} FairRunsEnd(c: Config, s: State, blocks: seq<seq<nat>>)
    requires BarrierInv(c, s) && |blocks| >= Rank(c, s)
    requires forall k :: 0 <= k < |blocks| ==> Fair(c, blocks[k])
    ensures Run(c, s, Concat(blocks)).main.Done?
    decreases |blocks|
  {
    if s.main.Done? {
      BlockLowersRank(c, s, Concat(blocks), 0);
    } else {
      var t := SomeoneMoves(c, s);
      TurnKeepsRank(c, s, t);
      assert Fair(c, blocks[0]);
      var s' := Run(c, s, blocks[0]);
      BlockLowersRank(c, s, blocks[0], t);
      RunKeepsBarrier(c, s, blocks[0]);
      RunAppend(c, s, blocks[0], Concat(blocks[1..]));
      FairRunsEnd(c, s', blocks[1..]);
    }
  }

  /** Turns that change something, in a schedule. */
  ghost function Moved(c: Config, s: State, schedule: seq<nat>): nat
    requires Sized(c, s)
    decreases |schedule|
  {
    if schedule == [] then 0
    else (if Moves(c, s, schedule[0]) then 1 else 0) + Moved(c, Next(c, s, schedule[0]), schedule[1..])
  }

  /** No schedule at all, fair or not, holds more effective turns than the rank of its first state. */
  lemma {:induction false} NoEndlessRun(c: Config, s: State, schedule: seq<nat>)
    requires BarrierInv(c, s)
    ensures Moved(c, s, schedule) <= Rank(c, s)
    decreases |schedule|
  {
    if schedule != [] {
      NextKeepsBarrier(c, s, schedule[0]);
      TurnKeepsRank(c, s, schedule[0]);
      NoEndlessRun(c, Next(c, s, schedule[0]), schedule[1..]);
    }
  }

  /** From the start, a fair schedule completes the test. */
  lemma TestEnds(c: Config, blocks: seq<seq<nat>>)
    requires c.Valid() && |blocks| >= Rank(c, Initial(c))
    requires forall k :: 0 <= k < |blocks| ==> Fair(c, blocks[k])
    ensures Run(c, Initial(c), Concat(blocks)).main.Done?
  {
    InitialBarrier(c);
    FairRunsEnd(c, Initial(c), blocks);
  }
}
