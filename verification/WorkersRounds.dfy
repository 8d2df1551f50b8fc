/** What the barrier gives every run of the throughput test: rounds in step, a safe end, and
    memory that does not depend on the schedule. */
module WorkersRounds {
  import opened Workers

  // ---- Rounds ----

  function CompletedWaits(w: Worker): nat {
    match w
    case Unborn => 0
    case Waiting(k) => k
    case Blocked(k, _) => k
    case Working(k, _, _) => k + 1
    case Finished => ROUNDS
  }

  function MainCompletedWaits(m: Main): nat {
    match m
    case Creating(_) => 0
    case Waiting(k) => k
    case Blocked(k, _) => k
    case _ => ROUNDS
  }

  /** Rounds whose passes are all done. */
  function FinishedRounds(w: Worker): nat {
    if w.Working? then w.k else CompletedWaits(w)
  }

  lemma Reachable(c: Config, schedule: seq<nat>)
    requires c.Valid()
    ensures BarrierInv(c, Run(c, Initial(c), schedule))
  {
    InitialBarrier(c);
    RunKeepsBarrier(c, Initial(c), schedule);
  }

  /** The numbers of completed waits of any two workers differ by at most one, and so do those of a worker and main. */
  lemma WaitsInStep(c: Config, schedule: seq<nat>, w: nat, u: nat)
    requires c.Valid() && w < c.n && u < c.n
    ensures var s := Run(c, Initial(c), schedule);
      && CompletedWaits(s.workers[w]) <= CompletedWaits(s.workers[u]) + 1
      && CompletedWaits(s.workers[w]) <= MainCompletedWaits(s.main) + 1
      && MainCompletedWaits(s.main) <= CompletedWaits(s.workers[w]) + 1
  {
    Reachable(c, schedule);
    var s := Run(c, Initial(c), schedule);
    assert WorkerInStep(c, s, s.workers[w]) && WorkerInStep(c, s, s.workers[u]);
  }

  /** No worker is in round k before every worker has finished all the rounds before k. */
  lemma NoRoundOverlap(c: Config, schedule: seq<nat>, w: nat, u: nat)
    requires c.Valid() && w < c.n && u < c.n
    requires Run(c, Initial(c), schedule).workers[w].Working?
    ensures var s := Run(c, Initial(c), schedule); FinishedRounds(s.workers[u]) >= s.workers[w].k
  {
    Reachable(c, schedule);
    var s := Run(c, Initial(c), schedule);
    assert WorkerInStep(c, s, s.workers[w]) && WorkerInStep(c, s, s.workers[u]);
  }

  /** When main is about to destroy the barrier, nobody is inside it and every worker has ended. */
  lemma DestroyIsSafe(c: Config, schedule: seq<nat>)
    requires c.Valid()
    requires var m := Run(c, Initial(c), schedule).main; m.Destroying? || m.Done?
    ensures var s := Run(c, Initial(c), schedule);
      s.inside == 0 && forall w :: 0 <= w < c.n ==> s.workers[w].Finished?
  {
    Reachable(c, schedule);
    assert Inside(c, Run(c, Initial(c), schedule)) == {};
  }

  /** The turns of a run in which main destroys the barrier. */
  function Destroys(c: Config, s: State, schedule: seq<nat>): nat
    requires Sized(c, s)
    decreases |schedule|
  {
    if schedule == [] then 0
    else
      (if schedule[0] == c.n && s.main.Destroying? then 1 else 0) + Destroys(c, Next(c, s, schedule[0]), schedule[1..])
  }

  lemma {:induction false} DestroyCounted(c: Config, s: State, schedule: seq<nat>)
    requires Sized(c, s)
    ensures s.main.Done? ==> Run(c, s, schedule).main.Done?
    ensures Destroys(c, s, schedule) == if Run(c, s, schedule).main.Done? && !s.main.Done? then 1 else 0
    decreases |schedule|
  {
    if schedule != [] {
      MainGoesOn(c, s, schedule[0]);
      DestroyCounted(c, Next(c, s, schedule[0]), schedule[1..]);
    }
  }

  lemma MainGoesOn(c: Config, s: State, t: nat)
    requires Sized(c, s)
    ensures Next(c, s, t).main.Done? <==> s.main.Done? || (t == c.n && s.main.Destroying?)
  {
  }

  /** A run that ends has destroyed the barrier exactly once; one that has not ended has not. */
  lemma DestroyedOnce(c: Config, schedule: seq<nat>)
    requires c.Valid()
    ensures Destroys(c, Initial(c), schedule) == if Run(c, Initial(c), schedule).main.Done? then 1 else 0
  {
    DestroyCounted(c, Initial(c), schedule);
  }

  /** In this turn thread t comes out of a barrier wait. */
  ghost predicate Leaves(c: Config, s: State, t: nat)
    requires Sized(c, s)
  {
    var s' := Next(c, s, t);
    if t < c.n then (s.workers[t].Waiting? || s.workers[t].Blocked?) && s'.workers[t].Working?
    else
      && t == c.n && (s.main.Waiting? || s.main.Blocked?)
      && (s'.main.Joining? || (s'.main.Waiting? && s'.main.k != s.main.k))
  }

  /** How often thread t comes out of a wait in a run. */
  ghost function Waits(c: Config, s: State, schedule: seq<nat>, t: nat): nat
    requires Sized(c, s)
    decreases |schedule|
  {
    if schedule == [] then 0
    else (if schedule[0] == t && Leaves(c, s, t) then 1 else 0) + Waits(c, Next(c, s, schedule[0]), schedule[1..], t)
  }

  function WaitsDone(c: Config, s: State, t: nat): nat
    requires |s.workers| == c.n
  {
    if t < c.n then CompletedWaits(s.workers[t]) else MainCompletedWaits(s.main)
  }

  lemma TurnCounted(c: Config, s: State, u: nat, t: nat)
    requires BarrierInv(c, s) && t <= c.n
    ensures WaitsDone(c, Next(c, s, u), t) == WaitsDone(c, s, t) + if u == t && Leaves(c, s, t) then 1 else 0
  {
    if t < c.n { assert WorkerInStep(c, s, s.workers[t]); }
  }

  lemma {:induction false} WaitsCounted(c: Config, s: State, schedule: seq<nat>, t: nat)
    requires BarrierInv(c, s) && t <= c.n
    ensures WaitsDone(c, Run(c, s, schedule), t) == WaitsDone(c, s, t) + Waits(c, s, schedule, t)
    decreases |schedule|
  {
    if schedule != [] {
      NextKeepsBarrier(c, s, schedule[0]);
      TurnCounted(c, s, schedule[0], t);
      WaitsCounted(c, Next(c, s, schedule[0]), schedule[1..], t);
    }
  }

  /** In any complete run every worker and the main thread come out of exactly four waits, in four generations
      of the barrier. */
  lemma FourWaits(c: Config, schedule: seq<nat>, t: nat)
    requires c.Valid() && t <= c.n && Run(c, Initial(c), schedule).main.Done?
    ensures Waits(c, Initial(c), schedule, t) == 4 && Run(c, Initial(c), schedule).gen == 4
  {
    Reachable(c, schedule);
    InitialBarrier(c);
    WaitsCounted(c, Initial(c), schedule, t);
  }

  /** What completed waits are: two threads never have come out of the barrier more than one time apart. */
  lemma WaitsApart(c: Config, schedule: seq<nat>, t: nat, u: nat)
    requires c.Valid() && t <= c.n && u <= c.n
    ensures Waits(c, Initial(c), schedule, t) <= Waits(c, Initial(c), schedule, u) + 1
  {
    Reachable(c, schedule);
    InitialBarrier(c);
    WaitsCounted(c, Initial(c), schedule, t);
    WaitsCounted(c, Initial(c), schedule, u);
    var s := Run(c, Initial(c), schedule);
    if t < c.n { assert WorkerInStep(c, s, s.workers[t]); }
    if u < c.n { assert WorkerInStep(c, s, s.workers[u]); }
  }

  // ---- Memory ----

  /** How often a worker has accessed vector d, counted from the start of its slice. */
  function Accesses(c: Config, w: Worker, d: nat): nat {
    match w
    case Unborn => 0
    case Waiting(k) => k * c.itn
    case Blocked(k, _) => k * c.itn
    case Working(k, j, e) => k * c.itn + j + (if d < e then 1 else 0)
    case Finished => ROUNDS * c.itn
  }

  /** The vectors worker w accesses in a pass. */
  predicate Covers(c: Config, w: nat, x: nat) {
    (c.first + w) * c.slice <= x < (c.first + w) * c.slice + c.Reach()
  }

  /** The accesses to vector x by a worker in this state, numbered w. */
  function Hit(c: Config, w: nat, worker: Worker, x: nat): nat {
    if Covers(c, w, x) then Accesses(c, worker, x - Address(c, w, 0)) else 0
  }

  function Hits(c: Config, workers: seq<Worker>, x: nat): nat {
    var l := |workers| - 1;
    if workers == [] then 0 else Hits(c, workers[..l], x) + Hit(c, l, workers[l], x)
  }

  /** How many of the first n workers access vector x. */
  function Owners(c: Config, n: nat, x: nat): nat {
    if n == 0 then 0 else Owners(c, n - 1, x) + (if Covers(c, n - 1, x) then 1 else 0)
  }

  lemma {:induction false} HitsUpdate(c: Config, workers: seq<Worker>, w: nat, worker: Worker, x: nat)
    requires w < |workers|
    ensures Hits(c, workers[w := worker], x) == Hits(c, workers, x) - Hit(c, w, workers[w], x) + Hit(c, w, worker, x)
    decreases |workers|
  {
    var l := |workers| - 1;
    if w == l {
      assert workers[w := worker][..l] == workers[..l];
    } else {
      assert workers[w := worker][..l] == workers[..l][w := worker];
      HitsUpdate(c, workers[..l], w, worker, x);
    }
  }

  lemma {:induction false} NoHitsYet(c: Config, workers: seq<Worker>, x: nat)
    requires forall w :: 0 <= w < |workers| ==> workers[w].Unborn?
    ensures Hits(c, workers, x) == 0
    decreases |workers|
  {
    if workers != [] { NoHitsYet(c, workers[..|workers| - 1], x); }
  }

  lemma {:induction false} AllHits(c: Config, workers: seq<Worker>, x: nat, each: nat)
    requires each == ROUNDS * c.itn && forall w :: 0 <= w < |workers| ==> workers[w].Finished?
    ensures Hits(c, workers, x) == each * Owners(c, |workers|, x)
    decreases |workers|
  {
    if workers != [] {
      var l := |workers| - 1;
      var before, worker := workers[..l], workers[l];
      AllHits(c, before, x, each);
      FinishedHit(c, l, worker, x, each);
      OneMoreOwner(each, Owners(c, l, x), Covers(c, l, x));
    }
  }

  lemma OneMoreOwner(each: nat, owners: nat, covers: bool)
    ensures each * (owners + if covers then 1 else 0) == each * owners + if covers then each else 0
  {
  }

  lemma FinishedHit(c: Config, w: nat, worker: Worker, x: nat, each: nat)
    requires each == ROUNDS * c.itn && worker.Finished?
    ensures Hit(c, w, worker, x) == if Covers(c, w, x) then each else 0
  {
  }

  lemma RoundDone(k: nat, itn: nat)
    ensures k * itn + itn == (k + 1) * itn == itn * (k + 1)
  {
  }

  ghost predicate ValuesInv(c: Config, s: State)
    requires Sized(c, s)
  {
    forall x :: 0 <= x < |s.mem| ==>
      s.mem[x] == if c.job.Store? && s.touches[x] > 0 then c.job.pattern else c.mem0[x]
  }

  ghost predicate TouchesInv(c: Config, s: State)
    requires Sized(c, s)
  {
    forall x :: 0 <= x < |s.touches| ==> s.touches[x] == Hits(c, s.workers, x)
  }

  ghost predicate MemoryInv(c: Config, s: State) {
    BarrierInv(c, s) && ValuesInv(c, s) && TouchesInv(c, s)
  }

  lemma InitialMemory(c: Config)
    requires c.Valid()
    ensures MemoryInv(c, Initial(c))
  {
    InitialBarrier(c);
    var s := Initial(c);
    forall x | 0 <= x < |s.touches|
      ensures s.touches[x] == Hits(c, s.workers, x)
    {
      NoHitsYet(c, s.workers, x);
    }
  }

  /** A turn of worker w touches at most one vector, and that is one of its pass. */
  lemma OnlyOwnPass(c: Config, s: State, w: nat, x: nat)
    requires Sized(c, s) && w < c.n && x < |s.mem| && !Covers(c, w, x)
    ensures StepWorker(c, s, w).mem[x] == s.mem[x] && StepWorker(c, s, w).touches[x] == s.touches[x]
  {
  }

  lemma AccessHits(c: Config, w: nat, k: nat, j: nat, e: nat, x: nat)
    requires e < c.Reach()
    ensures Hit(c, w, if InPass(c, e + 1) then Working(k, j, e + 1) else Working(k, j + 1, 0), x)
      == Hit(c, w, Working(k, j, e), x) + if x == Address(c, w, e) then 1 else 0
  {
  }

  lemma AccessKeepsTouches(c: Config, s: State, w: nat)
    requires MemoryInv(c, s) && w < c.n && s.workers[w].Working? && s.workers[w].j < c.itn
    ensures TouchesInv(c, StepWorker(c, s, w))
  {
    var s' := StepWorker(c, s, w);
    var Working(k, j, e) := s.workers[w];
    assert WorkerInStep(c, s, s.workers[w]);
    AddressInArea(c, w, e);
    forall x | 0 <= x < |s'.touches|
      ensures s'.touches[x] == Hits(c, s'.workers, x)
    {
      HitsUpdate(c, s.workers, w, s'.workers[w], x);
      AccessHits(c, w, k, j, e, x);
    }
  }

  /** A worker that accesses nothing in its turn keeps its number of accesses. */
  lemma QuietHits(c: Config, s: State, w: nat, x: nat)
    requires BarrierInv(c, s) && w < c.n && !(s.workers[w].Working? && s.workers[w].j < c.itn)
    ensures Hit(c, w, StepWorker(c, s, w).workers[w], x) == Hit(c, w, s.workers[w], x)
  {
    assert WorkerInStep(c, s, s.workers[w]);
    if s.workers[w].Working? { RoundDone(s.workers[w].k, c.itn); }
  }

  lemma QuietStep(c: Config, s: State, w: nat)
    requires BarrierInv(c, s) && w < c.n && !(s.workers[w].Working? && s.workers[w].j < c.itn)
    ensures var s' := StepWorker(c, s, w);
      s'.touches == s.touches && s'.mem == s.mem && s'.workers == s.workers[w := s'.workers[w]]
  {
  }

  lemma QuietStepKeepsTouches(c: Config, s: State, w: nat)
    requires MemoryInv(c, s) && w < c.n && !(s.workers[w].Working? && s.workers[w].j < c.itn)
    ensures StepWorker(c, s, w).touches == s.touches && StepWorker(c, s, w).mem == s.mem
    ensures TouchesInv(c, StepWorker(c, s, w))
  {
    var s' := StepWorker(c, s, w);
    QuietStep(c, s, w);
    forall x | 0 <= x < |s'.touches|
      ensures s'.touches[x] == Hits(c, s'.workers, x)
    {
      HitsUpdate(c, s.workers, w, s'.workers[w], x);
      QuietHits(c, s, w, x);
    }
  }

  lemma MainKeepsMemory(c: Config, s: State)
    requires MemoryInv(c, s)
    ensures MemoryInv(c, StepMain(c, s))
  {
    MainKeepsBarrier(c, s);
    var s' := StepMain(c, s);
    if s.main.Creating? && s.main.i < c.n {
      forall x | 0 <= x < |s'.touches|
        ensures s'.touches[x] == Hits(c, s'.workers, x)
      {
        HitsUpdate(c, s.workers, s.main.i, Worker.Waiting(0), x);
      }
    }
  }

  lemma NextKeepsMemory(c: Config, s: State, t: nat)
    requires MemoryInv(c, s)
    ensures MemoryInv(c, Next(c, s, t))
  {
    if t < c.n {
      WorkerKeepsBarrier(c, s, t);
      if s.workers[t].Working? && s.workers[t].j < c.itn {
        AccessKeepsTouches(c, s, t);
      } else {
        QuietStepKeepsTouches(c, s, t);
      }
    } else if t == c.n {
      MainKeepsMemory(c, s);
    }
  }

  lemma {:induction false} RunKeepsMemory(c: Config, s: State, schedule: seq<nat>)
    requires MemoryInv(c, s)
    ensures MemoryInv(c, Run(c, s, schedule))
    decreases |schedule|
  {
    if schedule != [] {
      NextKeepsMemory(c, s, schedule[0]);
      RunKeepsMemory(c, Next(c, s, schedule[0]), schedule[1..]);
    }
  }

  /** The area after a test: the pattern wherever a pass has been, everything else as before. */
  ghost function Result(c: Config): seq<Vector> {
    seq(|c.mem0|, x requires 0 <= x < |c.mem0| =>
      if c.job.Store? && c.itn > 0 && Owners(c, c.n, x) > 0 then c.job.pattern else c.mem0[x])
  }

  /** Whatever the schedule: when main is done, every vector has been accessed exactly 4 * itn times by each
      worker whose lines hold it, and the memory is Result(c). */
  lemma FinalMemory(c: Config, schedule: seq<nat>)
    requires c.Valid() && Run(c, Initial(c), schedule).main.Done?
    ensures var s := Run(c, Initial(c), schedule);
      && s.mem == Result(c)
      && (forall x :: 0 <= x < |s.mem| ==> s.touches[x] == 4 * c.itn * Owners(c, c.n, x))
  {
    var s := Run(c, Initial(c), schedule);
    InitialMemory(c);
    RunKeepsMemory(c, Initial(c), schedule);
    forall x | 0 <= x < |s.mem|
      ensures s.touches[x] == ROUNDS * c.itn * Owners(c, c.n, x) && s.mem[x] == Result(c)[x]
    {
      AllHits(c, s.workers, x, ROUNDS * c.itn);
      Positive(ROUNDS * c.itn, Owners(c, c.n, x));
    }
  }

  lemma Positive(a: nat, b: nat)
    ensures a * b > 0 <==> a > 0 && b > 0
  {
  }

  // ---- Rounds and memory ----

  lemma {:induction false} HitsBetween(c: Config, workers: seq<Worker>, x: nat, lo: nat, hi: nat)
    requires forall w, d: nat :: 0 <= w < |workers| && d < c.Reach() ==> lo <= Accesses(c, workers[w], d) <= hi
    ensures lo * Owners(c, |workers|, x) <= Hits(c, workers, x) <= hi * Owners(c, |workers|, x)
    decreases |workers|
  {
    if workers != [] {
      var l := |workers| - 1;
      HitsBetween(c, workers[..l], x, lo, hi);
      OneMoreOwner(lo, Owners(c, l, x), Covers(c, l, x));
      OneMoreOwner(hi, Owners(c, l, x), Covers(c, l, x));
      if Covers(c, l, x) { assert lo <= Accesses(c, workers[l], x - Address(c, l, 0)) <= hi; }
    }
  }

  lemma AccessesInRound(c: Config, s: State, w: nat, u: nat, d: nat)
    requires BarrierInv(c, s) && w < c.n && u < c.n && s.workers[w].Working? && d < c.Reach()
    ensures s.workers[w].k * c.itn <= Accesses(c, s.workers[u], d) <= (s.workers[w].k + 1) * c.itn
  {
    assert WorkerInStep(c, s, s.workers[w]) && WorkerInStep(c, s, s.workers[u]);
    RoundDone(s.workers[w].k, c.itn);
  }

  /** While some worker is in round k, every worker has made all the accesses of the rounds before k and none of a
      later one: each vector has been accessed between k * itn and (k + 1) * itn times by each worker whose lines
      hold it. */
  lemma RoundsInMemory(c: Config, schedule: seq<nat>, w: nat, x: nat)
    requires c.Valid() && w < c.n && x < |c.mem0| && Run(c, Initial(c), schedule).workers[w].Working?
    ensures var s := Run(c, Initial(c), schedule); var k := s.workers[w].k;
      k * c.itn * Owners(c, c.n, x) <= s.touches[x] <= (k + 1) * c.itn * Owners(c, c.n, x)
  {
    var s := Run(c, Initial(c), schedule);
    InitialMemory(c);
    RunKeepsMemory(c, Initial(c), schedule);
    forall u, d: nat | 0 <= u < |s.workers| && d < c.Reach()
      ensures s.workers[w].k * c.itn <= Accesses(c, s.workers[u], d) <= (s.workers[w].k + 1) * c.itn
    {
      AccessesInRound(c, s, w, u, d);
    }
    HitsBetween(c, s.workers, x, s.workers[w].k * c.itn, (s.workers[w].k + 1) * c.itn);
  }
}
