/** The throughput test: start_threads creates n workers that run in step with the main thread through an
    (n+1)-party barrier. Each worker goes four times over its own slice of the area, `itn` passes each time.
    A 16-byte vector access is one atomic step, and so is entering and leaving the barrier. */
module Workers {
  import opened FiniteSets

  const ROUNDS := 4
  const VECTORS := 8 // in a 128-byte cache line

  datatype Vector = Vector(a: real, b: real, c: real, d: real)

  /** thread_write_cache_area and thread_clear_cache_area store a fixed pattern, thread_read_cache_area stores
      nothing. */
  datatype Job = Store(pattern: Vector) | Load

  /** `first` is first_cpu, `slice` is area_test_size in vectors, `mem0` is the area before the test. */
  datatype Config = Config(n: nat, first: nat, slice: nat, itn: nat, job: Job, mem0: seq<Vector>) {
    ghost predicate Valid() {
      n >= 1 && slice >= 1 && |mem0| >= (first + n - 1) * slice + Reach()
    }

    /** The vectors of a pass: the line loop goes on while its line starts inside the slice. */
    function Reach(): (r: nat)
      ensures slice <= r < slice + 8 && r % 8 == 0
    {
      (slice + VECTORS - 1) / VECTORS * VECTORS
    }
  }

  /** Waiting(k) has completed k waits; Blocked(k, gen) is inside its next wait, entered in generation gen;
      Working(k, j, d) accesses vector d of pass j in round k. */
  datatype Worker = Unborn | Waiting(k: nat) | Blocked(k: nat, gen: nat) | Working(k: nat, j: nat, d: nat) | Finished
  datatype Main = Creating(i: nat) | Waiting(k: nat) | Blocked(k: nat, gen: nat) | Joining(i: nat) | Destroying | Done

  /** The barrier counts the threads inside and the generations completed; `touches` counts the accesses to
      each vector. */
  datatype State = State(
    workers: seq<Worker>, main: Main, gen: nat, inside: nat, mem: seq<Vector>, touches: seq<nat>)

  function Initial(c: Config): State {
    State(seq(c.n, _ => Unborn), Creating(0), 0, 0, c.mem0, seq(|c.mem0|, _ => 0))
  }

  /** Address of vector d in the slice of worker w, whose number is first + w. */
  function Address(c: Config, w: nat, d: nat): nat {
    (c.first + w) * c.slice + d
  }

  lemma MulMonotone(a: nat, b: nat, m: nat)
    requires a <= b
    ensures a * m <= b * m
  {
  }

  lemma AddressInArea(c: Config, w: nat, d: nat)
    requires c.Valid() && w < c.n && d < c.Reach()
    ensures c.first * c.slice <= Address(c, w, d) < (c.first + c.n - 1) * c.slice + c.Reach() <= |c.mem0|
  {
    MulMonotone(c.first + w, c.first + c.n - 1, c.slice);
    MulMonotone(c.first, c.first + w, c.slice);
  }

  /** The guard `d < e` is tested once per line, for all the vectors of the line. */
  predicate InPass(c: Config, d: nat): (r: bool)
    ensures r <==> d < c.Reach()
  {
    d / VECTORS * VECTORS < c.slice
  }

  /** The slices of different workers are disjoint. */
  lemma SlicesDisjoint(c: Config, w: nat, d: nat, w': nat, d': nat)
    requires d < c.slice && d' < c.slice
    ensures Address(c, w, d) == Address(c, w', d') <==> w == w' && d == d'
  {
    if w < w' {
      MulMonotone(c.first + w + 1, c.first + w', c.slice);
    } else if w' < w {
      MulMonotone(c.first + w' + 1, c.first + w, c.slice);
    }
  }

  /** The line loop stays inside the slice exactly when that is a whole number of lines. */
  lemma PassStaysInSlice(c: Config)
    ensures c.Reach() == c.slice <==> c.slice % 8 == 0
    ensures (forall d: nat :: InPass(c, d) ==> d < c.slice) <==> c.slice % 8 == 0
  {
    if c.Reach() != c.slice { assert InPass(c, c.slice); }
  }

  function Access(c: Config, s: State, w: nat, d: nat): State
    requires Address(c, w, d) < |s.mem| == |s.touches|
  {
    var x := Address(c, w, d);
    s.(mem := if c.job.Store? then s.mem[x := c.job.pattern] else s.mem,
       touches := s.touches[x := s.touches[x] + 1])
  }

  function StepWorker(c: Config, s: State, w: nat): (r: State)
    requires Sized(c, s) && w < c.n
    ensures Sized(c, r)
  {
    match s.workers[w]
    case Unborn => s
    case Waiting(k) =>
      if s.inside == c.n then s.(workers := s.workers[w := Working(k, 0, 0)], inside := 0, gen := s.gen + 1)
      else s.(workers := s.workers[w := Worker.Blocked(k, s.gen)], inside := s.inside + 1)
    case Blocked(k, g) =>
      if g == s.gen then s else s.(workers := s.workers[w := Working(k, 0, 0)])
    case Working(k, j, d) =>
      if j < c.itn && InPass(c, d) then
        AddressInArea(c, w, d);
        var next := if InPass(c, d + 1) then Working(k, j, d + 1) else Working(k, j + 1, 0);
        Access(c, s, w, d).(workers := s.workers[w := next])
      else s.(workers := s.workers[w := if k + 1 < ROUNDS then Worker.Waiting(k + 1) else Finished])
    case Finished => s
  }

  function StepMain(c: Config, s: State): (r: State)
    requires Sized(c, s)
    ensures Sized(c, r)
  {
    match s.main
    case Creating(i) =>
      if i < c.n then s.(workers := s.workers[i := Worker.Waiting(0)], main := Creating(i + 1))
      else s.(main := Main.Waiting(0))
    case Waiting(k) =>
      if s.inside == c.n then s.(main := AfterWait(k), inside := 0, gen := s.gen + 1)
      else s.(main := Main.Blocked(k, s.gen), inside := s.inside + 1)
    case Blocked(k, g) => if g == s.gen then s else s.(main := AfterWait(k))
    case Joining(i) =>
      if i >= c.n then s.(main := Destroying)
      else if s.workers[i].Finished? then s.(main := Joining(i + 1))
      else s
    case Destroying => s.(main := Done)
    case Done => s
  }

  /** Main waits once for the start and three times more. */
  function AfterWait(k: nat): Main {
    if k + 1 < ROUNDS then Main.Waiting(k + 1) else Joining(0)
  }

  ghost predicate Sized(c: Config, s: State) {
    c.Valid() && |s.workers| == c.n && |s.mem| == |s.touches| == |c.mem0|
  }

  /** One turn of thread t: worker t, or the main thread for t = n. A thread that cannot move changes nothing. */
  function Next(c: Config, s: State, t: nat): (r: State)
    requires Sized(c, s)
    ensures Sized(c, r)
  {
    if t < c.n then StepWorker(c, s, t) else if t == c.n then StepMain(c, s) else s
  }

  function Run(c: Config, s: State, schedule: seq<nat>): (r: State)
    requires Sized(c, s)
    ensures Sized(c, r)
    decreases |schedule|
  {
    if schedule == [] then s else Run(c, Next(c, s, schedule[0]), schedule[1..])
  }

  lemma {:induction false} RunSnoc(c: Config, s: State, schedule: seq<nat>, t: nat)
    requires Sized(c, s)
    ensures Run(c, s, schedule + [t]) == Next(c, Run(c, s, schedule), t)
    decreases |schedule|
  {
    if schedule == [] {
      assert [] + [t] == [t] && [t][1..] == [];
    } else {
      assert (schedule + [t])[0] == schedule[0] && (schedule + [t])[1..] == schedule[1..] + [t];
      RunSnoc(c, Next(c, s, schedule[0]), schedule[1..], t);
    }
  }

  // ---- The barrier ----

  /** Thread t is inside the barrier in its current generation. */
  ghost predicate Within(c: Config, s: State, t: nat)
    requires |s.workers| == c.n
  {
    if t < c.n then s.workers[t].Blocked? && s.workers[t].gen == s.gen
    else t == c.n && s.main.Blocked? && s.main.gen == s.gen
  }

  ghost function Inside(c: Config, s: State): set<nat>
    requires |s.workers| == c.n
  {
    set t | 0 <= t <= c.n && Within(c, s, t)
  }

  /** How far a worker is, relative to the generations completed. */
  ghost predicate WorkerInStep(c: Config, s: State, w: Worker) {
    match w
    case Unborn => s.gen == 0
    case Waiting(k) => k == s.gen < ROUNDS
    case Blocked(k, g) => g == k < ROUNDS && (k == s.gen || k + 1 == s.gen)
    case Working(k, j, d) => k + 1 == s.gen && ((j < c.itn && InPass(c, d)) || (j == c.itn && d == 0))
    case Finished => s.gen == ROUNDS
  }

  ghost predicate MainInStep(c: Config, s: State)
    requires |s.workers| == c.n
  {
    match s.main
    case Creating(i) => s.gen == 0 && i <= c.n && forall w :: 0 <= w < c.n ==> (s.workers[w].Unborn? <==> i <= w)
    case Waiting(k) => k == s.gen < ROUNDS && forall w :: 0 <= w < c.n ==> !s.workers[w].Unborn?
    case Blocked(k, g) =>
      && g == k < ROUNDS && (k == s.gen || k + 1 == s.gen)
      && forall w :: 0 <= w < c.n ==> !s.workers[w].Unborn?
    case Joining(i) => s.gen == ROUNDS && i <= c.n && forall w :: 0 <= w < i ==> s.workers[w].Finished?
    case Destroying => s.gen == ROUNDS && forall w :: 0 <= w < c.n ==> s.workers[w].Finished?
    case Done => s.gen == ROUNDS && forall w :: 0 <= w < c.n ==> s.workers[w].Finished?
  }

  ghost predicate BarrierInv(c: Config, s: State) {
    && Sized(c, s)
    && s.inside == |Inside(c, s)| <= c.n
    && MainInStep(c, s)
    && forall w :: 0 <= w < c.n ==> WorkerInStep(c, s, s.workers[w])
  }

  lemma InitialBarrier(c: Config)
    requires c.Valid()
    ensures BarrierInv(c, Initial(c))
  {
    assert Inside(c, Initial(c)) == {};
  }

  /** When n threads are inside, everyone but the last comer is. */
  lemma EveryoneElseInside(c: Config, s: State, t: nat)
    requires BarrierInv(c, s) && s.inside == c.n && t <= c.n && !Within(c, s, t)
    ensures forall u :: 0 <= u <= c.n && u != t ==> Within(c, s, u)
  {
    SubsetOfSameSize(Inside(c, s), Below(c.n + 1) - {t});
    forall u | 0 <= u <= c.n && u != t
      ensures Within(c, s, u)
    {
      assert u in Inside(c, s);
    }
  }

  /** The last thread t to enter starts a new generation with nobody inside, and all the others
      are one completed wait behind it. */
  lemma NewGeneration(c: Config, s: State, t: nat, s': State)
    requires BarrierInv(c, s) && s.inside == c.n && t <= c.n && !Within(c, s, t) && s.gen < ROUNDS
    requires Sized(c, s') && s'.gen == s.gen + 1
    requires forall u :: 0 <= u < c.n && u != t ==> s'.workers[u] == s.workers[u]
    requires t < c.n ==> s'.main == s.main && s'.workers[t] == Working(s.gen, 0, 0)
    requires t == c.n ==> s'.main == AfterWait(s.gen)
    ensures Inside(c, s') == {}
    ensures forall u :: 0 <= u < c.n && u != t ==> WorkerInStep(c, s', s'.workers[u]) && !s'.workers[u].Unborn?
    ensures MainInStep(c, s')
  {
    EveryoneElseInside(c, s, t);
    forall u | 0 <= u < c.n && u != t
      ensures WorkerInStep(c, s', s'.workers[u]) && !s'.workers[u].Unborn? && !Within(c, s', u)
    {
      assert Within(c, s, u);
    }
    if t < c.n { assert Within(c, s, c.n); }
  }

  lemma WorkerKeepsBarrier(c: Config, s: State, w: nat)
    requires BarrierInv(c, s) && w < c.n
    ensures BarrierInv(c, StepWorker(c, s, w))
  {
    var s' := StepWorker(c, s, w);
    assert WorkerInStep(c, s, s.workers[w]);
    if s.workers[w].Waiting? {
      if s.inside == c.n {
        NewGeneration(c, s, w, s');
        assert WorkerInStep(c, s', s'.workers[w]);
      } else {
        assert Inside(c, s') == Inside(c, s) + {w};
        OneMoreInside(c, s, w);
      }
    } else {
      WorkerMovesOutside(c, s, w);
    }
  }

  lemma WorkerMovesOutside(c: Config, s: State, w: nat)
    requires BarrierInv(c, s) && w < c.n && !s.workers[w].Waiting?
    ensures BarrierInv(c, StepWorker(c, s, w))
  {
    var s' := StepWorker(c, s, w);
    assert s'.gen == s.gen && s'.main == s.main && s'.inside == s.inside;
    assert forall u :: 0 <= u < c.n && u != w ==> s'.workers[u] == s.workers[u];
    assert WorkerInStep(c, s, s.workers[w]);
    assert Inside(c, s') == Inside(c, s);
  }

  /** A thread outside the barrier leaves room for itself. */
  lemma OneMoreInside(c: Config, s: State, t: nat)
    requires BarrierInv(c, s) && s.inside < c.n && t <= c.n && !Within(c, s, t)
    ensures |Inside(c, s) + {t}| == s.inside + 1 <= c.n
  {
  }

  lemma MainKeepsBarrier(c: Config, s: State)
    requires BarrierInv(c, s)
    ensures BarrierInv(c, StepMain(c, s))
  {
    var s' := StepMain(c, s);
    if s.main.Waiting? {
      if s.inside == c.n {
        NewGeneration(c, s, c.n, s');
      } else {
        assert Inside(c, s') == Inside(c, s) + {c.n};
        OneMoreInside(c, s, c.n);
      }
    } else if s.main.Creating? && s.main.i < c.n {
      MainCreates(c, s);
    } else {
      MainMovesOutside(c, s);
    }
  }

  lemma MainCreates(c: Config, s: State)
    requires BarrierInv(c, s) && s.main.Creating? && s.main.i < c.n
    ensures BarrierInv(c, StepMain(c, s))
  {
    var s' := StepMain(c, s);
    assert forall u :: 0 <= u < c.n && u != s.main.i ==> s'.workers[u] == s.workers[u];
    assert Inside(c, s') == Inside(c, s);
  }

  lemma MainMovesOutside(c: Config, s: State)
    requires BarrierInv(c, s) && !s.main.Waiting? && !(s.main.Creating? && s.main.i < c.n)
    ensures BarrierInv(c, StepMain(c, s))
  {
    var s' := StepMain(c, s);
    assert s'.gen == s.gen && s'.inside == s.inside && s'.workers == s.workers;
    assert Inside(c, s') == Inside(c, s);
  }

  lemma NextKeepsBarrier(c: Config, s: State, t: nat)
    requires BarrierInv(c, s)
    ensures BarrierInv(c, Next(c, s, t))
  {
    if t < c.n { WorkerKeepsBarrier(c, s, t); } else if t == c.n { MainKeepsBarrier(c, s); }
  }

  lemma {:induction false} RunKeepsBarrier(c: Config, s: State, schedule: seq<nat>)
    requires BarrierInv(c, s)
    ensures BarrierInv(c, Run(c, s, schedule))
    decreases |schedule|
  {
    if schedule != [] {
      NextKeepsBarrier(c, s, schedule[0]);
      RunKeepsBarrier(c, Next(c, s, schedule[0]), schedule[1..]);
    }
  }
}
