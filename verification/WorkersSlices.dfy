/** When the workers keep to their own slices. The line loop tests its guard once per 128-byte line, so
    a slice that is no whole number of lines is overrun by every pass. */
module WorkersSlices {
  import opened Schedules
  import opened Workers
  import opened WorkersRounds
  import opened WorkersProgress

  ghost predicate InSlice(c: Config, w: nat, x: nat) {
    Address(c, w, 0) <= x < Address(c, w, 0) + c.slice
  }

  /** The slices of all workers. */
  ghost predicate InSlices(c: Config, x: nat) {
    c.first * c.slice <= x < (c.first + c.n) * c.slice
  }

  /** In no run does a turn of any worker touch a vector outside that worker's slice. */
  ghost predicate KeepToSlices(c: Config)
    requires c.Valid()
  {
    forall schedule, w: nat, x: nat :: w < c.n && x < |c.mem0| && !InSlice(c, w, x) ==>
      var s := Run(c, Initial(c), schedule); StepWorker(c, s, w).touches[x] == s.touches[x]
  }

  /** The line after the last whole one belongs to nobody. */
  lemma PastTheLastSlice(c: Config, w: nat)
    requires c.Valid() && w < c.n
    ensures !InSlice(c, w, Address(c, c.n - 1, c.slice))
  {
    MulMonotone(c.first + w, c.first + c.n - 1, c.slice);
  }

  lemma {:induction false} NobodyTouches(c: Config, schedule: seq<nat>, x: nat)
    requires c.Valid() && KeepToSlices(c) && x < |c.mem0|
    requires forall w :: 0 <= w < c.n ==> !InSlice(c, w, x)
    ensures Run(c, Initial(c), schedule).touches[x] == 0
    decreases |schedule|
  {
    if schedule != [] {
      var l := |schedule| - 1;
      NobodyTouches(c, schedule[..l], x);
      RunSnoc(c, Initial(c), schedule[..l], schedule[l]);
      assert schedule == schedule[..l] + [schedule[l]];
      var s := Run(c, Initial(c), schedule[..l]);
      if schedule[l] < c.n {
        assert !InSlice(c, schedule[l], x);
        assert StepWorker(c, s, schedule[l]).touches[x] == s.touches[x];
      }
    }
  }

  /** Some schedule completes the test. */
  lemma SomeCompleteRun(c: Config) returns (schedule: seq<nat>)
    requires c.Valid()
    ensures Run(c, Initial(c), schedule).main.Done?
  {
    var block: seq<nat> := seq(c.n + 1, t => t);
    var blocks: seq<seq<nat>> := seq(Rank(c, Initial(c)), _ => block);
    assert Fair(c, block) by {
      forall t | 0 <= t <= c.n
        ensures t in block
      {
        assert block[t] == t;
      }
    }
    TestEnds(c, blocks);
    schedule := Concat(blocks);
  }

  lemma OverrunsLastSlice(c: Config)
    requires c.Valid() && c.slice % 8 != 0 && c.itn > 0
    ensures !KeepToSlices(c)
  {
    var x := Address(c, c.n - 1, c.slice);
    PassStaysInSlice(c);
    AddressInArea(c, c.n - 1, c.slice);
    var schedule := SomeCompleteRun(c);
    FinalMemory(c, schedule);
    assert Covers(c, c.n - 1, x);
    Positive(ROUNDS * c.itn, Owners(c, c.n, x));
    if KeepToSlices(c) {
      forall w | 0 <= w < c.n
        ensures !InSlice(c, w, x)
      {
        PastTheLastSlice(c, w);
      }
      NobodyTouches(c, schedule, x);
    }
  }

  /** The workers keep to their slices, in all runs, exactly when 128 divides the slice size or there are no passes. */
  lemma KeepToSlicesIffWholeLines(c: Config)
    requires c.Valid()
    ensures KeepToSlices(c) <==> c.slice % 8 == 0 || c.itn == 0
  {
    if c.slice % 8 == 0 || c.itn == 0 {
      PassStaysInSlice(c);
      forall schedule, w: nat, x: nat | w < c.n && x < |c.mem0| && !InSlice(c, w, x)
        ensures var s := Run(c, Initial(c), schedule); StepWorker(c, s, w).touches[x] == s.touches[x]
      {
        if c.itn > 0 { OnlyOwnPass(c, Run(c, Initial(c), schedule), w, x); }
      }
    } else {
      OverrunsLastSlice(c);
    }
  }

  // ---- Whole lines: every vector has one owner ----

  lemma {:induction false} OwnersOfWholeLines(c: Config, n: nat, x: nat)
    requires c.slice >= 1 && c.slice % 8 == 0
    ensures Owners(c, n, x) == if c.first * c.slice <= x < (c.first + n) * c.slice then 1 else 0
    decreases n
  {
    PassStaysInSlice(c);
    if n > 0 {
      OwnersOfWholeLines(c, n - 1, x);
      MulMonotone(c.first, c.first + n - 1, c.slice);
      RoundDone(c.first + n - 1, c.slice);
    }
  }

  /** With whole lines, every vector of the slices is accessed exactly 4 * itn times and holds the pattern;
      no other one is accessed at all. */
  lemma FinalMemoryOfWholeLines(c: Config, schedule: seq<nat>, x: nat)
    requires c.Valid() && c.slice % 8 == 0 && Run(c, Initial(c), schedule).main.Done? && x < |c.mem0|
    ensures var s := Run(c, Initial(c), schedule);
      && s.touches[x] == (if InSlices(c, x) then 4 * c.itn else 0)
      && s.mem[x] == if c.job.Store? && c.itn > 0 && InSlices(c, x) then c.job.pattern else c.mem0[x]
  {
    FinalMemory(c, schedule);
    OwnersOfWholeLines(c, c.n, x);
  }

  /** Without whole lines, the first vector of every slice but the first is accessed by two workers at least,
      and so is not a matter of its own worker alone. */
  lemma NeighbourOverrun(c: Config, schedule: seq<nat>, w: nat)
    requires c.Valid() && c.slice % 8 != 0 && Run(c, Initial(c), schedule).main.Done? && 1 <= w < c.n
    ensures Address(c, w, 0) < |c.mem0|
    ensures Run(c, Initial(c), schedule).touches[Address(c, w, 0)] >= 2 * (4 * c.itn)
  {
    var x := Address(c, w, 0);
    PassStaysInSlice(c);
    AddressInArea(c, w, 0);
    FinalMemory(c, schedule);
    RoundDone(c.first + w - 1, c.slice);
    TwoOwners(c, c.n, w - 1, w, x);
    MulMonotone(2, Owners(c, c.n, x), ROUNDS * c.itn);
  }

  lemma {:induction false} TwoOwners(c: Config, n: nat, v: nat, w: nat, x: nat)
    requires v < w < n && Covers(c, v, x) && Covers(c, w, x)
    ensures Owners(c, n, x) >= 2
    decreases n
  {
    if w == n - 1 {
      OneOwner(c, n - 1, v, x);
    } else {
      TwoOwners(c, n - 1, v, w, x);
    }
  }

  lemma {:induction false} OneOwner(c: Config, n: nat, v: nat, x: nat)
    requires v < n && Covers(c, v, x)
    ensures Owners(c, n, x) >= 1
    decreases n
  {
    if v < n - 1 { OneOwner(c, n - 1, v, x); }
  }
}
