/** The loops of thread_write_cache_area and thread_read_cache_area over the real area: running them is
    taking the worker's turns. */
module WorkersLoops {
  import opened Workers
  import opened WorkersRounds

  /** The machine after n turns of one worker in a row. */
  ghost function Turns(c: Config, s: State, w: nat, n: nat): (r: State)
    requires Sized(c, s)
    ensures Sized(c, r)
    decreases n
  {
    if n == 0 then s else Turns(c, Next(c, s, w), w, n - 1)
  }

  lemma {:induction false} TurnsSnoc(c: Config, s: State, w: nat, n: nat)
    requires Sized(c, s)
    ensures Turns(c, s, w, n + 1) == Next(c, Turns(c, s, w, n), w)
    decreases n
  {
    if n > 0 { TurnsSnoc(c, Next(c, s, w), w, n - 1); }
  }

  /** The schedule that gives one worker n turns in a row. */
  function Solo(w: nat, n: nat): (schedule: seq<nat>)
    ensures |schedule| == n && forall i :: 0 <= i < n ==> schedule[i] == w
  {
    seq(n, _ => w)
  }

  lemma {:induction false} TurnsAreARun(c: Config, s: State, w: nat, n: nat)
    requires Sized(c, s)
    ensures Run(c, s, Solo(w, n)) == Turns(c, s, w, n)
    decreases n
  {
    var schedule := Solo(w, n);
    if n > 0 {
      assert schedule[0] == w && schedule[1..] == Solo(w, n - 1);
      TurnsAreARun(c, Next(c, s, w), w, n - 1);
    }
  }

  /** The area is the memory of the machine after n turns of worker w, which is about to access vector d of pass j. */
  ghost predicate InTurn(c: Config, s0: State, area: seq<Vector>, w: nat, n: nat, k: nat, j: nat, d: nat) {
    && Sized(c, s0) && w < c.n
    && var s := Turns(c, s0, w, n);
       area == s.mem && s.workers[w] == Working(k, j, d)
  }

  /** The area is the memory of the machine after these turns of worker w, which has no pass of round k left. */
  ghost predicate RoundOver(c: Config, s0: State, area: seq<Vector>, w: nat, k: nat, schedule: seq<nat>) {
    && Sized(c, s0) && w < c.n
    && var s := Run(c, s0, schedule);
       area == s.mem && s.workers[w] == Working(k, c.itn, 0)
  }

  /** The place before vector d of pass j; past the last vector that is the start of the next pass. */
  ghost predicate Reached(c: Config, s0: State, area: seq<Vector>, w: nat, n: nat, k: nat, j: nat, d: nat) {
    if d < c.Reach() then InTurn(c, s0, area, w, n, k, j, d) else InTurn(c, s0, area, w, n, k, j + 1, 0)
  }

  /** A line that starts in the slice is accessed as a whole, and the last such line ends the pass. */
  lemma LineFits(c: Config, d: nat)
    requires d % VECTORS == 0 && d <= c.Reach()
    ensures d < c.slice ==> d + VECTORS <= c.Reach() && (d + VECTORS) % VECTORS == 0
    ensures d >= c.slice ==> d == c.Reach()
  {
  }

  lemma NextPass(j: nat, reach: nat)
    ensures j * reach + reach == (j + 1) * reach
  {
  }

  // ---- The writing worker ----

  /** One vector store is one turn. */
  method StoreVector(c: Config, area: array<Vector>, w: nat, d: nat,
      ghost s0: State, ghost n: nat, ghost k: nat, ghost j: nat)
    requires c.job.Store? && j < c.itn && d < c.Reach() && Reached(c, s0, area[..], w, n, k, j, d)
    modifies area
    ensures Reached(c, s0, area[..], w, n + 1, k, j, d + 1)
  {
    TurnsSnoc(c, s0, w, n);
    AddressInArea(c, w, d);
    area[Address(c, w, d)] := c.job.pattern;
  }

  /** One turn of the line loop: eight stores. */
  method StoreLine(c: Config, area: array<Vector>, w: nat, d: nat,
      ghost s0: State, ghost n: nat, ghost k: nat, ghost j: nat)
    requires c.job.Store? && j < c.itn && d + VECTORS <= c.Reach() && Reached(c, s0, area[..], w, n, k, j, d)
    modifies area
    ensures Reached(c, s0, area[..], w, n + VECTORS, k, j, d + VECTORS)
  {
    StoreVector(c, area, w, d, s0, n, k, j);
    StoreVector(c, area, w, d + 1, s0, n + 1, k, j);
    StoreVector(c, area, w, d + 2, s0, n + 2, k, j);
    StoreVector(c, area, w, d + 3, s0, n + 3, k, j);
    StoreVector(c, area, w, d + 4, s0, n + 4, k, j);
    StoreVector(c, area, w, d + 5, s0, n + 5, k, j);
    StoreVector(c, area, w, d + 6, s0, n + 6, k, j);
    StoreVector(c, area, w, d + 7, s0, n + 7, k, j);
  }

  /** The line loop of one pass. */
  method StorePass(c: Config, area: array<Vector>, w: nat, ghost s0: State, ghost n: nat, ghost k: nat, ghost j: nat)
    requires c.Valid() && c.job.Store? && j < c.itn && Reached(c, s0, area[..], w, n, k, j, 0)
    modifies area
    ensures Reached(c, s0, area[..], w, n + c.Reach(), k, j, c.Reach())
  {
    ghost var m := n;
    var d := 0;
    while d < c.slice
      invariant 0 <= d <= c.Reach() && d % VECTORS == 0 && m == n + d
      invariant Reached(c, s0, area[..], w, m, k, j, d)
    {
      LineFits(c, d);
      StoreLine(c, area, w, d, s0, m, k, j);
      d, m := d + VECTORS, m + VECTORS;
    }
    LineFits(c, d);
  }

  /** The first `upTo` vectors from the start of worker w's slice hold the pattern; everything else is as before. */
  ghost predicate Written(c: Config, w: nat, before: seq<Vector>, after: seq<Vector>, upTo: nat)
    requires c.job.Store?
  {
    && |after| == |before|
    && (forall x :: 0 <= x < |before| && Address(c, w, 0) <= x < Address(c, w, upTo) ==> after[x] == c.job.pattern)
    && (forall x :: 0 <= x < |before| && !(Address(c, w, 0) <= x < Address(c, w, upTo)) ==> after[x] == before[x])
  }

  /** The two loops of round k of a writing worker. They write what itn passes of its turns write in the machine
      and leave it at the end of its round: the pattern in all its lines, if there is any pass at all, and
      nowhere else. */
  method StoreRound(c: Config, area: array<Vector>, w: nat, ghost s0: State, ghost k: nat)
    requires c.Valid() && c.job.Store? && InTurn(c, s0, area[..], w, 0, k, 0, 0)
    modifies area
    ensures RoundOver(c, s0, area[..], w, k, Solo(w, c.itn * c.Reach()))
    ensures Written(c, w, old(area[..]), area[..], if c.itn > 0 then c.Reach() else 0)
  {
    var j := 0;
    ghost var n := 0;
    while j < c.itn
      invariant 0 <= j <= c.itn && n == j * c.Reach()
      invariant InTurn(c, s0, area[..], w, n, k, j, 0)
    {
      StorePass(c, area, w, s0, n, k, j);
      NextPass(j, c.Reach());
      n, j := n + c.Reach(), j + 1;
    }
    TurnsAccess(c, s0, w, k, n, j, 0);
    TurnsAreARun(c, s0, w, n);
  }

  // ---- The reading worker ----

  /** One vector load is one turn. */
  method LoadVector(c: Config, area: array<Vector>, w: nat, d: nat,
      ghost s0: State, ghost n: nat, ghost k: nat, ghost j: nat)
    returns (v: Vector)
    requires c.job.Load? && j < c.itn && d < c.Reach() && Reached(c, s0, area[..], w, n, k, j, d)
    ensures Reached(c, s0, area[..], w, n + 1, k, j, d + 1)
    ensures Address(c, w, d) < area.Length && v == area[Address(c, w, d)]
  {
    TurnsSnoc(c, s0, w, n);
    AddressInArea(c, w, d);
    v := area[Address(c, w, d)];
  }

  /** The thread's own buffer holds the line of worker w that starts at vector d of its slice. */
  ghost predicate HoldsLine(c: Config, area: seq<Vector>, tab: seq<Vector>, w: nat, d: nat) {
    Address(c, w, d) + VECTORS <= |area| && tab == area[Address(c, w, d)..Address(c, w, d) + VECTORS]
  }

  /** One turn of the line loop: eight loads. */
  method LoadLine(c: Config, area: array<Vector>, w: nat, d: nat,
      ghost s0: State, ghost n: nat, ghost k: nat, ghost j: nat)
    returns (tab: seq<Vector>)
    requires c.job.Load? && j < c.itn && d + VECTORS <= c.Reach() && Reached(c, s0, area[..], w, n, k, j, d)
    ensures Reached(c, s0, area[..], w, n + VECTORS, k, j, d + VECTORS)
    ensures HoldsLine(c, area[..], tab, w, d)
  {
    var v0 := LoadVector(c, area, w, d, s0, n, k, j);
    var v1 := LoadVector(c, area, w, d + 1, s0, n + 1, k, j);
    var v2 := LoadVector(c, area, w, d + 2, s0, n + 2, k, j);
    var v3 := LoadVector(c, area, w, d + 3, s0, n + 3, k, j);
    var v4 := LoadVector(c, area, w, d + 4, s0, n + 4, k, j);
    var v5 := LoadVector(c, area, w, d + 5, s0, n + 5, k, j);
    var v6 := LoadVector(c, area, w, d + 6, s0, n + 6, k, j);
    var v7 := LoadVector(c, area, w, d + 7, s0, n + 7, k, j);
    tab := [v0, v1, v2, v3, v4, v5, v6, v7];
    EightVectors(area[..], Address(c, w, d), tab);
  }

  lemma EightVectors(area: seq<Vector>, x: nat, tab: seq<Vector>)
    requires x + 7 < |area| && |tab| == VECTORS
    requires tab[0] == area[x] && tab[1] == area[x + 1] && tab[2] == area[x + 2] && tab[3] == area[x + 3]
    requires tab[4] == area[x + 4] && tab[5] == area[x + 5] && tab[6] == area[x + 6] && tab[7] == area[x + 7]
    ensures tab == area[x..x + VECTORS]
  {
  }

  /** The line loop of one pass; it ends with the last line in the buffer. */
  method LoadPass(c: Config, area: array<Vector>, w: nat, ghost s0: State, ghost n: nat, ghost k: nat, ghost j: nat)
    returns (tab: seq<Vector>)
    requires c.Valid() && c.job.Load? && j < c.itn && Reached(c, s0, area[..], w, n, k, j, 0)
    ensures Reached(c, s0, area[..], w, n + c.Reach(), k, j, c.Reach())
    ensures HoldsLine(c, area[..], tab, w, c.Reach() - VECTORS)
  {
    tab := [];
    ghost var m := n;
    var d := 0;
    while d < c.slice
      invariant 0 <= d <= c.Reach() && d % VECTORS == 0 && m == n + d
      invariant Reached(c, s0, area[..], w, m, k, j, d)
      invariant d > 0 ==> HoldsLine(c, area[..], tab, w, d - VECTORS)
    {
      LineFits(c, d);
      tab := LoadLine(c, area, w, d, s0, m, k, j);
      d, m := d + VECTORS, m + VECTORS;
    }
    LineFits(c, d);
  }

  /** The two loops of round k of a reading worker. The three variants of the source differ in prefetch hints
      only. The area stays as it is, and the machine is at the end of the worker's round. */
  method LoadRound(c: Config, area: array<Vector>, w: nat, ghost s0: State, ghost k: nat) returns (tab: seq<Vector>)
    requires c.Valid() && c.job.Load? && InTurn(c, s0, area[..], w, 0, k, 0, 0)
    ensures RoundOver(c, s0, area[..], w, k, Solo(w, c.itn * c.Reach()))
    ensures c.itn > 0 ==> HoldsLine(c, area[..], tab, w, c.Reach() - VECTORS)
  {
    tab := [];
    var j := 0;
    ghost var n := 0;
    while j < c.itn
      invariant 0 <= j <= c.itn && n == j * c.Reach()
      invariant InTurn(c, s0, area[..], w, n, k, j, 0)
      invariant j > 0 ==> HoldsLine(c, area[..], tab, w, c.Reach() - VECTORS)
    {
      tab := LoadPass(c, area, w, s0, n, k, j);
      NextPass(j, c.Reach());
      n, j := n + c.Reach(), j + 1;
    }
    TurnsAreARun(c, s0, w, n);
  }

  // ---- The turns of a round, seen from outside ----

  /** In j whole passes and d vectors of the next one. */
  function Times(c: Config, w: nat, j: nat, d: nat, x: nat): nat {
    if Covers(c, w, x) then j + (if x < Address(c, w, d) then 1 else 0) else 0
  }

  ghost predicate Touched(c: Config, w: nat, before: seq<nat>, after: seq<nat>, j: nat, d: nat) {
    |after| == |before| && forall x :: 0 <= x < |before| ==> after[x] == before[x] + Times(c, w, j, d, x)
  }

  ghost predicate MemoryAfter(c: Config, w: nat, before: seq<Vector>, after: seq<Vector>, j: nat, d: nat) {
    if c.job.Store? then Written(c, w, before, after, if j > 0 then c.Reach() else d) else after == before
  }

  /** Vector d of pass j, and the place after it. */
  lemma OneAccess(c: Config, s: State, w: nat, k: nat, j: nat, d: nat)
    requires Sized(c, s) && w < c.n && s.workers[w] == Working(k, j, d) && j < c.itn && d < c.Reach()
    ensures Address(c, w, d) < |s.mem|
    ensures var s', x := Next(c, s, w), Address(c, w, d);
      && s'.workers[w] == (if d + 1 < c.Reach() then Working(k, j, d + 1) else Working(k, j + 1, 0))
      && s'.touches == s.touches[x := s.touches[x] + 1]
      && s'.mem == if c.job.Store? then s.mem[x := c.job.pattern] else s.mem
  {
    AddressInArea(c, w, d);
  }

  lemma TouchedOneMore(c: Config, w: nat, before: seq<nat>, after: seq<nat>, j: nat, d: nat)
    requires Touched(c, w, before, after, j, d) && d < c.Reach() && Address(c, w, d) < |after|
    ensures var after' := after[Address(c, w, d) := after[Address(c, w, d)] + 1];
      if d + 1 < c.Reach() then Touched(c, w, before, after', j, d + 1) else Touched(c, w, before, after', j + 1, 0)
  {
  }

  lemma WrittenOneMore(c: Config, w: nat, before: seq<Vector>, after: seq<Vector>, j: nat, d: nat)
    requires MemoryAfter(c, w, before, after, j, d) && d < c.Reach() && Address(c, w, d) < |after|
    ensures var after' := if c.job.Store? then after[Address(c, w, d) := c.job.pattern] else after;
      if d + 1 < c.Reach() then MemoryAfter(c, w, before, after', j, d + 1)
      else MemoryAfter(c, w, before, after', j + 1, 0)
  {
  }

  /** The turns of worker w in its round, seen from outside: after n of them it is at vector d of pass j, and
      exactly the vectors before that place have been accessed, as often as there were passes. */
  lemma {:induction false} TurnsAccess(c: Config, s0: State, w: nat, k: nat, n: nat, j: nat, d: nat)
    requires Sized(c, s0) && w < c.n && s0.workers[w] == Working(k, 0, 0)
    requires n == j * c.Reach() + d && d < c.Reach() && (j < c.itn || (j == c.itn && d == 0))
    ensures var s := Turns(c, s0, w, n);
      && s.workers[w] == Working(k, j, d)
      && Touched(c, w, s0.touches, s.touches, j, d)
      && MemoryAfter(c, w, s0.mem, s.mem, j, d)
    decreases n
  {
    if n > 0 {
      var j', d' := LastTurn(n, j, d, c.Reach());
      TurnsAccess(c, s0, w, k, n - 1, j', d');
      var s := Turns(c, s0, w, n - 1);
      TurnsSnoc(c, s0, w, n - 1);
      OneAccess(c, s, w, k, j', d');
      TouchedOneMore(c, w, s0.touches, s.touches, j', d');
      WrittenOneMore(c, w, s0.mem, s.mem, j', d');
    } else {
      NoPass(j, c.Reach(), d);
    }
  }

  lemma LastTurn(n: nat, j: nat, d: nat, reach: nat) returns (j': nat, d': nat)
    requires n == j * reach + d > 0 && d < reach
    ensures n - 1 == j' * reach + d' && d' < reach
    ensures if d' + 1 < reach then j == j' && d == d' + 1 else j == j' + 1 && d == 0
  {
    if d > 0 {
      j', d' := j, d - 1;
    } else {
      NextPass(j - 1, reach);
      j', d' := j - 1, reach - 1;
    }
  }

  lemma NoPass(j: nat, reach: nat, d: nat)
    requires j * reach + d == 0 && d < reach
    ensures j == 0 && d == 0
  {
  }
}
