/** The core-to-core test ends: no schedule that keeps giving every actor a turn can run on for more
    than a computed number of rounds, although both threads spin. */
module PingPongProgress {
  import opened Schedules
  import opened PingPong

  /** Everything has ended: both threads joined, the barrier destroyed. */
  predicate Final(s: State) {
    s.main.Done?
  }

  function MainRank(s: State): nat {
    match s.main
    case Create1 => 7
    case Create2 => 6
    case Arrive => 5
    case Held => 4
    case Join1 => 3
    case Join2 => 2
    case Destroy => 1
    case Done => 0
  }

  /** Thread 2's turns up to the barrier. */
  function StartRank(s: State): nat {
    match s.t2
    case Unborn => 3
    case Arrive => 2
    case Held => 1
    case _ => 0
  }

  /** Turns until thread 2 has carried the current number i to the second line, while thread 1 spins on it. */
  function CarryRank(s: State, i: nat): nat {
    if s.mem.pong == i then 0 else
    match s.t2
    case Echo(v) => if v == i then 2 else 6
    case Fence(v) => if v == i then 1 else if s.buf2 == [] then 4 else 5
    case _ => 3
  }

  /** Turns left to thread 1, round by round. */
  function RoundRank(s: State): nat {
    match s.t1
    case Unborn => 16 * (s.n + 1) + 9
    case InitPing => 16 * (s.n + 1) + 8
    case InitPong => 16 * (s.n + 1) + 5 + |s.buf1|
    case Arrive => 16 * (s.n + 1) + 2 + |s.buf1|
    case Held => 16 * (s.n + 1) + 1
    case Publish(i) => 16 * i + 15
    case Fence(i) => 16 * i + (if s.buf1 != [] then 14 else 13)
    case Spin(i) => 16 * i + 2 + CarryRank(s, i)
    case Done => if s.t2.Done? then 0 else 1
  }

  function Rank(s: State): nat {
    MainRank(s) + StartRank(s) + RoundRank(s)
  }

  /** An actor whose turn brings the end nearer. */
  function Helpful(s: State): Actor {
    if s.main.Create1? || s.main.Create2? || s.main.Arrive? then MainThread
    else if s.t1.InitPing? || s.t1.InitPong? then Thread1
    else if s.t1.Arrive? then (if s.buf1 == [] then Thread1 else Drain1(s.buf1[0].slot))
    else if s.t2.Arrive? then Thread2
    else if s.main.Held? then MainThread
    else if s.t2.Held? then Thread2
    else match s.t1
      case Fence(i) => if s.buf1 == [] then Thread1 else Drain1(Ping)
      case Spin(i) =>
        if s.mem.pong == i then Thread1
        else if s.t2.Fence? && s.buf2 != [] then Drain2(Pong)
        else Thread2
      case Done => if s.t2.Done? then MainThread else Thread2
      case _ => Thread1
  }

  lemma HelpfulAtStart(s: State)
    requires Starting(s)
    ensures Rank(Next(s, Helpful(s))) < Rank(s)
  {
    if s.t1.InitPong? || s.t1.Arrive? || s.t1.InitPing? {
      match Helpful(s) {
        case Thread1 =>
        case MainThread =>
        case Drain1(slot) => assert Oldest(s.buf1, slot) == 0;
      }
    }
  }

  lemma HelpfulWhileSpinning(s: State)
    requires Bouncing(s) && s.t1.Spin?
    ensures Rank(Next(s, Helpful(s))) < Rank(s)
  {
  }

  lemma HelpfulOtherwise(s: State)
    requires Bouncing(s) && !s.t1.Spin? && !Final(s)
    ensures Rank(Next(s, Helpful(s))) < Rank(s)
  {
  }

  /** A turn of the helpful actor lowers the rank: no reachable state short of the end is stuck. */
  lemma HelpfulHelps(s: State)
    requires Inv(s) && !Final(s)
    ensures Rank(Next(s, Helpful(s))) < Rank(s)
  {
    if Starting(s) {
      HelpfulAtStart(s);
    } else if s.t1.Spin? {
      HelpfulWhileSpinning(s);
    } else {
      HelpfulOtherwise(s);
    }
  }

  /** No turn raises the rank, and a turn that keeps it keeps the helpful actor. */
  ghost predicate Harmless(s: State, a: Actor) {
    || Rank(Next(s, a)) < Rank(s)
    || (Rank(Next(s, a)) == Rank(s) && Helpful(Next(s, a)) == Helpful(s))
  }

  lemma StartHarmless(s: State, a: Actor)
    requires Starting(s) && (a.Thread1? || a.Thread2? || a.MainThread?)
    ensures Harmless(s, a)
  {
  }

  lemma PingerHarmless(s: State)
    requires Inv(s)
    ensures Harmless(s, Thread1)
  {
    if Starting(s) { StartHarmless(s, Thread1); } else { BouncingPingerHarmless(s); }
  }

  lemma BouncingPingerHarmless(s: State)
    requires Bouncing(s)
    ensures Harmless(s, Thread1)
  {
  }

  lemma EchoerHarmless(s: State)
    requires Inv(s)
    ensures Harmless(s, Thread2)
  {
    if Starting(s) { StartHarmless(s, Thread2); } else { BouncingEchoerHarmless(s); }
  }

  lemma BouncingEchoerHarmless(s: State)
    requires Bouncing(s)
    ensures Harmless(s, Thread2)
  {
  }

  lemma MainHarmless(s: State)
    requires Inv(s)
    ensures Harmless(s, MainThread)
  {
    if Starting(s) { StartHarmless(s, MainThread); } else { BouncingMainHarmless(s); }
  }

  lemma BouncingMainHarmless(s: State)
    requires Bouncing(s)
    ensures Harmless(s, MainThread)
  {
  }

  lemma Drain1Harmless(s: State, slot: Slot)
    requires Inv(s)
    ensures Harmless(s, Drain1(slot))
  {
    var k := Oldest(s.buf1, slot);
    if k < |s.buf1| && Bouncing(s) {
      assert k == 0 && s.t1.Fence?;
    }
  }

  lemma Drain2Harmless(s: State, slot: Slot)
    requires Inv(s)
    ensures Harmless(s, Drain2(slot))
  {
    var k := Oldest(s.buf2, slot);
    if k < |s.buf2| {
      assert k == 0 && s.t2.Fence? && Next(s, Drain2(slot)).buf2 == [];
    }
  }

  lemma NextHarmless(s: State, a: Actor)
    requires Inv(s)
    ensures Harmless(s, a)
  {
    match a
    case Thread1 => PingerHarmless(s);
    case Thread2 => EchoerHarmless(s);
    case MainThread => MainHarmless(s);
    case Drain1(slot) => Drain1Harmless(s, slot);
    case Drain2(slot) => Drain2Harmless(s, slot);
  }

  lemma FinalStays(s: State, a: Actor)
    requires Inv(s) && Final(s)
    ensures Final(Next(s, a))
  {
  }

  /** Every actor has a turn. */
  ghost predicate Fair(block: seq<Actor>) {
    forall a: Actor :: a in block
  }

  const ROUND_ROBIN := [Thread1, Thread2, MainThread, Drain1(Ping), Drain1(Pong), Drain2(Ping), Drain2(Pong)]

  lemma RoundRobinIsFair()
    ensures Fair(ROUND_ROBIN)
  {
    forall a: Actor
      ensures a in ROUND_ROBIN
    {
      match a
      case Thread1 => assert ROUND_ROBIN[0] == a;
      case Thread2 => assert ROUND_ROBIN[1] == a;
      case MainThread => assert ROUND_ROBIN[2] == a;
      case Drain1(slot) => assert ROUND_ROBIN[if slot.Ping? then 3 else 4] == a;
      case Drain2(slot) => assert ROUND_ROBIN[if slot.Ping? then 5 else 6] == a;
    }
  }

  /** A block in which the helpful actor has a turn lowers the rank. */
  lemma {:induction false} BlockLowersRank(s: State, block: seq<Actor>)
    requires Inv(s)
    ensures Rank(Run(s, block)) <= Rank(s)
    ensures Final(s) ==> Final(Run(s, block))
    ensures !Final(s) && Helpful(s) in block ==> Rank(Run(s, block)) < Rank(s)
    decreases |block|
  {
    if block != [] {
      var s' := Next(s, block[0]);
      NextKeepsInv(s, block[0]);
      NextHarmless(s, block[0]);
      BlockLowersRank(s', block[1..]);
      if Final(s) {
        FinalStays(s, block[0]);
      } else if block[0] == Helpful(s) {
        HelpfulHelps(s);
      }
    }
  }

  lemma {:induction false} FairRunsEnd(s: State, blocks: seq<seq<Actor>>)
    requires Inv(s) && |blocks| >= Rank(s)
    requires forall k :: 0 <= k < |blocks| ==> Fair(blocks[k])
    ensures Final(Run(s, Concat(blocks)))
    decreases |blocks|
  {
    if blocks == [] {
    } else {
      var s' := Run(s, blocks[0]);
      RunKeepsInv(s, blocks[0]);
      BlockLowersRank(s, blocks[0]);
      RunAppend(s, blocks[0], Concat(blocks[1..]));
      if Final(s) {
        BlockLowersRank(s', Concat(blocks[1..]));
      } else {
        FairRunsEnd(s', blocks[1..]);
      }
    }
  }

  lemma AtStart(n: nat, mem: Memory)
    ensures Inv(Initial(n, mem)) && Rank(Initial(n, mem)) <= 16 * n + 35
  {
  }

  lemma AtEnd(s: State)
    requires Inv(s) && Final(s)
    ensures s.t1.Done? && s.t2.Done? && s.mem == Memory(0, 0)
  {
  }

  /** From any memory contents, 16n + 35 rounds of any fair schedule complete the test:
      both threads have left, in whatever order the store buffers drain. */
  lemma TestEnds(n: nat, mem: Memory, blocks: seq<seq<Actor>>)
    requires |blocks| >= 16 * n + 35
    requires forall k :: 0 <= k < |blocks| ==> Fair(blocks[k])
    ensures var s := Run(Initial(n, mem), Concat(blocks));
      Final(s) && s.t1.Done? && s.t2.Done? && s.mem == Memory(0, 0)
  {
    var s := Initial(n, mem);
    AtStart(n, mem);
    FairRunsEnd(s, blocks);
    RunKeepsInv(s, Concat(blocks));
    AtEnd(Run(s, Concat(blocks)));
  }

  /** The turns of a run in which the main thread destroys the barrier. */
  function Destroys(s: State, schedule: seq<Actor>): nat
    decreases |schedule|
  {
    if schedule == [] then 0
    else (if schedule[0].MainThread? && s.main.Destroy? then 1 else 0) + Destroys(Next(s, schedule[0]), schedule[1..])
  }

  lemma {:induction false} DestroyCounted(s: State, schedule: seq<Actor>)
    ensures Final(s) ==> Final(Run(s, schedule))
    ensures Destroys(s, schedule) == if Final(Run(s, schedule)) && !Final(s) then 1 else 0
    decreases |schedule|
  {
    if schedule != [] {
      MainGoesOn(s, schedule[0]);
      DestroyCounted(Next(s, schedule[0]), schedule[1..]);
    }
  }

  lemma MainGoesOn(s: State, a: Actor)
    ensures Final(Next(s, a)) <==> Final(s) || (a.MainThread? && s.main.Destroy?)
  {
  }

  /** A run that ends has destroyed the barrier exactly once; one that has not ended has not. */
  lemma DestroyedOnce(n: nat, mem: Memory, schedule: seq<Actor>)
    ensures Destroys(Initial(n, mem), schedule) == if Final(Run(Initial(n, mem), schedule)) then 1 else 0
  {
    DestroyCounted(Initial(n, mem), schedule);
  }

  /** Giving the actors their turns one after the other is a schedule that ends the test. */
  lemma RoundRobinEnds(n: nat, mem: Memory) returns (schedule: seq<Actor>)
    ensures |schedule| == 7 * (16 * n + 35)
    ensures var s := Run(Initial(n, mem), schedule);
      Final(s) && s.t1.Done? && s.t2.Done? && s.mem == Memory(0, 0)
  {
    var blocks := seq(16 * n + 35, _ => ROUND_ROBIN);
    RoundRobinIsFair();
    TestEnds(n, mem, blocks);
    schedule := Concat(blocks);
    ConcatLength(blocks, 7);
  }
}
