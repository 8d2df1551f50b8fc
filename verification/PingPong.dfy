/** The core-to-core test: two threads bounce a counter through two cache lines, started together
    with the main thread by a 3-party barrier. Every volatile access is one atomic step. Each thread
    has a store buffer whose entries reach memory later, in order for each cache line but in any order
    between the two lines; a fence and the barrier wait until the buffer is empty. Draining every
    store at once gives the sequentially consistent runs. The round count n stands for the 1000 of the source. */
module PingPong {

  datatype Slot = Ping | Pong // c2c_data[0] and c2c_data[16]
  datatype Memory = Memory(ping: int, pong: int)
  datatype Entry = Entry(slot: Slot, value: int)

  datatype Pinger = Unborn | InitPing | InitPong | Arrive | Held | Publish(i: nat) | Fence(i: nat) | Spin(i: nat) | Done
  datatype Echoer = Unborn | Arrive | Held | Read | Echo(v: int) | Fence(v: int) | Done
  datatype Main = Create1 | Create2 | Arrive | Held | Join1 | Join2 | Destroy | Done

  /** `arrived` counts the barrier; `echoes` records the values the echoing thread has stored, in order. */
  datatype State = State(
    n: nat, mem: Memory, buf1: seq<Entry>, buf2: seq<Entry>,
    t1: Pinger, t2: Echoer, main: Main, arrived: nat, echoes: seq<int>)

  datatype Actor = Thread1 | Thread2 | MainThread | Drain1(slot: Slot) | Drain2(slot: Slot)

  function Get(m: Memory, slot: Slot): int {
    if slot.Ping? then m.ping else m.pong
  }

  function Put(m: Memory, e: Entry): Memory {
    if e.slot.Ping? then m.(ping := e.value) else m.(pong := e.value)
  }

  /** A load sees the thread's own newest buffered store, if there is one. */
  function Load(m: Memory, buf: seq<Entry>, slot: Slot): int {
    if buf == [] then Get(m, slot)
    else if buf[|buf| - 1].slot == slot then buf[|buf| - 1].value
    else Load(m, buf[..|buf| - 1], slot)
  }

  /** A thread sees its own newest store to a line, and the memory if it has none under way. */
  lemma {:induction false} LoadSeesOwnStore(m: Memory, buf: seq<Entry>, slot: Slot, k: nat)
    requires k <= |buf| && forall j :: k < j < |buf| ==> buf[j].slot != slot
    requires k < |buf| ==> buf[k].slot == slot
    requires k == |buf| ==> forall j :: 0 <= j < |buf| ==> buf[j].slot != slot
    ensures Load(m, buf, slot) == if k < |buf| then buf[k].value else Get(m, slot)
    decreases |buf|
  {
    var l := |buf| - 1;
    if buf != [] && buf[l].slot != slot {
      LoadSeesOwnStore(m, buf[..l], slot, if k < l then k else l);
    }
  }

  /** The position of the oldest entry for a slot, or |buf|. */
  function Oldest(buf: seq<Entry>, slot: Slot): (k: nat)
    ensures k <= |buf| && (k < |buf| ==> buf[k].slot == slot)
    ensures forall j :: 0 <= j < k ==> buf[j].slot != slot
  {
    if buf == [] || buf[0].slot == slot then 0 else 1 + Oldest(buf[1..], slot)
  }

  predicate Released(s: State) {
    s.arrived == 3
  }

  function StepPinger(s: State): State {
    match s.t1
    case Unborn => s
    case InitPing => s.(buf1 := s.buf1 + [Entry(Ping, 1)], t1 := InitPong)
    case InitPong => s.(buf1 := s.buf1 + [Entry(Pong, 1)], t1 := Pinger.Arrive)
    case Arrive => if s.buf1 == [] then s.(arrived := s.arrived + 1, t1 := Pinger.Held) else s
    case Held => if Released(s) then s.(t1 := Publish(s.n)) else s
    case Publish(i) => s.(buf1 := s.buf1 + [Entry(Ping, i)], t1 := Pinger.Fence(i))
    case Fence(i) => if s.buf1 == [] then s.(t1 := Spin(i)) else s
    case Spin(i) =>
      if Load(s.mem, s.buf1, Pong) != i then s
      else if i == 0 then s.(t1 := Pinger.Done)
      else s.(t1 := Publish(i - 1))
    case Done => s
  }

  function StepEchoer(s: State): State {
    match s.t2
    case Unborn => s
    case Arrive => if s.buf2 == [] then s.(arrived := s.arrived + 1, t2 := Echoer.Held) else s
    case Held => if Released(s) then s.(t2 := Read) else s
    case Read => s.(t2 := Echo(Load(s.mem, s.buf2, Ping)))
    case Echo(v) => s.(buf2 := s.buf2 + [Entry(Pong, v)], t2 := Echoer.Fence(v), echoes := s.echoes + [v])
    case Fence(v) => if s.buf2 != [] then s else if v == 0 then s.(t2 := Echoer.Done) else s.(t2 := Read)
    case Done => s
  }

  function StepMain(s: State): State {
    match s.main
    case Create1 => s.(t1 := InitPing, main := Create2)
    case Create2 => s.(t2 := Echoer.Arrive, main := Main.Arrive)
    case Arrive => s.(arrived := s.arrived + 1, main := Main.Held)
    case Held => if Released(s) then s.(main := Join1) else s
    case Join1 => if s.t1.Done? then s.(main := Join2) else s
    case Join2 => if s.t2.Done? then s.(main := Destroy) else s
    case Destroy => s.(main := Main.Done)
    case Done => s
  }

  /** One turn of an actor; an actor that cannot move leaves the state as it is. */
  function Next(s: State, a: Actor): State {
    match a
    case Thread1 => StepPinger(s)
    case Thread2 => StepEchoer(s)
    case MainThread => StepMain(s)
    case Drain1(slot) =>
      var k := Oldest(s.buf1, slot);
      if k == |s.buf1| then s else s.(mem := Put(s.mem, s.buf1[k]), buf1 := s.buf1[..k] + s.buf1[k + 1..])
    case Drain2(slot) =>
      var k := Oldest(s.buf2, slot);
      if k == |s.buf2| then s else s.(mem := Put(s.mem, s.buf2[k]), buf2 := s.buf2[..k] + s.buf2[k + 1..])
  }

  /** A run under an arbitrary schedule. */
  function Run(s: State, schedule: seq<Actor>): State
    decreases |schedule|
  {
    if schedule == [] then s else Run(Next(s, schedule[0]), schedule[1..])
  }

  /** A schedule of two parts runs part by part. */
  lemma {:induction false} RunAppend(s: State, a: seq<Actor>, b: seq<Actor>)
    ensures Run(s, a + b) == Run(Run(s, a), b)
    decreases |a|
  {
    if a == [] {
      assert a + b == b;
    } else {
      RunAppend(Next(s, a[0]), a[1..], b);
      assert (a + b)[1..] == a[1..] + b;
    }
  }

  /** Before do_c2c_test starts the threads; the memory holds anything. */
  function Initial(n: nat, mem: Memory): State {
    State(n, mem, [], [], Pinger.Unborn, Echoer.Unborn, Create1, 0, [])
  }

  // ---- The invariant ----

  /** What the lines hold before round i: the initial 1, then the previous round's number. */
  function Before(n: nat, i: nat): int {
    if i == n then 1 else i + 1
  }

  function B(b: bool): nat {
    if b then 1 else 0
  }

  /** Up to the release of the barrier. */
  ghost predicate Starting(s: State) {
    && s.arrived == B(s.t1.Held?) + B(s.t2.Held?) + B(s.main.Held?) < 3
    && s.buf2 == [] && s.echoes == []
    && (s.t2.Unborn? || s.t2.Arrive? || s.t2.Held?)
    && (s.main.Create1? || s.main.Create2? || s.main.Arrive? || s.main.Held?)
    && (s.t1.Unborn? <==> s.main.Create1?)
    && (s.t2.Unborn? <==> s.main.Create1? || s.main.Create2?)
    && match s.t1
       case Unborn => s.buf1 == []
       case InitPing => s.buf1 == []
       case InitPong => s.buf1 == [Entry(Ping, 1)] || (s.buf1 == [] && s.mem.ping == 1)
       case Arrive =>
         || s.buf1 == [Entry(Ping, 1), Entry(Pong, 1)]
         || (s.buf1 == [Entry(Pong, 1)] && s.mem.ping == 1)
         || (s.buf1 == [Entry(Ping, 1)] && s.mem.pong == 1)
         || (s.buf1 == [] && s.mem == Memory(1, 1))
       case Held => s.buf1 == [] && s.mem == Memory(1, 1)
       case _ => false
  }

  /** The way back, from thread 2's load to the second cache line, holds only the values `old` and `new`,
      and the new value never overtakes the old one; 0 is the last value on it. */
  ghost predicate WayBack(s: State, old_: int, new_: int) {
    && (s.mem.pong == old_ || s.mem.pong == new_)
    && (s.mem.pong == new_ ==> s.mem.ping == new_)
    && (s.mem.pong == 0 ==> s.buf2 == [] && (s.t2 == Echoer.Fence(0) || s.t2.Done?))
    && match s.t2
       case Held => s.buf2 == [] && s.echoes == [] && s.mem.pong == 1
       case Read => s.buf2 == []
       case Echo(v) => s.buf2 == [] && InFlight(s, v, old_, new_)
       case Fence(v) => InFlight(s, v, old_, new_) && (s.buf2 == [Entry(Pong, v)] || (s.buf2 == [] && s.mem.pong == v))
       case Done => s.buf2 == [] && s.mem.pong == 0
       case _ => false
  }

  ghost predicate InFlight(s: State, v: int, old_: int, new_: int) {
    && (v == old_ || v == new_)
    && (v == new_ ==> s.mem.ping == new_)
    && (s.mem.pong == new_ ==> v == new_)
  }

  /** After the release: all values belong to the previous or the current round. */
  ghost predicate Bouncing(s: State) {
    && s.arrived == 3
    && !s.main.Create1? && !s.main.Create2? && !s.main.Arrive?
    && (s.main.Join2? ==> s.t1.Done?)
    && (s.main.Destroy? || s.main.Done? ==> s.t1.Done? && s.t2.Done?)
    && match s.t1
       case Held => s.buf1 == [] && s.mem.ping == 1 && WayBack(s, 1, 1)
       case Publish(i) => i <= s.n && s.buf1 == [] && s.mem.ping == Before(s.n, i) && WayBack(s, s.mem.ping, s.mem.ping)
       case Fence(i) =>
         && i <= s.n
         && if s.buf1 == [] then s.mem.ping == i && WayBack(s, Before(s.n, i), i)
            else s.buf1 == [Entry(Ping, i)] && s.mem.ping == Before(s.n, i) && WayBack(s, s.mem.ping, s.mem.ping)
       case Spin(i) => i <= s.n && s.buf1 == [] && s.mem.ping == i && WayBack(s, Before(s.n, i), i)
       case Done => s.buf1 == [] && s.mem == Memory(0, 0) && WayBack(s, 0, 0)
       case _ => false
  }

  ghost predicate Inv(s: State) {
    Starting(s) || Bouncing(s)
  }

  lemma InitialInv(n: nat, mem: Memory)
    ensures Inv(Initial(n, mem))
  {
  }

  lemma PingerKeepsInv(s: State)
    requires Inv(s)
    ensures Inv(StepPinger(s))
  {
    if Starting(s) { PingerStarts(s); } else { PingerBounces(s); }
  }

  lemma PingerStarts(s: State)
    requires Starting(s)
    ensures Inv(StepPinger(s))
  {
  }

  lemma PingerBounces(s: State)
    requires Bouncing(s)
    ensures Bouncing(StepPinger(s))
  {
  }

  lemma EchoerKeepsInv(s: State)
    requires Inv(s)
    ensures Inv(StepEchoer(s))
  {
  }

  lemma MainKeepsInv(s: State)
    requires Inv(s)
    ensures Inv(StepMain(s))
  {
  }

  lemma Drain1KeepsInv(s: State, slot: Slot)
    requires Inv(s)
    ensures Inv(Next(s, Drain1(slot)))
  {
    if Starting(s) { Drain1Starts(s, slot); } else { Drain1Bounces(s, slot); }
  }

  lemma Drain1Starts(s: State, slot: Slot)
    requires Starting(s)
    ensures Starting(Next(s, Drain1(slot)))
  {
    var k := Oldest(s.buf1, slot);
    if k < |s.buf1| {
      assert s.buf1[k].value == 1 && (s.t1.InitPong? || s.t1.Arrive?);
    }
  }

  lemma Drain1Bounces(s: State, slot: Slot)
    requires Bouncing(s)
    ensures Bouncing(Next(s, Drain1(slot)))
  {
    var k := Oldest(s.buf1, slot);
    if k < |s.buf1| {
      assert k == 0 && Next(s, Drain1(slot)).buf1 == [];
    }
  }

  lemma Drain2KeepsInv(s: State, slot: Slot)
    requires Inv(s)
    ensures Inv(Next(s, Drain2(slot)))
  {
    var k := Oldest(s.buf2, slot);
    if k < |s.buf2| {
      assert k == 0 && Next(s, Drain2(slot)).buf2 == [];
    }
  }

  lemma NextKeepsInv(s: State, a: Actor)
    requires Inv(s)
    ensures Inv(Next(s, a))
  {
    match a
    case Thread1 => PingerKeepsInv(s);
    case Thread2 => EchoerKeepsInv(s);
    case MainThread => MainKeepsInv(s);
    case Drain1(slot) => Drain1KeepsInv(s, slot);
    case Drain2(slot) => Drain2KeepsInv(s, slot);
  }

  lemma {:induction false} RunKeepsInv(s: State, schedule: seq<Actor>)
    requires Inv(s)
    ensures Inv(Run(s, schedule))
    decreases |schedule|
  {
    if schedule != [] {
      NextKeepsInv(s, schedule[0]);
      RunKeepsInv(Next(s, schedule[0]), schedule[1..]);
    }
  }
}
