/** The pointer-chasing latency test: the links are laid out in memory, one per cache line,
    and then followed by an eight times unrolled loop. */
module LatencyTest {
  import opened BitMath
  import opened FullPeriod

  const LINE := 16                      // 64-bit words in a 128-byte cache line
  const PASSES := 5

  /** l = (1 << size) / CACHELINE_SIZE. */
  function Lines(size: nat): nat {
    Pow2(size) / 128
  }

  /** ITS: how often the cycle is walked, more than once only for tiny sizes. */
  function Its(size: nat): nat {
    if size < 12 then Pow2(12 - size) else 1
  }

  /** The link stored for line o, in 64-bit arithmetic. */
  function Link(o: nat, l: nat): nat
    requires l > 0
  {
    BitAnd((o * 13 + 7) % WORD, l - 1)
  }

  /** No 64-bit overflow: 2^30 bytes hold at most 2^23 lines. */
  lemma NoOverflow(o: nat, k: nat)
    requires k <= 23 && o < Pow2(k)
    ensures (o * 13 + 7) % WORD == 13 * o + 7
  {
    Pow2Monotone(k, 64 - 4);
    Pow2Add(60, 4);
    WordIsPow2();
    assert Pow2(4) == 16;
  }

  lemma LinkIsStep(o: nat, k: nat)
    requires k <= 23 && o < Pow2(k)
    ensures Link(o, Pow2(k)) == Step(o, Pow2(k))
  {
    NoOverflow(o, k);
    MaskIsMod(13 * o + 7, k);
  }

  /** From 128 bytes on the number of lines is the power of two 2^(size-7); below, there is no line. */
  lemma LinesIsPow2(size: nat)
    ensures if size < 7 then Lines(size) == 0 else Lines(size) == Pow2(size - 7)
  {
    assert Pow2(7) == 128;
    if size < 7 {
      Pow2Monotone(size, 6);
    } else {
      Pow2Add(size - 7, 7);
      ModUnique(Pow2(size), Pow2(size - 7), 128, 0);
    }
  }

  /** The unrolled loop loses no hop: 8 divides ITS * l, for every size. */
  lemma HopsDivisibleBy8(size: nat)
    ensures (Its(size) * Lines(size)) % 8 == 0
  {
    LinesIsPow2(size);
    if size < 7 {
    } else if size < 12 {
      Pow2Add(12 - size, size - 7);
      assert Pow2(5) == 32;
    } else {
      Pow2Add(size - 10, 3);
      assert Pow2(3) == 8;
      ModUnique(Pow2(size - 7), Pow2(size - 10), 8, 0);
    }
  }

  /** The memory with the link of every line in that line's first word. */
  ghost function Linked(words: seq<nat>, l: nat): seq<nat> {
    seq(|words|, x requires 0 <= x < |words| => if x % LINE == 0 && x / LINE < l then Step(x / LINE, l) else words[x])
  }

  /** What the fill loop leaves, in bytes and words: of the 2^size / 128 lines of 16 words, the first word of line o
      is (13 * o + 7) mod 2^size / 128, and no other word has changed. */
  ghost predicate LinksLaid(before: seq<nat>, after: seq<nat>, size: nat) {
    && |after| == |before|
    && (size >= 7 ==> |after| >= 16 * Pow2(size - 7))
    && (size >= 7 ==> forall o :: 0 <= o < Pow2(size - 7) ==> after[16 * o] == (13 * o + 7) % Pow2(size - 7))
    && forall x :: 0 <= x < |after| && !(size >= 7 && x % 16 == 0 && x / 16 < Pow2(size - 7)) ==> after[x] == before[x]
  }

  lemma LinkedIsLaid(words: seq<nat>, size: nat)
    requires |words| >= LINE * Lines(size)
    ensures LinksLaid(words, Linked(words, Lines(size)), size)
  {
    LinesIsPow2(size);
    LinkedWords(words, Lines(size));
  }

  /** The loads of a pass: from line 0, each at the line that the one before has read, and back to line 0. */
  ghost predicate FollowsLinks(words: seq<nat>, read: seq<nat>) {
    && (forall i :: 0 <= i < |read| ==> 16 * read[i] < |words|)
    && (read != [] ==> read[0] == 0 && words[16 * read[|read| - 1]] == 0)
    && forall i :: 0 <= i < |read| - 1 ==> words[16 * read[i]] == read[i + 1]
  }

  lemma WalkFollowsLinks(words: seq<nat>, read: seq<nat>, l: nat)
    requires HasLinks(words, l) && IsWalk(read, 0, l)
    ensures FollowsLinks(words, read)
  {
    forall i | 0 <= i < |read|
      ensures 16 * read[i] < |words| && words[16 * read[i]] == Orbit(i + 1, l)
    {
      assert read[i] == Orbit(i, l) && words[LINE * read[i]] == Step(Orbit(i, l), l);
    }
  }

  /** What one pass reads: nothing below 128 bytes, 32 loads up to 2 kB, and from 4 kB on every line exactly once. */
  ghost predicate ReadEvenly(read: seq<nat>, size: nat) {
    && |read| == (if size < 7 then 0 else if size < 12 then 32 else Pow2(size - 7))
    && (size >= 7 ==> forall line :: 0 <= line < Pow2(size - 7) ==>
          if size < 12 then multiset(read)[line] * Pow2(size - 7) == 32 else multiset(read)[line] == 1)
  }

  lemma EvenReads(read: seq<nat>, size: nat)
    requires |read| == Its(size) * Lines(size)
    requires forall line :: 0 <= line < Lines(size) ==> multiset(read)[line] == Its(size)
    ensures ReadEvenly(read, size)
  {
    LinesIsPow2(size);
    if 7 <= size < 12 {
      Pow2Add(12 - size, size - 7);
      assert Pow2(5) == 32;
    }
  }

  /** Line o holds the number of its successor, for every line. */
  ghost predicate HasLinks(words: seq<nat>, l: nat) {
    |words| >= LINE * l && forall line :: 0 <= line < l ==> words[LINE * line] == Step(line, l)
  }

  /** The lines read by n hops from line 0, in order. */
  ghost function Walk(n: nat, l: nat): (w: seq<nat>)
    requires n > 0 ==> l > 0
    ensures |w| == n
  {
    seq(n, i requires 0 <= i < n => Orbit(i, l))
  }

  lemma WalkOneMore(n: nat, l: nat, line: nat)
    requires l > 0
    ensures multiset(Walk(n + 1, l))[line] == multiset(Walk(n, l))[line] + if Orbit(n, l) == line then 1 else 0
  {
    assert Walk(n + 1, l) == Walk(n, l) + [Orbit(n, l)];
  }

  /** A line on the cycle's step t is read once in every full period, and once more after step t. */
  lemma {:induction false} WalkCount(q: nat, r: nat, k: nat, line: nat, t: nat)
    requires r < Pow2(k) && t < Pow2(k)
    requires forall n: nat :: Orbit(n, Pow2(k)) == line <==> n % Pow2(k) == t
    ensures multiset(Walk(Pow2(k) * q + r, Pow2(k)))[line] == q + if r > t then 1 else 0
    decreases q, r
  {
    var m := Pow2(k);
    if r > 0 {
      WalkCount(q, r - 1, k, line, t);
      ModUnique(m * q + (r - 1), q, m, r - 1);
      WalkOneMore(m * q + (r - 1), m, line);
    } else if q > 0 {
      WalkCount(q - 1, m - 1, k, line, t);
      ModUnique(m * (q - 1) + (m - 1), q - 1, m, m - 1);
      WalkOneMore(m * (q - 1) + (m - 1), m, line);
      assert m * (q - 1) + m == m * q;
    } else {
      assert m * 0 + 0 == 0 && Walk(0, m) == [];
    }
  }

  /** Walking the cycle `its` times reads every line exactly `its` times and ends at line 0. */
  lemma WalkVisitsEveryLine(its: nat, k: nat)
    ensures Orbit(its * Pow2(k), Pow2(k)) == 0
    ensures forall line | 0 <= line < Pow2(k) :: multiset(Walk(its * Pow2(k), Pow2(k)))[line] == its
  {
    var m := Pow2(k);
    assert its * m == m * its + 0;
    ModUnique(its * m, its, m, 0);
    ReturnsToZero(its * m, k);
    forall line | 0 <= line < m
      ensures multiset(Walk(its * m, m))[line] == its
    {
      var t := EveryLineVisited(line, k);
      WalkCount(its, 0, k, line, t);
    }
  }

  /** c[o][0][0] = no, for the successor no of o. */
  method FillLine(area: array<nat>, l: nat, ghost k: nat, o: nat) returns (no: nat)
    requires k <= 23 && l == Pow2(k) && o < l
    requires area.Length >= LINE * l
    modifies area
    ensures no == Step(o, l)
    ensures area[..] == old(area[..])[LINE * o := no]
  {
    LinkIsStep(o, k);
    no := Link(o, l);
    area[LINE * o] := no;
  }

  /** After i turns of the fill loop: the first i lines of the orbit are linked, nothing but first words touched. */
  ghost predicate Filled(words0: seq<nat>, words: seq<nat>, l: nat, i: nat) {
    && |words| == |words0| >= LINE * l
    && (l > 0 ==> forall j :: 0 <= j < i ==> words[LINE * Orbit(j, l)] == Orbit(j + 1, l))
    && forall x :: 0 <= x < |words| && !(x % LINE == 0 && x / LINE < l) ==> words[x] == words0[x]
  }

  lemma FilledOneMore(words0: seq<nat>, words: seq<nat>, l: nat, i: nat)
    requires l > 0 && Filled(words0, words, l, i)
    ensures Filled(words0, words[LINE * Orbit(i, l) := Orbit(i + 1, l)], l, i + 1)
  {
    var o := Orbit(i, l);
    var words' := words[LINE * o := Orbit(i + 1, l)];
    forall j | 0 <= j < i + 1
      ensures words'[LINE * Orbit(j, l)] == Orbit(j + 1, l)
    {
      assert Orbit(j + 1, l) == Step(Orbit(j, l), l) && Orbit(i + 1, l) == Step(o, l);
    }
    assert (LINE * o) % LINE == 0 && (LINE * o) / LINE == o;
  }

  lemma LineFilled(words0: seq<nat>, words: seq<nat>, size: nat, line: nat)
    requires Filled(words0, words, Lines(size), Its(size) * Lines(size)) && line < Lines(size)
    ensures words[LINE * line] == Step(line, Lines(size))
  {
    var l, its := Lines(size), Its(size);
    LinesIsPow2(size);
    assert its * l >= l;
    var t := EveryLineVisited(line, size - 7);
    assert words[LINE * Orbit(t, l)] == Orbit(t + 1, l) == Step(Orbit(t, l), l);
  }

  lemma AllLinesFilled(words0: seq<nat>, words: seq<nat>, size: nat)
    requires Filled(words0, words, Lines(size), Its(size) * Lines(size))
    ensures words == Linked(words0, Lines(size))
  {
    var l := Lines(size);
    forall x | 0 <= x < |words|
      ensures words[x] == Linked(words0, l)[x]
    {
      if x % LINE == 0 && x / LINE < l { LineFilled(words0, words, size, x / LINE); }
    }
  }

  method FillLinks(area: array<nat>, size: nat)
    requires size <= 30 // 1 << size is an int
    requires area.Length >= LINE * Lines(size)
    modifies area
    ensures area[..] == Linked(old(area[..]), Lines(size))
    ensures LinksLaid(old(area[..]), area[..], size)
  {
    var l := Lines(size);
    var hops := Its(size) * l;
    LinesIsPow2(size);
    var o, i := 0, 0;
    while i < hops
      invariant 0 <= i <= hops
      invariant l > 0 ==> o == Orbit(i, l)
      invariant Filled(old(area[..]), area[..], l, i)
    {
      FilledOneMore(old(area[..]), area[..], l, i);
      o := FillLine(area, l, size - 7, o);
      i := i + 1;
    }
    AllLinesFilled(old(area[..]), area[..], size);
    LinkedIsLaid(old(area[..]), size);
  }

  /** One timed pass; `read` records the line of every load. */
  method ChaseOnce(area: array<nat>, size: nat) returns (o: nat, read: seq<nat>)
    requires size <= 30
    requires HasLinks(area[..], Lines(size))
    ensures o == 0
    ensures ReadEvenly(read, size) && FollowsLinks(area[..], read)
    ensures read == Walk(Its(size) * Lines(size), Lines(size))
  {
    var l := Lines(size);
    var hops := Its(size) * l;
    HopsDivisibleBy8(size);
    o, read := 0, [];
    var i := 0;
    while i < hops / 8
      invariant 0 <= i <= hops / 8
      invariant |read| == 8 * i && IsWalk(read, o, l)
    {
      assert l > 0;
      o, read := EightHops(area, l, o, read);
      i := i + 1;
    }
    CompleteWalk(read, o, size);
    WalkFollowsLinks(area[..], read, l);
    EvenReads(read, size);
  }

  /** The lines read so far, and the line they lead to. */
  ghost predicate IsWalk(read: seq<nat>, o: nat, l: nat) {
    if l == 0 then read == [] && o == 0 else read == Walk(|read|, l) && o == Orbit(|read|, l)
  }

  lemma CompleteWalk(read: seq<nat>, o: nat, size: nat)
    requires IsWalk(read, o, Lines(size)) && |read| == Its(size) * Lines(size)
    ensures o == 0 && read == Walk(Its(size) * Lines(size), Lines(size))
    ensures forall line :: 0 <= line < Lines(size) ==> multiset(read)[line] == Its(size)
  {
    LinesIsPow2(size);
    if size >= 7 { WalkVisitsEveryLine(Its(size), size - 7); }
  }

  /** The unrolled loop body. */
  method EightHops(area: array<nat>, l: nat, o: nat, read: seq<nat>) returns (next: nat, read': seq<nat>)
    requires l > 0 && HasLinks(area[..], l) && IsWalk(read, o, l)
    ensures |read'| == |read| + 8 && IsWalk(read', next, l)
  {
    next, read' := Hop(area, l, o, read);
    next, read' := Hop(area, l, next, read');
    next, read' := Hop(area, l, next, read');
    next, read' := Hop(area, l, next, read');
    next, read' := Hop(area, l, next, read');
    next, read' := Hop(area, l, next, read');
    next, read' := Hop(area, l, next, read');
    next, read' := Hop(area, l, next, read');
  }

  /** o = c[o][0][0]. */
  method Hop(area: array<nat>, l: nat, o: nat, read: seq<nat>) returns (next: nat, read': seq<nat>)
    requires l > 0 && HasLinks(area[..], l) && IsWalk(read, o, l)
    ensures |read'| == |read| + 1 && IsWalk(read', next, l)
  {
    assert area[..][LINE * o] == Step(o, l);
    next := area[LINE * o];
    read' := read + [o];
  }

  /** The whole test: lay out the links, then five passes over them; `passes` records the loads of each. */
  method DoLatencyTest(area: array<nat>, size: nat) returns (passes: seq<seq<nat>>)
    requires size <= 30
    requires area.Length >= LINE * Lines(size)
    modifies area
    ensures LinksLaid(old(area[..]), area[..], size)
    ensures |passes| == 5
    ensures forall p :: 0 <= p < 5 ==> ReadEvenly(passes[p], size) && FollowsLinks(area[..], passes[p])
  {
    FillLinks(area, size);
    LinkedWords(old(area[..]), Lines(size));
    passes := Chase(area, size);
  }

  /** Five passes over the links. */
  method Chase(area: array<nat>, size: nat) returns (passes: seq<seq<nat>>)
    requires size <= 30
    requires HasLinks(area[..], Lines(size))
    ensures |passes| == 5
    ensures forall p :: 0 <= p < 5 ==> ReadEvenly(passes[p], size) && FollowsLinks(area[..], passes[p])
  {
    passes := [];
    var p := 0;
    while p < PASSES
      invariant 0 <= p <= PASSES && |passes| == p
      invariant forall q :: 0 <= q < p ==> ReadEvenly(passes[q], size) && FollowsLinks(area[..], passes[q])
    {
      var o, read := ChaseOnce(area, size);
      passes := passes + [read];
      p := p + 1;
    }
  }

  lemma LinkedWords(words: seq<nat>, l: nat)
    requires |words| >= LINE * l
    ensures HasLinks(Linked(words, l), l)
  {
    forall line | 0 <= line < l
      ensures Linked(words, l)[LINE * line] == Step(line, l)
    {
      assert (LINE * line) % LINE == 0 && (LINE * line) / LINE == line;
    }
  }
}
