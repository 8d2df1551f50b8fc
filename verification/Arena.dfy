/** The bump allocator over the mapped FPGA memory. */
module Arena {
  import opened BitMath
  import opened Wrappers

  const ALIGN := 64
  const ALIGN_BITS := 6
  const WORD_BITS := 64

  /** What an allocation ends in: the process exits when the arena is full. */
  datatype Allocation = Heap | At(addr: nat) | OutOfSpace

  datatype Block = Block(addr: nat, size: nat)

  /** (cur + 63) & ~63 on 64-bit words. */
  function Aligned(cur: nat): nat {
    BitAnd(cur + (ALIGN - 1), ClearMask(ALIGN_BITS, WORD_BITS))
  }

  /** The least multiple of 64 that is not below cur. */
  function AlignUp(cur: nat): nat {
    cur + 63 - (cur + 63) % 64
  }

  lemma AlignUpIsLeast(cur: nat, m: nat)
    ensures AlignUp(cur) % 64 == 0 && cur <= AlignUp(cur) <= cur + 63
    ensures m % 64 == 0 && m >= cur ==> AlignUp(cur) <= m
  {
  }

  lemma MaskAligns(cur: nat)
    requires cur + 63 < WORD
    ensures Aligned(cur) == AlignUp(cur)
  {
    assert Pow2(ALIGN_BITS) == 64;
    WordIsPow2();
    AlignMask(cur + 63, ALIGN_BITS, WORD_BITS);
  }

  /** The blocks handed out for a sequence of requests. */
  function Layout(base: nat, sizes: seq<nat>): seq<Block> {
    if sizes == [] then []
    else
      var before := sizes[..|sizes| - 1];
      Layout(base, before) + [Block(AlignUp(Cursor(base, before)), sizes[|sizes| - 1])]
  }

  /** The cursor after them. */
  function Cursor(base: nat, sizes: seq<nat>): nat {
    if sizes == [] then base else AlignUp(Cursor(base, sizes[..|sizes| - 1])) + sizes[|sizes| - 1]
  }

  function Sum(sizes: seq<nat>): nat {
    if sizes == [] then 0 else Sum(sizes[..|sizes| - 1]) + sizes[|sizes| - 1]
  }

  /** Any sequence of requests gets aligned, pairwise disjoint blocks in increasing order between the base
      and the cursor, each of the size asked for, and wastes at most 63 bytes per request. */
  lemma {:induction false} BlocksAreGood(base: nat, sizes: seq<nat>)
    ensures |Layout(base, sizes)| == |sizes|
    ensures forall i :: 0 <= i < |sizes| ==> var b := Layout(base, sizes)[i];
      b.size == sizes[i] && b.addr % 64 == 0 && base <= b.addr && b.addr + b.size <= Cursor(base, sizes)
    ensures forall i, j :: 0 <= i < j < |sizes| ==>
      Layout(base, sizes)[i].addr + Layout(base, sizes)[i].size <= Layout(base, sizes)[j].addr
    ensures base + Sum(sizes) <= Cursor(base, sizes) <= base + Sum(sizes) + 63 * |sizes|
  {
    if sizes != [] {
      var before := sizes[..|sizes| - 1];
      BlocksAreGood(base, before);
      AlignUpIsLeast(Cursor(base, before), 0);
      var blocks := Layout(base, sizes);
      assert forall i :: 0 <= i < |before| ==> blocks[i] == Layout(base, before)[i] && sizes[i] == before[i];
      assert blocks[|before|] == Block(AlignUp(Cursor(base, before)), sizes[|before|]);
    }
  }

  // ---- The bound test, in machine arithmetic ----

  /** `aligned + n > end` on 64-bit words. */
  predicate Rejects(aligned: nat, n: nat, end: nat) {
    (aligned + n) % WORD > end
  }

  /** A request that passes the test gets a block inside the arena exactly when its end does not wrap. */
  lemma BoundTestExact(aligned: nat, n: nat, end: nat)
    requires aligned < WORD && n < WORD && end < WORD && !Rejects(aligned, n, end)
    ensures aligned + n <= end <==> aligned + n < WORD
  {
  }

  /** The test keeps every block in the arena for all sizes below a bound exactly when no such size wraps. */
  lemma BoundTestSound(aligned: nat, limit: nat, end: nat)
    requires aligned < WORD && limit <= WORD && end < WORD
    ensures (forall n: nat :: n < limit && !Rejects(aligned, n, end) ==> aligned + n <= end)
      <==> aligned + limit <= WORD
  {
    if aligned + limit > WORD {
      var n: nat := WORD - aligned;
      assert n < limit && !Rejects(aligned, n, end) && aligned + n > end;
    }
  }

  /** Without wrapping the test compares the end of the block itself. */
  lemma TestWithoutWrap(aligned: nat, n: nat, end: nat)
    requires aligned + n < WORD
    ensures Rejects(aligned, n, end) <==> aligned + n > end
  {
  }

  lemma LayoutSnoc(base: nat, sizes: seq<nat>, n: nat)
    ensures Layout(base, sizes + [n]) == Layout(base, sizes) + [Block(AlignUp(Cursor(base, sizes)), n)]
    ensures Cursor(base, sizes + [n]) == AlignUp(Cursor(base, sizes)) + n
  {
    var all := sizes + [n];
    assert all[..|all| - 1] == sizes && all[|all| - 1] == n;
  }

  class FpgaArena {
    var base: nat // gArenaBase, 0 for NULL
    var cur: nat  // gArenaCur
    var end: nat  // gArenaEnd
    ghost var sizes: seq<nat> // the requests served so far

    ghost predicate Valid()
      reads this
    {
      base != 0 ==> cur == Cursor(base, sizes) <= end && end + 63 < WORD
    }

    constructor ()
      ensures Valid() && base == 0 && sizes == []
    {
      base, cur, end := 0, 0, 0;
      sizes := [];
    }

    /** The driver mapping; without it the allocator falls back to the heap. */
    method SetupMapping(addr: Option<nat>, mapBytes: nat)
      requires addr.Some? ==> addr.value != 0 && addr.value + mapBytes + 63 < WORD
      requires Valid()
      modifies this
      ensures Valid()
      ensures addr.None? ==> base == old(base) && cur == old(cur) && end == old(end) && sizes == old(sizes)
      ensures addr.Some? ==> base == cur == addr.value && end == addr.value + mapBytes && sizes == []
    {
      if addr.Some? {
        base := addr.value;
        cur := base;
        end := base + mapBytes;
        sizes := [];
      }
    }

    /** fpga_alloc, for any size. A request whose end does not wrap gets the next block of the layout, inside the
        arena, or fails and changes nothing, exactly when it does not fit. One whose end wraps is tested, and the
        cursor set, by the wrapped address. */
    method Alloc(n: nat) returns (r: Allocation)
      requires Valid() && n < WORD
      modifies this
      ensures base == old(base) && end == old(end)
      ensures r.Heap? <==> base == 0
      ensures r.OutOfSpace? <==> base != 0 && (AlignUp(old(cur)) + n) % 0x1_0000_0000_0000_0000 > end
      ensures !r.At? ==> Valid() && cur == old(cur) && sizes == old(sizes)
      ensures r.At? ==> r.addr == AlignUp(old(cur)) && sizes == old(sizes) + [n] && cur == (r.addr + n) % WORD
      ensures r.At? ==> (r.addr + n <= end <==> r.addr + n < WORD)
      ensures r.At? && r.addr + n < WORD ==> Valid()
      ensures r.At? ==> Layout(base, sizes) == Layout(base, old(sizes)) + [Block(r.addr, n)]
    {
      if base == 0 {
        return Heap;
      }
      MaskAligns(cur);
      var aligned := Aligned(cur);
      if (aligned + n) % WORD > end {
        return OutOfSpace;
      }
      BoundTestExact(aligned, n, end);
      LayoutSnoc(base, sizes, n);
      sizes := sizes + [n];
      cur := (aligned + n) % WORD;
      r := At(aligned);
    }
  }
}
