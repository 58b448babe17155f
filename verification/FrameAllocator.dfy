/** `RuneFrameAllocator`: the flat bitmap and the code that updates it in
    place, each operation proved against its effect on the marked chunks. */
module FrameAllocator {
  import opened Bits
  import opened Chunks
  import opened BuddyIndex
  import opened BuddyOps
  import opened BuddyLayout
  import opened BuddyRuns
  import opened MemoryMap
  import opened RawBits
  import opened BootBits

  lemma NoneFrom(sh: Shape, bits: seq<bool>, level: nat)
    requires |bits| == LevelOffset(sh, sh.levels) && level <= sh.levels
    requires forall i :: LevelOffset(sh, level) <= i < |bits| ==> !bits[i]
    ensures AllocateChunk(Marked(sh, bits), level) == None
  {
    forall c | c in Marked(sh, bits)
      ensures c.level < level
    {
      if c.level >= level {
        OffsetMonotone(sh, level, c.level);
      }
    }
  }

  lemma FoundLevel(sh: Shape, level: nat, c: Chunk)
    requires InShape(sh, c) && LevelOffset(sh, level) <= Absolute(sh, c)
    ensures level <= c.level
  {
  }

  /** The first set bit from the start of a level on is the first chunk of that
      level or above. */
  lemma FoundFirst(sh: Shape, bits: seq<bool>, level: nat, c: Chunk)
    requires |bits| == LevelOffset(sh, sh.levels) && InShape(sh, c)
    requires LevelOffset(sh, level) <= Absolute(sh, c) < |bits| && bits[Absolute(sh, c)]
    requires forall i :: LevelOffset(sh, level) <= i < Absolute(sh, c) ==> !bits[i]
    ensures IsFirst(Marked(sh, bits), level, c)
  {
    FoundLevel(sh, level, c);
    forall d | d in Marked(sh, bits) && d.level >= level
      ensures c.level < d.level || (c.level == d.level && c.index <= d.index)
    {
      OffsetMonotone(sh, level, d.level);
      AbsoluteOrder(sh, c, d);
    }
  }

  /** What a return of a frame that is not free leaves, whether or not the bitmap
      describes the frame. */
  lemma ReturnedIff(sh: Shape, before: seq<bool>, after: seq<bool>, page: nat)
    requires 0 < sh.levels && |before| == |after| == LevelOffset(sh, sh.levels)
    requires Disjoint(Marked(sh, before)) && page !in FreePages(Marked(sh, before))
    requires page < LevelBits(sh, 0) ==> Marked(sh, after) == Deallocate(Marked(sh, before), page, sh.levels)
    ensures FreePages(Marked(sh, after)) == FreePages(Marked(sh, before)) + {page} <==> page < LevelBits(sh, 0)
  {
    if page < LevelBits(sh, 0) {
      DeallocateAdds(Marked(sh, before), page, sh.levels);
    } else if page in FreePages(Marked(sh, after)) {
      FreeBelowCapacity(sh, after, page);
    }
  }

  /** A 2 MiB frame the bitmap describes has a number below the bits of level 0. */
  lemma HugeBelowCapacity(sh: Shape, index: nat)
    requires sh.huge < sh.levels
    ensures index < LevelBits(sh, sh.huge) ==> index < LevelBits(sh, 0)
  {
    LevelBitsWiden(sh, 0, sh.huge);
  }

  class RuneFrameAllocator {
    const shape: Shape
    const bits: array<bool>

    ghost predicate Ok()
    {
      shape.Ok() && bits.Length == LevelOffset(shape, shape.levels)
    }

    /** The chunks marked free. */
    ghost function Index(): set<Chunk>
      reads bits
    {
      Marked(shape, bits[..])
    }

    // --- bit access ---

    method Set(i: nat, v: bool, ghost c: Chunk)
      requires Ok() && InShape(shape, c) && i == Absolute(shape, c)
      modifies bits
      ensures Index() == if v then old(Index()) + {c} else old(Index()) - {c}
    {
      WriteBit(shape, bits[..], c, v);
      bits[i] := v;
    }

    /** Writes the bit `i`; out of range is a panic, reported as false. */
    method Put(i: nat, v: bool) returns (ok: bool)
      modifies bits
      ensures ok <==> i < bits.Length
      ensures !ok ==> On(bits[..]) == old(On(bits[..]))
      ensures ok ==> On(bits[..]) == if v then old(On(bits[..])) + {i} else old(On(bits[..])) - {i}
    {
      ok := i < bits.Length;
      if ok {
        OnWrite(bits[..], i, v);
        bits[i] := v;
      }
    }

    // --- allocate_chunk_from_level ---

    method AllocateChunkFromLevel(minLevel: nat) returns (r: Option<nat>)
      requires Ok() && minLevel <= shape.levels
      modifies bits
      ensures AllocateChunk(old(Index()), minLevel).None? ==> r == None && bits[..] == old(bits[..])
      ensures AllocateChunk(old(Index()), minLevel).Some? ==>
                var (t, d) := AllocateChunk(old(Index()), minLevel).value;
                Index() == t && InShape(shape, d) && r == Some(ToAddress(d))
    {
      hide Shr, Marked, LevelOffset, LevelBits, AllocateChunk, IsFirst;
      OffsetMonotone(shape, minLevel, shape.levels);
      var found := FirstOne(bits, LevelOffset(shape, minLevel));
      if found.None? {
        NoneFrom(shape, bits[..], minLevel);
        return None;
      }
      var bit, level := AbsoluteToRelative(shape, found.value);
      FoundFirst(shape, bits[..], minLevel, Chunk(level, bit));
      AllocateChunkIs(Index(), minLevel, Chunk(level, bit));
      ghost var taken := SplitDown(Index(), Chunk(level, bit), minLevel);

      var i: nat := bit;
      var lower: nat := level;
      while lower > minLevel
        invariant minLevel <= lower <= level && InShape(shape, Chunk(lower, i))
        invariant SplitDown(Index(), Chunk(lower, i), minLevel) == taken
      {
        ghost var c := Chunk(lower, i);
        HalvesInShape(shape, c);
        lower := lower - 1;
        Set(i + LevelOffset(shape, lower + 1), false, c);
        i := 2 * i;
        Set(i + LevelOffset(shape, lower) + 1, true, RightHalf(c));
      }
      Set(i + LevelOffset(shape, minLevel), false, Chunk(minLevel, i));
      return Some(ToAddress(Chunk(minLevel, i)));
    }

    // --- merge_up_from ---

    /** A false result is a panic, on a bit outside the bitmap. */
    method MergeUpFrom(index: nat, level: nat) returns (ok: bool)
      requires Ok() && level < shape.levels
      modifies bits
      ensures var r := MergeBits(shape, old(On(bits[..])), index + LevelOffset(shape, level), level);
              ok == r.Some? && (ok ==> On(bits[..]) == r.value)
      ensures InShape(shape, Chunk(level, index)) ==>
                ok && Index() == MergeUp(old(Index()), Chunk(level, index), shape.levels)
    {
      hide On, Marked, LevelOffset, LevelBits;
      var i: nat := Absolute(shape, Chunk(level, index));
      var l: nat := level;
      ghost var merged := MergeBits(shape, On(bits[..]), i, l);
      if InShape(shape, Chunk(level, index)) {
        MarkedIsOn(shape, bits[..]);
        MergeBitsMerges(shape, On(bits[..]), Chunk(level, index));
      }
      while l + 1 < shape.levels
        invariant l < shape.levels && LevelOffset(shape, l) <= i
        invariant MergeBits(shape, On(bits[..]), i, l) == merged
      {
        OffsetEven(shape, l);
        i := i - i % 2;
        OnIff(bits[..], i);
        OnIff(bits[..], i + 1);
        if i >= bits.Length || (bits[i] && i + 1 >= bits.Length) {
          return false;
        }
        if !(bits[i] && bits[i + 1]) {
          break;
        }
        ok := Put(i, false);
        ok := Put(i + 1, false);
        var local := i - LevelOffset(shape, l);
        i := local / 2 + LevelOffset(shape, l + 1);
        ok := Put(i, true);
        if !ok {
          return;
        }
        l := l + 1;
      }
      MarkedIsOn(shape, bits[..]);
      return true;
    }

    // --- pick_off_contiguous ---

    /** Widening the bound from one level to a smaller one, and stepping down one
        chunk, gives the chunk right below the same boundary. */
    lemma BoundChunk(bound: nat, level: nat, l: nat)
      requires l <= level < shape.levels && bound <= LevelBits(shape, level) && Pow2(l) <= Shl(bound, level)
      ensures 0 < Shl(bound, level - l) <= LevelBits(shape, l)
      ensures Shr(Shl(bound, level) - Pow2(l), l) == Shl(bound, level - l) - 1
      ensures Shl(Shl(bound, level - l) - 1, l) == Shl(bound, level) - Pow2(l)
    {
      var w := Shl(bound, level - l);
      LevelBitsWiden(shape, l, level);
      ShlMonotone(bound, LevelBits(shape, level), level - l);
      ShlAdd(bound, level - l, l);
      ShlOne(l);
      ShlNext(w - 1, l);
      ShrShl(w - 1, l);
    }

    /** The overflow walk of `pick_off_contiguous`. */
    method ReturnOverflow(index: nat, level: nat, n: nat)
      requires Ok() && InShape(shape, Chunk(level, index)) && n <= Pow2(level)
      modifies bits
      ensures Index() == GiveBack(old(Index()), FirstPage(Chunk(level, index)) + Pow2(level), Pow2(level) - n)
    {
      hide HighestOne, Shl, Shr, Pow2, Marked, LevelOffset, LevelBits;
      ShlNext(index, level);
      var overflow: nat := Pow2(level) - n;
      var bound: nat := index + 1;
      var boundLevel: nat := level;
      ghost var returned := GiveBack(Index(), Shl(bound, level), overflow);
      while overflow > 0
        invariant boundLevel < shape.levels && bound <= LevelBits(shape, boundLevel)
        invariant overflow < 2 * Pow2(boundLevel) && overflow <= Shl(bound, boundLevel)
        invariant GiveBack(Index(), Shl(bound, boundLevel), overflow) == returned
        decreases overflow
      {
        var l := HighestOne(overflow);
        HighestOneWithin(overflow, boundLevel);
        BoundChunk(bound, boundLevel, l);
        overflow := overflow - Pow2(l);
        bound := Shl(bound, boundLevel - l) - 1;
        boundLevel := l;
        Set(bound + LevelOffset(shape, l), true, Chunk(l, bound));
      }
    }

    method PickOffContiguous(nFrames: nat, minFrames: nat) returns (r: Option<(nat, nat)>)
      requires Ok() && nFrames <= Pow2(shape.levels)
      modifies bits
      ensures PickOff(old(Index()), nFrames, minFrames).None? ==> r == None && bits[..] == old(bits[..])
      ensures PickOff(old(Index()), nFrames, minFrames).Some? ==>
                var (t, first) := PickOff(old(Index()), nFrames, minFrames).value;
                Index() == t && r == Some((first * PAGE_SIZE, nFrames))
    {
      hide Shr, Shl, Pow2, Marked, LevelOffset, LevelBits, GiveBack, AllocateChunk, LowestOne, NextPowerOfTwo;
      var target := LowestOne(NextPowerOfTwo(nFrames));
      var minimum := LowestOne(NextPowerOfTwo(minFrames));
      CeilLog2Spec(nFrames);
      CeilLog2Least(nFrames, shape.levels);
      ghost var was := Index();

      var found: Option<nat> := None;
      var level: int := target;
      while level >= minimum
        invariant level <= target
        invariant found == None && bits[..] == old(bits[..])
        invariant level < target ==> AllocateChunk(was, target).None?
      {
        found := AllocateChunkFromLevel(target);
        if found.Some? {
          break;
        }
        level := level - 1;
      }
      if found.None? {
        return None;
      }

      ghost var (t, d) := AllocateChunk(was, target).value;
      AddressRoundTrip(d);
      var index := RelativeIndex(found.value, level);
      Set(Absolute(shape, Chunk(level, index)), false, d);
      var nMapped := Pow2(level);
      ReturnOverflow(index, level, nFrames);
      return Some((found.value, if nMapped < nFrames then nMapped else nFrames));
    }

    // --- frame allocator and deallocators ---

    lemma MarkedBelowTop()
      requires Ok()
      ensures BelowTop(Index(), shape.levels)
    {
    }

    method AllocateFrame() returns (r: Option<nat>)
      requires Ok()
      modifies bits
      ensures Index() == IndexAfter(old(Index()), Frame, shape.huge, shape.levels)
      ensures r.None? ==> Granted(old(Index()), Frame, shape.huge) == {}
      ensures r.Some? ==>
                && r.value % PAGE_SIZE == 0
                && Granted(old(Index()), Frame, shape.huge) == {r.value / PAGE_SIZE}
    {
      hide Shr, Marked, AllocateChunk;
      r := AllocateChunkFromLevel(0);
      if r.Some? {
        ghost var (_, d) := AllocateChunk(old(Index()), 0).value;
        assert Pages(d) == {d.index};
      }
    }

    method AllocateHugeFrame() returns (r: Option<nat>)
      requires Ok()
      modifies bits
      ensures Index() == IndexAfter(old(Index()), HugeFrame, shape.huge, shape.levels)
      ensures r.None? ==> Granted(old(Index()), HugeFrame, shape.huge) == {}
      ensures r.Some? ==>
                && r.value % PAGE_SIZE == 0 && Aligned(r.value / PAGE_SIZE, shape.huge)
                && Granted(old(Index()), HugeFrame, shape.huge)
                   == Interval(r.value / PAGE_SIZE, r.value / PAGE_SIZE + Pow2(shape.huge))
    {
      hide Shr, Shl, Marked, AllocateChunk;
      r := AllocateChunkFromLevel(shape.huge);
      if r.Some? {
        ghost var (_, d) := AllocateChunk(old(Index()), shape.huge).value;
        AddressRoundTrip(d);
      }
    }

    /** A false result is a panic. The index of a frame the bitmap does not
        describe is taken for a bit of another level: the frame becomes free
        exactly when it is below the capacity. */
    method DeallocateFrame(addr: nat) returns (ok: bool)
      requires Ok()
      modifies bits
      ensures var page := addr / PAGE_SIZE;
              var r := MergeBits(shape, old(On(bits[..])) + {page}, page, 0);
              (ok <==> page < bits.Length && r.Some?) && (ok ==> On(bits[..]) == r.value)
      ensures addr / PAGE_SIZE < LevelBits(shape, 0) ==>
                ok && Index() == IndexAfter(old(Index()), Return(addr / PAGE_SIZE), shape.huge, shape.levels)
      ensures var page, free := addr / PAGE_SIZE, old(FreePages(Index()));
              old(Disjoint(Index())) && page !in free ==>
                (ok && FreePages(Index()) == free + {page} <==> page < LevelBits(shape, 0))
    {
      hide On, Marked, LevelBits, MergeBits, FreePages;
      ghost var was := bits[..];
      MarkedBelowTop();
      var index := RelativeIndex(addr, 0);
      OffsetMonotone(shape, 0, shape.levels);
      ok := Put(index, true);
      if ok {
        if index < LevelBits(shape, 0) {
          SetMarks(shape, was, bits[..], index);
        }
        ok := MergeUpFrom(index, 0);
      }
      if Disjoint(Marked(shape, was)) && index !in FreePages(Marked(shape, was)) {
        ReturnedIff(shape, was, bits[..], index);
      }
    }

    /** Keeps the code's mistake: the relative index of the 2 MiB frame is stored
        as an absolute one. */
    method DeallocateHugeFrame(addr: nat) returns (ok: bool)
      requires Ok()
      modifies bits
      ensures var index := RelativeIndex(addr, shape.huge);
              var start := index + LevelOffset(shape, shape.huge);
              var r := MergeBits(shape, old(On(bits[..])) + {index}, start, shape.huge);
              (ok <==> index < bits.Length && r.Some?) && (ok ==> On(bits[..]) == r.value)
      ensures RelativeIndex(addr, shape.huge) < LevelBits(shape, shape.huge) ==>
                && ok
                && Index() == DeallocateHuge(old(Index()), RelativeIndex(addr, shape.huge), shape.huge, shape.levels)
    {
      hide On, Marked, LevelBits, MergeBits;
      var index := RelativeIndex(addr, shape.huge);
      HugeBelowCapacity(shape, index);
      OffsetMonotone(shape, 0, shape.levels);
      ghost var was := bits[..];
      ok := Put(index, true);
      if ok {
        if index < LevelBits(shape, 0) {
          SetMarks(shape, was, bits[..], index);
        }
        ok := MergeUpFrom(index, shape.huge);
      }
    }

    // --- new ---

    /** Marks the frames lo..hi free, chunk by chunk. */
    method MarkRange(lo: nat, hi: nat) returns (ok: bool)
      requires Ok() && lo <= hi
      modifies bits
      ensures ok <==> InBounds(shape, lo, hi, 0)
      ensures ok ==> On(bits[..]) == old(On(bits[..])) + BitsOf(shape, Decompose(lo, hi, 0, shape.levels))
    {
      hide On, LevelOffset, TopChunks, BitsOf, Ends, Decompose;
      ghost var was := On(bits[..]);
      ghost var marked := BitsOf(shape, Decompose(lo, hi, 0, shape.levels));
      var i: nat, end: nat := lo, hi;
      var level: nat := 0;
      while level + 1 < shape.levels
        invariant level < shape.levels && i <= end
        invariant InBounds(shape, lo, hi, 0) <==> InBounds(shape, i, end, level)
        invariant On(bits[..]) + BitsOf(shape, Decompose(i, end, level, shape.levels)) == was + marked
      {
        DecomposeBits(shape, i, end, level);
        if i == end {
          return true;
        }
        EndBits(shape, i, end, level);
        if i % 2 != 0 {
          ok := Put(LevelOffset(shape, level) + i, true);
          if !ok {
            return false;
          }
          i := i + 1;
        }
        i := i / 2;
        if end % 2 != 0 {
          ok := Put(LevelOffset(shape, level) + end - 1, true);
          if !ok {
            return false;
          }
        }
        end := end / 2;
        level := level + 1;
      }
      DecomposeBits(shape, i, end, level);
      ok := FillTop(i, end);
    }

    /** `fill(true)` on a range of the top level. */
    method FillTop(lo: nat, hi: nat) returns (ok: bool)
      requires Ok() && lo <= hi
      modifies bits
      ensures ok <==> LevelOffset(shape, shape.levels - 1) + hi <= bits.Length
      ensures ok ==> On(bits[..]) == old(On(bits[..])) + BitsOf(shape, TopChunks(lo, hi, shape.levels - 1))
    {
      hide On, LevelOffset;
      var top := shape.levels - 1;
      ok := LevelOffset(shape, top) + hi <= bits.Length;
      if ok {
        for i := lo to hi
          invariant On(bits[..]) == old(On(bits[..])) + BitsOf(shape, TopChunks(lo, i, top))
        {
          var _ := Put(LevelOffset(shape, top) + i, true);
          TopBits(shape, lo, i);
        }
      }
    }

    /** The static allocator: all bits clear. */
    constructor (sh: Shape)
      requires sh.Ok()
      ensures shape == sh && fresh(bits) && Ok() && On(bits[..]) == {}
    {
      shape := sh;
      bits := new bool[LevelOffset(sh, sh.levels)](_ => false);
    }

    /** A false result is a panic, on a bit outside the bitmap. The frames of the
        usable entries, and no others, become free exactly when every usable entry
        with a frame ends within the capacity of level 0. */
    method New(entries: seq<MemmapEntry>) returns (ok: bool)
      requires Ok() && On(bits[..]) == {}
      modifies bits
      ensures ok <==> forall e :: e in entries ==> EntryInBounds(shape, e)
      ensures ok ==> On(bits[..]) == BitsOf(shape, MapChunks(entries, |entries|, shape.levels))
      ensures Fits(shape, entries) ==> ok && Index() == MapChunks(entries, |entries|, shape.levels)
      ensures ok && (forall p: nat :: p in FreePages(Index()) <==> InUsable(entries, p)) <==> Fits(shape, entries)
    {
      hide On, InBounds, Decompose, Marked, FreePages, Fits, InUsable;
      ok := true;
      for k := 0 to |entries|
        invariant ok && forall e :: e in entries[..k] ==> EntryInBounds(shape, e)
        invariant On(bits[..]) == BitsOf(shape, MapChunks(entries, k, shape.levels))
      {
        if entries[k].ty == Usable {
          ok := MarkRange(Start(entries[k]), End(entries[k]));
          if !ok {
            assert entries[k] in entries && !EntryInBounds(shape, entries[k]);
            if Fits(shape, entries) {
              EntryInShape(shape, entries, k);
            }
            return;
          }
        }
      }
      BootFrees(shape, entries, bits[..]);
    }
  }
}
