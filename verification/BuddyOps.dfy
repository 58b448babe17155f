/** The allocator's operations on the set of marked chunks, and what each of
    them does to the free pages and to the Disjoint and Merged invariants. */
module BuddyOps {
  import opened Bits
  import opened Chunks
  import opened BuddyIndex

  // --- allocate_chunk_from_level ---

  /** `c` is what `first_one` finds from the start of level `k` on: the lowest
      chunk of the smallest marked level that is at least `k`. */
  ghost predicate IsFirst(s: set<Chunk>, k: nat, c: Chunk)
  {
    && c in s && c.level >= k
    && forall d :: d in s && d.level >= k ==>
         c.level < d.level || (c.level == d.level && c.index <= d.index)
  }

  /** Splits `c` down to level `k`, marking every right half on the way, and
      takes the leftmost piece. */
  ghost function SplitDown(s: set<Chunk>, c: Chunk, k: nat): (r: (set<Chunk>, Chunk))
    requires k <= c.level
    ensures r.1.level == k
    decreases c.level
  {
    if c.level == k then (s - {c}, c)
    else SplitDown(s - {c} + {RightHalf(c)}, LeftHalf(c), k)
  }

  ghost function AllocateChunk(s: set<Chunk>, k: nat): (r: Option<(set<Chunk>, Chunk)>)
    ensures r.Some? ==> r.value.1.level == k
  {
    if c :| IsFirst(s, k, c) then Some(SplitDown(s, c, k)) else None
  }

  lemma AllocateChunkIs(s: set<Chunk>, k: nat, c: Chunk)
    requires IsFirst(s, k, c)
    ensures AllocateChunk(s, k) == Some(SplitDown(s, c, k))
  {
  }

  lemma {:induction false} FirstExists(s: set<Chunk>, k: nat, c: Chunk) returns (f: Chunk)
    requires c in s && c.level >= k
    ensures IsFirst(s, k, f)
    decreases |s|
  {
    if d :| d in s - {c} && d.level >= k {
      f := FirstExists(s - {c}, k, d);
      if c.level < f.level || (c.level == f.level && c.index < f.index) {
        f := c;
      }
    } else {
      f := c;
    }
  }

  /** Splitting loses no page but the taken ones, which start where `c` does. */
  lemma {:induction false} SplitDownKeeps(s: set<Chunk>, c: Chunk, k: nat, levels: nat)
    requires k <= c.level < levels
    requires Disjoint(s + {c}) && BelowTop(s, levels)
    ensures var (t, d) := SplitDown(s, c, k);
            && d.level == k && FirstPage(d) == FirstPage(c)
            && BelowTop(t, levels) && Disjoint(t)
            && (Merged(s - {c}, levels) ==> Merged(t, levels))
            && (forall p: nat :: Covers(d, p) ==> Covers(c, p))
            && (forall p: nat :: IsFree(t, p) <==> IsFree(s + {c}, p) && !Covers(d, p))
    decreases c.level
  {
    RemoveChunk(s + {c}, c);
    assert s + {c} - {c} == s - {c};
    if c.level > k {
      var l, r, u := LeftHalf(c), RightHalf(c), s - {c};
      HalvesCover(c);
      assert l !in u by { FirstPageCovered(l); }
      AddChunk(u, r);
      if Merged(u, levels) {
        MergedAdd(u, r, levels);
      }
      assert u + {r} - {l} == u + {r};
      SplitDownKeeps(u + {r}, l, k, levels);
    }
  }

  /** Allocation takes the start of the lowest chunk of the smallest sufficient
      level, and removes from the free pages exactly the 2^k pages it returns. */
  lemma AllocateChunkTakes(s: set<Chunk>, k: nat, levels: nat)
    requires BelowTop(s, levels) && Disjoint(s)
    requires AllocateChunk(s, k).Some?
    ensures var (t, d) := AllocateChunk(s, k).value;
            && d.level == k && Pages(d) <= FreePages(s)
            && FreePages(t) == FreePages(s) - Pages(d)
            && BelowTop(t, levels) && Disjoint(t)
            && (Merged(s, levels) ==> Merged(t, levels))
            && exists c :: IsFirst(s, k, c) && FirstPage(d) == FirstPage(c)
  {
    var c :| IsFirst(s, k, c) && AllocateChunk(s, k).value == SplitDown(s, c, k);
    assert s + {c} == s;
    SplitDownKeeps(s, c, k, levels);
    var (t, d) := AllocateChunk(s, k).value;
    FullyFreePages(s, d);
    forall p: nat
      ensures p in FreePages(t) <==> p in FreePages(s) && p !in Pages(d)
    {
      FreePagesIff(t, p);
      FreePagesIff(s, p);
      PagesCovered(d, p);
    }
  }

  /** Allocation fails exactly when no aligned block of 2^k pages is free. */
  lemma AllocateChunkComplete(s: set<Chunk>, k: nat, levels: nat)
    requires BelowTop(s, levels) && Merged(s, levels) && k < levels
    ensures AllocateChunk(s, k).Some? <==> HasFreeBlock(s, k)
  {
    Completeness(s, k, levels);
    if c :| c in s && c.level >= k {
      var f := FirstExists(s, k, c);
    }
  }

  /** Best fit: allocation leaves every free block that is larger than the chunk
      it splits entirely free. */
  lemma AllocateChunkSparesLarger(s: set<Chunk>, k: nat, levels: nat, c: Chunk, b: Chunk)
    requires Valid(s, levels) && IsFirst(s, k, c) && c.level < b.level < levels && FullyFree(s, b)
    ensures AllocateChunk(s, k).Some? && FullyFree(AllocateChunk(s, k).value.0, b)
  {
    AllocateChunkIs(s, k, c);
    assert s + {c} == s;
    SplitDownKeeps(s, c, k, levels);
    var big := FullyFreeIsMarked(s, b, levels);
    forall p: nat | Covers(b, p)
      ensures IsFree(AllocateChunk(s, k).value.0, p)
    {
      WithinCovers(b, big, p);
    }
  }

  // --- merge_up_from and the frame deallocators ---

  /** Coalesces `c` with its buddy, then the result with its own buddy, and so
      on below the top level, as long as both are marked. */
  ghost function MergeUp(s: set<Chunk>, c: Chunk, levels: nat): set<Chunk>
    decreases levels - c.level
  {
    if c.level + 1 < levels && c in s && Buddy(c) in s
    then MergeUp(s - {c, Buddy(c)} + {Parent(c)}, Parent(c), levels)
    else s
  }

  /** Merging repairs an index that is Merged everywhere but at `c`. */
  lemma {:induction false} MergeUpKeeps(s: set<Chunk>, c: Chunk, levels: nat)
    requires BelowTop(s, levels) && Disjoint(s)
    ensures var t := MergeUp(s, c, levels);
            && BelowTop(t, levels) && Disjoint(t)
            && (Merged(s - {c}, levels) ==> Merged(t, levels))
            && (forall p: nat :: IsFree(t, p) <==> IsFree(s, p))
    decreases levels - c.level
  {
    if c.level + 1 < levels && c in s && Buddy(c) in s {
      var b, q := Buddy(c), Parent(c);
      assert forall p: nat :: Covers(q, p) <==> Covers(c, p) || Covers(b, p);
      var u := s - {c} - {b};
      assert u == s - {c, b};
      AddChunk(u, q);
      assert q !in u by { FirstPageCovered(q); }
      assert u + {q} - {q} == u;
      MergeUpKeeps(u + {q}, q, levels);
    } else if Merged(s - {c}, levels) && c in s {
      assert s - {c} + {c} == s;
      MergedAdd(s - {c}, c, levels);
    }
  }

  ghost function Deallocate(s: set<Chunk>, page: nat, levels: nat): set<Chunk>
  {
    MergeUp(s + {Chunk(0, page)}, Chunk(0, page), levels)
  }

  /** Returning a 4 KiB frame frees exactly its page. */
  lemma DeallocateAdds(s: set<Chunk>, page: nat, levels: nat)
    requires 0 < levels && BelowTop(s, levels) && Disjoint(s)
    requires page !in FreePages(s)
    ensures var t := Deallocate(s, page, levels);
            && FreePages(t) == FreePages(s) + {page}
            && BelowTop(t, levels) && Disjoint(t)
            && (Merged(s, levels) ==> Merged(t, levels))
  {
    var c := Chunk(0, page);
    FreePagesIff(s, page);
    assert c !in s by { FirstPageCovered(c); }
    assert s + {c} - {c} == s;
    MergeUpKeeps(s + {c}, c, levels);
    var t := Deallocate(s, page, levels);
    forall p: nat
      ensures p in FreePages(t) <==> p in FreePages(s) || p == page
    {
      FreePagesIff(t, p);
      FreePagesIff(s, p);
    }
  }

  /** Returning a frame keeps the chunks disjoint exactly when the frame was not
      free, or was marked by itself; then the second return changes nothing. */
  lemma DeallocateKeepsIff(s: set<Chunk>, page: nat, levels: nat)
    requires 0 < levels && Valid(s, levels)
    ensures Disjoint(Deallocate(s, page, levels)) <==> page !in FreePages(s) || Chunk(0, page) in s
    ensures Chunk(0, page) in s ==> Deallocate(s, page, levels) == s
  {
    var c := Chunk(0, page);
    FreePagesIff(s, page);
    assert c in s ==> s + {c} == s;
    if page !in FreePages(s) {
      DeallocateAdds(s, page, levels);
    } else if c !in s {
      var d :| d in s && Covers(d, page);
      ParentWithin(c, d);
      FirstPageCovered(Buddy(c));
      WithinCovers(Parent(c), d, FirstPage(Buddy(c)));
      assert Deallocate(s, page, levels) == s + {c};
      assert c in s + {c} && d in s + {c} && Covers(c, page);
    }
  }

  /** The upward merge stops at the largest fully free aligned block around the
      frame, capped at the top level, and that block ends up marked. */
  lemma DeallocateMergesMaximally(s: set<Chunk>, page: nat, levels: nat) returns (top: Chunk)
    requires 0 < levels && Valid(s, levels)
    requires page !in FreePages(s)
    ensures var t := Deallocate(s, page, levels);
            && top in t && Covers(top, page)
            && forall c: Chunk :: c.level < levels && Covers(c, page) ==>
                 (Pages(c) <= FreePages(s) + {page} <==> c.level <= top.level)
  {
    DeallocateAdds(s, page, levels);
    var t := Deallocate(s, page, levels);
    FreePagesIff(t, page);
    top :| top in t && Covers(top, page);
    forall c: Chunk | c.level < levels && Covers(c, page)
      ensures Pages(c) <= FreePages(s) + {page} <==> c.level <= top.level
    {
      FullyFreePages(t, c);
      if FullyFree(t, c) {
        var d := FullyFreeIsMarked(t, c, levels);
        WithinCovers(c, d, page);
      } else if c.level <= top.level {
        Nesting(c, top, page);
        forall p: nat | Covers(c, p)
          ensures IsFree(t, p)
        {
          WithinCovers(c, top, p);
        }
      }
    }
  }

  /** Allocating a frame and giving it back restores the index bit for bit. */
  lemma AllocateDeallocate(s: set<Chunk>, levels: nat)
    requires 0 < levels && Valid(s, levels)
    requires AllocateChunk(s, 0).Some?
    ensures var (t, d) := AllocateChunk(s, 0).value; Deallocate(t, d.index, levels) == s
  {
    AllocateChunkTakes(s, 0, levels);
    var (t, d) := AllocateChunk(s, 0).value;
    assert Pages(d) == {d.index};
    DeallocateAdds(t, d.index, levels);
    CanonicalForm(Deallocate(t, d.index, levels), s, levels);
  }

  /** Two frames may be returned in either order. */
  lemma DeallocateCommutes(s: set<Chunk>, p: nat, q: nat, levels: nat)
    requires 0 < levels && Valid(s, levels)
    requires p != q && p !in FreePages(s) && q !in FreePages(s)
    ensures Deallocate(Deallocate(s, p, levels), q, levels) == Deallocate(Deallocate(s, q, levels), p, levels)
  {
    DeallocateAdds(s, p, levels);
    DeallocateAdds(s, q, levels);
    var sp, sq := Deallocate(s, p, levels), Deallocate(s, q, levels);
    DeallocateAdds(sp, q, levels);
    DeallocateAdds(sq, p, levels);
    CanonicalForm(Deallocate(sp, q, levels), Deallocate(sq, p, levels), levels);
  }

  /** The 2 MiB deallocator stores the frame's index within level `huge` as an
      absolute one, which is a bit of level 0, and then merges at `huge`. */
  ghost function DeallocateHuge(s: set<Chunk>, index: nat, huge: nat, levels: nat): set<Chunk>
  {
    MergeUp(s + {Chunk(0, index)}, Chunk(huge, index), levels)
  }

  lemma HugeIndexOutside(index: nat, huge: nat)
    requires huge > 0
    ensures index in Pages(Chunk(huge, index)) <==> index == 0
  {
    ShlOne(huge);
  }

  /** So it frees the single page numbered like the huge frame, ... */
  lemma DeallocateHugeFreesOnePage(s: set<Chunk>, index: nat, huge: nat, levels: nat)
    requires 0 < huge < levels && Merged(s, levels)
    ensures FreePages(DeallocateHuge(s, index, huge, levels)) == FreePages(s) + {index}
  {
    var c := Chunk(0, index);
    var t := DeallocateHuge(s, index, huge, levels);
    assert t == s + {c};
    forall p: nat
      ensures p in FreePages(t) <==> p in FreePages(s) || p == index
    {
      FreePagesIff(t, p);
    }
  }

  /** ... which frees the huge frame exactly when at most one page of it was
      not free already, and that page is page 0 of frame 0. */
  lemma DeallocateHugeCorrectIff(s: set<Chunk>, index: nat, huge: nat, levels: nat)
    requires 0 < huge < levels && Merged(s, levels)
    ensures FreePages(DeallocateHuge(s, index, huge, levels)) == FreePages(s) + Pages(Chunk(huge, index))
            <==> Pages(Chunk(huge, index)) - (if index == 0 then {0} else {}) <= FreePages(s)
                 && (index == 0 || index in FreePages(s))
  {
    DeallocateHugeFreesOnePage(s, index, huge, levels);
    var b := Pages(Chunk(huge, index));
    HugeIndexOutside(index, huge);
    assert FreePages(s) + {index} == FreePages(s) + b <==>
           b <= FreePages(s) + {index} && (index in b || index in FreePages(s));
  }

  /** An outstanding huge frame is therefore never returned, whatever the index:
      of its pages, none but page 0 of frame 0 becomes free. */
  lemma DeallocateHugeLosesFrame(s: set<Chunk>, index: nat, huge: nat, levels: nat)
    requires 0 < huge < levels && Merged(s, levels)
    requires Pages(Chunk(huge, index)) !! FreePages(s)
    ensures Pages(Chunk(huge, index)) * FreePages(DeallocateHuge(s, index, huge, levels))
            == if index == 0 then {0} else {}
  {
    DeallocateHugeFreesOnePage(s, index, huge, levels);
    HugeIndexOutside(index, huge);
  }

  /** What it does to the invariants: the chunks stay disjoint exactly when the
      page is not free or is marked by itself, and they stay merged exactly when
      the page's buddy is not marked by itself. */
  lemma DeallocateHugeKeepsIff(s: set<Chunk>, index: nat, huge: nat, levels: nat)
    requires 0 < huge < levels && Valid(s, levels)
    ensures var t := DeallocateHuge(s, index, huge, levels);
            && (Disjoint(t) <==> index !in FreePages(s) || Chunk(0, index) in s)
            && (Merged(t, levels) <==> Buddy(Chunk(0, index)) !in s)
  {
    var c := Chunk(0, index);
    var t := DeallocateHuge(s, index, huge, levels);
    assert t == s + {c};
    FreePagesIff(s, index);
    if c in s {
      assert t == s;
    } else if index in FreePages(s) {
      var d :| d in s && Covers(d, index);
      assert c in t && d in t && Covers(c, index);
    } else {
      AddChunk(s, c);
    }
    if Buddy(c) in s {
      assert c in t && Buddy(c) in t;
    } else {
      MergedAdd(s, c, levels);
    }
  }

  // --- pick_off_contiguous ---

  /** Marks the last `overflow` pages below `end`, one chunk for each set bit,
      from the highest bit down. */
  ghost function GiveBack(s: set<Chunk>, end: nat, overflow: nat): set<Chunk>
    requires overflow <= end
    decreases overflow
  {
    if overflow == 0 then s else
      var l := HighestOne(overflow);
      GiveBack(s + {Chunk(l, Shr(end - Pow2(l), l))}, end - Pow2(l), overflow - Pow2(l))
  }

  /** The chunk that one step of the overflow walk marks. */
  lemma OverflowChunk(end: nat, level: nat, overflow: nat) returns (c: Chunk)
    requires Aligned(end, level) && 0 < overflow < 2 * Pow2(level) && overflow <= end
    ensures c.level == HighestOne(overflow) <= level
    ensures c.index == Shr(end - Pow2(c.level), c.level) && Aligned(end - Pow2(c.level), c.level)
    ensures forall p: nat :: Covers(c, p) <==> end - Pow2(c.level) <= p < end
    ensures overflow < Pow2(level) && overflow < end ==> Covers(Buddy(c), end - overflow - 1)
  {
    hide Covers, Shl, Pow2, HighestOne;
    var l := HighestOne(overflow);
    HighestOneWithin(overflow, level);
    AlignedSmaller(end, level, l);
    AlignedBelow(end, l);
    c := Chunk(l, Shr(end - Pow2(l), l));
    CoveredRange(c, end - Pow2(l));
    if overflow < Pow2(level) && overflow < end {
      OddBuddyBelow(c, end - Pow2(l));
    }
  }

  /** The overflow walk frees exactly the overflow pages. If at least one page
      is kept, the pieces stay unmergeable. */
  lemma {:induction false} GiveBackKeeps(s: set<Chunk>, end: nat, level: nat, overflow: nat, levels: nat)
    requires level < levels && BelowTop(s, levels) && Disjoint(s)
    requires Aligned(end, level) && overflow < 2 * Pow2(level) && overflow <= end
    requires forall p: nat :: end - overflow <= p < end ==> !IsFree(s, p)
    ensures var t := GiveBack(s, end, overflow);
            && BelowTop(t, levels) && Disjoint(t)
            && (forall p: nat :: IsFree(t, p) <==> IsFree(s, p) || end - overflow <= p < end)
            && (Merged(s, levels) && overflow < Pow2(level) && overflow < end && !IsFree(s, end - overflow - 1)
                ==> Merged(t, levels))
    decreases overflow
  {
    hide Shl, Shr, HighestOne, Pow2;
    if overflow > 0 {
      var c := OverflowChunk(end, level, overflow);
      AddChunk(s, c);
      GiveBackKeeps(s + {c}, end - Pow2(c.level), c.level, overflow - Pow2(c.level), levels);
      if Merged(s, levels) && overflow < Pow2(level) && overflow < end && !IsFree(s, end - overflow - 1) {
        MergedAdd(s, c, levels);
      }
    }
  }

  /** `pick_off_contiguous`: the index after it and the first page handed out;
      it hands out exactly `n` pages. */
  ghost function PickOff(s: set<Chunk>, n: nat, min: nat): Option<(set<Chunk>, nat)>
  {
    var target := CeilLog2(n);
    if CeilLog2(min) > target then None else
      match AllocateChunk(s, target)
      case None => None
      case Some((t, d)) =>
        CeilLog2Spec(n);
        Some((GiveBack(t - {d}, FirstPage(d) + Pow2(target), Pow2(target) - n), FirstPage(d)))
  }

  /** Giving back the tail of a taken chunk `d` but its first `n` pages. */
  lemma GiveBackTail(s: set<Chunk>, d: Chunk, n: nat, first: nat, levels: nat)
    requires d.level < levels && BelowTop(s, levels) && Disjoint(s)
    requires first == FirstPage(d) && Pages(d) !! FreePages(s) && n <= Pow2(d.level)
    ensures var t := GiveBack(s, first + Pow2(d.level), Pow2(d.level) - n);
            && FreePages(t) == FreePages(s) + Interval(first + n, first + Pow2(d.level))
            && BelowTop(t, levels) && Disjoint(t)
            && (Merged(s, levels) && n > 0 ==> Merged(t, levels))
  {
    hide Shl, Shr, HighestOne, GiveBack;
    var size := Pow2(d.level);
    ShlNext(d.index, d.level);
    ShlIsAligned(d.index + 1, d.level);
    var t := GiveBack(s, first + size, size - n);
    FreePagesAll(s);
    GiveBackKeeps(s, first + size, d.level, size - n, levels);
    FreePagesAre(t, FreePages(s) + Interval(first + n, first + size));
  }

  /** A successful pick hands out exactly `n` contiguous free pages from an
      address aligned to the next power of two, the start of the first chunk of
      the smallest sufficient level, and keeps the index Merged if
      it hands out anything at all. */
  lemma PickOffTakes(s: set<Chunk>, n: nat, min: nat, levels: nat)
    requires BelowTop(s, levels) && Disjoint(s)
    requires PickOff(s, n, min).Some?
    ensures var (t, first) := PickOff(s, n, min).value;
            && Aligned(first, CeilLog2(n))
            && (exists c :: IsFirst(s, CeilLog2(n), c) && first == FirstPage(c))
            && Interval(first, first + n) <= FreePages(s)
            && FreePages(t) == FreePages(s) - Interval(first, first + n)
            && BelowTop(t, levels) && Disjoint(t)
            && (Merged(s, levels) && n > 0 ==> Merged(t, levels))
  {
    hide Shl, Shr, Pow2, LowestOne, NextPowerOfTwo, HighestOne, SplitDown;
    var target := CeilLog2(n);
    AllocateChunkTakes(s, target, levels);
    var (u, d) := AllocateChunk(s, target).value;
    var (t, first) := PickOff(s, n, min).value;
    ShlIsAligned(d.index, target);
    TakenUnmarked(u, d);
    GiveBackTail(u, d, n, first, levels);
  }

  /** Best fit: a pick leaves every free block larger than the chunk it starts
      entirely free. */
  lemma PickOffSparesLarger(s: set<Chunk>, n: nat, min: nat, levels: nat, c: Chunk, b: Chunk)
    requires Valid(s, levels) && PickOff(s, n, min).Some?
    requires IsFirst(s, CeilLog2(n), c) && c.level < b.level < levels && FullyFree(s, b)
    ensures PickOff(s, n, min).value.1 == FirstPage(c) && FullyFree(PickOff(s, n, min).value.0, b)
  {
    hide Shl, Shr, Pow2, LowestOne, NextPowerOfTwo, HighestOne, SplitDown, FullyFree, GiveBack;
    PickOffTakes(s, n, min, levels);
    AllocateChunkTakes(s, CeilLog2(n), levels);
    AllocateChunkSparesLarger(s, CeilLog2(n), levels, c, b);
    CeilLog2Spec(n);
    var (u, d) := AllocateChunk(s, CeilLog2(n)).value;
    var (t, first) := PickOff(s, n, min).value;
    assert FreePages(u) <= FreePages(t);
    FullyFreeMore(u, t, b);
  }

  lemma FullyFreeMore(s: set<Chunk>, t: set<Chunk>, b: Chunk)
    requires FreePages(s) <= FreePages(t) && FullyFree(s, b)
    ensures FullyFree(t, b)
  {
    FreePagesAll(s);
    FreePagesAll(t);
  }

  lemma TakenUnmarked(s: set<Chunk>, d: Chunk)
    requires Pages(d) !! FreePages(s)
    ensures d !in s && s - {d} == s
  {
    PagesCovered(d, FirstPage(d));
  }

  /** A pick succeeds exactly when an aligned free block of the next power of
      two exists, whatever smaller blocks are free. */
  lemma PickOffComplete(s: set<Chunk>, n: nat, min: nat, levels: nat)
    requires BelowTop(s, levels) && Merged(s, levels)
    ensures PickOff(s, n, min).Some? <==>
            CeilLog2(min) <= CeilLog2(n) < levels && HasFreeBlock(s, CeilLog2(n))
  {
    if CeilLog2(n) < levels {
      AllocateChunkComplete(s, CeilLog2(n), levels);
    }
  }

  ghost predicate FallsBack(s: set<Chunk>, n: nat, min: nat)
  {
    HasFreeBlock(s, CeilLog2(min)) ==> PickOff(s, n, min).Some?
  }

  /** The documented fallback to a smaller block, down to `min` frames, is
      there for every index exactly when there is nothing to fall back to. */
  lemma PickOffFallsBackIff(n: nat, min: nat, levels: nat)
    requires CeilLog2(min) <= CeilLog2(n) < levels
    ensures (forall s :: Valid(s, levels) ==> FallsBack(s, n, min)) <==> CeilLog2(min) == CeilLog2(n)
  {
    if CeilLog2(min) < CeilLog2(n) {
      var c := Chunk(CeilLog2(min), 0);
      assert FullyFree({c}, c);
      assert Valid({c}, levels) && HasFreeBlock({c}, CeilLog2(min));
      assert !FallsBack({c}, n, min);
    } else {
      forall s | Valid(s, levels)
        ensures FallsBack(s, n, min)
      {
        PickOffComplete(s, n, min, levels);
      }
    }
  }

  /** A split leaves the buddy of the taken chunk marked. */
  lemma {:induction false} SplitLeavesBuddy(s: set<Chunk>, c: Chunk, k: nat)
    requires k < c.level
    ensures var (t, d) := SplitDown(s, c, k); d.level == k && Buddy(d) in t && Buddy(d) != d
    decreases c.level
  {
    if c.level > k + 1 {
      SplitLeavesBuddy(s - {c} + {RightHalf(c)}, LeftHalf(c), k);
    }
  }

  lemma GiveBackOne(s: set<Chunk>, d: Chunk)
    requires d.level == 0
    ensures GiveBack(s, d.index + 1, 1) == s + {d}
  {
  }

  /** A request for no pages splits off a page and marks it again. */
  lemma PickOffNothingMarks(s: set<Chunk>, min: nat, levels: nat) returns (c: Chunk)
    requires Valid(s, levels) && PickOff(s, 0, min).Some?
    ensures IsFirst(s, 0, c) && PickOff(s, 0, min).value.0 == SplitDown(s, c, 0).0 + {SplitDown(s, c, 0).1}
  {
    AllocateChunkTakes(s, 0, levels);
    c :| IsFirst(s, 0, c) && AllocateChunk(s, 0).value == SplitDown(s, c, 0);
    var (u, d) := SplitDown(s, c, 0);
    TakenUnmarked(u, d);
    GiveBackOne(u, d);
  }

  /** It leaves two buddies marked exactly when it had to split a chunk. */
  lemma PickOffNothing(s: set<Chunk>, min: nat, levels: nat)
    requires Valid(s, levels) && PickOff(s, 0, min).Some?
    ensures var (t, _) := PickOff(s, 0, min).value;
            && FreePages(t) == FreePages(s)
            && (Merged(t, levels) <==> exists c :: c in s && c.level == 0)
  {
    PickOffTakes(s, 0, min, levels);
    var c := PickOffNothingMarks(s, min, levels);
    hide PickOff, FreePages, Disjoint;
    var (t, _) := PickOff(s, 0, min).value;
    if c.level == 0 {
      assert t == s;
    } else {
      SplitLeavesBuddy(s, c, 0);
      assert SplitDown(s, c, 0).1 in t;
    }
  }
}
