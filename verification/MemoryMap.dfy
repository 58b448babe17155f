/** The greedy decomposition of the usable entries of the boot loader's memory
    map into chunks, as `RuneFrameAllocator::new` computes it. Whether the bitmap
    has room for these chunks is the subject of `BootBits`. */
module MemoryMap {
  import opened Bits
  import opened Chunks
  import opened BuddyIndex

  datatype MemmapType =
    | Usable | Reserved | AcpiReclaimable | AcpiNvs | BadMemory
    | BootloaderReclaimable | ExecutableAndModules | Framebuffer | ReservedMapped

  datatype MemmapEntry = MemmapEntry(base: nat, length: nat, ty: MemmapType)

  /** First frame of an entry; `raw_frame_i` in the source. */
  function Start(e: MemmapEntry): nat
  {
    e.base / PAGE_SIZE
  }

  /** One past the last frame; `raw_frame_ei` in the source. */
  function End(e: MemmapEntry): nat
  {
    e.base / PAGE_SIZE + e.length / PAGE_SIZE
  }

  /** The chunks marked for the range lo..hi of chunks of `level`: the ends that
      do not line up with the next level, then the rest one level up. */
  ghost function Decompose(lo: nat, hi: nat, level: nat, levels: nat): set<Chunk>
    requires lo <= hi && level < levels
    decreases levels - level
  {
    if level + 1 == levels then TopChunks(lo, hi, level)
    else if lo == hi then {}
    else Ends(lo, hi, level) + Decompose((lo + 1) / 2, hi / 2, level + 1, levels)
  }

  ghost function TopChunks(lo: nat, hi: nat, level: nat): set<Chunk>
  {
    set i | i in Interval(lo, hi) :: Chunk(level, i)
  }

  ghost function Ends(lo: nat, hi: nat, level: nat): set<Chunk>
    requires lo < hi
  {
    (if lo % 2 != 0 then {Chunk(level, lo)} else {}) + (if hi % 2 != 0 then {Chunk(level, hi - 1)} else {})
  }

  /** The chunks of one entry. */
  ghost function EntryChunks(e: MemmapEntry, levels: nat): set<Chunk>
    requires 0 < levels
  {
    if e.ty.Usable? then Decompose(Start(e), End(e), 0, levels) else {}
  }

  /** The chunks marked after the first `n` entries. */
  ghost function MapChunks(es: seq<MemmapEntry>, n: nat, levels: nat): set<Chunk>
    requires n <= |es| && 0 < levels
  {
    if n == 0 then {} else MapChunks(es, n - 1, levels) + EntryChunks(es[n - 1], levels)
  }

  /** The frames of the usable entries. */
  ghost predicate InUsable(es: seq<MemmapEntry>, p: nat)
  {
    exists k :: 0 <= k < |es| && InEntry(es[k], p)
  }

  /** All bytes of the frame lie in a usable entry. A base inside a frame counts as
      the start of that frame. */
  predicate InEntry(e: MemmapEntry, p: nat)
  {
    var base := e.base - e.base % PAGE_SIZE;
    e.ty.Usable? && base <= p * PAGE_SIZE && (p + 1) * PAGE_SIZE <= base + e.length
  }

  /** These frames are the ones `new` computes, the first and the end. */
  lemma EntryRange(e: MemmapEntry)
    ensures forall p: nat :: InEntry(e, p) <==> e.ty.Usable? && Start(e) <= p < End(e)
    ensures e.base % PAGE_SIZE == 0 ==>
              forall p: nat :: InEntry(e, p) <==>
                e.ty.Usable? && e.base <= p * PAGE_SIZE && (p + 1) * PAGE_SIZE <= e.base + e.length
  {
  }

  ghost predicate NoOverlap(es: seq<MemmapEntry>)
  {
    forall j, k, p: nat :: 0 <= j < k < |es| && InEntry(es[j], p) ==> !InEntry(es[k], p)
  }

  // --- one entry ---

  lemma DecomposeAdds(lo: nat, hi: nat, level: nat, levels: nat)
    requires lo < hi && level + 1 < levels
    ensures var u := Decompose((lo + 1) / 2, hi / 2, level + 1, levels);
            var v := if lo % 2 != 0 then u + {Chunk(level, lo)} else u;
            Decompose(lo, hi, level, levels) == if hi % 2 != 0 then v + {Chunk(level, hi - 1)} else v
  {
  }

  /** The chunks of a range tile it: every page of the range lies in exactly one
      of them, and no page outside. */
  lemma {:induction false} DecomposeTiles(lo: nat, hi: nat, level: nat, levels: nat)
    requires lo <= hi && level < levels
    ensures var s := Decompose(lo, hi, level, levels);
            && Disjoint(s)
            && (forall c :: c in s ==> level <= c.level < levels)
            && (forall p: nat :: IsFree(s, p) <==> lo <= Shr(p, level) < hi)
    decreases levels - level
  {
    var s := Decompose(lo, hi, level, levels);
    if level + 1 == levels {
      forall p: nat | lo <= Shr(p, level) < hi
        ensures IsFree(s, p)
      {
        assert Covers(Chunk(level, Shr(p, level)), p);
      }
    } else if lo < hi {
      var u := Decompose((lo + 1) / 2, hi / 2, level + 1, levels);
      DecomposeTiles((lo + 1) / 2, hi / 2, level + 1, levels);
      var a, b := Chunk(level, lo), Chunk(level, hi - 1);
      assert forall p: nat :: Shr(p, level + 1) == Shr(p, level) / 2;
      var v := if lo % 2 != 0 then u + {a} else u;
      DecomposeAdds(lo, hi, level, levels);
      hide Decompose, Disjoint, Shr;
      if lo % 2 != 0 {
        AddChunk(u, a);
      }
      if hi % 2 != 0 {
        AddChunk(v, b);
      }
    }
  }

  /** The ends marked on the way up have no marked buddy. */
  lemma {:induction false} DecomposeMerged(lo: nat, hi: nat, level: nat, levels: nat)
    requires lo <= hi && level < levels
    ensures Merged(Decompose(lo, hi, level, levels), levels)
    decreases levels - level
  {
    if level + 1 < levels && lo < hi {
      DecomposeTiles((lo + 1) / 2, hi / 2, level + 1, levels);
      DecomposeMerged((lo + 1) / 2, hi / 2, level + 1, levels);
      DecomposeAdds(lo, hi, level, levels);
      EndsMerged(Decompose((lo + 1) / 2, hi / 2, level + 1, levels), lo, hi, level, levels);
    }
  }

  lemma EndsMerged(u: set<Chunk>, lo: nat, hi: nat, level: nat, levels: nat)
    requires lo < hi && Merged(u, levels) && forall c :: c in u ==> c.level > level
    ensures var v := if lo % 2 != 0 then u + {Chunk(level, lo)} else u;
            Merged(if hi % 2 != 0 then v + {Chunk(level, hi - 1)} else v, levels)
  {
    hide Merged;
    var v := if lo % 2 != 0 then u + {Chunk(level, lo)} else u;
    if lo % 2 != 0 {
      MergedAdd(u, Chunk(level, lo), levels);
    }
    if hi % 2 != 0 {
      MergedAdd(v, Chunk(level, hi - 1), levels);
    }
  }

  /** One entry by itself gives the canonical index of its frames. */
  lemma EntryValid(e: MemmapEntry, levels: nat)
    requires 0 < levels
    ensures Valid(EntryChunks(e, levels), levels)
    ensures forall p: nat :: IsFree(EntryChunks(e, levels), p) <==> InEntry(e, p)
  {
    if e.ty.Usable? {
      DecomposeTiles(Start(e), End(e), 0, levels);
      DecomposeMerged(Start(e), End(e), 0, levels);
    }
  }

  // --- the whole map ---

  lemma {:induction false} MapChunksIff(es: seq<MemmapEntry>, n: nat, levels: nat, c: Chunk)
    requires n <= |es| && 0 < levels
    ensures c in MapChunks(es, n, levels) <==> exists k :: 0 <= k < n && c in EntryChunks(es[k], levels)
  {
    if n > 0 {
      MapChunksIff(es, n - 1, levels, c);
    }
  }

  /** The chunks of a map cover exactly the frames of its usable entries. */
  lemma MapFrees(es: seq<MemmapEntry>, levels: nat, p: nat)
    requires 0 < levels
    ensures IsFree(MapChunks(es, |es|, levels), p) <==> InUsable(es, p)
  {
    var s := MapChunks(es, |es|, levels);
    forall k | 0 <= k < |es|
      ensures IsFree(EntryChunks(es[k], levels), p) <==> InEntry(es[k], p)
    {
      EntryValid(es[k], levels);
    }
    forall c
      ensures c in s <==> exists k :: 0 <= k < |es| && c in EntryChunks(es[k], levels)
    {
      MapChunksIff(es, |es|, levels, c);
    }
  }

  /** Every frame of a usable entry lies in exactly one chunk of the map, and no
      other frame in any. */
  lemma MapMarksUsable(es: seq<MemmapEntry>, levels: nat)
    requires 0 < levels && NoOverlap(es)
    ensures var s := MapChunks(es, |es|, levels);
            && BelowTop(s, levels) && Disjoint(s)
            && forall p: nat :: IsFree(s, p) <==> InUsable(es, p)
  {
    var s := MapChunks(es, |es|, levels);
    forall c
      ensures c in s <==> exists k :: 0 <= k < |es| && c in EntryChunks(es[k], levels)
    {
      MapChunksIff(es, |es|, levels, c);
    }
    forall k | 0 <= k < |es|
      ensures Valid(EntryChunks(es[k], levels), levels)
      ensures forall p: nat :: IsFree(EntryChunks(es[k], levels), p) <==> InEntry(es[k], p)
    {
      EntryValid(es[k], levels);
    }
    forall c, d, p: nat | c in s && d in s && Covers(c, p) && Covers(d, p)
      ensures c == d
    {
      var j :| 0 <= j < |es| && c in EntryChunks(es[j], levels);
      var k :| 0 <= k < |es| && d in EntryChunks(es[k], levels);
      assert IsFree(EntryChunks(es[j], levels), p) && IsFree(EntryChunks(es[k], levels), p);
    }
    forall p: nat
      ensures IsFree(s, p) <==> InUsable(es, p)
    {
      MapFrees(es, levels, p);
    }
  }

  /** Two usable entries meet at frame (2m + 1) * 2^l, below the top level, and
      each has at least 2^l frames. */
  predicate Seam(a: MemmapEntry, b: MemmapEntry, l: nat, m: nat)
  {
    && a.ty.Usable? && b.ty.Usable?
    && End(a) == Start(b) == Shl(2 * m + 1, l)
    && End(a) - Start(a) >= Pow2(l) && End(b) - Start(b) >= Pow2(l)
  }

  ghost predicate HasSeam(es: seq<MemmapEntry>, levels: nat)
  {
    exists j, k, l: nat, m: nat :: 0 <= j < |es| && 0 <= k < |es| && l + 1 < levels && Seam(es[j], es[k], l, m)
  }

  /** The two blocks at a seam. */
  lemma SeamBlocks(c: Chunk, d: Chunk, b: nat)
    requires c.index % 2 == 0 && d == Buddy(c) && b == FirstPage(d)
    ensures b >= Pow2(c.level)
    ensures forall p: nat :: Covers(c, p) <==> b - Pow2(c.level) <= p < b
    ensures forall p: nat :: Covers(d, p) <==> b <= p < b + Pow2(c.level)
  {
    assert Buddy(d) == c;
    OddBuddyBelow(d, b);
    CoveredRange(d, b);
  }

  lemma SeamUnmerged(a: MemmapEntry, b: MemmapEntry, l: nat, m: nat, levels: nat)
    requires l + 1 < levels && Seam(a, b, l, m)
    ensures Chunk(l, 2 * m) in EntryChunks(a, levels)
    ensures Chunk(l, 2 * m + 1) in EntryChunks(b, levels)
  {
    hide Shr, Shl, Decompose, EntryChunks;
    var c, d, at := Chunk(l, 2 * m), Chunk(l, 2 * m + 1), Start(b);
    SeamBlocks(c, d, at);
    EntryValid(a, levels);
    EntryValid(b, levels);
    BuddiesPartitionParent(c, at);
    BuddiesPartitionParent(d, at - 1);
    Canonical(EntryChunks(a, levels), c, levels);
    Canonical(EntryChunks(b, levels), d, levels);
  }

  lemma EntryHolds(e: MemmapEntry, c: Chunk, levels: nat, p: nat)
    requires 0 < levels && c in EntryChunks(e, levels) && Covers(c, p)
    ensures InEntry(e, p)
  {
    EntryValid(e, levels);
  }

  lemma UnmergedSeam(es: seq<MemmapEntry>, j: nat, k: nat, c: Chunk, levels: nat)
    requires 0 < levels && NoOverlap(es) && j < |es| && k < |es|
    requires c.level + 1 < levels && c.index % 2 == 0
    requires c in EntryChunks(es[j], levels) && Buddy(c) in EntryChunks(es[k], levels)
    ensures Seam(es[j], es[k], c.level, c.index / 2)
  {
    var l, m := c.level, c.index / 2;
    var at := Shl(2 * m + 1, l);
    assert Buddy(c) == Chunk(l, 2 * m + 1);
    SeamBlocks(c, Buddy(c), at);
    EntryHolds(es[j], c, levels, at - 1);
    EntryHolds(es[j], c, levels, at - Pow2(l));
    EntryHolds(es[k], Buddy(c), levels, at);
    EntryHolds(es[k], Buddy(c), levels, at + Pow2(l) - 1);
    assert j != k by { EntryValid(es[j], levels); }
    assert !InEntry(es[k], at - 1) && !InEntry(es[j], at);
  }

  lemma SeamNotMerged(es: seq<MemmapEntry>, j: nat, k: nat, l: nat, m: nat, levels: nat)
    requires j < |es| && k < |es| && l + 1 < levels && Seam(es[j], es[k], l, m)
    ensures !Merged(MapChunks(es, |es|, levels), levels)
  {
    var c := Chunk(l, 2 * m);
    assert Buddy(c) == Chunk(l, 2 * m + 1);
    SeamUnmerged(es[j], es[k], l, m, levels);
    MapChunksIff(es, |es|, levels, c);
    MapChunksIff(es, |es|, levels, Buddy(c));
  }

  lemma NotMergedSeam(es: seq<MemmapEntry>, c: Chunk, levels: nat)
    requires 0 < levels && NoOverlap(es) && c.level + 1 < levels && c.index % 2 == 0
    requires c in MapChunks(es, |es|, levels) && Buddy(c) in MapChunks(es, |es|, levels)
    ensures HasSeam(es, levels)
  {
    MapChunksIff(es, |es|, levels, c);
    MapChunksIff(es, |es|, levels, Buddy(c));
    var j :| 0 <= j < |es| && c in EntryChunks(es[j], levels);
    var k :| 0 <= k < |es| && Buddy(c) in EntryChunks(es[k], levels);
    UnmergedSeam(es, j, k, c, levels);
  }

  /** The chunks of a map are Merged exactly when the map has no seam. */
  lemma MapMergedIff(es: seq<MemmapEntry>, levels: nat)
    requires 0 < levels && NoOverlap(es)
    ensures Merged(MapChunks(es, |es|, levels), levels) <==> !HasSeam(es, levels)
  {
    var s := MapChunks(es, |es|, levels);
    if HasSeam(es, levels) {
      var j, k, l: nat, m: nat :| 0 <= j < |es| && 0 <= k < |es| && l + 1 < levels && Seam(es[j], es[k], l, m);
      SeamNotMerged(es, j, k, l, m, levels);
    }
    if d :| d in s && d.level + 1 < levels && Buddy(d) in s {
      NotMergedSeam(es, if d.index % 2 == 0 then d else Buddy(d), levels);
    }
  }
}
