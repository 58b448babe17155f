/** Which bits of the flat bitmap `RuneFrameAllocator::new` sets for a memory
    map that may reach past the frames the bitmap describes. */
module BootBits {
  import opened Bits
  import opened Chunks
  import opened BuddyIndex
  import opened BuddyLayout
  import opened MemoryMap
  import opened RawBits

  /** Where `new` puts the chunks, whether or not the shape has them. */
  ghost function BitsOf(sh: Shape, s: set<Chunk>): set<nat>
  {
    set c | c in s :: Absolute(sh, c)
  }

  /** Marking the range lo..hi of `level` and the levels above stays within the
      bitmap: each end marked has a bit, and so has the end of the top range,
      which is sliced even if it is empty. */
  ghost predicate InBounds(sh: Shape, lo: nat, hi: nat, level: nat)
    requires lo <= hi && level < sh.levels
    decreases sh.levels - level
  {
    var total := LevelOffset(sh, sh.levels);
    if level + 1 == sh.levels then LevelOffset(sh, level) + hi <= total
    else if lo == hi then true
    else
      && (lo % 2 != 0 ==> LevelOffset(sh, level) + lo < total)
      && (hi % 2 != 0 ==> LevelOffset(sh, level) + hi - 1 < total)
      && InBounds(sh, (lo + 1) / 2, hi / 2, level + 1)
  }

  ghost predicate EntryInBounds(sh: Shape, e: MemmapEntry)
    requires 0 < sh.levels
  {
    e.ty.Usable? ==> InBounds(sh, Start(e), End(e), 0)
  }

  /** Every frame of a usable entry is below the capacity of level 0. */
  ghost predicate Fits(sh: Shape, es: seq<MemmapEntry>)
  {
    forall k, p: nat :: 0 <= k < |es| && InEntry(es[k], p) ==> p < LevelBits(sh, 0)
  }

  /** If the shape has all the chunks set, they are the marked ones. */
  lemma MarkedOfBits(sh: Shape, bits: seq<bool>, s: set<Chunk>)
    requires |bits| == LevelOffset(sh, sh.levels) && On(bits) == BitsOf(sh, s)
    requires forall c :: c in s ==> InShape(sh, c)
    ensures Marked(sh, bits) == s
  {
    forall c
      ensures c in Marked(sh, bits) <==> c in s
    {
      MarkedIff(sh, bits, c);
      if c in Marked(sh, bits) {
        assert Absolute(sh, c) in On(bits);
        var d :| d in s && Absolute(sh, d) == Absolute(sh, c);
        AbsoluteInjective(sh, c, d);
      }
      if c in s {
        assert Absolute(sh, c) in BitsOf(sh, s);
      }
    }
  }

  /** A range within the capacity is decomposed within the shape. */
  lemma {:induction false} DecomposeInShape(sh: Shape, lo: nat, hi: nat, level: nat)
    requires level < sh.levels && lo <= hi <= LevelBits(sh, level)
    ensures InBounds(sh, lo, hi, level)
    ensures forall c :: c in Decompose(lo, hi, level, sh.levels) ==> InShape(sh, c)
    decreases sh.levels - level
  {
    OffsetMonotone(sh, level, sh.levels);
    if level + 1 < sh.levels && lo < hi {
      LevelBitsHalve(sh, level);
      DecomposeInShape(sh, (lo + 1) / 2, hi / 2, level + 1);
    }
  }

  /** `lo` rounded up to a multiple of 2^n, in units of 2^n. */
  function RoundUp(lo: nat, n: nat): nat
  {
    if n == 0 then lo else (RoundUp(lo, n - 1) + 1) / 2
  }

  lemma {:induction false} RoundUpShift(lo: nat, n: nat)
    ensures RoundUp((lo + 1) / 2, n) == RoundUp(lo, n + 1)
  {
    if n > 0 {
      RoundUpShift(lo, n - 1);
    }
  }

  /** A range that is used up stays so on the way up. */
  lemma {:induction false} UsedUp(lo: nat, hi: nat, n: nat)
    requires lo >= hi
    ensures RoundUp(lo, n) >= Shr(hi, n)
  {
    if n > 0 {
      UsedUp(lo, hi, n - 1);
    }
  }

  /** Marking a range panics exactly when one of its chunks has no bit, or when a
      range that reaches the top level ends past the bitmap. */
  lemma {:induction false} InBoundsIff(sh: Shape, lo: nat, hi: nat, level: nat)
    requires lo <= hi && level + 1 < sh.levels
    ensures var top, total := sh.levels - 1, LevelOffset(sh, sh.levels);
            InBounds(sh, lo, hi, level) <==>
              && (forall c :: c in Decompose(lo, hi, level, sh.levels) ==> Absolute(sh, c) < total)
              && (RoundUp(lo, top - 1 - level) < Shr(hi, top - 1 - level) ==>
                    LevelOffset(sh, top) + Shr(hi, top - level) <= total)
    decreases sh.levels - level
  {
    hide LevelOffset, Ends;
    var n := sh.levels - 2 - level;
    if lo == hi {
      UsedUp(lo, hi, n);
    } else {
      var rest := Decompose((lo + 1) / 2, hi / 2, level + 1, sh.levels);
      assert Decompose(lo, hi, level, sh.levels) == Ends(lo, hi, level) + rest;
      ShrShift(hi, n);
      if n > 0 {
        InBoundsIff(sh, (lo + 1) / 2, hi / 2, level + 1);
        RoundUpShift(lo, n - 1);
        ShrShift(hi, n - 1);
      }
      EndsInBounds(sh, lo, hi, level, LevelOffset(sh, sh.levels));
    }
  }

  lemma EndsInBounds(sh: Shape, lo: nat, hi: nat, level: nat, total: nat)
    requires lo < hi
    ensures (forall c :: c in Ends(lo, hi, level) ==> Absolute(sh, c) < total) <==>
            && (lo % 2 != 0 ==> Absolute(sh, Chunk(level, lo)) < total)
            && (hi % 2 != 0 ==> Absolute(sh, Chunk(level, hi - 1)) < total)
  {
    hide LevelOffset;
    assert lo % 2 != 0 ==> Chunk(level, lo) in Ends(lo, hi, level);
    assert hi % 2 != 0 ==> Chunk(level, hi - 1) in Ends(lo, hi, level);
  }

  lemma {:induction false} ShrShift(x: nat, n: nat)
    ensures Shr(x / 2, n) == Shr(x, n + 1)
  {
    if n > 0 {
      ShrShift(x, n - 1);
    }
  }

  lemma EntryInShape(sh: Shape, es: seq<MemmapEntry>, k: nat)
    requires 1 < sh.levels && Fits(sh, es) && k < |es|
    ensures EntryInBounds(sh, es[k])
    ensures forall c :: c in EntryChunks(es[k], sh.levels) ==> InShape(sh, c)
  {
    if es[k].ty.Usable? && Start(es[k]) < End(es[k]) {
      EntryRange(es[k]);
      assert InEntry(es[k], End(es[k]) - 1);
      DecomposeInShape(sh, Start(es[k]), End(es[k]), 0);
    }
  }

  /** A map that fits is marked chunk by chunk, ... */
  lemma FittingMap(sh: Shape, es: seq<MemmapEntry>, bits: seq<bool>)
    requires 1 < sh.levels && |bits| == LevelOffset(sh, sh.levels) && Fits(sh, es)
    requires On(bits) == BitsOf(sh, MapChunks(es, |es|, sh.levels))
    ensures Marked(sh, bits) == MapChunks(es, |es|, sh.levels)
  {
    var s := MapChunks(es, |es|, sh.levels);
    forall c | c in s
      ensures InShape(sh, c)
    {
      MapChunksIff(es, |es|, sh.levels, c);
      var k :| 0 <= k < |es| && c in EntryChunks(es[k], sh.levels);
      EntryInShape(sh, es, k);
    }
    MarkedOfBits(sh, bits, s);
  }

  /** ... and no bitmap makes the frames of any other map free. */
  lemma FreeOnlyIfFits(sh: Shape, es: seq<MemmapEntry>, bits: seq<bool>)
    requires |bits| == LevelOffset(sh, sh.levels)
    requires forall p: nat :: InUsable(es, p) ==> p in FreePages(Marked(sh, bits))
    ensures Fits(sh, es)
  {
    forall k, p: nat | 0 <= k < |es| && InEntry(es[k], p)
      ensures p < LevelBits(sh, 0)
    {
      assert InUsable(es, p);
      FreeBelowCapacity(sh, bits, p);
    }
  }

  /** Booting from a map gives the frames of its usable entries, and no others,
      exactly when the map fits. */
  lemma BootFrees(sh: Shape, es: seq<MemmapEntry>, bits: seq<bool>)
    requires 1 < sh.levels && |bits| == LevelOffset(sh, sh.levels)
    requires On(bits) == BitsOf(sh, MapChunks(es, |es|, sh.levels))
    ensures (forall p: nat :: p in FreePages(Marked(sh, bits)) <==> InUsable(es, p)) <==> Fits(sh, es)
    ensures Fits(sh, es) ==> Marked(sh, bits) == MapChunks(es, |es|, sh.levels)
  {
    if Fits(sh, es) {
      FittingMap(sh, es, bits);
      forall p: nat
        ensures p in FreePages(Marked(sh, bits)) <==> InUsable(es, p)
      {
        FreePagesIff(Marked(sh, bits), p);
        MapFrees(es, sh.levels, p);
      }
    } else if forall p: nat :: p in FreePages(Marked(sh, bits)) <==> InUsable(es, p) {
      FreeOnlyIfFits(sh, es, bits);
    }
  }

  /** Past the capacity, a usable entry of one odd frame frees the pages of some
      larger chunk below the capacity, and nothing else. */
  lemma StrayFrame(sh: Shape, e: MemmapEntry, bits: seq<bool>) returns (c: Chunk)
    requires 1 < sh.levels && |bits| == LevelOffset(sh, sh.levels)
    requires On(bits) == BitsOf(sh, MapChunks([e], 1, sh.levels))
    requires e.ty.Usable? && End(e) == Start(e) + 1 && Start(e) % 2 == 1
    requires LevelBits(sh, 0) <= Start(e) < LevelOffset(sh, sh.levels)
    ensures Marked(sh, bits) == {c} && 1 <= c.level && Pages(c) <= Interval(0, LevelBits(sh, 0))
  {
    var f := Start(e);
    assert MapChunks([e], 1, sh.levels) == MapChunks([e], 0, sh.levels) + EntryChunks(e, sh.levels);
    assert Decompose(f, f + 1, 0, sh.levels) == {Chunk(0, f)} + Decompose((f + 1) / 2, (f + 1) / 2, 1, sh.levels);
    c := BeyondCapacity(sh, f);
    BitsOfFew(sh, c);
    BitsOfFew(sh, Chunk(0, f));
    MarkedOfBits(sh, bits, {c});
  }

  // --- the bits of one step of the decomposition ---

  lemma EndBits(sh: Shape, lo: nat, hi: nat, level: nat)
    requires lo < hi
    ensures BitsOf(sh, Ends(lo, hi, level))
            == (if lo % 2 != 0 then {LevelOffset(sh, level) + lo} else {})
               + (if hi % 2 != 0 then {LevelOffset(sh, level) + hi - 1} else {})
  {
    hide BitsOf, LevelOffset;
    BitsOfFew(sh, Chunk(level, lo));
    BitsOfFew(sh, Chunk(level, hi - 1));
    BitsOfUnion(sh, if lo % 2 != 0 then {Chunk(level, lo)} else {}, if hi % 2 != 0 then {Chunk(level, hi - 1)} else {});
  }

  lemma DecomposeBits(sh: Shape, lo: nat, hi: nat, level: nat)
    requires lo <= hi && level < sh.levels
    ensures var bits := BitsOf(sh, Decompose(lo, hi, level, sh.levels));
            if level + 1 == sh.levels then bits == BitsOf(sh, TopChunks(lo, hi, level))
            else if lo == hi then bits == {}
            else bits == BitsOf(sh, Ends(lo, hi, level))
                         + BitsOf(sh, Decompose((lo + 1) / 2, hi / 2, level + 1, sh.levels))
  {
    hide TopChunks, Ends;
    if level + 1 < sh.levels && lo < hi {
      BitsOfUnion(sh, Ends(lo, hi, level), Decompose((lo + 1) / 2, hi / 2, level + 1, sh.levels));
    }
  }

  lemma BitsOfFew(sh: Shape, c: Chunk)
    ensures BitsOf(sh, {}) == {} && BitsOf(sh, {c}) == {Absolute(sh, c)}
  {
  }

  lemma BitsOfUnion(sh: Shape, s: set<Chunk>, t: set<Chunk>)
    ensures BitsOf(sh, s + t) == BitsOf(sh, s) + BitsOf(sh, t)
  {
  }

  lemma TopBits(sh: Shape, lo: nat, i: nat)
    requires 0 < sh.levels && lo <= i
    ensures BitsOf(sh, TopChunks(lo, i + 1, sh.levels - 1))
            == BitsOf(sh, TopChunks(lo, i, sh.levels - 1)) + {LevelOffset(sh, sh.levels - 1) + i}
  {
    var c := Chunk(sh.levels - 1, i);
    assert TopChunks(lo, i + 1, sh.levels - 1) == TopChunks(lo, i, sh.levels - 1) + {c};
    BitsOfUnion(sh, TopChunks(lo, i, sh.levels - 1), {c});
  }
}
