/** The bitmap `new` leaves behind, and the runs of the allocator that start
    from it. */
module BootRuns {
  import opened Chunks
  import opened BuddyIndex
  import opened BuddyLayout
  import opened MemoryMap
  import opened RawBits
  import opened BootBits
  import opened BuddyRuns

  /** The bits are the ones `new` sets for the map `es`. */
  ghost predicate Booted(sh: Shape, es: seq<MemmapEntry>, bits: seq<bool>)
  {
    && sh.Ok() && |bits| == LevelOffset(sh, sh.levels)
    && On(bits) == BitsOf(sh, MapChunks(es, |es|, sh.levels))
  }

  ghost function Initial(sh: Shape, bits: seq<bool>): Machine
  {
    Machine(Marked(sh, bits), {})
  }

  /** The frames of the usable entries, and no others, are either free or
      outstanding, and never both. */
  ghost predicate Accounted(es: seq<MemmapEntry>, m: Machine)
  {
    && m.out !! FreePages(m.index)
    && forall p: nat :: p in m.out || p in FreePages(m.index) <==> InUsable(es, p)
  }

  /** The bitmap of a map that fits has its chunks disjoint, and Merged exactly
      when the map has no seam. */
  lemma BootMergedIff(sh: Shape, es: seq<MemmapEntry>, bits: seq<bool>)
    requires Booted(sh, es, bits) && NoOverlap(es) && Fits(sh, es)
    ensures BelowTop(Marked(sh, bits), sh.levels) && Disjoint(Marked(sh, bits))
    ensures Merged(Marked(sh, bits), sh.levels) <==> !HasSeam(es, sh.levels)
  {
    FittingMap(sh, es, bits);
    MapMarksUsable(es, sh.levels);
    MapMergedIff(es, sh.levels);
  }

  /** From boot on, over any run, every usable frame is accounted for, and the
      bitmap stays in order. */
  lemma BootConserves(sh: Shape, es: seq<MemmapEntry>, bits: seq<bool>, rs: seq<Request>)
    requires Booted(sh, es, bits) && NoOverlap(es) && Fits(sh, es)
    requires Lawful(Initial(sh, bits), rs, sh.huge, sh.levels)
    ensures var m := Run(Initial(sh, bits), rs, sh.huge, sh.levels);
            && Accounted(es, m)
            && (!HasSeam(es, sh.levels) && NoEmptyPicks(rs) ==> Valid(m.index, sh.levels))
  {
    BootMergedIff(sh, es, bits);
    BootFrees(sh, es, bits);
    RunConserves(Initial(sh, bits), rs, sh.huge, sh.levels);
    var m := Run(Initial(sh, bits), rs, sh.huge, sh.levels);
    forall p: nat
      ensures p in m.out || p in FreePages(m.index) <==> InUsable(es, p)
    {
      assert p in FreePages(m.index) + m.out <==> p in FreePages(Marked(sh, bits));
    }
  }

  /** Without room for the map there is no such run, not even the empty one: every
      run accounts for the usable frames if and only if the map fits. */
  lemma BootConservesIff(sh: Shape, es: seq<MemmapEntry>, bits: seq<bool>)
    requires Booted(sh, es, bits) && NoOverlap(es)
    ensures (forall rs :: Lawful(Initial(sh, bits), rs, sh.huge, sh.levels) ==>
               Accounted(es, Run(Initial(sh, bits), rs, sh.huge, sh.levels)))
            <==> Fits(sh, es)
  {
    if Fits(sh, es) {
      forall rs | Lawful(Initial(sh, bits), rs, sh.huge, sh.levels)
        ensures Accounted(es, Run(Initial(sh, bits), rs, sh.huge, sh.levels))
      {
        BootConserves(sh, es, bits, rs);
      }
    } else {
      BootFrees(sh, es, bits);
      assert Lawful(Initial(sh, bits), [], sh.huge, sh.levels);
      assert Run(Initial(sh, bits), [], sh.huge, sh.levels) == Initial(sh, bits);
      assert !Accounted(es, Initial(sh, bits));
    }
  }

  /** A map that does not fit can leave buddies unmerged without a seam: the two
      lowest frames and, past the capacity, one frame that has the bit of their
      buddy. */
  lemma StrayBuddies(sh: Shape) returns (es: seq<MemmapEntry>, bits: seq<bool>)
    requires sh.Ok() && 2 < sh.levels
    ensures NoOverlap(es) && !HasSeam(es, sh.levels)
    ensures Booted(sh, es, bits) && !Merged(Marked(sh, bits), sh.levels)
  {
    var f := LevelBits(sh, 0) + 1;
    var a, b, stray := Chunk(1, 0), Chunk(1, 1), Chunk(0, f);
    es := [MemmapEntry(0, 2 * PAGE_SIZE, Usable), MemmapEntry(f * PAGE_SIZE, PAGE_SIZE, Usable)];
    LevelBitsHalve(sh, 0);
    LevelBitsHalve(sh, 1);
    LevelBitsExact(sh, 2);
    StrayChunks(es, sh.levels, f);
    AbsoluteInBitmap(sh, a);
    AbsoluteInBitmap(sh, b);
    assert Absolute(sh, b) == Absolute(sh, stray);
    bits := TwoBits(sh, a, stray);
    assert Absolute(sh, a) in On(bits) && Absolute(sh, stray) in On(bits);
    MarkedIff(sh, bits, a);
    MarkedIff(sh, bits, b);
    assert Buddy(a) == b;
  }

  lemma StrayChunks(es: seq<MemmapEntry>, levels: nat, f: nat)
    requires 2 < levels && |es| == 2 && es[0].ty.Usable? && es[1].ty.Usable? && f % 2 == 1
    requires Start(es[0]) == 0 && End(es[0]) == 2 && Start(es[1]) == f && End(es[1]) == f + 1
    ensures MapChunks(es, 2, levels) == {Chunk(1, 0), Chunk(0, f)}
  {
    assert Decompose(0, 0, 2, levels) == {};
    assert Decompose(0, 1, 1, levels) == Ends(0, 1, 1) + Decompose(0, 0, 2, levels);
    assert Decompose(0, 2, 0, levels) == Ends(0, 2, 0) + Decompose(0, 1, 1, levels);
    assert Decompose((f + 1) / 2, (f + 1) / 2, 1, levels) == {};
    assert Decompose(f, f + 1, 0, levels) == {Chunk(0, f)};
    assert MapChunks(es, 1, levels) == MapChunks(es, 0, levels) + EntryChunks(es[0], levels);
  }

  lemma TwoBits(sh: Shape, a: Chunk, c: Chunk) returns (bits: seq<bool>)
    requires Absolute(sh, a) < LevelOffset(sh, sh.levels) && Absolute(sh, c) < LevelOffset(sh, sh.levels)
    ensures |bits| == LevelOffset(sh, sh.levels) && On(bits) == BitsOf(sh, {a, c})
  {
    bits := seq(LevelOffset(sh, sh.levels), i => i == Absolute(sh, a) || i == Absolute(sh, c));
    assert BitsOf(sh, {a, c}) == {Absolute(sh, a), Absolute(sh, c)};
  }
}
