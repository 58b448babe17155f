/** `MapperAllocator::page_region`: picks frames for a region of virtual memory
    and maps them, while the mapper draws page-table frames from the same
    allocator. */
module PageRegion {
  import opened Bits
  import opened Chunks
  import opened BuddyIndex
  import opened BuddyOps
  import opened BuddyLayout
  import opened BuddyRuns
  import opened FrameAllocator

  /** One call of `map_to`: a virtual page of 2^unit frames, by its number, and
      the first of the frames it is mapped to. */
  datatype Mapping = Mapping(page: nat, frame: nat)

  /** The mappings of `count` consecutive pages to consecutive frames. */
  function RegionMappings(page: nat, frame: nat, count: nat, unit: nat): (r: seq<Mapping>)
    ensures |r| == count
    ensures forall i :: 0 <= i < count ==> r[i] == Mapping(page + i, frame + Shl(i, unit))
  {
    seq(count, i requires 0 <= i < count => Mapping(page + i, frame + Shl(i, unit)))
  }

  /** The first page, by number, of a region: `start.align_down` */
  function FirstUnit(start: nat, unit: nat): nat
  {
    Shr(start / PAGE_SIZE, unit)
  }

  /** One past the last page: `end.align_up` */
  function EndUnit(end: nat, unit: nat): nat
  {
    Shr((end + Shl(PAGE_SIZE, unit) - 1) / PAGE_SIZE, unit)
  }

  /** The pages of a region are the fewest that hold all its bytes. */
  lemma RegionExact(start: nat, end: nat, unit: nat)
    ensures Shl(FirstUnit(start, unit), unit) * PAGE_SIZE <= start
            < Shl(FirstUnit(start, unit), unit) * PAGE_SIZE + Shl(PAGE_SIZE, unit)
    ensures end <= Shl(EndUnit(end, unit), unit) * PAGE_SIZE < end + Shl(PAGE_SIZE, unit)
  {
    ShlOne(unit);
    ShlScaled(1, unit);
    UnitExact(start, unit);
    UnitExact(end + Shl(PAGE_SIZE, unit) - 1, unit);
  }

  lemma UnitExact(a: nat, unit: nat)
    ensures Shl(Shr(a / PAGE_SIZE, unit), unit) * PAGE_SIZE <= a
            < Shl(Shr(a / PAGE_SIZE, unit), unit) * PAGE_SIZE + Pow2(unit) * PAGE_SIZE
  {
    ShrBounds(a / PAGE_SIZE, unit);
  }

  function Min(a: nat, b: nat): nat
  {
    if a <= b then a else b
  }

  /** The page tables, as far as the calls of `map_to` before a call determine
      what it finds: how many tables are missing, and whether the page is mapped
      already. */
  datatype PageTables = PageTables(
    missing: (seq<Mapping>, Mapping) -> nat,
    occupied: (seq<Mapping>, Mapping) -> bool)

  /** How many page tables the calls `ms` find missing, made after `log`. */
  ghost function Demand(pt: PageTables, log: seq<Mapping>, ms: seq<Mapping>): nat
    decreases |ms|
  {
    if ms == [] then 0
    else
      var k := |ms| - 1;
      Demand(pt, log, ms[..k]) + pt.missing(log + ms[..k], ms[k])
  }

  /** Some call of `ms` finds its page mapped. */
  ghost predicate Occupied(pt: PageTables, log: seq<Mapping>, ms: seq<Mapping>)
    decreases |ms|
  {
    ms != []
    && var k := |ms| - 1;
       Occupied(pt, log, ms[..k]) || pt.occupied(log + ms[..k], ms[k])
  }

  lemma CallsOn(pt: PageTables, log: seq<Mapping>, ms: seq<Mapping>, m: Mapping)
    ensures Demand(pt, log, ms + [m]) == Demand(pt, log, ms) + pt.missing(log + ms, m)
    ensures Occupied(pt, log, ms + [m]) <==> Occupied(pt, log, ms) || pt.occupied(log + ms, m)
  {
    assert (ms + [m])[..|ms|] == ms;
  }

  /** The marked chunks, the calls of `map_to`, the page-table frames drawn, and
      how many calls failed. */
  datatype View = View(index: set<Chunk>, issued: seq<Mapping>, tables: set<nat>, failed: nat)

  /** Drawing `n` page tables: exactly `n` frames stop being free, and exactly
      these become tables. */
  ghost predicate Draws(a: View, b: View, n: nat, levels: nat)
  {
    && Disjoint(b.index) && (Merged(a.index, levels) ==> Merged(b.index, levels))
    && FreePages(b.index) <= FreePages(a.index) && |FreePages(b.index)| == |FreePages(a.index)| - n
    && b.tables == a.tables + (FreePages(a.index) - FreePages(b.index))
  }

  /** Calling `map_to` for each of `ms`: the tables they find missing are drawn as
      long as frames remain, and a call fails when they run out or its page is
      mapped already. */
  ghost predicate Maps(a: View, b: View, ms: seq<Mapping>, pt: PageTables, levels: nat)
  {
    var demand := Demand(pt, a.issued, ms);
    && b.issued == a.issued + ms
    && Draws(a, b, Min(demand, |FreePages(a.index)|), levels)
    && a.failed <= b.failed && (a.failed == b.failed <==> demand <= |FreePages(a.index)| && !Occupied(pt, a.issued, ms))
  }

  /** One more frame drawn. */
  lemma DrawsFrame(a: View, b: View, c: View, n: nat, frame: nat, huge: nat, levels: nat)
    requires Draws(a, b, n, levels) && 0 < levels && BelowTop(b.index, levels)
    requires Granted(b.index, Frame, huge) == {frame}
    requires c.index == IndexAfter(b.index, Frame, huge, levels) && c.tables == b.tables + {frame}
    ensures Draws(a, c, n + 1, levels)
  {
    hide FreePages, Disjoint, Merged, BelowTop, Granted, IndexAfter;
    StepConserves(Machine(b.index, {}), Frame, huge, levels);
    assert FreePages(c.index) == FreePages(b.index) - {frame};
  }

  /** In numbers: every call is made, each table the calls find missing costs a free
      frame, until none is left, and some call fails exactly when they run out or a
      page is mapped already. */
  lemma MapsCosts(a: View, b: View, ms: seq<Mapping>, pt: PageTables, levels: nat)
    requires Maps(a, b, ms, pt, levels)
    ensures var free, left, demand := FreePages(a.index), FreePages(b.index), Demand(pt, a.issued, ms);
            && b.issued == a.issued + ms && left <= free && b.tables == a.tables + (free - left)
            && |left| == (if demand <= |free| then |free| - demand else 0)
            && (b.failed > a.failed <==> demand > |free| || Occupied(pt, a.issued, ms))
  {
    hide FreePages;
  }

  lemma MapsNone(a: View, pt: PageTables, levels: nat)
    requires Disjoint(a.index)
    ensures Maps(a, a, [], pt, levels)
  {
  }

  lemma MapsOn(a: View, b: View, c: View, ms: seq<Mapping>, m: Mapping, pt: PageTables, levels: nat)
    requires Maps(a, b, ms, pt, levels) && Maps(b, c, [m], pt, levels)
    ensures Maps(a, c, ms + [m], pt, levels)
  {
    hide FreePages, Disjoint, Merged;
    CallsOn(pt, a.issued, ms, m);
    CallsOn(pt, b.issued, [], m);
    assert b.issued + [] == b.issued;
  }

  /** What paging a region took: the first frame of the run, and the bitmap once
      the run is taken and before the mappings draw their tables from it. */
  datatype Taken = Taken(first: nat, index: set<Chunk>)

  /** Paging `count` pages of 2^unit frames from `page` on: they are mapped in
      order to one run of frames that were all free, and no page table shares a
      frame with the run; or nothing happens at all. */
  ghost predicate Paged(a: View, b: View, page: nat, count: nat, unit: nat, taken: Option<Taken>,
                        pt: PageTables, levels: nat)
  {
    match taken
    case None => b == a
    case Some(Taken(first, index)) =>
      var frames := Interval(first, first + Shl(count, unit));
      && Aligned(first, unit) && frames <= FreePages(a.index)
      && FreePages(index) == FreePages(a.index) - frames
      && Maps(a.(index := index), b, RegionMappings(page, first, count, unit), pt, levels)
  }

  // --- what is mapped where ---

  /** Of a region mapped from `page` to `frame`, the frame-sized page `v` is in the
      page of its number, and gets the frame as far from the first as it is from
      the start of the region. */
  lemma RegionTranslates(page: nat, frame: nat, count: nat, unit: nat, v: nat) returns (i: nat)
    requires Shl(page, unit) <= v < Shl(page + count, unit)
    ensures i < count
    ensures var m := RegionMappings(page, frame, count, unit)[i];
            && Shl(m.page, unit) <= v < Shl(m.page + 1, unit)
            && m.frame + (v - Shl(m.page, unit)) == frame + (v - Shl(page, unit))
  {
    var q := Shr(v, unit);
    ShrBounds(v, unit);
    ShlNext(q, unit);
    if q < page {
      ShlMonotone(q + 1, page, unit);
    }
    if q >= page + count {
      ShlMonotone(page + count, q, unit);
    }
    i := q - page;
    ShlSum(page, i, unit);
  }

  /** Paging a region makes one call for every page of it, in order, and nothing
      else: each frame-sized page of the region gets a frame of its own, which was
      free and is neither free nor a table drawn for the region. */
  lemma PagedTranslates(a: View, b: View, page: nat, count: nat, unit: nat, taken: Taken,
                        pt: PageTables, levels: nat, v: nat) returns (j: nat)
    requires Paged(a, b, page, count, unit, Some(taken), pt, levels)
    requires Shl(page, unit) <= v < Shl(page + count, unit)
    ensures |b.issued| == |a.issued| + count && b.issued[..|a.issued|] == a.issued
    ensures |a.issued| <= j < |b.issued|
    ensures var m, f := b.issued[j], taken.first + (v - Shl(page, unit));
            && Shl(m.page, unit) <= v < Shl(m.page + 1, unit) && m.frame + (v - Shl(m.page, unit)) == f
            && f in FreePages(a.index) && f !in FreePages(b.index) && (f in b.tables ==> f in a.tables)
  {
    hide FreePages, Demand, Occupied, Disjoint, Merged, Shl;
    var i := RegionTranslates(page, taken.first, count, unit, v);
    ShlSum(page, count, unit);
    j := |a.issued| + i;
  }

  // --- who has which frame ---

  /** A call on the mapper: a region paged, or one page mapped to a given frame. */
  datatype Call =
    | Region(page: nat, count: nat, unit: nat, taken: Option<Taken>)
    | Single(m: Mapping)

  ghost predicate Calls(a: View, c: Call, b: View, pt: PageTables, levels: nat)
  {
    match c
    case Region(page, count, unit, taken) => Paged(a, b, page, count, unit, taken, pt, levels)
    case Single(m) => Maps(a, b, [m], pt, levels)
  }

  /** The frames a call takes to map a region to. */
  ghost function Mapped(c: Call): set<nat>
  {
    if c.Region? && c.taken.Some?
    then Interval(c.taken.value.first, c.taken.value.first + Shl(c.count, c.unit))
    else {}
  }

  ghost function AllMapped(cs: seq<Call>): set<nat>
    decreases |cs|
  {
    if cs == [] then {} else AllMapped(cs[..|cs| - 1]) + Mapped(cs[|cs| - 1])
  }

  /** The frames mapped, the page tables and the free frames are apart. */
  ghost predicate Owns(v: View, owned: set<nat>)
  {
    owned !! v.tables && owned !! FreePages(v.index) && v.tables !! FreePages(v.index)
  }

  lemma CallOwns(a: View, c: Call, b: View, owned: set<nat>, pt: PageTables, levels: nat)
    requires Owns(a, owned) && Calls(a, c, b, pt, levels)
    ensures Owns(b, owned + Mapped(c)) && Mapped(c) !! owned && Mapped(c) <= FreePages(a.index)
    ensures FreePages(b.index) + b.tables + owned + Mapped(c) == FreePages(a.index) + a.tables + owned
  {
    hide *;
    var free := CallTakes(a, c, b, pt, levels);
    OwnsApart(a, b, free, owned, Mapped(c));
  }

  /** A call takes the frames it maps, and then the tables from what is left. */
  lemma CallTakes(a: View, c: Call, b: View, pt: PageTables, levels: nat) returns (free: set<nat>)
    requires Calls(a, c, b, pt, levels)
    ensures Mapped(c) <= FreePages(a.index) && free == FreePages(a.index) - Mapped(c)
    ensures FreePages(b.index) <= free && b.tables == a.tables + (free - FreePages(b.index))
  {
    hide FreePages, Interval, Shl, RegionMappings, Demand, Occupied, Disjoint, Merged;
    free := FreePages(a.index) - Mapped(c);
  }

  lemma OwnsApart(a: View, b: View, free: set<nat>, owned: set<nat>, more: set<nat>)
    requires Owns(a, owned) && more <= FreePages(a.index) && free == FreePages(a.index) - more
    requires FreePages(b.index) <= free && b.tables == a.tables + (free - FreePages(b.index))
    ensures Owns(b, owned + more) && more !! owned
    ensures FreePages(b.index) + b.tables + owned + more == FreePages(a.index) + a.tables + owned
  {
    hide FreePages;
  }

  ghost predicate CallRun(vs: seq<View>, cs: seq<Call>, pt: PageTables, levels: nat)
  {
    |vs| == |cs| + 1 && forall i :: 0 <= i < |cs| ==> Calls(vs[i], cs[i], vs[i + 1], pt, levels)
  }

  /** Over any sequence of calls, a frame mapped by one is never mapped by another,
      drawn as a table or free again, and no frame is lost. */
  lemma {:induction false} RunOwns(vs: seq<View>, cs: seq<Call>, pt: PageTables, levels: nat)
    requires CallRun(vs, cs, pt, levels) && Owns(vs[0], {})
    ensures Owns(vs[|cs|], AllMapped(cs))
    ensures forall i, j :: 0 <= i < j < |cs| ==> Mapped(cs[i]) !! Mapped(cs[j])
    ensures FreePages(vs[|cs|].index) + vs[|cs|].tables + AllMapped(cs) == FreePages(vs[0].index) + vs[0].tables
    ensures forall i :: 0 <= i < |cs| ==> Mapped(cs[i]) <= AllMapped(cs)
    decreases |cs|
  {
    hide FreePages, Calls, Mapped;
    if cs != [] {
      var k := |cs| - 1;
      RunOwns(vs[..k + 1], cs[..k], pt, levels);
      CallOwns(vs[k], cs[k], vs[k + 1], AllMapped(cs[..k]), pt, levels);
      forall i | 0 <= i < k
        ensures Mapped(cs[i]) <= AllMapped(cs[..k]) && Mapped(cs[i]) !! Mapped(cs[k])
      {
        assert cs[..k][i] == cs[i];
      }
    }
  }

  /** Some aligned block of the next power of two is free, and it holds whole
      pages. */
  ghost predicate CanPage(a: View, count: nat, unit: nat, levels: nat)
  {
    var k := CeilLog2(Shl(count, unit));
    unit <= k < levels && HasFreeBlock(a.index, k)
  }

  class MapperAllocator {
    const allocator: RuneFrameAllocator
    const pt: PageTables
    var issued: seq<Mapping>
    var tables: set<nat>
    var failed: nat

    constructor (allocator: RuneFrameAllocator, pt: PageTables)
      ensures this.allocator == allocator && this.pt == pt
      ensures issued == [] && tables == {} && failed == 0
    {
      this.allocator := allocator;
      this.pt := pt;
      issued, tables, failed := [], {}, 0;
    }

    ghost predicate Ok()
      reads allocator.bits
    {
      allocator.Ok() && Disjoint(allocator.Index())
    }

    ghost function Now(): View
      reads this, allocator.bits
    {
      View(allocator.Index(), issued, tables, failed)
    }

    ghost predicate IsMerged()
      reads allocator.bits
    {
      Merged(allocator.Index(), allocator.shape.levels)
    }

    /** The external `Mapper::map_to`, whose result the caller ignores: it
        allocates a frame for each missing table, and fails when there is none or
        the page is mapped already. */
    method MapTo(m: Mapping)
      requires Ok()
      modifies this, allocator.bits
      ensures Ok() && Maps(old(Now()), Now(), [m], pt, allocator.shape.levels)
      ensures old(IsMerged()) ==> IsMerged()
      ensures issued == old(issued) + [m]
      ensures var short := pt.missing(old(issued), m) > |FreePages(old(Now()).index)|;
              failed == old(failed) + if short || pt.occupied(old(issued), m) then 1 else 0
      ensures var free, left := FreePages(old(Now()).index), FreePages(Now().index);
              && left <= free && tables == old(tables) + (free - left)
              && |left| == if pt.missing(old(issued), m) <= |free| then |free| - pt.missing(old(issued), m) else 0
    {
      hide Marked, FreePages, Granted, IndexAfter, Disjoint, Merged, BelowTop;
      ghost var was, levels := Now(), allocator.shape.levels;
      assert issued + [] == issued;
      CallsOn(pt, issued, [], m);
      var n := pt.missing(issued, m);
      var taken := pt.occupied(issued, m);
      issued := issued + [m];
      for k := 0 to n
        invariant allocator.Ok() && issued == old(issued) + [m] && failed == old(failed)
        invariant Draws(was, Now(), k, levels)
      {
        ghost var before := Now();
        allocator.MarkedBelowTop();
        var frame := allocator.AllocateFrame();
        if frame.None? {
          FrameRefused(before.index, allocator.shape.huge, levels);
          failed := failed + 1;
          return;
        }
        tables := tables + {frame.value / PAGE_SIZE};
        DrawsFrame(was, before, Now(), k, frame.value / PAGE_SIZE, allocator.shape.huge, levels);
      }
      if taken {
        failed := failed + 1;
      }
    }

    /** The inner loop: `map_to` for each of `count` pages. */
    method MapAll(page: nat, frame: nat, count: nat, unit: nat)
      requires Ok()
      modifies this, allocator.bits
      ensures Ok() && (old(IsMerged()) ==> IsMerged())
      ensures Maps(old(Now()), Now(), RegionMappings(page, frame, count, unit), pt, allocator.shape.levels)
    {
      hide Maps, Marked, Shl, Disjoint, Merged;
      ghost var was, ms := Now(), [];
      MapsNone(was, pt, allocator.shape.levels);
      for i := 0 to count
        invariant Ok() && (old(IsMerged()) ==> IsMerged())
        invariant ms == RegionMappings(page, frame, i, unit)
        invariant Maps(was, Now(), ms, pt, allocator.shape.levels)
      {
        ghost var before, m := Now(), Mapping(page + i, frame + Shl(i, unit));
        MapTo(Mapping(page + i, frame + Shl(i, unit)));
        MapsOn(was, before, Now(), ms, m, pt, allocator.shape.levels);
        ms := ms + [m];
      }
    }

    lemma PickFacts(n: nat, unit: nat)
      requires Ok()
      ensures var s, levels := allocator.Index(), allocator.shape.levels;
              && (PickOff(s, n, Pow2(unit)).Some? ==>
                    var (t, first) := PickOff(s, n, Pow2(unit)).value;
                    && Aligned(first, unit) && Interval(first, first + n) <= FreePages(s)
                    && FreePages(t) == FreePages(s) - Interval(first, first + n) && Disjoint(t)
                    && (Merged(s, levels) && n > 0 ==> Merged(t, levels)))
              && (Merged(s, levels) ==>
                    (PickOff(s, n, Pow2(unit)).Some? <==>
                     unit <= CeilLog2(n) < levels && HasFreeBlock(s, CeilLog2(n))))
    {
      hide Shr, Shl, Pow2, LowestOne, NextPowerOfTwo, Marked, AllocateChunk;
      var s, levels := allocator.Index(), allocator.shape.levels;
      allocator.MarkedBelowTop();
      CeilLog2Pow2(unit);
      if Merged(s, levels) {
        PickOffComplete(s, n, Pow2(unit), levels);
      }
      if PickOff(s, n, Pow2(unit)).Some? {
        PickOffTakes(s, n, Pow2(unit), levels);
        AlignedSmaller(PickOff(s, n, Pow2(unit)).value.1, CeilLog2(n), unit);
      }
    }

    /** Pages the region, and reports whether an aligned block of the next power of
        two was free for it. That does not mean that the mappings succeeded: they
        did exactly when the remaining free frames met the demand for tables and no
        page was mapped already. */
    method PageRegion(start: nat, end: nat, unit: nat) returns (ok: bool, ghost taken: Option<Taken>)
      requires Ok() && FirstUnit(start, unit) <= EndUnit(end, unit)
      requires Shl(EndUnit(end, unit) - FirstUnit(start, unit), unit) <= Pow2(allocator.shape.levels)
      modifies this, allocator.bits
      ensures Ok() && (ok <==> taken.Some?)
      ensures !ok ==> Now() == old(Now()) && allocator.bits[..] == old(allocator.bits[..])
      ensures old(IsMerged()) && FirstUnit(start, unit) < EndUnit(end, unit) ==> IsMerged()
      ensures var count := EndUnit(end, unit) - FirstUnit(start, unit);
              && Paged(old(Now()), Now(), FirstUnit(start, unit), count, unit, taken, pt, allocator.shape.levels)
              && (old(IsMerged()) ==> (ok <==> CanPage(old(Now()), count, unit, allocator.shape.levels)))
    {
      hide Shr, Shl, Pow2, LowestOne, NextPowerOfTwo, Marked, PickOff, Maps, HasFreeBlock, Merged, Disjoint, FreePages;
      var lo, hi := FirstUnit(start, unit), EndUnit(end, unit);
      var remaining: nat := Shl(hi - lo, unit);
      var current: nat := lo;
      ShlMonotone(0, hi - lo, unit);
      ghost var was, n, levels := Now(), remaining, allocator.shape.levels;
      PickFacts(n, unit);
      ok, taken := false, None;
      while !ok
        invariant Ok() && (old(IsMerged()) && n > 0 ==> IsMerged())
        invariant !ok ==>
            && taken == None && remaining == n && current == lo
            && Now() == was && allocator.bits[..] == old(allocator.bits[..])
        invariant ok ==>
            && taken.Some? && PickOff(was.index, n, Pow2(unit)) == Some((taken.value.index, taken.value.first))
            && Maps(was.(index := taken.value.index), Now(), RegionMappings(lo, taken.value.first, hi - lo, unit),
                    pt, levels)
        decreases !ok
      {
        var picked := allocator.PickOffContiguous(remaining, Pow2(unit));
        if picked.None? {
          return false, None;
        }
        var (addr, nFrames) := picked.value;
        var count := Shr(nFrames, unit);
        remaining := remaining - nFrames;
        taken := Some(Taken(addr / PAGE_SIZE, allocator.Index()));
        assert PickOff(was.index, n, Pow2(unit)).value == (allocator.Index(), addr / PAGE_SIZE);
        ShrShl(hi - lo, unit);
        MapAll(current, addr / PAGE_SIZE, count, unit);
        current := current + count;
        ok := remaining == 0;
      }
    }
  }
}
