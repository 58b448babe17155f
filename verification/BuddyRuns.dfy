/** Runs of the frame allocator: any sequence of 4 KiB and 2 MiB frame
    allocations, contiguous picks and 4 KiB deallocations. */
module BuddyRuns {
  import opened Bits
  import opened Chunks
  import opened BuddyIndex
  import opened BuddyOps

  datatype Request =
    | Frame
    | HugeFrame
    | Contiguous(n: nat, min: nat)
    | Return(page: nat)

  /** The marked chunks, and the pages handed out and not yet returned. */
  datatype Machine = Machine(index: set<Chunk>, out: set<nat>)

  /** The pages a request obtains. */
  ghost function Granted(s: set<Chunk>, r: Request, huge: nat): set<nat>
  {
    match r
    case Frame => GrantedChunk(s, 0)
    case HugeFrame => GrantedChunk(s, huge)
    case Contiguous(n, min) =>
      (match PickOff(s, n, min)
       case None => {}
       case Some((_, first)) => Interval(first, first + n))
    case Return(_) => {}
  }

  ghost function GrantedChunk(s: set<Chunk>, level: nat): set<nat>
  {
    match AllocateChunk(s, level)
    case None => {}
    case Some((_, d)) => Pages(d)
  }

  ghost function IndexAfter(s: set<Chunk>, r: Request, huge: nat, levels: nat): set<Chunk>
  {
    match r
    case Frame => IndexAfterChunk(s, 0)
    case HugeFrame => IndexAfterChunk(s, huge)
    case Contiguous(n, min) =>
      (match PickOff(s, n, min)
       case None => s
       case Some((t, _)) => t)
    case Return(page) => Deallocate(s, page, levels)
  }

  ghost function IndexAfterChunk(s: set<Chunk>, level: nat): set<Chunk>
  {
    match AllocateChunk(s, level)
    case None => s
    case Some((t, _)) => t
  }

  ghost function Returned(r: Request): set<nat>
  {
    if r.Return? then {r.page} else {}
  }

  ghost function Step(m: Machine, r: Request, huge: nat, levels: nat): Machine
  {
    Machine(IndexAfter(m.index, r, huge, levels), m.out - Returned(r) + Granted(m.index, r, huge))
  }

  ghost function Run(m: Machine, rs: seq<Request>, huge: nat, levels: nat): Machine
    decreases |rs|
  {
    if rs == [] then m else Run(Step(m, rs[0], huge, levels), rs[1..], huge, levels)
  }

  /** Only outstanding frames are returned. */
  ghost predicate Lawful(m: Machine, rs: seq<Request>, huge: nat, levels: nat)
    decreases |rs|
  {
    rs == [] || (Returned(rs[0]) <= m.out && Lawful(Step(m, rs[0], huge, levels), rs[1..], huge, levels))
  }

  /** Every pick asks for at least one frame. */
  predicate NoEmptyPicks(rs: seq<Request>)
  {
    forall r :: r in rs ==> r.Contiguous? ==> r.n > 0
  }

  ghost predicate Sound(m: Machine, levels: nat)
  {
    0 < levels && BelowTop(m.index, levels) && Disjoint(m.index) && m.out !! FreePages(m.index)
  }

  lemma StepConserves(m: Machine, r: Request, huge: nat, levels: nat)
    requires Sound(m, levels) && Returned(r) <= m.out
    ensures var m' := Step(m, r, huge, levels);
            && Granted(m.index, r, huge) <= FreePages(m.index)
            && Sound(m', levels)
            && FreePages(m'.index) + m'.out == FreePages(m.index) + m.out
            && (Merged(m.index, levels) && (r.Contiguous? ==> r.n > 0) ==> Merged(m'.index, levels))
  {
    hide AllocateChunk, PickOff, Deallocate, FreePages, Disjoint, Merged, BelowTop, Pages;
    match r
    case Frame => if AllocateChunk(m.index, 0).Some? { AllocateChunkTakes(m.index, 0, levels); }
    case HugeFrame => if AllocateChunk(m.index, huge).Some? { AllocateChunkTakes(m.index, huge, levels); }
    case Contiguous(n, min) => if PickOff(m.index, n, min).Some? { PickOffTakes(m.index, n, min, levels); }
    case Return(page) => DeallocateAdds(m.index, page, levels);
  }

  /** Conservation: outstanding and free pages always partition the pages the
      run began with; no page is lost or in two hands. */
  lemma {:induction false} RunConserves(m: Machine, rs: seq<Request>, huge: nat, levels: nat)
    requires Sound(m, levels) && Lawful(m, rs, huge, levels)
    ensures var m' := Run(m, rs, huge, levels);
            && Sound(m', levels)
            && FreePages(m'.index) + m'.out == FreePages(m.index) + m.out
            && (Merged(m.index, levels) && NoEmptyPicks(rs) ==> Merged(m'.index, levels))
    decreases |rs|
  {
    if rs != [] {
      StepConserves(m, rs[0], huge, levels);
      RunConserves(Step(m, rs[0], huge, levels), rs[1..], huge, levels);
    }
  }

  /** Whatever a run asks for next, it is granted only pages that nobody holds,
      and after picks of at least one frame it is refused a block only if no
      block of that size is free. */
  lemma RunGrants(m: Machine, rs: seq<Request>, r: Request, huge: nat, levels: nat)
    requires Sound(m, levels) && Valid(m.index, levels) && Lawful(m, rs, huge, levels) && NoEmptyPicks(rs)
    requires huge < levels
    ensures var m' := Run(m, rs, huge, levels);
            && Granted(m'.index, r, huge) !! m'.out
            && (r.Frame? ==> (Granted(m'.index, r, huge) == {} <==> FreePages(m'.index) == {}))
            && (r.HugeFrame? ==> (Granted(m'.index, r, huge) == {} <==> !HasFreeBlock(m'.index, huge)))
            && (r.Contiguous? && r.n > 0 && CeilLog2(r.min) <= CeilLog2(r.n) < levels ==>
                  (Granted(m'.index, r, huge) == {} <==> !HasFreeBlock(m'.index, CeilLog2(r.n))))
  {
    RunConserves(m, rs, huge, levels);
    var m' := Run(m, rs, huge, levels);
    var s := m'.index;
    match r
    case Frame =>
      ChunkGrants(s, 0, levels);
      FrameRefused(s, huge, levels);
    case HugeFrame => ChunkGrants(s, huge, levels);
    case Contiguous(n, min) =>
      PickOffComplete(s, n, min, levels);
      if PickOff(s, n, min).Some? {
        PickOffTakes(s, n, min, levels);
        var (_, first) := PickOff(s, n, min).value;
        assert n > 0 ==> first in Interval(first, first + n);
      }
    case Return(_) =>
  }

  lemma ChunkGrants(s: set<Chunk>, level: nat, levels: nat)
    requires Valid(s, levels) && level < levels
    ensures GrantedChunk(s, level) <= FreePages(s)
    ensures GrantedChunk(s, level) == {} <==> !HasFreeBlock(s, level)
  {
    AllocateChunkComplete(s, level, levels);
    if AllocateChunk(s, level).Some? {
      AllocateChunkTakes(s, level, levels);
      var (_, d) := AllocateChunk(s, level).value;
      assert FirstPage(d) in Pages(d);
    }
  }

  /** A frame is refused only when nothing at all is free. */
  lemma FrameRefused(s: set<Chunk>, huge: nat, levels: nat)
    ensures Granted(s, Frame, huge) == {} <==> FreePages(s) == {}
    ensures FreePages(s) == {} ==> IndexAfter(s, Frame, huge, levels) == s
  {
    if c :| c in s {
      var _ := FirstExists(s, 0, c);
      var (_, d) := AllocateChunk(s, 0).value;
      assert FirstPage(c) in Pages(c) && FirstPage(c) in FreePages(s);
      assert FirstPage(d) in Pages(d);
    }
  }

  /** The bitmap after a run depends on nothing but the outstanding pages, ... */
  lemma RunsAgree(m: Machine, rs: seq<Request>, qs: seq<Request>, huge: nat, levels: nat)
    requires Sound(m, levels) && Valid(m.index, levels)
    requires Lawful(m, rs, huge, levels) && NoEmptyPicks(rs)
    requires Lawful(m, qs, huge, levels) && NoEmptyPicks(qs)
    requires Run(m, rs, huge, levels).out == Run(m, qs, huge, levels).out
    ensures Run(m, rs, huge, levels) == Run(m, qs, huge, levels)
  {
    RunConserves(m, rs, huge, levels);
    RunConserves(m, qs, huge, levels);
    var a, b := Run(m, rs, huge, levels), Run(m, qs, huge, levels);
    CanonicalForm(a.index, b.index, levels);
  }

  /** ... so a run that returns everything it took leaves the bitmap as it
      found it, bit for bit. */
  lemma RunRestores(m: Machine, rs: seq<Request>, huge: nat, levels: nat)
    requires Sound(m, levels) && Valid(m.index, levels)
    requires Lawful(m, rs, huge, levels) && NoEmptyPicks(rs)
    requires Run(m, rs, huge, levels).out == m.out
    ensures Run(m, rs, huge, levels) == m
  {
    RunsAgree(m, rs, [], huge, levels);
  }
}
