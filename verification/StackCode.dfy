/** `StackManager`: hands out the slots of the kernel stack space and has each
    one paged. */
module StackCode {
  import opened Bits
  import opened Chunks
  import opened Cpu
  import opened BuddyIndex
  import opened PageRegion
  import opened Stacks

  /** A slot bitmap after `used` slots were taken, lowest first. */
  ghost predicate TakenBelow(bits: seq<bool>, used: nat)
  {
    used <= |bits| && forall i :: 0 <= i < |bits| ==> (bits[i] <==> i >= used)
  }

  function StackPages(pl: Plan, s: Slot): nat
  {
    if s.Large? then pl.largePages else pl.smallPages
  }

  lemma {:induction false} GuardsAligned(pl: Plan, k: nat)
    requires pl.page == PAGE_SIZE && pl.bottom % PAGE_SIZE == 0
    ensures Guard(pl, k) % PAGE_SIZE == 0
  {
    if k > 0 {
      GuardsAligned(pl, k - 1);
    }
  }

  /** A slot's stack is a whole number of pages, in the space or past it. */
  lemma SlotUnits(pl: Plan, s: Slot)
    requires pl.page == PAGE_SIZE && pl.bottom % PAGE_SIZE == 0
    ensures 0 <= SlotStart(pl, s) && SlotStart(pl, s) == FirstUnit(SlotStart(pl, s), 0) * PAGE_SIZE
    ensures EndUnit(SlotEnd(pl, s), 0) == FirstUnit(SlotStart(pl, s), 0) + StackPages(pl, s)
  {
    var wide := if s.Large? then pl.(nLarge := s.i + 1) else pl.(nSmall := s.i + 1);
    assert SlotStart(wide, s) == SlotStart(pl, s) && SlotEnd(wide, s) == SlotEnd(pl, s);
    hide Guard, SlotEnd;
    SlotBetweenGuards(wide, s);
    GuardsAligned(wide, Position(wide, s));
  }

  /** The number of bits `BitArr!(for n, in u16)` holds. */
  function Rounded(n: nat): (r: nat)
    ensures r % 16 == 0 && n <= r < n + 16
  {
    (n + 15) / 16 * 16
  }

  /** The manager has a bit for the slot. */
  predicate HasBit(pl: Plan, s: Slot)
  {
    match s
    case Large(i) => i < Rounded(pl.nLarge)
    case Small(i) => i < Rounded(pl.nSmall)
  }

  /** The numbers of slots fill their 16-bit words. */
  predicate WholeWords(pl: Plan)
  {
    pl.nLarge % 16 == 0 && pl.nSmall % 16 == 0
  }

  /** The manager hands out slots of the space only, exactly when the numbers of
      slots fill their words. */
  lemma WholeWordsIff(pl: Plan)
    ensures (forall s :: HasBit(pl, s) ==> IsSlot(pl, s)) <==> WholeWords(pl)
    ensures forall s :: IsSlot(pl, s) ==> HasBit(pl, s)
  {
    if pl.nLarge % 16 != 0 {
      assert HasBit(pl, Large(pl.nLarge)) && !IsSlot(pl, Large(pl.nLarge));
    }
    if pl.nSmall % 16 != 0 {
      assert HasBit(pl, Small(pl.nSmall)) && !IsSlot(pl, Small(pl.nSmall));
    }
  }

  /** What a request served with slot `s` answers, and what it does to the mapper:
      the stack is handed out whether or not it could be paged. Without a bit for
      the slot the request fails. */
  ghost predicate Served(pl: Plan, a: View, b: View, s: Slot, taken: Option<Taken>, r: Option<nat>,
                         pt: PageTables, levels: nat)
    requires pl.page == PAGE_SIZE && pl.bottom % PAGE_SIZE == 0
  {
    if HasBit(pl, s) then
      SlotUnits(pl, s);
      && r == Some(SlotEnd(pl, s))
      && Paged(a, b, SlotStart(pl, s) / PAGE_SIZE, StackPages(pl, s), 0, taken, pt, levels)
      && (Merged(a.index, levels) ==> (taken.Some? <==> CanPage(a, StackPages(pl, s), 0, levels)))
      && (Merged(a.index, levels) && StackPages(pl, s) > 0 ==> Merged(b.index, levels))
    else r == None && taken == None && b == a
  }

  /** A stack that was paged has every one of its pages mapped, to a frame of its
      own. */
  lemma StackPaged(pl: Plan, a: View, b: View, s: Slot, taken: Taken, r: Option<nat>,
                   pt: PageTables, levels: nat, i: nat) returns (j: nat)
    requires pl.page == PAGE_SIZE && pl.bottom % PAGE_SIZE == 0
    ensures Served(pl, a, b, s, Some(taken), r, pt, levels) && i < StackPages(pl, s) ==>
              && r == Some(SlotEnd(pl, s)) && |a.issued| <= j < |b.issued|
              && b.issued[j].page * PAGE_SIZE == SlotStart(pl, s) + i * PAGE_SIZE
              && b.issued[j].frame == taken.first + i && b.issued[j].frame in FreePages(a.index)
  {
    hide Paged, CanPage, Merged, FreePages, SlotStart, SlotEnd;
    j := 0;
    if Served(pl, a, b, s, Some(taken), r, pt, levels) && i < StackPages(pl, s) {
      SlotUnits(pl, s);
      var page := SlotStart(pl, s) / PAGE_SIZE;
      j := PagedTranslates(a, b, page, StackPages(pl, s), 0, taken, pt, levels, page + i);
    }
  }

  class StackManager {
    const plan: Plan
    const large: array<bool>
    const small: array<bool>
    const mapall: MapperAllocator
    ghost var usedLarge: nat
    ghost var usedSmall: nat

    ghost predicate Valid()
      reads this, large, small, mapall.allocator.bits
    {
      && large != small && large.Length == Rounded(plan.nLarge) && small.Length == Rounded(plan.nSmall)
      && TakenBelow(large[..], usedLarge) && TakenBelow(small[..], usedSmall)
      && plan.page == PAGE_SIZE && plan.bottom % PAGE_SIZE == 0
      && mapall.allocator.bits != large && mapall.allocator.bits != small && mapall.Ok()
      && plan.largePages <= Pow2(mapall.allocator.shape.levels)
      && plan.smallPages <= Pow2(mapall.allocator.shape.levels)
    }

    constructor (pl: Plan, mapper: MapperAllocator)
      requires pl.page == PAGE_SIZE && pl.bottom % PAGE_SIZE == 0 && mapper.Ok()
      requires pl.largePages <= Pow2(mapper.allocator.shape.levels)
      requires pl.smallPages <= Pow2(mapper.allocator.shape.levels)
      ensures Valid() && plan == pl && mapall == mapper
      ensures usedLarge == usedSmall == 0 && fresh(large) && fresh(small)
    {
      plan, mapall := pl, mapper;
      large := new bool[Rounded(pl.nLarge)](_ => true);
      small := new bool[Rounded(pl.nSmall)](_ => true);
      usedLarge, usedSmall := 0, 0;
    }

    /** The n-th request for a small stack gets small slot n. A served request turns
        interrupts on in the flags, a failed one leaves them off. */
    method MapSmallStack(rflags: int) returns (r: Option<nat>, flags: int, ghost taken: Option<Taken>)
      requires Valid()
      modifies `usedSmall, small, mapall, mapall.allocator.bits
      ensures Valid() && usedSmall == old(usedSmall) + if r.Some? then 1 else 0
      ensures flags == if r.Some? then Sti(rflags) else Cli(rflags)
      ensures Served(plan, old(mapall.Now()), mapall.Now(), Small(old(usedSmall)), taken, r,
                     mapall.pt, mapall.allocator.shape.levels)
    {
      hide SlotEnd, Paged, CanPage, Merged, MapperAllocator.Ok, Pow2;
      flags := Cli(rflags);
      assert usedSmall < small.Length ==> small[..][usedSmall];
      var found := FirstOne(small, 0);
      if found.None? {
        return None, flags, None;
      }
      var index := found.value;
      small[index] := false;
      usedSmall := usedSmall + 1;
      var end := SlotEnd(plan, Small(index));
      SlotUnits(plan, Small(index));
      var _, t := mapall.PageRegion(end - plan.SmallSize(), end, 0);
      return Some(end), Sti(flags), t;
    }

    method MapLargeStack(rflags: int) returns (r: Option<nat>, flags: int, ghost taken: Option<Taken>)
      requires Valid()
      modifies `usedLarge, large, mapall, mapall.allocator.bits
      ensures Valid() && usedLarge == old(usedLarge) + if r.Some? then 1 else 0
      ensures flags == if r.Some? then Sti(rflags) else Cli(rflags)
      ensures Served(plan, old(mapall.Now()), mapall.Now(), Large(old(usedLarge)), taken, r,
                     mapall.pt, mapall.allocator.shape.levels)
    {
      hide SlotEnd, Paged, CanPage, Merged, MapperAllocator.Ok, Pow2;
      flags := Cli(rflags);
      assert usedLarge < large.Length ==> large[..][usedLarge];
      var found := FirstOne(large, 0);
      if found.None? {
        return None, flags, None;
      }
      var index := found.value;
      large[index] := false;
      usedLarge := usedLarge + 1;
      var end := SlotEnd(plan, Large(index));
      SlotUnits(plan, Large(index));
      var _, t := mapall.PageRegion(end - plan.LargeSize(), end, 0);
      return Some(end), Sti(flags), t;
    }

    /** `make_kernel_stack` */
    method MakeKernelStack(smallStack: bool, rflags: int)
      returns (r: Option<nat>, flags: int, ghost taken: Option<Taken>)
      requires Valid()
      modifies this, large, small, mapall, mapall.allocator.bits
      ensures Valid() && flags == if r.Some? then Sti(rflags) else Cli(rflags)
      ensures Served(plan, old(mapall.Now()), mapall.Now(),
                     if smallStack then Small(old(usedSmall)) else Large(old(usedLarge)), taken, r,
                     mapall.pt, mapall.allocator.shape.levels)
      ensures usedSmall == old(usedSmall) + if smallStack && r.Some? then 1 else 0
      ensures usedLarge == old(usedLarge) + if !smallStack && r.Some? then 1 else 0
    {
      hide Served;
      if smallStack {
        r, flags, taken := MapSmallStack(rflags);
      } else {
        r, flags, taken := MapLargeStack(rflags);
      }
    }
  }
}
