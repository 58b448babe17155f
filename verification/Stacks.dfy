/** The kernel stack space: where `init` puts the guard pages and where the
    slots lie. */
module Stacks {
  import opened Bits
  import opened SchedulerModel

  /** PAGE_SIZE, the pages of a large and of a small stack, how many there are of
      each, and the address of the space. */
  datatype Plan = Plan(page: nat, largePages: nat, smallPages: nat, nLarge: nat, nSmall: nat, bottom: nat)
  {
    function LargeSize(): nat { largePages * page }
    function SmallSize(): nat { smallPages * page }
    function FirstLargeTop(): nat { bottom + page + LargeSize() }
    function FirstSmallTop(): nat { bottom + (page + LargeSize()) * nLarge + page + SmallSize() }
    function SpacePages(): nat { nLarge * (largePages + 1) + nSmall * (smallPages + 1) + 1 }
    function SpaceTop(): nat { bottom + SpacePages() * page }
  }

  /** The constants of vmem.rs, for a given address of the direct map. */
  function KernelPlan(hhdm: nat): Plan
  {
    Plan(4096, 5, 1, 16, 32, hhdm + 0x10_0000)
  }

  /** What a spawn writes on a new stack. */
  const FRAME_ROOM: int := SHORT_FRAME + 8

  datatype Slot = Large(i: nat) | Small(i: nat)

  predicate IsSlot(pl: Plan, s: Slot)
  {
    match s
    case Large(i) => i < pl.nLarge
    case Small(i) => i < pl.nSmall
  }

  /** The end of a slot's stack, as `map_large_stack` and `map_small_stack`
      compute it. */
  function SlotEnd(pl: Plan, s: Slot): nat
  {
    match s
    case Large(i) => pl.FirstLargeTop() + (pl.LargeSize() + pl.page) * i
    case Small(i) => pl.FirstSmallTop() + (pl.SmallSize() + pl.page) * i
  }

  function SlotStart(pl: Plan, s: Slot): int
  {
    SlotEnd(pl, s) - (if s.Large? then pl.LargeSize() else pl.SmallSize())
  }

  // --- guards and stacks in address order ---

  /** Size of the stack above the k-th guard page. */
  function SizeAbove(pl: Plan, k: nat): nat
  {
    if k < pl.nLarge then pl.LargeSize() else pl.SmallSize()
  }

  /** Address of the k-th guard page. */
  function Guard(pl: Plan, k: nat): nat
  {
    if k == 0 then pl.bottom else Guard(pl, k - 1) + pl.page + SizeAbove(pl, k - 1)
  }

  /** Position of a slot among all slots. */
  function Position(pl: Plan, s: Slot): nat
  {
    match s
    case Large(i) => i
    case Small(i) => pl.nLarge + i
  }

  lemma GuardNext(pl: Plan, k: nat)
    ensures Guard(pl, 0) == pl.bottom
    ensures Guard(pl, k + 1) == Guard(pl, k) + pl.page + SizeAbove(pl, k)
  {
  }

  lemma {:induction false} GuardMonotone(pl: Plan, j: nat, k: nat)
    requires j <= k
    ensures Guard(pl, j) <= Guard(pl, k)
    ensures j < k ==> Guard(pl, j) + pl.page + SizeAbove(pl, j) <= Guard(pl, k)
    decreases k - j
  {
    if j < k {
      GuardMonotone(pl, j, k - 1);
    }
  }

  lemma {:induction false} LargeGuards(pl: Plan, k: nat)
    requires k <= pl.nLarge
    ensures Guard(pl, k) == pl.bottom + (pl.page + pl.LargeSize()) * k
  {
    if k > 0 {
      LargeGuards(pl, k - 1);
    }
  }

  lemma {:induction false} SmallGuards(pl: Plan, k: nat)
    ensures Guard(pl, pl.nLarge + k)
            == pl.bottom + (pl.page + pl.LargeSize()) * pl.nLarge + (pl.page + pl.SmallSize()) * k
  {
    if k == 0 {
      LargeGuards(pl, pl.nLarge);
    } else {
      SmallGuards(pl, k - 1);
      Distribute(pl.page + pl.SmallSize(), k);
    }
  }

  lemma Distribute(a: nat, k: nat)
    requires k > 0
    ensures a * k == a * (k - 1) + a
  {
  }

  /** A slot's stack fills exactly the gap between two neighbouring guards. */
  lemma SlotBetweenGuards(pl: Plan, s: Slot)
    requires IsSlot(pl, s)
    ensures SlotStart(pl, s) == Guard(pl, Position(pl, s)) + pl.page
    ensures SlotEnd(pl, s) == Guard(pl, Position(pl, s) + 1)
  {
    match s
    case Large(i) =>
      LargeGuards(pl, i);
      Distribute(pl.page + pl.LargeSize(), i + 1);
    case Small(i) =>
      SmallGuards(pl, i);
      SmallGuards(pl, i + 1);
      Distribute(pl.page + pl.SmallSize(), i + 1);
  }

  /** The last guard page ends where the reserved space does. */
  lemma SpaceEnds(pl: Plan)
    ensures Guard(pl, pl.nLarge + pl.nSmall) + pl.page == pl.SpaceTop()
  {
    SmallGuards(pl, pl.nSmall);
    PagesTimes(pl.nLarge, pl.largePages, pl.page);
    PagesTimes(pl.nSmall, pl.smallPages, pl.page);
    SumTimes(pl.nLarge * (pl.largePages + 1), pl.nSmall * (pl.smallPages + 1), pl.page);
  }

  lemma SumTimes(a: nat, b: nat, page: nat)
    ensures (a + b + 1) * page == a * page + b * page + page
  {
  }

  lemma PagesTimes(n: nat, pages: nat, page: nat)
    ensures (page + pages * page) * n == (n * (pages + 1)) * page
  {
  }

  /** Layout: for any plan, every stack lies in the space, has a guard page right
      below and right above it, and shares no byte with any guard page or with
      the stack of another slot. */
  lemma SlotLayout(pl: Plan, s: Slot)
    requires IsSlot(pl, s)
    ensures pl.bottom <= SlotStart(pl, s) <= SlotEnd(pl, s) <= pl.SpaceTop()
    ensures SlotStart(pl, s) - pl.page == Guard(pl, Position(pl, s)) && SlotEnd(pl, s) == Guard(pl, Position(pl, s) + 1)
    ensures forall k: nat :: Guard(pl, k) + pl.page <= SlotStart(pl, s) || SlotEnd(pl, s) <= Guard(pl, k)
    ensures forall t :: IsSlot(pl, t) && t != s ==>
              Apart(SlotStart(pl, s), SlotEnd(pl, s), SlotStart(pl, t), SlotEnd(pl, t))
  {
    hide SlotStart, SlotEnd, Guard, Plan.SpaceTop, SizeAbove;
    var n := Position(pl, s);
    GuardNext(pl, n);
    SlotBetweenGuards(pl, s);
    SpaceEnds(pl);
    GuardMonotone(pl, 0, n);
    GuardMonotone(pl, n + 1, pl.nLarge + pl.nSmall);
    forall k: nat
      ensures Guard(pl, k) + pl.page <= SlotStart(pl, s) || SlotEnd(pl, s) <= Guard(pl, k)
    {
      if k <= n {
        GuardMonotone(pl, k, n);
      } else {
        GuardMonotone(pl, n + 1, k);
      }
    }
    forall t | IsSlot(pl, t) && t != s
      ensures Apart(SlotStart(pl, s), SlotEnd(pl, s), SlotStart(pl, t), SlotEnd(pl, t))
    {
      SlotBetweenGuards(pl, t);
      var m := Position(pl, t);
      if m < n {
        GuardMonotone(pl, m + 1, n);
      } else {
        GuardMonotone(pl, n + 1, m);
      }
    }
  }

  /** The guard pages `init` maps, in the order it maps them. */
  method Init(pl: Plan) returns (guards: seq<nat>)
    ensures |guards| == pl.nLarge + pl.nSmall + 1
    ensures forall k :: 0 <= k < |guards| ==> guards[k] == Guard(pl, k)
  {
    hide Guard, Plan.LargeSize, Plan.SmallSize;
    var curpage := pl.bottom;
    guards := [];
    GuardNext(pl, 0);
    for n := 0 to pl.nLarge
      invariant |guards| == n && curpage == Guard(pl, n)
      invariant forall k :: 0 <= k < n ==> guards[k] == Guard(pl, k)
    {
      guards := guards + [curpage];
      curpage := curpage + pl.page + pl.LargeSize();
      GuardNext(pl, n);
    }
    for n := 0 to pl.nSmall + 1
      invariant |guards| == pl.nLarge + n && curpage == Guard(pl, pl.nLarge + n)
      invariant forall k :: 0 <= k < pl.nLarge + n ==> guards[k] == Guard(pl, k)
    {
      guards := guards + [curpage];
      curpage := curpage + pl.page + pl.SmallSize();
      GuardNext(pl, pl.nLarge + n);
    }
  }

  // --- the stacks of the tasks ---

  /** The slot is among the first `large` large or `small` small ones. */
  predicate Used(s: Slot, large: nat, small: nat)
  {
    match s
    case Large(i) => i < large
    case Small(i) => i < small
  }

  ghost predicate HasSlot(pl: Plan, k: TaskInfo, large: nat, small: nat)
  {
    exists s :: IsSlot(pl, s) && Used(s, large, small) && k.low == SlotStart(pl, s) && k.top == SlotEnd(pl, s)
  }

  /** Every task has the stack of a used slot, and the scheduler's stack lies
      outside the space. */
  ghost predicate InSlots(pl: Plan, st: State, large: nat, small: nat)
  {
    && (st.sched.top <= pl.bottom || pl.SpaceTop() <= st.sched.low)
    && forall t :: 0 <= t < |st.tasks| ==> HasSlot(pl, st.tasks[t], large, small)
  }

  /** So the stack of an unused slot is a fresh one in the sense a spawn needs. */
  lemma NewSlotIsFresh(pl: Plan, st: State, large: nat, small: nat, s: Slot)
    requires InSlots(pl, st, large, small) && IsSlot(pl, s) && !Used(s, large, small)
    ensures FreshStack(st, SlotStart(pl, s), SlotEnd(pl, s))
  {
    SlotLayout(pl, s);
    hide SlotStart, SlotEnd;
    forall t | 0 <= t < |st.tasks|
      ensures Apart(SlotStart(pl, s), SlotEnd(pl, s), st.tasks[t].low, st.tasks[t].top)
    {
      assert HasSlot(pl, st.tasks[t], large, small);
      var u :| IsSlot(pl, u) && Used(u, large, small)
               && st.tasks[t].low == SlotStart(pl, u) && st.tasks[t].top == SlotEnd(pl, u);
    }
  }

  /** A larger count of used slots, and one more task with a used slot. */
  lemma SlotsGrow(pl: Plan, st: State, st': State, large: nat, small: nat, large': nat, small': nat)
    requires InSlots(pl, st, large, small) && large <= large' && small <= small' && st'.sched == st.sched
    requires |st.tasks| <= |st'.tasks| <= |st.tasks| + 1
    requires forall t :: 0 <= t < |st.tasks| ==>
               st'.tasks[t].low == st.tasks[t].low && st'.tasks[t].top == st.tasks[t].top
    requires |st'.tasks| > |st.tasks| ==> HasSlot(pl, st'.tasks[|st.tasks|], large', small')
    ensures InSlots(pl, st', large', small')
  {
    hide SlotStart, SlotEnd;
    forall t | 0 <= t < |st.tasks|
      ensures HasSlot(pl, st'.tasks[t], large', small')
    {
      assert HasSlot(pl, st.tasks[t], large, small);
      var u :| IsSlot(pl, u) && Used(u, large, small)
               && st.tasks[t].low == SlotStart(pl, u) && st.tasks[t].top == SlotEnd(pl, u);
      assert Used(u, large', small');
    }
  }

  /** The kernel's own numbers: the space ends at the declared offset, lies inside
      the direct map and below the scheduler's stack, and a small stack holds the
      initial frame of a task. */
  lemma KernelSpace(hhdm: nat)
    ensures KernelPlan(hhdm).SpacePages() == 161
    ensures KernelPlan(hhdm).SpaceTop() == hhdm + 0x10_0000 + 161 * 4096
    ensures hhdm <= KernelPlan(hhdm).bottom && KernelPlan(hhdm).SpaceTop() <= hhdm + 0x20_0000_0000
    ensures KernelPlan(hhdm).SpaceTop() <= hhdm + 0x20_0001_0000
    ensures forall i: nat :: SlotEnd(KernelPlan(hhdm), Large(i)) == hhdm + 0x10_6000 + 0x6000 * i
    ensures forall i: nat :: SlotEnd(KernelPlan(hhdm), Small(i)) == hhdm + 0x16_2000 + 0x2000 * i
    ensures KernelPlan(hhdm).LargeSize() == 0x5000 && KernelPlan(hhdm).SmallSize() == 0x1000
    ensures FRAME_ROOM <= KernelPlan(hhdm).SmallSize() <= KernelPlan(hhdm).LargeSize()
  {
  }
}
