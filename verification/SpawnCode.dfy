/** `spawn_task`: the stack manager and the scheduler together, and the runs in
    which every spawn takes the stack the manager hands out. */
module SpawnCode {
  import opened Bits
  import opened Cpu
  import opened SchedulerModel
  import opened SchedulerRuns
  import opened SchedulerCode
  import opened PageRegion
  import opened Stacks
  import opened StackCode

  /** Both kinds of stack have room for the initial frame. */
  predicate HasRoom(pl: Plan)
  {
    FRAME_ROOM <= pl.SmallSize() && FRAME_ROOM <= pl.LargeSize()
  }

  predicate WantsSmall(options: bv64)
  {
    options & SMALL_STACK != 0
  }

  /** The slot a request gets after `large` large and `small` small ones. */
  function NextSlot(options: bv64, large: nat, small: nat): Slot
  {
    if WantsSmall(options) then Small(small) else Large(large)
  }

  // --- runs ---

  function LargeSpawns(es: seq<Event>): nat
    decreases |es|
  {
    if es == [] then 0
    else
      var e := es[|es| - 1];
      LargeSpawns(es[..|es| - 1]) + if e.Spawn? && !WantsSmall(e.options) then 1 else 0
  }

  function SmallSpawns(es: seq<Event>): nat
    decreases |es|
  {
    if es == [] then 0
    else
      var e := es[|es| - 1];
      SmallSpawns(es[..|es| - 1]) + if e.Spawn? && WantsSmall(e.options) then 1 else 0
  }

  /** The spawn is on the stack of the slot a request gets next. */
  ghost predicate OnSlot(pl: Plan, e: Event, large: nat, small: nat)
    requires e.Spawn?
  {
    var s := NextSlot(e.options, large, small);
    HasBit(pl, s) && e.low == SlotStart(pl, s) && e.top == SlotEnd(pl, s)
  }

  /** A step, where a spawn is known to do its work only on a fresh stack with
      room for the frame; on any other stack anything may happen. */
  ghost predicate Attempts(l: Labels, s: State, e: Event, s': State)
  {
    if e.Spawn?
    then FreshStack(s, e.low, e.top) && e.low + FRAME_ROOM <= e.top ==> Spawns(l, s, e, s')
    else Next(l, s, e, s')
  }

  lemma SlotsNext(l: Labels, pl: Plan, s: State, e: Event, s': State, large: nat, small: nat)
    requires InSlots(pl, s, large, small) && Next(l, s, e, s')
    requires WholeWords(pl) && (e.Spawn? ==> OnSlot(pl, e, large, small))
    ensures InSlots(pl, s', large + if e.Spawn? && !WantsSmall(e.options) then 1 else 0,
                    small + if e.Spawn? && WantsSmall(e.options) then 1 else 0)
  {
    hide SlotStart, SlotEnd, InSlots;
    WholeWordsIff(pl);
    var large' := large + if e.Spawn? && !WantsSmall(e.options) then 1 else 0;
    var small' := small + if e.Spawn? && WantsSmall(e.options) then 1 else 0;
    TasksStay(l, s, e, s');
    if e.Spawn? {
      hide PackId, FreshStack, Holds, SameOutside;
      assert Used(NextSlot(e.options, large, small), large', small');
    }
    SlotsGrow(pl, s, s', large, small, large', small');
  }

  lemma ManagedStep(l: Labels, pl: Plan, s: State, e: Event, s': State, es: seq<Event>)
    requires WholeWords(pl) && HasRoom(pl) && InSlots(pl, s, LargeSpawns(es), SmallSpawns(es))
    requires Attempts(l, s, e, s') && (e.Spawn? ==> OnSlot(pl, e, LargeSpawns(es), SmallSpawns(es)))
    ensures Next(l, s, e, s') && (e.Spawn? ==> FreshStack(s, e.low, e.top))
    ensures InSlots(pl, s', LargeSpawns(es) + if e.Spawn? && !WantsSmall(e.options) then 1 else 0,
                    SmallSpawns(es) + if e.Spawn? && WantsSmall(e.options) then 1 else 0)
  {
    hide InSlots, FreshStack, Spawns, LargeSpawns, SmallSpawns;
    if e.Spawn? {
      WholeWordsIff(pl);
      NewSlotIsFresh(pl, s, LargeSpawns(es), SmallSpawns(es), NextSlot(e.options, LargeSpawns(es), SmallSpawns(es)));
    }
    SlotsNext(l, pl, s, e, s', LargeSpawns(es), SmallSpawns(es));
  }

  /** The events of a run from boot, in which every spawn takes the stack the
      manager hands out. */
  ghost predicate Managed(l: Labels, pl: Plan, ss: seq<State>, es: seq<Event>)
  {
    && |ss| == |es| + 1 && WholeWords(pl) && HasRoom(pl) && InSlots(pl, ss[0], 0, 0)
    && (forall i :: 0 <= i < |es| ==> Attempts(l, ss[i], es[i], ss[i + 1]))
    && (forall i :: 0 <= i < |es| && es[i].Spawn? ==>
          OnSlot(pl, es[i], LargeSpawns(es[..i]), SmallSpawns(es[..i])))
  }

  lemma {:induction false} ManagedSlots(l: Labels, pl: Plan, ss: seq<State>, es: seq<Event>, n: nat)
    requires Managed(l, pl, ss, es) && n <= |es|
    ensures InSlots(pl, ss[n], LargeSpawns(es[..n]), SmallSpawns(es[..n]))
    decreases n
  {
    hide Attempts, Next, InSlots, FreshStack, OnSlot, WholeWords, HasRoom;
    if n > 0 {
      var k := n - 1;
      ManagedSlots(l, pl, ss, es, k);
      assert es[..n][..k] == es[..k] && es[..n][k] == es[k];
      ManagedStep(l, pl, ss[k], es[k], ss[n], es[..k]);
    }
  }

  /** In such a run each spawn finds a fresh stack, and the run is one of the
      scheduler's. */
  lemma ManagedRun(l: Labels, pl: Plan, ss: seq<State>, es: seq<Event>)
    requires Managed(l, pl, ss, es)
    ensures Trace(l, ss, es)
    ensures forall i :: 0 <= i < |es| && es[i].Spawn? ==> FreshStack(ss[i], es[i].low, es[i].top)
  {
    hide Attempts, Next, InSlots, FreshStack, OnSlot, WholeWords, HasRoom, LargeSpawns, SmallSpawns;
    forall i | 0 <= i < |es|
      ensures Next(l, ss[i], es[i], ss[i + 1])
      ensures es[i].Spawn? ==> FreshStack(ss[i], es[i].low, es[i].top)
    {
      ManagedSlots(l, pl, ss, es, i);
      ManagedStep(l, pl, ss[i], es[i], ss[i + 1], es[..i]);
    }
  }

  // --- the kind of stack ---

  ghost predicate OnSmall(pl: Plan, k: TaskInfo)
  {
    exists i: nat :: i < pl.nSmall && k.low == SlotStart(pl, Small(i)) && k.top == SlotEnd(pl, Small(i))
  }

  ghost predicate OnLarge(pl: Plan, k: TaskInfo)
  {
    exists i: nat :: i < pl.nLarge && k.low == SlotStart(pl, Large(i)) && k.top == SlotEnd(pl, Large(i))
  }

  /** Bit 61 of a task's options, and of its id, asks for a small stack. */
  predicate SmallId(id: bv64)
  {
    id & 0x2000_0000_0000_0000 != 0
  }

  ghost predicate KindsAgree(pl: Plan, tasks: seq<TaskInfo>)
  {
    forall t :: 0 <= t < |tasks| ==> if SmallId(tasks[t].id) then OnSmall(pl, tasks[t]) else OnLarge(pl, tasks[t])
  }

  lemma SlotSize(pl: Plan, s: Slot)
    ensures SlotStart(pl, s) == SlotEnd(pl, s) - if s.Large? then pl.LargeSize() else pl.SmallSize()
  {
  }

  /** No stack is of both kinds. */
  lemma KindsExclude(pl: Plan, k: TaskInfo)
    requires HasRoom(pl)
    ensures !(OnSmall(pl, k) && OnLarge(pl, k))
  {
    if OnSmall(pl, k) && OnLarge(pl, k) {
      var i: nat :| i < pl.nSmall && k.low == SlotStart(pl, Small(i)) && k.top == SlotEnd(pl, Small(i));
      var j: nat :| j < pl.nLarge && k.low == SlotStart(pl, Large(j)) && k.top == SlotEnd(pl, Large(j));
      SlotLayout(pl, Small(i));
      SlotSize(pl, Small(i));
      assert false;
    }
  }

  lemma PackKeepsKind(options: bv64, raw: bv64, priority: bv64)
    requires Admits(options, priority, raw)
    ensures SmallId(PackId(options, raw, priority)) <==> WantsSmall(options)
  {
  }

  lemma KindsNext(l: Labels, pl: Plan, s: State, e: Event, s': State, large: nat, small: nat)
    requires KindsAgree(pl, s.tasks) && Next(l, s, e, s') && WholeWords(pl)
    requires e.Spawn? ==> OnSlot(pl, e, large, small)
    ensures KindsAgree(pl, s'.tasks)
  {
    hide SlotStart, SlotEnd, SmallId, WantsSmall, PackId, Admits, FreshStack, Holds, SameOutside;
    TasksStay(l, s, e, s');
    if e.Spawn? {
      PackKeepsKind(e.options, s.nextId, e.priority);
      WholeWordsIff(pl);
      hide WholeWords, HasBit;
      KindsAdd(pl, s.tasks, s'.tasks[|s.tasks|], e.options, large, small);
    } else {
      hide Next;
      assert s'.tasks[..|s.tasks|] == s'.tasks;
    }
  }

  lemma KindsAdd(pl: Plan, tasks: seq<TaskInfo>, k: TaskInfo, options: bv64, large: nat, small: nat)
    requires KindsAgree(pl, tasks) && (SmallId(k.id) <==> WantsSmall(options))
    requires var s := NextSlot(options, large, small);
             IsSlot(pl, s) && k.low == SlotStart(pl, s) && k.top == SlotEnd(pl, s)
    ensures KindsAgree(pl, tasks + [k])
  {
    hide SlotStart, SlotEnd, SmallId, WantsSmall;
  }

  /** In every managed run a task has a small stack if and only if bit 61 of its id
      is set, and a large one otherwise. */
  lemma {:induction false} ManagedKinds(l: Labels, pl: Plan, ss: seq<State>, es: seq<Event>, n: nat)
    requires Managed(l, pl, ss, es) && n <= |es| && ss[0].tasks == []
    ensures forall t :: 0 <= t < |ss[n].tasks| ==>
              && (OnSmall(pl, ss[n].tasks[t]) <==> ss[n].tasks[t].id & 0x2000_0000_0000_0000 != 0)
              && (OnLarge(pl, ss[n].tasks[t]) <==> ss[n].tasks[t].id & 0x2000_0000_0000_0000 == 0)
  {
    ManagedRun(l, pl, ss, es);
    KindsRun(l, pl, ss, es, n);
    hide OnSmall, OnLarge, Managed, Trace;
    forall t | 0 <= t < |ss[n].tasks|
      ensures !(OnSmall(pl, ss[n].tasks[t]) && OnLarge(pl, ss[n].tasks[t]))
    {
      KindsExclude(pl, ss[n].tasks[t]);
    }
  }

  lemma {:induction false} KindsRun(l: Labels, pl: Plan, ss: seq<State>, es: seq<Event>, n: nat)
    requires Managed(l, pl, ss, es) && Trace(l, ss, es) && n <= |es| && ss[0].tasks == []
    ensures KindsAgree(pl, ss[n].tasks)
    decreases n
  {
    hide Attempts, Next, InSlots, OnSlot, WholeWords, HasRoom, LargeSpawns, SmallSpawns, SmallId, OnSmall, OnLarge;
    if n > 0 {
      var k := n - 1;
      KindsRun(l, pl, ss, es, k);
      KindsNext(l, pl, ss[k], es[k], ss[n], LargeSpawns(es[..k]), SmallSpawns(es[..k]));
    }
  }

  // --- the code ---

  /** The spawn step does not depend on the interrupt flag. */
  lemma FlagsSet(l: Labels, s: State, e: Event, s': State, flags: int)
    requires e.Spawn? && flags == Sti(s.regs.rflags)
    requires Spawns(l, Flagged(s, flags), e, s')
    ensures Spawns(l, s, e, s')
  {
    hide PackId, Holds, SameOutside;
  }

  class Spawner {
    const kernel: Kernel
    const stacks: StackManager

    ghost predicate Valid()
      reads kernel, stacks, stacks.large, stacks.small, stacks.mapall.allocator.bits
    {
      && stacks.Valid() && WholeWords(stacks.plan) && HasRoom(stacks.plan)
      && InSlots(stacks.plan, kernel.Now(), stacks.usedLarge, stacks.usedSmall)
    }

    constructor (k: Kernel, m: StackManager)
      requires m.Valid() && WholeWords(m.plan) && HasRoom(m.plan)
      requires k.tasks == [] && (k.sched.top <= m.plan.bottom || m.plan.SpaceTop() <= k.sched.low)
      ensures Valid() && kernel == k && stacks == m
    {
      kernel, stacks := k, m;
    }

    /** A false result is a panic: an option or priority refused, no id or no slot
        left. Otherwise the task is spawned on the stack of the next slot, which
        nobody else has. */
    method SpawnTask(entry: int, options: bv64, priority: bv64) returns (ok: bool, ghost taken: Option<Taken>)
      requires Valid() && (kernel.phase.Boot? || kernel.phase.Running?)
      modifies kernel, stacks, stacks.large, stacks.small, stacks.mapall, stacks.mapall.allocator.bits
      ensures var slot := NextSlot(options, old(stacks.usedLarge), old(stacks.usedSmall));
              && (ok <==> Admits(options, priority, old(kernel.nextId)) && IsSlot(stacks.plan, slot))
              && (ok ==>
                    && Valid()
                    && Spawns(kernel.labels, old(kernel.Now()),
                              Spawn(entry, options, priority, SlotStart(stacks.plan, slot), SlotEnd(stacks.plan, slot)),
                              kernel.Now())
                    && Served(stacks.plan, old(stacks.mapall.Now()), stacks.mapall.Now(), slot, taken,
                              Some(SlotEnd(stacks.plan, slot)), stacks.mapall.pt,
                              stacks.mapall.allocator.shape.levels))
      ensures ok ==>
                && |kernel.tasks| == |old(kernel.tasks)| + 1
                && kernel.tasks[|old(kernel.tasks)|].top
                   == SlotEnd(stacks.plan, if SmallId(options) then Small(old(stacks.usedSmall))
                                           else Large(old(stacks.usedLarge)))
    {
      hide SlotStart, SlotEnd, InSlots, Spawns, FreshStack, Paged, CanPage, Pow2, OnSlot;
      hide StackManager.Valid, Rounded, MapperAllocator.Ok, MapperAllocator.Now, Admits, WantsSmall, SmallId;
      hide Plan.SmallSize, Plan.LargeSize;
      ghost var s, pl, large, small := kernel.Now(), stacks.plan, stacks.usedLarge, stacks.usedSmall;
      WholeWordsIff(pl);
      if !Admits(options, priority, kernel.nextId) {
        return false, None;
      }
      var r, flags, t := stacks.MakeKernelStack(WantsSmall(options), kernel.regs.rflags);
      taken := t;
      kernel.regs := kernel.regs.(rflags := flags);
      if r.None? {
        return false, None;
      }
      var top := r.value;
      var low := top - if WantsSmall(options) then stacks.plan.SmallSize() else stacks.plan.LargeSize();
      ghost var e := Spawn(entry, options, priority, low, top);
      BeforeSpawn(pl, s, e, large, small, flags);
      kernel.PlaceTask(entry, options, priority, low, top);
      AfterSpawn(kernel.labels, pl, s, e, kernel.Now(), large, small, flags);
      ok := true;
    }
  }

  ghost function Flagged(s: State, flags: int): State
  {
    s.(regs := s.regs.(rflags := flags))
  }

  lemma BeforeSpawn(pl: Plan, s: State, e: Event, large: nat, small: nat, flags: int)
    requires WholeWords(pl) && HasRoom(pl) && InSlots(pl, s, large, small) && e.Spawn?
    requires HasBit(pl, NextSlot(e.options, large, small)) && e.top == SlotEnd(pl, NextSlot(e.options, large, small))
    requires e.low == e.top - if WantsSmall(e.options) then pl.SmallSize() else pl.LargeSize()
    ensures OnSlot(pl, e, large, small) && FreshStack(Flagged(s, flags), e.low, e.top) && e.low + FRAME_ROOM <= e.top
  {
    hide InSlots, FreshStack;
    var slot := NextSlot(e.options, large, small);
    WholeWordsIff(pl);
    SlotSize(pl, slot);
    NewSlotIsFresh(pl, s, large, small, slot);
    FreshWhateverRegs(s, flags, e.low, e.top);
  }

  lemma AfterSpawn(l: Labels, pl: Plan, s: State, e: Event, s': State, large: nat, small: nat, flags: int)
    requires WholeWords(pl) && InSlots(pl, s, large, small) && e.Spawn? && OnSlot(pl, e, large, small)
    requires flags == Sti(s.regs.rflags) && Spawns(l, Flagged(s, flags), e, s')
    ensures Spawns(l, s, e, s') && e.low == SlotStart(pl, NextSlot(e.options, large, small))
    ensures InSlots(pl, s', large + if WantsSmall(e.options) then 0 else 1,
                    small + if WantsSmall(e.options) then 1 else 0)
    ensures |s'.tasks| == |s.tasks| + 1
    ensures s'.tasks[|s.tasks|].top == SlotEnd(pl, if SmallId(e.options) then Small(small) else Large(large))
  {
    hide InSlots, SmallId, WantsSmall, SlotStart, SlotEnd, Holds, SameOutside, PackId, FreshStack;
    FlagsSet(l, s, e, s', flags);
    SlotsNext(l, pl, s, e, s', large, small);
    NextSlotIs(e.options, large, small);
  }

  lemma NextSlotIs(options: bv64, large: nat, small: nat)
    ensures NextSlot(options, large, small)
            == if SmallId(options) then Small(small) else Large(large)
  {
  }

  lemma FreshWhateverRegs(s: State, flags: int, low: int, top: int)
    requires FreshStack(s, low, top)
    ensures FreshStack(Flagged(s, flags), low, top)
  {
  }
}
