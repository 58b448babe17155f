/** What every step of the scheduler keeps, and what follows for whole runs:
    each task is in one place, waits a bounded number of dispatches, and gets its
    context back when it resumes. */
module SchedulerRuns {
  import opened Cpu
  import opened SchedulerModel

  // --- the invariant ---

  /** The task that runs, or that the scheduler has just been entered from. */
  function Holder(s: State): TaskPtr
  {
    match s.phase
    case Running => s.current
    case Scheduling(_, _) => s.stale
    case Boot => Null
    case Idle => Null
  }

  ghost predicate IsTask(s: State, p: TaskPtr)
  {
    p.Spawned? && p.n < |s.tasks|
  }

  /** Every task is the holder, or in the queue exactly once, and never both. */
  ghost predicate ExactlyOnce(s: State)
  {
    && (forall i, j :: 0 <= i < j < |s.queue| ==> s.queue[i] != s.queue[j])
    && (forall t :: t in s.queue ==> t < |s.tasks|)
    && (forall t: nat :: t < |s.tasks| ==> (t in s.queue <==> Holder(s) != Spawned(t)))
  }

  /** The two task pointers agree with the phase, and a task without a saved
      frame is not marked interrupted. */
  ghost predicate PointersAgree(s: State)
  {
    && (s.phase.Boot? ==> s.current == s.stale == Null)
    && (s.phase.Running? ==> s.current == s.stale)
    && (s.phase.Scheduling? || s.phase.Idle? ==> s.current == SchedulerTask)
    && (s.phase.Running? || s.phase.Scheduling? ==> IsTask(s, Holder(s)) && !s.tasks[Holder(s).n].interrupted)
    && (s.phase.Idle? ==> s.tasks == [])
  }

  function FrameSize(interrupted: bool): int
  {
    if interrupted then LONG_FRAME else SHORT_FRAME
  }

  /** A frame of the stated form lies at `sp` inside the stack low..top, and the
      stack pointer in it does, too. */
  ghost predicate FrameAt(m: Memory, k: TaskInfo, sp: int, interrupted: bool)
  {
    && k.low <= sp && sp + FrameSize(interrupted) <= k.top
    && exists r :: Restored(m, sp, interrupted, r) && k.low <= r.rsp <= k.top
  }

  /** Queued tasks have the frame their flag announces; a task being released has
      the frame its kind of release pushes. */
  ghost predicate FramesReady(s: State)
  {
    && (forall t :: t in s.queue && t < |s.tasks| ==>
          FrameAt(s.mem, s.tasks[t], s.tasks[t].sp, s.tasks[t].interrupted))
    && (s.phase.Scheduling? && IsTask(s, s.stale) ==>
          FrameAt(s.mem, s.tasks[s.stale.n], s.phase.released, s.phase.kind.Preempted?))
    && (s.phase.Running? && IsTask(s, s.current) ==>
          s.tasks[s.current.n].low <= s.regs.rsp <= s.tasks[s.current.n].top)
  }

  ghost predicate StacksApart(s: State)
  {
    && (forall t, u :: 0 <= t < u < |s.tasks| ==>
          Bits.Apart(s.tasks[t].low, s.tasks[t].top, s.tasks[u].low, s.tasks[u].top))
    && (forall t :: 0 <= t < |s.tasks| ==>
          Bits.Apart(s.tasks[t].low, s.tasks[t].top, s.sched.low, s.sched.top))
  }

  predicate Below(a: bv64, b: bv64)
  {
    a < b
  }

  /** Raw ids grow from task to task, so ids are distinct; none is the
      scheduler's. */
  ghost predicate IdsDistinct(tasks: seq<TaskInfo>, nextId: bv64, schedId: bv64)
  {
    && Below(nextId, MAX_TASK_ID + 2) && schedId == TASKID_SCHEDULER
    && (forall t :: 0 <= t < |tasks| ==> Below(RawId(tasks[t].id), nextId) && tasks[t].id != schedId)
    && (forall t, u :: 0 <= t < u < |tasks| ==> Below(RawId(tasks[t].id), RawId(tasks[u].id)))
  }

  ghost predicate Inv(s: State)
  {
    ExactlyOnce(s) && PointersAgree(s) && FramesReady(s) && StacksApart(s) && IdsDistinct(s.tasks, s.nextId, s.sched.id)
  }

  ghost predicate Init(s: State)
  {
    && s.phase.Boot? && s.current == s.stale == Null && s.queue == [] && s.tasks == []
    && s.nextId == FIRST_TASK_ID && s.sched.id == TASKID_SCHEDULER
  }

  // --- frames ---

  lemma RestoredKept(m: Memory, m': Memory, sp: int, interrupted: bool, r: Regs)
    requires Restored(m, sp, interrupted, r) && SameWithin(m, m', sp, sp + FrameSize(interrupted))
    ensures Restored(m', sp, interrupted, r)
  {
    var i := InterruptFrame(r.rip, r.cs, r.rflags, r.rsp, r.ss);
    if interrupted {
      HoldsKept(m, m', sp, StandardFrame(r) + [r.r11, r.r10, r.r9, r.r8, r.rdi, r.rsi, r.rdx] + [r.rcx, r.rax]);
      HoldsKept(m, m', sp + 8 * 16, i);
      assert SameAt(m, m', sp + 8 * 15);
    } else {
      HoldsKept(m, m', sp, StandardFrame(r) + i);
    }
  }

  lemma FrameKept(m: Memory, m': Memory, k: TaskInfo, sp: int, interrupted: bool)
    requires FrameAt(m, k, sp, interrupted) && SameWithin(m, m', k.low, k.top)
    ensures FrameAt(m', k, sp, interrupted)
  {
    var r :| Restored(m, sp, interrupted, r) && k.low <= r.rsp <= k.top;
    RestoredKept(m, m', sp, interrupted, r);
  }

  /** The frame a preemption pushes is the one an interrupted task pops. */
  lemma LongFrameRestores(m: Memory, sp: int, r: Regs)
    requires Holds(m, sp, StandardFrame(r) + ScratchFrame(r) + InterruptFrame(r.rip, r.cs, r.rflags, r.rsp, r.ss))
    ensures Restored(m, sp, true, r)
  {
    var a := StandardFrame(r) + [r.r11, r.r10, r.r9, r.r8, r.rdi, r.rsi, r.rdx] + [r.rcx, r.rax];
    var b := [r.rflags];
    var c := InterruptFrame(r.rip, r.cs, r.rflags, r.rsp, r.ss);
    HoldsConcat(m, sp, a, b + c);
    HoldsConcat(m, sp + 8 * 15, b, c);
  }

  // --- every step keeps the invariant ---

  lemma NextIdLarger(n: bv64)
    requires n <= MAX_TASK_ID
    ensures Below(n, n + 1) && Below(n + 1, MAX_TASK_ID + 2)
  {
  }

  lemma BelowTransitive(a: bv64, b: bv64, c: bv64)
    requires Below(a, b) && Below(b, c)
    ensures Below(a, c)
  {
  }

  lemma SpawnKeepsIds(tasks: seq<TaskInfo>, k: TaskInfo, nextId: bv64, schedId: bv64, options: bv64, priority: bv64)
    requires IdsDistinct(tasks, nextId, schedId) && nextId <= MAX_TASK_ID && priority < 8
    requires k.id == PackId(options, nextId, priority)
    ensures IdsDistinct(tasks + [k], nextId + 1, schedId)
  {
    PackDecodes(options, nextId, priority);
    NextIdLarger(nextId);
    hide Below, RawId, PackId;
    forall t | 0 <= t < |tasks|
      ensures Below(RawId(tasks[t].id), nextId + 1)
    {
      BelowTransitive(RawId(tasks[t].id), nextId, nextId + 1);
    }
  }

  lemma SameIds(tasks: seq<TaskInfo>, tasks': seq<TaskInfo>, nextId: bv64, schedId: bv64)
    requires IdsDistinct(tasks, nextId, schedId) && |tasks'| == |tasks|
    requires forall t :: 0 <= t < |tasks| ==> tasks'[t].id == tasks[t].id
    ensures IdsDistinct(tasks', nextId, schedId)
  {
    hide Below, RawId;
  }

  /** Writes inside one task's stack leave the frames of the others alone. */
  lemma OthersKept(s: State, m: Memory, lo: int, hi: int, t: nat)
    requires FramesReady(s) && SameOutside(s.mem, m, lo, hi) && t in s.queue && t < |s.tasks|
    requires Bits.Apart(lo, hi, s.tasks[t].low, s.tasks[t].top)
    ensures FrameAt(m, s.tasks[t], s.tasks[t].sp, s.tasks[t].interrupted)
  {
    FrameKept(s.mem, m, s.tasks[t], s.tasks[t].sp, s.tasks[t].interrupted);
  }

  lemma SpawnedFrame(l: Labels, s: State, e: Event, s': State) returns (r: Regs)
    requires e.Spawn? && Spawns(l, s, e, s')
    ensures r == s.regs.(r15 := 0, r14 := 0, r13 := 0, r12 := 0, rbp := 0, rbx := 0, rip := e.entry,
                         cs := KERNEL_CS, rflags := Sti(s.regs.rflags), rsp := e.top - 8, ss := KERNEL_SS)
    ensures Restored(s'.mem, e.top - 8 - SHORT_FRAME, false, r)
    ensures FrameAt(s'.mem, s'.tasks[|s.tasks|], e.top - 8 - SHORT_FRAME, false)
    ensures Holds(s'.mem, e.top - 8, [l.endTask])
  {
    r := s.regs.(r15 := 0, r14 := 0, r13 := 0, r12 := 0, rbp := 0, rbx := 0, rip := e.entry,
                 cs := KERNEL_CS, rflags := Sti(s.regs.rflags), rsp := e.top - 8, ss := KERNEL_SS);
    var f := InterruptFrame(r.rip, r.cs, r.rflags, r.rsp, r.ss);
    HoldsConcat(s'.mem, e.top - 8 - SHORT_FRAME, StandardFrame(r) + f, [l.endTask]);
  }

  lemma SpawnKeeps(l: Labels, s: State, e: Event, s': State)
    requires Inv(s) && e.Spawn? && Spawns(l, s, e, s')
    ensures Inv(s')
  {
    hide PackId, IdsDistinct, Restored, FrameAt, Holds;
    SpawnKeepsIds(s.tasks, s'.tasks[|s.tasks|], s.nextId, s.sched.id, e.options, e.priority);
    var r := SpawnedFrame(l, s, e, s');
    forall t | t in s'.queue && t < |s.tasks|
      ensures FrameAt(s'.mem, s'.tasks[t], s'.tasks[t].sp, s'.tasks[t].interrupted)
    {
      OthersKept(s, s'.mem, e.top - 8 - SHORT_FRAME, e.top, t);
    }
    SpawnQueues(s, s');
  }

  lemma SpawnQueues(s: State, s': State)
    requires ExactlyOnce(s) && PointersAgree(s) && (s.phase.Boot? || s.phase.Running?)
    requires s'.queue == s.queue + [|s.tasks|] && |s'.tasks| == |s.tasks| + 1
    requires s'.phase == s.phase && s'.current == s.current
    ensures ExactlyOnce(s')
  {
    forall i | 0 <= i < |s.queue|
      ensures s'.queue[i] != |s.tasks|
    {
      assert s.queue[i] in s.queue;
    }
  }

  /** Same stacks, same ids. */
  ghost predicate SameTasks(tasks: seq<TaskInfo>, tasks': seq<TaskInfo>)
  {
    && |tasks'| == |tasks|
    && forall t :: 0 <= t < |tasks| ==>
         tasks'[t].id == tasks[t].id && tasks'[t].low == tasks[t].low && tasks'[t].top == tasks[t].top
  }

  lemma SameTasksKept(s: State, s': State)
    requires SameTasks(s.tasks, s'.tasks) && s'.nextId == s.nextId && s'.sched == s.sched
    requires StacksApart(s) && IdsDistinct(s.tasks, s.nextId, s.sched.id)
    ensures StacksApart(s') && IdsDistinct(s'.tasks, s'.nextId, s'.sched.id)
  {
    SameIds(s.tasks, s'.tasks, s.nextId, s.sched.id);
    hide IdsDistinct;
  }

  lemma RunKeeps(s: State, queue: seq<nat>, tasks: seq<TaskInfo>, s': State)
    requires Runs(s, queue, tasks, s') && !s.phase.Running?
    requires ExactlyOnce(s.(phase := Boot, queue := queue, tasks := tasks))
    requires forall t :: t in queue ==> FrameAt(s.mem, tasks[t], tasks[t].sp, tasks[t].interrupted)
    requires queue == [] ==> s.current == SchedulerTask
    ensures ExactlyOnce(s') && PointersAgree(s') && FramesReady(s')
    ensures SameTasks(tasks, s'.tasks) && s'.nextId == s.nextId && s'.sched == s.sched
  {
    hide Holds;
    if queue != [] {
      var h := queue[0];
      var r :| Restored(s.mem, tasks[h].sp, tasks[h].interrupted, r) && tasks[h].low <= r.rsp <= tasks[h].top;
      SameStackPointer(s.mem, tasks[h].sp, tasks[h].interrupted, r, s'.regs);
      hide Restored, FrameAt;
      assert forall t :: t in queue <==> t == h || t in s'.queue;
    } else {
      assert |tasks| > 0 ==> 0 in queue;
    }
  }

  /** A frame determines the stack pointer it restores. */
  lemma SameStackPointer(m: Memory, sp: int, interrupted: bool, r: Regs, q: Regs)
    requires Restored(m, sp, interrupted, r) && Restored(m, sp, interrupted, q)
    ensures r.rsp == q.rsp
  {
    FrameDetermines(m, sp, interrupted, r, q);
  }

  /** The registers a short frame carries. */
  ghost predicate SameContext(r: Regs, q: Regs)
  {
    && StandardFrame(r) == StandardFrame(q)
    && r.rsp == q.rsp && r.rip == q.rip && r.rflags == q.rflags && r.cs == q.cs && r.ss == q.ss
  }

  lemma FrameDetermines(m: Memory, sp: int, interrupted: bool, r: Regs, q: Regs)
    requires Restored(m, sp, interrupted, r) && Restored(m, sp, interrupted, q)
    ensures SameContext(r, q)
    ensures interrupted ==> r == q
  {
    hide Holds;
    var fr := InterruptFrame(r.rip, r.cs, r.rflags, r.rsp, r.ss);
    var fq := InterruptFrame(q.rip, q.cs, q.rflags, q.rsp, q.ss);
    if interrupted {
      var a := StandardFrame(r) + [r.r11, r.r10, r.r9, r.r8, r.rdi, r.rsi, r.rdx] + [r.rcx, r.rax];
      var b := StandardFrame(q) + [q.r11, q.r10, q.r9, q.r8, q.rdi, q.rsi, q.rdx] + [q.rcx, q.rax];
      HoldsUnique(m, sp, a, b);
      HoldsUnique(m, sp + 8 * 16, fr, fq);
      SameRegs(r, q, a, b);
    } else {
      HoldsConcat(m, sp, StandardFrame(r), fr);
      HoldsConcat(m, sp, StandardFrame(q), fq);
      HoldsUnique(m, sp, StandardFrame(r), StandardFrame(q));
      HoldsUnique(m, sp + 8 * 6, fr, fq);
    }
  }

  lemma SameRegs(r: Regs, q: Regs, a: seq<int>, b: seq<int>)
    requires a == StandardFrame(r) + [r.r11, r.r10, r.r9, r.r8, r.rdi, r.rsi, r.rdx] + [r.rcx, r.rax]
    requires b == StandardFrame(q) + [q.r11, q.r10, q.r9, q.r8, q.rdi, q.rsi, q.rdx] + [q.rcx, q.rax]
    requires a == b
    ensures StandardFrame(r) == StandardFrame(q)
    ensures r == q.(rsp := r.rsp, rip := r.rip, rflags := r.rflags, cs := r.cs, ss := r.ss)
  {
    assert StandardFrame(r) == a[..6] == StandardFrame(q);
    var x, y := StandardFrame(r), StandardFrame(q);
    assert a[6] == b[6] && a[7] == b[7] && a[8] == b[8] && a[9] == b[9] && a[10] == b[10];
    assert a[11] == b[11] && a[12] == b[12] && a[13] == b[13] && a[14] == b[14];
  }

  lemma StartKeeps(s: State, s': State)
    requires Inv(s) && Starts(s, s')
    ensures Inv(s')
  {
    RunKeeps(s.(current := SchedulerTask, stale := SchedulerTask), s.queue, s.tasks, s');
    hide Runs, IdsDistinct, ExactlyOnce, PointersAgree, FramesReady, StacksApart;
    SameTasksKept(s, s');
  }

  /** The records and the queue as `resume_scheduler` leaves them. */
  lemma RequeueKeeps(s: State, queue: seq<nat>, tasks: seq<TaskInfo>)
    requires s.phase.Scheduling? && ExactlyOnce(s) && PointersAgree(s) && FramesReady(s)
    requires queue == s.queue + [s.stale.n]
    requires tasks == s.tasks[s.stale.n := s.tasks[s.stale.n].(sp := s.phase.released,
                                                               interrupted := s.phase.kind.Preempted?)]
    ensures ExactlyOnce(s.(phase := Boot, queue := queue, tasks := tasks))
    ensures forall t :: t in queue ==> FrameAt(s.mem, tasks[t], tasks[t].sp, tasks[t].interrupted)
    ensures SameTasks(s.tasks, tasks)
  {
    hide FrameAt;
    forall t | t in queue
      ensures FrameAt(s.mem, tasks[t], tasks[t].sp, tasks[t].interrupted)
    {
      SameFrame(s.mem, s.tasks[t], tasks[t], tasks[t].sp, tasks[t].interrupted);
    }
  }

  lemma DispatchKeeps(s: State, s': State)
    requires Inv(s) && Dispatches(s, s')
    ensures Inv(s')
  {
    var queue := s.queue + [s.stale.n];
    var info := s.tasks[s.stale.n];
    var tasks := s.tasks[s.stale.n := info.(sp := s.phase.released, interrupted := s.phase.kind.Preempted?)];
    RequeueKeeps(s, queue, tasks);
    RunKeeps(s, queue, tasks, s');
    hide Runs, IdsDistinct, ExactlyOnce, FramesReady, StacksApart;
    SameTasksKept(s, s');
  }

  lemma SameFrame(m: Memory, k: TaskInfo, k': TaskInfo, sp: int, interrupted: bool)
    requires k.low == k'.low && k.top == k'.top
    ensures FrameAt(m, k, sp, interrupted) <==> FrameAt(m, k', sp, interrupted)
  {
  }

  lemma NextKeeps(l: Labels, s: State, e: Event, s': State)
    requires Inv(s) && Next(l, s, e, s')
    ensures Inv(s')
  {
    hide Inv, Spawns, Starts, Yields, Dismissed, Preempts, Dispatches, Executes;
    match e
    case Spawn(_, _, _, _, _) => SpawnKeeps(l, s, e, s');
    case Start => StartKeeps(s, s');
    case Yield => YieldKeeps(l, s, s');
    case Timer => if s.current == SchedulerTask { DismissedKeeps(s, s'); } else { PreemptKeeps(l, s, s'); }
    case Dispatch => DispatchKeeps(s, s');
    case Execute => ExecuteKeeps(s, s');
  }

  /** What a release leaves behind: the task's frame, and every other frame. */
  lemma ReleaseKeeps(l: Labels, s: State, kind: ResumeKind, sp: int, frame: seq<int>, s': State)
    requires Inv(s) && Releases(l, s, kind, sp, frame, s')
    requires sp + 8 * |frame| <= s.regs.rsp
    requires FrameAt(s'.mem, s.tasks[s.current.n], sp, kind.Preempted?)
    ensures Inv(s')
  {
    hide IdsDistinct, Restored, FrameAt, Holds;
    forall t | t in s'.queue
      ensures FrameAt(s'.mem, s'.tasks[t], s'.tasks[t].sp, s'.tasks[t].interrupted)
    {
      OthersKept(s, s'.mem, sp - INTERRUPT_FRAME, sp + 8 * |frame|, t);
    }
  }

  lemma YieldKeeps(l: Labels, s: State, s': State)
    requires Inv(s) && Yields(l, s, s')
    ensures Inv(s')
  {
    var r := s.regs.(rip := l.yieldReturn, cs := KERNEL_CS, rflags := Cli(s.regs.rflags), ss := KERNEL_SS);
    var frame := StandardFrame(r) + InterruptFrame(r.rip, r.cs, r.rflags, r.rsp, r.ss);
    assert Restored(s'.mem, s.regs.rsp - SHORT_FRAME, false, r);
    ReleaseKeeps(l, s, Yielded, s.regs.rsp - SHORT_FRAME, frame, s');
  }

  lemma PreemptKeeps(l: Labels, s: State, s': State)
    requires Inv(s) && Preempts(l, s, s')
    ensures Inv(s')
  {
    var r := Clobbered(s.regs, s.tasks[s.current.n].id);
    var sp := AlignDown16(s.regs.rsp) - LONG_FRAME;
    var frame := StandardFrame(r) + ScratchFrame(r) + InterruptFrame(r.rip, r.cs, r.rflags, r.rsp, r.ss);
    LongFrameRestores(s'.mem, sp, r);
    ReleaseKeeps(l, s, Preempted, sp, frame, s');
  }

  lemma DismissedKeeps(s: State, s': State)
    requires Inv(s) && Dismissed(s, s')
    ensures Inv(s')
  {
    hide IdsDistinct, Restored, FrameAt, Holds;
    forall t: nat | t < |s.tasks|
      ensures SameWithin(s.mem, s'.mem, s.tasks[t].low, s.tasks[t].top)
    {
    }
    MemoryKeeps(s, s');
  }

  /** Frames survive any change of memory that spares the stacks. */
  lemma MemoryKeeps(s: State, s': State)
    requires FramesReady(s) && ExactlyOnce(s) && s' == s.(mem := s'.mem, regs := s'.regs)
    requires forall t: nat :: t < |s.tasks| && !(s.phase.Running? && s.current == Spawned(t)) ==>
               SameWithin(s.mem, s'.mem, s.tasks[t].low, s.tasks[t].top)
    requires s.phase.Running? && IsTask(s, s.current) ==>
               s.tasks[s.current.n].low <= s'.regs.rsp <= s.tasks[s.current.n].top
    ensures FramesReady(s')
  {
    hide Restored, FrameAt, Holds;
    forall t | t in s.queue
      ensures FrameAt(s'.mem, s.tasks[t], s.tasks[t].sp, s.tasks[t].interrupted)
    {
      FrameKept(s.mem, s'.mem, s.tasks[t], s.tasks[t].sp, s.tasks[t].interrupted);
    }
    if s.phase.Scheduling? && IsTask(s, s.stale) {
      FrameKept(s.mem, s'.mem, s.tasks[s.stale.n], s.phase.released, s.phase.kind.Preempted?);
    }
  }

  lemma ExecuteKeeps(s: State, s': State)
    requires Inv(s) && Executes(s, s')
    ensures Inv(s')
  {
    hide IdsDistinct, Restored, FrameAt, Holds;
    MemoryKeeps(s, s');
  }

  // --- runs ---

  /** `ss` are the states of a run and `es` the events between them. */
  ghost predicate Trace(l: Labels, ss: seq<State>, es: seq<Event>)
  {
    |ss| == |es| + 1 && forall i :: 0 <= i < |es| ==> Next(l, ss[i], es[i], ss[i + 1])
  }

  /** The invariant holds in every reachable state. */
  lemma {:induction false} TraceKeeps(l: Labels, ss: seq<State>, es: seq<Event>, i: nat)
    requires Trace(l, ss, es) && i <= |es| && (Inv(ss[0]) || Init(ss[0]))
    ensures Inv(ss[i])
    decreases i
  {
    hide Next;
    if i > 0 {
      TraceKeeps(l, ss, es, i - 1);
      NextKeeps(l, ss[i - 1], es[i - 1], ss[i]);
    }
  }

  predicate RunsTask(s: State, t: nat)
  {
    s.phase.Running? && s.current == Spawned(t)
  }

  /** Tasks are never lost, and keep their id and their stack; so does the
      scheduler. */
  lemma TasksStay(l: Labels, s: State, e: Event, s': State)
    requires Next(l, s, e, s')
    ensures |s'.tasks| >= |s.tasks| && SameTasks(s.tasks, s'.tasks[..|s.tasks|]) && s'.sched == s.sched
    ensures !e.Spawn? ==> |s'.tasks| == |s.tasks| && s'.nextId == s.nextId
  {
    hide Holds, SameOutside, SameWithin, Restored, PackId, FreshStack;
    match e
    case Spawn(_, _, _, _, _) => assert s'.tasks[..|s.tasks|] == s.tasks;
    case Start => assert s'.tasks[..|s.tasks|] == s'.tasks;
    case Dispatch => assert s'.tasks[..|s.tasks|] == s'.tasks;
    case _ => assert s'.tasks[..|s.tasks|] == s.tasks;
  }

  /** Ids identify tasks over every run, and no task is taken for the scheduler. */
  lemma TaskIdentity(l: Labels, ss: seq<State>, es: seq<Event>, i: nat, t: nat)
    requires Trace(l, ss, es) && i <= |es| && Init(ss[0]) && t < |ss[i].tasks|
    ensures ss[i].tasks[t].id != TASKID_SCHEDULER
    ensures forall u :: 0 <= u < |ss[i].tasks| && u != t ==> ss[i].tasks[u].id != ss[i].tasks[t].id
  {
    hide Next;
    TraceKeeps(l, ss, es, i);
  }

  /** A spawned task's id carries its number, its priority and its options. */
  lemma SpawnDecodes(l: Labels, s: State, e: Event, s': State)
    requires e.Spawn? && Spawns(l, s, e, s')
    ensures var id := s'.tasks[|s.tasks|].id;
            && id & 0xffff_ffff_ffff == s.nextId && (id >> 48) & 7 == e.priority
            && id & 0xe000_0000_0000_0000 == e.options & 0xe000_0000_0000_0000
    ensures s'.nextId == s.nextId + 1 && (Init(s) ==> s.nextId == 0x100)
  {
    PackRaw(e.options, s.nextId, e.priority);
    PackPriority(e.options, s.nextId, e.priority);
    PackOptions(e.options, s.nextId, e.priority);
  }

  predicate Follows(a: bv64, b: bv64)
  {
    b == a + 1
  }

  /** The tasks are numbered from 0x100 on in the order of their spawns. */
  ghost predicate Consecutive(tasks: seq<TaskInfo>, nextId: bv64)
  {
    && (if tasks == [] then nextId == 0x100
        else RawId(tasks[0].id) == 0x100 && Follows(RawId(tasks[|tasks| - 1].id), nextId))
    && forall t :: 0 < t < |tasks| ==> Follows(RawId(tasks[t - 1].id), RawId(tasks[t].id))
  }

  lemma ConsecutiveNext(l: Labels, s: State, e: Event, s': State)
    requires Consecutive(s.tasks, s.nextId) && Next(l, s, e, s')
    ensures Consecutive(s'.tasks, s'.nextId)
  {
    TasksStay(l, s, e, s');
    if e.Spawn? {
      PackDecodes(e.options, s.nextId, e.priority);
      ConsecutiveAdd(s.tasks, s'.tasks[|s.tasks|], s.nextId);
    } else {
      hide Next, RawId;
      assert s'.tasks[..|s.tasks|] == s'.tasks;
    }
  }

  lemma ConsecutiveAdd(tasks: seq<TaskInfo>, k: TaskInfo, nextId: bv64)
    requires Consecutive(tasks, nextId) && RawId(k.id) == nextId
    ensures Consecutive(tasks + [k], nextId + 1)
  {
    hide RawId;
  }

  lemma {:induction false} TaskNumbers(l: Labels, ss: seq<State>, es: seq<Event>, i: nat)
    requires Trace(l, ss, es) && i <= |es| && Init(ss[0])
    ensures Consecutive(ss[i].tasks, ss[i].nextId)
    decreases i
  {
    hide Next, RawId;
    if i > 0 {
      TaskNumbers(l, ss, es, i - 1);
      ConsecutiveNext(l, ss[i - 1], es[i - 1], ss[i]);
    }
  }

  /** Once a task exists the processor never reaches the idle loop. */
  lemma {:induction false} NeverIdle(l: Labels, ss: seq<State>, es: seq<Event>, i: nat)
    requires Trace(l, ss, es) && i <= |es| && Inv(ss[0]) && |ss[0].tasks| > 0
    ensures !ss[i].phase.Idle? && |ss[i].tasks| > 0
    decreases i
  {
    hide Next;
    TraceKeeps(l, ss, es, i);
    if i > 0 {
      NeverIdle(l, ss, es, i - 1);
      TasksStay(l, ss[i - 1], es[i - 1], ss[i]);
    }
  }

  /** Without a task the scheduler halts, for good. */
  lemma {:induction false} IdleForever(l: Labels, ss: seq<State>, es: seq<Event>, i: nat)
    requires Trace(l, ss, es) && Init(ss[0]) && es != [] && es[0].Start? && 0 < i <= |es|
    ensures ss[i].phase.Idle? && ss[i].tasks == [] && ss[i].current == SchedulerTask
    decreases i
  {
    hide Restored, SameWithin, SameOutside;
    if i > 1 {
      IdleForever(l, ss, es, i - 1);
      IdleNext(l, ss[i - 1], es[i - 1], ss[i]);
    }
  }

  lemma IdleNext(l: Labels, s: State, e: Event, s': State)
    requires s.phase.Idle? && s.current == SchedulerTask && Next(l, s, e, s')
    ensures s'.phase.Idle? && s'.tasks == s.tasks && s'.current == SchedulerTask
  {
    hide Restored, SameWithin, SameOutside, Holds;
  }

  /** Where a yield leaves the processor: at the scheduler's entry, on its stack,
      interrupts off, told the stack pointer of the short frame and the kind. */
  lemma YieldEnters(l: Labels, s: State, s': State)
    requires Yields(l, s, s')
    ensures s'.phase == Scheduling(s.regs.rsp - 88, Yielded) && s'.current == SchedulerTask && s'.stale == s.stale
    ensures var q := s'.regs;
            && q.rip == l.yieldOut && q.cs == 0x08 && q.ss == 0x10 && q.rsp == s.sched.sp
            && q.rdi == s.regs.rsp - 88 && q.rsi == 1 && !InterruptsOn(q.rflags)
    ensures s'.tasks == s.tasks && s'.queue == s.queue && s'.nextId == s.nextId
  {
  }

  /** The same for a preemption, whose long frame lies below the stack pointer
      rounded down to a multiple of 16. */
  lemma PreemptEnters(l: Labels, s: State, s': State)
    requires Preempts(l, s, s')
    ensures s'.phase.Scheduling? && s'.phase.kind == Preempted && s'.current == SchedulerTask && s'.stale == s.stale
    ensures var q, sp := s'.regs, s'.phase.released;
            && (sp + 168) % 16 == 0 && sp + 168 <= s.regs.rsp < sp + 168 + 16
            && q.rip == l.preemptOut && q.cs == 0x08 && q.ss == 0x10 && q.rsp == s.sched.sp
            && q.rdi == sp && q.rsi == 2 && !InterruptsOn(q.rflags)
    ensures s'.tasks == s.tasks && s'.queue == s.queue && s'.nextId == s.nextId
  {
  }

  /** A timer interrupt in the scheduler costs it rax, r14 and r15 and nothing
      else. */
  lemma DismissLoses(l: Labels, s: State, s': State)
    requires Next(l, s, Timer, s') && s.current == SchedulerTask
    ensures s' == s.(regs := s'.regs, mem := s'.mem)
    ensures s'.regs == s.regs.(rax := 0, r14 := 0x8000_ffff_ffff_ffff, r15 := 0x8000_ffff_ffff_ffff)
    ensures SameOutside(s.mem, s'.mem, s.sched.low, s.sched.top)
  {
  }

  /** The steps that take a task from the queue. */
  predicate PopsQueue(e: Event)
  {
    e.Start? || e.Dispatch?
  }

  // --- context switches ---

  /** Task `t` waits with its frame at `sp`, and its stack from there up is as in
      memory `m`. */
  ghost predicate Parked(s: State, t: nat, sp: int, interrupted: bool, m: Memory)
  {
    && t < |s.tasks| && s.tasks[t].low <= sp && sp + FrameSize(interrupted) <= s.tasks[t].top
    && SameWithin(m, s.mem, sp, s.tasks[t].top)
    && if s.phase.Scheduling? && s.stale == Spawned(t)
       then s.phase.released == sp && s.phase.kind.Preempted? == interrupted
       else t in s.queue && s.tasks[t].sp == sp && s.tasks[t].interrupted == interrupted
  }

  /** Task `t` runs again, with the registers of that frame. */
  ghost predicate Resumed(s: State, t: nat, sp: int, interrupted: bool, m: Memory)
  {
    && RunsTask(s, t) && t < |s.tasks|
    && SameWithin(m, s.mem, sp, s.tasks[t].top)
    && Restored(m, sp, interrupted, s.regs)
  }

  lemma SameWithinTransitive(m: Memory, m': Memory, m'': Memory, lo: int, hi: int)
    requires SameWithin(m, m', lo, hi) && SameWithin(m', m'', lo, hi)
    ensures SameWithin(m, m'', lo, hi)
  {
    forall a | lo <= a < hi
      ensures SameAt(m, m'', a)
    {
      assert SameAt(m, m', a) && SameAt(m', m'', a);
    }
  }

  /** A step that leaves the stack of `t`, its record and its place alone. */
  lemma ParkedOn(s: State, s': State, t: nat, sp: int, interrupted: bool, m: Memory)
    requires Parked(s, t, sp, interrupted, m)
    requires t < |s'.tasks| && s'.tasks[t] == s.tasks[t]
    requires SameWithin(s.mem, s'.mem, s.tasks[t].low, s.tasks[t].top)
    requires if s.phase.Scheduling? && s.stale == Spawned(t)
             then s'.phase == s.phase && s'.stale == s.stale
             else t in s'.queue && !(s'.phase.Scheduling? && s'.stale == Spawned(t))
    ensures Parked(s', t, sp, interrupted, m)
  {
    SameWithinTransitive(m, s.mem, s'.mem, sp, s.tasks[t].top);
  }

  /** `run_scheduler` resumes the task from its frame or leaves it waiting. */
  lemma ParkedRun(s: State, queue: seq<nat>, tasks: seq<TaskInfo>, s': State,
                  t: nat, sp: int, interrupted: bool, m: Memory)
    requires Runs(s, queue, tasks, s') && t in queue && t < |tasks|
    requires tasks[t].low <= sp && sp + FrameSize(interrupted) <= tasks[t].top
    requires tasks[t].sp == sp && tasks[t].interrupted == interrupted
    requires SameWithin(m, s.mem, sp, tasks[t].top)
    ensures if s'.current == Spawned(t) then Resumed(s', t, sp, interrupted, m)
            else Parked(s', t, sp, interrupted, m)
  {
    if queue[0] == t {
      SameWithinSymmetric(m, s.mem, sp, tasks[t].top);
      RestoredKept(s.mem, m, sp, interrupted, s'.regs);
    }
  }

  lemma SameWithinSymmetric(m: Memory, m': Memory, lo: int, hi: int)
    requires SameWithin(m, m', lo, hi)
    ensures SameWithin(m', m, lo, hi)
  {
    forall a | lo <= a < hi
      ensures SameAt(m', m, a)
    {
      assert SameAt(m, m', a);
    }
  }

  lemma ApartIsSame(m: Memory, m': Memory, lo: int, hi: int, low: int, top: int)
    requires SameOutside(m, m', lo, hi) && Bits.Apart(lo, hi, low, top)
    ensures SameWithin(m, m', low, top)
  {
  }

  lemma ParkedQuiet(l: Labels, s: State, e: Event, s': State, t: nat, sp: int, interrupted: bool, m: Memory)
    requires Inv(s) && Next(l, s, e, s') && Parked(s, t, sp, interrupted, m) && !PopsQueue(e)
    ensures Parked(s', t, sp, interrupted, m)
  {
    hide IdsDistinct, Restored, FrameAt, Holds, SameWithin, SameOutside, PackId;
    match e {
    case Spawn(_, _, _, low, top) =>
      ApartIsSame(s.mem, s'.mem, top - 8 - SHORT_FRAME, top, s.tasks[t].low, s.tasks[t].top);
    case Yield =>
      ApartIsSame(s.mem, s'.mem, s.regs.rsp - SHORT_FRAME - INTERRUPT_FRAME, s.regs.rsp,
                  s.tasks[t].low, s.tasks[t].top);
    case Timer =>
      if s.current == SchedulerTask {
        ApartIsSame(s.mem, s'.mem, s.sched.low, s.sched.top, s.tasks[t].low, s.tasks[t].top);
      } else {
        ApartIsSame(s.mem, s'.mem, AlignDown16(s.regs.rsp) - LONG_FRAME - INTERRUPT_FRAME, AlignDown16(s.regs.rsp),
                    s.tasks[t].low, s.tasks[t].top);
      }
    case Execute =>
    }
    ParkedOn(s, s', t, sp, interrupted, m);
  }

  lemma ParkedPop(l: Labels, s: State, e: Event, s': State, t: nat, sp: int, interrupted: bool, m: Memory)
    requires Inv(s) && Next(l, s, e, s') && Parked(s, t, sp, interrupted, m) && PopsQueue(e)
    ensures if RunsTask(s', t) then Resumed(s', t, sp, interrupted, m) else Parked(s', t, sp, interrupted, m)
  {
    hide IdsDistinct, Restored, FrameAt, Holds, SameWithin, SameOutside;
    if e == Start {
      ParkedRun(s.(current := SchedulerTask, stale := SchedulerTask), s.queue, s.tasks, s', t, sp, interrupted, m);
    } else {
      var info := s.tasks[s.stale.n];
      var tasks := s.tasks[s.stale.n := info.(sp := s.phase.released,
                                              interrupted := info.interrupted || s.phase.kind.Preempted?)];
      ParkedRun(s, s.queue + [s.stale.n], tasks, s', t, sp, interrupted, m);
    }
  }

  /** Whatever happens next, a waiting task keeps waiting unchanged until it
      resumes from the very frame it left. */
  lemma ParkedNext(l: Labels, s: State, e: Event, s': State, t: nat, sp: int, interrupted: bool, m: Memory)
    requires Inv(s) && Inv(s') && Next(l, s, e, s') && Parked(s, t, sp, interrupted, m)
    ensures if RunsTask(s', t) then Resumed(s', t, sp, interrupted, m) else Parked(s', t, sp, interrupted, m)
  {
    hide Inv, Next, Parked, Resumed;
    if PopsQueue(e) {
      ParkedPop(l, s, e, s', t, sp, interrupted, m);
    } else {
      ParkedQuiet(l, s, e, s', t, sp, interrupted, m);
      ParkedNotRunning(s', t, sp, interrupted, m);
    }
  }

  lemma {:induction false} ParkedTrace(l: Labels, ss: seq<State>, es: seq<Event>, i: nat,
                                       t: nat, sp: int, interrupted: bool)
    requires Trace(l, ss, es) && Inv(ss[0]) && 1 <= i <= |es|
    requires Parked(ss[1], t, sp, interrupted, ss[1].mem)
    requires forall j :: 0 < j < i ==> !RunsTask(ss[j], t)
    ensures if RunsTask(ss[i], t) then i > 1 && Resumed(ss[i], t, sp, interrupted, ss[1].mem)
            else Parked(ss[i], t, sp, interrupted, ss[1].mem)
    decreases i
  {
    hide Next, Inv;
    TraceKeeps(l, ss, es, i);
    if i == 1 {
      ParkedNotRunning(ss[1], t, sp, interrupted, ss[1].mem);
    } else {
      ParkedTrace(l, ss, es, i - 1, t, sp, interrupted);
      TraceKeeps(l, ss, es, i - 1);
      ParkedNext(l, ss[i - 1], es[i - 1], ss[i], t, sp, interrupted, ss[1].mem);
    }
  }

  lemma ParkedNotRunning(s: State, t: nat, sp: int, interrupted: bool, m: Memory)
    requires Inv(s) && Parked(s, t, sp, interrupted, m)
    ensures !RunsTask(s, t)
  {
  }

  /** A task that yields, and whatever runs in between, resumes behind its call
      with its callee-saved registers, its stack pointer and its stack as they
      were, but with interrupts off. */
  lemma YieldRoundTrip(l: Labels, ss: seq<State>, es: seq<Event>, t: nat)
    requires Trace(l, ss, es) && Inv(ss[0]) && |es| > 0
    requires RunsTask(ss[0], t) && es[0] == Yield
    requires RunsTask(ss[|es|], t) && forall j :: 0 < j < |es| ==> !RunsTask(ss[j], t)
    ensures var r, q := ss[0].regs, ss[|es|].regs;
            && q.rbx == r.rbx && q.rbp == r.rbp && q.r12 == r.r12 && q.r13 == r.r13 && q.r14 == r.r14 && q.r15 == r.r15
            && q.rsp == r.rsp && q.rip == l.yieldReturn && q.cs == 0x08 && q.ss == 0x10
            && (q.cs == r.cs && q.ss == r.ss <==> r.cs == 0x08 && r.ss == 0x10)
            && q.rflags == Cli(r.rflags) && !InterruptsOn(q.rflags)
            && (q.rflags == r.rflags <==> !InterruptsOn(r.rflags))
            && SameWithin(ss[0].mem, ss[|es|].mem, r.rsp, ss[0].tasks[t].top)
  {
    hide IdsDistinct, Holds, Restored;
    var s, s' := ss[0], ss[1];
    var r := s.regs.(rip := l.yieldReturn, cs := KERNEL_CS, rflags := Cli(s.regs.rflags), ss := KERNEL_SS);
    var sp := s.regs.rsp - SHORT_FRAME;
    assert Restored(s'.mem, sp, false, r) by { ShortFrameRestores(s'.mem, sp, r); }
    ParkedTrace(l, ss, es, |es|, t, sp, false);
    FrameDetermines(s'.mem, sp, false, r, ss[|es|].regs);
    StacksStay(l, ss, es, |es|, t);
    SameWithinTransitive(s.mem, s'.mem, ss[|es|].mem, s.regs.rsp, s.tasks[t].top);
  }

  lemma ShortFrameRestores(m: Memory, sp: int, r: Regs)
    requires Holds(m, sp, StandardFrame(r) + InterruptFrame(r.rip, r.cs, r.rflags, r.rsp, r.ss))
    ensures Restored(m, sp, false, r)
  {
  }

  lemma {:induction false} StacksStay(l: Labels, ss: seq<State>, es: seq<Event>, i: nat, t: nat)
    requires Trace(l, ss, es) && i <= |es| && t < |ss[0].tasks|
    ensures t < |ss[i].tasks| && ss[i].tasks[t].top == ss[0].tasks[t].top && ss[i].tasks[t].id == ss[0].tasks[t].id
    decreases i
  {
    hide Next;
    if i > 0 {
      StacksStay(l, ss, es, i - 1, t);
      TasksStay(l, ss[i - 1], es[i - 1], ss[i]);
    }
  }

  /** A spawn changes the spawner's flags exactly when it ran with interrupts off,
      and leaves it the registers a call has to keep. */
  lemma SpawnEnablesInterrupts(l: Labels, s: State, e: Event, s': State)
    requires e.Spawn? && Spawns(l, s, e, s')
    ensures var r, q := s.regs, s'.regs;
            && q.rbx == r.rbx && q.rbp == r.rbp && q.r12 == r.r12 && q.r13 == r.r13 && q.r14 == r.r14 && q.r15 == r.r15
            && q.rsp == r.rsp
    ensures InterruptsOn(s'.regs.rflags)
    ensures s'.regs.rflags == s.regs.rflags <==> InterruptsOn(s.regs.rflags)
  {
  }

  /** A spawned task starts at its entry with clean callee-saved registers, with
      interrupts on whatever the spawner's flags, and the word on top of its stack
      returns to `end_task`. */
  lemma SpawnRoundTrip(l: Labels, ss: seq<State>, es: seq<Event>, t: nat)
    requires Trace(l, ss, es) && Inv(ss[0]) && |es| > 0
    requires es[0].Spawn? && t == |ss[0].tasks|
    requires RunsTask(ss[|es|], t) && forall j :: 0 < j < |es| ==> !RunsTask(ss[j], t)
    ensures var q := ss[|es|].regs;
            && q.rbx == q.rbp == q.r12 == q.r13 == q.r14 == q.r15 == 0
            && q.rip == es[0].entry && q.cs == 0x08 && q.ss == 0x10
            && q.rflags == Sti(ss[0].regs.rflags) && InterruptsOn(q.rflags)
            && q.rsp == es[0].top - 8 && Holds(ss[|es|].mem, q.rsp, [l.endTask])
  {
    hide IdsDistinct, Holds, Restored, PackId;
    var s, s', e := ss[0], ss[1], es[0];
    var sp := e.top - 8 - SHORT_FRAME;
    var r := SpawnedFrame(l, s, e, s');
    ParkedTrace(l, ss, es, |es|, t, sp, false);
    FrameDetermines(s'.mem, sp, false, r, ss[|es|].regs);
    StacksStay(l, ss[1..], es[1..], |es| - 1, t);
    HoldsKept(s'.mem, ss[|es|].mem, e.top - 8, [l.endTask]);
  }

  /** A preempted task resumes where it was with every register as it was, save
      that r14 holds the scheduler's id and r15 the task's own. So all registers
      survive exactly when those two held these values anyway. */
  lemma PreemptRoundTrip(l: Labels, ss: seq<State>, es: seq<Event>, t: nat)
    requires Trace(l, ss, es) && Inv(ss[0]) && |es| > 0
    requires RunsTask(ss[0], t) && es[0] == Timer
    requires RunsTask(ss[|es|], t) && forall j :: 0 < j < |es| ==> !RunsTask(ss[j], t)
    ensures var r, q, id := ss[0].regs, ss[|es|].regs, ss[0].tasks[t].id;
            && q == r.(r14 := 0x8000_ffff_ffff_ffff, r15 := id as int)
            && (q == r <==> r.r14 == 0x8000_ffff_ffff_ffff && r.r15 == id as int)
            && SameWithin(ss[0].mem, ss[|es|].mem, r.rsp, ss[0].tasks[t].top)
  {
    hide IdsDistinct, Holds, Restored;
    var s, s' := ss[0], ss[1];
    var r := Clobbered(s.regs, s.tasks[t].id);
    var sp := AlignDown16(s.regs.rsp) - LONG_FRAME;
    LongFrameRestores(s'.mem, sp, r);
    ParkedTrace(l, ss, es, |es|, t, sp, true);
    FrameDetermines(s'.mem, sp, true, r, ss[|es|].regs);
    StacksStay(l, ss, es, |es|, t);
    SameWithinTransitive(s.mem, s'.mem, ss[|es|].mem, s.regs.rsp, s.tasks[t].top);
  }

  // --- waiting ---

  function Pops(es: seq<Event>): nat
  {
    if es == [] then 0 else Pops(es[..|es| - 1]) + (if PopsQueue(es[|es| - 1]) then 1 else 0)
  }

  /** One step moves a waiting task up by one place if it takes from the queue,
      and resumes it if it was first. */
  lemma PlaceNext(l: Labels, s: State, e: Event, s': State, p: nat)
    requires Inv(s) && Next(l, s, e, s') && p < |s.queue|
    ensures PopsQueue(e) && p == 0 ==> RunsTask(s', s.queue[0])
    ensures PopsQueue(e) && p > 0 ==> p - 1 < |s'.queue| && s'.queue[p - 1] == s.queue[p]
    ensures !PopsQueue(e) ==> p < |s'.queue| && s'.queue[p] == s.queue[p]
  {
    hide IdsDistinct, Restored, FrameAt, Holds, SameWithin, SameOutside;
  }

  /** Bounded waiting: under every mix of events, the task at place p of the
      queue is the one that the (p + 1)th dispatch resumes. */
  lemma {:induction false} BoundedWaiting(l: Labels, ss: seq<State>, es: seq<Event>, p: nat, i: nat)
    requires Trace(l, ss, es) && Inv(ss[0]) && p < |ss[0].queue| && i <= |es|
    ensures var n := Pops(es[..i]);
            && (n <= p ==> p - n < |ss[i].queue| && ss[i].queue[p - n] == ss[0].queue[p])
            && (n == p + 1 && PopsQueue(es[i - 1]) ==> RunsTask(ss[i], ss[0].queue[p]))
    decreases i
  {
    hide Next, Inv;
    if i > 0 {
      BoundedWaiting(l, ss, es, p, i - 1);
      TraceKeeps(l, ss, es, i - 1);
      assert es[..i][..i - 1] == es[..i - 1];
      var n := Pops(es[..i - 1]);
      if n <= p {
        PlaceNext(l, ss[i - 1], es[i - 1], ss[i], p - n);
      }
    }
  }

  function Members(q: seq<nat>): set<nat>
  {
    set t | t in q
  }

  lemma {:induction false} DistinctCount(q: seq<nat>)
    requires forall i, j :: 0 <= i < j < |q| ==> q[i] != q[j]
    ensures |Members(q)| == |q|
  {
    if q != [] {
      DistinctCount(q[1..]);
      assert Members(q) == Members(q[1..]) + {q[0]};
    }
  }

  /** While a task runs or is being released, all others are in the queue. */
  lemma QueueLength(s: State)
    requires Inv(s) && (s.phase.Running? || s.phase.Scheduling?)
    ensures |s.queue| == |s.tasks| - 1
  {
    hide FramesReady, StacksApart, IdsDistinct;
    var t := Holder(s).n;
    DistinctCount(s.queue);
    Bits.IntervalSize(0, |s.tasks|);
    assert Members(s.queue) == Bits.Interval(0, |s.tasks|) - {t};
  }

  /** Round robin: a task that leaves the processor while there are n tasks is
      resumed by the n-th dispatch from then on, tasks spawned meanwhile
      notwithstanding. */
  lemma RoundRobin(l: Labels, ss: seq<State>, es: seq<Event>, t: nat, i: nat)
    requires Trace(l, ss, es) && Inv(ss[0]) && ss[0].phase.Scheduling? && ss[0].stale == Spawned(t)
    requires 0 < i <= |es| && es[0] == Dispatch && es[i - 1] == Dispatch
    requires Pops(es[..i]) == |ss[0].tasks|
    ensures RunsTask(ss[i], t)
  {
    hide Inv, Next;
    QueueLength(ss[0]);
    RequeuedLast(l, ss[0], ss[1]);
    TraceKeeps(l, ss, es, 1);
    var n := |ss[0].queue|;
    PopsSplit(es[..i]);
    assert es[..i][1..] == es[1..][..i - 1];
    if n > 0 {
      BoundedWaiting(l, ss[1..], es[1..], n - 1, i - 1);
    }
  }

  lemma RequeuedLast(l: Labels, s: State, s': State)
    requires Inv(s) && s.phase.Scheduling? && Next(l, s, Dispatch, s')
    ensures if s.queue == [] then RunsTask(s', s.stale.n)
            else |s'.queue| == |s.queue| && s'.queue[|s.queue| - 1] == s.stale.n
  {
    hide FramesReady, StacksApart, IdsDistinct, Restored;
  }

  lemma {:induction false} PopsSplit(es: seq<Event>)
    requires es != []
    ensures Pops(es) == (if PopsQueue(es[0]) then 1 else 0) + Pops(es[1..])
    decreases |es|
  {
    if |es| > 1 {
      PopsSplit(es[..|es| - 1]);
      assert es[..|es| - 1][1..] == es[1..][..|es| - 2];
    }
  }
}
