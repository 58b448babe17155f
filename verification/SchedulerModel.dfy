/** The scheduler as a step machine: what a spawn, a yield, a timer interrupt, a
    dispatch and ordinary execution do to the registers, the stacks, the task
    records, the two task pointers and the queue. */
module SchedulerModel {
  import Bits
  import opened Cpu

  // --- task ids ---

  const KERNEL_TASK: bv64 := 1 << 63
  const USES_FLOATS: bv64 := 1 << 62
  const SMALL_STACK: bv64 := 1 << 61
  const KNOWN_BITS: bv64 := KERNEL_TASK | USES_FLOATS | SMALL_STACK
  const FIRST_TASK_ID: bv64 := 0x100
  const MAX_TASK_ID: bv64 := 0xffff_ffff_fffe
  const TASKID_SCHEDULER: bv64 := 0x8000_ffff_ffff_ffff

  function PackId(options: bv64, raw: bv64, priority: bv64): bv64
  {
    (options & KNOWN_BITS) | raw | ((priority & 7) << 48)
  }

  /** What `spawn_task` asserts. */
  predicate Admits(options: bv64, priority: bv64, raw: bv64)
  {
    options & KERNEL_TASK != 0 && priority < 8 && raw <= MAX_TASK_ID
  }

  function RawId(id: bv64): bv64
  {
    id & 0xffff_ffff_ffff
  }

  function Priority(id: bv64): bv64
  {
    (id >> 48) & 7
  }

  function ConfigOf(id: bv64): bv64
  {
    id & (0xff << 56) & KNOWN_BITS
  }

  lemma PackDecodes(options: bv64, raw: bv64, priority: bv64)
    requires raw <= MAX_TASK_ID && priority < 8
    ensures var id := PackId(options, raw, priority);
            && RawId(id) == raw && Priority(id) == priority
            && ConfigOf(id) == options & KNOWN_BITS && id != TASKID_SCHEDULER
  {
  }

  lemma PackRaw(options: bv64, raw: bv64, priority: bv64)
    requires raw <= MAX_TASK_ID && priority < 8
    ensures PackId(options, raw, priority) & 0xffff_ffff_ffff == raw
  {
    PackDecodes(options, raw, priority);
  }

  lemma PackPriority(options: bv64, raw: bv64, priority: bv64)
    requires raw <= MAX_TASK_ID && priority < 8
    ensures (PackId(options, raw, priority) >> 48) & 7 == priority
  {
    PackDecodes(options, raw, priority);
  }

  lemma PackOptions(options: bv64, raw: bv64, priority: bv64)
    requires raw <= MAX_TASK_ID && priority < 8
    ensures PackId(options, raw, priority) & 0xe000_0000_0000_0000 == options & 0xe000_0000_0000_0000
  {
  }

  /** Only kernel tasks, that is options with the highest bit set, priorities up to
      7 and ids below the scheduler's are accepted. */
  lemma AdmitsIff(options: bv64, priority: bv64, raw: bv64)
    ensures Admits(options, priority, raw) <==>
            options >= 0x8000_0000_0000_0000 && priority <= 7 && raw < 0xffff_ffff_ffff
  {
  }

  lemma WordInjective(a: bv64, b: bv64)
    requires a as int == b as int
    ensures a == b
  {
    assert (a as int) as bv64 == a;
    assert (b as int) as bv64 == b;
  }

  // --- state ---

  const KERNEL_CS: int := 0x08
  const KERNEL_SS: int := 0x10

  /** Bytes of the saved frames: six callee-saved registers and the interrupt
      frame, and in the long form ten more words in between. */
  const SHORT_FRAME: int := 8 * 11
  const LONG_FRAME: int := 8 * 21
  const INTERRUPT_FRAME: int := 8 * 5

  datatype TaskPtr = Null | SchedulerTask | Spawned(n: nat)

  /** A task record, with the stack low..top the task was given. */
  datatype TaskInfo = TaskInfo(sp: int, id: bv64, interrupted: bool, low: int, top: int)

  datatype ResumeKind = Yielded | Preempted

  /** What the processor is executing: boot code, the task in `current`, the
      scheduler handling a released task, or the scheduler's halt loop. */
  datatype Phase =
    | Boot
    | Running
    | Scheduling(released: int, kind: ResumeKind)
    | Idle

  datatype State = State(
    phase: Phase, regs: Regs, mem: Memory,
    current: TaskPtr, stale: TaskPtr,
    queue: seq<nat>, tasks: seq<TaskInfo>, nextId: bv64,
    sched: TaskInfo)

  /** Addresses of code: `end_task`, the end of `release_task`, and the two
      routines through which a release enters the scheduler. */
  datatype Labels = Labels(endTask: int, yieldReturn: int, yieldOut: int, preemptOut: int)

  datatype Event =
    | Spawn(entry: int, options: bv64, priority: bv64, low: int, top: int)
    | Start
    | Yield
    | Timer
    | Dispatch
    | Execute

  function AlignDown16(x: int): (r: int)
    ensures r % 16 == 0 && r <= x < r + 16
  {
    x - x % 16
  }

  function StandardFrame(r: Regs): seq<int>
  {
    [r.r15, r.r14, r.r13, r.r12, r.rbp, r.rbx]
  }

  function ScratchFrame(r: Regs): seq<int>
  {
    [r.r11, r.r10, r.r9, r.r8, r.rdi, r.rsi, r.rdx] + [r.rcx, r.rax, r.rflags]
  }

  function InterruptFrame(rip: int, cs: int, rflags: int, rsp: int, ss: int): seq<int>
  {
    [rip, cs, rflags, rsp, ss]
  }

  /** The stack shares no byte with a task's stack or with the scheduler's. */
  ghost predicate FreshStack(s: State, low: int, top: int)
  {
    && Bits.Apart(low, top, s.sched.low, s.sched.top)
    && forall t :: 0 <= t < |s.tasks| ==> Bits.Apart(low, top, s.tasks[t].low, s.tasks[t].top)
  }

  // --- steps ---

  /** `spawn_task`: a new record at the back of the queue, its stack prepared
      with a short frame that enters the task, above it the address of `end_task`.
      Making the stack has turned interrupts on, for the spawner and in the frame. */
  ghost predicate Spawns(l: Labels, s: State, e: Event, s': State)
    requires e.Spawn?
  {
    && (s.phase.Boot? || s.phase.Running?)
    && Admits(e.options, e.priority, s.nextId)
    && e.low + SHORT_FRAME + 8 <= e.top && FreshStack(s, e.low, e.top)
    && s'.tasks == s.tasks + [TaskInfo(e.top - 8 - SHORT_FRAME, PackId(e.options, s.nextId, e.priority), false,
                                       e.low, e.top)]
    && s'.nextId == s.nextId + 1
    && s'.queue == s.queue + [|s.tasks|]
    && Holds(s'.mem, e.top - 8 - SHORT_FRAME,
             [0, 0, 0, 0, 0, 0] + InterruptFrame(e.entry, KERNEL_CS, Sti(s.regs.rflags), e.top - 8, KERNEL_SS)
             + [l.endTask])
    && SameOutside(s.mem, s'.mem, e.top - 8 - SHORT_FRAME, e.top)
    && StandardFrame(s'.regs) == StandardFrame(s.regs) && s'.regs.rsp == s.regs.rsp
    && s'.regs.rflags == Sti(s.regs.rflags)
    && s' == s.(tasks := s'.tasks, nextId := s'.nextId, queue := s'.queue, mem := s'.mem, regs := s'.regs)
  }

  /** The number `resume_scheduler` is told in rsi. */
  function KindCode(kind: ResumeKind): int
  {
    match kind
    case Yielded => 1
    case Preempted => 2
  }

  /** The running task enters the scheduler with `frame` saved on its stack at
      `sp`, which rdi hands over. The five words below are the interrupt frame of the jump. */
  ghost predicate Releases(l: Labels, s: State, kind: ResumeKind, sp: int, frame: seq<int>, s': State)
  {
    && s.phase.Running? && s.current.Spawned? && s.current.n < |s.tasks|
    && s.tasks[s.current.n].low <= sp - INTERRUPT_FRAME
    && s'.phase == Scheduling(sp, kind)
    && Holds(s'.mem, sp, frame)
    && SameOutside(s.mem, s'.mem, sp - INTERRUPT_FRAME, sp + 8 * |frame|)
    && s'.current == SchedulerTask
    && s'.regs.rsp == s.sched.sp && !InterruptsOn(s'.regs.rflags)
    && s'.regs.rip == (if kind.Yielded? then l.yieldOut else l.preemptOut)
    && s'.regs.cs == KERNEL_CS && s'.regs.ss == KERNEL_SS
    && s'.regs.rdi == sp && s'.regs.rsi == KindCode(kind)
    && s' == s.(phase := s'.phase, mem := s'.mem, regs := s'.regs, current := SchedulerTask)
  }

  /** `yield_task`: the short frame returns to the caller, interrupts off. */
  ghost predicate Yields(l: Labels, s: State, s': State)
  {
    Releases(l, s, Yielded, s.regs.rsp - SHORT_FRAME,
             StandardFrame(s.regs)
             + InterruptFrame(l.yieldReturn, KERNEL_CS, Cli(s.regs.rflags), s.regs.rsp, KERNEL_SS),
             s')
  }

  /** The registers as `scheduler_preempt` saves them: it has overwritten r14 and
      r15 by then. */
  function Clobbered(r: Regs, id: bv64): Regs
  {
    r.(r14 := TASKID_SCHEDULER as int, r15 := id as int)
  }

  /** A timer interrupt in a task: the long frame. */
  ghost predicate Preempts(l: Labels, s: State, s': State)
  {
    && s.phase.Running? && s.current.Spawned? && s.current.n < |s.tasks|
    && InterruptsOn(s.regs.rflags)
    && var saved := Clobbered(s.regs, s.tasks[s.current.n].id);
       Releases(l, s, Preempted, AlignDown16(s.regs.rsp) - LONG_FRAME,
                StandardFrame(saved) + ScratchFrame(saved)
                + InterruptFrame(saved.rip, saved.cs, saved.rflags, saved.rsp, saved.ss),
                s')
  }

  /** A timer interrupt in the scheduler: dismissed, with three registers lost. */
  ghost predicate Dismissed(s: State, s': State)
  {
    && (s.phase.Scheduling? || s.phase.Idle?) && s.current == SchedulerTask
    && InterruptsOn(s.regs.rflags)
    && s.sched.low <= AlignDown16(s.regs.rsp) - 64 && s.regs.rsp <= s.sched.top
    && s'.regs == Clobbered(s.regs, TASKID_SCHEDULER).(rax := 0)
    && SameOutside(s.mem, s'.mem, s.sched.low, s.sched.top)
    && s' == s.(mem := s'.mem, regs := s'.regs)
  }

  /** The registers popped from the frame at `sp`. */
  ghost predicate Restored(m: Memory, sp: int, interrupted: bool, r: Regs)
  {
    if interrupted then
      Holds(m, sp, StandardFrame(r) + [r.r11, r.r10, r.r9, r.r8, r.rdi, r.rsi, r.rdx] + [r.rcx, r.rax])
      && sp + 8 * 15 in m
      && Holds(m, sp + 8 * 16, InterruptFrame(r.rip, r.cs, r.rflags, r.rsp, r.ss))
    else
      Holds(m, sp, StandardFrame(r) + InterruptFrame(r.rip, r.cs, r.rflags, r.rsp, r.ss))
  }

  /** `run_scheduler` with the given queue and records: the first task in the
      queue resumes, or with an empty queue the processor halts. */
  ghost predicate Runs(s: State, queue: seq<nat>, tasks: seq<TaskInfo>, s': State)
  {
    if queue == [] then
      s' == s.(phase := Idle, queue := queue, tasks := tasks, regs := s'.regs)
    else
      && queue[0] < |tasks|
      && Restored(s.mem, tasks[queue[0]].sp, tasks[queue[0]].interrupted, s'.regs)
      && s' == s.(phase := Running, queue := queue[1..],
                  tasks := tasks[queue[0] := tasks[queue[0]].(interrupted := false)],
                  current := Spawned(queue[0]), stale := Spawned(queue[0]), regs := s'.regs)
  }

  /** `start_scheduler` */
  ghost predicate Starts(s: State, s': State)
  {
    s.phase.Boot? && Runs(s.(current := SchedulerTask, stale := SchedulerTask), s.queue, s.tasks, s')
  }

  /** `resume_scheduler`: the released task's record is updated through the stale
      pointer, the task goes to the back of the queue, the front one resumes. */
  ghost predicate Dispatches(s: State, s': State)
  {
    && s.phase.Scheduling? && s.stale.Spawned? && s.stale.n < |s.tasks|
    && var info := s.tasks[s.stale.n];
       Runs(s, s.queue + [s.stale.n],
            s.tasks[s.stale.n := info.(sp := s.phase.released,
                                       interrupted := info.interrupted || s.phase.kind.Preempted?)],
            s')
  }

  /** Ordinary execution: boot code, the running task or the scheduler computes
      and writes memory, but not the stack of a task that is not running. */
  ghost predicate Executes(s: State, s': State)
  {
    && (forall t :: 0 <= t < |s.tasks| && !(s.phase.Running? && s.current == Spawned(t)) ==>
          SameWithin(s.mem, s'.mem, s.tasks[t].low, s.tasks[t].top))
    && (s.phase.Running? && s.current.Spawned? && s.current.n < |s.tasks| ==>
          s.tasks[s.current.n].low <= s'.regs.rsp <= s.tasks[s.current.n].top)
    && s' == s.(mem := s'.mem, regs := s'.regs)
  }

  ghost predicate Next(l: Labels, s: State, e: Event, s': State)
  {
    match e
    case Spawn(_, _, _, _, _) => Spawns(l, s, e, s')
    case Start => Starts(s, s')
    case Yield => Yields(l, s, s')
    case Timer => if s.current == SchedulerTask then Dismissed(s, s') else Preempts(l, s, s')
    case Dispatch => Dispatches(s, s')
    case Execute => Executes(s, s')
  }
}
