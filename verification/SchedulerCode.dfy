/** The scheduler's code, push by push and pop by pop: each routine is proved to
    be the step of the scheduler model it stands for. */
module SchedulerCode {
  import opened Cpu
  import opened SchedulerModel
  import opened SchedulerRuns

  lemma SameOutsideWiden(m: Memory, m': Memory, lo: int, hi: int, low: int, top: int)
    requires SameOutside(m, m', lo, hi) && low <= lo && hi <= top
    ensures SameOutside(m, m', low, top)
  {
  }

  /** What a sequence of pushes has done from memory `m` and stack pointer `sp`
      to `m'` and `sp'`: the words stand on top of the stack, all else is as
      before. */
  ghost predicate Pushed(m: Memory, sp: int, m': Memory, sp': int, ws: seq<int>)
  {
    sp' == sp - 8 * |ws| && Holds(m', sp', ws) && SameOutside(m, m', sp', sp)
  }

  lemma NothingPushed(m: Memory, sp: int)
    ensures Pushed(m, sp, m, sp, [])
  {
  }

  lemma AllPushed(m: Memory, sp: int, m': Memory, sp': int, ws: seq<int>)
    requires Pushed(m, sp, m', sp', ws)
    ensures sp' == sp - 8 * |ws| && Holds(m', sp', ws) && SameOutside(m, m', sp', sp)
  {
  }

  class Kernel {
    const labels: Labels
    /** SCHEDULER_TASK */
    const sched: TaskInfo
    var phase: Phase
    var regs: Regs
    var mem: Memory
    /** CURRENT_TASK_PTR and STALE_TASK_PTR */
    var current: TaskPtr
    var stale: TaskPtr
    /** The task records, and the queue of those to be run, by number. */
    var tasks: seq<TaskInfo>
    var queue: seq<nat>
    /** NEXT_TASK_ID */
    var nextId: bv64

    constructor (labels: Labels, sched: TaskInfo, regs: Regs, mem: Memory)
      requires sched.id == TASKID_SCHEDULER
      ensures Init(Now()) && this.labels == labels && this.sched == sched && this.regs == regs && this.mem == mem
    {
      this.labels, this.sched, this.regs, this.mem := labels, sched, regs, mem;
      phase, current, stale := Boot, Null, Null;
      tasks, queue, nextId := [], [], FIRST_TASK_ID;
    }

    ghost function Now(): State
      reads this
    {
      State(phase, regs, mem, current, stale, queue, tasks, nextId, sched)
    }

    // --- the stack ---

    method Push(v: int, ghost m: Memory, ghost sp: int, ghost ws: seq<int>)
      requires Pushed(m, sp, mem, regs.rsp, ws)
      modifies this`regs, this`mem
      ensures regs == old(regs).(rsp := old(regs.rsp) - 8)
      ensures Pushed(m, sp, mem, regs.rsp, [v] + ws)
    {
      HoldsPush(mem, regs.rsp, ws, v);
      ghost var before := mem;
      regs := regs.(rsp := regs.rsp - 8);
      mem := mem[regs.rsp := v];
      forall a | a < regs.rsp || sp <= a
        ensures SameAt(m, mem, a)
      {
        assert SameAt(m, before, a);
      }
    }

    /** Pops word `k` of a frame. */
    method Pop(ghost f: seq<int>, ghost k: nat) returns (v: int)
      requires k < |f| && Holds(mem, regs.rsp, f[k..])
      modifies this`regs
      ensures regs == old(regs).(rsp := old(regs.rsp) + 8)
      ensures v == f[k] && Holds(mem, regs.rsp, f[k + 1..])
    {
      HoldsRest(mem, regs.rsp, f[k..]);
      v := mem[regs.rsp];
      regs := regs.(rsp := regs.rsp + 8);
    }

    /** Five pushes that make the frame an `iretq` pops. */
    method PushInterruptFrame(ss: int, rsp: int, rflags: int, cs: int, rip: int,
                              ghost m: Memory, ghost sp: int, ghost ws: seq<int>)
      requires Pushed(m, sp, mem, regs.rsp, ws)
      modifies this`regs, this`mem
      ensures regs == old(regs).(rsp := old(regs.rsp) - 40)
      ensures Pushed(m, sp, mem, regs.rsp, InterruptFrame(rip, cs, rflags, rsp, ss) + ws)
    {
      hide Pushed;
      Push(ss, m, sp, ws);
      Push(rsp, m, sp, [ss] + ws);
      Push(rflags, m, sp, [rsp] + ([ss] + ws));
      Push(cs, m, sp, [rflags] + ([rsp] + ([ss] + ws)));
      Push(rip, m, sp, [cs] + ([rflags] + ([rsp] + ([ss] + ws))));
      assert [rip] + ([cs] + ([rflags] + ([rsp] + ([ss] + ws)))) == InterruptFrame(rip, cs, rflags, rsp, ss) + ws;
    }

    /** Pushes the six callee-saved registers. */
    method PushStandardFrame(ghost m: Memory, ghost sp: int, ghost ws: seq<int>)
      requires Pushed(m, sp, mem, regs.rsp, ws)
      modifies this`regs, this`mem
      ensures regs == old(regs).(rsp := old(regs.rsp) - 48)
      ensures Pushed(m, sp, mem, regs.rsp, StandardFrame(old(regs)) + ws)
    {
      hide Pushed;
      ghost var r := regs;
      Push(regs.rbx, m, sp, ws);
      Push(regs.rbp, m, sp, [r.rbx] + ws);
      Push(regs.r12, m, sp, [r.rbp] + ([r.rbx] + ws));
      Push(regs.r13, m, sp, [r.r12] + ([r.rbp] + ([r.rbx] + ws)));
      Push(regs.r14, m, sp, [r.r13] + ([r.r12] + ([r.rbp] + ([r.rbx] + ws))));
      Push(regs.r15, m, sp, [r.r14] + ([r.r13] + ([r.r12] + ([r.rbp] + ([r.rbx] + ws)))));
      assert [r.r15] + ([r.r14] + ([r.r13] + ([r.r12] + ([r.rbp] + ([r.rbx] + ws))))) == StandardFrame(r) + ws;
    }

    /** Pops them again. */
    method PopStandardFrame(ghost r: Regs, ghost ws: seq<int>)
      requires Holds(mem, regs.rsp, StandardFrame(r) + ws)
      modifies this`regs
      ensures regs == old(regs).(rsp := old(regs.rsp) + 48, rbx := r.rbx, rbp := r.rbp, r12 := r.r12,
                                 r13 := r.r13, r14 := r.r14, r15 := r.r15)
      ensures Holds(mem, regs.rsp, ws)
    {
      hide Holds;
      ghost var f := StandardFrame(r) + ws;
      var v := Pop(f, 0);
      regs := regs.(r15 := v);
      v := Pop(f, 1);
      regs := regs.(r14 := v);
      v := Pop(f, 2);
      regs := regs.(r13 := v);
      v := Pop(f, 3);
      regs := regs.(r12 := v);
      v := Pop(f, 4);
      regs := regs.(rbp := v);
      v := Pop(f, 5);
      regs := regs.(rbx := v);
    }

    method Iretq(ghost r: Regs, ghost ws: seq<int>)
      requires Holds(mem, regs.rsp, InterruptFrame(r.rip, r.cs, r.rflags, r.rsp, r.ss) + ws)
      modifies this`regs
      ensures regs == old(regs).(rip := r.rip, cs := r.cs, rflags := r.rflags, rsp := r.rsp, ss := r.ss)
    {
      hide Holds;
      ghost var f := InterruptFrame(r.rip, r.cs, r.rflags, r.rsp, r.ss) + ws;
      var rip := Pop(f, 0);
      var cs := Pop(f, 1);
      var rflags := Pop(f, 2);
      var rsp := Pop(f, 3);
      var ss := Pop(f, 4);
      regs := regs.(rip := rip, cs := cs, rflags := rflags, rsp := rsp, ss := ss);
    }

    // --- spawn_task ---

    /** The initial contents of a task's stack, pushed from its top. */
    method PrepareStack(entry: int, top: int) returns (sp: int)
      modifies this`regs, this`mem
      ensures sp == top - 8 - SHORT_FRAME
      ensures Holds(mem, sp,
                    [0, 0, 0, 0, 0, 0] + InterruptFrame(entry, KERNEL_CS, old(regs.rflags), top - 8, KERNEL_SS)
                    + [labels.endTask])
      ensures SameOutside(old(mem), mem, sp, top)
      ensures StandardFrame(regs) == StandardFrame(old(regs)) && regs.rsp == old(regs.rsp)
      ensures regs.rflags == old(regs.rflags)
    {
      hide Pushed, Holds, SameOutside;
      ghost var m := mem;
      regs := regs.(rdi := entry, rsi := top, rdx := regs.rsp);
      regs := regs.(rsp := regs.rsi);
      regs := regs.(rax := labels.endTask);
      NothingPushed(mem, regs.rsp);
      Push(regs.rax, m, top, []);
      regs := regs.(rax := regs.rsp);
      ghost var f := [labels.endTask] + [];
      PushInterruptFrame(KERNEL_SS, regs.rax, regs.rflags, KERNEL_CS, regs.rdi, m, top, f);
      f := InterruptFrame(entry, KERNEL_CS, old(regs.rflags), top - 8, KERNEL_SS) + f;
      Push(0, m, top, f);
      Push(0, m, top, [0] + f);
      Push(0, m, top, [0] + ([0] + f));
      Push(0, m, top, [0] + ([0] + ([0] + f)));
      Push(0, m, top, [0] + ([0] + ([0] + ([0] + f))));
      Push(0, m, top, [0] + ([0] + ([0] + ([0] + ([0] + f)))));
      assert [0] + ([0] + ([0] + ([0] + ([0] + ([0] + f))))) == [0, 0, 0, 0, 0, 0]
             + InterruptFrame(entry, KERNEL_CS, old(regs.rflags), top - 8, KERNEL_SS) + [labels.endTask];
      regs := regs.(rax := regs.rsp);
      regs := regs.(rsp := regs.rdx);
      return regs.rax;
    }

    /** `spawn_task` once the stack is made, with interrupts on. */
    method PlaceTask(entry: int, options: bv64, priority: bv64, low: int, top: int)
      requires phase.Boot? || phase.Running?
      requires Admits(options, priority, nextId)
      requires low + SHORT_FRAME + 8 <= top && FreshStack(Now(), low, top) && InterruptsOn(regs.rflags)
      modifies this
      ensures Spawns(labels, old(Now()), Spawn(entry, options, priority, low, top), Now())
    {
      hide PackId, FreshStack, Holds, SameOutside;
      var id := PackId(options, nextId, priority);
      nextId := nextId + 1;
      var sp := PrepareStack(entry, top);
      queue := queue + [|tasks|];
      tasks := tasks + [TaskInfo(sp, id, false, low, top)];
    }

    // --- yield_task ---

    method YieldTask()
      requires phase.Running? && current.Spawned? && current.n < |tasks|
      requires tasks[current.n].low <= regs.rsp - SHORT_FRAME - INTERRUPT_FRAME
      modifies this
      ensures Yields(labels, old(Now()), Now())
    {
      hide Pushed, Holds, SameOutside;
      ghost var m, sp, r := mem, regs.rsp, regs;
      NothingPushed(mem, regs.rsp);
      regs := regs.(rflags := Cli(regs.rflags));
      regs := regs.(rax := regs.rsp);
      PushInterruptFrame(KERNEL_SS, regs.rax, regs.rflags, KERNEL_CS, labels.yieldReturn, m, sp, []);
      PushStandardFrame(m, sp, InterruptFrame(labels.yieldReturn, KERNEL_CS, Cli(r.rflags), sp, KERNEL_SS) + []);
      EnterScheduler(Yielded, m, sp, StandardFrame(r)
                     + (InterruptFrame(labels.yieldReturn, KERNEL_CS, Cli(r.rflags), sp, KERNEL_SS) + []));
      assert StandardFrame(r) + (InterruptFrame(labels.yieldReturn, KERNEL_CS, Cli(r.rflags), sp, KERNEL_SS) + [])
          == StandardFrame(r) + InterruptFrame(labels.yieldReturn, KERNEL_CS, Cli(r.rflags), sp, KERNEL_SS);
    }

    /** The processor is where a release enters the scheduler. */
    ghost predicate Entered(released: int, kind: ResumeKind)
      reads this
    {
      && regs.rsp == sched.sp && regs.rip == (if kind.Yielded? then labels.yieldOut else labels.preemptOut)
      && regs.cs == KERNEL_CS && regs.ss == KERNEL_SS && !InterruptsOn(regs.rflags)
      && regs.rdi == released && regs.rsi == KindCode(kind)
    }

    /** Leaves the released task's stack for the scheduler's, the stack pointer
        handed over in rdi, through an interrupt frame pushed below. */
    method EnterScheduler(kind: ResumeKind, ghost m: Memory, ghost sp: int, ghost f: seq<int>)
      requires Pushed(m, sp, mem, regs.rsp, f)
      modifies this`regs, this`mem, this`phase, this`current
      ensures phase == Scheduling(sp - 8 * |f|, kind) && current == SchedulerTask && Entered(sp - 8 * |f|, kind)
      ensures Holds(mem, sp - 8 * |f|, f)
      ensures SameOutside(m, mem, sp - 8 * |f| - INTERRUPT_FRAME, sp)
    {
      var out := if kind.Yielded? then labels.yieldOut else labels.preemptOut;
      regs := regs.(rdi := regs.rsp);
      regs := regs.(rsi := KindCode(kind));
      ghost var to := regs.(ss := KERNEL_SS, rsp := sched.sp, cs := KERNEL_CS, rip := out);
      PushInterruptFrame(KERNEL_SS, sched.sp, regs.rflags, KERNEL_CS, out, m, sp, f);
      ghost var g := InterruptFrame(to.rip, to.cs, to.rflags, to.rsp, to.ss);
      HoldsConcat(mem, regs.rsp, g, f);
      Iretq(to, f);
      regs := regs.(rflags := Cli(regs.rflags));
      current := SchedulerTask;
      phase := Scheduling(regs.rdi, kind);
    }

    // --- scheduler_preempt ---

    /** The processor aligns the stack and pushes its frame, then the handler saves
        three words. */
    method EnterHandler() returns (ghost f: seq<int>)
      modifies this`regs, this`mem
      ensures regs == old(regs).(rsp := AlignDown16(old(regs.rsp)) - 64)
      ensures var r := old(regs);
              && f == [r.rcx, r.rax, r.rflags] + InterruptFrame(r.rip, r.cs, r.rflags, r.rsp, r.ss)
              && Pushed(old(mem), AlignDown16(r.rsp), mem, regs.rsp, f)
    {
      hide Pushed;
      ghost var m, sp, r := mem, AlignDown16(regs.rsp), regs;
      var rsp := regs.rsp;
      regs := regs.(rsp := AlignDown16(rsp));
      NothingPushed(mem, regs.rsp);
      PushInterruptFrame(regs.ss, rsp, regs.rflags, regs.cs, regs.rip, m, sp, []);
      ghost var g := InterruptFrame(r.rip, r.cs, r.rflags, r.rsp, r.ss) + [];
      Push(regs.rflags, m, sp, g);
      Push(regs.rax, m, sp, [r.rflags] + g);
      Push(regs.rcx, m, sp, [r.rax] + ([r.rflags] + g));
      f := [r.rcx, r.rax, r.rflags] + InterruptFrame(r.rip, r.cs, r.rflags, r.rsp, r.ss);
      assert [r.rcx] + ([r.rax] + ([r.rflags] + g)) == f;
    }

    /** The timer interrupt: the handler has saved three words when it looks whether
        it has interrupted the scheduler. */
    method TimerInterrupt()
      requires InterruptsOn(regs.rflags)
      requires if current == SchedulerTask
               then (phase.Scheduling? || phase.Idle?) && sched.id == TASKID_SCHEDULER
                    && sched.low <= AlignDown16(regs.rsp) - 64 && regs.rsp <= sched.top
               else phase.Running? && current.Spawned? && current.n < |tasks|
                    && tasks[current.n].id != TASKID_SCHEDULER
                    && tasks[current.n].low <= AlignDown16(regs.rsp) - LONG_FRAME - INTERRUPT_FRAME
      modifies this
      ensures Next(labels, old(Now()), Timer, Now())
    {
      hide Pushed, Holds, SameOutside;
      ghost var m, sp, r := mem, AlignDown16(regs.rsp), regs;
      ghost var f := EnterHandler();
      var info := if current == SchedulerTask then sched else tasks[current.n];
      regs := regs.(r15 := info.id as int);
      regs := regs.(r14 := TASKID_SCHEDULER as int);
      if regs.r14 == regs.r15 {
        WordInjective(TASKID_SCHEDULER, info.id);
        AllPushed(m, sp, mem, regs.rsp, f);
        SameOutsideWiden(m, mem, regs.rsp, sp, sched.low, sched.top);
        Dismiss(r, f);
      } else {
        SaveTask(Clobbered(r, info.id), m, sp, f);
      }
    }

    /** The way back into an interrupted scheduler. */
    method Dismiss(ghost r: Regs, ghost f: seq<int>)
      requires f == [r.rcx, r.rax, r.rflags] + InterruptFrame(r.rip, r.cs, r.rflags, r.rsp, r.ss)
      requires Holds(mem, regs.rsp, f)
      modifies this`regs
      ensures regs == old(regs).(rcx := r.rcx, rax := 0, rip := r.rip, cs := r.cs, rflags := r.rflags,
                                 rsp := r.rsp, ss := r.ss)
    {
      hide Holds;
      var v := Pop(f, 0);
      regs := regs.(rcx := v);
      v := Pop(f, 1);
      regs := regs.(rax := v);
      v := Pop(f, 2);
      regs := regs.(rflags := Cli(v));
      regs := regs.(rax := 0);
      assert f[3..] == InterruptFrame(r.rip, r.cs, r.rflags, r.rsp, r.ss) + [];
      Iretq(r, []);
    }

    /** The rest of the long frame, then into the scheduler. */
    method SaveTask(ghost r: Regs, ghost m: Memory, ghost sp: int, ghost f: seq<int>)
      requires f == [r.rcx, r.rax, r.rflags] + InterruptFrame(r.rip, r.cs, r.rflags, r.rsp, r.ss)
      requires Pushed(m, sp, mem, regs.rsp, f) && r == regs.(rsp := r.rsp)
      modifies this`regs, this`mem, this`phase, this`current
      ensures phase == Scheduling(sp - LONG_FRAME, Preempted) && current == SchedulerTask
      ensures Entered(sp - LONG_FRAME, Preempted)
      ensures Holds(mem, sp - LONG_FRAME,
                    StandardFrame(r) + ScratchFrame(r) + InterruptFrame(r.rip, r.cs, r.rflags, r.rsp, r.ss))
      ensures SameOutside(m, mem, sp - LONG_FRAME - INTERRUPT_FRAME, sp)
    {
      hide Holds, SameOutside, Pushed, Kernel.Entered;
      Push(regs.rdx, m, sp, f);
      Push(regs.rsi, m, sp, [r.rdx] + f);
      Push(regs.rdi, m, sp, [r.rsi] + ([r.rdx] + f));
      Push(regs.r8, m, sp, [r.rdi] + ([r.rsi] + ([r.rdx] + f)));
      Push(regs.r9, m, sp, [r.r8] + ([r.rdi] + ([r.rsi] + ([r.rdx] + f))));
      Push(regs.r10, m, sp, [r.r9] + ([r.r8] + ([r.rdi] + ([r.rsi] + ([r.rdx] + f)))));
      Push(regs.r11, m, sp, [r.r10] + ([r.r9] + ([r.r8] + ([r.rdi] + ([r.rsi] + ([r.rdx] + f))))));
      ghost var i := InterruptFrame(r.rip, r.cs, r.rflags, r.rsp, r.ss);
      assert [r.r11] + ([r.r10] + ([r.r9] + ([r.r8] + ([r.rdi] + ([r.rsi] + ([r.rdx] + f)))))) == ScratchFrame(r) + i;
      PushStandardFrame(m, sp, ScratchFrame(r) + i);
      assert StandardFrame(r) + (ScratchFrame(r) + i) == StandardFrame(r) + ScratchFrame(r) + i;
      EnterScheduler(Preempted, m, sp, StandardFrame(r) + ScratchFrame(r) + i);
    }

    // --- resume_task, run_scheduler, resume_scheduler, start_scheduler ---

    /** `btr` on the record's flag word: returns the flag and clears it. */
    method TestAndClear(t: nat) returns (carry: bool)
      requires t < |tasks|
      modifies this`tasks
      ensures carry == old(tasks[t].interrupted)
      ensures tasks == old(tasks)[t := old(tasks[t]).(interrupted := false)]
    {
      carry := tasks[t].interrupted;
      tasks := tasks[t := tasks[t].(interrupted := false)];
    }

    method ResumeTask(t: nat, ghost r: Regs)
      requires t < |tasks| && Restored(mem, tasks[t].sp, tasks[t].interrupted, r)
      modifies this
      ensures Restored(mem, old(tasks[t].sp), old(tasks[t].interrupted), regs)
      ensures Now() == old(Now()).(phase := Running, regs := regs, current := Spawned(t), stale := Spawned(t),
                                   tasks := old(tasks)[t := old(tasks[t]).(interrupted := false)])
    {
      hide Holds;
      ghost var sp, frame := tasks[t].sp, InterruptFrame(r.rip, r.cs, r.rflags, r.rsp, r.ss);
      regs := regs.(rsp := tasks[t].sp);
      current := Spawned(t);
      stale := Spawned(t);
      ghost var scratch := SplitFrame(mem, sp, tasks[t].interrupted, r);
      PopStandardFrame(r, scratch + frame);
      var carry := TestAndClear(t);
      if carry {
        PopScratch(r, scratch, frame);
        assert frame + [] == frame;
        Iretq(r, []);
      } else {
        assert scratch + frame == frame + [];
        Iretq(r, []);
      }
      phase := Running;
    }

    method PopScratch(ghost r: Regs, ghost f: seq<int>, ghost ws: seq<int>)
      requires |f| == 10 && f[..9] == [r.r11, r.r10, r.r9, r.r8, r.rdi, r.rsi, r.rdx, r.rcx, r.rax]
      requires Holds(mem, regs.rsp, f + ws)
      modifies this`regs
      ensures regs == old(regs).(rsp := old(regs.rsp) + 80, r11 := r.r11, r10 := r.r10, r9 := r.r9, r8 := r.r8,
                                 rdi := r.rdi, rsi := r.rsi, rdx := r.rdx, rcx := r.rcx, rax := r.rax,
                                 rflags := regs.rflags)
      ensures Holds(mem, regs.rsp, ws)
    {
      hide Holds;
      ghost var g := f + ws;
      assert forall i :: 0 <= i < 9 ==> g[i] == f[..9][i];
      var v := Pop(g, 0);
      regs := regs.(r11 := v);
      v := Pop(g, 1);
      regs := regs.(r10 := v);
      v := Pop(g, 2);
      regs := regs.(r9 := v);
      v := Pop(g, 3);
      regs := regs.(r8 := v);
      v := Pop(g, 4);
      regs := regs.(rdi := v);
      v := Pop(g, 5);
      regs := regs.(rsi := v);
      v := Pop(g, 6);
      regs := regs.(rdx := v);
      v := Pop(g, 7);
      regs := regs.(rcx := v);
      v := Pop(g, 8);
      regs := regs.(rax := v);
      v := Pop(g, 9);
      regs := regs.(rflags := v);
    }

    method RunScheduler()
      requires queue != [] ==>
                 var t := queue[0];
                 t < |tasks| && FrameAt(mem, tasks[t], tasks[t].sp, tasks[t].interrupted)
      modifies this
      ensures Runs(old(Now()), old(queue), old(tasks), Now())
    {
      hide Restored;
      if queue != [] {
        var t := queue[0];
        queue := queue[1..];
        ghost var r :| Restored(mem, tasks[t].sp, tasks[t].interrupted, r);
        ResumeTask(t, r);
      } else {
        phase := Idle;
      }
    }

    method ResumeScheduler()
      requires phase.Scheduling? && Inv(Now())
      modifies this
      ensures Dispatches(old(Now()), Now()) && Inv(Now())
    {
      hide Restored, IdsDistinct, FrameAt;
      var t := stale.n;
      ghost var s := Now();
      if phase.kind.Preempted? {
        tasks := tasks[t := tasks[t].(interrupted := true)];
      }
      queue := queue + [t];
      tasks := tasks[t := tasks[t].(sp := phase.released)];
      RequeueKeeps(s, queue, tasks);
      ghost var queued, records := queue, tasks;
      assert queue[0] in queue;
      RunScheduler();
      assert Dispatches(s, Now());
      DispatchKeeps(s, Now());
    }

    method StartScheduler()
      requires phase.Boot? && Inv(Now())
      modifies this
      ensures Starts(old(Now()), Now()) && Inv(Now())
    {
      hide Restored, IdsDistinct, FrameAt;
      ghost var s := Now();
      stale := SchedulerTask;
      current := SchedulerTask;
      assert queue != [] ==> queue[0] in queue;
      RunScheduler();
      StartKeeps(s, Now());
    }
  }

  /** The words between the callee-saved registers and the interrupt frame. */
  lemma SplitFrame(m: Memory, sp: int, interrupted: bool, r: Regs) returns (scratch: seq<int>)
    requires Restored(m, sp, interrupted, r)
    ensures Holds(m, sp, StandardFrame(r) + (scratch + InterruptFrame(r.rip, r.cs, r.rflags, r.rsp, r.ss)))
    ensures if interrupted
            then |scratch| == 10 && scratch[..9] == [r.r11, r.r10, r.r9, r.r8, r.rdi, r.rsi, r.rdx, r.rcx, r.rax]
            else scratch == []
  {
    hide Holds;
    var i := InterruptFrame(r.rip, r.cs, r.rflags, r.rsp, r.ss);
    if interrupted {
      var a := [r.r11, r.r10, r.r9, r.r8, r.rdi, r.rsi, r.rdx] + [r.rcx, r.rax];
      var w := m[sp + 8 * 15];
      scratch := a + [w];
      HoldsWord(m, sp + 8 * 15);
      HoldsConcat(m, sp + 8 * 15, [w], i);
      HoldsConcat(m, sp, StandardFrame(r) + a, [w] + i);
      assert StandardFrame(r) + [r.r11, r.r10, r.r9, r.r8, r.rdi, r.rsi, r.rdx] + [r.rcx, r.rax]
          == StandardFrame(r) + a;
      assert StandardFrame(r) + a + ([w] + i) == StandardFrame(r) + (scratch + i);
    } else {
      scratch := [];
      assert [] + i == i;
    }
  }
}
