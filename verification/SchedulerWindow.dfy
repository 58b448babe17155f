/** The window in `resume_task`: interrupts are on while the frame is being
    popped, and until the flag that tells its form has been read and cleared. */
module SchedulerWindow {
  import opened Cpu
  import opened SchedulerModel
  import opened SchedulerRuns

  ghost function WithFlag(s: State, t: nat, interrupted: bool): State
    requires t < |s.tasks|
  {
    s.(tasks := s.tasks[t := s.tasks[t].(interrupted := interrupted)])
  }

  /** `resume_task` has made `t` the current task and is popping its frame, but has
      not read the flag. */
  ghost predicate InWindow(s: State, t: nat)
  {
    t < |s.tasks| && RunsTask(s, t) && Inv(WithFlag(s, t, false))
  }

  /** Every resumption passes through such states: the state it ends in, with the
      flag not yet cleared and the stack pointer anywhere in the task's stack. */
  lemma WindowOpens(s: State, t: nat, regs: Regs, interrupted: bool)
    requires Inv(s) && t < |s.tasks| && RunsTask(s, t)
    requires s.tasks[t].low <= regs.rsp <= s.tasks[t].top
    ensures InWindow(WithFlag(s.(regs := regs), t, interrupted), t)
  {
    hide FrameAt, IdsDistinct;
    var w := WithFlag(s.(regs := regs), t, interrupted);
    assert WithFlag(w, t, false) == s.(regs := regs);
  }

  /** The scheduler has been entered from `t` by a timer interrupt. */
  ghost predicate ReleasedBy(s: State, t: nat)
  {
    s.phase.Scheduling? && s.phase.kind.Preempted? && s.stale == Spawned(t) && t < |s.tasks|
  }

  /** Until the dispatch the flag makes no difference, ... */
  lemma FlagUnread(l: Labels, s: State, e: Event, s': State, t: nat)
    requires ReleasedBy(s, t) && s.current == SchedulerTask && Next(l, s, e, s')
    ensures e == Timer || e == Execute || e == Dispatch
    ensures e != Dispatch ==>
              && ReleasedBy(s', t) && s'.current == SchedulerTask
              && Next(l, WithFlag(s, t, false), e, WithFlag(s', t, false))
    ensures e == Dispatch ==> Next(l, WithFlag(s, t, false), e, s')
  {
    hide Restored, SameOutside, SameWithin;
    if e == Dispatch {
      FlagSet(s, s', t);
    }
  }

  /** ... and the dispatch sets it. */
  lemma FlagSet(s: State, s': State, t: nat)
    requires ReleasedBy(s, t) && Dispatches(s, s')
    ensures Dispatches(WithFlag(s, t, false), s')
  {
    hide Restored;
    var u := WithFlag(s, t, false);
    var info := s.tasks[t].(sp := s.phase.released, interrupted := true);
    assert u.tasks[t := info] == s.tasks[t := info];
  }

  lemma WindowInterrupted(l: Labels, s: State, s': State, t: nat)
    requires InWindow(s, t) && Next(l, s, Timer, s')
    ensures ReleasedBy(s', t) && s'.current == SchedulerTask
    ensures Next(l, WithFlag(s, t, false), Timer, WithFlag(s', t, false))
  {
    hide Holds, SameOutside, FramesReady, ExactlyOnce, StacksApart, IdsDistinct;
  }

  /** The same run with the flag clear up to the first dispatch. */
  lemma SameRunUnflagged(l: Labels, ss: seq<State>, es: seq<Event>, t: nat) returns (us: seq<State>)
    requires Trace(l, ss, es) && InWindow(ss[0], t) && |es| > 0 && es[0] == Timer && RunsTask(ss[|es|], t)
    ensures Trace(l, us, es) && us[0] == WithFlag(ss[0], t, false) && us[|es|] == ss[|es|]
    ensures forall j :: 0 <= j <= |es| ==> us[j].mem == ss[j].mem && (RunsTask(us[j], t) <==> RunsTask(ss[j], t))
  {
    hide Next, Inv;
    WindowInterrupted(l, ss[0], ss[1], t);
    var d := 1;
    us := [WithFlag(ss[0], t, false), WithFlag(ss[1], t, false)];
    while es[d] != Dispatch
      invariant 1 <= d < |es| && |us| == d + 1
      invariant ReleasedBy(ss[d], t) && ss[d].current == SchedulerTask && us[d] == WithFlag(ss[d], t, false)
      invariant us[0] == WithFlag(ss[0], t, false) && Trace(l, us, es[..d])
      invariant forall j :: 0 <= j <= d ==> us[j].mem == ss[j].mem && (RunsTask(us[j], t) <==> RunsTask(ss[j], t))
      decreases |es| - d
    {
      FlagUnread(l, ss[d], es[d], ss[d + 1], t);
      us := us + [WithFlag(ss[d + 1], t, false)];
      d := d + 1;
    }
    FlagUnread(l, ss[d], es[d], ss[d + 1], t);
    us := us + ss[d + 1..];
  }

  /** A timer interrupt in the window: the task comes back to it as after any
      preemption, but with the flag clear. */
  lemma WindowRoundTrip(l: Labels, ss: seq<State>, es: seq<Event>, t: nat)
    requires Trace(l, ss, es) && InWindow(ss[0], t) && |es| > 0 && es[0] == Timer
    requires RunsTask(ss[|es|], t) && forall j :: 0 < j < |es| ==> !RunsTask(ss[j], t)
    ensures t < |ss[|es|].tasks| && !ss[|es|].tasks[t].interrupted
    ensures ss[|es|].regs == Clobbered(ss[0].regs, ss[0].tasks[t].id)
    ensures SameWithin(ss[0].mem, ss[|es|].mem, ss[0].regs.rsp, ss[0].tasks[t].top)
  {
    hide Next, ExactlyOnce, FramesReady, StacksApart, IdsDistinct, SameWithin;
    var us := SameRunUnflagged(l, ss, es, t);
    PreemptRoundTrip(l, us, es, t);
    TraceKeeps(l, us, es, |es|);
  }

  /** What the rest of `resume_task` pops at `rsp`, going by the flag. */
  ghost predicate Continues(m: Memory, rsp: int, interrupted: bool, r: Regs)
  {
    var i := InterruptFrame(r.rip, r.cs, r.rflags, r.rsp, r.ss);
    if interrupted
    then Holds(m, rsp, [r.r11, r.r10, r.r9, r.r8, r.rdi, r.rsi, r.rdx, r.rcx, r.rax]) && Holds(m, rsp + 80, i)
    else Holds(m, rsp, i)
  }

  /** So a task interrupted right before its flag is read continues where it should
      if it had yielded. One that had been preempted is sent to the address in its
      r11, with the stack pointer in its r8. */
  lemma WindowMisreads(l: Labels, ss: seq<State>, es: seq<Event>, t: nat, r: Regs, q: Regs)
    requires Trace(l, ss, es) && InWindow(ss[0], t) && |es| > 0 && es[0] == Timer
    requires RunsTask(ss[|es|], t) && forall j :: 0 < j < |es| ==> !RunsTask(ss[j], t)
    requires ss[0].regs.rsp + 40 <= ss[0].tasks[t].top
    requires Continues(ss[0].mem, ss[0].regs.rsp, ss[0].tasks[t].interrupted, r)
    requires t < |ss[|es|].tasks| && Continues(ss[|es|].mem, ss[|es|].regs.rsp, ss[|es|].tasks[t].interrupted, q)
    ensures InterruptFrame(q.rip, q.cs, q.rflags, q.rsp, q.ss)
            == if ss[0].tasks[t].interrupted then [r.r11, r.r10, r.r9, r.r8, r.rdi]
               else InterruptFrame(r.rip, r.cs, r.rflags, r.rsp, r.ss)
  {
    hide Next, Inv;
    WindowRoundTrip(l, ss, es, t);
    var m, sp := ss[0].mem, ss[0].regs.rsp;
    var ws := InterruptFrame(r.rip, r.cs, r.rflags, r.rsp, r.ss);
    if ss[0].tasks[t].interrupted {
      ws := [r.r11, r.r10, r.r9, r.r8, r.rdi];
      HoldsConcat(m, sp, ws, [r.rsi, r.rdx, r.rcx, r.rax]);
      assert ws + [r.rsi, r.rdx, r.rcx, r.rax] == [r.r11, r.r10, r.r9, r.r8, r.rdi, r.rsi, r.rdx, r.rcx, r.rax];
    }
    HoldsKept(m, ss[|es|].mem, sp, ws);
    HoldsUnique(ss[|es|].mem, sp, ws, InterruptFrame(q.rip, q.cs, q.rflags, q.rsp, q.ss));
  }
}
