/** The shell's main program, its signal handlers and the kernel, as interleaved steps.

    SIGCHLD, SIGINT and SIGTSTP each have a handler that blocks only its own signal, so handlers nest;
    `stack` has the running ones, innermost first, and only the innermost moves.  The SIGCHLD handler
    reaps a child in one step, with the other signals still open, and updates the table in another, with
    all of them blocked.  A keyboard handler looks up the foreground job in one step and kills its process
    group in another.  bg and fg look up a job in one step, with SIGCHLD still open, and act on it in
    another.  The kernel may end, stop or continue any child at any time, and a child gives itself a
    process group of its own some time after fork.

    The search of the table by a keyboard handler is one step although SIGCHLD may interrupt it: only
    deletejob could then interfere, and the search ends with a pid it could have found before, or with 0.
 */
module Shell {
  import opened JobTable

  /** `reported`: waitpid has already told about the stop. */
  datatype Status = Running | Halted(reported: bool) | Zombie(signaled: bool)

  /** A child that has not been reaped; `grouped`: it has made its own process group. */
  datatype Child = Child(status: Status, grouped: bool)

  /** Where the main program stands. */
  datatype Pc =
    | Prompt
    | Blocked(bg: bool)               // eval: SIGCHLD blocked, before fork
    | Forked(pid: int, bg: bool)      // child started, not yet listed
    | Listed(pid: int, bg: bool)      // after addjob, SIGCHLD still blocked
    | Found(slot: int, fg: bool)      // do_bgfg: job looked up, SIGCHLD not yet blocked
    | Resumed(slot: int)              // do_bgfg: SIGCHLD unblocked, job->pid not yet read for waitfg
    | WaitEnter(pid: int)             // waitfg called
    | WaitTest(pid: int)              // waitfg: SIGCHLD blocked, before the loop test
    | Asleep(pid: int)                // in sigsuspend
    | Dead                            // a call of kill has failed, and unix_error has ended the shell

  datatype Handler = Chld | Int | Tstp

  /** What the SIGCHLD handler has got from waitpid and not yet entered in the table. */
  datatype Held = Nothing | Got(report: Report)

  /** `aimInt` and `aimTstp` are the pids the keyboard handlers have found and not yet signalled, 0 for none.
      `dropped` remembers the children whose addjob found no free slot. */
  datatype State = State(t: Table, children: map<int, Child>, pending: bool,
                         stack: seq<Handler>, held: Held, aimInt: int, aimTstp: int,
                         pc: Pc, dropped: set<int>)

  datatype Step =
    | Command(bg: bool)
    | Fork(pid: int)
    | AddIt(cmdline: string)
    | Unblock
    | Find(slot: int, fg: bool)
    | BgFg
    | ReadPid
    | Block
    | Test
    | Deliver                         // SIGCHLD reaches its handler
    | Reap(pid: int, sig: int)
    | Update
    | Return
    | Key(h: Handler)                 // SIGINT or SIGTSTP reaches its handler, which calls fgpid
    | Kill
    | Exit(pid: int, signaled: bool)
    | Halt(pid: int)
    | Cont(pid: int)
    | Group(pid: int)

  /** Where the main program has SIGCHLD blocked. */
  predicate Masked(pc: Pc) {
    pc.Blocked? || pc.Forked? || pc.Listed? || pc.WaitTest?
  }

  /** Something waitpid(-1, WNOHANG|WUNTRACED) would report. */
  predicate Waitable(c: Child) {
    c.status.Zombie? || c.status == Halted(false)
  }

  predicate Inner(stack: seq<Handler>, h: Handler) {
    stack != [] && stack[0] == h
  }

  /** kill(-pid, ...) needs a process group; kill(0, ...) always has one. */
  predicate KillFails(children: map<int, Child>, pid: int) {
    pid != 0 && (pid !in children || !children[pid].grouped)
  }

  predicate Enabled(s: State, a: Step) {
    match a
    case Command(_) => s.stack == [] && s.pc.Prompt?
    case Fork(pid) => s.stack == [] && s.pc.Blocked? && pid >= 1 && pid !in s.children
    case AddIt(_) => s.stack == [] && s.pc.Forked?
    case Unblock => s.stack == [] && s.pc.Listed?
    case Find(slot, _) => s.stack == [] && s.pc.Prompt? && 0 <= slot < |s.t.jobs| && s.t.jobs[slot].pid != 0
    case BgFg => s.stack == [] && s.pc.Found? && 0 <= s.pc.slot < |s.t.jobs|
    case ReadPid => s.stack == [] && s.pc.Resumed? && 0 <= s.pc.slot < |s.t.jobs|
    case Block => s.stack == [] && s.pc.WaitEnter?
    case Test => s.stack == [] && s.pc.WaitTest?
    case Deliver => s.pending && Chld !in s.stack && !Masked(s.pc) && !s.pc.Dead?
    case Reap(pid, _) => Inner(s.stack, Chld) && s.held.Nothing? && !s.pc.Dead? &&
                         pid in s.children && Waitable(s.children[pid])
    case Update => Inner(s.stack, Chld) && s.held.Got? && !s.pc.Dead?
    case Return => Inner(s.stack, Chld) && s.held.Nothing? && !s.pc.Dead? &&
                   forall p :: p in s.children ==> !Waitable(s.children[p])
    case Key(h) => h != Chld && h !in s.stack && !s.pc.Dead?
    case Kill => s.stack != [] && s.stack[0] != Chld && !s.pc.Dead?
    case Exit(pid, _) => pid in s.children && !s.children[pid].status.Zombie?
    case Halt(pid) => pid in s.children && s.children[pid].status.Running?
    case Cont(pid) => pid in s.children && s.children[pid].status.Halted?
    case Group(pid) => pid in s.children && s.children[pid].status.Running?
  }

  /** SIGCONT. */
  function Continue(children: map<int, Child>, pid: int): map<int, Child> {
    if pid in children && children[pid].status.Halted?
    then children[pid := children[pid].(status := Running)]
    else children
  }

  /** The innermost handler returns; when the last one does, sigsuspend returns as well. */
  function Pop(s: State): State
    requires s.stack != []
  {
    s.(stack := s.stack[1..], pc := if |s.stack| == 1 && s.pc.Asleep? then WaitTest(s.pc.pid) else s.pc)
  }

  function Aim(s: State, h: Handler): int {
    if h == Int then s.aimInt else s.aimTstp
  }

  function SetAim(s: State, h: Handler, pid: int): State {
    if h == Int then s.(aimInt := pid) else s.(aimTstp := pid)
  }

  function Do(s: State, a: Step): State
    requires Enabled(s, a)
  {
    match a
    case Command(bg) => s.(pc := Blocked(bg))
    case Fork(pid) => s.(children := s.children[pid := Child(Running, false)], pc := Forked(pid, s.pc.bg))
    case AddIt(cmdline) =>
      s.(t := Add(s.t, s.pc.pid, if s.pc.bg then Bg else Fg, cmdline),
         dropped := if IndexOf(s.t.jobs, 0) < 0 then s.dropped + {s.pc.pid} else s.dropped,
         pc := Listed(s.pc.pid, s.pc.bg))
    case Unblock => s.(pc := if s.pc.bg then Prompt else WaitEnter(s.pc.pid))
    case Find(slot, fg) => s.(pc := Found(slot, fg))
    case BgFg =>
      var j := s.t.jobs[s.pc.slot];
      if KillFails(s.children, j.pid) then s.(pc := Dead)
      else
        s.(children := Continue(s.children, j.pid),
           pending := s.pending || Continue(s.children, j.pid) != s.children,
           t := s.t.(jobs := s.t.jobs[s.pc.slot := j.(state := if s.pc.fg then Fg else Bg)]),
           pc := if s.pc.fg then Resumed(s.pc.slot) else Prompt)
    case ReadPid => s.(pc := WaitEnter(s.t.jobs[s.pc.slot].pid))
    case Block => s.(pc := WaitTest(s.pc.pid))
    case Test => s.(pc := if s.pc.pid == FgPidOf(s.t.jobs) then Asleep(s.pc.pid) else Prompt)
    case Deliver => s.(pending := false, stack := [Chld] + s.stack)
    case Reap(pid, sig) =>
      (match s.children[pid].status
       case Zombie(signaled) =>
         s.(children := s.children - {pid}, dropped := s.dropped - {pid},
            held := Got(if signaled then Signaled(pid, sig) else Exited(pid)))
       case _ =>
         s.(children := s.children[pid := s.children[pid].(status := Halted(true))],
            held := Got(Stopped(pid, sig))))
    case Update => s.(t := Handle(s.t, s.held.report), held := Nothing)
    case Return => Pop(s)
    case Key(h) => SetAim(s, h, FgPidOf(s.t.jobs)).(stack := [h] + s.stack)
    case Kill =>
      if KillFails(s.children, Aim(s, s.stack[0])) then s.(pc := Dead)
      else Pop(SetAim(s, s.stack[0], 0))
    case Exit(pid, signaled) =>
      s.(children := s.children[pid := s.children[pid].(status := Zombie(signaled))], pending := true)
    case Halt(pid) =>
      s.(children := s.children[pid := s.children[pid].(status := Halted(false))], pending := true)
    case Cont(pid) =>
      s.(children := s.children[pid := s.children[pid].(status := Running)], pending := true)
    case Group(pid) => s.(children := s.children[pid := s.children[pid].(grouped := true)])
  }

  const START := State(EMPTY_TABLE, map[], false, [], Nothing, 0, 0, Prompt, {})

  ghost predicate Possible(s: State, run: seq<Step>)
    decreases |run|
  {
    run == [] || (Enabled(s, run[0]) && Possible(Do(s, run[0]), run[1..]))
  }

  ghost function After(s: State, run: seq<Step>): State
    requires Possible(s, run)
    decreases |run|
  {
    if run == [] then s else After(Do(s, run[0]), run[1..])
  }

  // ---------------------------------------------------------------- the invariant

  ghost predicate IsListed(jobs: seq<Job>, pid: int) {
    exists k :: 0 <= k < |jobs| && jobs[k].pid == pid
  }

  /** The handler holds the news that the process has ended. */
  predicate Gone(held: Held, pid: int) {
    held.Got? && held.report.pid == pid && !held.report.Stopped?
  }

  /** Every listed process is a child that has not been reaped, or the one whose report is held. */
  ghost predicate ListedAreChildren(jobs: seq<Job>, children: map<int, Child>, held: Held) {
    forall k :: 0 <= k < |jobs| && jobs[k].pid != 0 ==> jobs[k].pid in children || Gone(held, jobs[k].pid)
  }

  /** A job listed as running has not been reported stopped, unless that report is held. */
  ghost predicate RunningNotReported(jobs: seq<Job>, children: map<int, Child>, held: Held) {
    forall k | 0 <= k < |jobs| && (jobs[k].state == Fg || jobs[k].state == Bg) && jobs[k].pid in children ::
      children[jobs[k].pid].status == Halted(true) ==> held.Got? && held.report.pid == jobs[k].pid && held.report.Stopped?
  }

  /** The child that fork has just delivered, or 0. */
  function JustForked(pc: Pc): int {
    if pc.Forked? then pc.pid else 0
  }

  /** A child is listed unless it has just been forked or its addjob found no free slot. */
  ghost predicate ChildrenAreListed(jobs: seq<Job>, children: map<int, Child>, forked: int, dropped: set<int>) {
    && (forall p :: p in children ==> p >= 1 && (IsListed(jobs, p) <==> p != forked && p !in dropped))
    && (forall p :: p in dropped ==> p in children)
  }

  ghost predicate HeldOk(children: map<int, Child>, held: Held) {
    held.Got? ==> held.report.pid >= 1 && (held.report.Stopped? <==> held.report.pid in children)
  }

  ghost predicate NoFg(jobs: seq<Job>) {
    forall k :: 0 <= k < |jobs| ==> jobs[k].state != Fg
  }

  /** The only foreground job there can be is the one being waited for. */
  ghost predicate OnlyFg(jobs: seq<Job>, pid: int) {
    forall k :: 0 <= k < |jobs| && jobs[k].state == Fg ==> jobs[k].pid == pid
  }

  ghost predicate PcOk(jobs: seq<Job>, children: map<int, Child>, dropped: set<int>, pc: Pc, idle: bool) {
    match pc
    case Prompt => NoFg(jobs)
    case Blocked(_) => NoFg(jobs)
    case Forked(pid, _) => NoFg(jobs) && pid >= 1 && pid in children && pid !in dropped &&
                           children[pid].status != Halted(true)
    case Listed(pid, bg) => pid >= 1 && (if bg then NoFg(jobs) else OnlyFg(jobs, pid))
    case Found(slot, _) => NoFg(jobs) && 0 <= slot < |jobs|
    case Resumed(slot) => 0 <= slot < |jobs| && OnlyFg(jobs, jobs[slot].pid)
    case WaitEnter(pid) => pid >= 0 && OnlyFg(jobs, pid)
    case WaitTest(pid) => pid >= 0 && OnlyFg(jobs, pid)
    case Asleep(pid) => pid >= 0 && OnlyFg(jobs, pid) && (idle ==> FgPidOf(jobs) == pid)
    case Dead => true
  }

  /** Where the main program waits for `pid`, a keyboard handler can be aiming at that process only; where
      there is no foreground job, at none. */
  predicate AimFits(pc: Pc, aim: int) {
    match pc
    case Listed(pid, _) => aim == 0 || aim == pid
    case WaitEnter(pid) => aim == 0 || aim == pid
    case WaitTest(pid) => aim == 0 || aim == pid
    case Asleep(pid) => aim == 0 || aim == pid
    case Resumed(_) => true
    case Dead => true
    case _ => aim == 0
  }

  ghost predicate AimOk(jobs: seq<Job>, children: map<int, Child>, pc: Pc, aim: int) {
    AimFits(pc, aim) && (aim != 0 && aim in children ==> IsListed(jobs, aim))
  }

  ghost predicate StackOk(stack: seq<Handler>, held: Held, aimInt: int, aimTstp: int, masked: bool) {
    && (forall i, k :: 0 <= i < k < |stack| ==> stack[i] != stack[k])
    && (Chld !in stack ==> held.Nothing?)
    && (Int !in stack ==> aimInt == 0)
    && (Tstp !in stack ==> aimTstp == 0)
    && (masked ==> Chld !in stack)
  }

  ghost predicate SomethingComes(children: map<int, Child>, comes: bool) {
    forall p :: p in children && Waitable(children[p]) ==> comes
  }

  ghost predicate Inv(s: State) {
    && TableOk(s.t)
    && ListedAreChildren(s.t.jobs, s.children, s.held)
    && RunningNotReported(s.t.jobs, s.children, s.held)
    && ChildrenAreListed(s.t.jobs, s.children, JustForked(s.pc), s.dropped)
    && HeldOk(s.children, s.held)
    && StackOk(s.stack, s.held, s.aimInt, s.aimTstp, Masked(s.pc))
    && SomethingComes(s.children, s.pending || Chld in s.stack)
    && PcOk(s.t.jobs, s.children, s.dropped, s.pc, s.stack == [])
    && AimOk(s.t.jobs, s.children, s.pc, s.aimInt) && AimOk(s.t.jobs, s.children, s.pc, s.aimTstp)
  }

  lemma InvStart()
    ensures Inv(START)
  {
  }

  /** When fgpid names another process, or none, there is no foreground job. */
  lemma TestFailed(t: Table, pid: int)
    requires TableOk(t) && OnlyFg(t.jobs, pid) && FgPidOf(t.jobs) != pid
    ensures NoFg(t.jobs)
  {
    if k :| 0 <= k < |t.jobs| && t.jobs[k].state == Fg {
      FgPidFinds(t.jobs, k);
    }
  }

  lemma MainKeeps(s: State, a: Step)
    requires Inv(s) && Enabled(s, a)
    requires a.Command? || a.Fork? || a.Unblock? || a.Find? || a.ReadPid? || a.Block? || a.Test?
    ensures Inv(Do(s, a))
  {
    hide TableOk;
    if a.Test? && FgPidOf(s.t.jobs) != s.pc.pid {
      TestFailed(s.t, s.pc.pid);
    }
  }

  /** What adding a job does to the searches. */
  lemma AddLists(t: Table, pid: int, state: JobState, cmdline: string)
    requires TableOk(t) && pid >= 1
    ensures var u := Add(t, pid, state, cmdline);
      && |u.jobs| == |t.jobs|
      && (forall p :: p != 0 ==> (IsListed(u.jobs, p) <==> IsListed(t.jobs, p) || (p == pid && IndexOf(t.jobs, 0) >= 0)))
      && (forall k :: 0 <= k < |t.jobs| ==> u.jobs[k] == t.jobs[k] || (u.jobs[k].pid == pid && u.jobs[k].state == state))
  {
    var i, u := IndexOf(t.jobs, 0), Add(t, pid, state, cmdline);
    if i >= 0 {
      assert u.jobs[i].pid == pid;
      forall p | p != 0 ensures IsListed(u.jobs, p) <==> IsListed(t.jobs, p) || p == pid {
        if k :| 0 <= k < |t.jobs| && t.jobs[k].pid == p {
          assert u.jobs[k].pid == p;
        }
      }
    }
  }

  lemma NotListed(jobs: seq<Job>, pid: int)
    requires !IsListed(jobs, pid)
    ensures IndexOf(jobs, pid) < 0
  {
  }

  lemma AddKeeps(s: State, a: Step)
    requires Inv(s) && Enabled(s, a) && a.AddIt?
    ensures Inv(Do(s, a))
  {
    hide TableOk; hide Add; hide IsListed; hide IndexOf;
    NotListed(s.t.jobs, s.pc.pid);
    AddOk(s.t, s.pc.pid, if s.pc.bg then Bg else Fg, a.cmdline);
    AddLists(s.t, s.pc.pid, if s.pc.bg then Bg else Fg, a.cmdline);
    ForkedState(s);
  }

  lemma ForkedState(s: State)
    requires Inv(s) && s.pc.Forked? && s.stack == []
    ensures s.held.Nothing? && s.aimInt == 0 && s.aimTstp == 0
    ensures s.pc.pid in s.children && s.children[s.pc.pid].status != Halted(true) && NoFg(s.t.jobs)
  {
  }

  /** Writing a state into one slot. */
  lemma SetState(jobs: seq<Job>, slot: nat, state: JobState)
    requires slot < |jobs|
    ensures var u := jobs[slot := jobs[slot].(state := state)];
      && (forall k :: 0 <= k < |jobs| ==> u[k].pid == jobs[k].pid)
      && (forall p :: IsListed(u, p) <==> IsListed(jobs, p))
  {
    var u := jobs[slot := jobs[slot].(state := state)];
    forall p ensures IsListed(u, p) <==> IsListed(jobs, p) {
      if k :| 0 <= k < |jobs| && jobs[k].pid == p {
        assert u[k].pid == p;
      }
      if k :| 0 <= k < |u| && u[k].pid == p {
        assert jobs[k].pid == p;
      }
    }
  }

  lemma BgFgTable(t: Table, slot: nat, state: JobState)
    requires TableOk(t) && NoFg(t.jobs) && slot < |t.jobs| && (state == Fg || state == Bg)
    ensures TableOk(t.(jobs := t.jobs[slot := t.jobs[slot].(state := state)]))
  {
  }

  lemma BgFgKeeps(s: State, a: Step)
    requires Inv(s) && Enabled(s, a) && a.BgFg?
    ensures Inv(Do(s, a))
  {
    hide TableOk; hide IsListed;
    var slot := s.pc.slot;
    if !KillFails(s.children, s.t.jobs[slot].pid) {
      SetState(s.t.jobs, slot, if s.pc.fg then Fg else Bg);
      BgFgTable(s.t, slot, if s.pc.fg then Fg else Bg);
    }
  }

  /** waitpid takes an ended child away. */
  lemma GoneKnown(jobs: seq<Job>, children: map<int, Child>, forked: int, dropped: set<int>, held: Held)
    requires held.Got? && !held.report.Stopped? && held.report.pid >= 1
    requires ListedAreChildren(jobs, children, Nothing) && RunningNotReported(jobs, children, Nothing)
    requires ChildrenAreListed(jobs, children, forked, dropped)
    ensures var p := held.report.pid;
      && ListedAreChildren(jobs, children - {p}, held) && RunningNotReported(jobs, children - {p}, held)
      && ChildrenAreListed(jobs, children - {p}, forked, dropped - {p}) && HeldOk(children - {p}, held)
  {
    hide IsListed;
  }

  /** waitpid tells about a stopped child. */
  lemma StopKnown(jobs: seq<Job>, children: map<int, Child>, forked: int, dropped: set<int>, held: Held, c: Child)
    requires held.Got? && held.report.Stopped? && held.report.pid in children
    requires ListedAreChildren(jobs, children, Nothing) && RunningNotReported(jobs, children, Nothing)
    requires ChildrenAreListed(jobs, children, forked, dropped)
    ensures var p := held.report.pid;
      && ListedAreChildren(jobs, children[p := c], held) && RunningNotReported(jobs, children[p := c], held)
      && ChildrenAreListed(jobs, children[p := c], forked, dropped) && HeldOk(children[p := c], held)
  {
    hide IsListed;
  }

  lemma ChildPid(s: State, p: int)
    requires Inv(s) && p in s.children
    ensures p >= 1
  {
  }

  lemma ReapKeeps(s: State, a: Step)
    requires Inv(s) && Enabled(s, a) && a.Reap?
    ensures Inv(Do(s, a))
  {
    hide TableOk; hide IsListed; hide ListedAreChildren; hide RunningNotReported; hide ChildrenAreListed; hide HeldOk;
    hide NoFg; hide OnlyFg;
    ChildPid(s, a.pid);
    var held := Do(s, a).held;
    if s.children[a.pid].status.Zombie? {
      GoneKnown(s.t.jobs, s.children, JustForked(s.pc), s.dropped, held);
    } else {
      StopKnown(s.t.jobs, s.children, JustForked(s.pc), s.dropped, held,
                s.children[a.pid].(status := Halted(true)));
    }
  }

  lemma HandleLists(t: Table, r: Report)
    requires TableOk(t) && r.pid >= 1
    ensures forall p :: p != 0 ==> (IsListed(Handle(t, r).jobs, p) <==> IsListed(t.jobs, p) && (r.Stopped? || p != r.pid))
  {
    hide TableOk; hide Handle;
    HandleSlots(t, r);
    var u := Handle(t, r);
    forall p | p != 0 ensures IsListed(u.jobs, p) <==> IsListed(t.jobs, p) && (r.Stopped? || p != r.pid) {
      if k :| 0 <= k < |t.jobs| && t.jobs[k].pid == p && (r.Stopped? || p != r.pid) {
        assert u.jobs[k].pid == p;
      }
      if k :| 0 <= k < |u.jobs| && u.jobs[k].pid == p {
        assert t.jobs[k].pid == p;
      }
    }
  }

  lemma UpdateKeeps(s: State, a: Step)
    requires Inv(s) && Enabled(s, a) && a.Update?
    ensures Inv(Do(s, a))
  {
    hide TableOk; hide IsListed; hide Handle;
    HandleSlots(s.t, s.held.report);
    HandleLists(s.t, s.held.report);
  }

  lemma HandlersKeep(s: State, a: Step)
    requires Inv(s) && Enabled(s, a) && (a.Deliver? || a.Return?)
    ensures Inv(Do(s, a))
  {
    hide TableOk; hide IsListed;
  }

  /** What fgpid finds is listed, and being waited for. */
  lemma FoundFg(s: State)
    requires Inv(s) && FgPidOf(s.t.jobs) != 0
    ensures IsListed(s.t.jobs, FgPidOf(s.t.jobs)) && FgPidOf(s.t.jobs) > 0
    ensures s.pc.Listed? || s.pc.Resumed? || s.pc.WaitEnter? || s.pc.WaitTest? || s.pc.Asleep? || s.pc.Dead?
    ensures !s.pc.Resumed? && !s.pc.Dead? ==> FgPidOf(s.t.jobs) == s.pc.pid
  {
  }

  lemma Pushed(stack: seq<Handler>, held: Held, aimInt: int, aimTstp: int, masked: bool, h: Handler, aim: int)
    requires StackOk(stack, held, aimInt, aimTstp, masked) && h !in stack && h != Chld
    ensures StackOk([h] + stack, held, if h == Int then aim else aimInt, if h == Int then aimTstp else aim, masked)
    ensures Chld in [h] + stack <==> Chld in stack
  {
  }

  lemma Popped(stack: seq<Handler>, held: Held, aimInt: int, aimTstp: int, masked: bool)
    requires StackOk(stack, held, aimInt, aimTstp, masked) && stack != [] && stack[0] != Chld
    ensures var h := stack[0];
            StackOk(stack[1..], held, if h == Int then 0 else aimInt, if h == Int then aimTstp else 0, masked)
    ensures Chld in stack[1..] <==> Chld in stack
    ensures |stack| == 1 ==> Chld !in stack
  {
    var h := stack[0];
    assert stack == [h] + stack[1..];
    assert h !in stack[1..];
  }

  lemma KeyKeeps(s: State, a: Step)
    requires Inv(s) && Enabled(s, a) && a.Key?
    ensures Inv(Do(s, a))
  {
    hide TableOk; hide IsListed; hide ListedAreChildren; hide RunningNotReported; hide ChildrenAreListed; hide HeldOk;
    hide NoFg; hide OnlyFg; hide StackOk; hide SomethingComes; hide FgPidOf;
    Pushed(s.stack, s.held, s.aimInt, s.aimTstp, Masked(s.pc), a.h, FgPidOf(s.t.jobs));
    if FgPidOf(s.t.jobs) != 0 {
      FoundFg(s);
    }
  }

  lemma KillEnds(s: State, a: Step)
    requires Inv(s) && Enabled(s, a) && a.Kill? && KillFails(s.children, Aim(s, s.stack[0]))
    ensures Inv(Do(s, a))
  {
    hide TableOk; hide IsListed; hide ListedAreChildren; hide RunningNotReported; hide ChildrenAreListed; hide HeldOk;
    hide NoFg; hide OnlyFg; hide StackOk; hide SomethingComes; hide FgPidOf; hide KillFails;
    FailingAim(s.children, Aim(s, s.stack[0]));
    DeadStack(s);
  }

  lemma KillWorks(s: State, a: Step)
    requires Inv(s) && Enabled(s, a) && a.Kill? && !KillFails(s.children, Aim(s, s.stack[0]))
    ensures Inv(Do(s, a))
  {
    hide TableOk; hide IsListed; hide ListedAreChildren; hide RunningNotReported; hide ChildrenAreListed; hide HeldOk;
    hide NoFg; hide OnlyFg; hide StackOk; hide SomethingComes; hide FgPidOf; hide KillFails;
    Popped(s.stack, s.held, s.aimInt, s.aimTstp, Masked(s.pc));
    WokenStack(s.stack[1..], s.held);
  }

  lemma KillKeeps(s: State, a: Step)
    requires Inv(s) && Enabled(s, a) && a.Kill?
    ensures Inv(Do(s, a))
  {
    hide Inv; hide Do;
    if KillFails(s.children, Aim(s, s.stack[0])) {
      KillEnds(s, a);
    } else {
      KillWorks(s, a);
    }
  }

  lemma FailingAim(children: map<int, Child>, aim: int)
    ensures KillFails(children, aim) ==> aim != 0
  {
  }

  lemma DeadStack(s: State)
    requires StackOk(s.stack, s.held, s.aimInt, s.aimTstp, Masked(s.pc))
    requires ChildrenAreListed(s.t.jobs, s.children, JustForked(s.pc), s.dropped) && s.stack != []
    ensures StackOk(s.stack, s.held, s.aimInt, s.aimTstp, Masked(Dead))
  {
  }

  lemma WokenStack(stack: seq<Handler>, held: Held)
    ensures stack == [] && held.Nothing? ==> StackOk(stack, held, 0, 0, true)
  {
  }

  /** A child changes by itself. */
  lemma ChangeKnown(jobs: seq<Job>, children: map<int, Child>, forked: int, dropped: set<int>, held: Held, p: int, c: Child)
    requires p in children && (c.status != Halted(true) || c.status == children[p].status)
    requires ListedAreChildren(jobs, children, held) && RunningNotReported(jobs, children, held)
    requires ChildrenAreListed(jobs, children, forked, dropped) && HeldOk(children, held)
    ensures ListedAreChildren(jobs, children[p := c], held) && RunningNotReported(jobs, children[p := c], held)
    ensures ChildrenAreListed(jobs, children[p := c], forked, dropped) && HeldOk(children[p := c], held)
  {
    hide IsListed;
  }

  lemma KernelKeeps(s: State, a: Step)
    requires Inv(s) && Enabled(s, a) && (a.Exit? || a.Halt? || a.Cont? || a.Group?)
    ensures Inv(Do(s, a))
  {
    hide TableOk; hide IsListed; hide ListedAreChildren; hide RunningNotReported; hide ChildrenAreListed; hide HeldOk;
    hide NoFg; hide OnlyFg; hide StackOk; hide FgPidOf;
    ChangeKnown(s.t.jobs, s.children, JustForked(s.pc), s.dropped, s.held, a.pid, Do(s, a).children[a.pid]);
  }

  lemma StepKeeps(s: State, a: Step)
    requires Inv(s) && Enabled(s, a)
    ensures Inv(Do(s, a))
  {
    hide Inv; hide Do; hide Enabled;
    match a {
      case AddIt(_) => AddKeeps(s, a);
      case BgFg => BgFgKeeps(s, a);
      case Reap(_, _) => ReapKeeps(s, a);
      case Update => UpdateKeeps(s, a);
      case Deliver => HandlersKeep(s, a);
      case Return => HandlersKeep(s, a);
      case Key(_) => KeyKeeps(s, a);
      case Kill => KillKeeps(s, a);
      case Exit(_, _) => KernelKeeps(s, a);
      case Halt(_) => KernelKeeps(s, a);
      case Cont(_) => KernelKeeps(s, a);
      case Group(_) => KernelKeeps(s, a);
      case _ => MainKeeps(s, a);
    }
  }

  lemma {:induction false} RunKeeps(s: State, run: seq<Step>)
    requires Inv(s) && Possible(s, run)
    ensures Inv(After(s, run))
    decreases |run|
  {
    hide Inv;
    if run != [] {
      StepKeeps(s, run[0]);
      RunKeeps(Do(s, run[0]), run[1..]);
    }
  }
}
