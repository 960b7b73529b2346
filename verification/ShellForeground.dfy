/** Foreground and background: what a command, bg and fg do to the table, and how long the shell waits. */
module ShellForeground {
  import opened JobTable
  import opened Shell
  import opened ShellSafety
  import opened ShellWaits

  // ---------------------------------------------------------------- single steps

  /** A command takes the first free slot, in the foreground unless it ends in &; the other jobs stay as they are. */
  lemma CommandLists(s: State, a: Step, k: int)
    requires Inv(s) && Enabled(s, a) && a.AddIt? && FirstFree(s.t.jobs, k)
    ensures var s' := Do(s, a);
      && s'.t.jobs == s.t.jobs[k := Job(s.pc.pid, s.t.nextjid, if s.pc.bg then Bg else Fg, a.cmdline)]
      && s'.pc == Listed(s.pc.pid, s.pc.bg) && s'.children == s.children && s'.dropped == s.dropped
  {
  }

  /** With a full table the command is not listed, and the shell does not wait for it. */
  lemma FullTable(s: State, cmdline: string)
    requires Inv(s) && s.stack == [] && s.pc.Forked? && forall k :: 0 <= k < |s.t.jobs| ==> s.t.jobs[k].pid != 0
    ensures var run := if s.pc.bg then [AddIt(cmdline), Unblock] else [AddIt(cmdline), Unblock, Block, Test];
      Possible(s, run) && After(s, run).pc == Prompt && After(s, run).t.jobs == s.t.jobs
  {
    hide TableOk; hide Possible; hide After; hide FgPidOf; hide IsListed;
    var s1 := Do(s, AddIt(cmdline));
    var s2 := Do(s1, Unblock);
    assert s1.t == s.t && FgPidOf(s.t.jobs) == 0;
    ForkedPid(s);
    if s.pc.bg {
      OneStep(s1, Unblock);
      Before(s, AddIt(cmdline), [Unblock]);
      assert [AddIt(cmdline)] + [Unblock] == [AddIt(cmdline), Unblock];
    } else {
      OneStep(Do(s2, Block), Test);
      Before(s2, Block, [Test]);
      Before(s1, Unblock, [Block] + [Test]);
      Before(s, AddIt(cmdline), [Unblock] + ([Block] + [Test]));
      assert [AddIt(cmdline)] + ([Unblock] + ([Block] + [Test])) == [AddIt(cmdline), Unblock, Block, Test];
    }
  }

  lemma OneStep(s: State, a: Step)
    requires Enabled(s, a)
    ensures Possible(s, [a]) && After(s, [a]) == Do(s, a)
  {
    assert [a][1..] == [];
  }

  /** bg and fg, unless kill fails: the job is marked as asked for and the others stay as they are; its child does not
      stay halted, and if it was, a SIGCHLD comes; fg goes on to wait, bg to the prompt. */
  lemma BgFgActs(s: State)
    requires Inv(s) && Enabled(s, BgFg) && !Do(s, BgFg).pc.Dead?
    ensures var s', slot, fg := Do(s, BgFg), s.pc.slot, s.pc.fg;
      var j := s.t.jobs[slot];
      && s'.t == s.t.(jobs := s.t.jobs[slot := Job(j.pid, j.jid, if fg then Fg else Bg, j.cmdline)])
      && s'.pc == (if fg then Resumed(slot) else Prompt)
      && s'.children.Keys == s.children.Keys
      && (forall p :: p in s.children ==>
           if p == j.pid && s.children[p].status.Halted? then s'.children[p].status == Running && s'.pending
           else s'.children[p] == s.children[p])
  {
  }

  /** ctrl-c and ctrl-z are for the foreground job, if there is one. */
  lemma KeyAims(s: State, h: Handler)
    requires Inv(s) && Enabled(s, Key(h))
    ensures var s' := Do(s, Key(h));
      && s'.t == s.t && s'.children == s.children && s'.stack == [h] + s.stack
      && (forall k :: 0 <= k < |s.t.jobs| && s.t.jobs[k].state == Fg ==> Aim(s', h) == s.t.jobs[k].pid)
      && (NoFg(s.t.jobs) ==> Aim(s', h) == 0)
  {
    forall k | 0 <= k < |s.t.jobs| && s.t.jobs[k].state == Fg ensures FgPidOf(s.t.jobs) == s.t.jobs[k].pid {
      FgPidFinds(s.t.jobs, k);
    }
  }

  // ---------------------------------------------------------------- the wait for the foreground job

  /** The process has left the table, or its job is marked stopped. */
  ghost predicate LeftOrStopped(jobs: seq<Job>, pid: int) {
    forall k :: 0 <= k < |jobs| && jobs[k].pid == pid ==> jobs[k].state == St
  }

  /** In the course of the run the handler enters a report about the process, and with it the process leaves the table
      or is marked stopped. */
  ghost predicate Reported(s: State, run: seq<Step>, pid: int)
    requires Possible(s, run)
    decreases |run|
  {
    run != [] &&
    ((run[0].Update? && s.held.report.pid == pid && LeftOrStopped(Do(s, run[0]).t.jobs, pid)) ||
     Reported(Do(s, run[0]), run[1..], pid))
  }

  /** The shell is on the way to wait, or waits, for the job in slot `k`. */
  ghost predicate WaitsFor(s: State, k: int, pid: int) {
    && 0 <= k < |s.t.jobs| && s.t.jobs[k].state == Fg && s.t.jobs[k].pid == pid != 0
    && (s.pc.Listed? || s.pc.Resumed? || s.pc.WaitEnter? || s.pc.WaitTest? || s.pc.Asleep?)
    && if s.pc.Resumed? then s.pc.slot == k else s.pc.pid == pid
  }

  lemma UpdateSettles(s: State)
    requires Inv(s) && Enabled(s, Update)
    ensures LeftOrStopped(Do(s, Update).t.jobs, s.held.report.pid)
    ensures forall k :: 0 <= k < |s.t.jobs| && s.t.jobs[k].pid != s.held.report.pid ==>
              |Do(s, Update).t.jobs| == |s.t.jobs| && Do(s, Update).t.jobs[k] == s.t.jobs[k]
  {
    HandleSlots(s.t, s.held.report);
  }

  lemma TestPasses(s: State, k: int, pid: int)
    requires Inv(s) && WaitsFor(s, k, pid)
    ensures FgPidOf(s.t.jobs) == pid
  {
    FgPidFinds(s.t.jobs, k);
  }

  /** Nothing but a report about the process ends the wait; only a failing kill, which ends the shell. */
  lemma StillWaits(s: State, a: Step, k: int, pid: int)
    requires Inv(s) && Enabled(s, a) && WaitsFor(s, k, pid) && !(a.Update? && s.held.report.pid == pid)
    ensures Do(s, a).pc.Dead? || WaitsFor(Do(s, a), k, pid)
  {
    hide Inv; hide Handle; hide FgPidOf; hide Add; hide IndexOf; hide LeftOrStopped; hide KillFails; hide Continue;
    hide Aim; hide Waitable;
    if a.Update? {
      UpdateSettles(s);
    } else if a.Test? {
      TestPasses(s, k, pid);
    } else if a.Unblock? {
      ListedFg(s, k, pid);
    } else {
      Elsewhere(s, a, k, pid);
    }
  }

  /** The steps that touch neither the table nor what the main program waits for. */
  lemma Elsewhere(s: State, a: Step, k: int, pid: int)
    requires Enabled(s, a) && WaitsFor(s, k, pid) && !a.Update? && !a.Test? && !a.Unblock?
    ensures Do(s, a).pc.Dead? || WaitsFor(Do(s, a), k, pid)
  {
    hide FgPidOf; hide KillFails; hide Continue; hide Waitable;
    assert Do(s, a).t == s.t;
  }

  lemma ListedFg(s: State, k: int, pid: int)
    requires Inv(s) && WaitsFor(s, k, pid)
    ensures s.pc.Listed? ==> !s.pc.bg
  {
  }

  lemma {:induction false} DeadForever(s: State, run: seq<Step>)
    requires s.pc.Dead? && Possible(s, run)
    ensures After(s, run).pc.Dead?
    decreases |run|
  {
    if run != [] {
      DeadForever(Do(s, run[0]), run[1..]);
    }
  }

  /** The shell that waits for a job gets back to its prompt only after a report that the job has ended or stopped. */
  lemma {:induction false} WaitsForReport(s: State, run: seq<Step>, k: int, pid: int)
    requires Inv(s) && Possible(s, run) && WaitsFor(s, k, pid) && After(s, run).pc.Prompt?
    ensures Reported(s, run, pid)
    decreases |run|
  {
    hide Inv; hide Do; hide Enabled; hide WaitsFor; hide LeftOrStopped;
    UpdateHolds(s, run);
    if run == [] {
      NotAtPrompt(s, k, pid);
    } else if run[0].Update? && s.held.Got? && s.held.report.pid == pid {
      UpdateSettles(s);
    } else {
      StillWaits(s, run[0], k, pid);
      StepKeeps(s, run[0]);
      if Do(s, run[0]).pc.Dead? {
        DeadForever(Do(s, run[0]), run[1..]);
      } else {
        WaitsForReport(Do(s, run[0]), run[1..], k, pid);
      }
    }
  }

  lemma UpdateHolds(s: State, run: seq<Step>)
    requires Possible(s, run)
    ensures run != [] && run[0].Update? ==> s.held.Got?
  {
  }

  lemma NotAtPrompt(s: State, k: int, pid: int)
    requires WaitsFor(s, k, pid)
    ensures !s.pc.Prompt?
  {
  }

  /** In every run: a command in the foreground that found a free slot, and a job that fg has found in the table, keep
      the shell from its prompt until it is told that they have ended or stopped. */
  lemma ForegroundWaits(before: seq<Step>, a: Step, after: seq<Step>, k: int)
    requires Possible(START, before) && Enabled(After(START, before), a) && Possible(Do(After(START, before), a), after)
    requires var s := After(START, before);
      if a.AddIt? then !s.pc.bg && FirstFree(s.t.jobs, k)
      else a.BgFg? && s.pc.fg && k == s.pc.slot && s.t.jobs[k].pid != 0
    requires After(Do(After(START, before), a), after).pc.Prompt?
    ensures var s := After(START, before);
      Reported(Do(s, a), after, if a.AddIt? then s.pc.pid else s.t.jobs[k].pid)
  {
    hide Inv; hide Possible; hide After; hide Reported;
    var s := After(START, before);
    InvStart();
    RunKeeps(START, before);
    StepKeeps(s, a);
    if Do(s, a).pc.Dead? {
      DeadForever(Do(s, a), after);
    } else if a.AddIt? {
      CommandLists(s, a, k);
      ForkedPid(s);
      assert WaitsFor(Do(s, a), k, s.pc.pid);
      WaitsForReport(Do(s, a), after, k, s.pc.pid);
    } else {
      BgFgActs(s);
      assert WaitsFor(Do(s, a), k, s.t.jobs[k].pid);
      WaitsForReport(Do(s, a), after, k, s.t.jobs[k].pid);
    }
  }

  lemma ForkedPid(s: State)
    requires Inv(s) && s.pc.Forked?
    ensures s.pc.pid != 0
  {
  }

  // ---------------------------------------------------------------- reports are true

  /** What the children's states and the held report say has happened in the run `past`. */
  ghost predicate TrueOf(children: map<int, Child>, held: Held, past: seq<Step>) {
    && (forall p :: p in children && children[p].status.Halted? ==> Halt(p) in past)
    && (forall p :: p in children && children[p].status.Zombie? ==> Exit(p, children[p].status.signaled) in past)
    && (held.Got? && held.report.Exited? ==> Exit(held.report.pid, false) in past)
    && (held.Got? && held.report.Signaled? ==> Exit(held.report.pid, true) in past)
    && (held.Got? && held.report.Stopped? ==> Halt(held.report.pid) in past)
  }

  lemma ContinueIs(children: map<int, Child>, pid: int)
    ensures Continue(children, pid).Keys == children.Keys
    ensures forall p :: p in children ==>
              Continue(children, pid)[p] == children[p] || Continue(children, pid)[p].status == Running
  {
  }

  lemma NoNews(children: map<int, Child>, held: Held, children': map<int, Child>, held': Held, past: seq<Step>, a: Step)
    requires TrueOf(children, held, past) && (held' == held || held'.Nothing?)
    requires forall p :: p in children' ==> children'[p].status == Running || (p in children && children'[p] == children[p])
    ensures TrueOf(children', held', past + [a])
  {
    assert forall b :: b in past ==> b in past + [a];
  }

  /** The kernel's steps and waitpid. */
  lemma ChangeIsTrue(s: State, a: Step, past: seq<Step>)
    requires Enabled(s, a) && TrueOf(s.children, s.held, past) && (a.Exit? || a.Halt? || a.Cont? || a.Group? || a.Reap?)
    ensures TrueOf(Do(s, a).children, Do(s, a).held, past + [a])
  {
    assert a in past + [a] && forall b :: b in past ==> b in past + [a];
  }

  lemma StepIsTrue(s: State, a: Step, past: seq<Step>)
    requires Enabled(s, a) && TrueOf(s.children, s.held, past)
    ensures TrueOf(Do(s, a).children, Do(s, a).held, past + [a])
  {
    hide Handle; hide Add; hide FgPidOf; hide IndexOf; hide Continue; hide KillFails; hide Waitable; hide TrueOf;
    if a.Exit? || a.Halt? || a.Cont? || a.Group? || a.Reap? {
      ChangeIsTrue(s, a, past);
    } else {
      if a.BgFg? {
        ContinueIs(s.children, s.t.jobs[s.pc.slot].pid);
      }
      NoNews(s.children, s.held, Do(s, a).children, Do(s, a).held, past, a);
    }
  }

  lemma {:induction false} RunIsTrue(s: State, past: seq<Step>, run: seq<Step>)
    requires Possible(s, run) && TrueOf(s.children, s.held, past)
    ensures TrueOf(After(s, run).children, After(s, run).held, past + run)
    decreases |run|
  {
    hide Do; hide Enabled; hide TrueOf;
    if run == [] {
      assert past + run == past;
    } else {
      StepIsTrue(s, run[0], past);
      RunIsTrue(Do(s, run[0]), past + [run[0]], run[1..]);
      assert past + [run[0]] + run[1..] == past + run;
    }
  }

  /** In every run, what the handler enters has happened: it reports an exit, a death by a signal or a stop only of a
      process that has exited, died or stopped so. */
  lemma ReportsAreTrue(run: seq<Step>)
    requires Possible(START, run)
    ensures TrueOf(After(START, run).children, After(START, run).held, run)
  {
    RunIsTrue(START, [], run);
    assert [] + run == run;
  }
}
