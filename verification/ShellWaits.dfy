/** When a wait of the shell for its foreground job can end. */
module ShellWaits {
  import opened JobTable
  import opened Shell
  import opened ShellSafety

  /** One more step in front of a run. */
  lemma Before(s: State, a: Step, run: seq<Step>)
    requires Enabled(s, a) && Possible(Do(s, a), run)
    ensures Possible(s, [a] + run) && After(s, [a] + run) == After(Do(s, a), run)
  {
    hide Enabled; hide Do;
    assert ([a] + run)[1..] == run;
  }

  /** The shell can get back to its prompt. */
  ghost predicate CanReturn(s: State) {
    exists run :: Possible(s, run) && After(s, run).pc == Prompt
  }

  lemma AtPrompt(s: State)
    requires s.pc == Prompt
    ensures CanReturn(s)
  {
    assert Possible(s, []);
  }

  lemma StepBack(s: State, a: Step)
    requires Enabled(s, a) && CanReturn(Do(s, a))
    ensures CanReturn(s)
  {
    hide Enabled; hide Do; hide Possible; hide After;
    var run :| Possible(Do(s, a), run) && After(Do(s, a), run).pc == Prompt;
    Before(s, a, run);
  }

  lemma TestReturns(s: State)
    requires s.stack == [] && s.pc.WaitTest? && FgPidOf(s.t.jobs) != s.pc.pid
    ensures CanReturn(s)
  {
    AtPrompt(Do(s, Test));
    StepBack(s, Test);
  }

  ghost function Work(s: State): set<int> {
    set p | p in s.children && Waitable(s.children[p])
  }

  lemma ReapLessWork(s: State, p: int)
    requires Enabled(s, Reap(p, 0))
    ensures |Work(Do(s, Reap(p, 0)))| < |Work(s)|
  {
    assert Work(Do(s, Reap(p, 0))) == Work(s) - {p};
    assert p in Work(s);
  }

  lemma UpdateSameWork(s: State)
    requires Enabled(s, Update)
    ensures Work(Do(s, Update)) == Work(s)
  {
  }

  /** Nothing is left to reap, and the process waited for is gone: the handler returns and so does the wait. */
  lemma LastReturns(s: State)
    requires Inv(s) && s.stack == [Chld] && s.held.Nothing? && (s.pc.WaitEnter? || s.pc.Asleep?) && s.pc.pid != 0
    requires (forall p :: p in s.children ==> !Waitable(s.children[p])) && s.pc.pid !in s.children
    ensures CanReturn(s)
  {
    hide CanReturn; hide Inv;
    var s' := Do(s, Return);
    NotFg(s, s.pc.pid);
    if s'.pc.WaitEnter? {
      TestReturns(Do(s', Block));
      StepBack(s', Block);
    } else {
      TestReturns(s');
    }
    StepBack(s, Return);
  }

  lemma NotFg(s: State, pid: int)
    requires Inv(s) && s.held.Nothing? && pid != 0 && pid !in s.children
    ensures FgPidOf(s.t.jobs) != pid
  {
    if FgPidOf(s.t.jobs) == pid {
      KeyFindsReaped(s);
    }
  }

  /** The SIGCHLD handler, once running, reaps and enters the ended child that is waited for. */
  lemma {:induction false} HandlerReturns(s: State)
    requires Inv(s) && s.stack == [Chld] && (s.pc.WaitEnter? || s.pc.Asleep?) && s.pc.pid != 0
    requires s.pc.pid in s.children ==> s.children[s.pc.pid].status.Zombie?
    ensures CanReturn(s)
    decreases |Work(s)|, s.held.Got?
  {
    hide CanReturn; hide Inv; hide Work;
    if s.held.Got? {
      StepKeeps(s, Update);
      UpdateSameWork(s);
      HandlerReturns(Do(s, Update));
      StepBack(s, Update);
    } else if p :| p in s.children && Waitable(s.children[p]) {
      var a := Reap(p, 0);
      StepKeeps(s, a);
      ReapLessWork(s, p);
      HandlerReturns(Do(s, a));
      StepBack(s, a);
    } else {
      LastReturns(s);
    }
  }

  lemma SleepReturns(s: State)
    requires Inv(s) && s.stack == [] && s.pc.Asleep? && s.pc.pid != 0
    ensures CanReturn(s)
  {
    hide CanReturn; hide Inv;
    var pid := s.pc.pid;
    SleepsOnChild(s);
    if s.children[pid].status.Zombie? {
      StepKeeps(s, Deliver);
      HandlerReturns(Do(s, Deliver));
      StepBack(s, Deliver);
    } else {
      var a := Exit(pid, false);
      var s' := Do(s, a);
      StepKeeps(s, a);
      StepKeeps(s', Deliver);
      HandlerReturns(Do(s', Deliver));
      StepBack(s', Deliver);
      StepBack(s, a);
    }
  }

  lemma TestedReturns(s: State)
    requires Inv(s) && s.stack == [] && s.pc.WaitTest? && s.pc.pid != 0
    ensures CanReturn(s)
  {
    hide CanReturn; hide Inv;
    if FgPidOf(s.t.jobs) != s.pc.pid {
      TestReturns(s);
    } else {
      StepKeeps(s, Test);
      SleepReturns(Do(s, Test));
      StepBack(s, Test);
    }
  }

  /** A wait for a process can end, from every state in which no handler is running. */
  lemma WaitReturns(s: State)
    requires Inv(s) && s.stack == [] && Waiting(s.pc) && s.pc.pid != 0
    ensures CanReturn(s)
  {
    hide CanReturn; hide Inv;
    if s.pc.WaitEnter? {
      StepKeeps(s, Block);
      TestedReturns(Do(s, Block));
      StepBack(s, Block);
    } else if s.pc.WaitTest? {
      TestedReturns(s);
    } else {
      SleepReturns(s);
    }
  }

  lemma StuckStep(s: State, a: Step)
    requires Inv(s) && Waiting(s.pc) && s.pc.pid == 0 && Enabled(s, a)
    ensures Waiting(Do(s, a).pc) && Do(s, a).pc.pid == 0
  {
    hide TableOk; hide IsListed; hide ListedAreChildren; hide RunningNotReported; hide ChildrenAreListed; hide HeldOk;
    hide StackOk; hide SomethingComes;
    if a.Test? {
      NoFgButZero(s.t.jobs);
    }
  }

  lemma NoFgButZero(jobs: seq<Job>)
    requires OnlyFg(jobs, 0)
    ensures FgPidOf(jobs) == 0
  {
  }

  /** A wait for process 0 never ends, whatever happens. */
  lemma {:induction false} StuckForever(s: State, run: seq<Step>)
    requires Inv(s) && Waiting(s.pc) && s.pc.pid == 0 && Possible(s, run)
    ensures Waiting(After(s, run).pc) && After(s, run).pc.pid == 0
    decreases |run|
  {
    hide Inv;
    if run != [] {
      StuckStep(s, run[0]);
      StepKeeps(s, run[0]);
      StuckForever(Do(s, run[0]), run[1..]);
    }
  }

  /** While no handler is running, a wait can end exactly if it is for a process, not for pid 0. */
  lemma WaitEnds(s: State)
    requires Inv(s) && s.stack == [] && Waiting(s.pc)
    ensures CanReturn(s) <==> s.pc.pid != 0
  {
    if s.pc.pid != 0 {
      WaitReturns(s);
    } else if CanReturn(s) {
      var run :| Possible(s, run) && After(s, run).pc == Prompt;
      StuckForever(s, run);
    }
  }

  /** The only way into a wait for pid 0: after `fg`, the job has left the table before its process
      id is read. */
  lemma HowStuck(s: State, a: Step)
    requires Inv(s) && Enabled(s, a) && !Waiting(s.pc) && Waiting(Do(s, a).pc)
    ensures Do(s, a).pc.pid == 0 <==> a.ReadPid? && s.t.jobs[s.pc.slot].pid == 0
  {
    hide TableOk; hide IsListed; hide ListedAreChildren; hide RunningNotReported; hide ChildrenAreListed; hide HeldOk;
    hide StackOk; hide SomethingComes; hide AimOk;
  }
}
