/** What holds in every run of the shell, and exactly when it goes wrong. */
module ShellSafety {
  import opened JobTable
  import opened Shell

  predicate Waiting(pc: Pc) {
    pc.WaitEnter? || pc.WaitTest? || pc.Asleep?
  }

  /** A keyboard handler finds a reaped process exactly in the window of the SIGCHLD handler between
      waitpid and the update of the table, while that handler holds the news of its end. */
  lemma KeyFindsReaped(s: State)
    requires Inv(s) && FgPidOf(s.t.jobs) != 0
    ensures FgPidOf(s.t.jobs) !in s.children <==> Gone(s.held, FgPidOf(s.t.jobs))
  {
    hide TableOk; hide PcOk; hide AimOk; hide ChildrenAreListed; hide RunningNotReported; hide StackOk;
    FoundFg(s);
  }

  /** It then signals a reaped process exactly in that window, or if the table was updated in between. */
  lemma KillHitsReaped(s: State, h: Handler)
    requires Inv(s) && h != Chld && Aim(s, h) != 0
    ensures Aim(s, h) !in s.children <==> Gone(s.held, Aim(s, h)) || !IsListed(s.t.jobs, Aim(s, h))
  {
  }

  /** In every interleaving: a listed process is an unreaped child, or the one whose end the handler is
      about to enter; none is listed twice; at most one is in the foreground, and none at the prompt; a
      child is listed unless it has just been forked or its addjob found the table full; and the shell does
      not sleep on a child that has ended or stopped unless a SIGCHLD is still to come. */
  lemma SafeAlways(run: seq<Step>)
    requires Possible(START, run)
    ensures var s := After(START, run);
      && (forall k :: 0 <= k < |s.t.jobs| && s.t.jobs[k].pid != 0 ==>
           (s.t.jobs[k].pid in s.children <==> !Gone(s.held, s.t.jobs[k].pid)))
      && (forall i, k :: 0 <= i < k < |s.t.jobs| && s.t.jobs[i].pid != 0 ==> s.t.jobs[i].pid != s.t.jobs[k].pid)
      && (forall i, k :: 0 <= i < k < |s.t.jobs| && s.t.jobs[i].state == Fg ==> s.t.jobs[k].state != Fg)
      && (s.pc.Prompt? ==> forall k :: 0 <= k < |s.t.jobs| ==> s.t.jobs[k].state != Fg)
      && (forall p :: p in s.children ==>
           (IsListed(s.t.jobs, p) <==> !(s.pc.Forked? && s.pc.pid == p) && p !in s.dropped))
      && (s.pc.Asleep? && s.pc.pid != 0 && s.stack == [] && !s.pending ==>
           s.pc.pid in s.children && s.children[s.pc.pid].status == Running)
  {
    hide Possible; hide After; hide IsListed; hide FgPidOf;
    InvStart();
    RunKeeps(START, run);
    var s := After(START, run);
    if s.pc.Asleep? && s.pc.pid != 0 && s.stack == [] {
      SleepsOnChild(s);
    }
    ListedExactly(s);
  }

  lemma SleepsOnChild(s: State)
    requires Inv(s) && s.pc.Asleep? && s.pc.pid != 0 && s.stack == []
    ensures s.pc.pid in s.children && s.children[s.pc.pid].status != Halted(true)
    ensures Waitable(s.children[s.pc.pid]) ==> s.pending
  {
    hide TableOk; hide AimOk; hide ChildrenAreListed;
  }

  lemma ListedExactly(s: State)
    requires Inv(s)
    ensures forall k :: 0 <= k < |s.t.jobs| && s.t.jobs[k].pid != 0 ==>
              (s.t.jobs[k].pid in s.children <==> !Gone(s.held, s.t.jobs[k].pid))
    ensures forall p :: p in s.children ==>
              (IsListed(s.t.jobs, p) <==> !(s.pc.Forked? && s.pc.pid == p) && p !in s.dropped)
  {
    hide TableOk; hide AimOk; hide IsListed; hide StackOk;
  }

  /** The shell ends itself exactly if a keyboard handler signals a process that has been reaped, or if it, or
      bg or fg, signals a child that has not yet made its process group. */
  lemma HowDead(s: State, a: Step)
    requires Inv(s) && Enabled(s, a) && !s.pc.Dead?
    ensures Do(s, a).pc.Dead? <==>
              || (a.Kill? && var aim := Aim(s, s.stack[0]);
                  aim != 0 && (Gone(s.held, aim) || !IsListed(s.t.jobs, aim) || !s.children[aim].grouped))
              || (a.BgFg? && var pid := s.t.jobs[s.pc.slot].pid; pid != 0 && !s.children[pid].grouped)
  {
    if a.Kill? && Aim(s, s.stack[0]) != 0 {
      KillHitsReaped(s, s.stack[0]);
    }
  }

  /** Free slots are clear, but for a state that bg or fg writes into the slot of a job that has left since
      it was looked up. */
  ghost predicate FreeSlotsClear(jobs: seq<Job>) {
    forall k :: 0 <= k < |jobs| && jobs[k].pid == 0 ==> jobs[k] == EMPTY
  }

  lemma HowUnclear(s: State, a: Step)
    requires Inv(s) && Enabled(s, a) && FreeSlotsClear(s.t.jobs)
    ensures !FreeSlotsClear(Do(s, a).t.jobs) <==> a.BgFg? && s.t.jobs[s.pc.slot].pid == 0
  {
    hide IsListed; hide AimOk; hide StackOk;
    if a.BgFg? {
      assert !KillFails(s.children, s.t.jobs[s.pc.slot].pid) ==>
        Do(s, a).t.jobs[s.pc.slot].pid == s.t.jobs[s.pc.slot].pid;
    } else if a.Update? {
      HandleSlots(s.t, s.held.report);
    }
  }
}
