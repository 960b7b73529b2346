/** Runs of the shell that go wrong, each step by step from the start. */
module ShellRuns {
  import opened JobTable
  import opened Shell
  import opened ShellSafety
  import opened ShellWaits

  lemma Stay(s: State)
    ensures Possible(s, []) && After(s, []) == s
  {
  }

  lemma {:induction false} Joined(s: State, run: seq<Step>, more: seq<Step>)
    requires Possible(s, run) && Possible(After(s, run), more)
    ensures Possible(s, run + more) && After(s, run + more) == After(After(s, run), more)
    decreases |run|
  {
    hide Enabled; hide Do;
    if run == [] {
      assert run + more == more;
    } else {
      Joined(Do(s, run[0]), run[1..], more);
      Before(s, run[0], run[1..] + more);
      assert [run[0]] + (run[1..] + more) == run + more;
    }
  }

  const CMD := "sleep 1"
  const JOB := Job(100, 1, Bg, CMD)
  const CHILD := Child(Running, true)

  /** A table of which only the first slot is used. */
  function Only(slot: Job): (jobs: seq<Job>)
    ensures |jobs| == MAXJOBS && jobs[0] == slot && forall k :: 1 <= k < MAXJOBS ==> jobs[k] == EMPTY
  {
    seq(MAXJOBS, k => if k == 0 then slot else EMPTY)
  }

  /** Nothing unusual but what is given: the first slot, the children and where the program stands. */
  function Plain(slot: Job, children: map<int, Child>, pc: Pc): State {
    State(Table(Only(slot), if slot.pid == 0 then 1 else 2, NO_NEWS), children, false, [], Nothing, 0, 0, pc, {})
  }

  lemma FirstSlot(jobs: seq<Job>, pid: int)
    requires |jobs| > 0 && jobs[0].pid == pid
    ensures IndexOf(jobs, pid) == 0
  {
    assert jobs[0].pid == pid;
  }

  /** A job is started; its child has not made its process group yet. */
  lemma ToStarted(bg: bool) returns (run: seq<Step>)
    ensures Possible(START, run)
    ensures After(START, run) == Plain(JOB.(state := if bg then Bg else Fg), map[100 := Child(Running, false)],
                                       if bg then Prompt else WaitEnter(100))
  {
    hide Possible; hide After;
    var s1 := Do(START, Command(bg));
    var s2 := Do(s1, Fork(100));
    FirstSlot(START.t.jobs, 0);
    var s3 := Do(s2, AddIt(CMD));
    var s4 := Do(s3, Unblock);
    assert s4.t.jobs == Only(JOB.(state := if bg then Bg else Fg));
    run := [Unblock];
    Stay(s4);
    Before(s3, Unblock, []);
    assert [Unblock] + [] == run;
    Before(s2, AddIt(CMD), run);
    run := [AddIt(CMD)] + run;
    Before(s1, Fork(100), run);
    run := [Fork(100)] + run;
    Before(START, Command(bg), run);
    run := [Command(bg)] + run;
  }

  /** One step from a known state to another. */
  lemma Then(run: seq<Step>, s: State, a: Step) returns (longer: seq<Step>)
    requires Possible(START, run) && After(START, run) == s && Enabled(s, a)
    ensures longer == run + [a] && Possible(START, longer) && After(START, longer) == Do(s, a)
  {
    hide Enabled; hide Do;
    Stay(Do(s, a));
    Before(s, a, []);
    assert [a] + [] == [a];
    Joined(START, run, [a]);
    longer := run + [a];
  }

  /** The child ends and is reaped, but the table still lists it. */
  lemma ThenReaped(run: seq<Step>, j: Job, pc: Pc) returns (longer: seq<Step>)
    requires Possible(START, run) && After(START, run) == Plain(j, map[100 := CHILD], pc)
    requires !Masked(pc) && !pc.Dead?
    ensures Possible(START, longer)
    ensures After(START, longer) == Plain(j, map[], pc).(stack := [Chld], held := Got(Exited(100)))
  {
    hide Possible; hide After;
    var s := Plain(j, map[100 := CHILD], pc);
    longer := Then(run, s, Exit(100, false));
    var s1 := Do(s, Exit(100, false));
    longer := Then(longer, s1, Deliver);
    var s2 := Do(s1, Deliver);
    longer := Then(longer, s2, Reap(100, 0));
    assert Do(s2, Reap(100, 0)).children == map[];
  }

  /** The handler enters it and returns. */
  lemma ThenCleared(run: seq<Step>, j: Job, pc: Pc) returns (longer: seq<Step>)
    requires Possible(START, run) && j.pid == 100 && !pc.Dead? && !pc.Asleep?
    requires After(START, run) == Plain(j, map[], pc).(stack := [Chld], held := Got(Exited(100)))
    ensures Possible(START, longer) && After(START, longer) == Plain(EMPTY, map[], pc)
  {
    hide Possible; hide After;
    var s := Plain(j, map[], pc).(stack := [Chld], held := Got(Exited(100)));
    longer := Then(run, s, Update);
    var s1 := Do(s, Update);
    FirstSlot(s.t.jobs, 100);
    assert s1.t.jobs == Only(EMPTY) && MaxJidOf(Only(EMPTY)) == 0;
    longer := Then(longer, s1, Return);
  }

  /** The keyboard handler kills its target, and unix_error the shell. */
  lemma ThenDead(run: seq<Step>, s: State) returns (longer: seq<Step>)
    requires Possible(START, run) && After(START, run) == s && Enabled(s, Key(Int))
    requires KillFails(s.children, FgPidOf(s.t.jobs))
    ensures longer == run + [Key(Int), Kill] && Possible(START, longer) && After(START, longer).pc == Dead
  {
    hide Possible; hide After;
    longer := Then(run, s, Key(Int));
    longer := Then(longer, Do(s, Key(Int)), Kill);
    assert run + [Key(Int)] + [Kill] == run + [Key(Int), Kill];
  }

  /** ctrl-c while the SIGCHLD handler has reaped the foreground job but still lists it ends the shell. */
  lemma ReapedRun() returns (window: seq<Step>)
    ensures Possible(START, window) && FgPidOf(After(START, window).t.jobs) == 100
    ensures Gone(After(START, window).held, 100) && 100 !in After(START, window).children
    ensures Possible(START, window + [Key(Int), Kill]) && After(START, window + [Key(Int), Kill]).pc == Dead
  {
    hide Possible; hide After; hide FgPidOf; hide Do; hide Enabled;
    var j := JOB.(state := Fg);
    FgFirst(j);
    window := ToSleeping(j);
    window := ThenReaped(window, j, Asleep(100));
    KeyEnabled(j);
    var run := ThenDead(window, Plain(j, map[], Asleep(100)).(stack := [Chld], held := Got(Exited(100))));
  }

  lemma KeyEnabled(j: Job)
    ensures Enabled(Plain(j, map[], Asleep(100)).(stack := [Chld], held := Got(Exited(100))), Key(Int))
  {
  }

  /** The shell waits for a foreground job that has its process group. */
  lemma ToSleeping(j: Job) returns (run: seq<Step>)
    requires j == JOB.(state := Fg)
    ensures Possible(START, run) && After(START, run) == Plain(j, map[100 := CHILD], Asleep(100))
  {
    hide Possible; hide After; hide FgPidOf;
    FgFirst(j);
    run := ToStarted(false);
    var s := Plain(j, map[100 := Child(Running, false)], WaitEnter(100));
    run := Then(run, s, Group(100));
    var s1 := Plain(j, map[100 := CHILD], WaitEnter(100));
    run := Then(run, s1, Block);
    run := Then(run, Do(s1, Block), Test);
  }

  lemma FgFirst(j: Job)
    requires j.state == Fg
    ensures FgPidOf(Only(j)) == j.pid
  {
  }

  /** So does ctrl-c before a new foreground job has made its process group. */
  lemma NewbornRun() returns (run: seq<Step>)
    ensures Possible(START, run) && After(START, run).pc == Dead
  {
    hide Possible; hide After;
    run := ToStarted(false);
    var s := Plain(JOB.(state := Fg), map[100 := Child(Running, false)], WaitEnter(100));
    assert FgPidOf(s.t.jobs) == 100;
    run := ThenDead(run, s);
  }

  /** bg of a job that leaves after it was looked up writes into a free slot. */
  lemma UnclearRun() returns (run: seq<Step>)
    ensures Possible(START, run) && After(START, run).pc == Prompt && !FreeSlotsClear(After(START, run).t.jobs)
  {
    hide Possible; hide After;
    run := ToStarted(true);
    var s := Plain(JOB, map[100 := Child(Running, false)], Prompt);
    run := Then(run, s, Group(100));
    run := Then(run, Do(s, Group(100)), Find(0, false));
    run := ThenReaped(run, JOB, Found(0, false));
    run := ThenCleared(run, JOB, Found(0, false));
    var s1 := Plain(EMPTY, map[], Found(0, false));
    run := Then(run, s1, BgFg);
    assert Do(s1, BgFg).t.jobs[0] == EMPTY.(state := Bg);
  }

  /** The endless wait: a background job is brought to the foreground and ends at that moment. */
  lemma StuckRun() returns (run: seq<Step>)
    ensures Possible(START, run) && After(START, run).pc == Asleep(0) && !CanReturn(After(START, run))
  {
    hide Possible; hide After; hide CanReturn; hide Inv;
    run := ToStarted(true);
    var s := Plain(JOB, map[100 := Child(Running, false)], Prompt);
    run := Then(run, s, Group(100));
    run := Then(run, Do(s, Group(100)), Find(0, true));
    run := Then(run, Do(Do(s, Group(100)), Find(0, true)), BgFg);
    var j := JOB.(state := Fg);
    assert Only(JOB)[0 := j] == Only(j);
    assert Do(Do(Do(s, Group(100)), Find(0, true)), BgFg) == Plain(j, map[100 := CHILD], Resumed(0));
    run := ThenReaped(run, j, Resumed(0));
    run := ThenCleared(run, j, Resumed(0));
    var s1 := Plain(EMPTY, map[], Resumed(0));
    run := Then(run, s1, ReadPid);
    run := Then(run, Do(s1, ReadPid), Block);
    assert FgPidOf(s1.t.jobs) == 0;
    run := Then(run, Do(Do(s1, ReadPid), Block), Test);
    InvStart();
    RunKeeps(START, run);
    WaitEnds(After(START, run));
  }
}
