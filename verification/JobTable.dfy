/** The shell's job table: sixteen slots, searched from the first. */
module JobTable {

  const MAXJOBS := 16

  datatype JobState = Undef | Fg | Bg | St

  datatype Job = Job(pid: int, jid: int, state: JobState, cmdline: string)

  const EMPTY := Job(0, 0, Undef, "")

  /** What the handler leaves for the main program to print: two flags that share their data. */
  datatype News = News(stop: bool, term: bool, jid: int, pid: int, sig: int)

  const NO_NEWS := News(false, false, 0, 0, 0)

  /** The job list, the next job id and the pending messages. */
  datatype Table = Table(jobs: seq<Job>, nextjid: int, news: News)

  function FreeSlots(): (jobs: seq<Job>)
    ensures |jobs| == MAXJOBS && forall k :: 0 <= k < MAXJOBS ==> jobs[k] == EMPTY
  {
    seq(MAXJOBS, _ => EMPTY)
  }

  const EMPTY_TABLE := Table(FreeSlots(), 1, NO_NEWS)

  // ---------------------------------------------------------------- the operations as functions

  /** The first slot with this process id, or -1; pid 0 marks a free slot. */
  function IndexOf(jobs: seq<Job>, pid: int): (i: int)
    ensures -1 <= i < |jobs|
    ensures i >= 0 ==> jobs[i].pid == pid && forall k :: 0 <= k < i ==> jobs[k].pid != pid
    ensures i < 0 ==> forall k :: 0 <= k < |jobs| ==> jobs[k].pid != pid
  {
    if jobs == [] then -1
    else
      var n := |jobs| - 1;
      var i := IndexOf(jobs[..n], pid);
      if i >= 0 then i else if jobs[n].pid == pid then n else -1
  }

  /** The process id of the first foreground job, or 0. */
  function FgPidOf(jobs: seq<Job>): (p: int)
    ensures p != 0 ==> exists k :: 0 <= k < |jobs| && jobs[k].state == Fg && jobs[k].pid == p
    ensures (forall k :: 0 <= k < |jobs| ==> jobs[k].state != Fg) ==> p == 0
  {
    if jobs == [] then 0
    else if jobs[0].state == Fg then jobs[0].pid
    else FgPidOf(jobs[1..])
  }

  function MaxJidOf(jobs: seq<Job>): (m: int)
    ensures m >= 0 && forall k :: 0 <= k < |jobs| ==> jobs[k].jid <= m
    ensures m > 0 ==> exists k :: 0 <= k < |jobs| && jobs[k].jid == m
  {
    if jobs == [] then 0
    else
      var n := |jobs| - 1;
      var m := MaxJidOf(jobs[..n]);
      if jobs[n].jid > m then jobs[n].jid else m
  }

  function NextJid(jid: int): int {
    if jid + 1 > MAXJOBS then 1 else jid + 1
  }

  function Add(t: Table, pid: int, state: JobState, cmdline: string): Table {
    var i := IndexOf(t.jobs, 0);
    if pid < 1 || i < 0 then t
    else t.(jobs := t.jobs[i := Job(pid, t.nextjid, state, cmdline)], nextjid := NextJid(t.nextjid))
  }

  function Delete(t: Table, pid: int): Table {
    var i := IndexOf(t.jobs, pid);
    if pid < 1 || i < 0 then t
    else
      var jobs := t.jobs[i := EMPTY];
      t.(jobs := jobs, nextjid := MaxJidOf(jobs) + 1)
  }

  /** What waitpid tells the handler about a child. */
  datatype Report = Exited(pid: int) | Stopped(pid: int, sig: int) | Signaled(pid: int, sig: int)

  /** pid2jid */
  function JidOf(jobs: seq<Job>, pid: int): int {
    var i := IndexOf(jobs, pid);
    if pid < 1 || i < 0 then 0 else jobs[i].jid
  }

  function MarkStopped(t: Table, pid: int): Table {
    var i := IndexOf(t.jobs, pid);
    if pid < 1 || i < 0 then t else t.(jobs := t.jobs[i := t.jobs[i].(state := St)])
  }

  function Handle(t: Table, r: Report): Table {
    match r
    case Exited(pid) => Delete(t, pid)
    case Stopped(pid, sig) =>
      MarkStopped(t.(news := News(true, t.news.term, JidOf(t.jobs, pid), pid, sig)), pid)
    case Signaled(pid, sig) =>
      Delete(t.(news := News(t.news.stop, true, JidOf(t.jobs, pid), pid, sig)), pid)
  }

  /** All reports, in the order waitpid gives them. */
  function HandleAll(t: Table, rs: seq<Report>): Table {
    if rs == [] then t else Handle(HandleAll(t, rs[..|rs| - 1]), rs[|rs| - 1])
  }

  // ---------------------------------------------------------------- what they keep

  /** A slot is free, or describes a job.  A free slot need not be clear: bg and fg may have written a
      state into it after the job has left. */
  ghost predicate SlotOk(j: Job) {
    if j.pid == 0 then j == EMPTY.(state := j.state) else j.pid >= 1 && j.jid >= 1 && j.state != Undef
  }

  /** No process is listed twice. */
  ghost predicate PidsDiffer(jobs: seq<Job>) {
    forall i, k :: 0 <= i < k < |jobs| && jobs[i].pid != 0 ==> jobs[i].pid != jobs[k].pid
  }

  ghost predicate OneFg(jobs: seq<Job>) {
    forall i, k :: 0 <= i < k < |jobs| && jobs[i].state == Fg ==> jobs[k].state != Fg
  }

  ghost predicate TableOk(t: Table) {
    && |t.jobs| == MAXJOBS && t.nextjid >= 1
    && (forall k :: 0 <= k < |t.jobs| ==> SlotOk(t.jobs[k]))
    && PidsDiffer(t.jobs) && OneFg(t.jobs)
  }

  /** With one foreground job at most, fgpid finds it wherever it is. */
  lemma {:induction false} FgPidFinds(jobs: seq<Job>, k: int)
    requires OneFg(jobs) && 0 <= k < |jobs| && jobs[k].state == Fg
    ensures FgPidOf(jobs) == jobs[k].pid
  {
    if jobs[0].state == Fg {
      assert k == 0;
    } else {
      FgPidFinds(jobs[1..], k - 1);
    }
  }

  lemma AddOk(t: Table, pid: int, state: JobState, cmdline: string)
    requires TableOk(t) && pid >= 1 && state != Undef && IndexOf(t.jobs, pid) < 0
    requires state == Fg ==> forall k :: 0 <= k < |t.jobs| ==> t.jobs[k].state != Fg
    ensures TableOk(Add(t, pid, state, cmdline))
  {
  }

  lemma DeleteOk(t: Table, pid: int)
    requires TableOk(t)
    ensures TableOk(Delete(t, pid))
    ensures pid >= 1 ==> IndexOf(Delete(t, pid).jobs, pid) < 0
    ensures forall k :: 0 <= k < |t.jobs| && t.jobs[k].pid != pid ==> Delete(t, pid).jobs[k] == t.jobs[k]
  {
  }

  lemma HandleOk(t: Table, r: Report)
    requires TableOk(t)
    ensures TableOk(Handle(t, r))
  {
    if !r.Stopped? {
      DeleteOk(t, r.pid);
    }
  }

  /** What a report does to each slot. */
  lemma HandleSlots(t: Table, r: Report)
    requires TableOk(t) && r.pid >= 1
    ensures TableOk(Handle(t, r)) && |Handle(t, r).jobs| == |t.jobs|
    ensures forall k :: 0 <= k < |t.jobs| ==>
              Handle(t, r).jobs[k] == if t.jobs[k].pid != r.pid then t.jobs[k]
                                      else if r.Stopped? then t.jobs[k].(state := St) else EMPTY
  {
    HandleOk(t, r);
    var i := IndexOf(t.jobs, r.pid);
    forall k | 0 <= k < |t.jobs| && t.jobs[k].pid == r.pid ensures k == i {
    }
  }

  /** The reports say that the process has ended. */
  ghost predicate Ended(rs: seq<Report>, pid: int) {
    exists i :: 0 <= i < |rs| && rs[i].pid == pid && !rs[i].Stopped?
  }

  ghost predicate HasStopped(rs: seq<Report>, pid: int) {
    exists i :: 0 <= i < |rs| && rs[i].pid == pid && rs[i].Stopped?
  }

  lemma EndedMore(rs: seq<Report>, pid: int)
    requires rs != []
    ensures var m := |rs| - 1;
      && (Ended(rs, pid) <==> Ended(rs[..m], pid) || (rs[m].pid == pid && !rs[m].Stopped?))
      && (HasStopped(rs, pid) <==> HasStopped(rs[..m], pid) || (rs[m].pid == pid && rs[m].Stopped?))
  {
    var m := |rs| - 1;
    assert forall i :: 0 <= i < m ==> rs[..m][i] == rs[i];
  }

  /** The whole handler: the jobs that have ended leave the table, those that have only stopped are marked so, and the
      others stay as they are. */
  lemma {:induction false} TableAfter(t: Table, rs: seq<Report>)
    requires TableOk(t) && forall i :: 0 <= i < |rs| ==> rs[i].pid >= 1
    ensures var u := HandleAll(t, rs);
      TableOk(u) && |u.jobs| == |t.jobs| &&
      forall j :: 0 <= j < |t.jobs| ==>
        u.jobs[j] == if t.jobs[j].pid == 0 then t.jobs[j]
                     else if Ended(rs, t.jobs[j].pid) then Job(0, 0, Undef, "")
                     else if HasStopped(rs, t.jobs[j].pid) then t.jobs[j].(state := St)
                     else t.jobs[j]
  {
    if rs != [] {
      hide TableOk; hide Handle; hide Ended; hide HasStopped;
      var m := |rs| - 1;
      TableAfter(t, rs[..m]);
      HandleSlots(HandleAll(t, rs[..m]), rs[m]);
      forall j | 0 <= j < |t.jobs| {
        EndedMore(rs, t.jobs[j].pid);
      }
    } else {
      assert forall p :: !Ended(rs, p) && !HasStopped(rs, p);
    }
  }

  lemma {:induction false} HandleAllOk(t: Table, rs: seq<Report>)
    requires TableOk(t)
    ensures TableOk(HandleAll(t, rs))
  {
    if rs != [] {
      HandleAllOk(t, rs[..|rs| - 1]);
      HandleOk(HandleAll(t, rs[..|rs| - 1]), rs[|rs| - 1]);
    }
  }

  /** `k` is the first free slot. */
  ghost predicate FirstFree(jobs: seq<Job>, k: int) {
    0 <= k < |jobs| && jobs[k].pid == 0 && forall i :: 0 <= i < k ==> jobs[i].pid != 0
  }

  /** The first free slot is filled, and the next id goes up to 16 and then starts again. */
  lemma AddFills(t: Table, pid: int, state: JobState, cmdline: string, k: int)
    requires pid >= 1 && FirstFree(t.jobs, k)
    ensures var u := Add(t, pid, state, cmdline);
      && u.jobs == t.jobs[k := Job(pid, t.nextjid, state, cmdline)] && u.news == t.news
      && u.nextjid == if t.nextjid >= 16 then 1 else t.nextjid + 1
  {
  }

  /** The slot of the process is cleared, and the next id is the one above the largest left. */
  lemma DeleteClears(t: Table, pid: int, k: int)
    requires pid >= 1 && 0 <= k < |t.jobs| && t.jobs[k].pid == pid && forall i :: 0 <= i < k ==> t.jobs[i].pid != pid
    ensures var u := Delete(t, pid);
      && u.jobs == t.jobs[k := Job(0, 0, Undef, "")] && u.news == t.news
      && (forall i :: 0 <= i < |u.jobs| ==> u.jobs[i].jid < u.nextjid)
      && (u.nextjid == 1 || exists i :: 0 <= i < |u.jobs| && u.jobs[i].jid == u.nextjid - 1)
  {
    var jobs := t.jobs[k := EMPTY];
    assert IndexOf(t.jobs, pid) == k && MaxJidOf(jobs) >= 0;
  }

  /** Deleting the job just added restores every slot, exactly if the free slot taken was clear. */
  lemma AddDelete(t: Table, pid: int, state: JobState, cmdline: string)
    requires TableOk(t) && pid >= 1 && IndexOf(t.jobs, pid) < 0 && IndexOf(t.jobs, 0) >= 0
    ensures Delete(Add(t, pid, state, cmdline), pid).jobs == t.jobs <==> t.jobs[IndexOf(t.jobs, 0)].state == Undef
  {
    var i := IndexOf(t.jobs, 0);
    var u := Add(t, pid, state, cmdline);
    assert u.jobs[i].pid == pid;
    assert IndexOf(u.jobs, pid) == i;
    assert Delete(u, pid).jobs == t.jobs[i := EMPTY];
    assert t.jobs[i := EMPTY][i] == EMPTY;
  }

  /** Job ids stay distinct exactly if the next one is not in use. */
  lemma AddJid(t: Table, pid: int, state: JobState, cmdline: string)
    requires TableOk(t) && pid >= 1 && IndexOf(t.jobs, 0) >= 0 && JidsDiffer(t.jobs)
    ensures JidsDiffer(Add(t, pid, state, cmdline).jobs) <==> forall k :: 0 <= k < |t.jobs| ==> t.jobs[k].jid != t.nextjid
  {
    var i := IndexOf(t.jobs, 0);
    var jobs := Add(t, pid, state, cmdline).jobs;
    if k :| 0 <= k < |t.jobs| && t.jobs[k].jid == t.nextjid {
      assert k != i && jobs[k].jid == jobs[i].jid;
      if k < i {
        assert jobs[k].pid != 0;
      }
    }
  }

  ghost predicate JidsDiffer(jobs: seq<Job>) {
    forall i, k :: 0 <= i < k < |jobs| && jobs[i].pid != 0 ==> jobs[i].jid != jobs[k].jid
  }

  /** Right after a job has left, the next id is not in use. */
  lemma DeleteFreesJid(t: Table, pid: int)
    requires TableOk(t) && pid >= 1 && IndexOf(t.jobs, pid) >= 0
    ensures forall k :: 0 <= k < |t.jobs| ==> Delete(t, pid).jobs[k].jid != Delete(t, pid).nextjid
  {
  }

  /** A change to the table by the main program or the handler. */
  datatype Change = Adding(pid: int) | Deleting(pid: int)

  function Apply(t: Table, c: Change): Table {
    match c
    case Adding(pid) => Add(t, pid, Bg, "")
    case Deleting(pid) => Delete(t, pid)
  }

  function Perform(t: Table, changes: seq<Change>): Table {
    if changes == [] then t else Apply(Perform(t, changes[..|changes| - 1]), changes[|changes| - 1])
  }

  /** The table after jobs 1 to n have been started. */
  function Started(n: nat): Table {
    Table(seq(MAXJOBS, k => if k < n then Job(k + 1, k + 1, Bg, "") else EMPTY), n + 1, NO_NEWS)
  }

  function Starts(n: nat): seq<Change> {
    seq(n, k => Adding(k + 1))
  }

  lemma {:induction false} StartJobs(n: nat)
    requires n < MAXJOBS
    ensures Perform(EMPTY_TABLE, Starts(n)) == Started(n)
  {
    hide Started; hide FreeSlots; hide Add;
    if n == 0 {
      NoneStarted();
    } else {
      StartJobs(n - 1);
      assert Starts(n)[..n - 1] == Starts(n - 1);
      StartOne(n - 1);
    }
  }

  lemma NoneStarted()
    ensures Started(0) == EMPTY_TABLE
  {
    assert Started(0).jobs == FreeSlots();
  }

  lemma StartOne(n: nat)
    requires n + 1 < MAXJOBS
    ensures Add(Started(n), n + 1, Bg, "") == Started(n + 1)
  {
    var t := Started(n);
    assert t.jobs[n].pid == 0;
    assert IndexOf(t.jobs, 0) == n;
    assert Add(t, n + 1, Bg, "").jobs == Started(n + 1).jobs;
  }

  /** Fifteen jobs with the second one's slot free, and with it taken by job 16. */
  const ONE_LEFT := Table(Started(15).jobs[1 := EMPTY], 16, NO_NEWS)
  const REFILLED := Table(Started(15).jobs[1 := Job(16, 16, Bg, "")], 1, NO_NEWS)

  lemma SecondLeaves()
    ensures Delete(Started(15), 2) == ONE_LEFT
  {
    var jobs := Started(15).jobs;
    assert jobs[1].pid == 2 && IndexOf(jobs, 2) == 1;
    assert jobs[1 := EMPTY][14].jid == 15 && MaxJidOf(jobs[1 := EMPTY]) == 15;
  }

  lemma SecondRefilled()
    ensures Add(ONE_LEFT, 16, Bg, "") == REFILLED
  {
    assert ONE_LEFT.jobs[1].pid == 0 && IndexOf(ONE_LEFT.jobs, 0) == 1;
  }

  lemma IdTakenAgain()
    ensures JidsDiffer(REFILLED.jobs) && !JidsDiffer(Add(REFILLED, 17, Bg, "").jobs)
  {
    assert REFILLED.jobs[15].pid == 0 && IndexOf(REFILLED.jobs, 0) == 15;
    var jobs := Add(REFILLED, 17, Bg, "").jobs;
    assert jobs[15].jid == 1 && jobs[0].jid == 1 && jobs[0].pid != 0;
  }

  /** Ids do repeat: fifteen jobs are started, the second ends, and two more are started; the first of
      these takes id 16 and the other id 1 again. */
  lemma RepeatedJid() returns (changes: seq<Change>, last: Change)
    ensures JidsDiffer(Perform(EMPTY_TABLE, changes).jobs)
    ensures !JidsDiffer(Perform(EMPTY_TABLE, changes + [last]).jobs)
  {
    hide Perform; hide Add; hide Delete; hide JidsDiffer; hide Started;
    changes, last := Starts(15) + [Deleting(2)] + [Adding(16)], Adding(17);
    StartJobs(15);
    PerformLast(Starts(15), Deleting(2));
    SecondLeaves();
    PerformLast(Starts(15) + [Deleting(2)], Adding(16));
    SecondRefilled();
    PerformLast(changes, last);
    IdTakenAgain();
  }

  lemma PerformLast(changes: seq<Change>, c: Change)
    ensures Perform(EMPTY_TABLE, changes + [c]) == Apply(Perform(EMPTY_TABLE, changes), c)
  {
    assert (changes + [c])[..|changes|] == changes;
  }

  // ---------------------------------------------------------------- messages

  /** A line eval prints. */
  datatype Line = StoppedLine(jid: int, pid: int, sig: int) | TerminatedLine(jid: int, pid: int, sig: int)

  function Lines(n: News): seq<Line> {
    (if n.stop then [StoppedLine(n.jid, n.pid, n.sig)] else []) +
    (if n.term then [TerminatedLine(n.jid, n.pid, n.sig)] else [])
  }

  /** The last report that is news, or -1. */
  function LastNews(rs: seq<Report>): (k: int)
    ensures -1 <= k < |rs| && (k >= 0 ==> !rs[k].Exited?)
    ensures forall i :: k < i < |rs| ==> rs[i].Exited?
  {
    if rs == [] then -1
    else if rs[|rs| - 1].Exited? then LastNews(rs[..|rs| - 1])
    else |rs| - 1
  }

  /** Between commands the flags are clear; the data of the last message stay. */
  predicate Quiet(n: News) {
    !n.stop && !n.term
  }

  /** A flag is set exactly if there was such a report, but the data are always those of the last one. */
  lemma {:induction false} NewsAfter(t: Table, rs: seq<Report>)
    requires Quiet(t.news)
    ensures var n, k := HandleAll(t, rs).news, LastNews(rs);
      && (n.stop <==> exists i :: 0 <= i < |rs| && rs[i].Stopped?)
      && (n.term <==> exists i :: 0 <= i < |rs| && rs[i].Signaled?)
      && (k >= 0 ==> n.pid == rs[k].pid && n.sig == rs[k].sig)
      && (k < 0 ==> n == t.news)
  {
    if rs != [] {
      hide Handle;
      var m := |rs| - 1;
      NewsAfter(t, rs[..m]);
      assert forall i :: 0 <= i < m ==> rs[i] == rs[..m][i];
      HandleNews(HandleAll(t, rs[..m]), rs[m]);
    }
  }

  /** The job id in the message is that of the process in the table before the reports, or 0 if it is not listed there,
      or an earlier report has taken it out. */
  lemma NewsJid(t: Table, rs: seq<Report>)
    requires TableOk(t) && LastNews(rs) >= 0 && forall i :: 0 <= i < |rs| ==> rs[i].pid >= 1
    ensures var k, jid := LastNews(rs), HandleAll(t, rs).news.jid;
      && (forall j :: 0 <= j < |t.jobs| && t.jobs[j].pid == rs[k].pid && !Ended(rs[..k], rs[k].pid) ==> jid == t.jobs[j].jid)
      && ((forall j :: 0 <= j < |t.jobs| ==> t.jobs[j].pid != rs[k].pid) || Ended(rs[..k], rs[k].pid) ==> jid == 0)
  {
    hide TableOk; hide HandleAll; hide JidOf; hide Ended; hide HasStopped; hide LastNews;
    var k := LastNews(rs);
    var u := HandleAll(t, rs[..k]);
    TableAfter(t, rs[..k]);
    JidIs(u, rs[k].pid);
    JidLookedUp(t, rs);
  }

  /** The job id is looked up when the last report that is news is entered. */
  lemma JidLookedUp(t: Table, rs: seq<Report>)
    requires LastNews(rs) >= 0
    ensures var k := LastNews(rs); HandleAll(t, rs).news.jid == JidOf(HandleAll(t, rs[..k]).jobs, rs[k].pid)
  {
    hide JidOf; hide Delete; hide MarkStopped;
    var k := LastNews(rs);
    LastNewsStays(t, rs, k + 1);
    assert rs[..k + 1][..k] == rs[..k] && rs[..k + 1][k] == rs[k];
    JidOfReport(HandleAll(t, rs[..k]), rs[k]);
  }

  lemma JidOfReport(t: Table, r: Report)
    ensures !r.Exited? ==> Handle(t, r).news.jid == JidOf(t.jobs, r.pid)
  {
  }

  lemma JidIs(t: Table, pid: int)
    requires TableOk(t) && pid >= 1
    ensures forall j :: 0 <= j < |t.jobs| && t.jobs[j].pid == pid ==> JidOf(t.jobs, pid) == t.jobs[j].jid
    ensures (forall j :: 0 <= j < |t.jobs| ==> t.jobs[j].pid != pid) ==> JidOf(t.jobs, pid) == 0
  {
  }

  lemma {:induction false} LastNewsStays(t: Table, rs: seq<Report>, k: nat)
    requires k <= |rs| && forall i :: k <= i < |rs| ==> rs[i].Exited?
    ensures HandleAll(t, rs).news == HandleAll(t, rs[..k]).news
    decreases |rs|
  {
    if k < |rs| {
      var m := |rs| - 1;
      LastNewsStays(t, rs[..m], k);
      assert rs[..m][..k] == rs[..k];
      HandleNews(HandleAll(t, rs[..m]), rs[m]);
    } else {
      assert rs[..k] == rs;
    }
  }

  lemma HandleNews(t: Table, r: Report)
    ensures var n := Handle(t, r).news;
      && n.stop == (t.news.stop || r.Stopped?) && n.term == (t.news.term || r.Signaled?)
      && (if r.Exited? then n == t.news else n.pid == r.pid && n.sig == r.sig)
  {
  }

  /** How many lines are printed, and that each names the job and signal of the last report. */
  lemma LinesPrinted(t: Table, rs: seq<Report>)
    requires Quiet(t.news)
    ensures var lines, k := Lines(HandleAll(t, rs).news), LastNews(rs);
      && (|lines| == 2 <==> (exists i :: 0 <= i < |rs| && rs[i].Stopped?) && (exists i :: 0 <= i < |rs| && rs[i].Signaled?))
      && (|lines| == 0 <==> k < 0)
      && (forall i :: 0 <= i < |lines| ==> k >= 0 && lines[i].pid == rs[k].pid && lines[i].sig == rs[k].sig)
  {
    NewsAfter(t, rs);
  }

  /** The line says what the report says. */
  predicate Tells(line: Line, r: Report) {
    match r
    case Exited(_) => false
    case Stopped(pid, sig) => line.StoppedLine? && line.pid == pid && line.sig == sig
    case Signaled(pid, sig) => line.TerminatedLine? && line.pid == pid && line.sig == sig
  }

  predicate Told(lines: seq<Line>, r: Report) {
    exists k :: 0 <= k < |lines| && Tells(lines[k], r)
  }

  /** The user learns of every stop and termination exactly if all of them are of the same job and signal as the
      last. */
  lemma AllTold(t: Table, rs: seq<Report>)
    requires Quiet(t.news)
    ensures var lines, k := Lines(HandleAll(t, rs).news), LastNews(rs);
      (forall i :: 0 <= i < |rs| && !rs[i].Exited? ==> Told(lines, rs[i])) <==>
      (forall i :: 0 <= i < |rs| && !rs[i].Exited? ==> rs[i].pid == rs[k].pid && rs[i].sig == rs[k].sig)
  {
    NewsAfter(t, rs);
    var n, k := HandleAll(t, rs).news, LastNews(rs);
    var lines := Lines(n);
    forall i | 0 <= i < |rs| && !rs[i].Exited?
      ensures Told(lines, rs[i]) <==> rs[i].pid == rs[k].pid && rs[i].sig == rs[k].sig
    {
      assert k >= 0;
      if rs[i].Stopped? {
        assert n.stop && lines[0] == StoppedLine(n.jid, n.pid, n.sig);
      } else {
        assert n.term && lines[|lines| - 1] == TerminatedLine(n.jid, n.pid, n.sig);
      }
    }
  }

  /** Job 5 stops, job 6 is terminated, and the line about the stop names job 6. */
  lemma MixedLines(t: Table)
    requires Quiet(t.news)
    ensures var lines := Lines(HandleAll(t, [Stopped(5, 20), Signaled(6, 2)]).news);
            |lines| == 2 && lines[0].StoppedLine? && lines[0].pid == 6 && lines[0].sig == 2
  {
    var rs := [Stopped(5, 20), Signaled(6, 2)];
    assert rs[0].Stopped? && rs[1].Signaled?;
    NewsAfter(t, rs);
  }

  /** Two jobs stop, and only the second is named. */
  lemma UntoldStop(t: Table)
    requires Quiet(t.news)
    ensures var lines := Lines(HandleAll(t, [Stopped(5, 20), Stopped(6, 20)]).news);
            |lines| == 1 && lines[0].pid == 6 && !Told(lines, Stopped(5, 20))
  {
    var rs := [Stopped(5, 20), Stopped(6, 20)];
    assert rs[0].Stopped? && rs[1].Stopped?;
    NewsAfter(t, rs);
  }

  // ---------------------------------------------------------------- the code

  class JobList {
    const jobs: array<Job>
    var nextjid: int
    var stopMsg: bool
    var termMsg: bool
    var msgJid: int
    var msgPid: int
    var msgSig: int

    ghost function View(): Table
      reads this, jobs
    {
      Table(jobs[..], nextjid, News(stopMsg, termMsg, msgJid, msgPid, msgSig))
    }

    /** initjobs */
    constructor ()
      ensures View() == EMPTY_TABLE
      ensures TableOk(View())
      ensures fresh(jobs)
    {
      jobs := new Job[MAXJOBS](_ => EMPTY);
      nextjid := 1;
      stopMsg, termMsg := false, false;
      msgJid, msgPid, msgSig := 0, 0, 0;
      new;
      assert jobs[..] == FreeSlots();
    }

    method MaxJid() returns (max: int)
      ensures max == MaxJidOf(jobs[..])
    {
      max := 0;
      var i := 0;
      while i < jobs.Length
        invariant 0 <= i <= jobs.Length && max == MaxJidOf(jobs[..i])
      {
        assert jobs[..i + 1][..i] == jobs[..i];
        if jobs[i].jid > max {
          max := jobs[i].jid;
        }
        i := i + 1;
      }
      assert jobs[..i] == jobs[..];
    }

    method AddJob(pid: int, state: JobState, cmdline: string) returns (ok: bool)
      modifies this, jobs
      ensures View() == Add(old(View()), pid, state, cmdline)
      ensures ok <==> pid >= 1 && IndexOf(old(jobs[..]), 0) >= 0
    {
      if pid < 1 {
        return false;
      }
      var i := 0;
      while i < jobs.Length
        invariant 0 <= i <= jobs.Length && forall k :: 0 <= k < i ==> jobs[..][k].pid != 0
        invariant View() == old(View())
      {
        if jobs[i].pid == 0 {
          assert jobs[..][i].pid == 0;
          jobs[i] := Job(pid, nextjid, state, cmdline);
          nextjid := nextjid + 1;
          if nextjid > MAXJOBS {
            nextjid := 1;
          }
          return true;
        }
        i := i + 1;
      }
      return false;
    }

    method DeleteJob(pid: int) returns (ok: bool)
      modifies this, jobs
      ensures View() == Delete(old(View()), pid)
      ensures ok <==> pid >= 1 && IndexOf(old(jobs[..]), pid) >= 0
    {
      hide MaxJidOf;
      if pid < 1 {
        return false;
      }
      var i := 0;
      while i < jobs.Length
        invariant 0 <= i <= jobs.Length && forall k :: 0 <= k < i ==> jobs[..][k].pid != pid
        invariant View() == old(View())
      {
        if jobs[i].pid == pid {
          assert jobs[..][i].pid == pid;
          jobs[i] := EMPTY;
          var max := MaxJid();
          nextjid := max + 1;
          return true;
        }
        i := i + 1;
      }
      return false;
    }

    method FgPid() returns (pid: int)
      ensures pid == FgPidOf(jobs[..])
    {
      var i := 0;
      while i < jobs.Length
        invariant 0 <= i <= jobs.Length && FgPidOf(jobs[..]) == FgPidOf(jobs[i..])
      {
        if jobs[i].state == Fg {
          return jobs[i].pid;
        }
        assert jobs[i..][1..] == jobs[i + 1..];
        i := i + 1;
      }
      return 0;
    }

    /** getjobpid: the slot of a process, or -1. */
    method GetJobPid(pid: int) returns (i: int)
      ensures i == if pid < 1 then -1 else IndexOf(jobs[..], pid)
    {
      if pid < 1 {
        return -1;
      }
      i := 0;
      while i < jobs.Length
        invariant 0 <= i <= jobs.Length && forall k :: 0 <= k < i ==> jobs[..][k].pid != pid
      {
        if jobs[i].pid == pid {
          assert jobs[..][i].pid == pid;
          return;
        }
        i := i + 1;
      }
      i := -1;
    }

    method Pid2Jid(pid: int) returns (jid: int)
      ensures jid == JidOf(jobs[..], pid)
    {
      var i := GetJobPid(pid);
      return if i < 0 then 0 else jobs[i].jid;
    }

    /** What eval prints at its end; the flags are cleared, the data stay. */
    method PrintMessages() returns (lines: seq<Line>)
      modifies this
      ensures lines == Lines(old(View()).news)
      ensures View() == old(View()).(news := old(View()).news.(stop := false, term := false))
    {
      lines := [];
      if stopMsg {
        lines := lines + [StoppedLine(msgJid, msgPid, msgSig)];
        stopMsg := false;
      }
      if termMsg {
        lines := lines + [TerminatedLine(msgJid, msgPid, msgSig)];
        termMsg := false;
      }
    }

    /** The part of sigchld_handler's loop that runs with all signals blocked. */
    method HandleReport(r: Report)
      modifies this, jobs
      ensures View() == Handle(old(View()), r)
    {
      match r {
        case Exited(pid) =>
          var _ := DeleteJob(pid);
        case Stopped(pid, sig) =>
          msgJid := Pid2Jid(pid);
          msgPid := pid;
          msgSig := sig;
          stopMsg := true;
          var i := GetJobPid(pid);
          if i >= 0 {
            jobs[i] := jobs[i].(state := St);
          }
        case Signaled(pid, sig) =>
          msgJid := Pid2Jid(pid);
          msgPid := pid;
          msgSig := sig;
          termMsg := true;
          var _ := DeleteJob(pid);
      }
    }

    /** sigchld_handler: all reports waitpid has, until it has none. */
    method SigchldHandler(reports: seq<Report>)
      modifies this, jobs
      ensures View() == HandleAll(old(View()), reports)
      ensures old(TableOk(View())) ==> TableOk(View())
    {
      var n := 0;
      while n < |reports|
        invariant 0 <= n <= |reports| && View() == HandleAll(old(View()), reports[..n])
      {
        HandleReport(reports[n]);
        assert reports[..n + 1][..n] == reports[..n];
        n := n + 1;
      }
      assert reports[..n] == reports;
      if old(TableOk(View())) {
        HandleAllOk(old(View()), reports);
      }
    }
  }
}
