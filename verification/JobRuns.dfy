/** What jobs and end records say, read off the messages, in every run of the daemon. */
module JobRuns {
  import opened AccounterRuns
  import opened Histories
  import opened HostRuns
  import opened Jobs
  import opened Options
  import opened QueueRuns
  import opened RecordRuns
  import opened Tasks

  // ----- what one event reports about job `k`

  function HeadIn(e: Event, k: TaskId): Option<Header> {
    if HeadOf(e).Some? && HeadOf(e).value.logger == k then HeadOf(e) else None
  }

  function UidIn(k: TaskId): Event -> Option<int> {
    (e: Event) => match HeadIn(e, k) case None => None case Some(h) => Some(h.uid)
  }

  function GidIn(k: TaskId): Event -> Option<int> {
    (e: Event) => match HeadIn(e, k) case None => None case Some(h) => Some(h.gid)
  }

  function StartIn(k: TaskId): Event -> Option<int> {
    (e: Event) => if e.Start? && e.head.logger == k && e.head.rank == -1 && e.taskSize >= 1 then Some(e.now)
                  else None
  }

  /** Rank 0 names the job. */
  function NameIn(k: TaskId): Event -> Option<string> {
    (e: Event) => if Starts(e, k) && e.head.rank == 0 then Some(e.exec) else None
  }

  function IdIn(k: TaskId): Event -> Option<string> {
    (e: Event) => if e.Log? && e.head.logger == k then Some(e.id) else None
  }

  function ChildrenIn(k: TaskId): Event -> Option<int> {
    (e: Event) => if e.Log? && e.head.logger == k then Some(e.children)
                  else if LoggerEnds(e, k) then Some(e.info.children) else None
  }

  /** A child's exit status, unless it is 0. */
  function StatusIn(k: TaskId): Event -> Option<int> {
    (e: Event) => if Exits(e, k) && e.info.exitStatus != 0 then Some(e.info.exitStatus) else None
  }

  function WalltimeIn(e: Event, k: TaskId): Option<Walltime> {
    if LoggerEnds(e, k) || Exits(e, k) then Some(e.info.walltime) else None
  }

  predicate InvalidCpu(e: Event, k: TaskId) {
    Exits(e, k) && e.info.cputime < 0
  }

  // ----- what the events since its creation report

  function Latest<T>(h: seq<Event>, f: Event -> Option<T>): Option<T> {
    if h == [] then None
    else if f(h[|h| - 1]).Some? then f(h[|h| - 1]) else Latest(h[..|h| - 1], f)
  }

  function Earliest<T>(h: seq<Event>, f: Event -> Option<T>): Option<T> {
    if h == [] then None
    else if f(h[0]).Some? then f(h[0]) else Earliest(h[1..], f)
  }

  function OrElse<T>(o: Option<T>, default: T): T {
    if o.Some? then o.value else default
  }

  /** The times of the last QUEUE message and of all START messages behind it. */
  function QueueTimes(h: seq<Event>, k: TaskId): seq<int> {
    if h == [] then [] else
    var front, e := h[..|h| - 1], h[|h| - 1];
    if e.Queue? && e.head.logger == k && e.head.rank == -1 then [e.now]
    else if StartIn(k)(e).Some? then QueueTimes(front, k) + [e.now]
    else QueueTimes(front, k)
  }

  function FirstNonZero(s: seq<int>): int {
    if s == [] then 0 else if s[0] != 0 then s[0] else FirstNonZero(s[1..])
  }

  /** The longest walltime in whole seconds, the first one of several. */
  function Longest(h: seq<Event>, k: TaskId): Walltime {
    if h == [] then Walltime(0, 0) else
    var before := Longest(h[..|h| - 1], k);
    match WalltimeIn(h[|h| - 1], k)
    case Some(w) => if before.sec < w.sec then w else before
    case None => before
  }

  /** When a child's exit last made the numbers of exits and starts equal; 0 if never. */
  function EndTime(h: seq<Event>, k: TaskId): int {
    if h == [] then 0
    else if Exits(h[|h| - 1], k) && Exited(h, k) == Started(h, k) then h[|h| - 1].now
    else EndTime(h[..|h| - 1], k)
  }

  ghost predicate SomeInvalidCpu(h: seq<Event>, k: TaskId) {
    exists i | 0 <= i < |h| :: InvalidCpu(h[i], k)
  }

  /** No walltime reported is longer than the longest one, which was reported, and
      before all others that are as long; or none is longer than 0. */
  lemma {:induction false} LongestIs(h: seq<Event>, k: TaskId)
    ensures var w := Longest(h, k);
            && (forall i | 0 <= i < |h| && WalltimeIn(h[i], k).Some? :: WalltimeIn(h[i], k).value.sec <= w.sec)
            && (w == Walltime(0, 0) ||
                exists i | 0 <= i < |h| :: WalltimeIn(h[i], k) == Some(w) && w.sec > Longest(h[..i], k).sec >= 0)
  {
    if h != [] {
      var front, e := h[..|h| - 1], h[|h| - 1];
      LongestIs(front, k);
      assert forall i | 0 <= i < |front| :: front[..i] == h[..i] && front[i] == h[i];
      assert h[..|h| - 1] == front;
    }
  }

  // ----- a job says what was reported

  datatype Told = Told(
    uid: Option<int>,
    gid: Option<int>,
    jobname: Option<string>,
    jobid: Option<string>,
    loggerChildren: int,
    exitStatus: int,
    queueTime: int,
    startTime: int,
    endTime: int,
    walltime: Walltime)

  function ToldBy(h: seq<Event>, k: TaskId): Told {
    Told(Earliest(h, UidIn(k)), Earliest(h, GidIn(k)), Latest(h, NameIn(k)), Earliest(h, IdIn(k)),
         OrElse(Latest(h, ChildrenIn(k)), 0), OrElse(Latest(h, StatusIn(k)), 0),
         FirstNonZero(QueueTimes(h, k)), OrElse(Latest(h, StartIn(k)), 0), EndTime(h, k), Longest(h, k))
  }

  function ToldOf(v: JobInfo): Told {
    Told(v.uid, v.gid, v.jobname, v.jobid, v.loggerChildren, v.exitStatus, v.queueTime, v.startTime, v.endTime,
         v.walltime)
  }

  /** The data of the job is what the events report. */
  ghost predicate Tells(h: seq<Event>, k: TaskId, v: JobInfo) {
    ToldOf(v) == ToldBy(h, k) && (v.incomplete <==> SomeInvalidCpu(h, k)) && CountsOf(v) == Totals(h, k)
  }

  // ----- one event more

  lemma LatestStep<T>(h: seq<Event>, e: Event, f: Event -> Option<T>)
    ensures Latest(h + [e], f) == if f(e).Some? then f(e) else Latest(h, f)
  {
    assert (h + [e])[..|h|] == h;
  }

  lemma {:induction false} EarliestStep<T>(h: seq<Event>, e: Event, f: Event -> Option<T>)
    ensures Earliest(h + [e], f) == if Earliest(h, f).Some? then Earliest(h, f) else f(e)
  {
    if h == [] {
      assert [e][1..] == [];
      assert h + [e] == [e];
    } else {
      assert (h + [e])[1..] == h[1..] + [e];
      EarliestStep(h[1..], e, f);
    }
  }

  lemma {:induction false} FirstNonZeroStep(s: seq<int>, x: int)
    ensures FirstNonZero(s + [x]) == if FirstNonZero(s) != 0 then FirstNonZero(s) else x
  {
    if s == [] {
      assert [x][1..] == [];
      assert s + [x] == [x];
    } else {
      assert (s + [x])[1..] == s[1..] + [x];
      FirstNonZeroStep(s[1..], x);
    }
  }

  /** What an event adds to what is told. */
  function ToldNext(t: Told, e: Event, k: TaskId, complete: bool): Told {
    Told(
      if t.uid.Some? then t.uid else UidIn(k)(e),
      if t.gid.Some? then t.gid else GidIn(k)(e),
      if NameIn(k)(e).Some? then NameIn(k)(e) else t.jobname,
      if t.jobid.Some? then t.jobid else IdIn(k)(e),
      OrElse(ChildrenIn(k)(e), t.loggerChildren),
      OrElse(StatusIn(k)(e), t.exitStatus),
      if e.Queue? && e.head.logger == k && e.head.rank == -1 then e.now
      else if StartIn(k)(e).Some? && t.queueTime == 0 then e.now else t.queueTime,
      OrElse(StartIn(k)(e), t.startTime),
      if Exits(e, k) && complete then e.now else t.endTime,
      match WalltimeIn(e, k)
      case Some(w) => if t.walltime.sec < w.sec then w else t.walltime
      case None => t.walltime)
  }

  lemma ToldStep(h: seq<Event>, e: Event, k: TaskId)
    ensures var c := Totals(h + [e], k); ToldBy(h + [e], k) == ToldNext(ToldBy(h, k), e, k, c.exited == c.started)
  {
    hide Latest, Earliest, FirstNonZero;
    EarliestStep(h, e, UidIn(k));
    EarliestStep(h, e, GidIn(k));
    LatestStep(h, e, NameIn(k));
    EarliestStep(h, e, IdIn(k));
    LatestStep(h, e, ChildrenIn(k));
    LatestStep(h, e, StatusIn(k));
    LatestStep(h, e, StartIn(k));
    assert (h + [e])[..|h|] == h;
    FirstNonZeroStep(QueueTimes(h, k), if StartIn(k)(e).Some? then e.now else 0);
    FirstNonZeroStep([], if e.Queue? then e.now else 0);
    assert [] + [if e.Queue? then e.now else 0] == [if e.Queue? then e.now else 0];
    NoTimes();
  }

  lemma NoTimes()
    ensures FirstNonZero([]) == 0
  {
  }

  // ----- one step of the daemon

  /** `w` is job `k` after the event, `v` before it. */
  ghost predicate Follows(v: JobInfo, w: JobInfo, e: Event, k: TaskId) {
    && ToldOf(w) == ToldNext(ToldOf(v), e, k, w.countExitMsg == w.procStartCount)
    && (w.incomplete <==> v.incomplete || InvalidCpu(e, k))
    && CountsOf(w) == Add(CountsOf(v), e, k)
  }

  lemma HeaderOnly(s: State, h: Header, k: TaskId)
    requires k in WithHeader(s, h).jobs
    ensures var v := Before(s, k);
            WithHeader(s, h).jobs[k] ==
            if h.logger == k then v.(uid := FirstOf(v.uid, h.uid), gid := FirstOf(v.gid, h.gid)) else v
    ensures h.logger in WithHeader(s, h).jobs
    ensures h.logger != k ==> k in s.jobs
  {
  }

  /** What END does to a job that stays in the tree. */
  lemma EndLeaves(s: State, h: Header, sender: TaskId, info: EndInfo, now: int, k: TaskId)
    requires k in OnEnd(s, h, sender, info, now).jobs
    ensures k in WithHeader(s, h).jobs
    ensures var v := WithHeader(s, h).jobs[k];
            OnEnd(s, h, sender, info, now).jobs[k] ==
            if h.logger != k then v
            else if sender == k then (if h.rank == -1 then LoggerEnd(v, info) else v)
            else if h.rank >= 0 then ChildEnd(v, info, now) else v
  {
    hide WithHeader, MakeRecord, LoggerEnd, ChildEnd;
  }

  lemma {:induction false} EndFollows(s: State, h: Header, sender: TaskId, info: EndInfo, now: int, k: TaskId)
    requires k in OnEnd(s, h, sender, info, now).jobs
    ensures Follows(Before(s, k), OnEnd(s, h, sender, info, now).jobs[k], End(h, sender, info, now), k)
  {
    hide WithHeader, OnEnd, Before;
    EndLeaves(s, h, sender, info, now, k);
    HeaderOnly(s, h, k);
  }

  lemma ExpireLeaves(s: State, now: int, k: TaskId)
    requires k in OnExpire(s, now).jobs
    ensures k in s.jobs && OnExpire(s, now).jobs[k] == s.jobs[k]
  {
    hide MakeRecord, TimedOut;
  }

  lemma ExpireFollows(s: State, now: int, k: TaskId)
    requires k in OnExpire(s, now).jobs
    ensures Follows(Before(s, k), OnExpire(s, now).jobs[k], Expire(now), k)
  {
    hide OnExpire;
    ExpireLeaves(s, now, k);
  }

  lemma QueueFollows(s: State, e: Event, hostnames: seq<string>, k: TaskId)
    requires e.Queue? && k in Step(s, e, hostnames).jobs
    ensures Follows(Before(s, k), Step(s, e, hostnames).jobs[k], e, k)
  {
    hide WithHeader, Before;
    HeaderOnly(s, e.head, k);
  }

  lemma StartFollows(s: State, e: Event, hostnames: seq<string>, k: TaskId)
    requires e.Start? && k in Step(s, e, hostnames).jobs
    ensures Follows(Before(s, k), Step(s, e, hostnames).jobs[k], e, k)
  {
    hide WithHeader, Before;
    HeaderOnly(s, e.head, k);
  }

  lemma ChildFollows(s: State, e: Event, hostnames: seq<string>, k: TaskId)
    requires e.Child? && k in Step(s, e, hostnames).jobs
    ensures Follows(Before(s, k), Step(s, e, hostnames).jobs[k], e, k)
  {
    hide WithHeader, Before;
    HeaderOnly(s, e.head, k);
  }

  lemma LogFollows(s: State, e: Event, hostnames: seq<string>, k: TaskId)
    requires e.Log? && k in Step(s, e, hostnames).jobs
    ensures Follows(Before(s, k), Step(s, e, hostnames).jobs[k], e, k)
  {
    hide WithHeader, Before;
    HeaderOnly(s, e.head, k);
  }

  /** The events without a header. */
  lemma OthersFollow(s: State, e: Event, hostnames: seq<string>, k: TaskId)
    requires (e.Slots? || e.Delete? || e.Lost? || e.SigRes?) && k in Step(s, e, hostnames).jobs
    ensures Follows(Before(s, k), Step(s, e, hostnames).jobs[k], e, k)
  {
    hide AddSlots;
    if e.Slots? && e.logger in s.jobs {
      AddSlotsFrame(s.jobs[e.logger], e.slots, hostnames);
    }
  }

  lemma StepFollows(s: State, e: Event, hostnames: seq<string>, k: TaskId)
    requires k in Step(s, e, hostnames).jobs
    ensures Follows(Before(s, k), Step(s, e, hostnames).jobs[k], e, k)
  {
    hide OnQueue, OnStart, OnChild, OnLog, OnEnd, OnSlots, OnDelete, OnSigRes, OnExpire, Follows, Before;
    match e
    case End(h, sender, info, now) => EndFollows(s, h, sender, info, now, k);
    case Expire(now) => ExpireFollows(s, now, k);
    case Queue(_, _) => QueueFollows(s, e, hostnames, k);
    case Start(_, _, _) => StartFollows(s, e, hostnames, k);
    case Child(_, _) => ChildFollows(s, e, hostnames, k);
    case Log(_, _, _) => LogFollows(s, e, hostnames, k);
    case _ => OthersFollow(s, e, hostnames, k);
  }

  // ----- jobs in every run

  lemma NothingTold(k: TaskId, serial: nat)
    ensures Tells([], k, NewJob(serial, k))
  {
  }

  lemma InvalidStep(h: seq<Event>, e: Event, k: TaskId)
    ensures SomeInvalidCpu(h + [e], k) <==> SomeInvalidCpu(h, k) || InvalidCpu(e, k)
  {
    var all := h + [e];
    if SomeInvalidCpu(h, k) {
      var i :| 0 <= i < |h| && InvalidCpu(h[i], k);
      assert InvalidCpu(all[i], k);
    }
    assert all[|h|] == e;
  }

  lemma FollowsTells(h: seq<Event>, v: JobInfo, w: JobInfo, e: Event, k: TaskId)
    requires Tells(h, k, v) && Follows(v, w, e, k)
    ensures Tells(h + [e], k, w)
  {
    hide ToldBy, ToldNext, SomeInvalidCpu, Totals, InvalidCpu;
    TotalsStep(h, e, k);
    ToldStep(h, e, k);
    InvalidStep(h, e, k);
  }

  /** In every run: every field of every job in the tree is what the messages since its
      creation report. */
  lemma {:induction false} EveryJobTells(es: seq<Event>, hostnames: seq<string>, k: TaskId)
    requires k in After(INITIAL, es, hostnames).jobs
    ensures Tells(History(es, hostnames, k), k, After(INITIAL, es, hostnames).jobs[k])
    decreases |es|, 0
  {
    hide After, Step, Tells, Follows, History, NewJob;
    if es == [] {
      NobodyAtFirst(hostnames);
    } else {
      var front, last := es[..|es| - 1], es[|es| - 1];
      LastStep(INITIAL, es, hostnames);
      JobBeforeTells(front, hostnames, k);
      StepFollows(After(INITIAL, front, hostnames), last, hostnames, k);
      HistoryStep(es, hostnames, k);
      FollowsTells(History(front, hostnames, k), Before(After(INITIAL, front, hostnames), k),
                   After(INITIAL, es, hostnames).jobs[k], last, k);
    }
  }

  lemma {:induction false} JobBeforeTells(es: seq<Event>, hostnames: seq<string>, k: TaskId)
    ensures Tells(History(es, hostnames, k), k, Before(After(INITIAL, es, hostnames), k))
    decreases |es|, 1
  {
    hide After, Tells, History;
    var s := After(INITIAL, es, hostnames);
    if k in s.jobs {
      EveryJobTells(es, hostnames, k);
    } else {
      HistoryStep(es, hostnames, k);
      NothingTold(k, s.created);
    }
  }

  // ----- end records in every run

  /** The record says what the events report of its job, up to the one that wrote it. */
  ghost predicate Reports(r: EndRecord, h: seq<Event>, e: Event)
    requires e.End? || e.Expire?
  {
    var k := r.logger;
    var missing := e.Expire? && Started(h, k) != Exited(h, k);
    var end := if missing || EndTime(h, k) == 0 then e.now else EndTime(h, k);
    var start, w := OrElse(Latest(h, StartIn(k)), 0), Longest(h, k);
    var queue := FirstNonZero(QueueTimes(h, k));
    var children := OrElse(Latest(h, ChildrenIn(k)), 0);
    && r.jobname == OrElse(Latest(h, NameIn(k)), "unknown")
    && r.jobid == OrElse(Earliest(h, IdIn(k)), "")
    && r.exitStatus == OrElse(Latest(h, StatusIn(k)), 0)
    && r.started == Started(h, k) && r.exited == Exited(h, k) && r.cput == CpuUsed(h, k)
    && (e.End? ==> r.exited >= r.started)
    && r.procs == (if r.started != 0 then r.started else if r.exited < children then children else r.exited)
    && r.end == end
    && r.start == (if start != 0 then start
                   else if w == Walltime(0, 0) || end == 0 then 0
                   else end - w.sec - (if w.usec != 0 then 2 else 0))
    && r.wallspan == (if start != 0 && start <= end then end - start
                      else w.sec + (if w.usec != 0 then 1 else 0))
    && r.queue == (if queue != 0 then queue else r.start)
    && (r.incomplete <==> Marked(h, e, k, end))
  }

  /** When a record is marked incomplete: a child reported an invalid CPU time; an expiry
      found exits missing; there was no end time; or neither a usable start nor a
      walltime. */
  ghost predicate Marked(h: seq<Event>, e: Event, k: TaskId, end: int)
    requires e.End? || e.Expire?
  {
    var start := OrElse(Latest(h, StartIn(k)), 0);
    || SomeInvalidCpu(h, k)
    || (e.Expire? && Started(h, k) != Exited(h, k))
    || (EndTime(h, k) == 0 && (e.Expire? || e.now == 0))
    || ((start == 0 || start > end) && Longest(h, k) == Walltime(0, 0))
  }

  /** The job of a record before the time of its end is settled. */
  function Unsettled(s: State, e: Event): JobInfo
    requires Written(s, e).Some?
  {
    match e
    case End(h, _, info, _) => LoggerEnd(WithHeader(s, h).jobs[h.logger], info)
    case Expire(_) => s.jobs[s.dJobs[0]]
  }

  lemma WrittenIs(s: State, e: Event)
    requires FateInvariant(s) && Written(s, e).Some?
    ensures var (v, now) := Written(s, e).value;
            var u := Unsettled(s, e);
            && (e.End? || e.Expire?) && now == e.now
            && v == (if e.Expire? then TimedOut(u, now) else u.(endTime := if u.endTime == 0 then now else u.endTime))
            && v.logger == u.logger && Follows(Before(s, u.logger), u, e, u.logger)
            && SameHosts(u, Before(s, u.logger))
            && (e.End? ==> LoggerEnds(e, u.logger) && u.countExitMsg >= u.procStartCount)
            && (e.Expire? ==> u.logger in s.jobs)
  {
    hide FateInvariant, WithHeader;
    if e.End? {
      var k := e.head.logger;
      HeaderKeepsFates(s, e.head);
      KeyedByLogger(WithHeader(s, e.head), k);
      HeaderOnly(s, e.head, k);
    } else {
      KeyedByLogger(s, s.dJobs[0]);
    }
  }

  lemma LongestIsPositive(h: seq<Event>, k: TaskId)
    ensures Longest(h, k) == Walltime(0, 0) || Longest(h, k).sec > 0
  {
    hide Longest;
    LongestIs(h, k);
  }

  lemma RecordReports(u: JobInfo, h: seq<Event>, e: Event)
    requires Tells(h, u.logger, u) && (e.End? || e.Expire?) && (e.End? ==> u.countExitMsg >= u.procStartCount)
    ensures var v := if e.Expire? then TimedOut(u, e.now)
                     else u.(endTime := if u.endTime == 0 then e.now else u.endTime);
            Reports(MakeRecord(v, e.now), h, e) && MakeRecord(v, e.now).execHosts == u.execHosts
  {
    hide Longest, EndTime, Latest, Earliest, QueueTimes, FirstNonZero, SomeInvalidCpu, Started, Exited, CpuUsed;
    LongestIsPositive(h, u.logger);
  }

  /** The host string of the record. */
  ghost predicate ListsHosts(r: EndRecord, es: seq<Event>, hostnames: seq<string>) {
    r.execHosts == JoinPlus(AllEntries(SlotMessages(es, hostnames, r.logger), hostnames))
  }

  /** Record `r`, written by event `j`, says what the events report of its job since the
      job was created. */
  ghost predicate RecordTells(r: EndRecord, es: seq<Event>, hostnames: seq<string>, j: nat) {
    && j < |es| && (es[j].End? || es[j].Expire?)
    && Reports(r, History(es[..j], hostnames, r.logger) + [es[j]], es[j])
    && ListsHosts(r, es[..j + 1], hostnames)
  }

  lemma HostsBefore(es: seq<Event>, hostnames: seq<string>, k: TaskId)
    requires es != [] && !es[|es| - 1].Slots?
    ensures Before(After(INITIAL, es[..|es| - 1], hostnames), k).execHosts ==
            JoinPlus(AllEntries(SlotMessages(es, hostnames, k), hostnames))
  {
    hide After, AllEntries, JoinPlus;
    var front := es[..|es| - 1];
    var s := After(INITIAL, front, hostnames);
    if k in s.jobs {
      EveryRunListsHosts(front, hostnames, k);
      assert SlotMessages(front, hostnames, k) + [] == SlotMessages(front, hostnames, k);
    } else {
      FreshLists(s.created, k, hostnames);
    }
  }

  /** The record that the last event of a run writes. */
  lemma WrittenTells(es: seq<Event>, hostnames: seq<string>)
    requires es != [] && Runs(INITIAL, es, hostnames)
    requires Written(After(INITIAL, es[..|es| - 1], hostnames), es[|es| - 1]).Some?
    ensures var (v, now) := Written(After(INITIAL, es[..|es| - 1], hostnames), es[|es| - 1]).value;
            RecordTells(MakeRecord(v, now), es, hostnames, |es| - 1)
  {
    hide After, Runs, Step, Written, Unsettled, MakeRecord, Tells, Follows, Reports, History, TimedOut, FateInvariant,
         SlotMessages, Before;
    var front, last := es[..|es| - 1], es[|es| - 1];
    var s := After(INITIAL, front, hostnames);
    LastStep(INITIAL, es, hostnames);
    EveryRunKeepsFates(front, hostnames);
    WrittenIs(s, last);
    var u := Unsettled(s, last);
    var (v, now) := Written(s, last).value;
    var k := u.logger;
    JobBeforeTells(front, hostnames, k);
    FollowsTells(History(front, hostnames, k), Before(s, k), u, last, k);
    RecordReports(u, History(front, hostnames, k) + [last], last);
    RecordIdentity(v, now);
    HostsBefore(es, hostnames, k);
    assert es[..|es|] == es;
  }

  /** In every run: every field of every record is what the messages report of its job,
      from its creation to the event that wrote the record. */
  lemma {:induction false} EveryRecordTells(es: seq<Event>, hostnames: seq<string>)
    requires Runs(INITIAL, es, hostnames)
    ensures var rs, js := After(INITIAL, es, hostnames).records, WriteTimes(es, hostnames);
            |rs| == |js| && forall i | 0 <= i < |rs| :: RecordTells(rs[i], es, hostnames, js[i])
    decreases |es|
  {
    hide Step, After, Runs, Written, MakeRecord, Reports, ListsHosts, History;
    if es == [] {
      NobodyAtFirst(hostnames);
    } else {
      var front, last := es[..|es| - 1], es[|es| - 1];
      var s := After(INITIAL, front, hostnames);
      LastStep(INITIAL, es, hostnames);
      EveryRecordTells(front, hostnames);
      StepWrites(s, last, hostnames);
      var rs, js := s.records, WriteTimes(front, hostnames);
      forall i | 0 <= i < |rs| ensures RecordTells(rs[i], es, hostnames, js[i]) {
        assert RecordTells(rs[i], front, hostnames, js[i]);
        assert es[..js[i]] == front[..js[i]] && es[..js[i] + 1] == front[..js[i] + 1];
      }
      if Written(s, last).Some? {
        WrittenTells(es, hostnames);
      }
    }
  }

  /** Exactly which records are marked incomplete. */
  lemma EveryRecordMarkedIff(es: seq<Event>, hostnames: seq<string>)
    requires Runs(INITIAL, es, hostnames)
    ensures var rs, js := After(INITIAL, es, hostnames).records, WriteTimes(es, hostnames);
            |rs| == |js| && forall i | 0 <= i < |rs| ::
              js[i] < |es| && (es[js[i]].End? || es[js[i]].Expire?) &&
              var h, k := History(es[..js[i]], hostnames, rs[i].logger) + [es[js[i]]], rs[i].logger;
              (rs[i].incomplete <==> Marked(h, es[js[i]], k, rs[i].end))
  {
    hide After, Runs, WriteTimes, History, Marked;
    EveryRecordTells(es, hostnames);
    var rs, js := After(INITIAL, es, hostnames).records, WriteTimes(es, hostnames);
    forall i | 0 <= i < |rs|
      ensures js[i] < |es| && (es[js[i]].End? || es[js[i]].Expire?) &&
              var h, k := History(es[..js[i]], hostnames, rs[i].logger) + [es[js[i]]], rs[i].logger;
              (rs[i].incomplete <==> Marked(h, es[js[i]], k, rs[i].end))
    {
      assert RecordTells(rs[i], es, hostnames, js[i]);
    }
  }

  /** So a record that is not marked incomplete was written when at least as many
      children had exited as had been started. */
  lemma EveryRecordIsHonest(es: seq<Event>, hostnames: seq<string>)
    requires Runs(INITIAL, es, hostnames)
    ensures var rs, js := After(INITIAL, es, hostnames).records, WriteTimes(es, hostnames);
            |rs| == |js| && forall i | 0 <= i < |rs| && !rs[i].incomplete ::
              js[i] < |es| &&
              var h, k := History(es[..js[i]], hostnames, rs[i].logger) + [es[js[i]]], rs[i].logger;
              Exited(h, k) >= Started(h, k)
  {
    hide After, Runs, WriteTimes, History, Started, Exited, CpuUsed;
    EveryRecordTells(es, hostnames);
    var rs, js := After(INITIAL, es, hostnames).records, WriteTimes(es, hostnames);
    forall i | 0 <= i < |rs| && !rs[i].incomplete
      ensures js[i] < |es| &&
              var h, k := History(es[..js[i]], hostnames, rs[i].logger) + [es[js[i]]], rs[i].logger;
              Exited(h, k) >= Started(h, k)
    {
      assert RecordTells(rs[i], es, hostnames, js[i]);
    }
  }

  // ----- which events write records and remove jobs

  /** The END of a logger writes the record of its job if and only if, by the messages,
      no exit of a child is missing; otherwise the job waits. */
  lemma LoggerEndWritesIff(es: seq<Event>, hostnames: seq<string>, k: TaskId)
    requires es != [] && Runs(INITIAL, es, hostnames) && LoggerEnds(es[|es| - 1], k)
    ensures var s, t := After(INITIAL, es[..|es| - 1], hostnames), After(INITIAL, es, hostnames);
            var h := History(es[..|es| - 1], hostnames, k);
            if Exited(h, k) >= Started(h, k) then
              |t.records| == |s.records| + 1 && t.records[|s.records|].logger == k && k !in t.jobs
            else
              t.records == s.records && k in t.jobs && k in t.dJobs
  {
    hide After, Runs, Step, MakeRecord, History, FateInvariant, WithHeader, Started, Exited, CpuUsed;
    var front, last := es[..|es| - 1], es[|es| - 1];
    var s := After(INITIAL, front, hostnames);
    LastStep(INITIAL, es, hostnames);
    JobBeforeTells(front, hostnames, k);
    EveryRunKeepsFates(front, hostnames);
    EndWritesIff(s, last, hostnames, k);
  }

  lemma EndWritesIff(s: State, e: Event, hostnames: seq<string>, k: TaskId)
    requires FateInvariant(s) && LoggerEnds(e, k)
    ensures var t, c := Step(s, e, hostnames), CountsOf(Before(s, k));
            if c.exited >= c.started then
              |t.records| == |s.records| + 1 && t.records[|s.records|].logger == k && k !in t.jobs
            else
              t.records == s.records && k in t.jobs && k in t.dJobs
  {
    hide MakeRecord, FateInvariant, WithHeader;
    HeaderKeepsFates(s, e.head);
    KeyedByLogger(WithHeader(s, e.head), k);
    HeaderOnly(s, e.head, k);
    HeaderLeavesRecords(s, e.head);
    var u := Unfinished(s, e);
    RecordIdentity(u, e.now);
  }

  function Unfinished(s: State, e: Event): JobInfo
    requires e.End?
  {
    var u := LoggerEnd(WithHeader(s, e.head).jobs[e.head.logger], e.info);
    u.(endTime := if u.endTime == 0 then e.now else u.endTime)
  }

  lemma HeaderLeavesRecords(s: State, h: Header)
    ensures WithHeader(s, h).records == s.records && h.logger in WithHeader(s, h).jobs
  {
  }

  /** A job leaves the tree with the DELETE message about it, or with the event that
      writes its record, and in no other way. */
  lemma {:induction false} WhoLeaves(s: State, e: Event, hostnames: seq<string>, k: TaskId)
    requires FateInvariant(s) && k in s.jobs
    ensures k !in Step(s, e, hostnames).jobs <==>
            e == Delete(k) || (Written(s, e).Some? && Written(s, e).value.0.logger == k)
  {
    hide MakeRecord, FateInvariant, WithHeader, AddSlots;
    KeyedByLogger(s, k);
    if e.End? {
      HeaderKeepsFates(s, e.head);
      KeyedByLogger(WithHeader(s, e.head), e.head.logger);
      HeaderKeepsKey(s, e.head, k);
    } else if e.Queue? || e.Start? || e.Child? || e.Log? {
      HeaderKeepsKey(s, e.head, k);
    } else if e.Expire? && s.dJobs != [] && s.dJobs[0] in s.jobs {
      KeyedByLogger(s, s.dJobs[0]);
    }
  }

  lemma HeaderKeepsKey(s: State, h: Header, k: TaskId)
    requires k in s.jobs
    ensures k in WithHeader(s, h).jobs
  {
  }

  /** After DELETE there is no job of that ID, and a job that was there is removed; all
      other jobs, the queue, the timer and the records stay. */
  lemma DeleteRemoves(s: State, k: TaskId, hostnames: seq<string>)
    ensures var t := Step(s, Delete(k), hostnames);
            && k !in t.jobs && (k in s.jobs ==> Removed(t, s.jobs[k].serial))
            && (forall l | l in s.jobs && l != k :: l in t.jobs && t.jobs[l] == s.jobs[l])
            && (forall l | l in t.jobs :: l in s.jobs)
            && t.dJobs == s.dJobs && t.armed == s.armed && t.records == s.records && t.created == s.created
  {
  }
}
