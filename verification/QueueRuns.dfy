/** The queue of incomplete jobs and its timer, in every run of the daemon. */
module QueueRuns {
  import opened AccounterRuns
  import opened Jobs
  import opened Options
  import opened Sequences
  import opened Tasks

  /** No job is queued twice, and the timer runs exactly while jobs are queued. */
  ghost predicate QueueKept(s: State) {
    NoDuplicates(s.dJobs) && (s.armed <==> s.dJobs != [])
  }

  /** The task ID that an event may put into the queue. */
  function Queues(e: Event): Option<TaskId> {
    match e
    case End(h, _, _, _) => Some(h.logger)
    case SigRes(request, _) => Some(request)
    case _ => None
  }

  /** A run whose END messages and SIGRES replies are about task IDs in `ids`. */
  ghost predicate QueuesIn(es: seq<Event>, ids: iset<TaskId>) {
    forall i | 0 <= i < |es| :: Queues(es[i]).Some? ==> Queues(es[i]).value in ids
  }

  // ----- which job an event is about

  /** The job of a task ID, or the one that would be created for it. */
  function SerialAt(s: State, k: TaskId): nat {
    if k in s.jobs then s.jobs[k].serial else s.created
  }

  /** The END of the logger `k` itself. */
  predicate LoggerEnds(e: Event, k: TaskId) {
    e.End? && e.head.logger == k && e.sender == k && e.head.rank == -1
  }

  /** Event `i` of the run is the END of the logger `k` of job `n`. */
  ghost predicate EndsAt(es: seq<Event>, hostnames: seq<string>, i: nat, k: TaskId, n: nat) {
    i < |es| && LoggerEnds(es[i], k) && SerialAt(After(INITIAL, es[..i], hostnames), k) == n
  }

  /** A reply that the logger `k` does not exist any more. */
  predicate Dies(e: Event, k: TaskId) {
    e.SigRes? && e.request == k && e.error == ESRCH
  }

  /** Event `i` of the run is such a reply about the logger `k` of job `n`. */
  ghost predicate DiesAt(es: seq<Event>, hostnames: seq<string>, i: nat, k: TaskId, n: nat) {
    && i < |es| && Dies(es[i], k)
    && var s := After(INITIAL, es[..i], hostnames);
       k in s.jobs && s.jobs[k].serial == n
  }

  /** With event `i` of the run the logger `k` of job `n` has ended or died. */
  ghost predicate GoneAt(es: seq<Event>, hostnames: seq<string>, i: nat, k: TaskId, n: nat) {
    EndsAt(es, hostnames, i, k, n) || DiesAt(es, hostnames, i, k, n)
  }

  ghost predicate Gone(es: seq<Event>, hostnames: seq<string>, k: TaskId, n: nat) {
    exists i :: GoneAt(es, hostnames, i, k, n)
  }

  /** Every live job whose logger has ended or died is queued, once, and the timer runs
      exactly while jobs are queued. */
  ghost predicate WaitsForGone(es: seq<Event>, hostnames: seq<string>) {
    var s := After(INITIAL, es, hostnames);
    && QueueKept(s)
    && forall k | k in s.jobs && Gone(es, hostnames, k, s.jobs[k].serial) :: k in s.dJobs
  }

  // ----- what one step does

  lemma HeaderSerial(s: State, h: Header)
    ensures forall k | k in WithHeader(s, h).jobs :: WithHeader(s, h).jobs[k].serial == SerialAt(s, k)
  {
  }

  lemma EndSerial(s: State, h: Header, sender: TaskId, info: EndInfo, now: int, k: TaskId)
    requires k in OnEnd(s, h, sender, info, now).jobs
    ensures OnEnd(s, h, sender, info, now).jobs[k].serial == SerialAt(s, k)
  {
    hide WithHeader, MakeRecord, SerialAt;
    assert k in WithHeader(s, h).jobs;
    HeaderSerial(s, h);
  }

  /** The job under an ID after a step is the one before, or the next created. */
  lemma {:induction false} StepSerial(s: State, e: Event, hostnames: seq<string>, k: TaskId)
    requires k in Step(s, e, hostnames).jobs
    ensures Step(s, e, hostnames).jobs[k].serial == SerialAt(s, k)
  {
    hide MakeRecord, AddSlots, WithHeader, OnEnd, ChildStart, TimedOut;
    match e
    case End(h, sender, info, now) => EndSerial(s, h, sender, info, now, k);
    case Slots(logger, slots) =>
      if logger in s.jobs {
        AddSlotsFrame(s.jobs[logger], slots, hostnames);
      }
    case Expire(now) => ExpireSerial(s, now, k);
    case Queue(h, _) => HeaderSerial(s, h);
    case Start(h, _, _) => HeaderSerial(s, h);
    case Child(h, exec) =>
      HeaderSerial(s, h);
      ChildSerial(WithHeader(s, h).jobs[h.logger], h.rank, exec);
    case Log(h, _, _) => HeaderSerial(s, h);
    case _ =>
  }

  lemma ChildSerial(v: JobInfo, rank: int, exec: string)
    ensures ChildStart(v, rank, exec).serial == v.serial
  {
  }

  lemma ExpireSerial(s: State, now: int, k: TaskId)
    requires k in OnExpire(s, now).jobs
    ensures k in s.jobs && OnExpire(s, now).jobs[k] == s.jobs[k]
  {
    hide MakeRecord, TimedOut;
  }

  lemma StepCreated(s: State, e: Event, hostnames: seq<string>)
    ensures s.created <= Step(s, e, hostnames).created
  {
    WhoCreates(s, e, hostnames);
  }

  lemma EnqueueKeeps(s: State, job: TaskId)
    requires QueueKept(s)
    ensures QueueKept(Enqueue(s, job))
    ensures forall k :: k in Enqueue(s, job).dJobs <==> k in s.dJobs || k == job
  {
  }

  /** An expiry pops the head of the queue, and with it the job. */
  lemma ExpirePops(s: State, now: int)
    requires QueueKept(s) && s.armed && 0 !in s.dJobs
    ensures var t := OnExpire(s, now);
            QueueKept(t) && t.dJobs == s.dJobs[1..] && s.dJobs[0] !in t.jobs
  {
    hide MakeRecord;
    var rest := s.dJobs[1..];
    assert s.dJobs[0] in s.dJobs;
    assert forall i, j | 0 <= i < j < |rest| :: rest[i] == s.dJobs[i + 1] && rest[j] == s.dJobs[j + 1];
  }

  /** Other events leave the queue alone or append to it. */
  lemma StepQueues(s: State, e: Event, hostnames: seq<string>)
    requires !e.Expire?
    ensures var t := Step(s, e, hostnames);
            || (t.dJobs == s.dJobs && t.armed == s.armed)
            || (Queues(e).Some? && var q := Enqueue(s, Queues(e).value);
                t.dJobs == q.dJobs && t.armed == q.armed)
  {
    hide MakeRecord, AddSlots, ChildStart, ChildEnd, NewJob, FirstOf;
  }

  lemma StepKeepsQueue(s: State, e: Event, hostnames: seq<string>)
    requires QueueKept(s) && 0 !in s.dJobs && Enabled(s, e) && Queues(e) != Some(0)
    ensures var t := Step(s, e, hostnames);
            QueueKept(t) && 0 !in t.dJobs
    ensures var t := Step(s, e, hostnames);
            forall k | k in s.dJobs && k in t.jobs :: k in t.dJobs
  {
    hide NoDuplicates, MakeRecord, OnQueue, OnStart, OnChild, OnLog, OnEnd, OnSlots, OnDelete, OnSigRes, OnExpire,
         Enqueue;
    if e.Expire? {
      ExpirePops(s, e.now);
      assert s.dJobs == [s.dJobs[0]] + s.dJobs[1..];
    } else {
      StepQueues(s, e, hostnames);
      if Queues(e).Some? {
        EnqueueKeeps(s, Queues(e).value);
      }
    }
  }

  /** After its logger's END, or the reply that it is gone, a job is not in the tree, or
      it is queued. */
  lemma StepGoes(s: State, e: Event, hostnames: seq<string>, k: TaskId)
    requires (LoggerEnds(e, k) || (Dies(e, k) && k in s.jobs)) && k in Step(s, e, hostnames).jobs
    ensures k in Step(s, e, hostnames).dJobs
  {
    hide MakeRecord, WithHeader;
  }

  // ----- runs

  lemma {:induction false} RunsPrefix(es: seq<Event>, hostnames: seq<string>, i: nat)
    requires i <= |es| && Runs(INITIAL, es, hostnames)
    ensures Runs(INITIAL, es[..i], hostnames)
    decreases |es|
  {
    hide Step, After, Runs;
    if i == |es| {
      assert es[..i] == es;
    } else {
      LastStep(INITIAL, es, hostnames);
      RunsPrefix(es[..|es| - 1], hostnames, i);
      assert es[..|es| - 1][..i] == es[..i];
    }
  }

  lemma {:induction false} CreatedGrows(es: seq<Event>, hostnames: seq<string>, i: nat)
    requires i <= |es|
    ensures After(INITIAL, es[..i], hostnames).created <= After(INITIAL, es, hostnames).created
    decreases |es|
  {
    hide Step, After, Runs;
    if i == |es| {
      assert es[..i] == es;
    } else {
      var front := es[..|es| - 1];
      LastStep(INITIAL, es, hostnames);
      StepCreated(After(INITIAL, front, hostnames), es[|es| - 1], hostnames);
      CreatedGrows(front, hostnames, i);
      assert front[..i] == es[..i];
    }
  }

  lemma EndCreates(s: State, e: Event, hostnames: seq<string>, k: TaskId)
    requires FateInvariant(s) && (LoggerEnds(e, k) || k in s.jobs)
    ensures SerialAt(s, k) < Step(s, e, hostnames).created
  {
    hide FateInvariant, Step;
    WhoCreates(s, e, hostnames);
    if k in s.jobs {
      KeyedByLogger(s, k);
    }
  }

  /** The job that ended or died had been created by then. */
  lemma GoneIsOld(es: seq<Event>, hostnames: seq<string>, i: nat, k: TaskId, n: nat)
    requires Runs(INITIAL, es, hostnames) && GoneAt(es, hostnames, i, k, n)
    ensures n < After(INITIAL, es, hostnames).created
  {
    hide After, Runs, Step, LoggerEnds, FateInvariant;
    var front, upto := es[..i], es[..i + 1];
    assert upto[..|upto| - 1] == front;
    RunsPrefix(es, hostnames, i);
    EveryRunKeepsFates(front, hostnames);
    EndCreates(After(INITIAL, front, hostnames), es[i], hostnames, k);
    LastStep(INITIAL, upto, hostnames);
    CreatedGrows(es, hostnames, i + 1);
  }

  /** Event `e` in state `s` is the end or the death of the logger `k` of job `n`. */
  predicate GoesWith(s: State, e: Event, k: TaskId, n: nat) {
    (LoggerEnds(e, k) && SerialAt(s, k) == n) || (Dies(e, k) && k in s.jobs && s.jobs[k].serial == n)
  }

  /** A logger that is gone went with the last event, or in the run before it. */
  lemma GoneInFront(es: seq<Event>, hostnames: seq<string>, k: TaskId, n: nat)
    requires es != []
    ensures var front, last := es[..|es| - 1], es[|es| - 1];
            Gone(es, hostnames, k, n) <==>
            Gone(front, hostnames, k, n) || GoesWith(After(INITIAL, front, hostnames), last, k, n)
  {
    hide After, LoggerEnds, SerialAt;
    var front := es[..|es| - 1];
    if i: nat :| GoneAt(es, hostnames, i, k, n) && i < |front| {
      assert front[..i] == es[..i];
      assert GoneAt(front, hostnames, i, k, n);
    }
    if i: nat :| GoneAt(front, hostnames, i, k, n) {
      assert front[..i] == es[..i];
      assert GoneAt(es, hostnames, i, k, n);
    }
    assert es[..|front|] == front;
    assert GoneAt(es, hostnames, |front|, k, n) <==> GoesWith(After(INITIAL, front, hostnames), es[|front|], k, n);
  }

  lemma {:induction false} RunWaits(es: seq<Event>, hostnames: seq<string>, ids: iset<TaskId>)
    requires Runs(INITIAL, es, hostnames) && QueuesIn(es, ids) && 0 !in ids
    ensures WaitsForGone(es, hostnames) && 0 !in After(INITIAL, es, hostnames).dJobs
    decreases |es|
  {
    hide Step, FateInvariant, QueueKept, LoggerEnds, Gone;
    var t := After(INITIAL, es, hostnames);
    if es == [] {
      NothingWaits(hostnames);
    } else {
      var front, last := es[..|es| - 1], es[|es| - 1];
      var s := After(INITIAL, front, hostnames);
      LastStep(INITIAL, es, hostnames);
      RunWaits(front, hostnames, ids);
      StepKeepsQueue(s, last, hostnames);
      forall k | k in t.jobs && Gone(es, hostnames, k, t.jobs[k].serial) ensures k in t.dJobs {
        GoneStaysQueued(es, hostnames, k);
      }
    }
  }

  lemma NothingWaits(hostnames: seq<string>)
    ensures WaitsForGone([], hostnames)
  {
  }

  lemma GoneStaysQueued(es: seq<Event>, hostnames: seq<string>, k: TaskId)
    requires es != [] && Runs(INITIAL, es, hostnames)
    requires var front, t := es[..|es| - 1], After(INITIAL, es, hostnames);
             var s := After(INITIAL, front, hostnames);
             && k in t.jobs && Gone(es, hostnames, k, t.jobs[k].serial)
             && (k in s.jobs && Gone(front, hostnames, k, s.jobs[k].serial) ==> k in s.dJobs)
             && (k in s.dJobs ==> k in t.dJobs)
    ensures k in After(INITIAL, es, hostnames).dJobs
  {
    hide Step, After, Runs, LoggerEnds, GoneAt;
    var front, last := es[..|es| - 1], es[|es| - 1];
    var s, t := After(INITIAL, front, hostnames), After(INITIAL, es, hostnames);
    var n := t.jobs[k].serial;
    LastStep(INITIAL, es, hostnames);
    StepSerial(s, last, hostnames, k);
    GoneInFront(es, hostnames, k, n);
    if Gone(front, hostnames, k, n) {
      var i :| GoneAt(front, hostnames, i, k, n);
      GoneIsOld(front, hostnames, i, k, n);
    } else {
      StepGoes(s, last, hostnames, k);
    }
  }

  /** In every run: a job that is still in the tree after its logger has ended or died is
      in the queue. */
  lemma GoneJobIsQueued(es: seq<Event>, hostnames: seq<string>, ids: iset<TaskId>, i: nat, k: TaskId)
    requires Runs(INITIAL, es, hostnames) && QueuesIn(es, ids) && 0 !in ids
    requires var t := After(INITIAL, es, hostnames);
             k in t.jobs && GoneAt(es, hostnames, i, k, t.jobs[k].serial)
    ensures k in After(INITIAL, es, hostnames).dJobs
  {
    hide After, Runs, Step, LoggerEnds, GoneAt;
    RunWaits(es, hostnames, ids);
  }

  // ----- task ID 0

  lemma AfterThree(a: Event, b: Event, c: Event, hostnames: seq<string>)
    ensures var s1 := Step(INITIAL, a, hostnames);
            var s2 := Step(s1, b, hostnames);
            && After(INITIAL, [a], hostnames) == s1
            && After(INITIAL, [a, b, c], hostnames) == Step(s2, c, hostnames)
            && (Runs(INITIAL, [a, b, c], hostnames) <==> Enabled(INITIAL, a) && Enabled(s1, b) && Enabled(s2, c))
  {
    hide Step, Enabled;
    var one, two, three := [a], [a, b], [a, b, c];
    assert one[..0] == [] && two[..1] == one && three[..2] == two;
    LastStep(INITIAL, one, hostnames);
    LastStep(INITIAL, two, hostnames);
    LastStep(INITIAL, three, hostnames);
  }

  /** A child starts, and the logger ends without waiting for it. */
  function StartOf(k: TaskId): Event {
    Child(Header(k, 0, 0, 0), "a")
  }

  function EndOf(k: TaskId, now: int): Event {
    End(Header(k, -1, 0, 0), k, EndInfo(1, Walltime(1, 0), 0, 0), now)
  }

  /** After CHILD, END and an expiry the job of logger 0 is in the tree, but no
      longer queued, and not recorded. */
  lemma ZeroIsDropped(hostnames: seq<string>) returns (es: seq<Event>)
    ensures es == [StartOf(0), EndOf(0, 1), Expire(2)] && Runs(INITIAL, es, hostnames)
    ensures var t := After(INITIAL, es, hostnames);
            && 0 in t.jobs && Gone(es, hostnames, 0, t.jobs[0].serial)
            && t.dJobs == [] && !t.armed && t.records == []
  {
    es := [StartOf(0), EndOf(0, 1), Expire(2)];
    AfterThree(es[0], es[1], es[2], hostnames);
    assert es[..1] == [es[0]];
    assert GoneAt(es, hostnames, 1, 0, 0);
  }

  /** With another job behind it, that job is never served again. */
  lemma ZeroStalls(hostnames: seq<string>, a: TaskId) returns (es: seq<Event>)
    requires a != 0
    ensures es == [StartOf(0), StartOf(a), EndOf(0, 1), EndOf(a, 1), Expire(2)] && Runs(INITIAL, es, hostnames)
    ensures Stalled(After(INITIAL, es, hostnames)) && After(INITIAL, es, hostnames).dJobs == [a]
  {
    es := [StartOf(0), StartOf(a), EndOf(0, 1), EndOf(a, 1), Expire(2)];
    AfterThree(es[0], es[1], es[2], hostnames);
    var three := [es[0], es[1], es[2]];
    var four := three + [es[3]];
    assert four[..|four| - 1] == three && es[..|es| - 1] == four;
    LastStep(INITIAL, four, hostnames);
    LastStep(INITIAL, es, hostnames);
    hide After, Runs;
  }

  /** Exactly when the queue can be relied on: every run whose END messages and
      SIGRES replies are about `ids` waits for all jobs whose logger has ended or died
      if and only if 0 is not one of them. */
  lemma WaitsForGoneIff(ids: iset<TaskId>, hostnames: seq<string>)
    ensures (forall es | Runs(INITIAL, es, hostnames) && QueuesIn(es, ids) :: WaitsForGone(es, hostnames))
       <==> 0 !in ids
  {
    hide WaitsForGone, Runs, Step, After;
    if 0 in ids {
      var es := ZeroIsDropped(hostnames);
      NotWaiting(es, hostnames);
    } else {
      forall es | Runs(INITIAL, es, hostnames) && QueuesIn(es, ids) ensures WaitsForGone(es, hostnames) {
        RunWaits(es, hostnames, ids);
      }
    }
  }

  lemma NotWaiting(es: seq<Event>, hostnames: seq<string>)
    requires var t := After(INITIAL, es, hostnames);
             0 in t.jobs && Gone(es, hostnames, 0, t.jobs[0].serial) && t.dJobs == []
    ensures !WaitsForGone(es, hostnames)
  {
    hide After, Gone;
  }

  ghost predicate Stalled(s: State) {
    !s.armed && s.dJobs != []
  }

  lemma StallStep(s: State, e: Event, hostnames: seq<string>)
    requires Stalled(s) && Enabled(s, e)
    ensures Stalled(Step(s, e, hostnames)) && s.dJobs <= Step(s, e, hostnames).dJobs
  {
  }

  /** A timer lost that way is lost for good: the queue is never served again. */
  lemma {:induction false} StallsForever(s: State, es: seq<Event>, hostnames: seq<string>)
    requires Stalled(s) && Runs(s, es, hostnames)
    ensures Stalled(After(s, es, hostnames)) && s.dJobs <= After(s, es, hostnames).dJobs
    decreases |es|
  {
    if es != [] {
      StallStep(s, es[0], hostnames);
      StallsForever(Step(s, es[0], hostnames), es[1..], hostnames);
    }
  }

  // ----- every queued job leaves within as many expiries as its position

  function Expiries(es: seq<Event>): nat {
    if es == [] then 0 else (if es[0].Expire? then 1 else 0) + Expiries(es[1..])
  }

  /** The queue only loses its head, and only to an expiry, which settles it. */
  lemma StepServesQueue(s: State, e: Event, hostnames: seq<string>, i: nat)
    requires Enabled(s, e) && i < |s.dJobs| && s.dJobs[i] in s.jobs && 0 !in s.dJobs
    ensures var t := Step(s, e, hostnames);
            if e.Expire? && i == 0 then Settled(t, s.jobs[s.dJobs[0]].serial)
            else if e.Expire? then i - 1 < |t.dJobs| && t.dJobs[i - 1] == s.dJobs[i]
            else i < |t.dJobs| && t.dJobs[i] == s.dJobs[i]
  {
    hide MakeRecord, Settled;
    if e.Expire? {
      assert s.dJobs[0] in s.dJobs;
      if i == 0 {
        var k, s1 := s.dJobs[0], s.(armed := false, dJobs := s.dJobs[1..]);
        PrintSettles(s1.(jobs := s1.jobs[k := TimedOut(s1.jobs[k], e.now)]), k, e.now);
        SameRecords(PrintEnd(s1.(jobs := s1.jobs[k := TimedOut(s1.jobs[k], e.now)]), k, e.now),
                    Step(s, e, hostnames), s.jobs[k].serial);
      }
    } else {
      hide Step;
      StepQueues(s, e, hostnames);
    }
  }

  lemma SameRecords(s: State, t: State, n: nat)
    requires s.records == t.records && s.removed == t.removed && Settled(s, n)
    ensures Settled(t, n)
  {
  }

  /** A job at place `i` of the queue is recorded or removed once the timer has
      expired `i + 1` times, whatever else happens in between. */
  lemma {:induction false} QueuedJobSettles(s: State, es: seq<Event>, hostnames: seq<string>, ids: iset<TaskId>, i: nat)
    requires QueueKept(s) && 0 !in s.dJobs && Runs(s, es, hostnames) && QueuesIn(es, ids) && 0 !in ids
    requires i < |s.dJobs| && s.dJobs[i] in s.jobs && Expiries(es) > i
    ensures Settled(After(s, es, hostnames), s.jobs[s.dJobs[i]].serial)
    decreases |es|
  {
    hide Step, QueueKept, Settled;
    var e, k := es[0], s.dJobs[i];
    var t := Step(s, e, hostnames);
    var n := s.jobs[k].serial;
    StepKeepsQueue(s, e, hostnames);
    StepServesQueue(s, e, hostnames, i);
    StepKeepsOrSettles(s, e, hostnames, k);
    if Settled(t, n) {
      RunKeepsSettled(t, es[1..], hostnames, n);
    } else {
      QueuedJobSettles(t, es[1..], hostnames, ids, if e.Expire? then i - 1 else i);
    }
  }

  lemma EndKeepsOrSettlesOwn(s: State, e: Event, hostnames: seq<string>, k: TaskId)
    requires LoggerEnds(e, k)
    ensures var t, n := Step(s, e, hostnames), SerialAt(s, k);
            (k in t.jobs && t.jobs[k].serial == n) || Settled(t, n)
  {
    hide MakeRecord, Settled, NewJob;
    var h := e.head;
    var s1 := WithHeader(s, h);
    HeaderSerial(s, h);
    assert k in s1.jobs;
    hide WithHeader;
    EndKeepsOrSettles(s1, h, k, e.info, e.now, k);
    var v1 := LoggerEnd(s1.jobs[k], e.info);
    var v2 := v1.(endTime := if v1.endTime == 0 then e.now else v1.endTime);
    PrintSettles(s1.(jobs := s1.jobs[k := v2]), k, e.now);
  }

  /** The event with which a logger ends or dies leaves its job in the tree, or settles
      it. */
  lemma GoesKeepsOrSettles(s: State, e: Event, hostnames: seq<string>, k: TaskId, n: nat)
    requires GoesWith(s, e, k, n)
    ensures var t := Step(s, e, hostnames); (k in t.jobs && t.jobs[k].serial == n) || Settled(t, n)
  {
    hide Step, Settled, LoggerEnds;
    if LoggerEnds(e, k) {
      EndKeepsOrSettlesOwn(s, e, hostnames, k);
    } else {
      StepKeepsOrSettles(s, e, hostnames, k);
    }
  }

  /** The job whose logger has ended or died is in the tree, or it is settled. */
  lemma {:induction false} GoneJobFate(es: seq<Event>, hostnames: seq<string>, i: nat, k: TaskId, n: nat)
    requires Runs(INITIAL, es, hostnames) && GoneAt(es, hostnames, i, k, n)
    ensures var t := After(INITIAL, es, hostnames); (k in t.jobs && t.jobs[k].serial == n) || Settled(t, n)
    decreases |es|
  {
    hide Step, After, Runs, LoggerEnds, Settled, SerialAt;
    var front, last := es[..|es| - 1], es[|es| - 1];
    var s := After(INITIAL, front, hostnames);
    LastStep(INITIAL, es, hostnames);
    if i == |front| {
      assert es[..i] == front;
      GoesKeepsOrSettles(s, last, hostnames, k, n);
    } else {
      assert front[..i] == es[..i];
      GoneJobFate(front, hostnames, i, k, n);
      if k in s.jobs && s.jobs[k].serial == n {
        StepKeepsOrSettles(s, last, hostnames, k);
      } else {
        StepKeepsSettled(s, last, hostnames, n);
      }
    }
  }

  /** In every run: after its logger has ended or died a job is recorded or removed
      within as many expiries as jobs are queued. */
  lemma GoneJobSettles(es: seq<Event>, more: seq<Event>, hostnames: seq<string>, ids: iset<TaskId>,
                       i: nat, k: TaskId, n: nat)
    requires Runs(INITIAL, es, hostnames) && QueuesIn(es, ids) && 0 !in ids && GoneAt(es, hostnames, i, k, n)
    requires Runs(After(INITIAL, es, hostnames), more, hostnames) && QueuesIn(more, ids)
    requires Expiries(more) >= |After(INITIAL, es, hostnames).dJobs|
    ensures Settled(After(After(INITIAL, es, hostnames), more, hostnames), n)
  {
    hide Step, After, Runs, GoneAt, Settled, QueueKept, Expiries;
    var t := After(INITIAL, es, hostnames);
    GoneJobFate(es, hostnames, i, k, n);
    RunWaits(es, hostnames, ids);
    if Settled(t, n) {
      RunKeepsSettled(t, more, hostnames, n);
    } else {
      GoneJobIsQueued(es, hostnames, ids, i, k);
      var j: nat :| j < |t.dJobs| && t.dJobs[j] == k;
      QueuedJobSettles(t, more, hostnames, ids, j);
    }
  }

  // ----- whose expiry it is

  /** All queued jobs are queued on their own account. */
  ghost predicate QueuedOnOwnAccount(es: seq<Event>, hostnames: seq<string>) {
    var s := After(INITIAL, es, hostnames);
    forall k | k in s.dJobs && k in s.jobs :: Gone(es, hostnames, k, s.jobs[k].serial)
  }

  function HeadOf(e: Event): Option<Header> {
    if e.Queue? || e.Start? || e.Child? || e.Log? || e.End? then Some(e.head) else None
  }

  /** A message starts a job under an ID that is still queued for an earlier one;
      the END of its logger would finish it at once. */
  predicate Reuses(s: State, e: Event) {
    match HeadOf(e)
    case None => false
    case Some(h) => h.logger !in s.jobs && h.logger in s.dJobs && !LoggerEnds(e, h.logger)
  }

  lemma ReuseIsLive(s: State, e: Event, hostnames: seq<string>)
    requires Reuses(s, e)
    ensures var t, k := Step(s, e, hostnames), HeadOf(e).value.logger;
            k in t.jobs && t.jobs[k].serial == s.created && k in t.dJobs
  {
    hide MakeRecord, NewJob;
    StepSerial(s, e, hostnames, HeadOf(e).value.logger);
  }

  /** Who enters the queue has ended or died. */
  lemma WhoQueues(s: State, e: Event, hostnames: seq<string>, k: TaskId)
    requires k in Step(s, e, hostnames).dJobs && k !in s.dJobs
    ensures LoggerEnds(e, k) || (Dies(e, k) && k in s.jobs)
  {
    hide MakeRecord, AddSlots, NewJob, TimedOut, ChildEnd, ChildStart, FirstOf;
  }

  lemma WhoIsNew(s: State, e: Event, hostnames: seq<string>, k: TaskId)
    requires k in Step(s, e, hostnames).jobs && k !in s.jobs
    ensures HeadOf(e).Some? && HeadOf(e).value.logger == k
  {
    hide MakeRecord, AddSlots, NewJob, TimedOut, ChildEnd, ChildStart, FirstOf;
  }

  lemma OwnAccountStep(es: seq<Event>, hostnames: seq<string>)
    requires es != [] && QueuedOnOwnAccount(es[..|es| - 1], hostnames)
    requires !Reuses(After(INITIAL, es[..|es| - 1], hostnames), es[|es| - 1])
    ensures QueuedOnOwnAccount(es, hostnames)
  {
    hide Step, After, LoggerEnds, Gone;
    var front, last := es[..|es| - 1], es[|es| - 1];
    var s, t := After(INITIAL, front, hostnames), After(INITIAL, es, hostnames);
    LastStep(INITIAL, es, hostnames);
    forall k | k in t.dJobs && k in t.jobs ensures Gone(es, hostnames, k, t.jobs[k].serial) {
      StepSerial(s, last, hostnames, k);
      GoneInFront(es, hostnames, k, t.jobs[k].serial);
      if k !in s.dJobs {
        WhoQueues(s, last, hostnames, k);
      } else if k !in s.jobs {
        WhoIsNew(s, last, hostnames, k);
      }
    }
  }

  lemma ReuseBreaks(es: seq<Event>, hostnames: seq<string>)
    requires es != [] && Runs(INITIAL, es, hostnames)
    requires Reuses(After(INITIAL, es[..|es| - 1], hostnames), es[|es| - 1])
    ensures !QueuedOnOwnAccount(es, hostnames)
  {
    hide Step, After, Runs, LoggerEnds, GoneAt, SerialAt;
    var front, last := es[..|es| - 1], es[|es| - 1];
    var s := After(INITIAL, front, hostnames);
    var k := HeadOf(last).value.logger;
    LastStep(INITIAL, es, hostnames);
    ReuseIsLive(s, last, hostnames);
    GoneInFront(es, hostnames, k, s.created);
    if i :| GoneAt(front, hostnames, i, k, s.created) {
      GoneIsOld(front, hostnames, i, k, s.created);
      assert false;
    }
  }

  /** Exactly when, throughout a run, only jobs are queued whose own logger has
      ended or died, so that expiries record no others: no message starts a job
      under an ID that is still queued. */
  lemma OwnAccountIff(es: seq<Event>, hostnames: seq<string>)
    requires Runs(INITIAL, es, hostnames)
    ensures (forall j | 0 <= j <= |es| :: QueuedOnOwnAccount(es[..j], hostnames)) <==>
            (forall j | 0 <= j < |es| :: !Reuses(After(INITIAL, es[..j], hostnames), es[j]))
  {
    hide QueuedOnOwnAccount, Reuses, After, Runs;
    if j :| 0 <= j < |es| && Reuses(After(INITIAL, es[..j], hostnames), es[j]) {
      var p := es[..j + 1];
      assert p[..|p| - 1] == es[..j];
      RunsPrefix(es, hostnames, j + 1);
      ReuseBreaks(p, hostnames);
    } else {
      forall j: nat | j <= |es| ensures QueuedOnOwnAccount(es[..j], hostnames) {
        OwnAccountPrefix(es, hostnames, j);
      }
    }
  }

  lemma {:induction false} OwnAccountPrefix(es: seq<Event>, hostnames: seq<string>, j: nat)
    requires j <= |es|
    requires forall i | 0 <= i < |es| :: !Reuses(After(INITIAL, es[..i], hostnames), es[i])
    ensures QueuedOnOwnAccount(es[..j], hostnames)
  {
    if j == 0 {
      assert es[..j] == [];
    } else {
      hide QueuedOnOwnAccount, Reuses, After;
      OwnAccountPrefix(es, hostnames, j - 1);
      var p := es[..j];
      assert p[..|p| - 1] == es[..j - 1];
      OwnAccountStep(p, hostnames);
    }
  }

  /** An ID started again while queued: its new job is recorded by the expiry that
      was meant for the old one, although its logger neither ended nor died. */
  lemma ReuseExample(hostnames: seq<string>, a: TaskId) returns (es: seq<Event>)
    requires a != 0
    ensures es == [StartOf(a), EndOf(a, 1), Delete(a), StartOf(a), Expire(2)] && Runs(INITIAL, es, hostnames)
    ensures Recorded(After(INITIAL, es, hostnames), 1) && !Gone(es, hostnames, a, 1)
  {
    es := [StartOf(a), EndOf(a, 1), Delete(a), StartOf(a), Expire(2)];
    AfterThree(es[0], es[1], es[2], hostnames);
    var three := [es[0], es[1], es[2]];
    var four := three + [es[3]];
    assert four[..|four| - 1] == three && es[..|es| - 1] == four;
    LastStep(INITIAL, four, hostnames);
    LastStep(INITIAL, es, hostnames);
    hide After, Runs;
    var t := After(INITIAL, es, hostnames);
    assert t.records[0].serial == 1;
    GoneInFront(es, hostnames, a, 1);
    GoneInFront(four, hostnames, a, 1);
    if i :| GoneAt(three, hostnames, i, a, 1) {
      GoneIsOld(three, hostnames, i, a, 1);
      assert false;
    }
  }
}
