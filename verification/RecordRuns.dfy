/** The times in end records, in every run of the daemon. */
module RecordRuns {
  import opened AccounterRuns
  import opened Jobs
  import opened Options
  import opened Tasks

  /** The job as it stands when an event writes its end record, and the time. */
  function Written(s: State, e: Event): Option<(JobInfo, int)> {
    match e
    case End(h, sender, info, now) =>
      var v := LoggerEnd(WithHeader(s, h).jobs[h.logger], info);
      if sender != h.logger || h.rank != -1 || v.countExitMsg < v.procStartCount then None
      else Some((v.(endTime := if v.endTime == 0 then now else v.endTime), now))
    case Expire(now) =>
      if s.dJobs == [] || s.dJobs[0] == 0 || s.dJobs[0] !in s.jobs then None
      else Some((TimedOut(s.jobs[s.dJobs[0]], now), now))
    case _ => None
  }

  /** All jobs written in the course of a run. */
  function AllWritten(es: seq<Event>, hostnames: seq<string>): seq<(JobInfo, int)> {
    if es == [] then [] else
    var front, last := es[..|es| - 1], es[|es| - 1];
    AllWritten(front, hostnames) +
    match Written(After(INITIAL, front, hostnames), last)
    case None => []
    case Some(w) => [w]
  }

  lemma StepWrites(s: State, e: Event, hostnames: seq<string>)
    ensures Step(s, e, hostnames).records ==
            s.records + match Written(s, e) case None => [] case Some(w) => [MakeRecord(w.0, w.1)]
  {
    hide MakeRecord, AddSlots, NewJob, ChildEnd, ChildStart, TimedOut, FirstOf;
    if e.End? {
      EndWrites(s, e);
    }
  }

  lemma EndWrites(s: State, e: Event)
    requires e.End?
    ensures OnEnd(s, e.head, e.sender, e.info, e.now).records ==
            s.records + match Written(s, e) case None => [] case Some(w) => [MakeRecord(w.0, w.1)]
  {
    hide MakeRecord, NewJob, ChildEnd, LoggerEnd, FirstOf;
  }

  /** The records of a run are made from the jobs written in its course. */
  lemma {:induction false} RecordsAreWritten(es: seq<Event>, hostnames: seq<string>)
    ensures var rs, ws := After(INITIAL, es, hostnames).records, AllWritten(es, hostnames);
            |rs| == |ws| && forall i | 0 <= i < |rs| :: rs[i] == MakeRecord(ws[i].0, ws[i].1)
    decreases |es|
  {
    hide MakeRecord, Step, Written;
    if es != [] {
      var front, last := es[..|es| - 1], es[|es| - 1];
      LastStep(INITIAL, es, hostnames);
      RecordsAreWritten(front, hostnames);
      StepWrites(After(INITIAL, front, hostnames), last, hostnames);
    }
  }

  // ----- do start, end and walltime agree?

  predicate Agrees(r: EndRecord) {
    r.end - r.start == r.wallspan
  }

  /** The times that the messages about a job have left behind: a start that is not
      after the end; or no start, but a walltime, and one without microseconds; or
      neither of these, and no end. */
  predicate TimesFit(v: JobInfo, end: int) {
    if v.startTime != 0 then v.startTime <= end
    else if end == 0 then RoundedUp(v.walltime) == 0
    else RoundedUp(v.walltime) != 0 && v.walltime.usec == 0
  }

  /** Exactly when the times of a record agree, for a walltime that is not negative. */
  lemma RecordAgreesIff(v: JobInfo, now: int)
    requires v.walltime.sec >= 0
    ensures Agrees(MakeRecord(v, now)) <==> TimesFit(v, if v.endTime == 0 then now else v.endTime)
  {
  }

  // ----- walltimes are never negative

  lemma HeaderWalltime(s: State, h: Header)
    ensures forall k | k in WithHeader(s, h).jobs && k in s.jobs ::
              WithHeader(s, h).jobs[k].walltime == s.jobs[k].walltime
    ensures forall k | k in WithHeader(s, h).jobs && k !in s.jobs ::
              WithHeader(s, h).jobs[k].walltime == Walltime(0, 0)
  {
  }

  ghost predicate NoNegative(s: State) {
    forall k | k in s.jobs :: s.jobs[k].walltime.sec >= 0
  }

  lemma HeaderKeepsNoNegative(s: State, h: Header)
    requires NoNegative(s)
    ensures NoNegative(WithHeader(s, h)) && h.logger in WithHeader(s, h).jobs
  {
    hide WithHeader;
    HeaderWalltime(s, h);
    forall k | k in WithHeader(s, h).jobs ensures WithHeader(s, h).jobs[k].walltime.sec >= 0 {
      if k !in s.jobs {
        assert WithHeader(s, h).jobs[k].walltime == Walltime(0, 0);
      }
    }
  }

  lemma EndKeepsNoNegative(s: State, h: Header, sender: TaskId, info: EndInfo, now: int)
    requires NoNegative(s)
    ensures NoNegative(OnEnd(s, h, sender, info, now))
  {
    hide WithHeader, MakeRecord;
    HeaderKeepsNoNegative(s, h);
  }

  /** Reported walltimes only replace shorter ones. */
  lemma StepKeepsNoNegative(s: State, e: Event, hostnames: seq<string>)
    requires NoNegative(s)
    ensures NoNegative(Step(s, e, hostnames))
  {
    hide WithHeader, MakeRecord, AddSlots, OnEnd;
    match e
    case End(h, sender, info, now) => EndKeepsNoNegative(s, h, sender, info, now);
    case Slots(logger, slots) =>
      if logger in s.jobs {
        AddSlotsFrame(s.jobs[logger], slots, hostnames);
      }
    case Queue(h, _) => HeaderKeepsNoNegative(s, h);
    case Start(h, _, _) => HeaderKeepsNoNegative(s, h);
    case Child(h, _) => HeaderKeepsNoNegative(s, h);
    case Log(h, _, _) => HeaderKeepsNoNegative(s, h);
    case _ =>
  }

  lemma WrittenNoNegative(s: State, e: Event)
    requires NoNegative(s) && Written(s, e).Some?
    ensures Written(s, e).value.0.walltime.sec >= 0
  {
    hide WithHeader;
    if e.End? {
      HeaderKeepsNoNegative(s, e.head);
    }
  }

  lemma {:induction false} RunKeepsNoNegative(es: seq<Event>, hostnames: seq<string>)
    ensures NoNegative(After(INITIAL, es, hostnames))
    ensures forall i | 0 <= i < |AllWritten(es, hostnames)| :: AllWritten(es, hostnames)[i].0.walltime.sec >= 0
    decreases |es|
  {
    hide Step, Written;
    if es != [] {
      var front, last := es[..|es| - 1], es[|es| - 1];
      var s := After(INITIAL, front, hostnames);
      LastStep(INITIAL, es, hostnames);
      RunKeepsNoNegative(front, hostnames);
      StepKeepsNoNegative(s, last, hostnames);
      if Written(s, last).Some? {
        WrittenNoNegative(s, last);
      }
    }
  }

  /** Exactly when the times of a record agree, for every record of every run. */
  lemma EveryRecordAgreesIff(es: seq<Event>, hostnames: seq<string>)
    ensures var rs, ws := After(INITIAL, es, hostnames).records, AllWritten(es, hostnames);
            |rs| == |ws| && forall i | 0 <= i < |rs| ::
              var v := ws[i].0;
              Agrees(rs[i]) <==> TimesFit(v, if v.endTime == 0 then ws[i].1 else v.endTime)
  {
    hide MakeRecord, Agrees, TimesFit, After, AllWritten;
    RecordsAreWritten(es, hostnames);
    RunKeepsNoNegative(es, hostnames);
    var ws := AllWritten(es, hostnames);
    forall i | 0 <= i < |ws|
      ensures Agrees(MakeRecord(ws[i].0, ws[i].1)) <==>
              TimesFit(ws[i].0, if ws[i].0.endTime == 0 then ws[i].1 else ws[i].0.endTime)
    {
      RecordAgreesIff(ws[i].0, ws[i].1);
    }
  }

  /** A logger without children reports 1 second and 5 microseconds, and no START
      was seen: the record says 2 seconds between times that are 3 seconds apart. */
  lemma RoundedTwice(hostnames: seq<string>, a: TaskId) returns (es: seq<Event>)
    ensures es == [End(Header(a, -1, 0, 0), a, EndInfo(0, Walltime(1, 5), 0, 0), 100)]
    ensures Runs(INITIAL, es, hostnames) && |After(INITIAL, es, hostnames).records| == 1
    ensures var r := After(INITIAL, es, hostnames).records[0];
            r.start == 97 && r.end == 100 && r.wallspan == 2 && !Agrees(r)
  {
    es := [End(Header(a, -1, 0, 0), a, EndInfo(0, Walltime(1, 5), 0, 0), 100)];
    assert es[..0] == [] && es[1..] == [];
    LastStep(INITIAL, es, hostnames);
  }
}
