/** What holds in every run of the accounting daemon. */
module AccounterRuns {
  import opened Options
  import opened Jobs
  import opened Tasks

  // ----- runs and their last step

  lemma {:induction false} LastStep(s: State, es: seq<Event>, hostnames: seq<string>)
    requires es != []
    ensures var front, last := es[..|es| - 1], es[|es| - 1];
            && After(s, es, hostnames) == Step(After(s, front, hostnames), last, hostnames)
            && (Runs(s, es, hostnames) <==>
                Runs(s, front, hostnames) && Enabled(After(s, front, hostnames), last))
    decreases |es|
  {
    hide Step, Enabled;
    var front := es[..|es| - 1];
    if |es| > 1 {
      LastStep(Step(s, es[0], hostnames), es[1..], hostnames);
      assert es[1..][..|es| - 2] == front[1..];
      assert es[1..][|es| - 2] == es[|es| - 1];
    } else {
      assert es[1..] == [];
    }
  }

  lemma {:induction false} AddSlotsFrame(v: JobInfo, slots: seq<Slot>, hostnames: seq<string>)
    ensures var w := AddSlots(v, slots, hostnames);
            w == v.(execHosts := w.execHosts, countSlotMsg := w.countSlotMsg)
    decreases |slots|
  {
    if slots != [] && slots[0].node < |hostnames| {
      AddSlotsFrame(AddSlot(v, SlotEntry(slots[0], hostnames)), slots[1..], hostnames);
    }
  }

  // ----- the fate of every job

  ghost predicate Live(s: State, n: nat) {
    exists k :: k in s.jobs && s.jobs[k].serial == n
  }

  ghost predicate Recorded(s: State, n: nat) {
    exists i :: 0 <= i < |s.records| && s.records[i].serial == n
  }

  ghost predicate Removed(s: State, n: nat) {
    n in s.removed
  }

  /** Jobs are stored under their own key, and each job ever created is in the
      tree, in one end record, or was removed: one of these, and only once. */
  ghost predicate FateInvariant(s: State) {
    && (forall k | k in s.jobs :: s.jobs[k].logger == k && s.jobs[k].serial < s.created)
    && (forall k, l | k in s.jobs && l in s.jobs && k != l :: s.jobs[k].serial != s.jobs[l].serial)
    && (forall i | 0 <= i < |s.records| :: s.records[i].serial < s.created)
    && (forall i, j | 0 <= i < j < |s.records| :: s.records[i].serial != s.records[j].serial)
    && (forall i | 0 <= i < |s.removed| :: s.removed[i] < s.created)
    && (forall i, j | 0 <= i < j < |s.removed| :: s.removed[i] != s.removed[j])
    && (forall n: nat | n < s.created :: Live(s, n) || Recorded(s, n) || Removed(s, n))
    && (forall n: nat :: !(Live(s, n) && Recorded(s, n)) && !(Live(s, n) && Removed(s, n))
                         && !(Recorded(s, n) && Removed(s, n)))
    && s.created == |s.jobs| + |s.records| + |s.removed|
  }

  lemma LiveUpdated(s: State, k: TaskId, v: JobInfo, n: nat)
    requires k in s.jobs && v.serial == s.jobs[k].serial
    ensures Live(s.(jobs := s.jobs[k := v]), n) <==> Live(s, n)
  {
    var s' := s.(jobs := s.jobs[k := v]);
    if l :| l in s.jobs && s.jobs[l].serial == n {
      assert l in s'.jobs && s'.jobs[l].serial == n;
    }
    if l :| l in s'.jobs && s'.jobs[l].serial == n {
      assert l in s.jobs && s.jobs[l].serial == n;
    }
  }

  /** Another value for a job of the tree, with the same identity. */
  lemma UpdateKeepsFates(s: State, k: TaskId, v: JobInfo)
    requires FateInvariant(s) && k in s.jobs && v.serial == s.jobs[k].serial && v.logger == k
    ensures FateInvariant(s.(jobs := s.jobs[k := v]))
  {
    hide Live, Recorded, Removed;
    var s' := s.(jobs := s.jobs[k := v]);
    assert s'.jobs.Keys == s.jobs.Keys;
    assert |s'.jobs| == |s.jobs|;
    forall n: nat ensures Live(s', n) <==> Live(s, n) {
      LiveUpdated(s, k, v, n);
    }
    SameHistory(s, s');
  }

  lemma SameHistory(s: State, s': State)
    requires s.records == s'.records && s.removed == s'.removed
    ensures forall n: nat :: Recorded(s', n) <==> Recorded(s, n)
    ensures forall n: nat :: Removed(s', n) <==> Removed(s, n)
  {
  }

  lemma LiveCreated(s: State, k: TaskId, v: JobInfo, n: nat)
    requires k !in s.jobs
    ensures Live(s.(jobs := s.jobs[k := v], created := s.created + 1), n) <==> Live(s, n) || n == v.serial
  {
    var s' := s.(jobs := s.jobs[k := v], created := s.created + 1);
    if l :| l in s.jobs && s.jobs[l].serial == n {
      assert l in s'.jobs && s'.jobs[l].serial == n;
    }
    if l :| l in s'.jobs && s'.jobs[l].serial == n {
      assert l == k || l in s.jobs;
    }
    assert k in s'.jobs && s'.jobs[k].serial == v.serial;
  }

  lemma CreateKeepsFates(s: State, k: TaskId, v: JobInfo)
    requires FateInvariant(s) && k !in s.jobs && v.serial == s.created && v.logger == k
    ensures FateInvariant(s.(jobs := s.jobs[k := v], created := s.created + 1))
  {
    var s' := s.(jobs := s.jobs[k := v], created := s.created + 1);
    SameHistory(s, s');
    NotYetSettled(s);
    hide Live, Recorded, Removed;
    assert s'.jobs.Keys == s.jobs.Keys + {k};
    assert |s'.jobs| == |s.jobs| + 1;
    forall n: nat ensures Live(s', n) <==> Live(s, n) || n == s.created {
      LiveCreated(s, k, v, n);
    }
  }

  /** The next serial is not in use. */
  lemma NotYetSettled(s: State)
    requires FateInvariant(s)
    ensures !Recorded(s, s.created) && !Removed(s, s.created)
  {
  }

  lemma LiveWithout(s: State, k: TaskId, n: nat)
    requires FateInvariant(s) && k in s.jobs
    ensures Live(s.(jobs := s.jobs - {k}), n) <==> Live(s, n) && n != s.jobs[k].serial
  {
    var rest := s.(jobs := s.jobs - {k});
    if l :| l in rest.jobs && rest.jobs[l].serial == n {
      assert l in s.jobs && l != k && s.jobs[l].serial == n;
    }
    if l :| l in s.jobs && s.jobs[l].serial == n && l != k {
      assert l in rest.jobs && rest.jobs[l].serial == n;
    }
  }

  /** What taking a job out of the tree does to the living. */
  lemma TakeOut(s: State, k: TaskId)
    requires FateInvariant(s) && k in s.jobs
    ensures var rest := s.(jobs := s.jobs - {k});
            && |rest.jobs| == |s.jobs| - 1
            && (forall n: nat :: Live(rest, n) <==> Live(s, n) && n != s.jobs[k].serial)
            && Live(s, s.jobs[k].serial)
  {
    hide FateInvariant;
    var rest := s.(jobs := s.jobs - {k});
    assert rest.jobs.Keys == s.jobs.Keys - {k};
    assert |rest.jobs.Keys| == |s.jobs.Keys| - 1;
    forall n: nat ensures Live(rest, n) <==> Live(s, n) && n != s.jobs[k].serial {
      LiveWithout(s, k, n);
    }
    assert s.jobs[k].serial == s.jobs[k].serial;
  }

  lemma PrintKeepsFates(s: State, k: TaskId, now: int)
    requires FateInvariant(s)
    ensures FateInvariant(PrintEnd(s, k, now))
  {
    if k in s.jobs {
      TakeOut(s, k);
      var s', n0 := PrintEnd(s, k, now), s.jobs[k].serial;
      forall n: nat ensures Recorded(s', n) <==> Recorded(s, n) || n == n0 {
        if Recorded(s, n) {
          var i :| 0 <= i < |s.records| && s.records[i].serial == n;
          assert s'.records[i].serial == n;
        }
        assert s'.records[|s.records|].serial == n0;
      }
      forall n: nat ensures Live(s', n) <==> Live(s.(jobs := s.jobs - {k}), n) {
      }
      assert !Recorded(s, n0);
      forall i | 0 <= i < |s.records| ensures s.records[i].serial != n0 {
        assert Recorded(s, s.records[i].serial);
      }
      assert forall n: nat :: Removed(s', n) <==> Removed(s, n);
    }
  }

  lemma DeleteKeepsFates(s: State, k: TaskId)
    requires FateInvariant(s)
    ensures FateInvariant(OnDelete(s, k))
  {
    if k in s.jobs {
      TakeOut(s, k);
      var s', n0 := OnDelete(s, k), s.jobs[k].serial;
      assert !Removed(s, n0);
      forall n: nat ensures Live(s', n) <==> Live(s.(jobs := s.jobs - {k}), n) {
      }
      forall n: nat ensures Recorded(s', n) <==> Recorded(s, n) {
      }
      forall n: nat ensures Removed(s', n) <==> Removed(s, n) || n == n0 {
      }
      forall i | 0 <= i < |s.removed| ensures s.removed[i] != n0 {
        assert Removed(s, s.removed[i]);
      }
    }
  }

  lemma HeaderCases(s: State, h: Header)
    ensures var s' := WithHeader(s, h);
            && h.logger in s'.jobs
            && var v := s'.jobs[h.logger];
            if h.logger in s.jobs then
              s' == s.(jobs := s.jobs[h.logger := v]) && v.serial == s.jobs[h.logger].serial
              && v.logger == s.jobs[h.logger].logger
            else
              s' == s.(jobs := s.jobs[h.logger := v], created := s.created + 1) && v.serial == s.created
              && v.logger == h.logger
  {
  }

  lemma HeaderKeepsFates(s: State, h: Header)
    requires FateInvariant(s)
    ensures FateInvariant(WithHeader(s, h)) && h.logger in WithHeader(s, h).jobs
  {
    hide FateInvariant, WithHeader;
    HeaderCases(s, h);
    var v := WithHeader(s, h).jobs[h.logger];
    if h.logger in s.jobs {
      KeyedByLogger(s, h.logger);
      UpdateKeepsFates(s, h.logger, v);
    } else {
      CreateKeepsFates(s, h.logger, v);
    }
  }

  /** FateInvariant says nothing about queue, timer and halting. */
  lemma FatesIgnoreQueue(s: State, s': State)
    requires FateInvariant(s)
    requires s'.jobs == s.jobs && s'.created == s.created && s'.records == s.records && s'.removed == s.removed
    ensures FateInvariant(s')
  {
    forall n: nat ensures (Live(s', n) <==> Live(s, n)) && (Recorded(s', n) <==> Recorded(s, n))
                          && (Removed(s', n) <==> Removed(s, n)) {
    }
  }

  lemma {:induction false} EndKeepsFates(s: State, h: Header, sender: TaskId, info: EndInfo, now: int)
    requires FateInvariant(s)
    ensures FateInvariant(OnEnd(s, h, sender, info, now))
  {
    hide FateInvariant;
    HeaderKeepsFates(s, h);
    var s1 := WithHeader(s, h);
    var v := s1.jobs[h.logger];
    KeyedByLogger(s1, h.logger);
    if sender == h.logger {
      if h.rank != -1 {
        FatesIgnoreQueue(s1, Halt(s1));
        return;
      }
      var v1 := LoggerEnd(v, info);
      if v1.countExitMsg < v1.procStartCount {
        UpdateKeepsFates(s1, h.logger, v1);
        FatesIgnoreQueue(s1.(jobs := s1.jobs[h.logger := v1]), OnEnd(s, h, sender, info, now));
      } else {
        var v2 := v1.(endTime := if v1.endTime == 0 then now else v1.endTime);
        UpdateKeepsFates(s1, h.logger, v2);
        PrintKeepsFates(s1.(jobs := s1.jobs[h.logger := v2]), h.logger, now);
      }
    } else if h.rank < 0 {
      FatesIgnoreQueue(s1, Halt(s1));
    } else {
      UpdateKeepsFates(s1, h.logger, ChildEnd(v, info, now));
    }
  }

  lemma KeyedByLogger(s: State, k: TaskId)
    requires FateInvariant(s) && k in s.jobs
    ensures s.jobs[k].logger == k && s.jobs[k].serial < s.created
  {
  }

  lemma ExpireKeepsFates(s: State, now: int)
    requires FateInvariant(s)
    ensures FateInvariant(OnExpire(s, now))
  {
    hide FateInvariant;
    if s.dJobs == [] || s.dJobs[0] == 0 || s.dJobs[0] !in s.jobs {
      FatesIgnoreQueue(s, OnExpire(s, now));
    } else {
      var tid := s.dJobs[0];
      var s1 := s.(armed := false, dJobs := s.dJobs[1..]);
      FatesIgnoreQueue(s, s1);
      KeyedByLogger(s1, tid);
      UpdateKeepsFates(s1, tid, TimedOut(s1.jobs[tid], now));
      var s2 := s1.(jobs := s1.jobs[tid := TimedOut(s1.jobs[tid], now)]);
      PrintKeepsFates(s2, tid, now);
      FatesIgnoreQueue(PrintEnd(s2, tid, now), OnExpire(s, now));
    }
  }

  /** The messages of a logger that only update its job. */
  lemma UpdateMessageKeepsFates(s: State, e: Event, hostnames: seq<string>)
    requires FateInvariant(s) && (e.Queue? || e.Start? || e.Child? || e.Log?)
    ensures FateInvariant(Step(s, e, hostnames))
  {
    hide FateInvariant;
    HeaderKeepsFates(s, e.head);
    var s1, s2 := WithHeader(s, e.head), Step(s, e, hostnames);
    KeyedByLogger(s1, e.head.logger);
    if s2.halted != s1.halted {
      FatesIgnoreQueue(s1, Halt(s1));
    } else {
      UpdateKeepsFates(s1, e.head.logger, s2.jobs[e.head.logger]);
      assert s1.jobs[e.head.logger := s1.jobs[e.head.logger]] == s1.jobs;
    }
  }

  lemma StepKeepsFates(s: State, e: Event, hostnames: seq<string>)
    requires FateInvariant(s) && Enabled(s, e)
    ensures FateInvariant(Step(s, e, hostnames))
  {
    hide FateInvariant;
    match e
    case End(h, sender, info, now) => EndKeepsFates(s, h, sender, info, now);
    case Slots(logger, slots) =>
      if logger in s.jobs {
        AddSlotsFrame(s.jobs[logger], slots, hostnames);
        KeyedByLogger(s, logger);
        UpdateKeepsFates(s, logger, AddSlots(s.jobs[logger], slots, hostnames));
      }
    case Delete(logger) => DeleteKeepsFates(s, logger);
    case Lost =>
    case SigRes(request, error) => FatesIgnoreQueue(s, Step(s, e, hostnames));
    case Expire(now) => ExpireKeepsFates(s, now);
    case _ => UpdateMessageKeepsFates(s, e, hostnames);
  }

  lemma {:induction false} RunKeepsFates(s: State, es: seq<Event>, hostnames: seq<string>)
    requires FateInvariant(s) && Runs(s, es, hostnames)
    ensures FateInvariant(After(s, es, hostnames))
    decreases |es|
  {
    if es != [] {
      StepKeepsFates(s, es[0], hostnames);
      RunKeepsFates(Step(s, es[0], hostnames), es[1..], hostnames);
    }
  }

  /** Conservation in every run: each job ever created is in the tree, in exactly
      one end record, or was removed by a DELETE message. */
  lemma {:induction false} EveryRunKeepsFates(es: seq<Event>, hostnames: seq<string>)
    requires Runs(INITIAL, es, hostnames)
    ensures FateInvariant(After(INITIAL, es, hostnames))
  {
    RunKeepsFates(INITIAL, es, hostnames);
  }

  /** Only a message with a header, for a logger not in the tree, creates a job. */
  lemma WhoCreates(s: State, e: Event, hostnames: seq<string>)
    ensures var s' := Step(s, e, hostnames);
            s'.created == if (e.Queue? || e.Start? || e.Child? || e.Log? || e.End?) && e.head.logger !in s.jobs
                          then s.created + 1 else s.created
  {
  }

  // ----- history

  ghost predicate Settled(s: State, n: nat) {
    Recorded(s, n) || Removed(s, n)
  }

  lemma RecordIdentity(v: JobInfo, now: int)
    ensures MakeRecord(v, now).serial == v.serial && MakeRecord(v, now).logger == v.logger
  {
  }

  lemma EndExtendsHistory(s: State, h: Header, sender: TaskId, info: EndInfo, now: int)
    ensures var t := OnEnd(s, h, sender, info, now); s.records <= t.records && s.removed <= t.removed
  {
    hide MakeRecord, ChildEnd, LoggerEnd, NewJob, FirstOf;
  }

  /** Records and removals are never taken back. */
  lemma StepExtendsHistory(s: State, e: Event, hostnames: seq<string>)
    ensures s.records <= Step(s, e, hostnames).records && s.removed <= Step(s, e, hostnames).removed
  {
    hide MakeRecord, AddSlots, OnEnd, NewJob, FirstOf, TimedOut, ChildStart;
    if e.End? {
      EndExtendsHistory(s, e.head, e.sender, e.info, e.now);
    }
  }

  lemma StepKeepsSettled(s: State, e: Event, hostnames: seq<string>, n: nat)
    requires Settled(s, n)
    ensures Settled(Step(s, e, hostnames), n)
  {
    hide Step;
    var s' := Step(s, e, hostnames);
    StepExtendsHistory(s, e, hostnames);
    if Recorded(s, n) {
      var i :| 0 <= i < |s.records| && s.records[i].serial == n;
      assert s'.records[i].serial == n;
    }
  }

  lemma {:induction false} RunKeepsSettled(s: State, es: seq<Event>, hostnames: seq<string>, n: nat)
    requires Settled(s, n)
    ensures Settled(After(s, es, hostnames), n)
    decreases |es|
  {
    if es != [] {
      StepKeepsSettled(s, es[0], hostnames, n);
      RunKeepsSettled(Step(s, es[0], hostnames), es[1..], hostnames, n);
    }
  }

  lemma PrintSettles(s: State, k: TaskId, now: int)
    requires k in s.jobs
    ensures Settled(PrintEnd(s, k, now), s.jobs[k].serial)
  {
    RecordIdentity(s.jobs[k], now);
    assert PrintEnd(s, k, now).records[|s.records|].serial == s.jobs[k].serial;
  }

  ghost predicate KeptOrSettled(s: State, s': State, k: TaskId)
    requires k in s.jobs
  {
    (k in s'.jobs && s'.jobs[k].serial == s.jobs[k].serial) || Settled(s', s.jobs[k].serial)
  }

  lemma EndKeepsOrSettles(s: State, h: Header, sender: TaskId, info: EndInfo, now: int, k: TaskId)
    requires k in s.jobs
    ensures KeptOrSettled(s, OnEnd(s, h, sender, info, now), k)
  {
    hide MakeRecord;
    var s1 := WithHeader(s, h);
    var v1 := LoggerEnd(s1.jobs[h.logger], info);
    var v2 := v1.(endTime := if v1.endTime == 0 then now else v1.endTime);
    PrintSettles(s1.(jobs := s1.jobs[h.logger := v2]), h.logger, now);
  }

  lemma ExpireKeepsOrSettles(s: State, now: int, k: TaskId)
    requires k in s.jobs
    ensures KeptOrSettled(s, OnExpire(s, now), k)
  {
    hide MakeRecord;
    if s.dJobs != [] && s.dJobs[0] in s.jobs {
      var tid := s.dJobs[0];
      var s1 := s.(armed := false, dJobs := s.dJobs[1..]);
      PrintSettles(s1.(jobs := s1.jobs[tid := TimedOut(s1.jobs[tid], now)]), tid, now);
    }
  }

  /** A job in the tree stays there as the same job, or is settled. */
  lemma StepKeepsOrSettles(s: State, e: Event, hostnames: seq<string>, k: TaskId)
    requires k in s.jobs
    ensures KeptOrSettled(s, Step(s, e, hostnames), k)
  {
    match e
    case End(h, sender, info, now) => EndKeepsOrSettles(s, h, sender, info, now, k);
    case Expire(now) => ExpireKeepsOrSettles(s, now, k);
    case Slots(logger, slots) =>
      if logger in s.jobs {
        AddSlotsFrame(s.jobs[logger], slots, hostnames);
      }
    case _ =>
  }

  // ----- jobs do not disturb each other

  /** The job an event is about, if any. */
  function About(e: Event): Option<TaskId> {
    match e
    case Queue(h, _) => Some(h.logger)
    case Start(h, _, _) => Some(h.logger)
    case Child(h, _) => Some(h.logger)
    case Log(h, _, _) => Some(h.logger)
    case End(h, _, _, _) => Some(h.logger)
    case Slots(logger, _) => Some(logger)
    case Delete(logger) => Some(logger)
    case Lost => None
    case SigRes(request, _) => Some(request)
    case Expire(_) => None
  }

  function Only(es: seq<Event>, k: TaskId): seq<Event> {
    if es == [] then []
    else (if About(es[0]) == Some(k) then [es[0]] else []) + Only(es[1..], k)
  }

  /** Job `k` is in the tree all along. */
  ghost predicate Stays(s: State, es: seq<Event>, hostnames: seq<string>, k: TaskId)
    decreases |es|
  {
    k in s.jobs && (es == [] || Stays(Step(s, es[0], hostnames), es[1..], hostnames, k))
  }

  lemma EndLeavesAlone(s: State, h: Header, sender: TaskId, info: EndInfo, now: int, k: TaskId)
    requires k in s.jobs && h.logger != k
    ensures var t := OnEnd(s, h, sender, info, now); k in t.jobs && t.jobs[k] == s.jobs[k]
  {
    hide MakeRecord, ChildEnd, LoggerEnd, NewJob, FirstOf;
  }

  lemma OthersLeaveAlone(s: State, e: Event, hostnames: seq<string>, k: TaskId)
    requires k in s.jobs && About(e) != Some(k) && k in Step(s, e, hostnames).jobs
    ensures Step(s, e, hostnames).jobs[k] == s.jobs[k]
  {
    hide MakeRecord, AddSlots, ChildStart, OnEnd, NewJob, TimedOut, FirstOf;
    if e.End? {
      EndLeavesAlone(s, e.head, e.sender, e.info, e.now, k);
    }
  }

  lemma OwnHeader(s: State, t: State, h: Header)
    requires h.logger in s.jobs && h.logger in t.jobs && s.jobs[h.logger] == t.jobs[h.logger]
    ensures WithHeader(s, h).jobs[h.logger] == WithHeader(t, h).jobs[h.logger]
  {
  }

  lemma OwnEnd(s: State, t: State, e: Event, hostnames: seq<string>, k: TaskId)
    requires k in s.jobs && k in t.jobs && s.jobs[k] == t.jobs[k] && About(e) == Some(k) && e.End?
    requires k in Step(s, e, hostnames).jobs
    ensures k in Step(t, e, hostnames).jobs && Step(t, e, hostnames).jobs[k] == Step(s, e, hostnames).jobs[k]
  {
    hide MakeRecord, ChildEnd, LoggerEnd, WithHeader;
    OwnHeader(s, t, e.head);
  }

  lemma {:induction false} OwnMessage(s: State, t: State, e: Event, hostnames: seq<string>, k: TaskId)
    requires k in s.jobs && k in t.jobs && s.jobs[k] == t.jobs[k] && About(e) == Some(k)
    requires k in Step(s, e, hostnames).jobs
    ensures k in Step(t, e, hostnames).jobs && Step(t, e, hostnames).jobs[k] == Step(s, e, hostnames).jobs[k]
  {
    hide AddSlots, ChildStart, OnEnd, OnExpire, WithHeader;
    if e.End? {
      OwnEnd(s, t, e, hostnames, k);
    } else if e.Queue? || e.Start? || e.Child? || e.Log? {
      OwnHeader(s, t, e.head);
    }
  }

  /** While it lives, a job depends on the messages about it alone: dropping all
      others, and all expiries, from the run leaves it with the same data. */
  lemma {:induction false} JobsAreIndependent(s: State, t: State, es: seq<Event>, hostnames: seq<string>, k: TaskId)
    requires Stays(s, es, hostnames, k)
    requires k in t.jobs && t.jobs[k] == s.jobs[k]
    ensures k in After(s, es, hostnames).jobs
    ensures var own := After(t, Only(es, k), hostnames);
            k in own.jobs &&  own.jobs[k] == After(s, es, hostnames).jobs[k]
    decreases |es|
  {
    if es != [] {
      var e := es[0];
      var s' := Step(s, e, hostnames);
      if About(e) == Some(k) {
        OwnMessage(s, t, e, hostnames, k);
        assert Only(es, k) == [e] + Only(es[1..], k);
        assert Only(es, k)[1..] == Only(es[1..], k);
        JobsAreIndependent(s', Step(t, e, hostnames), es[1..], hostnames, k);
      } else {
        OthersLeaveAlone(s, e, hostnames, k);
        assert Only(es, k) == Only(es[1..], k);
        JobsAreIndependent(s', t, es[1..], hostnames, k);
      }
    }
  }
}
