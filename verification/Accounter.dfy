/** The daemon itself: global tree, queue and timer, updated message by message. */
module Accounter {
  import opened Options
  import opened Jobs
  import opened JobStructs
  import opened JobTree
  import opened Tasks

  class Daemon {
    var btroot: TNode?
    var dJobs: seq<TaskId>
    var armed: bool
    var halted: bool
    const hostnames: seq<string>

    ghost var tree: Tree
    ghost var repr: set<TNode>
    ghost var jobs: map<TaskId, Job>
    ghost var created: nat
    ghost var records: seq<EndRecord>
    ghost var removed: seq<nat>

    /** The tree is in order and every job is stored under its own logger. */
    ghost predicate Valid()
      reads `btroot, `tree, `repr, `jobs, repr
    {
      && repr == Nodes(tree) && Shape(btroot, tree) && Sorted(tree)
      && jobs.Keys == Keys(tree)
      && (forall k | k in jobs :: Lookup(tree, k) == jobs[k] && jobs[k].logger == k)
    }

    ghost function Abstract(): State
      reads this, jobs.Values
    {
      State(map k | k in jobs :: jobs[k].Info(), dJobs, armed, halted, created, records, removed)
    }

    constructor (hostnames: seq<string>)
      ensures Valid() && Abstract() == INITIAL && this.hostnames == hostnames
    {
      btroot, dJobs, armed, halted := null, [], false, false;
      this.hostnames := hostnames;
      tree, repr, jobs, created, records, removed := Leaf, {}, map[], 0, [], [];
    }

    // ----- tree access

    lemma KnownKeys(k: TaskId)
      requires Valid()
      ensures k in jobs <==> Lookup(tree, k) != null
    {
      LookupFindsAll(tree, k);
    }

    method FindJob(key: TaskId) returns (job: Job?)
      requires Valid()
      ensures job != null <==> key in jobs
      ensures job != null ==> job == jobs[key]
    {
      hide Shape, Sorted, Keys, Lookup, Nodes;
      KnownKeys(key);
      var leaf := SearchTNode(key, btroot, tree);
      job := if leaf != null then leaf.job else null;
    }

    method InsertJob(job: Job)
      requires Valid() && job.logger !in jobs
      modifies this, repr
      ensures Valid() && jobs == old(jobs)[job.logger := job]
      ensures dJobs == old(dJobs) && armed == old(armed) && halted == old(halted)
      ensures created == old(created) && records == old(records) && removed == old(removed)
      ensures fresh(repr - old(repr))
    {
      hide Shape, Sorted, Keys, Lookup, Nodes;
      btroot, tree := InsertTNode(job.logger, job, btroot, tree);
      repr, jobs := Nodes(tree), jobs[job.logger := job];
    }

    /** What is freed is the job stored under the key, and nothing still in the
        tree refers to it. */
    method DeleteJob(key: TaskId)
      requires Valid() && key in jobs
      modifies this, repr
      ensures Valid() && jobs == old(jobs) - {key}
      ensures dJobs == old(dJobs) && armed == old(armed) && halted == old(halted)
      ensures created == old(created) && records == old(records) && removed == old(removed)
      ensures repr <= old(repr)
    {
      hide Shape, Sorted, Keys, Lookup, Nodes;
      KnownKeys(key);
      var freedJob: Job?, freedNode: TNode?;
      btroot, tree, freedJob, freedNode := DeleteTNode(key, btroot, tree);
      assert freedJob == jobs[key] && freedNode !in Nodes(tree);
      repr, jobs := Nodes(tree), jobs - {key};
      assert forall k | k in jobs :: jobs[k] != freedJob;
    }

    lemma AbstractJobs(m: map<TaskId, JobInfo>)
      requires m.Keys == jobs.Keys && forall k | k in jobs :: m[k] == jobs[k].Info()
      ensures Abstract() == State(m, dJobs, armed, halted, created, records, removed)
    {
      var a := Abstract().jobs;
      assert forall k :: k in a <==> k in jobs;
      assert forall k :: k in m <==> k in m.Keys;
      assert a.Keys == m.Keys;
      assert forall k | k in m :: a[k] == m[k];
    }

    /** Writing to one job changes the abstract state at its key only. */
    twostate lemma JobUpdated(job: Job)
      requires old(Valid()) && job.logger in jobs && jobs[job.logger] == job
      requires jobs == old(jobs) && dJobs == old(dJobs) && armed == old(armed) && halted == old(halted)
      requires created == old(created) && records == old(records) && removed == old(removed)
      requires forall k | k in jobs && jobs[k] != job ::
        old(allocated(jobs[k])) && jobs[k].Info() == old(jobs[k].Info())
      ensures Abstract() == old(Abstract()).(jobs := old(Abstract()).jobs[job.logger := job.Info()])
    {
      hide Shape, Sorted, Keys, Lookup, Nodes;
      var before := old(Abstract());
      forall k | k in jobs ensures Abstract().jobs[k] == before.jobs[job.logger := job.Info()][k] {
        if k != job.logger {
          assert jobs[k].logger == k;
        }
      }
      assert Abstract().jobs == before.jobs[job.logger := job.Info()];
    }

    // ----- the queue of incomplete jobs

    method InsertdJob(job: TaskId)
      modifies this`dJobs
      ensures dJobs == old(dJobs) + [job]
    {
      dJobs := dJobs + [job];
    }

    method FinddJob(job: TaskId) returns (found: bool)
      ensures found == (job in dJobs)
    {
      for i := 0 to |dJobs|
        invariant job !in dJobs[..i]
      {
        if dJobs[i] == job {
          return true;
        }
      }
      return false;
    }

    method GetNextdJob() returns (job: TaskId)
      modifies this`dJobs
      ensures old(dJobs) == [] ==> job == 0 && dJobs == []
      ensures old(dJobs) != [] ==> job == old(dJobs)[0] && dJobs == old(dJobs)[1..]
    {
      if dJobs == [] {
        return 0;
      }
      job := dJobs[0];
      dJobs := dJobs[1..];
    }

    /** The timer is set for an empty queue, the job inserted unless it is there. */
    method WaitFor(job: TaskId)
      modifies this`armed, this`dJobs
      ensures Abstract() == Enqueue(old(Abstract()), job)
    {
      if dJobs == [] {
        armed := true;
      }
      var found := FinddJob(job);
      if !found {
        InsertdJob(job);
      }
    }

    // ----- messages

    /** The state with a job for `logger` in it, new if there was none. */
    static ghost function WithJob(s: State, logger: TaskId): State {
      if logger in s.jobs then s
      else s.(jobs := s.jobs[logger := NewJob(s.created, logger)], created := s.created + 1)
    }

    static lemma HeaderOfJob(s: State, h: Header)
      ensures h.logger in WithJob(s, h.logger).jobs
      ensures var s1 := WithJob(s, h.logger);
              var v := s1.jobs[h.logger];
              WithHeader(s, h) ==
              s1.(jobs := s1.jobs[h.logger := v.(uid := FirstOf(v.uid, h.uid), gid := FirstOf(v.gid, h.gid))])
    {
    }

    method FindOrCreate(logger: TaskId) returns (job: Job)
      requires Valid()
      modifies this, repr
      ensures Valid() && Abstract() == WithJob(old(Abstract()), logger)
      ensures logger in jobs && job == jobs[logger]
      ensures fresh(repr - old(repr)) && fresh(jobs.Values - old(jobs.Values))
    {
      hide Shape, Sorted, Keys, Lookup, Nodes;
      var found := FindJob(logger);
      if found != null {
        return found;
      }
      job := new Job(logger, created);
      InsertJob(job);
      created := created + 1;
      AbstractJobs(WithJob(old(Abstract()), logger).jobs);
    }

    method HandleComHeader(h: Header) returns (job: Job)
      requires Valid()
      modifies this, repr, jobs.Values
      ensures Valid() && Abstract() == WithHeader(old(Abstract()), h)
      ensures h.logger in jobs && job == jobs[h.logger]
      ensures fresh(repr - old(repr)) && fresh(jobs.Values - old(jobs.Values))
    {
      hide Shape, Sorted, Keys, Lookup, Nodes, WithHeader, WithJob;
      job := FindOrCreate(h.logger);
      label known:
      job.Identify(h.uid, h.gid);
      JobUpdated@known(job);
      HeaderOfJob(old(Abstract()), h);
    }

    method PrintAccEndMsg(key: TaskId, now: int)
      requires Valid()
      modifies this, repr, jobs.Values
      ensures Valid() && Abstract() == PrintEnd(old(Abstract()), key, now)
      ensures repr <= old(repr) && jobs.Values <= old(jobs.Values)
    {
      hide Shape, Sorted, Keys, Lookup, Nodes, MakeRecord;
      var job := FindJob(key);
      if job == null {
        return;
      }
      ghost var record := job.MakeEndRecord(now);
      records := records + [record];
      assert forall k | k in jobs && k != key :: jobs[k] != job by {
        assert forall k | k in jobs :: jobs[k].logger == k;
      }
      DeleteJob(key);
      AbstractJobs(old(Abstract()).jobs - {key});
    }

    method HandleAccQueueMsg(h: Header, now: int)
      requires Valid()
      modifies this, repr, jobs.Values
      ensures Valid() && Abstract() == OnQueue(old(Abstract()), h, now)
    {
      hide Shape, Sorted, Keys, Lookup, Nodes, WithHeader;
      var job := HandleComHeader(h);
      if h.rank != -1 {
        halted := true;
        return;
      }
      label known:
      job.NoteQueued(now);
      JobUpdated@known(job);
    }

    method HandleAccStartMsg(h: Header, taskSize: int, now: int)
      requires Valid()
      modifies this, repr, jobs.Values
      ensures Valid() && Abstract() == OnStart(old(Abstract()), h, taskSize, now)
    {
      hide Shape, Sorted, Keys, Lookup, Nodes, WithHeader;
      var job := HandleComHeader(h);
      if h.rank != -1 || taskSize < 1 {
        halted := true;
        return;
      }
      label known:
      job.NoteStarted(now);
      JobUpdated@known(job);
    }

    method HandleAccChildMsg(h: Header, exec: string)
      requires Valid()
      modifies this, repr, jobs.Values
      ensures Valid() && Abstract() == OnChild(old(Abstract()), h, exec)
    {
      hide Shape, Sorted, Keys, Lookup, Nodes, WithHeader, ChildStart;
      var job := HandleComHeader(h);
      if h.rank < 0 {
        halted := true;
        return;
      }
      label known:
      job.NoteChild(h.rank, exec);
      JobUpdated@known(job);
    }

    method HandleAccLogMsg(h: Header, children: int, id: string)
      requires Valid()
      modifies this, repr, jobs.Values
      ensures Valid() && Abstract() == OnLog(old(Abstract()), h, children, id)
    {
      hide Shape, Sorted, Keys, Lookup, Nodes, WithHeader;
      var job := HandleComHeader(h);
      label known:
      job.NoteLog(children, id);
      JobUpdated@known(job);
    }

    /** The logger's END: the job is recorded, or waits for its children. */
    method LoggerExits(job: Job, info: EndInfo, now: int)
      requires Valid() && job.logger in jobs && jobs[job.logger] == job
      modifies this, repr, jobs.Values
      ensures Valid()
      ensures var s, k := old(Abstract()), job.logger;
              var v1 := LoggerEnd(s.jobs[k], info);
              Abstract() ==
              if v1.countExitMsg < v1.procStartCount then
                Enqueue(s.(jobs := s.jobs[k := v1]), k)
              else
                PrintEnd(s.(jobs := s.jobs[k := v1.(endTime := if v1.endTime == 0 then now else v1.endTime)]), k, now)
    {
      hide Shape, Sorted, Keys, Lookup, Nodes, WithHeader, MakeRecord, PrintEnd;
      job.NoteLoggerEnd(info);
      if job.countExitMsg < job.procStartCount {
        JobUpdated(job);
        WaitFor(job.logger);
      } else {
        job.NoteFinished(now);
        JobUpdated(job);
        PrintAccEndMsg(job.logger, now);
      }
    }

    method HandleAccEndMsg(h: Header, sender: TaskId, info: EndInfo, now: int)
      requires Valid()
      modifies this, repr, jobs.Values
      ensures Valid() && Abstract() == OnEnd(old(Abstract()), h, sender, info, now)
    {
      hide Shape, Sorted, Keys, Lookup, Nodes, WithHeader, MakeRecord, PrintEnd, Enqueue, LoggerEnd, ChildEnd;
      var job := HandleComHeader(h);
      assert job.logger == h.logger;
      if sender == job.logger {
        if h.rank != -1 {
          halted := true;
          return;
        }
        LoggerExits(job, info, now);
      } else {
        if h.rank < 0 {
          halted := true;
          return;
        }
        label known:
        job.NoteChildEnd(info, now);
        JobUpdated@known(job);
      }
    }

    method HandleAccSlotsMsg(logger: TaskId, slots: seq<Slot>)
      requires Valid()
      modifies this, repr, jobs.Values
      ensures Valid() && Abstract() == OnSlots(old(Abstract()), logger, slots, hostnames)
    {
      hide Shape, Sorted, Keys, Lookup, Nodes, WithHeader, AddSlots;
      var job := FindJob(logger);
      if job == null {
        return;
      }
      label found:
      job.AddHosts(slots, hostnames);
      JobUpdated@found(job);
    }

    method HandleAccDeleteMsg(logger: TaskId)
      requires Valid()
      modifies this, repr, jobs.Values
      ensures Valid() && Abstract() == OnDelete(old(Abstract()), logger)
    {
      hide Shape, Sorted, Keys, Lookup, Nodes, WithHeader;
      var job := FindJob(logger);
      if job == null {
        return;
      }
      removed := removed + [job.serial];
      DeleteJob(logger);
      AbstractJobs(old(Abstract()).jobs - {logger});
    }

    method HandleCdSigRes(request: TaskId, error: int)
      requires Valid()
      modifies this, repr, jobs.Values
      ensures Valid() && Abstract() == OnSigRes(old(Abstract()), request, error)
    {
      hide Shape, Sorted, Keys, Lookup, Nodes, WithHeader;
      var job := FindJob(request);
      if error == ESRCH && job != null {
        WaitFor(request);
      }
    }

    /** The job whose time is up is recorded with what has arrived. */
    method GiveUpOn(tid: TaskId, now: int)
      requires Valid()
      modifies this, repr, jobs.Values
      ensures Valid() && Abstract() == GiveUp(old(Abstract()), tid, now)
    {
      hide Shape, Sorted, Keys, Lookup, Nodes, WithHeader, MakeRecord, TimedOut, PrintEnd;
      var job := FindJob(tid);
      if job != null {
        job.NoteTimeout(now);
        JobUpdated(job);
        PrintAccEndMsg(tid, now);
      }
    }

    static lemma GiveUpQueue(s: State, tid: TaskId, now: int)
      ensures var s' := GiveUp(s, tid, now); s'.dJobs == s.dJobs && s'.armed == s.armed
    {
    }

    /** The expired timer is off; it is started again if jobs are pending. */
    method TimerHandler(now: int)
      requires Valid()
      modifies this, repr, jobs.Values
      ensures Valid() && Abstract() == OnExpire(old(Abstract()), now)
    {
      hide Valid, GiveUp;
      ghost var s := Abstract();
      armed := false;
      var tid := GetNextdJob();
      ghost var s1 := Abstract();
      assert s1.jobs == s.jobs;
      if tid == 0 {
        return;
      }
      GiveUpOn(tid, now);
      GiveUpQueue(s1, tid, now);
      ghost var s2 := Abstract();
      if dJobs != [] {
        armed := true;
      }
      assert Abstract().jobs == s2.jobs;
      assert Abstract() == s2.(armed := s2.dJobs != []);
    }

    /** One message, reply or expiry moves the daemon as `Step` says. */
    method Handle(e: Event)
      requires Valid() && Enabled(Abstract(), e)
      modifies this, repr, jobs.Values
      ensures Valid() && Abstract() == Step(old(Abstract()), e, hostnames)
    {
      hide Valid, OnQueue, OnStart, OnChild, OnLog, OnEnd, OnSlots, OnDelete, OnSigRes, OnExpire;
      match e {
        case Queue(h, now) => HandleAccQueueMsg(h, now);
        case Start(h, taskSize, now) => HandleAccStartMsg(h, taskSize, now);
        case Child(h, exec) => HandleAccChildMsg(h, exec);
        case Log(h, children, id) => HandleAccLogMsg(h, children, id);
        case End(h, sender, info, now) => HandleAccEndMsg(h, sender, info, now);
        case Slots(logger, slots) => HandleAccSlotsMsg(logger, slots);
        case Delete(logger) => HandleAccDeleteMsg(logger);
        case Lost =>
        case SigRes(request, error) => HandleCdSigRes(request, error);
        case Expire(now) => TimerHandler(now);
      }
    }
  }
}
