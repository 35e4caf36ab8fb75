/** The Job_t structure of bin/psaccounter.c. */
module JobStructs {
  import opened Options
  import opened Jobs
  import opened Tasks

  class Job {
    const logger: TaskId
    var uid: Option<int>
    var gid: Option<int>
    var jobname: Option<string>
    var jobid: Option<string>
    var execHosts: string
    var countSlotMsg: nat
    var procStartCount: nat
    var countExitMsg: nat
    var loggerChildren: int
    var exitStatus: int
    var queueTime: int
    var startTime: int
    var endTime: int
    var walltime: Walltime
    var cput: int
    var incomplete: bool
    ghost const serial: nat

    /** initNewJob */
    constructor (logger: TaskId, ghost serial: nat)
      ensures Info() == NewJob(serial, logger)
    {
      this.logger, this.serial := logger, serial;
      uid, gid, jobname, jobid, execHosts := None, None, None, None, "";
      countSlotMsg, procStartCount, countExitMsg, loggerChildren, exitStatus := 0, 0, 0, 0, 0;
      queueTime, startTime, endTime, walltime, cput := 0, 0, 0, Walltime(0, 0), 0;
      incomplete := false;
    }

    ghost function Info(): JobInfo
      reads this
    {
      JobInfo(serial, logger, uid, gid, jobname, jobid, execHosts, countSlotMsg, procStartCount, countExitMsg,
              loggerChildren, exitStatus, queueTime, startTime, endTime, walltime, cput, incomplete)
    }

    /** The first message about a job settles whose it is. */
    method Identify(uid: int, gid: int)
      modifies this`uid, this`gid
      ensures Info() == old(Info()).(uid := FirstOf(old(this.uid), uid), gid := FirstOf(old(this.gid), gid))
    {
      if this.uid.None? {
        this.uid := Some(uid);
      }
      if this.gid.None? {
        this.gid := Some(gid);
      }
    }

    // What the message handlers write to the job they have found.

    method NoteQueued(now: int)
      modifies this`queueTime
      ensures Info() == old(Info()).(queueTime := now)
    {
      queueTime := now;
    }

    method NoteStarted(now: int)
      modifies this`startTime, this`queueTime
      ensures Info() == old(Info()).(startTime := now, queueTime := if old(queueTime) == 0 then now else old(queueTime))
    {
      startTime := now;
      if queueTime == 0 {
        queueTime := now;
      }
    }

    method NoteChild(rank: int, exec: string)
      modifies this`jobname, this`procStartCount
      ensures Info() == ChildStart(old(Info()), rank, exec)
    {
      if rank == 0 {
        jobname := Some(exec);
      }
      procStartCount := procStartCount + 1;
    }

    method NoteLog(children: int, id: string)
      modifies this`loggerChildren, this`jobid
      ensures Info() == old(Info()).(loggerChildren := children,
                                     jobid := if old(jobid).None? then Some(id) else old(jobid))
    {
      loggerChildren := children;
      if jobid.None? {
        jobid := Some(id);
      }
    }

    method NoteWalltime(reported: Walltime)
      modifies this`walltime
      ensures Info() == old(Info()).(walltime := Longer(old(walltime), reported))
    {
      if reported.sec > walltime.sec {
        walltime := reported;
      }
    }

    method NoteLoggerEnd(info: EndInfo)
      modifies this`loggerChildren, this`walltime
      ensures Info() == LoggerEnd(old(Info()), info)
    {
      loggerChildren := info.children;
      NoteWalltime(info.walltime);
    }

    /** Exit status and CPU time of a child. */
    method NoteUsage(status: int, cputime: int)
      modifies this`exitStatus, this`incomplete, this`cput
      ensures Info() == old(Info()).(exitStatus := if status != 0 then status else old(exitStatus),
                                     incomplete := old(incomplete) || cputime < 0,
                                     cput := if cputime < 0 then old(cput) else old(cput) + cputime)
    {
      if status != 0 {
        exitStatus := status;
      }
      if cputime < 0 {
        incomplete := true;
      } else {
        cput := cput + cputime;
      }
    }

    method NoteChildEnd(info: EndInfo, now: int)
      modifies this`walltime, this`exitStatus, this`incomplete, this`cput, this`countExitMsg, this`endTime
      ensures Info() == ChildEnd(old(Info()), info, now)
    {
      hide Longer;
      NoteWalltime(info.walltime);
      NoteUsage(info.exitStatus, info.cputime);
      countExitMsg := countExitMsg + 1;
      if countExitMsg == procStartCount && procStartCount > 0 {
        endTime := now;
      }
    }

    method NoteFinished(now: int)
      modifies this`endTime
      ensures Info() == old(Info()).(endTime := if old(endTime) == 0 then now else old(endTime))
    {
      if endTime == 0 {
        endTime := now;
      }
    }

    method NoteTimeout(now: int)
      modifies this`incomplete, this`endTime
      ensures Info() == TimedOut(old(Info()), now)
    {
      if countExitMsg != procStartCount {
        incomplete := true;
        endTime := now;
      }
    }

    method AddHost(entry: string)
      modifies this`execHosts, this`countSlotMsg
      ensures Info() == AddSlot(old(Info()), entry)
    {
      var sep := if countSlotMsg != 0 then "+" else "";
      countSlotMsg := countSlotMsg + 1;
      execHosts := execHosts + (sep + entry);
    }

    /** The slots loop of handleAccSlotsMsg; the buffer behind `execHosts` is the
        subject of module ExecHosts. */
    method AddHosts(slots: seq<Slot>, hostnames: seq<string>)
      modifies this
      ensures Info() == AddSlots(old(Info()), slots, hostnames)
    {
      hide Info, AddSlot;
      var i := 0;
      while i < |slots|
        invariant i <= |slots|
        invariant AddSlots(Info(), slots[i..], hostnames) == AddSlots(old(Info()), slots, hostnames)
      {
        assert slots[i..][0] == slots[i] && slots[i..][1..] == slots[i + 1..];
        if slots[i].node >= |hostnames| {
          return;
        }
        AddHost(SlotEntry(slots[i], hostnames));
        i := i + 1;
      }
      assert slots[|slots|..] == [];
    }

    /** First part of printAccEndMsg: end time and walltime. */
    method SettleWalltime(now: int) returns (wspan: int)
      modifies this`endTime, this`incomplete, this`walltime
      ensures endTime == if old(endTime) == 0 then now else old(endTime)
      ensures var noStart := startTime == 0 || startTime > endTime;
              var noWalltime := old(walltime) == Walltime(0, 0);
              && incomplete == (old(incomplete) || old(endTime) == 0 || (noStart && noWalltime))
              && walltime == (if noStart && !noWalltime then old(walltime).(sec := RoundedUp(old(walltime)))
                              else old(walltime))
              && wspan == if noStart then walltime.sec else endTime - startTime
    {
      if endTime == 0 {
        endTime := now;
        incomplete := true;
      }
      if startTime == 0 || startTime > endTime {
        if walltime.sec == 0 && walltime.usec == 0 {
          wspan := 0;
          incomplete := true;
        } else {
          if walltime.usec != 0 {
            walltime := walltime.(sec := walltime.sec + 1);
          }
          wspan := walltime.sec;
        }
      } else {
        wspan := endTime - startTime;
      }
    }

    /** Second part of printAccEndMsg: start and queue time. */
    method SettleStart()
      modifies this`startTime, this`walltime, this`queueTime
      ensures startTime == if old(startTime) == 0 && old(walltime).sec != 0 && endTime != 0
                           then endTime - RoundedUp(old(walltime)) else old(startTime)
      ensures queueTime == if old(queueTime) == 0 then startTime else old(queueTime)
    {
      if startTime == 0 && walltime.sec != 0 && endTime != 0 {
        if walltime.usec != 0 {
          walltime := walltime.(sec := walltime.sec + 1);
        }
        startTime := endTime - walltime.sec;
      }
      if queueTime == 0 {
        queueTime := startTime;
      }
    }

    method CountProcesses() returns (procs: int)
      ensures procs == Processes(procStartCount, countExitMsg, loggerChildren)
    {
      if procStartCount == 0 {
        procs := countExitMsg;
        if procs < loggerChildren {
          procs := loggerChildren;
        }
      } else {
        procs := procStartCount;
      }
    }

    /** printAccEndMsg up to the deletion of the job: the fields are completed in
        place, and what is printed from them is `MakeRecord` of the job before. */
    method MakeEndRecord(now: int) returns (ghost record: EndRecord)
      modifies this
      ensures record == MakeRecord(old(Info()), now)
    {
      hide RoundedUp, Processes;
      var wspan := SettleWalltime(now);
      if jobname.None? {
        jobname := Some("unknown");
      }
      SettleStart();
      var procs := CountProcesses();
      record := EndRecord(serial, logger, jobname.value, if jobid.None? then "" else jobid.value, execHosts,
                          queueTime, startTime, endTime, wspan, exitStatus, cput, procs,
                          procStartCount, countExitMsg, incomplete);
    }
  }
}
