/** The jobs of the accounting daemon (bin/psaccounter.c), the messages it
    receives, and what handling one of them does to its state. */
module Jobs {
  import opened Decimals
  import opened Options
  import opened Tasks

  /** `error` of a PSP_CD_SIGRES message if the logger is gone. */
  const ESRCH := 3

  datatype Walltime = Walltime(sec: int, usec: int)

  /** A Job_t. `serial`, which of all jobs ever created this is, is kept for the
      statements only. */
  datatype JobInfo = JobInfo(
    serial: nat,
    logger: TaskId,
    uid: Option<int>,
    gid: Option<int>,
    jobname: Option<string>,
    jobid: Option<string>,
    execHosts: string,
    countSlotMsg: nat,
    procStartCount: nat,
    countExitMsg: nat,
    loggerChildren: int,
    exitStatus: int,
    queueTime: int,
    startTime: int,
    endTime: int,
    walltime: Walltime,
    cput: int,
    incomplete: bool)

  function NewJob(serial: nat, logger: TaskId): JobInfo {
    JobInfo(serial, logger, None, None, None, None, "", 0, 0, 0, 0, 0, 0, 0, 0, Walltime(0, 0), 0, false)
  }

  // ----- end records

  /** What an end record says about a job. */
  datatype EndRecord = EndRecord(
    serial: nat,
    logger: TaskId,
    jobname: string,
    jobid: string,
    execHosts: string,
    queue: int,
    start: int,
    end: int,
    wallspan: int,
    exitStatus: int,
    cput: int,
    procs: int,
    started: nat,
    exited: nat,
    incomplete: bool)

  /** The job's seconds, rounded up. */
  function RoundedUp(w: Walltime): int {
    if w.usec != 0 then w.sec + 1 else w.sec
  }

  /** The processes started or, if none was reported, the most anyone knows of. */
  function Processes(started: nat, exited: nat, children: int): int {
    if started != 0 then started else if exited < children then children else exited
  }

  /** printAccEndMsg: the record written for a job at time `now`. The walltime is
      rounded up in place, and again when a missing start time is made up. */
  function MakeRecord(v: JobInfo, now: int): EndRecord {
    var end := if v.endTime == 0 then now else v.endTime;
    var noStart := v.startTime == 0 || v.startTime > end;
    var noWalltime := v.walltime == Walltime(0, 0);
    var wall := if noStart && !noWalltime then v.walltime.(sec := RoundedUp(v.walltime)) else v.walltime;
    var wallspan := if !noStart then end - v.startTime else if noWalltime then 0 else wall.sec;
    var start := if v.startTime == 0 && wall.sec != 0 && end != 0 then end - RoundedUp(wall) else v.startTime;
    EndRecord(
      v.serial,
      v.logger,
      if v.jobname.None? then "unknown" else v.jobname.value,
      if v.jobid.None? then "" else v.jobid.value,
      v.execHosts,
      if v.queueTime == 0 then start else v.queueTime,
      start,
      end,
      wallspan,
      v.exitStatus,
      v.cput,
      Processes(v.procStartCount, v.countExitMsg, v.loggerChildren),
      v.procStartCount,
      v.countExitMsg,
      v.incomplete || v.endTime == 0 || (noStart && noWalltime))
  }

  // ----- slots

  datatype Slot = Slot(node: nat, cpu: int)

  /** `"%d" % n` for any integer. */
  function FormatInt(n: int): string {
    if n < 0 then "-" + Decimal(-n) else Decimal(n)
  }

  function SlotEntry(slot: Slot, hostnames: seq<string>): string
    requires slot.node < |hostnames|
  {
    hostnames[slot.node] + "/" + FormatInt(slot.cpu)
  }

  /** One accepted slot. */
  function AddSlot(v: JobInfo, entry: string): JobInfo {
    var sep := if v.countSlotMsg != 0 then "+" else "";
    v.(execHosts := v.execHosts + (sep + entry), countSlotMsg := v.countSlotMsg + 1)
  }

  /** The loop of handleAccSlotsMsg: stops at the first unknown node. */
  function AddSlots(v: JobInfo, slots: seq<Slot>, hostnames: seq<string>): JobInfo
    decreases |slots|
  {
    if slots == [] || slots[0].node >= |hostnames| then v
    else AddSlots(AddSlot(v, SlotEntry(slots[0], hostnames)), slots[1..], hostnames)
  }

  // ----- the host string

  /** The entries that one message adds: up to the first unknown node. */
  function Entries(slots: seq<Slot>, hostnames: seq<string>): seq<string> {
    if slots == [] || slots[0].node >= |hostnames| then []
    else [SlotEntry(slots[0], hostnames)] + Entries(slots[1..], hostnames)
  }

  /** The entries of several messages. */
  function AllEntries(messages: seq<seq<Slot>>, hostnames: seq<string>): seq<string> {
    if messages == [] then []
    else AllEntries(messages[..|messages| - 1], hostnames) + Entries(messages[|messages| - 1], hostnames)
  }

  function JoinPlus(entries: seq<string>): string {
    if entries == [] then ""
    else if |entries| == 1 then entries[0]
    else JoinPlus(entries[..|entries| - 1]) + ("+" + entries[|entries| - 1])
  }

  lemma JoinPlusAppend(entries: seq<string>, entry: string)
    ensures JoinPlus(entries + [entry]) == JoinPlus(entries) + ((if entries != [] then "+" else "") + entry)
  {
    assert (entries + [entry])[..|entries|] == entries;
    if entries == [] {
      assert "" + ("" + entry) == entry;
    }
  }

  // ----- messages

  /** The part every message but SLOTS and DELETE starts with. */
  datatype Header = Header(logger: TaskId, rank: int, uid: int, gid: int)

  datatype EndInfo = EndInfo(children: int, walltime: Walltime, exitStatus: int, cputime: int)

  datatype Event =
    | Queue(head: Header, now: int)
    | Start(head: Header, taskSize: int, now: int)
    | Child(head: Header, exec: string)
    | Log(head: Header, children: int, id: string)
    | End(head: Header, sender: TaskId, info: EndInfo, now: int)
    | Slots(logger: TaskId, slots: seq<Slot>)
    | Delete(logger: TaskId)
    | Lost
    | SigRes(request: TaskId, error: int)
    | Expire(now: int)

  // ----- the daemon's state

  /** `jobs` is the tree, `dJobs` the queue of incomplete jobs, `armed` the
      one-shot timer; `records` are the end records written, `removed` the
      serials of the jobs a DELETE message removed. */
  datatype State = State(
    jobs: map<TaskId, JobInfo>,
    dJobs: seq<TaskId>,
    armed: bool,
    halted: bool,
    created: nat,
    records: seq<EndRecord>,
    removed: seq<nat>)

  const INITIAL := State(map[], [], false, false, 0, [], [])

  /** protocolError */
  function Halt(s: State): State {
    s.(halted := true)
  }

  function FirstOf(known: Option<int>, id: int): Option<int> {
    if known.None? then Some(id) else known
  }

  /** handleComHeader: finds the job, or creates it. */
  function WithHeader(s: State, h: Header): (s': State)
    ensures h.logger in s'.jobs
  {
    var known := h.logger in s.jobs;
    var v := if known then s.jobs[h.logger] else NewJob(s.created, h.logger);
    s.(jobs := s.jobs[h.logger := v.(uid := FirstOf(v.uid, h.uid), gid := FirstOf(v.gid, h.gid))],
       created := if known then s.created else s.created + 1)
  }

  /** Queues a job once; an empty queue gets its timer started. */
  function Enqueue(s: State, job: TaskId): State {
    s.(armed := s.armed || s.dJobs == [],
       dJobs := if job in s.dJobs then s.dJobs else s.dJobs + [job])
  }

  /** printAccEndMsg: writes the record and deletes the job. */
  function PrintEnd(s: State, job: TaskId, now: int): State {
    if job !in s.jobs then s
    else s.(records := s.records + [MakeRecord(s.jobs[job], now)], jobs := s.jobs - {job})
  }

  function OnQueue(s: State, h: Header, now: int): State {
    var s1 := WithHeader(s, h);
    if h.rank != -1 then Halt(s1)
    else s1.(jobs := s1.jobs[h.logger := s1.jobs[h.logger].(queueTime := now)])
  }

  function OnStart(s: State, h: Header, taskSize: int, now: int): State {
    var s1 := WithHeader(s, h);
    if h.rank != -1 || taskSize < 1 then Halt(s1) else
    var v := s1.jobs[h.logger];
    s1.(jobs := s1.jobs[h.logger := v.(startTime := now, queueTime := if v.queueTime == 0 then now else v.queueTime)])
  }

  /** A child has been started; rank 0 names the job. */
  function ChildStart(v: JobInfo, rank: int, exec: string): JobInfo {
    v.(jobname := if rank == 0 then Some(exec) else v.jobname, procStartCount := v.procStartCount + 1)
  }

  function OnChild(s: State, h: Header, exec: string): State {
    var s1 := WithHeader(s, h);
    if h.rank < 0 then Halt(s1)
    else s1.(jobs := s1.jobs[h.logger := ChildStart(s1.jobs[h.logger], h.rank, exec)])
  }

  function OnLog(s: State, h: Header, children: int, id: string): State {
    var s1 := WithHeader(s, h);
    var v := s1.jobs[h.logger];
    s1.(jobs := s1.jobs[h.logger := v.(
      loggerChildren := children,
      jobid := if v.jobid.None? then Some(id) else v.jobid)])
  }

  function Longer(known: Walltime, reported: Walltime): Walltime {
    if reported.sec > known.sec then reported else known
  }

  /** The logger is exiting. */
  function LoggerEnd(v: JobInfo, info: EndInfo): JobInfo {
    v.(loggerChildren := info.children, walltime := Longer(v.walltime, info.walltime))
  }

  /** A child's forwarder is exiting. */
  function ChildEnd(v: JobInfo, info: EndInfo, now: int): JobInfo {
    v.(walltime := Longer(v.walltime, info.walltime),
       exitStatus := if info.exitStatus != 0 then info.exitStatus else v.exitStatus,
       incomplete := v.incomplete || info.cputime < 0,
       cput := if info.cputime < 0 then v.cput else v.cput + info.cputime,
       countExitMsg := v.countExitMsg + 1,
       endTime := if v.countExitMsg + 1 == v.procStartCount then now else v.endTime)
  }

  function OnEnd(s: State, h: Header, sender: TaskId, info: EndInfo, now: int): State {
    var s1 := WithHeader(s, h);
    var v := s1.jobs[h.logger];
    if sender == h.logger then
      if h.rank != -1 then Halt(s1) else
      var v1 := LoggerEnd(v, info);
      if v1.countExitMsg < v1.procStartCount then
        Enqueue(s1.(jobs := s1.jobs[h.logger := v1]), h.logger)
      else
        var v2 := v1.(endTime := if v1.endTime == 0 then now else v1.endTime);
        PrintEnd(s1.(jobs := s1.jobs[h.logger := v2]), h.logger, now)
    else
      if h.rank < 0 then Halt(s1)
      else s1.(jobs := s1.jobs[h.logger := ChildEnd(v, info, now)])
  }

  function OnSlots(s: State, logger: TaskId, slots: seq<Slot>, hostnames: seq<string>): State {
    if logger !in s.jobs then s
    else s.(jobs := s.jobs[logger := AddSlots(s.jobs[logger], slots, hostnames)])
  }

  function OnDelete(s: State, logger: TaskId): State {
    if logger !in s.jobs then s
    else s.(jobs := s.jobs - {logger}, removed := s.removed + [s.jobs[logger].serial])
  }

  function OnSigRes(s: State, request: TaskId, error: int): State {
    if error == ESRCH && request in s.jobs then Enqueue(s, request) else s
  }

  /** A job whose time is up, before its record is written. */
  function TimedOut(v: JobInfo, now: int): JobInfo {
    if v.countExitMsg != v.procStartCount then v.(incomplete := true, endTime := now) else v
  }

  /** The job is recorded with what has arrived; an unknown one is skipped. */
  function GiveUp(s: State, tid: TaskId, now: int): State {
    if tid !in s.jobs then s
    else PrintEnd(s.(jobs := s.jobs[tid := TimedOut(s.jobs[tid], now)]), tid, now)
  }

  /** timer_handler. A task ID of 0 is taken for an empty queue. */
  function OnExpire(s: State, now: int): State {
    var s0 := s.(armed := false);
    if s.dJobs == [] then s0 else
    var tid := s.dJobs[0];
    var s1 := s0.(dJobs := s.dJobs[1..]);
    if tid == 0 then s1 else
    var s2 := GiveUp(s1, tid, now);
    s2.(armed := s2.dJobs != [])
  }

  /** Events happen unless the daemon has exited; only an armed timer expires. */
  predicate Enabled(s: State, e: Event) {
    !s.halted && (e.Expire? ==> s.armed)
  }

  function Step(s: State, e: Event, hostnames: seq<string>): State {
    match e
    case Queue(h, now) => OnQueue(s, h, now)
    case Start(h, taskSize, now) => OnStart(s, h, taskSize, now)
    case Child(h, exec) => OnChild(s, h, exec)
    case Log(h, children, id) => OnLog(s, h, children, id)
    case End(h, sender, info, now) => OnEnd(s, h, sender, info, now)
    case Slots(logger, slots) => OnSlots(s, logger, slots, hostnames)
    case Delete(logger) => OnDelete(s, logger)
    case Lost => s
    case SigRes(request, error) => OnSigRes(s, request, error)
    case Expire(now) => OnExpire(s, now)
  }

  predicate Runs(s: State, es: seq<Event>, hostnames: seq<string>)
    decreases |es|
  {
    es == [] || (Enabled(s, es[0]) && Runs(Step(s, es[0], hostnames), es[1..], hostnames))
  }

  function After(s: State, es: seq<Event>, hostnames: seq<string>): State
    decreases |es|
  {
    if es == [] then s else After(Step(s, es[0], hostnames), es[1..], hostnames)
  }
}
