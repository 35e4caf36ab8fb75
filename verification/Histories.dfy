/** The messages about a job since its creation, and what they count. */
module Histories {
  import opened AccounterRuns
  import opened Jobs
  import opened Options
  import opened RecordRuns
  import opened Tasks

  // ----- what the messages say

  /** A child of `k` has been started. */
  predicate Starts(e: Event, k: TaskId) {
    e.Child? && e.head.logger == k && e.head.rank >= 0
  }

  /** A child of `k` has exited; its forwarder is the sender. */
  predicate Exits(e: Event, k: TaskId) {
    e.End? && e.head.logger == k && e.sender != k && e.head.rank >= 0
  }

  /** The CPU time it reports, if that is valid. */
  function CpuTime(e: Event, k: TaskId): int {
    if Exits(e, k) && e.info.cputime >= 0 then e.info.cputime else 0
  }

  /** The events since the job stored under `k` at the end of the run was created, from
      the one that created it on; none if there is no such job. */
  function History(es: seq<Event>, hostnames: seq<string>, k: TaskId): seq<Event> {
    if es == [] || k !in After(INITIAL, es, hostnames).jobs then []
    else History(es[..|es| - 1], hostnames, k) + [es[|es| - 1]]
  }

  function Sum(h: seq<Event>, f: Event -> int): int {
    if h == [] then 0 else Sum(h[..|h| - 1], f) + f(h[|h| - 1])
  }

  function Started(h: seq<Event>, k: TaskId): int {
    Sum(h, e => if Starts(e, k) then 1 else 0)
  }

  function Exited(h: seq<Event>, k: TaskId): int {
    Sum(h, e => if Exits(e, k) then 1 else 0)
  }

  function CpuUsed(h: seq<Event>, k: TaskId): int {
    Sum(h, e => CpuTime(e, k))
  }

  datatype Counts = Counts(started: int, exited: int, cput: int)

  function CountsOf(v: JobInfo): Counts {
    Counts(v.procStartCount, v.countExitMsg, v.cput)
  }

  function Add(c: Counts, e: Event, k: TaskId): Counts {
    Counts(c.started + (if Starts(e, k) then 1 else 0), c.exited + (if Exits(e, k) then 1 else 0),
           c.cput + CpuTime(e, k))
  }

  function Totals(h: seq<Event>, k: TaskId): Counts {
    Counts(Started(h, k), Exited(h, k), CpuUsed(h, k))
  }

  lemma TotalsStep(h: seq<Event>, e: Event, k: TaskId)
    ensures Totals(h + [e], k) == Add(Totals(h, k), e, k)
  {
    assert (h + [e])[..|h|] == h;
  }

  lemma HistoryStep(es: seq<Event>, hostnames: seq<string>, k: TaskId)
    ensures History(es, hostnames, k) ==
            if es == [] || k !in After(INITIAL, es, hostnames).jobs then []
            else History(es[..|es| - 1], hostnames, k) + [es[|es| - 1]]
  {
    hide After;
  }

  lemma NobodyAtFirst(hostnames: seq<string>)
    ensures After(INITIAL, [], hostnames) == INITIAL
  {
  }

  /** The places in the run of the events that write records. */
  function WriteTimes(es: seq<Event>, hostnames: seq<string>): seq<nat> {
    if es == [] then [] else
    var front, last := es[..|es| - 1], es[|es| - 1];
    WriteTimes(front, hostnames) + if Written(After(INITIAL, front, hostnames), last).Some? then [|front|] else []
  }
}
