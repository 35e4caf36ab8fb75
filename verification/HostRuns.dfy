/** The execution hosts of a job, in every run of the daemon. */
module HostRuns {
  import opened AccounterRuns
  import opened Decimals
  import opened ExecHosts
  import opened Expansion
  import opened Jobs
  import opened PrintParse
  import opened Sequences
  import opened Tasks

  /** The slots of all SLOTS messages about the job that is stored under `k` at the
      end of the run, since it was created. */
  function SlotMessages(es: seq<Event>, hostnames: seq<string>, k: TaskId): seq<seq<Slot>> {
    if es == [] then [] else
    var front, last := es[..|es| - 1], es[|es| - 1];
    if k !in After(INITIAL, front, hostnames).jobs then []
    else SlotMessages(front, hostnames, k) + if last.Slots? && last.logger == k then [last.slots] else []
  }

  /** The host string of `v` is the `+`-join of `entries`, and they are counted. */
  predicate Lists(v: JobInfo, entries: seq<string>) {
    v.execHosts == JoinPlus(entries) && v.countSlotMsg == |entries|
  }

  lemma {:induction false} AddSlotsLists(v: JobInfo, entries: seq<string>, slots: seq<Slot>, hostnames: seq<string>)
    requires Lists(v, entries)
    ensures Lists(AddSlots(v, slots, hostnames), entries + Entries(slots, hostnames))
    decreases |slots|
  {
    hide JoinPlus, SlotEntry;
    if slots == [] || slots[0].node >= |hostnames| {
      assert entries + [] == entries;
    } else {
      var entry := SlotEntry(slots[0], hostnames);
      JoinPlusAppend(entries, entry);
      AddSlotsLists(AddSlot(v, entry), entries + [entry], slots[1..], hostnames);
      Assoc(entries, [entry], Entries(slots[1..], hostnames));
    }
  }

  ghost predicate SameHosts(v: JobInfo, w: JobInfo) {
    v.execHosts == w.execHosts && v.countSlotMsg == w.countSlotMsg
  }

  /** The job as it was, or as it would have been created. */
  function Before(s: State, k: TaskId): JobInfo {
    if k in s.jobs then s.jobs[k] else NewJob(s.created, k)
  }

  lemma HeaderLeavesHosts(s: State, h: Header, k: TaskId)
    requires k in WithHeader(s, h).jobs
    ensures SameHosts(WithHeader(s, h).jobs[k], Before(s, k))
  {
  }

  lemma EndLeavesHosts(s: State, h: Header, sender: TaskId, info: EndInfo, now: int, k: TaskId)
    requires k in OnEnd(s, h, sender, info, now).jobs
    ensures SameHosts(OnEnd(s, h, sender, info, now).jobs[k], Before(s, k))
  {
    hide MakeRecord, WithHeader;
    assert k in WithHeader(s, h).jobs;
    HeaderLeavesHosts(s, h, k);
  }

  /** Only SLOTS messages touch the host string. */
  lemma {:induction false} StepLeavesHosts(s: State, e: Event, hostnames: seq<string>, k: TaskId)
    requires !e.Slots? && k in Step(s, e, hostnames).jobs
    ensures SameHosts(Step(s, e, hostnames).jobs[k], Before(s, k))
  {
    hide MakeRecord, AddSlots, WithHeader, OnEnd;
    if e.End? {
      EndLeavesHosts(s, e.head, e.sender, e.info, e.now, k);
    } else if e.Queue? || e.Start? || e.Child? || e.Log? {
      assert k in WithHeader(s, e.head).jobs;
      HeaderLeavesHosts(s, e.head, k);
    }
  }

  /** In every run, the host string of every job in the tree is the `+`-join of the
      entries of all SLOTS messages about it, and the counter counts them. */
  lemma {:induction false} EveryRunListsHosts(es: seq<Event>, hostnames: seq<string>, k: TaskId)
    requires k in After(INITIAL, es, hostnames).jobs
    ensures Lists(After(INITIAL, es, hostnames).jobs[k], AllEntries(SlotMessages(es, hostnames, k), hostnames))
    decreases |es|
  {
    hide After, Step, Entries, JoinPlus, AddSlots;
    if es == [] {
      NothingAtFirst(hostnames);
    } else {
      var front, last := es[..|es| - 1], es[|es| - 1];
      var s, t := After(INITIAL, front, hostnames), After(INITIAL, es, hostnames);
      LastStep(INITIAL, es, hostnames);
      var ms := SlotMessages(front, hostnames, k);
      if k in s.jobs {
        EveryRunListsHosts(front, hostnames, k);
        assert ms + [] == ms;
      }
      if last.Slots? {
        SlotsLeaveOthers(s, last, hostnames, k);
        if last.logger == k {
          AddSlotsLists(s.jobs[k], AllEntries(ms, hostnames), last.slots, hostnames);
          assert (ms + [last.slots])[..|ms|] == ms;
        }
      } else {
        StepLeavesHosts(s, last, hostnames, k);
        FreshLists(s.created, k, hostnames);
      }
    }
  }

  lemma SlotsLeaveOthers(s: State, e: Event, hostnames: seq<string>, k: TaskId)
    requires e.Slots? && k in Step(s, e, hostnames).jobs
    ensures k in s.jobs
    ensures Step(s, e, hostnames).jobs[k] ==
            if k == e.logger then AddSlots(s.jobs[k], e.slots, hostnames) else s.jobs[k]
  {
    hide AddSlots;
  }

  lemma NothingAtFirst(hostnames: seq<string>)
    ensures After(INITIAL, [], hostnames) == INITIAL
  {
  }

  lemma FreshLists(serial: nat, k: TaskId, hostnames: seq<string>)
    ensures Lists(NewJob(serial, k), AllEntries([], hostnames))
  {
  }

  /** So the C buffer that receives those messages ends with the job's host string,
      whatever their number. */
  method BufferOfRun(ghost es: seq<Event>, messages: seq<seq<Slot>>, hostnames: seq<string>, ghost k: TaskId)
      returns (buffer: HostBuffer)
    requires k in After(INITIAL, es, hostnames).jobs && messages == SlotMessages(es, hostnames, k)
    requires forall i | 0 <= i < |hostnames| :: Hostname(hostnames[i])
    requires forall i, j | 0 <= i < |messages| && 0 <= j < |messages[i]| :: ShortCpu(messages[i][j])
    ensures fresh(buffer) && buffer.Valid()
    ensures var v := After(INITIAL, es, hostnames).jobs[k];
            buffer.Text() == v.execHosts && buffer.count == v.countSlotMsg
  {
    hide After, SlotMessages, AllEntries, JoinPlus, Hostname, ShortCpu;
    EveryRunListsHosts(es, hostnames, k);
    buffer := HostBuffer.Receive(messages, hostnames);
  }

  // ----- reading the host string back

  /** `[-]digits` */
  function ReadInt(s: string): int {
    if s != "" && s[0] == '-' then 0 - NumberIn(s[1..]) else NumberIn(s)
  }

  /** `host/cpu` */
  function ReadEntry(s: string): (string, int) {
    var k := IndexOf('/', s);
    (s[..k], if k < |s| then ReadInt(s[k + 1..]) else 0)
  }

  function ReadEntries(ps: seq<string>): seq<(string, int)> {
    seq(|ps|, i requires 0 <= i < |ps| => ReadEntry(ps[i]))
  }

  /** The hosts and CPUs a host string names. */
  function ReadHosts(s: string): seq<(string, int)> {
    if s == "" then [] else ReadEntries(SplitOn('+', s))
  }

  /** The slots of a message up to the first unknown node. */
  function Known(slots: seq<Slot>, hostnames: seq<string>): seq<Slot> {
    if slots == [] || slots[0].node >= |hostnames| then [] else [slots[0]] + Known(slots[1..], hostnames)
  }

  function AllKnown(messages: seq<seq<Slot>>, hostnames: seq<string>): seq<Slot> {
    if messages == [] then []
    else AllKnown(messages[..|messages| - 1], hostnames) + Known(messages[|messages| - 1], hostnames)
  }

  predicate Readable(host: string) {
    '+' !in host && '/' !in host
  }

  /** The entries are the known slots' hosts and CPUs. */
  ghost predicate EntriesOf(entries: seq<string>, slots: seq<Slot>, hostnames: seq<string>) {
    |entries| == |slots| && forall i | 0 <= i < |slots| ::
      slots[i].node < |hostnames| && entries[i] == SlotEntry(slots[i], hostnames)
  }

  lemma {:induction false} KnownEntries(slots: seq<Slot>, hostnames: seq<string>)
    ensures EntriesOf(Entries(slots, hostnames), Known(slots, hostnames), hostnames)
  {
    hide SlotEntry;
    if slots != [] && slots[0].node < |hostnames| {
      KnownEntries(slots[1..], hostnames);
    }
  }

  lemma {:induction false} AllKnownEntries(messages: seq<seq<Slot>>, hostnames: seq<string>)
    ensures EntriesOf(AllEntries(messages, hostnames), AllKnown(messages, hostnames), hostnames)
  {
    hide SlotEntry;
    if messages != [] {
      AllKnownEntries(messages[..|messages| - 1], hostnames);
      KnownEntries(messages[|messages| - 1], hostnames);
    }
  }

  lemma ReadFormatInt(n: int)
    ensures ReadInt(FormatInt(n)) == n && '+' !in FormatInt(n)
  {
    var d := Decimal(if n < 0 then -n else n);
    ValueOfDecimal(if n < 0 then -n else n);
    hide Decimal, ValueOf;
    NumeralHasNo('+', d);
    NumeralHasNo('-', d);
    if n < 0 {
      assert ("-" + d)[1..] == d;
    }
  }

  lemma ReadSlotEntry(slot: Slot, hostnames: seq<string>)
    requires slot.node < |hostnames| && Readable(hostnames[slot.node])
    ensures var s := SlotEntry(slot, hostnames);
            ReadEntry(s) == (hostnames[slot.node], slot.cpu) && '+' !in s && s != ""
  {
    hide IndexOf, FormatInt, ReadInt;
    var host, cpu := hostnames[slot.node], FormatInt(slot.cpu);
    ReadFormatInt(slot.cpu);
    IndexOfHere('/', host, cpu);
    var s := SlotEntry(slot, hostnames);
    assert s == host + ['/'] + cpu;
    assert s[..|host|] == host && s[|host| + 1..] == cpu;
  }

  lemma {:induction false} SplitJoinPlus(entries: seq<string>)
    requires entries != [] && forall i | 0 <= i < |entries| :: '+' !in entries[i] && entries[i] != ""
    ensures SplitOn('+', JoinPlus(entries)) == entries && JoinPlus(entries) != ""
    decreases |entries|
  {
    hide IndexOf, SplitOn;
    var front, last := entries[..|entries| - 1], entries[|entries| - 1];
    IndexOfAbsent('+', last);
    SplitOnStep('+', last, |last|);
    assert entries == front + [last];
    if front != [] {
      SplitJoinPlus(front);
      SplitOnConcat('+', JoinPlus(front), last);
      assert JoinPlus(entries) == JoinPlus(front) + ['+'] + last;
    }
  }

  /** In every run, the host string of every job in the tree reads back as the hosts and
      CPUs of all slots announced for it, each message up to its first unknown node. */
  lemma {:induction false} HostsReadBack(es: seq<Event>, hostnames: seq<string>, k: TaskId)
    requires k in After(INITIAL, es, hostnames).jobs && forall i | 0 <= i < |hostnames| :: Readable(hostnames[i])
    ensures var slots := AllKnown(SlotMessages(es, hostnames, k), hostnames);
            var read := ReadHosts(After(INITIAL, es, hostnames).jobs[k].execHosts);
            |read| == |slots| && forall i | 0 <= i < |slots| ::
              slots[i].node < |hostnames| && read[i] == (hostnames[slots[i].node], slots[i].cpu)
  {
    hide After, SlotMessages, AllEntries, JoinPlus, SlotEntry, ReadEntry, SplitOn, Readable;
    var messages := SlotMessages(es, hostnames, k);
    var entries, slots := AllEntries(messages, hostnames), AllKnown(messages, hostnames);
    EveryRunListsHosts(es, hostnames, k);
    AllKnownEntries(messages, hostnames);
    forall i | 0 <= i < |slots|
      ensures ReadEntry(entries[i]) == (hostnames[slots[i].node], slots[i].cpu)
      ensures '+' !in entries[i] && entries[i] != ""
    {
      ReadSlotEntry(slots[i], hostnames);
    }
    if entries == [] {
      NoEntries(hostnames);
    } else {
      SplitJoinPlus(entries);
    }
  }
}
