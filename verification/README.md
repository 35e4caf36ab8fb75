# psmgmt in Dafny

A model of the parts of the ParaStation management system whose algorithms are
written out in the repository, with proofs of what they keep, lose and promise.

Each module carries the name of what it models. Pure code is modelled by
functions; code that changes state is modelled by methods on arrays and objects,
proved against functions on values, and what the program promises is then proved
about those functions.

| subject | modules | what is proved |
|---|---|---|
| folding and unfolding of host lists (`scripts/pscompress.py`, `scripts/psexpand.py`) | `Decimals`, `HostNames`, `Folding`, `Expansion`, `PrintParse`, `FoldMeaning`, `HostLists`, `HostOrder`, `HostRanges`, `HostGrids`, `Compress`, `ExpansionLaws` | the round trip on the printed strings, exactly which stocks of names are safe, order, normal form, what is printed for one and for two varying numbers, what a bracket stands for, termination, the aliased in-place loops |
| accounting daemon (`bin/psaccounter.c`) | `Jobs`, `JobStructs`, `JobTree`, `Accounter`, `AccounterRuns`, `QueueRuns`, `RecordRuns`, `Histories`, `JobRuns`, `HostRuns`, `ExecHosts` | the binary tree on the heap, the message handlers as a state machine, conservation, waiting and liveness over every run, every field of every record read off the messages, the growing string buffer |
| psiadmin loops (`bin/admin/commands.c`) | `SlotLists`, `SlotTokens`, `SlotWidths`, `ParamLists`, `HashSummary` | printed slot lists read back, their tokens are the only tight ones, the width of their lines, chunked option streams, hash grouping in static arrays |
| lists and accounters (`include/list.h`, `bin/daemon/psidaccount.c`) | `IntrusiveList`, `OptionMessages`, `Accounters` | rings refine sequences, the registry over every series of calls, multiplexing |
| CPUs (`scripts/gencpumap.py`, `include/pscpu.h`) | `CpuMap`, `StrideWalk`, `CpuSets` | stable sorts, the stride walk for every number of threads and cores, the bitset refines a set, the byte transfer, comparison |

`Options` holds the option type, `Sequences` facts about sequences, `Tasks` the layout of task IDs. `dafny verify dfyconfig.toml` checks everything.

## Where the code does not do what one would expect

- **Truncated merges.** `compress` compares neighbours through `zip`
  (`scripts/pscompress.py:48`), which ignores the rest of the longer one. `a1b`
  and `a2b3` fold to `a[1,2]b`: the 3 is gone (`HostLists.TruncationExample`).
  Two names are a *hazard* if they have different numbers of digit groups and,
  where they overlap, differ in exactly one group. A merge keeps all names if and
  only if both sides have equally many groups (`HostLists.MergeKeepsNamesIff`).
  Whether one list survives depends on its order, since only neighbours are
  merged: a1b, zz, a2b3 does (`HostLists.SurvivorExample`). So the exact condition
  is stated for the stock of names that lists are drawn from: all lists survive if
  and only if the stock has no hazard (`HostLists.RoundTripIff`).
- **Order.** A list comes back with its names in another order if they form a
  *rectangle*: a1b1, a2b1, a1b2, a2b2 (`HostOrder.OrderExample`). All lists drawn from
  a stock of names come back as they were, order included, if and only if the stock
  has no hazard and no rectangle (`HostOrder.OrderKeptIff`).
- **The empty list** is printed as the empty string, which expands to one empty
  name (`HostLists.EmptyListGainsName`).
- **Task ID 0**, which stands for the daemon of node 0. `timer_handler` takes a
  queued 0 for an empty queue and returns without starting the timer again. Job 0
  itself stays in the tree, neither queued nor recorded (`QueueRuns.ZeroIsDropped`),
  and the jobs behind it wait forever (`QueueRuns.ZeroStalls`,
  `QueueRuns.StallsForever`). All runs about a set of task IDs wait for the jobs whose
  logger has ended or died if and only if 0 is not in the set
  (`QueueRuns.WaitsForGoneIff`).
- **Task IDs that are used again** while still queued: the expiry meant for the old
  job records the new one, whose logger has neither ended nor died
  (`QueueRuns.ReuseExample`). In a
  run, queued jobs are always jobs whose own logger has ended or died if and only if
  no message starts a job under an ID that is still queued
  (`QueueRuns.OwnAccountIff`).
- **Start times made up from the walltime** round the seconds up twice: 1 second and
  5 microseconds become 2 seconds between times that are 3 seconds apart
  (`RecordRuns.RoundedTwice`). Which reported times make start, end and walltime of a
  record agree is stated exactly, for every record of every run: a start that is not
  after the end; or no start, and a walltime that is not zero and has no microseconds;
  or neither start nor walltime, and an end of 0 (`RecordRuns.EveryRecordAgreesIff`).
- **One element too far.** `printSlots` reads `slots[num]` if and only if the last
  token is a single node. The method takes whatever is there as a parameter, and its
  output is proved not to depend on it (`SlotLists.PrintSlots`). The loop at `bin/admin/commands.c:500`
  reads past `nodeListHash` if and only if all nodes answer and no two hashes are
  equal (`HashSummary.Summary.SummaryStat`).
- **Lines of a slot list** are to stay within a width. All do if and only if every
  token does, with the comma behind it (`SlotWidths.OutputFitsIff`); two nodes with
  ten digits each make a token that is too wide (`SlotWidths.WideToken`).
- **Option values have 32 bits**, task IDs 64: a receiver of `send_acct_OPTIONS` sees
  the process ID only. It sees the task ID if and only if the node is 0
  (`OptionMessages.TaskSurvivesIff`).
- **CPU numbers have 16 bits** where a node stores them, 32 where they are sent. A list
  given to `PSIADM_SetParamList` arrives as it is if and only if all its numbers have
  16 bits (`ParamLists.StoredIff`).
- **CPU maps with gaps.** `gencpumap.py` accepts sockets whose threads are not a
  multiple of their cores. With 16 threads on 10 cores its walk puts two threads in
  place 10 and leaves others empty (`StrideWalk.SixteenThreadsOnTenCores`); 24 threads
  on 16 cores work. With fewer cores than threads the walk goes around all places but
  the first (its period) in strides as long as there are cores; otherwise around all
  places in strides one longer. The map is complete if and only if no number of
  strides smaller than the period is a multiple of it (`CpuMap.MapIsCompleteIff`).
- **`PSCPU_cmp`** is documented to depend on which set holds the first CPU. It depends
  on the last CPU that differs within the byte of the first one that differs
  (`CpuSets.Cmp`); the first one decides if and only if the same set holds both
  (`CpuSets.FirstCpuDecidesIff`).

## Reading the model

- Jobs carry one history variable that the program does not have: `serial`, which of
  all jobs ever created this is. The state also records how many jobs were created,
  the end records written and the serials of deleted jobs. What was said in a run is
  read off its events: which logger's END came when (`QueueRuns.EndsAt`), which slots
  were announced for a job (`HostRuns.SlotMessages`), and what the other messages since
  its creation (`Histories.History`) say about its names, times, exit status, CPU time
  and children (`JobRuns.ToldBy`).
- Events are messages, SIGRES replies and expiries of the one-shot timer. Each is
  one atomic step, times are inputs of the step, and `protocolError` halts the
  daemon. `Accounter.Daemon` works on the heap; `Jobs.Step` is the same step on
  values; `Accounter.Daemon.Handle` ties them together.
- `Job.execHosts` is a string. The bounded C buffer behind it is modelled in
  `ExecHosts`; after any number of messages it holds the same string
  (`HostRuns.BufferOfRun`).
- Functions such as `PSC_getID`, `PStasklist_find` and `PSIDnodes_testGUID` are
  parameters, so the results hold for all of them.
- A few methods are pieces of one C function: `LoggerExits` and the `Note...`
  methods belong to the message handlers, `SettleWalltime`, `SettleStart` and
  `CountProcesses` to `printAccEndMsg`, `WaitFor` to `handleAccEndMsg` and
  `handle_CD_SIGRES`, `ReplaceBySuccessor` and `SwapWithSuccessor` to
  `deleteTNode`, `Note` and `PrintGroups` to `PSIADM_SummaryStat`.
- Bit operations on CPU masks are written out digit by digit; bytes of a mask are
  in little-endian order.

## Model

| member | source | states |
|---|---|---|
| HostLists.RoundTrip | scripts/pscompress.py:27-77 | For every non-empty list of names without brackets and commas and without a hazard, expanding the printed string gives every name back, as often as it was given. |
| HostLists.RoundTripOfEqualGroups | scripts/pscompress.py:27-77 | The same for every list of names with equally many digit groups, which is what the scripts are for. |
| HostLists.RoundTripIff | scripts/pscompress.py:48-49 | All lists drawn from a stock of names survive the round trip if and only if no two of the names are a hazard. |
| HostLists.HazardLosesName | scripts/pscompress.py:48-61 | For any two hazardous names, the second one is missing from the expansion. |
| HostLists.MergeKeepsNamesIff | scripts/pscompress.py:48-60 | A merge of two elements keeps all names, with multiplicity, if and only if the elements have equally many fields. |
| HostLists.MismatchIsHazard | scripts/pscompress.py:48-52 | Whenever elements of different lengths are merged, two of the names they stand for are a hazard. |
| HostLists.TruncationExample | scripts/pscompress.py:48 | a1b, a2b3 loses a2b3. |
| HostLists.EmptyListGainsName | scripts/psexpand.py:62-76 | The empty list comes back as one empty name. |
| HostOrder.OrderKeptIff | scripts/pscompress.py:27-77 | For every stock of names without brackets and commas: all lists drawn from it expand to exactly themselves, order and duplicates included, if and only if no two of the names are a hazard and no four a rectangle. |
| HostOrder.OrderedRoundTrip | scripts/pscompress.py:38-77 | Every list without hazard and rectangle comes back as it was. |
| HostOrder.RectangleChangesOrder | scripts/pscompress.py:38-77 | Any four names that form a rectangle change places: the second and the third come back in the other order. |
| HostOrder.MergeHasRectangle | scripts/pscompress.py:48-60 | Whenever a merge extends a field behind one with several values, four of the names are a rectangle. |
| HostOrder.OrderedFieldSum | scripts/psexpand.py:52-59 | The product distributes over a field in order if the fields before it have one value each. |
| HostOrder.RoundTripInOrder | scripts/pscompress.py:38-77 | With at most one digit group per name the expansion is the list itself. |
| HostOrder.OrderExample | scripts/pscompress.py:38-77 | a1b1, a2b1, a1b2, a2b2 is a rectangle and comes back as a1b1, a1b2, a2b1, a2b2. |
| HostLists.CompressedNormalForm | scripts/pscompress.py:47-68 | At the end no two neighbouring elements differ in one field only, as far as the shorter goes, and no range of a field starts at the number that follows the range before it, printed at that one's width. |
| HostLists.MergeableIff | scripts/pscompress.py:48-51 | The comparison by `zip` finds two elements mergeable if and only if, as far as the shorter goes, they differ in one field and nowhere else. |
| HostRanges.CompressedNumbers | scripts/pscompress.py:13-77 | For every list of names that differ in one number: if all are equal, the names are printed; else the text around one bracket with the maximal runs of the numbers in order, a single number as it is, two as both, more as a range, each with its own zero padding. |
| HostRanges.EveryListIsRuns | scripts/pscompress.py:54-60 | Every list of digit strings is a list of maximal runs, so the statement is about all of them. |
| HostRanges.CompressedRun | scripts/pscompress.py:13-77 | The names numbered from `a` to `b` at any width are printed as one range, or as two numbers if `b` is `a + 1`. |
| HostGrids.CompressedGrid | scripts/pscompress.py:38-77 | The names of a grid, row by row, with any two lists of numbers, are printed as one name with two brackets that hold the maximal runs of each. |
| HostGrids.CompressedGridOfRuns | scripts/pscompress.py:38-77 | So the names with all numbers from `a` to `b` and all from `c` to `d` become two ranges. |
| HostLists.JoinedStaysUnjoinable | scripts/pscompress.py:53-57 | A join does not make the joined range joinable with what follows, even if the padding width changes. |
| HostLists.FoldKeepsIff | scripts/pscompress.py:66-71 | The loop returns its input exactly if no two neighbours can be merged. |
| HostLists.UnmergedListIsKept | scripts/pscompress.py:63-68 | A list in which no neighbours can be merged comes back unchanged, hazards or not. |
| HostLists.SurvivorExample | scripts/pscompress.py:48-64 | a1b, zz, a2b3 comes back unchanged although a1b and a2b3 are a hazard. |
| Folding.PassLength | scripts/pscompress.py:38-71 | A pass returns its input or something strictly shorter, never nothing: the outer loop ends. |
| FoldMeaning.MergeableMeaning | scripts/pscompress.py:48-51 | One difference at an odd place means: all common texts and all common fields but one agree. |
| FoldMeaning.AbsorbValues | scripts/pscompress.py:52-60 | Joined or appended, the field stands for the numbers of both, in order and with their own zero padding. |
| FoldMeaning.AbsorbGood | scripts/pscompress.py:52-60 | Every field keeps rising ranges and stands for one number only if it is a single digit string. |
| FoldMeaning.SpanWidthChange | scripts/pscompress.py:55-57 | Numbers from `n` on print alike at a width and at the width of `n` printed at it. |
| FoldMeaning.FieldSum | scripts/psexpand.py:52-59 | The product distributes over any one field: extending a field adds exactly the names of the added numbers. |
| FoldMeaning.FirstFieldSum | scripts/psexpand.py:52-59 | For the first field this holds in order. |
| FoldMeaning.MergeNames | scripts/pscompress.py:48-61 | A merge of elements with equally many fields keeps the multiset of names. |
| FoldMeaning.PickIsName | scripts/psexpand.py:53-59 | Joining one number of each field with the texts gives a name of the element. |
| FoldMeaning.NameIsPick | scripts/psexpand.py:53-59 | Every name of an element is such a choice. |
| Decimals.ValueOfPadTo | scripts/psexpand.py:25-27 | A zero-padded numeral reads back as its number. |
| Decimals.PadToOwnWidth | scripts/psexpand.py:26-27 | A digit string is its value printed at its own length, leading zeros included. |
| Decimals.PadToWidthChange | scripts/pscompress.py:55-57 | Larger numbers print alike at a width and at the width of a smaller number printed at it. |
| Decimals.PadToInjective | scripts/pscompress.py:55 | Equal numerals of one width are equal numbers. |
| HostNames.SplitNameShape | scripts/pscompress.py:30-36 | Splitting a name yields digit-free texts, non-empty inside, around non-empty digit strings. |
| HostNames.JoinOfSplit | scripts/pscompress.py:30-36 | Joining the parts gives the name back. |
| HostNames.SplitOfJoin | scripts/pscompress.py:32-33 | Parts of that shape are what splitting their concatenation finds. |
| PrintParse.ExpandFormatRange | scripts/pscompress.py:13-18 | A printed range is read back as its numbers, in all three forms. |
| PrintParse.ExpandGroupAfterLiteral | scripts/psexpand.py:47-59 | Text in front of a group goes in front of every name. |
| PrintParse.ExpandGroupAfterBracket | scripts/psexpand.py:32-59 | A bracket is one factor of the product. |
| PrintParse.MatchElemOfFormat | scripts/psexpand.py:62-69 | The scanner takes a printed element as a whole, in front of anything. |
| PrintParse.ExpandFormatElement | scripts/psexpand.py:52-59 | A printed element expands to the names it stands for, in order. |
| PrintParse.ExpandedFormatList | scripts/psexpand.py:66-80 | A printed list expands to the names of its elements, in order. |
| Expansion.MatchElem | scripts/psexpand.py:62-79 | After a match the string is at its end or at a comma: the assertion never fails. |
| Expansion.ExpandList | scripts/psexpand.py:66-80 | The scanner loop ends on every string and yields what the recursive reading of the list says. |
| ExpansionLaws.ExpandedOfJoined | scripts/psexpand.py:66-80 | Two lists joined by a comma expand to both expansions in turn, if the first has all its brackets closed. |
| ExpansionLaws.ClosedIff | scripts/psexpand.py:62-80 | That holds for whatever follows if and only if the first list has all its brackets closed. |
| ExpansionLaws.GroupSize | scripts/psexpand.py:22-59 | The number of names is the product over the range sets of the summed sizes of their ranges. |
| ExpansionLaws.BracketExpands | scripts/psexpand.py:32-80 | Text around a bracket with anything in it stands for what the items in the bracket stand for, in order, with the text before and behind each; an empty bracket stands for nothing. |
| ExpansionLaws.ExpandRangeIs | scripts/psexpand.py:19-29 | An item of digits, a dash and digits stands for its numbers at the width of the first; any other item for itself; an empty one for nothing. |
| ExpansionLaws.BracketOfText | scripts/psexpand.py:28-39 | So what is neither a number nor a range is taken as it is. |
| ExpansionLaws.UnclosedExpands | scripts/psexpand.py:44-66 | Text without a comma in which no bracket is closed stands for itself. |
| Compress.Unshared | scripts/pscompress.py:29-36 | Preprocessing builds an element with lists of its own. |
| Compress.Diffs | scripts/pscompress.py:48 | The list of differing places, found by comparing through aliases, is that of the values. |
| Compress.AbsorbInPlace | scripts/pscompress.py:53-60 | The slice assignment or the extension of the shared list does to its contents what joining fields does to values; there is one range less exactly if the number after the last range, at its width, is where the other list starts. |
| Compress.MergeInPlace | scripts/pscompress.py:49-61 | Changing one shared list merges the last element and changes no other element of the result or the input. |
| Compress.FoldElement | scripts/pscompress.py:42-64 | One turn of the inner loop is one push on values. |
| Compress.PassInPlace | scripts/pscompress.py:39-64 | A pass refines the pass on values, although the elements of `list_in` change under it; if nothing was merged they did not change. |
| Compress.FoldInPlace | scripts/pscompress.py:29-71 | The outer loop ends, with the list's length as measure, at the fixpoint on values. |
| Compress.CompressNames | scripts/pscompress.py:27-77 | The script's result is the string that the theorems about the round trip, the normal form, ranges and grids are about. |
| JobTree.LookupFindsAll | bin/psaccounter.c:316-328 | In a sorted tree the search path of a key finds exactly the job stored with it anywhere in the tree. |
| JobTree.SearchTNode | bin/psaccounter.c:316-328 | The search finds the job of the key, or nothing if there is none. |
| JobTree.FindMin | bin/psaccounter.c:272-281 | Returns the node of the smallest key. |
| JobTree.InsertTNode | bin/psaccounter.c:253-270 | The tree stays sorted and well formed, gains the key with its job unless it was there, and every other key keeps its job. |
| JobTree.DeleteTNode | bin/psaccounter.c:283-314 | The tree stays sorted and well formed and loses exactly the given key; every other key keeps its own job; the freed job is the one stored under the key, and the freed node is no longer in the tree. |
| JobTree.ReplaceBySuccessor | bin/psaccounter.c:292-299 | With two children, taking over the successor and deleting it below removes exactly the old root's key and frees its job. |
| JobTree.SwapWithSuccessor | bin/psaccounter.c:293-298 | After the swap the right subtree is sorted and holds the doomed job at its smallest key, which the root now shares. |
| JobTree.MinJobLookups | bin/psaccounter.c:294-298 | Giving the smallest node another job changes what is found at its key only. |
| JobTree.DeletedTakenOver | bin/psaccounter.c:295-299 | Deleting the shared key below is deleting the old key from the whole, and what is freed is the old job. |
| JobStructs.Job.constructor | bin/psaccounter.c:431-470 | A new job has no times, counts, names or hosts. |
| JobStructs.Job.AddHosts | bin/psaccounter.c:1183-1227 | Entries are appended in message order up to the first unknown node. |
| JobStructs.Job.MakeEndRecord | bin/psaccounter.c:571-723 | Completing the fields in place yields the record that the job before determines; what it says is `JobRuns.EveryRecordTells`. |
| Accounter.Daemon.constructor | bin/psaccounter.c:430-470 | The daemon starts without jobs, queue or timer. |
| Accounter.Daemon.FindJob | bin/psaccounter.c:342-351 | Finds the job of a task ID exactly if there is one. |
| Accounter.Daemon.InsertJob | bin/psaccounter.c:330-334 | Stores a job under its own logger and leaves all others. |
| Accounter.Daemon.DeleteJob | bin/psaccounter.c:336-340 | Removes one job and leaves all others. |
| Accounter.Daemon.FinddJob | bin/psaccounter.c:222-230 | Tells whether the queue contains a job. |
| Accounter.Daemon.GetNextdJob | bin/psaccounter.c:240-251 | Takes the first job off the queue; 0 if it is empty. |
| Accounter.Daemon.WaitFor | bin/psaccounter.c:952-974 | Queues a job once and starts the timer for an empty queue. |
| Accounter.Daemon.HandleComHeader | bin/psaccounter.c:479-560 | Finds the job or creates it under its logger. |
| Accounter.Daemon.PrintAccEndMsg | bin/psaccounter.c:571-728 | Writes one record for a known job and removes it; does nothing for an unknown one. |
| Accounter.Daemon.HandleAccQueueMsg | bin/psaccounter.c:795-822 | Refines the QUEUE step. |
| Accounter.Daemon.HandleAccStartMsg | bin/psaccounter.c:1109-1133 | Refines the START step. |
| Accounter.Daemon.HandleAccChildMsg | bin/psaccounter.c:833-862 | Refines the CHILD step. |
| Accounter.Daemon.HandleAccLogMsg | bin/psaccounter.c:1247-1265 | Refines the LOG step. |
| Accounter.Daemon.LoggerExits | bin/psaccounter.c:926-979 | The job is recorded, or queued if children are missing. |
| Accounter.Daemon.HandleAccEndMsg | bin/psaccounter.c:908-1098 | Refines the END step of loggers and children. |
| Accounter.Daemon.HandleAccSlotsMsg | bin/psaccounter.c:1146-1227 | Refines the SLOTS step; never creates a job. |
| Accounter.Daemon.HandleAccDeleteMsg | bin/psaccounter.c:875-893 | Refines the DELETE step; never creates a job. |
| Accounter.Daemon.HandleCdSigRes | bin/psaccounter.c:1359-1396 | Refines the SIGRES step: a known job whose logger is gone is queued, and with an empty queue the timer starts; over runs this is `QueueRuns.WaitsForGoneIff`. |
| Accounter.Daemon.GiveUpOn | bin/psaccounter.c:742-766 | A job whose time is up is recorded with what has arrived. |
| Accounter.Daemon.TimerHandler | bin/psaccounter.c:737-782 | Refines the expiry step. |
| Accounter.Daemon.Handle | bin/psaccounter.c:1319-1346 | From every well-formed state, every event moves the tree, the queue, the timer and all records exactly as the step function says. |
| AccounterRuns.EveryRunKeepsFates | bin/psaccounter.c:479-499 | In every run, each job ever created is alive, in exactly one end record, or removed, never two of these; and the numbers add up. |
| AccounterRuns.WhoCreates | bin/psaccounter.c:479-499 | A job is created exactly by QUEUE, START, CHILD, LOG and END messages about an unknown logger: never by SLOTS, DELETE, SIGRES or expiry. |
| QueueRuns.GoneJobIsQueued | bin/psaccounter.c:950-979 | In every run: if an event is the END of a logger, or the reply that it does not exist, and its job is still in the tree at the end of the run, the job is in the queue. The run's END and SIGRES events are not about 0. |
| QueueRuns.WaitsForGoneIff | bin/psaccounter.c:739-781 | For every set of task IDs: all runs whose END and SIGRES events are about them keep every live job queued whose logger has ended or died, the queue free of duplicates, and the timer running exactly while jobs are queued, if and only if 0 is not in the set. |
| QueueRuns.ZeroIsDropped | bin/psaccounter.c:737-740 | CHILD and END for logger 0, then an expiry: the job is live, its logger has ended, nothing is queued or recorded. |
| QueueRuns.ZeroStalls | bin/psaccounter.c:737-740 | With another job behind it, that job is queued and the timer is off. |
| QueueRuns.StallsForever | bin/psaccounter.c:739-740 | Once the timer is off with jobs waiting, no run starts it again or takes a job off the queue. |
| QueueRuns.QueuedJobSettles | bin/psaccounter.c:737-782 | The job at place `i` of the queue is recorded or removed in every run with more than `i` expiries. |
| QueueRuns.GoneJobSettles | bin/psaccounter.c:919-979 | So the job of every logger that ends or dies in the run is recorded or removed within as many further expiries as jobs are queued. |
| QueueRuns.OwnAccountIff | bin/psaccounter.c:967-969 | At every moment of a run, all queued live jobs are jobs whose own logger has ended or died, if and only if no message of the run starts a job under an ID that is still queued. |
| QueueRuns.ReuseExample | bin/psaccounter.c:737-766 | CHILD, END, DELETE, CHILD for one ID and an expiry: the second job is recorded although its logger neither ended nor died. |
| RecordRuns.RecordsAreWritten | bin/psaccounter.c:571-723 | The records of a run are those made from the jobs that its END messages and expiries found complete or timed out, in order. |
| RecordRuns.RecordAgreesIff | bin/psaccounter.c:599-699 | For every job whose walltime is not negative: exactly which reported times give a record whose end minus start is its walltime. |
| RecordRuns.EveryRecordAgreesIff | bin/psaccounter.c:599-699 | The same for every record of every run; walltimes are never negative in a run. |
| RecordRuns.RoundedTwice | bin/psaccounter.c:613-696 | A run of one END with a walltime of 1 second and 5 microseconds, whose record says 2 seconds between times 3 seconds apart. |
| JobRuns.EveryRecordIsHonest | bin/psaccounter.c:950-979 | So a record that is not marked incomplete was written when, by the messages, at least as many children had exited as had been started. |
| JobRuns.EveryJobTells | bin/psaccounter.c:795-1265 | In every run, every field of every job in the tree is what the messages since its creation report: the first user, group and job ID, the last name, start, number of children and non-zero exit status, the numbers of children started and exited and the sum of their valid CPU times, the queue time, the longest walltime, the time at which no exit was missing, and the mark for an invalid CPU time. |
| JobRuns.LongestIs | bin/psaccounter.c:929-935 | The walltime kept is the first of the longest ones reported, in whole seconds, or zero if none is longer. |
| JobRuns.EveryRecordTells | bin/psaccounter.c:571-723 | In every run, every field of every record is what the messages report of its job, from its creation to the event that wrote the record: names, exit status, counts, processes, CPU time, hosts, queue, start and end time, walltime, and the mark "incomplete". |
| JobRuns.EveryRecordMarkedIff | bin/psaccounter.c:602-625 | A record is marked incomplete if and only if some child reported an invalid CPU time, an expiry found exits missing, there was no end time, or there was neither a usable start nor a walltime. |
| JobRuns.LoggerEndWritesIff | bin/psaccounter.c:950-979 | The END of a logger writes the record of its job and removes the job if and only if, by the messages, no exit is missing; otherwise the job stays and is queued. |
| JobRuns.WhoLeaves | bin/psaccounter.c:724-728 | A job leaves the tree with the DELETE message about it or with the event that writes its record, and never else. |
| JobRuns.DeleteRemoves | bin/psaccounter.c:875-893 | After DELETE there is no job of that ID, one that was there is removed, and nothing else changes. |
| HostRuns.EveryRunListsHosts | bin/psaccounter.c:1183-1227 | In every run, the host string of each job in the tree is the `+`-join of the entries of all SLOTS messages about it since it was created, each message up to its first unknown node, and the slot count is their number. |
| HostRuns.HostsReadBack | bin/psaccounter.c:1183-1227 | In every run, with host names without `+` and `/`, the host string of each job reads back as the hosts and CPUs of all slots announced for it, in order, each message up to its first unknown node. |
| HostRuns.BufferOfRun | bin/psaccounter.c:1206-1226 | The C buffer that receives those messages one after the other ends with exactly that string and count. |
| AccounterRuns.JobsAreIndependent | bin/psaccounter.c:342-351 | While it lives, a job's data depends on the messages about it alone: removing all others from the run changes nothing. |
| ExecHosts.HostBuffer.constructor | bin/psaccounter.c:466-467 | An empty string in 1024 bytes. |
| ExecHosts.EntryFits | bin/psaccounter.c:1208-1209 | With host names below 64 bytes and 16-bit CPUs an entry has less than 72 characters: nothing is cut off in its 400 bytes. |
| ExecHosts.StrNCpy | bin/psaccounter.c:1218-1219 | The larger buffer starts with the old string and is filled with NULs. |
| ExecHosts.SNPrintF | bin/psaccounter.c:1223-1226 | Writes what fits, then NUL, and nothing else. |
| ExecHosts.HostBuffer.Grow | bin/psaccounter.c:1216-1220 | Growing keeps the string. |
| ExecHosts.HostBuffer.Append | bin/psaccounter.c:1213-1226 | The entry is appended in full, NUL-terminated within the buffer, and one growth always suffices. |
| ExecHosts.HostBuffer.AddSlotEntries | bin/psaccounter.c:1183-1227 | Whatever is stored already, all entries of a message follow in full, joined by `+`, and are counted. |
| ExecHosts.HostBuffer.Receive | bin/psaccounter.c:1183-1227 | After any number of messages the buffer holds the `+`-join of all their entries: nothing is ever truncated. |
| SlotLists.FollowIsExact | bin/admin/commands.c:1035-1053 | The runs followed upwards or downwards, with the first, are the nodes of `first-last`, and a single run is printed as such. |
| SlotLists.TokenIsExact | bin/admin/commands.c:1026-1058 | A token stands for exactly the slots it was made from. |
| SlotLists.TokensAreExact | bin/admin/commands.c:1026-1065 | The tokens in turn stand for all slots, for every list. |
| SlotTokens.TokensIff | bin/admin/commands.c:1026-1058 | The tokens found are the only ones that stand for the slots and of which none goes on, up or down, with the run of slots behind it, nor on its own last node. |
| SlotTokens.TokensAreTight | bin/admin/commands.c:1035-1053 | No token found can be extended by the run that follows it. |
| SlotTokens.SpanIsOneToken | bin/admin/commands.c:1026-1058 | Neighbouring nodes with equally many slots each, up or down, are one token. |
| SlotLists.VisibleLayout | bin/admin/commands.c:1059-1064 | Wrapping adds blanks and line breaks only, and a comma stands exactly between two tokens. |
| SlotLists.ReadFormatToken | bin/admin/commands.c:1034-1058 | A printed token reads back as its first and last node and its repetition. |
| SlotLists.PrintedSlotsReadBack | bin/admin/commands.c:1017-1066 | The printed text, at any width, reads back as the list of nodes. |
| SlotLists.ScanRun | bin/admin/commands.c:1030-1033 | Counts the slots in a row on one node. |
| SlotLists.ScanToken | bin/admin/commands.c:1027-1058 | The nested loops find the token, whatever lies behind the last slot, which is looked at exactly if the token is a single node and the last one. |
| SlotLists.PrintSlots | bin/admin/commands.c:1017-1066 | The output is the layout of the tokens and reads back as the nodes of all slots, whatever lies behind the last one; that is read exactly if the last token is a single node. |
| SlotWidths.OutputFitsIff | bin/admin/commands.c:1059-1064 | Every line of the output, without its leading blanks, stays within the width if and only if every token does, with the comma behind it. |
| SlotWidths.LayoutIsGreedy | bin/admin/commands.c:1059-1064 | A line is broken only in front of a token that would not have fitted, every line but the first starts behind the offset, and a comma stands exactly between two tokens. |
| SlotWidths.WideToken | bin/admin/commands.c:1034-1064 | Two neighbouring nodes with ten digits each give a line of 21 characters at width 20. |
| HashSummary.Summary.constructor | bin/admin/commands.c:447-460 | Both arrays start empty. |
| HashSummary.Summary.Note | bin/admin/commands.c:484-490 | A slot at an index up to the node's is always found; the slots in use stay the distinct hashes in order of first occurrence, with their counts. |
| HashSummary.Summary.PrintGroups | bin/admin/commands.c:499-511 | Prints every group once and leaves both arrays empty; runs past their end exactly if all slots are in use. |
| HashSummary.Summary.SummaryStat | bin/admin/commands.c:436-511 | From empty arrays to empty arrays, for all answers: the up and down nodes are counted; each hash answered is on one line, in the order of the first answers, with the number of nodes that answered it; the line speaks of all nodes if and only if it is the first and every node that is up answered its hash; the overrun happens if and only if all nodes answer and all hashes differ. |
| HashSummary.LinesSummarise | bin/admin/commands.c:499-511 | The lines for any list of answers say that. |
| HashSummary.LinesAddUp | bin/admin/commands.c:499-511 | The counts printed add up to the nodes that answered. |
| HashSummary.DistinctFillsIff | bin/admin/commands.c:484-490 | There are as many slots in use as answers exactly if no two answers are equal. |
| ParamLists.SendToNodes | bin/admin/commands.c:1469-1476 | One message to every selected node that is up, none to the others. |
| ParamLists.SetParamList | bin/admin/commands.c:1441-1477 | No option index exceeds 15; every node that is up and selected gets, in messages of which only the last may have room left, one clear, one append per value in order, and the trigger; nobody else gets anything. Replaying what a node receives gives the list, cut to 16 bits, and makes it known, for exactly those nodes; the others keep their map. |
| ParamLists.SeriesSetsMap | bin/daemon/psidoption.c:641-649 | Replaying the series makes any CPU map the given list, cut to 16 bits, and makes that known to the other nodes. |
| ParamLists.StoredIff | bin/daemon/psidnodes.c:571-586 | A list is stored as given if and only if all its numbers have 16 bits. |
| OptionMessages.PackedIsLeast | bin/admin/commands.h:442-452 | No other messages for the same options are fewer, as the documentation promises. |
| OptionMessages.Low32 | bin/daemon/psidaccount.c:113 | The value received is the task ID modulo 2^32 as a signed number. |
| OptionMessages.TaskSurvivesIff | lib/pscommon/pscommon.c:110-121 | Of a task ID, 32 bits leave the process ID; it is the whole task ID if and only if the node is 0. |
| OptionMessages.PutOrSend | bin/daemon/psidaccount.c:111-121 | Storing an option neither loses nor reorders options and leaves room for one more; only full messages are sent. |
| OptionMessages.PutAndSend | bin/daemon/psidaccount.c:124-129 | The last message ends with the end marker. |
| IntrusiveList.EmptyRing | include/list.h:45-47 | A head linked to itself is exactly the empty list. |
| IntrusiveList.ListInsert | include/list.h:55-63 | The entry stands between its neighbours, whose other links stay. |
| IntrusiveList.ListAdd | include/list.h:73-76 | The list with the entry in front. |
| IntrusiveList.ListAddTail | include/list.h:86-89 | The list with the entry at the end. |
| IntrusiveList.ListEmpty | include/list.h:129-132 | True exactly for the empty list. |
| IntrusiveList.ListDel | include/list.h:110-113 | The list without the entry, whose own links are left as they were. |
| IntrusiveList.ListDelInit | include/list.h:119-123 | The list without the entry, which becomes an empty list. |
| IntrusiveList.ListSplice | include/list.h:139-153 | The first list's entries in front of the second's. |
| IntrusiveList.ListFix | include/list.h:191-201 | After the head has moved, the ring is closed again around the same entries, for the empty list too. |
| IntrusiveList.DeleteWhere | include/list.h:179-181 | Deleting entries while iterating visits every entry once, in order, and leaves the others in order. |
| Accounters.AccounterList.constructor | bin/daemon/psidaccount.c:34 | The registry starts empty. |
| Accounters.AccounterList.Find | bin/daemon/psidaccount.c:42-48 | Finds the first entry of a task ID, or the end of the list. |
| Accounters.AccounterList.AddAcct | bin/daemon/psidaccount.c:36-58 | Appends the accounter unless it is registered. |
| Accounters.AccounterList.RemAcct | bin/daemon/psidaccount.c:60-75 | Removes the accounter's first entry, if any. |
| Accounters.AccounterList.CleanAcctFromNode | bin/daemon/psidaccount.c:77-92 | Removes all accounters of a node and keeps the others in order. |
| Accounters.RegistryInOrder | bin/daemon/psidaccount.c:36-92 | After every series of calls the registry is in order of registration. |
| Accounters.RegistryHasNoDuplicates | bin/daemon/psidaccount.c:42-57 | After every series of calls no accounter is registered twice. |
| Accounters.RegisteredIff | bin/daemon/psidaccount.c:36-92 | An accounter is registered if and only if some add was not followed by its removal or a cleaning of its node. |
| Accounters.AccounterList.SendOptions | bin/daemon/psidaccount.c:94-130 | The messages, of which only the last may have room left, name all the accounters in order, or exactly the local ones, and end with the mark. |
| Accounters.AccountMsg.LocalForward | bin/daemon/psidaccount.c:146-180 | A copy goes out exactly if the receiver is an accounter that may see the user's data. |
| Accounters.AccountMsg.Multiplex | bin/daemon/psidaccount.c:137-226 | Copies go to the receivers in the registry, in order, and the destination is restored. A local accounter that is not privileged gets the messages about its own user only, a privileged one all; remote accounters get all, and tasks that are not accounters none. |
| Accounters.EachReceiverOnce | bin/daemon/psidaccount.c:202-220 | After every series of calls, each remote and each authorised local accounter gets a message once, and nobody else does. |
| CpuMap.SortsKeepFileOrder | scripts/gencpumap.py:107-108 | After both sorts the threads of each core are those of the file, in file order. |
| CpuMap.StableSortIsUnique | scripts/gencpumap.py:107-108 | There is only one stable sort: a sorted list in which equal keys keep their order is the one computed here, however the library sorts. |
| CpuMap.SortsOrder | scripts/gencpumap.py:107-108 | Both sorts together order by socket, then core, and keep all threads with multiplicity. |
| CpuMap.InOrderGroups | scripts/gencpumap.py:107-108 | A list in that order is the concatenation of the cores' threads. |
| StrideWalk.StridesOn | scripts/gencpumap.py:114-117 | For all threads and cores, step `n` is at `n` strides up to multiples of the period; with fewer cores than threads only step 0 is at place 0. |
| StrideWalk.RepeatsIff | scripts/gencpumap.py:111-117 | For all threads and cores, the walk visits no place twice if and only if no smaller number of strides than the period is a multiple of the period. |
| StrideWalk.FillsIff | scripts/gencpumap.py:110-117 | Exactly then it visits every place. |
| StrideWalk.SixteenThreadsOnTenCores | scripts/gencpumap.py:111-117 | 16 threads and 10 cores: steps 1 and 4 both go to place 10. |
| StrideWalk.TwentyFourThreadsOnSixteenCores | scripts/gencpumap.py:111-117 | 24 threads and 16 cores: no place is visited twice. |
| StrideWalk.WalkTransposes | scripts/gencpumap.py:111-117 | With `k` times as many threads as cores, step `c*k + t` is at place `t*cores + c`. |
| StrideWalk.MultipleNeverRepeats | scripts/gencpumap.py:111-117 | Then no place is visited twice. |
| CpuMap.PlaceThreads | scripts/gencpumap.py:110-117 | For all threads and cores, every place ends with the thread of the last step of the walk that visits it, and is empty if none does. |
| CpuMap.MapIsCompleteIff | scripts/gencpumap.py:110-125 | No place is empty, so that the last loops can print the map, if and only if no smaller number of strides than the period is a multiple of the period. |
| CpuMap.EntriesStay | scripts/gencpumap.py:112-113 | Then every thread is where the walk put it. |
| CpuMap.GenCpuMap | scripts/gencpumap.py:107-117 | The script from the sorts on is the walk over the sorted list, for all threads and cores. |
| CpuMap.MapTransposes | scripts/gencpumap.py:107-117 | With `k` times as many threads as cores, place `t*cores + c` holds entry `c*k + t` of the list. |
| CpuMap.MapOfCores | scripts/gencpumap.py:107-117 | If every core has `k` threads, place `t*cores + c` holds, in file order, thread `t` of core `c` in the order of sockets and cores. |
| CpuMap.ColumnsAreCoresIff | scripts/gencpumap.py:84-117 | The columns of the map belong to the cores, in order, if and only if every core has `k` threads. |
| CpuSets.SetCPU | include/pscpu.h:56-59 | Adds one CPU below 1024, and does nothing for others. |
| CpuSets.ClrCPU | include/pscpu.h:109-112 | Removes one CPU. |
| CpuSets.SetAll | include/pscpu.h:70-74 | All CPUs below 1024. |
| CpuSets.ClrAll | include/pscpu.h:123-127 | The empty set. |
| CpuSets.AddCPUs | include/pscpu.h:88-92 | The union, also of an array with itself. |
| CpuSets.RemCPUs | include/pscpu.h:141-145 | The difference, also of an array with itself. |
| CpuSets.IsSet | include/pscpu.h:159-162 | Membership. |
| CpuSets.SameCpusIff | include/pscpu.h:38 | Masks are equal if and only if the sets are. |
| CpuSets.HasIsByteBit | include/pscpu.h:406-409 | In little-endian layout, CPU `c` is bit `c % 8` of byte `c / 8`. |
| CpuSets.BytesForCPUs | include/pscpu.h:377-384 | The least number of bytes that holds so many CPUs; 0 for more than 1024. |
| CpuSets.Extract | include/pscpu.h:406-409 | The first bytes of the mask are copied, the rest of the buffer is left. |
| CpuSets.Inject | include/pscpu.h:431-435 | At most 128 bytes replace the first bytes of the mask; the others stay. |
| CpuSets.Carry | include/pscpu.h:377-435 | Extracting, clearing and injecting in turn, for every number of CPUs: the receiver ends with exactly those CPUs. |
| CpuSets.Cmp | include/pscpu.h:450-455 | Zero if and only if the sets are equal; otherwise positive if and only if the first set holds the highest of the CPUs that differ in the first differing byte. |
| CpuSets.FirstCpuDecidesIff | include/pscpu.h:446-454 | For any two sets, with the first differing CPU and the last one in its byte: the set with the last one compares greater, and the set with the first one does if and only if it has both. |
| CpuSets.FirstDifference | include/pscpu.h:446-454 | Any two different sets have such CPUs. |
| CpuSets.FirstCpuDoesNotDecide | include/pscpu.h:446-454 | Two comparisons in which the first differing CPU is in the first set, with opposite results. |

## Left out

- SIGALRM in the middle of a message handler: expiries happen between messages.
- The text of end records, log headers, extended logging and debug output, and all memory, thread and session sums that only appear in it.
- User and group names (`getpwuid`, `getgrgid`), the submitting host, and the task and partition sizes, which no modelled decision depends on; the check that the task size is positive is modelled.
- Negative node IDs in SLOTS messages.
- CPU time is an integer given with the message, not computed from floating point.
- Allocation failure, failing `sendMsg`, and a failing query for the host status.
- Python's Unicode digits: digits are ASCII. The patterns are modelled as the scanners they describe, not as regular expressions.
- HostLists.RoundTrip: is about multisets; when the order is kept is the subject of HostOrder.OrderKeptIff.
- HostLists.RoundTripIff: is about all lists over a stock of names; a single list with a hazard may survive, depending on its order.
- Reading `/proc/cpuinfo` and the checks on it. A socket without cores stops `gencpumap.py` at a division; the theorems about its walk are about one core or more.
- The text of a node list hash (`snprintf` of the option value) is an input of `HashSummary`, as is whether a query succeeds.
- `PSCPU_copy`, `PSCPU_disjoint` and the CPU set functions whose code is in a library that is not part of this model (`PSCPU_first`, `PSCPU_getCPUs`, `PSCPU_getUnset` and others).
- Null pointers as CPU sets, and the number that `memcmp` returns beyond its sign.
- Libraries known from their headers only (RDP, serialisation, timers, selectors, item pools), command parsing, terminal listings and the remaining tools and scripts.
