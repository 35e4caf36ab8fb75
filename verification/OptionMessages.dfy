/** Option messages: at most sixteen options travel in one message. */
module OptionMessages {
  import opened Sequences
  import opened Tasks

  /** DDOptionMsgMax */
  const MAX_OPTIONS := 16

  const PSP_OP_LISTEND := 0x000f
  const PSP_OP_ADD_ACCT := 0x0010
  const PSP_OP_ACCT := 0x0012
  const PSP_OP_CLR_CPUMAP := 0x0042
  const PSP_OP_APP_CPUMAP := 0x0043
  const PSP_OP_CPUMAP := 0x0044
  const PSP_OP_TRIGGER_DIST := 0x007b

  datatype Opt = Opt(option: nat, value: int)

  /** What the conversion to a 32-bit PSP_Optval_t leaves of an integer. */
  function Low32(v: int): (r: int)
    ensures -0x8000_0000 <= r < 0x8000_0000
    ensures (r - v) % 0x1_0000_0000 == 0
  {
    (v + 0x8000_0000) % 0x1_0000_0000 - 0x8000_0000
  }

  /** What the conversion to a 16-bit `short` leaves of an integer. */
  function Low16(v: int): (r: int)
    ensures -0x8000 <= r < 0x8000
    ensures (r - v) % 0x1_0000 == 0
  {
    (v + 0x8000) % 0x1_0000 - 0x8000
  }

  /** Of a task ID the process arrives, so only those of node 0 survive. */
  lemma TaskSurvivesIff(node: nat, pid: nat)
    requires node < 0x8000_0000 && pid < 0x8000_0000
    ensures Low32(TaskOf(node, pid)) == pid
    ensures Low32(TaskOf(node, pid)) == TaskOf(node, pid) <==> node == 0
  {
    var v := TaskOf(node, pid) + 0x8000_0000;
    assert v == node * 0x1_0000_0000 + (pid + 0x8000_0000);
    assert v % 0x1_0000_0000 == pid + 0x8000_0000;
  }

  /** A DDOptionMsg_t that is filled, sent and filled again. */
  class OptionMsg {
    const opt: array<Opt>
    var count: nat

    ghost predicate Valid()
      reads this, opt
    {
      opt.Length == MAX_OPTIONS && count <= MAX_OPTIONS
    }

    ghost function Contents(): seq<Opt>
      requires Valid()
      reads this, opt
    {
      opt[..count]
    }

    constructor ()
      ensures Valid() && fresh(opt) && Contents() == []
    {
      opt := new Opt[MAX_OPTIONS](_ => Opt(0, 0));
      count := 0;
    }

    /** Indexing `opt` needs a free place. */
    method Put(o: Opt)
      requires Valid() && |Contents()| < MAX_OPTIONS
      modifies this, opt
      ensures Valid() && Contents() == old(Contents()) + [o]
    {
      opt[count] := o;
      count := count + 1;
    }

    method Clear()
      requires Valid()
      modifies this
      ensures Valid() && Contents() == []
    {
      count := 0;
    }
  }

  /** All options of a series of messages. */
  function Joined(ms: seq<seq<Opt>>): seq<Opt> {
    if ms == [] then [] else Joined(ms[..|ms| - 1]) + ms[|ms| - 1]
  }

  /** No message is empty, or has more options than there is room for. */
  predicate AllFit(ms: seq<seq<Opt>>) {
    forall i | 0 <= i < |ms| :: 0 < |ms[i]| <= MAX_OPTIONS
  }

  predicate AllFull(ms: seq<seq<Opt>>) {
    forall i | 0 <= i < |ms| :: |ms[i]| == MAX_OPTIONS
  }

  /** Only the last message may have room left. */
  predicate Packed(ms: seq<seq<Opt>>) {
    ms != [] && AllFull(ms[..|ms| - 1]) && 0 < |ms[|ms| - 1]| <= MAX_OPTIONS
  }

  lemma {:induction false} JoinedLength(ms: seq<seq<Opt>>)
    ensures AllFit(ms) ==> |Joined(ms)| <= MAX_OPTIONS * |ms|
    ensures AllFull(ms) ==> |Joined(ms)| == MAX_OPTIONS * |ms|
  {
    if ms != [] {
      JoinedLength(ms[..|ms| - 1]);
    }
  }

  /** Then no other messages for the same options are fewer. */
  lemma {:induction false} PackedIsLeast(ms: seq<seq<Opt>>, ns: seq<seq<Opt>>)
    requires Packed(ms) && AllFit(ns) && Joined(ns) == Joined(ms)
    ensures |ms| <= |ns|
  {
    JoinedLength(ms[..|ms| - 1]);
    JoinedLength(ns);
  }

  lemma PackedFit(ms: seq<seq<Opt>>)
    requires Packed(ms)
    ensures AllFit(ms)
  {
    forall i | 0 <= i < |ms| ensures 0 < |ms[i]| <= MAX_OPTIONS {
      if i < |ms| - 1 {
        assert ms[i] == ms[..|ms| - 1][i];
      }
    }
  }

  lemma JoinedAppend(ms: seq<seq<Opt>>, m: seq<Opt>)
    ensures Joined(ms + [m]) == Joined(ms) + m
  {
    assert (ms + [m])[..|ms|] == ms;
  }

  /** Puts an option into a message; a full message is sent and emptied. */
  method PutOrSend(msg: OptionMsg, sent: seq<seq<Opt>>, o: Opt) returns (sent': seq<seq<Opt>>)
    requires msg.Valid() && |msg.Contents()| < MAX_OPTIONS && AllFull(sent)
    modifies msg, msg.opt
    ensures msg.Valid() && |msg.Contents()| < MAX_OPTIONS && AllFull(sent')
    ensures Joined(sent') + msg.Contents() == Joined(sent) + old(msg.Contents()) + [o]
  {
    sent' := sent;
    ghost var before := msg.Contents();
    msg.Put(o);
    Assoc(Joined(sent), before, [o]);
    if msg.count == MAX_OPTIONS {
      JoinedAppend(sent, msg.Contents());
      sent' := sent + [msg.opt[..msg.count]];
      msg.Clear();
    }
  }

  /** The end of a series: a last option, and the message is sent as it is. */
  method PutAndSend(msg: OptionMsg, sent: seq<seq<Opt>>, o: Opt) returns (sent': seq<seq<Opt>>)
    requires msg.Valid() && |msg.Contents()| < MAX_OPTIONS && AllFull(sent)
    modifies msg, msg.opt
    ensures Packed(sent') && Joined(sent') == Joined(sent) + old(msg.Contents()) + [o]
  {
    ghost var before := msg.Contents();
    msg.Put(o);
    Assoc(Joined(sent), before, [o]);
    JoinedAppend(sent, msg.Contents());
    sent' := sent + [msg.opt[..msg.count]];
    assert sent'[..|sent'| - 1] == sent;
  }
}
