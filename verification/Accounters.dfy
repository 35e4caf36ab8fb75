/** The registry of accounting tasks: bin/daemon/psidaccount.c. */
module Accounters {
  import opened Options
  import opened IntrusiveList
  import opened OptionMessages
  import opened Sequences
  import opened Tasks

  // ----- the registry as a sequence

  function Added(ts: seq<TaskId>, t: TaskId): seq<TaskId> {
    if t in ts then ts else ts + [t]
  }

  function Dropped(ts: seq<TaskId>, t: TaskId): (r: seq<TaskId>)
    ensures forall x :: x in r ==> x in ts
    ensures forall x | x != t :: x in ts ==> x in r
  {
    if ts == [] then [] else if ts[0] == t then ts[1..] else [ts[0]] + Dropped(ts[1..], t)
  }

  function Selected(ts: seq<TaskId>, p: TaskId -> bool): (r: seq<TaskId>)
    ensures forall t :: t in r <==> t in ts && p(t)
  {
    if ts == [] then [] else (if p(ts[0]) then [ts[0]] else []) + Selected(ts[1..], p)
  }

  function Cleaned(ts: seq<TaskId>, node: int, nodeOf: TaskId -> int): seq<TaskId> {
    Selected(ts, t => nodeOf(t) != node)
  }

  datatype Op = Add(t: TaskId) | Rem(t: TaskId) | Clean(node: int)

  function Apply(ts: seq<TaskId>, op: Op, nodeOf: TaskId -> int): seq<TaskId> {
    match op
    case Add(t) => Added(ts, t)
    case Rem(t) => Dropped(ts, t)
    case Clean(node) => Cleaned(ts, node, nodeOf)
  }

  /** The registry after a series of calls. */
  function Registry(ops: seq<Op>, nodeOf: TaskId -> int): seq<TaskId> {
    if ops == [] then [] else Apply(Registry(ops[..|ops| - 1], nodeOf), ops[|ops| - 1], nodeOf)
  }

  // ----- laws of the registry

  ghost predicate Ascending(ts: seq<TaskId>, rank: TaskId -> int) {
    forall i, j | 0 <= i < j < |ts| :: rank(ts[i]) < rank(ts[j])
  }

  lemma {:induction false} DroppedIsGone(ts: seq<TaskId>, t: TaskId, rank: TaskId -> int)
    requires Ascending(ts, rank)
    ensures t !in Dropped(ts, t)
  {
    if ts != [] {
      var rest := ts[1..];
      assert forall x | x in rest :: rank(ts[0]) < rank(x);
      DroppedIsGone(rest, t, rank);
    }
  }

  lemma NoneAscend(rank: TaskId -> int)
    ensures Ascending([], rank)
  {
  }

  lemma AscendingCons(x: TaskId, ts: seq<TaskId>, rank: TaskId -> int)
    requires Ascending(ts, rank) && forall y | y in ts :: rank(x) < rank(y)
    ensures Ascending([x] + ts, rank)
  {
    var all := [x] + ts;
    forall i, j | 0 <= i < j < |all| ensures rank(all[i]) < rank(all[j]) {
      assert all[j] == ts[j - 1] && ts[j - 1] in ts;
    }
  }

  lemma AscendingTail(ts: seq<TaskId>, rank: TaskId -> int)
    requires Ascending(ts, rank) && ts != []
    ensures Ascending(ts[1..], rank) && forall y | y in ts[1..] :: rank(ts[0]) < rank(y)
  {
  }

  lemma {:induction false} DroppedKeeps(ts: seq<TaskId>, t: TaskId, rank: TaskId -> int)
    requires Ascending(ts, rank)
    ensures Ascending(Dropped(ts, t), rank)
  {
    hide Ascending;
    if ts == [] {
      NoneAscend(rank);
    } else {
      AscendingTail(ts, rank);
      DroppedKeeps(ts[1..], t, rank);
      AscendingCons(ts[0], Dropped(ts[1..], t), rank);
    }
  }

  lemma {:induction false} SelectedKeeps(ts: seq<TaskId>, p: TaskId -> bool, rank: TaskId -> int)
    requires Ascending(ts, rank)
    ensures Ascending(Selected(ts, p), rank)
  {
    hide Ascending;
    if ts == [] {
      NoneAscend(rank);
    } else {
      AscendingTail(ts, rank);
      SelectedKeeps(ts[1..], p, rank);
      var rest := Selected(ts[1..], p);
      AscendingCons(ts[0], rest, rank);
      assert [] + rest == rest;
    }
  }

  /** Which of the calls registered `t`: the last Add that found it missing. */
  function Since(ops: seq<Op>, t: TaskId, nodeOf: TaskId -> int): int {
    if ops == [] then -1 else
    var before, op := ops[..|ops| - 1], ops[|ops| - 1];
    if op == Add(t) && t !in Registry(before, nodeOf) then |before| else Since(before, t, nodeOf)
  }

  lemma {:induction false} SinceBound(ops: seq<Op>, t: TaskId, nodeOf: TaskId -> int)
    ensures Since(ops, t, nodeOf) < |ops|
    decreases |ops|
  {
    if ops != [] {
      SinceBound(ops[..|ops| - 1], t, nodeOf);
    }
  }

  /** `Add(t)` at place `i`, and nothing since that unregisters `t`. */
  ghost predicate AddedAt(ops: seq<Op>, t: TaskId, nodeOf: TaskId -> int, i: nat) {
    && i < |ops| && ops[i] == Add(t)
    && forall j | i < j < |ops| :: ops[j] != Rem(t) && ops[j] != Clean(nodeOf(t))
  }

  lemma AddedAtStep(ops: seq<Op>, t: TaskId, nodeOf: TaskId -> int)
    requires ops != []
    ensures var before, op := ops[..|ops| - 1], ops[|ops| - 1];
            (exists i :: AddedAt(ops, t, nodeOf, i)) <==>
            op == Add(t) || ((exists i :: AddedAt(before, t, nodeOf, i)) && op != Rem(t) && op != Clean(nodeOf(t)))
  {
    var before, op := ops[..|ops| - 1], ops[|ops| - 1];
    if i: nat :| AddedAt(ops, t, nodeOf, i) && i < |before| {
      assert AddedAt(before, t, nodeOf, i);
    }
    if op == Add(t) {
      assert AddedAt(ops, t, nodeOf, |before|);
    } else if op != Rem(t) && op != Clean(nodeOf(t)) {
      if i: nat :| AddedAt(before, t, nodeOf, i) {
        assert AddedAt(ops, t, nodeOf, i);
      }
    }
  }

  lemma ApplyKeepsOrder(ops: seq<Op>, nodeOf: TaskId -> int)
    requires ops != []
    requires var before := ops[..|ops| - 1]; Ascending(Registry(before, nodeOf), t => Since(before, t, nodeOf))
    ensures Ascending(Registry(ops, nodeOf), t => Since(ops, t, nodeOf))
  {
    var before, op := ops[..|ops| - 1], ops[|ops| - 1];
    var ts, rs := Registry(before, nodeOf), Registry(ops, nodeOf);
    var rank := t => Since(before, t, nodeOf);
    forall t | t in ts ensures Since(ops, t, nodeOf) == rank(t) < |before| {
      SinceBound(before, t, nodeOf);
    }
    match op
    case Add(t) =>
      if t !in ts {
        assert Since(ops, t, nodeOf) == |before|;
      }
    case Rem(t) =>
      DroppedKeeps(ts, t, rank);
      assert forall x | x in rs :: x in ts;
    case Clean(node) =>
      SelectedKeeps(ts, t => nodeOf(t) != node, rank);
      assert forall x | x in rs :: x in ts;
  }

  /** After any calls, the registry is in the order of registration. */
  lemma {:induction false} RegistryInOrder(ops: seq<Op>, nodeOf: TaskId -> int)
    ensures Ascending(Registry(ops, nodeOf), t => Since(ops, t, nodeOf))
    decreases |ops|
  {
    if ops != [] {
      RegistryInOrder(ops[..|ops| - 1], nodeOf);
      ApplyKeepsOrder(ops, nodeOf);
    }
  }

  /** After any calls, no task is registered twice. */
  lemma RegistryHasNoDuplicates(ops: seq<Op>, nodeOf: TaskId -> int)
    ensures NoDuplicates(Registry(ops, nodeOf))
  {
    RegistryInOrder(ops, nodeOf);
  }

  /** Exactly the tasks are registered whose last Add was not followed by a Rem of
      it or a Clean of its node. */
  lemma {:induction false} RegisteredIff(ops: seq<Op>, t: TaskId, nodeOf: TaskId -> int)
    ensures t in Registry(ops, nodeOf) <==> exists i :: AddedAt(ops, t, nodeOf, i)
    decreases |ops|
  {
    hide Dropped, Selected, Since;
    if ops != [] {
      var before, op := ops[..|ops| - 1], ops[|ops| - 1];
      RegisteredIff(before, t, nodeOf);
      AddedAtStep(ops, t, nodeOf);
      if op.Rem? {
        RegistryInOrder(before, nodeOf);
        DroppedIsGone(Registry(before, nodeOf), op.t, t => Since(before, t, nodeOf));
      }
    }
  }

  // ----- what is sent

  /** send_acct_OPTIONS: what the receiver is to see. */
  function OptionsFor(ts: seq<TaskId>, all: bool, nodeOf: TaskId -> int, myNode: int): seq<Opt> {
    OptionsOf(Selected(ts, t => all || nodeOf(t) == myNode), if all then PSP_OP_ACCT else PSP_OP_ADD_ACCT)
    + [Opt(PSP_OP_LISTEND, 0)]
  }

  function OptionsOf(ts: seq<TaskId>, option: nat): (os: seq<Opt>)
    ensures |os| == |ts| && forall i | 0 <= i < |ts| :: os[i] == Opt(option, Low32(ts[i]))
  {
    seq(|ts|, i requires 0 <= i < |ts| => Opt(option, Low32(ts[i])))
  }

  predicate ToBeTold(t: TaskId, all: bool, nodeOf: TaskId -> int, myNode: int) {
    all || nodeOf(t) == myNode
  }

  function NameOf(t: TaskId, all: bool): Opt {
    Opt(if all then PSP_OP_ACCT else PSP_OP_ADD_ACCT, Low32(t))
  }

  /** The options name all the accounters, or the local ones only, and end with the
      mark. */
  ghost predicate TellsOf(os: seq<Opt>, ts: seq<TaskId>, all: bool, nodeOf: TaskId -> int, myNode: int) {
    && os != [] && os[|os| - 1] == Opt(PSP_OP_LISTEND, 0)
    && (forall t | t in ts && ToBeTold(t, all, nodeOf, myNode) :: NameOf(t, all) in os[..|os| - 1])
    && (forall i | 0 <= i < |os| - 1 ::
          exists t | t in ts :: ToBeTold(t, all, nodeOf, myNode) && os[i] == NameOf(t, all))
    && (all ==> |os| == |ts| + 1 && forall i | 0 <= i < |ts| :: os[i] == NameOf(ts[i], all))
  }

  lemma {:induction false} SelectedAll(ts: seq<TaskId>, p: TaskId -> bool)
    requires forall t :: p(t)
    ensures Selected(ts, p) == ts
  {
    if ts != [] {
      SelectedAll(ts[1..], p);
    }
  }

  lemma {:induction false} OptionsTell(ts: seq<TaskId>, all: bool, nodeOf: TaskId -> int, myNode: int)
    ensures TellsOf(OptionsFor(ts, all, nodeOf, myNode), ts, all, nodeOf, myNode)
  {
    hide Selected, Low32, NameOf, OptionsOf;
    var sel := Selected(ts, t => all || nodeOf(t) == myNode);
    var os := OptionsFor(ts, all, nodeOf, myNode);
    NamesAre(sel, all);
    assert forall i | 0 <= i < |sel| :: sel[i] in sel;
    forall t | t in ts && ToBeTold(t, all, nodeOf, myNode) ensures NameOf(t, all) in os[..|os| - 1] {
      var i :| 0 <= i < |sel| && sel[i] == t;
      assert os[..|os| - 1][i] == NameOf(t, all);
    }
    if all {
      SelectedAll(ts, t => all || nodeOf(t) == myNode);
    }
  }

  lemma NamesAre(sel: seq<TaskId>, all: bool)
    ensures var named := OptionsOf(sel, if all then PSP_OP_ACCT else PSP_OP_ADD_ACCT);
            |named| == |sel| && forall i | 0 <= i < |sel| :: named[i] == NameOf(sel[i], all)
  {
    hide Low32;
  }

  /** What is known of a managed task. */
  datatype Task = Task(accounter: bool, uid: int, gid: int)

  /** The daemon's surroundings: node and process of a task, its own node, the
      managed tasks, and the accounting administrators. */
  datatype World = World(
    nodeOf: TaskId -> int,
    pidOf: TaskId -> int,
    myNode: int,
    myTid: TaskId,
    find: TaskId -> Option<Task>,
    adminUser: int -> bool,
    adminGroup: int -> bool)

  /** localForward_ACCOUNT: may the local task see a message about `uid`? */
  predicate Authorised(w: World, t: TaskId, uid: int) {
    match w.find(t)
    case None => false
    case Some(task) =>
      task.accounter && (task.uid == 0 || task.uid == uid || w.adminUser(task.uid) || w.adminGroup(task.gid))
  }

  predicate Receives(w: World, t: TaskId, uid: int) {
    w.nodeOf(t) != w.myNode || Authorised(w, t, uid)
  }

  /** msg_ACCOUNT: where copies of a message go. */
  function Copies(w: World, ts: seq<TaskId>, dest: TaskId, uid: int): seq<TaskId> {
    if dest == w.myTid then Selected(ts, t => Receives(w, t, uid))
    else if w.pidOf(dest) != 0 && Authorised(w, dest, uid) then [dest]
    else []
  }

  /** A message to the daemon reaches each remote and each authorised local
      accounter exactly once, and nobody else. */
  lemma EachReceiverOnce(w: World, ops: seq<Op>, uid: int)
    ensures var ts := Registry(ops, w.nodeOf);
            var sent := Copies(w, ts, w.myTid, uid);
            && NoDuplicates(sent)
            && forall t :: t in sent <==> t in ts && Receives(w, t, uid)
  {
    RegistryInOrder(ops, w.nodeOf);
    SelectedKeeps(Registry(ops, w.nodeOf), t => Receives(w, t, uid), t => Since(ops, t, w.nodeOf));
  }

  /** Root, the administrators and their group. */
  predicate Privileged(w: World, task: Task) {
    task.uid == 0 || w.adminUser(task.uid) || w.adminGroup(task.gid)
  }

  /** Of the local accounters registered, the privileged ones get every message, the
      others those about their own user, and no other local task gets one. Remote ones
      get all. */
  ghost predicate RightlySent(w: World, sent: seq<TaskId>, ts: seq<TaskId>, uid: int) {
    forall t ::
      if t !in ts then t !in sent
      else if w.nodeOf(t) != w.myNode then t in sent
      else match w.find(t)
           case None => t !in sent
           case Some(task) => t in sent <==> task.accounter && (!Privileged(w, task) ==> task.uid == uid)
  }

  /** A message that is forwarded to one task only. */
  ghost predicate RightlyForwarded(w: World, sent: seq<TaskId>, dest: TaskId, uid: int) {
    match w.find(dest)
    case None => sent == []
    case Some(task) =>
      if w.pidOf(dest) != 0 && task.accounter && (Privileged(w, task) || task.uid == uid) then sent == [dest]
      else sent == []
  }

  /** Who sees which user's data. */
  lemma CopiesAreRight(w: World, ts: seq<TaskId>, dest: TaskId, uid: int)
    ensures var sent := Copies(w, ts, dest, uid);
            if dest == w.myTid then RightlySent(w, sent, ts, uid) else RightlyForwarded(w, sent, dest, uid)
  {
    hide Selected;
  }

  // ----- the daemon's list

  lemma {:induction false} SelectedValues(s: seq<Link<TaskId>>, p: TaskId -> bool)
    ensures Values(Without(s, p)) == Selected(Values(s), t => !p(t))
  {
    if s != [] {
      SelectedValues(s[1..], p);
      assert Values(s) == [s[0].value] + Values(s[1..]);
      assert Without(s, p) == (if p(s[0].value) then [] else [s[0]]) + Without(s[1..], p);
    } else {
      assert Values<TaskId>([]) == [];
    }
  }

  lemma ValuesAppend(s: seq<Link<TaskId>>, n: Link<TaskId>)
    ensures Values(s + [n]) == Values(s) + [n.value]
  {
  }

  lemma ValuesWithout(s: seq<Link<TaskId>>, k: nat)
    requires k < |s|
    ensures Values(s[..k] + s[k + 1..]) == Values(s)[..k] + Values(s)[k + 1..]
  {
  }

  lemma {:induction false} DroppedAt(ts: seq<TaskId>, k: nat)
    requires k < |ts| && ts[k] !in ts[..k]
    ensures Dropped(ts, ts[k]) == ts[..k] + ts[k + 1..]
  {
    if k > 0 {
      assert ts[0] == ts[..k][0];
      assert ts[1..][..k - 1] == ts[..k][1..];
      DroppedAt(ts[1..], k - 1);
      assert ts[..k] == [ts[0]] + ts[1..][..k - 1];
    }
  }

  lemma {:induction false} DroppedAbsent(ts: seq<TaskId>, t: TaskId)
    requires t !in ts
    ensures Dropped(ts, t) == ts
  {
    if ts != [] {
      DroppedAbsent(ts[1..], t);
      assert ts == [ts[0]] + ts[1..];
    }
  }

  class AccounterList {
    const head: Link<TaskId>
    ghost var entries: seq<Link<TaskId>>

    ghost predicate Valid()
      reads this, head, entries
    {
      Ring(head, entries)
    }

    /** The registered tasks, first registered first. */
    ghost function Tids(): seq<TaskId>
      reads this
    {
      Values(entries)
    }

    constructor ()
      ensures Valid() && Tids() == []
    {
      head := new Link(0);
      entries := [];
      new;
      EmptyRing(head);
    }

    /** The search loop of PSID_addAcct and PSID_remAcct. */
    method Find(acctr: TaskId) returns (pos: Link<TaskId>)
      requires Valid()
      ensures pos == head <==> acctr !in Tids()
      ensures pos != head ==> pos in entries && pos.value == acctr
      ensures forall i | 0 <= i < |entries| && entries[i] == pos :: acctr !in Tids()[..i]
    {
      pos := head.next;
      ghost var k := 0;
      Neighbours(head, entries, 0);
      while pos != head
        invariant k <= |entries| && pos == Place(head, entries, k + 1)
        invariant acctr !in Tids()[..k]
        decreases |entries| - k
      {
        if pos.value == acctr {
          assert Tids()[k] == acctr;
          return;
        }
        Neighbours(head, entries, k + 1);
        pos, k := pos.next, k + 1;
      }
      assert Tids()[..k] == Tids();
    }

    /** PSID_addAcct */
    method AddAcct(acctr: TaskId)
      requires Valid()
      modifies this, head, entries
      ensures Valid() && Tids() == Added(old(Tids()), acctr)
    {
      var pos := Find(acctr);
      if pos != head {
        return;
      }
      var acct := new Link(acctr);
      ListAddTail(acct, head, entries);
      ValuesAppend(entries, acct);
      entries := entries + [acct];
    }

    /** PSID_remAcct */
    method RemAcct(acctr: TaskId)
      requires Valid()
      modifies this, head, entries
      ensures Valid() && Tids() == Dropped(old(Tids()), acctr)
    {
      hide Dropped, Ring;
      var pos := Find(acctr);
      if pos == head {
        DroppedAbsent(Tids(), acctr);
        return;
      }
      ghost var k :| 0 <= k < |entries| && entries[k] == pos;
      DroppedAt(Tids(), k);
      ValuesWithout(entries, k);
      Neighbours(head, entries, k);
      Neighbours(head, entries, k + 1);
      ListDel(pos, head, entries, k);
      entries := entries[..k] + entries[k + 1..];
    }

    /** PSID_cleanAcctFromNode */
    method CleanAcctFromNode(node: int, nodeOf: TaskId -> int)
      requires Valid()
      modifies this, head, entries
      ensures Valid() && Tids() == Cleaned(old(Tids()), node, nodeOf)
    {
      var p := (t: TaskId) => nodeOf(t) == node;
      ghost var visited := DeleteWhere(head, entries, p);
      SelectedValues(entries, p);
      SelectedSame(Values(entries), t => !p(t), t => nodeOf(t) != node);
      entries := Without(entries, p);
    }

    /** send_acct_OPTIONS: full messages are sent at once, the last one when the
        end mark is in. */
    method SendOptions(all: bool, nodeOf: TaskId -> int, myNode: int) returns (sent: seq<seq<Opt>>)
      requires Valid()
      ensures Joined(sent) == OptionsFor(Tids(), all, nodeOf, myNode) && Packed(sent)
      ensures TellsOf(Joined(sent), Tids(), all, nodeOf, myNode)
    {
      hide Ring, Selected, Low32, Joined, OptionsOf;
      sent := [];
      var msg := new OptionMsg();
      var option := if all then PSP_OP_ACCT else PSP_OP_ADD_ACCT;
      ghost var p := (t: TaskId) => all || nodeOf(t) == myNode;
      ghost var k := 0;
      FirstOfRing(head, entries);
      Neighbours(head, entries, 0);
      NothingSent(p, option);
      var pos := head.next;
      while pos != head
        invariant k <= |entries| && pos == Place(head, entries, k + 1) && Valid()
        invariant msg.Valid() && fresh(msg) && fresh(msg.opt) && |msg.Contents()| < MAX_OPTIONS && AllFull(sent)
        invariant Joined(sent) + msg.Contents() == OptionsOf(Selected(Tids()[..k], p), option)
        decreases |entries| - k
      {
        Neighbours(head, entries, k + 1);
        ghost var ts := Tids();
        assert ts[..k + 1] == ts[..k] + [pos.value];
        OptionsAppend(ts[..k], pos.value, p, option);
        if all || nodeOf(pos.value) == myNode {
          sent := PutOrSend(msg, sent, Opt(option, Low32(pos.value)));
        }
        pos, k := pos.next, k + 1;
      }
      assert Tids()[..k] == Tids();
      sent := PutAndSend(msg, sent, Opt(PSP_OP_LISTEND, 0));
      OptionsTell(Tids(), all, nodeOf, myNode);
    }
  }

  lemma {:induction false} SelectedSame(ts: seq<TaskId>, p: TaskId -> bool, q: TaskId -> bool)
    requires forall t :: p(t) == q(t)
    ensures Selected(ts, p) == Selected(ts, q)
  {
    if ts != [] {
      SelectedSame(ts[1..], p, q);
    }
  }

  lemma {:induction false} SelectedAppend(ts: seq<TaskId>, t: TaskId, p: TaskId -> bool)
    ensures Selected(ts + [t], p) == Selected(ts, p) + if p(t) then [t] else []
  {
    if ts == [] {
      assert [t][1..] == [];
      assert [] + [t] == [t];
    } else {
      assert (ts + [t])[1..] == ts[1..] + [t];
      SelectedAppend(ts[1..], t, p);
    }
  }

  lemma NothingSent(p: TaskId -> bool, option: nat)
    ensures Joined([]) == [] && Selected([], p) == [] && OptionsOf([], option) == []
  {
  }

  lemma OptionsAppend(ts: seq<TaskId>, t: TaskId, p: TaskId -> bool, option: nat)
    ensures OptionsOf(Selected(ts + [t], p), option) ==
            OptionsOf(Selected(ts, p), option) + if p(t) then [Opt(option, Low32(t))] else []
  {
    SelectedAppend(ts, t, p);
  }

  // ----- forwarding

  /** An accounting message: its destination is rewritten for each copy. */
  class AccountMsg {
    var dest: TaskId
    const uid: int

    constructor (dest: TaskId, uid: int)
      ensures this.dest == dest && this.uid == uid
    {
      this.dest, this.uid := dest, uid;
    }

    /** localForward_ACCOUNT */
    method LocalForward(w: World) returns (sent: seq<TaskId>)
      ensures sent == if Authorised(w, dest, uid) then [dest] else []
    {
      var found := w.find(dest);
      if found.None? {
        return [];
      }
      var task := found.value;
      if !task.accounter {
        return [];
      }
      if task.uid != 0 && task.uid != uid && !w.adminUser(task.uid) && !w.adminGroup(task.gid) {
        return [];
      }
      return [dest];
    }

    /** msg_ACCOUNT: the destination is what it was when all copies are sent. */
    method Multiplex(w: World, accounters: AccounterList) returns (sent: seq<TaskId>)
      requires accounters.Valid()
      modifies this
      ensures sent == Copies(w, accounters.Tids(), old(dest), uid)
      ensures if dest == w.myTid then RightlySent(w, sent, accounters.Tids(), uid)
              else RightlyForwarded(w, sent, dest, uid)
      ensures dest == old(dest)
    {
      hide Authorised, RightlySent, RightlyForwarded, Selected, Ring;
      CopiesAreRight(w, accounters.Tids(), dest, uid);
      sent := [];
      if dest == w.myTid {
        ghost var p := (t: TaskId) => Receives(w, t, uid);
        ghost var ts := accounters.Tids();
        NothingSent(p, 0);
        ghost var k := 0;
        var head := accounters.head;
        FirstOfRing(head, accounters.entries);
        Neighbours(head, accounters.entries, 0);
        var pos := head.next;
        while pos != head
          invariant k <= |ts| && pos == Place(head, accounters.entries, k + 1)
          invariant accounters.Valid() && accounters.Tids() == ts
          invariant sent == Selected(ts[..k], p)
          decreases |ts| - k
        {
          Neighbours(head, accounters.entries, k + 1);
          assert ts[..k + 1] == ts[..k] + [pos.value];
          SelectedAppend(ts[..k], pos.value, p);
          dest := pos.value;
          if w.nodeOf(pos.value) == w.myNode {
            var copies := LocalForward(w);
            sent := sent + copies;
          } else {
            sent := sent + [dest];
          }
          pos, k := pos.next, k + 1;
        }
        assert ts[..k] == ts;
        dest := w.myTid;
      } else if w.pidOf(dest) != 0 {
        sent := LocalForward(w);
      }
    }
  }
}
