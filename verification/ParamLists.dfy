/** Distributing a list of parameter values: PSIADM_SetParamList of
    bin/admin/commands.c. */
module ParamLists {
  import opened OptionMessages
  import opened Options
  import opened Sequences

  datatype Packet = Packet(node: nat, opts: seq<Opt>)

  // ----- what a node receives, and what it makes of it

  /** The messages that go to `node`, in order. */
  function Received(sent: seq<Packet>, node: nat): seq<seq<Opt>> {
    if sent == [] then []
    else Received(sent[..|sent| - 1], node) +
         if sent[|sent| - 1].node == node then [sent[|sent| - 1].opts] else []
  }

  lemma ReceivedAppend(sent: seq<Packet>, p: Packet, node: nat)
    ensures Received(sent + [p], node) == Received(sent, node) + if p.node == node then [p.opts] else []
  {
    assert (sent + [p])[..|sent|] == sent;
  }

  /** The CPU map of a node, and the one it has made known to the others. */
  datatype NodeMap = NodeMap(cpumap: seq<int>, known: Option<seq<int>>)

  /** PSP_CD_SETOPTION as far as the map is concerned: clear empties it, append extends
      it by a `short`, the trigger makes it known. */
  function Obey(m: NodeMap, o: Opt): NodeMap {
    if o.option == PSP_OP_CLR_CPUMAP then m.(cpumap := [])
    else if o.option == PSP_OP_APP_CPUMAP then m.(cpumap := m.cpumap + [Low16(o.value)])
    else if o.option == PSP_OP_TRIGGER_DIST && o.value == PSP_OP_CPUMAP then m.(known := Some(m.cpumap))
    else m
  }

  function Replay(m: NodeMap, opts: seq<Opt>): NodeMap
    decreases |opts|
  {
    if opts == [] then m else Replay(Obey(m, opts[0]), opts[1..])
  }

  /** The list as a node stores it. */
  function Stored(values: seq<int>): (r: seq<int>)
    ensures |r| == |values|
  {
    seq(|values|, i requires 0 <= i < |values| => Low16(values[i]))
  }

  /** The list arrives as it was given if and only if all its numbers have 16 bits. */
  lemma StoredIff(values: seq<int>)
    ensures Stored(values) == values <==> forall i | 0 <= i < |values| :: -0x8000 <= values[i] < 0x8000
  {
    if Stored(values) == values {
      forall i | 0 <= i < |values| ensures -0x8000 <= values[i] < 0x8000 {
        assert Stored(values)[i] == Low16(values[i]);
      }
    }
  }

  function Appends(values: seq<int>): (os: seq<Opt>)
    ensures |os| == |values| && forall i | 0 <= i < |os| :: os[i] == Opt(PSP_OP_APP_CPUMAP, values[i])
  {
    seq(|values|, i requires 0 <= i < |values| => Opt(PSP_OP_APP_CPUMAP, values[i]))
  }

  /** The whole series: clear, one append per value, and the trigger. */
  function Series(values: seq<int>): seq<Opt> {
    [Opt(PSP_OP_CLR_CPUMAP, 0)] + Appends(values) + [Opt(PSP_OP_TRIGGER_DIST, PSP_OP_CPUMAP)]
  }

  lemma {:induction false} ReplayAppends(m: NodeMap, values: seq<int>, rest: seq<Opt>)
    ensures Replay(m, Appends(values) + rest) == Replay(m.(cpumap := m.cpumap + Stored(values)), rest)
    decreases |values|
  {
    hide Low16;
    if values == [] {
      assert Appends(values) + rest == rest && m.cpumap + Stored(values) == m.cpumap;
    } else {
      var all := Appends(values) + rest;
      assert all[0] == Opt(PSP_OP_APP_CPUMAP, values[0]) && all[1..] == Appends(values[1..]) + rest;
      assert m.cpumap + [Low16(values[0])] + Stored(values[1..]) == m.cpumap + Stored(values);
      ReplayAppends(m.(cpumap := m.cpumap + [Low16(values[0])]), values[1..], rest);
    }
  }

  /** Whatever a node's map was, the series makes it the given list, and known. */
  lemma SeriesSetsMap(m: NodeMap, values: seq<int>)
    ensures Replay(m, Series(values)) == NodeMap(Stored(values), Some(Stored(values)))
  {
    hide Stored;
    var trigger := [Opt(PSP_OP_TRIGGER_DIST, PSP_OP_CPUMAP)];
    assert Series(values)[0] == Opt(PSP_OP_CLR_CPUMAP, 0) && Series(values)[1..] == Appends(values) + trigger;
    ReplayAppends(m.(cpumap := []), values, trigger);
    assert [] + Stored(values) == Stored(values);
    assert trigger[1..] == [];
  }

  // ----- sending

  /** The node is selected, or no selection was made, and it is up. */
  predicate Chosen(nl: seq<bool>, up: seq<bool>, node: nat) {
    node < |up| && (nl == [] || (node < |nl| && nl[node])) && up[node]
  }

  /** The inner loops: one message to every chosen node. */
  method SendToNodes(nl: seq<bool>, up: seq<bool>, opts: seq<Opt>, sent: seq<Packet>) returns (sent': seq<Packet>)
    requires nl == [] || |nl| == |up|
    ensures forall node: nat ::
      Received(sent', node) == Received(sent, node) + if Chosen(nl, up, node) then [opts] else []
  {
    sent' := sent;
    for node := 0 to |up|
      invariant forall n: nat ::
        Received(sent', n) == Received(sent, n) + if n < node && Chosen(nl, up, n) then [opts] else []
    {
      ghost var before := sent';
      if nl == [] || nl[node] {
        if up[node] {
          sent' := sent' + [Packet(node, opts)];
          forall n: nat
            ensures Received(sent', n) == Received(before, n) + if n == node then [opts] else []
          {
            ReceivedAppend(before, Packet(node, opts), n);
          }
        }
      }
    }
  }

  /** The chosen nodes have got the messages `ms`, the others nothing. */
  ghost predicate Delivered(sent: seq<Packet>, nl: seq<bool>, up: seq<bool>, ms: seq<seq<Opt>>) {
    forall node: nat :: Received(sent, node) == if Chosen(nl, up, node) then ms else []
  }

  /** What the nodes receive if the list goes to those that are up and, if `nl` is not
      empty, selected by it: as few messages as the options fit into, none longer than
      sixteen. */
  ghost predicate Distributed(sent: seq<Packet>, values: seq<int>, nl: seq<bool>, up: seq<bool>) {
    forall node: nat ::
      var ms := Received(sent, node);
      if node < |up| && up[node] && (nl == [] || (node < |nl| && nl[node])) then
        Packed(ms) && Joined(ms) == Series(values)
      else ms == []
  }

  /** Every chosen node gets messages that together are the series; all others get
      nothing. So, whatever their maps were, exactly the chosen nodes end with the given
      list, cut to 16 bits, and have made it known. An empty `nl` selects all nodes. */
  method SetParamList(option: nat, values: seq<int>, nl: seq<bool>, up: seq<bool>) returns (sent: seq<Packet>)
    requires nl == [] || |nl| == |up|
    ensures if option == PSP_OP_CPUMAP then Distributed(sent, values, nl, up) else sent == []
    ensures forall node: nat, m ::
      Replay(m, Joined(Received(sent, node))) ==
      if option == PSP_OP_CPUMAP && Chosen(nl, up, node) then NodeMap(Stored(values), Some(Stored(values))) else m
  {
    hide Joined, Received, Series, Chosen, Replay, Appends, Distributed, Packed;
    sent := [];
    ghost var ms: seq<seq<Opt>> := [];
    Nothing(nl, up);
    if option != PSP_OP_CPUMAP {
      NodesReplay(sent, values, false, nl, up);
      return;
    }
    var msg := new OptionMsg();
    msg.Put(Opt(PSP_OP_CLR_CPUMAP, 0));
    ghost var clear := [Opt(PSP_OP_CLR_CPUMAP, 0)];
    assert values[..0] == [] && clear + Appends([]) == clear;
    assert Joined(ms) + msg.Contents() == clear + Appends(values[..0]);
    for i := 0 to |values|
      invariant msg.Valid() && fresh(msg) && fresh(msg.opt) && |msg.Contents()| < MAX_OPTIONS
      invariant Delivered(sent, nl, up, ms) && AllFull(ms)
      invariant Joined(ms) + msg.Contents() == clear + Appends(values[..i])
    {
      var o := Opt(PSP_OP_APP_CPUMAP, values[i]);
      ghost var before := msg.Contents();
      msg.Put(o);
      Assoc(Joined(ms), before, [o]);
      AppendsNext(clear, values, i);
      if msg.count == MAX_OPTIONS {
        JoinedAppend(ms, msg.Contents());
        sent := SendToNodes(nl, up, msg.opt[..msg.count], sent);
        ms := ms + [msg.Contents()];
        msg.Clear();
        assert Joined(ms) + [] == Joined(ms);
      }
    }
    var trigger := Opt(PSP_OP_TRIGGER_DIST, PSP_OP_CPUMAP);
    ghost var before := msg.Contents();
    msg.Put(trigger);
    Assoc(Joined(ms), before, [trigger]);
    JoinedAppend(ms, msg.Contents());
    sent := SendToNodes(nl, up, msg.opt[..msg.count], sent);
    LastPacked(ms, msg.Contents());
    ms := ms + [msg.Contents()];
    assert values[..|values|] == values;
    SeriesIs(values);
    DeliveredIs(sent, values, nl, up, ms);
    NodesReplay(sent, values, true, nl, up);
  }

  lemma Nothing(nl: seq<bool>, up: seq<bool>)
    ensures Delivered([], nl, up, []) && Joined([]) == []
  {
  }

  lemma AppendsNext(clear: seq<Opt>, values: seq<int>, i: nat)
    requires i < |values|
    ensures clear + Appends(values[..i]) + [Opt(PSP_OP_APP_CPUMAP, values[i])] == clear + Appends(values[..i + 1])
  {
    assert Appends(values[..i + 1]) == Appends(values[..i]) + [Opt(PSP_OP_APP_CPUMAP, values[i])];
  }

  lemma SeriesIs(values: seq<int>)
    ensures Series(values) ==
            [Opt(PSP_OP_CLR_CPUMAP, 0)] + Appends(values) + [Opt(PSP_OP_TRIGGER_DIST, PSP_OP_CPUMAP)]
  {
  }

  lemma LastPacked(ms: seq<seq<Opt>>, m: seq<Opt>)
    requires AllFull(ms) && 0 < |m| <= MAX_OPTIONS
    ensures Packed(ms + [m])
  {
    assert (ms + [m])[..|ms|] == ms;
  }

  lemma DeliveredIs(sent: seq<Packet>, values: seq<int>, nl: seq<bool>, up: seq<bool>, ms: seq<seq<Opt>>)
    requires Delivered(sent, nl, up, ms) && Packed(ms) && Joined(ms) == Series(values)
    ensures Distributed(sent, values, nl, up)
    ensures forall node: nat ::
      Joined(Received(sent, node)) == if Chosen(nl, up, node) then Series(values) else []
  {
    hide Received, Series, Packed;
    forall node: nat
      ensures Joined(Received(sent, node)) == if Chosen(nl, up, node) then Series(values) else []
    {
    }
  }

  /** What a node makes of what it receives. */
  lemma ReceivedReplays(ms: seq<seq<Opt>>, values: seq<int>, chosen: bool, m: NodeMap)
    requires Joined(ms) == if chosen then Series(values) else []
    ensures Replay(m, Joined(ms)) == if chosen then NodeMap(Stored(values), Some(Stored(values))) else m
  {
    SeriesSetsMap(m, values);
  }

  lemma NodesReplay(sent: seq<Packet>, values: seq<int>, distributed: bool, nl: seq<bool>, up: seq<bool>)
    requires forall node: nat ::
      Joined(Received(sent, node)) == if distributed && Chosen(nl, up, node) then Series(values) else []
    ensures forall node: nat, m ::
      Replay(m, Joined(Received(sent, node))) ==
      if distributed && Chosen(nl, up, node) then NodeMap(Stored(values), Some(Stored(values))) else m
  {
    hide Joined, Received, Series, Chosen, Replay, Stored;
    forall node: nat, m
      ensures Replay(m, Joined(Received(sent, node))) ==
              if distributed && Chosen(nl, up, node) then NodeMap(Stored(values), Some(Stored(values))) else m
    {
      ReceivedReplays(Received(sent, node), values, distributed && Chosen(nl, up, node), m);
    }
  }
}
