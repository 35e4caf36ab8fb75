/** That printSlots (bin/admin/commands.c) finds the runs of nodes: its tokens are
    the only ones that cannot be extended. */
module SlotTokens {
  import opened SlotLists
  import opened Sequences

  /** The slots of `u` start with a run that would continue `t`. */
  predicate Extends(t: Token, u: Token) {
    && u.rep == t.rep
    && ((t.first <= t.last && u.first == t.last + 1) || (t.first >= t.last && u.first + 1 == t.last))
  }

  /** No token goes on with the next one, nor on its last node. */
  predicate Tight(ts: seq<Token>) {
    && (forall i | 0 <= i < |ts| :: ts[i].rep > 0)
    && (forall i | 0 <= i < |ts| - 1 :: !Extends(ts[i], ts[i + 1]) && ts[i + 1].first != ts[i].last)
  }

  // ----- the tokens found are tight

  /** Behind the runs that were followed there is no slot on the last of their nodes. */
  lemma {:induction false} FollowStops(nodes: seq<nat>, i: nat, loopCur: int, step: int, rep: nat)
    requires i <= |nodes| && rep > 0 && step != 0 && (i == |nodes| || nodes[i] != loopCur - step)
    ensures var (end, next) := Follow(nodes, i, loopCur, step, rep);
            && (end == |nodes| || nodes[end] != next - step)
            && RunLength(nodes, end, next) != rep
    decreases |nodes| - i
  {
    hide RunLength;
    if RunLength(nodes, i, loopCur) == rep {
      RunStops(nodes, i, loopCur);
      RunEnds(nodes, i + rep, loopCur);
      FollowStops(nodes, i + rep, loopCur + step, step, rep);
    }
  }

  lemma TokenFrom(nodes: seq<nat>, i: nat)
    requires i < |nodes|
    ensures var t, cur := TokenAt(nodes, i).0, nodes[i];
            t.first == cur && t.rep == RunLength(nodes, i, cur) && t.rep > 0
  {
    hide Follow, RunLength, Direction;
    RunNonEmpty(nodes, i);
  }

  /** What comes behind a token. */
  lemma TokenStops(nodes: seq<nat>, i: nat)
    requires i < |nodes|
    ensures var (t, end) := TokenAt(nodes, i);
            end < |nodes| ==> nodes[end] != t.last && !Extends(t, TokenAt(nodes, end).0)
  {
    hide RunLength, Follow;
    var cur := nodes[i];
    var rep := RunLength(nodes, i, cur);
    var from := i + rep;
    var step := Direction(nodes, from, cur);
    var (t, end) := TokenAt(nodes, i);
    RunNonEmpty(nodes, i);
    RunStops(nodes, i, cur);
    RunEnds(nodes, from, cur);
    if step != 0 {
      FollowStops(nodes, from, cur + step, step, rep);
      FollowUp(nodes, from, cur + 1, rep);
      FollowDown(nodes, from, cur - 1, rep);
    }
    hide TokenAt, Direction;
    if end < |nodes| {
      TokenFrom(nodes, end);
    }
  }

  lemma {:induction false} TokensAreTight(nodes: seq<nat>, i: nat)
    requires i <= |nodes|
    ensures Tight(Tokens(nodes, i))
    decreases |nodes| - i
  {
    hide TokenAt, Extends;
    if i < |nodes| {
      var (t, end) := TokenAt(nodes, i);
      var ts, us := Tokens(nodes, i), Tokens(nodes, end);
      assert ts == [t] + us;
      TokensAreTight(nodes, end);
      TokenStops(nodes, i);
      TokenIsExact(nodes, i);
      forall k | 0 <= k < |ts| - 1 ensures !Extends(ts[k], ts[k + 1]) && ts[k + 1].first != ts[k].last {
        if k == 0 {
          assert us[0] == TokenAt(nodes, end).0;
          TokenFrom(nodes, end);
        } else {
          assert ts[k] == us[k - 1] && ts[k + 1] == us[k];
        }
      }
    }
  }

  // ----- there are no others

  lemma {:induction false} RunAt(nodes: seq<nat>, i: nat, node: nat, rep: nat)
    requires i + rep <= |nodes| && nodes[i..i + rep] == Copies(node, rep)
    requires i + rep == |nodes| || nodes[i + rep] != node
    ensures RunLength(nodes, i, node) == rep
    decreases rep
  {
    if rep > 0 {
      assert nodes[i] == nodes[i..i + rep][0];
      assert nodes[i + 1..i + rep] == nodes[i..i + rep][1..] == Copies(node, rep - 1);
      RunAt(nodes, i + 1, node, rep - 1);
    }
  }

  /** The first run of a span, and what follows it. */
  lemma SpanStarts(nodes: seq<nat>, i: nat, end: nat, first: nat, last: nat, rep: nat)
    requires i <= end <= |nodes| && rep > 0 && nodes[i..end] == NodesOf(first, last, rep)
    requires end == |nodes| || nodes[end] != last
    ensures i + rep <= end && nodes[i] == first && RunLength(nodes, i, first) == rep
    ensures first == last ==> i + rep == end
    ensures first != last ==>
              var next := if first < last then first + 1 else first - 1;
              nodes[i + rep..end] == NodesOf(next, last, rep) && i + rep < end && nodes[i + rep] == next
  {
    hide RunLength, NodesOf;
    NodesOfStep(first, last, rep);
    var cs := Copies(first, rep);
    assert cs <= nodes[i..end];
    assert nodes[i..i + rep] == nodes[i..end][..rep] == cs;
    assert nodes[i] == cs[0];
    if first != last {
      var next := if first < last then first + 1 else first - 1;
      var rest := NodesOf(next, last, rep);
      assert nodes[i + rep..end] == nodes[i..end][rep..] == rest;
      NodesOfStep(next, last, rep);
      assert rest[0] == next;
      assert nodes[i + rep] == nodes[i + rep..end][0];
    }
    RunAt(nodes, i, first, rep);
  }

  lemma {:induction false} FollowSpan(nodes: seq<nat>, i: nat, end: nat, cur: nat, last: nat, step: int, rep: nat)
    requires i <= end <= |nodes| && rep > 0 && nodes[i..end] == NodesOf(cur, last, rep)
    requires (cur <= last && step == 1) || (cur >= last && step == -1)
    requires end == |nodes| || nodes[end] != last
    requires RunLength(nodes, end, last + step) != rep
    ensures Follow(nodes, i, cur, step, rep) == (end, last + step)
    decreases end - i
  {
    hide RunLength, NodesOf;
    SpanStarts(nodes, i, end, cur, last, rep);
    if cur != last {
      FollowSpan(nodes, i + rep, end, cur + step, last, step, rep);
    }
  }

  lemma ExpandStep(ts: seq<Token>)
    requires ts != []
    ensures ExpandTokens(ts) == NodesOf(ts[0].first, ts[0].last, ts[0].rep) + ExpandTokens(ts[1..])
  {
  }

  lemma TightTail(ts: seq<Token>)
    requires ts != [] && Tight(ts)
    ensures Tight(ts[1..])
  {
    hide Extends;
    var us := ts[1..];
    forall k | 0 <= k < |us| - 1 ensures !Extends(us[k], us[k + 1]) && us[k + 1].first != us[k].last {
      assert us[k] == ts[k + 1] && us[k + 1] == ts[k + 2];
    }
  }

  /** Where the first token of a tight list ends. */
  lemma FirstEnds(nodes: seq<nat>, i: nat, ts: seq<Token>) returns (end: nat)
    requires i <= |nodes| && ts != [] && Tight(ts) && ExpandTokens(ts) == nodes[i..]
    ensures i < end <= |nodes| && ExpandTokens(ts[1..]) == nodes[end..]
    ensures nodes[i..end] == NodesOf(ts[0].first, ts[0].last, ts[0].rep)
    ensures nodes[i] == ts[0].first
  {
    hide NodesOf, ExpandTokens;
    ExpandStep(ts);
    var ns := NodesOf(ts[0].first, ts[0].last, ts[0].rep);
    NodesOfStep(ts[0].first, ts[0].last, ts[0].rep);
    assert ns[0] == ts[0].first;
    end := i + |ns|;
    assert nodes[i..end] == nodes[i..][..|ns|] == ns;
    assert nodes[end..] == nodes[i..][|ns|..];
    assert nodes[i] == nodes[i..end][0];
  }

  lemma {:induction false} RunOfFirst(nodes: seq<nat>, i: nat, ts: seq<Token>)
    requires i <= |nodes| && ts != [] && Tight(ts) && ExpandTokens(ts) == nodes[i..]
    ensures i < |nodes| && nodes[i] == ts[0].first && RunLength(nodes, i, ts[0].first) == ts[0].rep
  {
    hide NodesOf, ExpandTokens, RunLength, Extends;
    var end := FirstEnds(nodes, i, ts);
    AfterFirst(nodes, end, ts);
    SpanStarts(nodes, i, end, ts[0].first, ts[0].last, ts[0].rep);
  }

  lemma AfterFirst(nodes: seq<nat>, end: nat, ts: seq<Token>)
    requires end <= |nodes| && ts != [] && Tight(ts) && ExpandTokens(ts[1..]) == nodes[end..]
    ensures end == |nodes| <==> |ts| == 1
    ensures end < |nodes| ==> nodes[end] == ts[1].first && nodes[end] != ts[0].last
  {
    hide NodesOf, ExpandTokens, Extends;
    if |ts| == 1 {
      NothingExpands(ts[1..]);
    } else {
      TightTail(ts);
      var next := FirstEnds(nodes, end, ts[1..]);
    }
  }

  lemma NothingExpands(ts: seq<Token>)
    requires ts == []
    ensures ExpandTokens(ts) == []
  {
  }

  /** The loops find the first token of a tight list. */
  lemma {:induction false} FindsFirst(nodes: seq<nat>, i: nat, ts: seq<Token>, end: nat)
    requires i < end <= |nodes| && ts != [] && Tight(ts)
    requires nodes[i..end] == NodesOf(ts[0].first, ts[0].last, ts[0].rep) && ExpandTokens(ts[1..]) == nodes[end..]
    ensures TokenAt(nodes, i) == (ts[0], end)
  {
    hide NodesOf, ExpandTokens, RunLength, Follow;
    var t := ts[0];
    AfterFirst(nodes, end, ts);
    SpanStarts(nodes, i, end, t.first, t.last, t.rep);
    if end < |nodes| {
      TightTail(ts);
      RunOfFirst(nodes, end, ts[1..]);
      assert !Extends(t, ts[1]);
    }
    var step := Direction(nodes, i + t.rep, t.first);
    if step != 0 {
      RunEnds(nodes, end, t.last + step);
      if t.first == t.last {
        FollowStep(nodes, end, t.first + step, step, t.rep);
      } else {
        FollowSpan(nodes, i + t.rep, end, t.first + step, t.last, step, t.rep);
      }
    }
  }

  lemma {:induction false} TightIsFound(nodes: seq<nat>, i: nat, ts: seq<Token>)
    requires i <= |nodes| && Tight(ts) && ExpandTokens(ts) == nodes[i..]
    ensures Tokens(nodes, i) == ts
    decreases |ts|
  {
    hide NodesOf, ExpandTokens, Tight, TokenAt;
    if ts == [] {
      NothingExpands(ts);
    } else {
      var end := FirstEnds(nodes, i, ts);
      FindsFirst(nodes, i, ts, end);
      TightTail(ts);
      TightIsFound(nodes, end, ts[1..]);
      assert ts == [ts[0]] + ts[1..];
    }
  }

  /** The tokens that are printed are the only ones that stand for the slots and of
      which none goes on with the next one. */
  lemma TokensIff(nodes: seq<nat>, ts: seq<Token>)
    ensures ts == Tokens(nodes, 0) <==> Tight(ts) && ExpandTokens(ts) == nodes
  {
    hide Tokens, ExpandTokens, Tight;
    assert nodes[0..] == nodes;
    TokensAreExact(nodes, 0);
    TokensAreTight(nodes, 0);
    if Tight(ts) && ExpandTokens(ts) == nodes {
      TightIsFound(nodes, 0, ts);
    }
  }

  /** So neighbouring nodes with equally many slots are one token, up or down. */
  lemma SpanIsOneToken(first: nat, last: nat, rep: nat)
    requires rep > 0
    ensures Tokens(NodesOf(first, last, rep), 0) == [Token(first, last, rep)]
  {
    hide Tokens, NodesOf;
    var ts := [Token(first, last, rep)];
    assert ts[1..] == [];
    assert ExpandTokens(ts) == NodesOf(first, last, rep) + [] == NodesOf(first, last, rep);
    TokensIff(NodesOf(first, last, rep), ts);
  }
}
