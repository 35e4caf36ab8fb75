/** The compressed slot lists psiadmin prints: printSlots of
    bin/admin/commands.c. */
module SlotLists {
  import opened Decimals
  import opened Expansion
  import opened PrintParse
  import opened Sequences

  /** Nodes from `first` to `last`, up or down, each `rep` times in a row. */
  datatype Token = Token(first: nat, last: nat, rep: nat)

  // ----- what a token stands for

  function Copies(node: nat, rep: nat): (ns: seq<nat>)
    ensures |ns| == rep && forall i | 0 <= i < rep :: ns[i] == node
  {
    seq(rep, _ => node)
  }

  function NodesOf(first: nat, last: nat, rep: nat): seq<nat>
    decreases if first <= last then last - first else first - last
  {
    Copies(first, rep) +
    if first == last then [] else NodesOf(if first < last then first + 1 else first - 1, last, rep)
  }

  function ExpandTokens(ts: seq<Token>): seq<nat> {
    if ts == [] then [] else NodesOf(ts[0].first, ts[0].last, ts[0].rep) + ExpandTokens(ts[1..])
  }

  // ----- which tokens the loops find

  /** Number of slots in a row from `i` on that are on `node`. */
  function RunLength(nodes: seq<nat>, i: nat, node: int): (n: nat)
    requires i <= |nodes|
    ensures i + n <= |nodes| && forall k | i <= k < i + n :: nodes[k] == node
    decreases |nodes| - i
  {
    if i == |nodes| || nodes[i] != node then 0 else 1 + RunLength(nodes, i + 1, node)
  }

  /** Where runs of exactly `rep` slots on `loopCur`, `loopCur + step`, ... end:
      the final index and the final `loopCur`. */
  function Follow(nodes: seq<nat>, i: nat, loopCur: int, step: int, rep: nat): (r: (nat, int))
    requires i <= |nodes| && rep > 0
    ensures i <= r.0 <= |nodes|
    ensures r.0 == i ==> r.1 == loopCur
    decreases |nodes| - i
  {
    if RunLength(nodes, i, loopCur) != rep then (i, loopCur)
    else Follow(nodes, i + rep, loopCur + step, step, rep)
  }

  /** The direction in which the slots go on, 0 if none. */
  function Direction(nodes: seq<nat>, i: nat, cur: nat): (step: int)
    requires i <= |nodes|
    ensures step == 0 || step == 1 || step == -1
    ensures step != 0 ==> i < |nodes| && nodes[i] == cur + step
  {
    if i < |nodes| && (nodes[i] == cur + 1 || nodes[i] == cur - 1) then nodes[i] - cur else 0
  }

  lemma NodesOfStep(first: nat, last: nat, rep: nat)
    ensures NodesOf(first, last, rep) ==
            Copies(first, rep) +
            if first == last then [] else NodesOf(if first < last then first + 1 else first - 1, last, rep)
  {
  }

  lemma RunNonEmpty(nodes: seq<nat>, i: nat)
    requires i < |nodes|
    ensures RunLength(nodes, i, nodes[i]) > 0
  {
  }

  lemma RunIsCopies(nodes: seq<nat>, i: nat, node: int)
    requires i <= |nodes| && RunLength(nodes, i, node) > 0
    ensures node >= 0
    ensures var rep := RunLength(nodes, i, node); nodes[i..i + rep] == Copies(node, rep)
  {
    assert nodes[i] == node;
  }

  lemma {:induction false} FollowUp(nodes: seq<nat>, i: nat, loopCur: int, rep: nat)
    requires i <= |nodes| && rep > 0
    ensures var (end, next) := Follow(nodes, i, loopCur, 1, rep);
            end > i ==> 0 <= loopCur < next && NodesOf(loopCur, next - 1, rep) == nodes[i..end]
    decreases |nodes| - i
  {
    hide RunLength, NodesOf;
    if RunLength(nodes, i, loopCur) == rep {
      RunIsCopies(nodes, i, loopCur);
      FollowUp(nodes, i + rep, loopCur + 1, rep);
      var (end, next) := Follow(nodes, i + rep, loopCur + 1, 1, rep);
      NodesOfStep(loopCur, next - 1, rep);
      assert nodes[i..end] == nodes[i..i + rep] + nodes[i + rep..end];
    }
  }

  lemma {:induction false} FollowDown(nodes: seq<nat>, i: nat, loopCur: int, rep: nat)
    requires i <= |nodes| && rep > 0
    ensures var (end, next) := Follow(nodes, i, loopCur, -1, rep);
            end > i ==> 0 <= next + 1 <= loopCur && NodesOf(loopCur, next + 1, rep) == nodes[i..end]
    decreases |nodes| - i
  {
    hide RunLength, NodesOf;
    if RunLength(nodes, i, loopCur) == rep {
      RunIsCopies(nodes, i, loopCur);
      FollowDown(nodes, i + rep, loopCur - 1, rep);
      var (end, next) := Follow(nodes, i + rep, loopCur - 1, -1, rep);
      NodesOfStep(loopCur, next + 1, rep);
      assert nodes[i..end] == nodes[i..i + rep] + nodes[i + rep..end];
    }
  }

  /** The token that starts at slot `i`, and the slot after it. */
  function TokenAt(nodes: seq<nat>, i: nat): (r: (Token, nat))
    requires i < |nodes|
    ensures i < r.1 <= |nodes|
  {
    var cur := nodes[i];
    var rep := RunLength(nodes, i, cur);
    var step := Direction(nodes, i + rep, cur);
    if step == 0 then (Token(cur, cur, rep), i + rep) else
    var (end, loopCur) := Follow(nodes, i + rep, cur + step, step, rep);
    FollowUp(nodes, i + rep, cur + 1, rep);
    FollowDown(nodes, i + rep, cur - 1, rep);
    (Token(cur, loopCur - step, rep), end)
  }

  function Tokens(nodes: seq<nat>, i: nat): seq<Token>
    requires i <= |nodes|
    decreases |nodes| - i
  {
    if i == |nodes| then [] else [TokenAt(nodes, i).0] + Tokens(nodes, TokenAt(nodes, i).1)
  }

  /** What follows the first run, and what the token stands for. */
  lemma FollowIsExact(nodes: seq<nat>, i: nat, cur: nat, step: int, rep: nat)
    requires i <= |nodes| && rep > 0 && (step == 1 || step == -1)
    ensures var (end, loopCur) := Follow(nodes, i, cur + step, step, rep);
            && loopCur - step >= 0
            && (loopCur == cur + step <==> end == i)
            && NodesOf(cur, loopCur - step, rep) == Copies(cur, rep) + nodes[i..end]
  {
    hide Follow, NodesOf, RunLength;
    var (end, loopCur) := Follow(nodes, i, cur + step, step, rep);
    FollowUp(nodes, i, cur + 1, rep);
    FollowDown(nodes, i, cur - 1, rep);
    if end > i {
      NodesOfStep(cur, loopCur - step, rep);
    } else {
      NodesOfStep(cur, cur, rep);
    }
  }

  /** A token stands for exactly the slots it covers. */
  lemma TokenIsExact(nodes: seq<nat>, i: nat)
    requires i < |nodes|
    ensures var (t, end) := TokenAt(nodes, i);
            t.rep > 0 && NodesOf(t.first, t.last, t.rep) == nodes[i..end]
  {
    hide RunLength, Follow, NodesOf, Direction;
    var cur := nodes[i];
    var rep := RunLength(nodes, i, cur);
    var step := Direction(nodes, i + rep, cur);
    RunNonEmpty(nodes, i);
    RunIsCopies(nodes, i, cur);
    if step == 0 {
      NodesOfStep(cur, cur, rep);
    } else {
      FollowIsExact(nodes, i + rep, cur, step, rep);
      var (end, loopCur) := Follow(nodes, i + rep, cur + step, step, rep);
      assert nodes[i..end] == nodes[i..i + rep] + nodes[i + rep..end];
    }
  }

  /** Nothing is lost: the tokens stand for all slots, in order. */
  lemma {:induction false} TokensAreExact(nodes: seq<nat>, i: nat)
    requires i <= |nodes|
    ensures ExpandTokens(Tokens(nodes, i)) == nodes[i..]
    decreases |nodes| - i
  {
    hide TokenAt, NodesOf;
    if i < |nodes| {
      var (t, end) := TokenAt(nodes, i);
      TokenIsExact(nodes, i);
      TokensAreExact(nodes, end);
      assert nodes[i..] == nodes[i..end] + nodes[end..];
      assert Tokens(nodes, i)[1..] == Tokens(nodes, end);
    }
  }

  // ----- printing

  function FormatToken(t: Token): string {
    Decimal(t.first) +
    (if t.last != t.first then "-" + Decimal(t.last) else "") +
    (if t.rep > 1 then "(" + Decimal(t.rep) + ")" else "")
  }

  function FormatTokens(ts: seq<Token>): string {
    if ts == [] then "" else FormatToken(ts[0]) + (if |ts| > 1 then "," else "") + FormatTokens(ts[1..])
  }

  function Spaces(n: nat): string {
    seq(n, _ => ' ')
  }

  /** The printed lines: a token that does not fit behind `pos` opens a new one. */
  function Layout(ts: seq<Token>, pos: nat, width: nat, offset: nat): string {
    if ts == [] then "" else
    var text := FormatToken(ts[0]);
    var end := pos + |text| + 1;
    (if end > width then "\n" + Spaces(offset) else "") +
    (text + if |ts| > 1 then "," else "") +
    Layout(ts[1..], if end > width then |text| + 1 else end, width, offset)
  }

  /** What is left without blanks and line breaks. */
  function Visible(s: string): string {
    if s == "" then "" else (if s[0] == ' ' || s[0] == '\n' then "" else [s[0]]) + Visible(s[1..])
  }

  lemma {:induction false} VisibleConcat(s: string, t: string)
    ensures Visible(s + t) == Visible(s) + Visible(t)
  {
    if s == "" {
      assert s + t == t;
    } else {
      assert (s + t)[1..] == s[1..] + t;
      VisibleConcat(s[1..], t);
    }
  }

  lemma {:induction false} VisibleText(s: string)
    requires ' ' !in s && '\n' !in s
    ensures Visible(s) == s
  {
    if s != "" {
      VisibleText(s[1..]);
      assert s == [s[0]] + s[1..];
    }
  }

  lemma {:induction false} VisibleSpaces(n: nat)
    ensures Visible(Spaces(n)) == ""
  {
    if n > 0 {
      VisibleSpaces(n - 1);
      assert Spaces(n)[1..] == Spaces(n - 1);
    }
  }

  lemma TokenText(t: Token)
    ensures var s := FormatToken(t);
            s != "" && forall i | 0 <= i < |s| :: IsDigit(s[i]) || s[i] == '-' || s[i] == '(' || s[i] == ')'
  {
  }

  lemma LayoutStep(ts: seq<Token>, pos: nat, width: nat, offset: nat)
    requires ts != []
    ensures var text := FormatToken(ts[0]);
            var end := pos + |text| + 1;
            var item := text + if |ts| > 1 then "," else "";
            && Layout(ts, pos, width, offset) ==
               (if end > width then "\n" + Spaces(offset) else "") + item
               + Layout(ts[1..], if end > width then |text| + 1 else end, width, offset)
            && FormatTokens(ts) == item + FormatTokens(ts[1..])
  {
  }

  lemma VisibleBreak(offset: nat)
    ensures Visible("\n" + Spaces(offset)) == ""
  {
    VisibleSpaces(offset);
    assert ("\n" + Spaces(offset))[1..] == Spaces(offset);
  }

  /** Wrapping the lines neither adds nor loses anything visible. */
  lemma {:induction false} VisibleLayout(ts: seq<Token>, pos: nat, width: nat, offset: nat)
    ensures Visible(Layout(ts, pos, width, offset)) == FormatTokens(ts)
    decreases |ts|
  {
    if ts == [] {
      return;
    }
    var text := FormatToken(ts[0]);
    var end := pos + |text| + 1;
    var next := if end > width then |text| + 1 else end;
    VisibleLayout(ts[1..], next, width, offset);
    VisibleItem(ts, end > width, offset, Layout(ts[1..], next, width, offset));
    LayoutStep(ts, pos, width, offset);
  }

  lemma VisibleItem(ts: seq<Token>, wrap: bool, offset: nat, rest: string)
    requires ts != []
    ensures var open := if wrap then "\n" + Spaces(offset) else "";
            var item := FormatToken(ts[0]) + if |ts| > 1 then "," else "";
            Visible(open + item + rest) == item + Visible(rest)
  {
    hide FormatToken, Visible, Spaces;
    var open := if wrap then "\n" + Spaces(offset) else "";
    var item := FormatToken(ts[0]) + if |ts| > 1 then "," else "";
    TokenText(ts[0]);
    VisibleText(item);
    VisibleText("");
    VisibleBreak(offset);
    VisibleConcat(open + item, rest);
    VisibleConcat(open, item);
  }

  // ----- reading the list back

  /** `first[-last][(rep)]` */
  function ReadToken(s: string): Token {
    var k := IndexOf('(', s);
    var body := s[..k];
    var d := IndexOf('-', body);
    var first := NumberIn(body[..d]);
    Token(first,
          if d < |body| then NumberIn(body[d + 1..]) else first,
          if k + 1 < |s| then NumberIn(s[k + 1..|s| - 1]) else 1)
  }

  function ReadTokens(ps: seq<string>): seq<Token> {
    if ps == [] then [] else [ReadToken(ps[0])] + ReadTokens(ps[1..])
  }

  /** The nodes a printed slot list stands for. */
  function ReadSlots(s: string): seq<nat> {
    if Visible(s) == "" then [] else ExpandTokens(ReadTokens(SplitOn(',', Visible(s))))
  }

  lemma ReadBody(f: string, l: string, range: bool)
    requires IsNumeral(f) && IsNumeral(l)
    ensures var body := f + if range then "-" + l else "";
            && IndexOf('-', body) == |f| && '(' !in body && body[..|f|] == f
            && (range <==> |f| < |body|)
            && (range ==> body[|f| + 1..] == l)
  {
    hide IndexOf;
    var body := f + if range then "-" + l else "";
    NumeralHasNo('(', f);
    NumeralHasNo('(', l);
    NumeralHasNo('-', f);
    if range {
      assert body == f + ['-'] + l;
      IndexOfHere('-', f, l);
    } else {
      IndexOfAbsent('-', body);
    }
  }

  lemma ReadTail(body: string, r: string, repeat: bool)
    requires '(' !in body && IsNumeral(r)
    ensures var s := body + if repeat then "(" + r + ")" else "";
            && IndexOf('(', s) == |body| && s[..|body|] == body
            && (repeat <==> |body| + 1 < |s|)
            && (repeat ==> s[|body| + 1..|s| - 1] == r)
  {
    hide IndexOf;
    var s := body + if repeat then "(" + r + ")" else "";
    if repeat {
      assert s == body + ['('] + (r + ")");
      IndexOfHere('(', body, r + ")");
    } else {
      IndexOfAbsent('(', s);
    }
  }

  lemma NumberOf(s: string)
    requires IsNumeral(s)
    ensures NumberIn(s) == ValueOf(s)
  {
    hide ValueOf;
  }

  /** Cuts a token into numerals: what ReadToken looks for is there. */
  lemma ReadParts(f: string, l: string, r: string, range: bool, repeat: bool)
    requires IsNumeral(f) && IsNumeral(l) && IsNumeral(r)
    ensures var s := f + (if range then "-" + l else "") + (if repeat then "(" + r + ")" else "");
            ReadToken(s) == Token(ValueOf(f), ValueOf(if range then l else f), if repeat then ValueOf(r) else 1)
  {
    hide ValueOf, IndexOf, NumberIn, IsNumeral;
    NumberOf(f);
    NumberOf(l);
    NumberOf(r);
    var body := f + if range then "-" + l else "";
    var s := body + if repeat then "(" + r + ")" else "";
    ReadBody(f, l, range);
    ReadTail(body, r, repeat);
  }

  lemma ReadFormatToken(t: Token)
    requires t.rep > 0
    ensures ReadToken(FormatToken(t)) == t
  {
    ValueOfDecimal(t.first);
    ValueOfDecimal(t.last);
    ValueOfDecimal(t.rep);
    hide Decimal, ValueOf, ReadToken;
    ReadParts(Decimal(t.first), Decimal(t.last), Decimal(t.rep), t.last != t.first, t.rep > 1);
  }

  lemma {:induction false} ReadFormatTokens(ts: seq<Token>)
    requires ts != [] && forall i | 0 <= i < |ts| :: ts[i].rep > 0
    ensures ReadTokens(SplitOn(',', FormatTokens(ts))) == ts
  {
    hide FormatToken, ReadToken, IndexOf;
    var first := FormatToken(ts[0]);
    ReadFormatToken(ts[0]);
    TokenText(ts[0]);
    IndexOfAbsent(',', first);
    assert SplitOn(',', first) == [first];
    if |ts| == 1 {
      assert FormatTokens(ts[1..]) == "";
      assert first + "" + "" == first;
      assert ReadTokens([first]) == [ts[0]] + ReadTokens([]);
    } else {
      var rest := FormatTokens(ts[1..]);
      ReadFormatTokens(ts[1..]);
      SplitOnConcat(',', first, rest);
      assert FormatTokens(ts) == first + [','] + rest;
      assert ([first] + SplitOn(',', rest))[1..] == SplitOn(',', rest);
    }
  }

  lemma {:induction false} TokensRepeat(nodes: seq<nat>, i: nat)
    requires i <= |nodes|
    ensures forall k | 0 <= k < |Tokens(nodes, i)| :: Tokens(nodes, i)[k].rep > 0
    ensures Tokens(nodes, i) == [] <==> i == |nodes|
    decreases |nodes| - i
  {
    hide TokenAt;
    if i < |nodes| {
      TokenIsExact(nodes, i);
      TokensRepeat(nodes, TokenAt(nodes, i).1);
    }
  }

  /** The printed text, however it is wrapped, reads back as the slots' nodes. */
  lemma PrintedSlotsReadBack(nodes: seq<nat>, width: nat, offset: nat)
    ensures ReadSlots(" " + Layout(Tokens(nodes, 0), 0, width, offset)) == nodes
  {
    var ts := Tokens(nodes, 0);
    TokensAreExact(nodes, 0);
    TokensRepeat(nodes, 0);
    assert nodes[0..] == nodes;
    VisibleLine(ts, width, offset);
    hide TokenAt, Tokens, IndexOf, FormatToken, Layout, Visible, ExpandTokens;
    if ts != [] {
      ReadFormatTokens(ts);
    }
  }

  lemma VisibleLine(ts: seq<Token>, width: nat, offset: nat)
    ensures Visible(" " + Layout(ts, 0, width, offset)) == FormatTokens(ts)
    ensures FormatTokens(ts) == "" <==> ts == []
    ensures ExpandTokens([]) == []
  {
    VisibleConcat(" ", Layout(ts, 0, width, offset));
    VisibleLayout(ts, 0, width, offset);
    VisibleSpaces(1);
    assert Spaces(1) == " ";
    if ts != [] {
      TokenText(ts[0]);
    }
  }

  // ----- the loops

  /** The token of a first run and what follows it. The step only matters if
      there is a slot to follow. */
  lemma TokenAtIs(nodes: seq<nat>, start: nat, rep: nat, step: int, end: nat, loopCur: int)
    requires start < |nodes| && rep == RunLength(nodes, start, nodes[start])
    requires var from, cur := start + rep, nodes[start];
             && (step == 0 || step == 1 || step == -1)
             && (from < |nodes| ==> step == Direction(nodes, from, cur))
             && rep > 0 && (end, loopCur) == Follow(nodes, from, cur + step, step, rep)
    ensures loopCur - step >= 0
    ensures var cur := nodes[start];
            TokenAt(nodes, start) == (Token(cur, if loopCur != cur + step then loopCur - step else cur, rep), end)
  {
    var from, cur := start + rep, nodes[start];
    RunStops(nodes, start, cur);
    if step != 0 {
      FollowIsExact(nodes, from, cur, step, rep);
    }
  }

  lemma {:induction false} RunStops(nodes: seq<nat>, i: nat, node: int)
    requires i <= |nodes|
    ensures var end := i + RunLength(nodes, i, node); RunLength(nodes, end, node) == 0
    decreases |nodes| - i
  {
    if i < |nodes| && nodes[i] == node {
      RunStops(nodes, i + 1, node);
    }
  }

  /** Length of a run, counted by the inner loops. */
  method ScanRun(nodes: seq<nat>, start: nat, node: int) returns (rep: nat, i: nat)
    requires start <= |nodes|
    ensures rep == RunLength(nodes, start, node) && i == start + rep
  {
    hide RunLength;
    rep, i := 0, start;
    while i < |nodes| && nodes[i] == node
      invariant i == start + rep <= |nodes|
      invariant rep + RunLength(nodes, i, node) == RunLength(nodes, start, node)
    {
      RunStep(nodes, i, node);
      rep, i := rep + 1, i + 1;
    }
    RunEnds(nodes, i, node);
  }

  /** One round of the outer loop, up to the printing. The comparison with the
      next slot may read behind the array: `beyond` is whatever is found there, and
      `overrun` tells whether it is read. */
  method ScanToken(nodes: seq<nat>, start: nat, beyond: int) returns (t: Token, i: nat, overrun: bool)
    requires start < |nodes|
    ensures (t, i) == TokenAt(nodes, start)
    ensures overrun <==> i == |nodes| && t.first == t.last
  {
    hide RunLength, Follow, TokenAt;
    var rep, loopStep, loopRep, j;
    var cur := nodes[start];
    rep, i := ScanRun(nodes, start, cur);
    RunNonEmpty(nodes, start);
    overrun := i == |nodes|;
    var next := if i < |nodes| then nodes[i] else beyond;
    loopStep := if next == cur + 1 || next == cur - 1 then next - cur else 0;
    var loopCur := cur + loopStep;
    ghost var from := i;
    while i < |nodes| && nodes[i] == loopCur
      invariant from <= i <= |nodes|
      invariant Follow(nodes, i, loopCur, loopStep, rep) == Follow(nodes, from, cur + loopStep, loopStep, rep)
      decreases |nodes| - i
    {
      loopRep, j := ScanRun(nodes, i, loopCur);
      FollowStep(nodes, i, loopCur, loopStep, rep);
      if loopRep != rep {
        break;
      }
      i, loopCur := j, loopCur + loopStep;
    }
    RunEnds(nodes, i, loopCur);
    FollowStep(nodes, i, loopCur, loopStep, rep);
    TokenAtIs(nodes, start, rep, loopStep, i, loopCur);
    RunStops(nodes, start, cur);
    RunEnds(nodes, from, cur);
    OneRunIff(nodes, from, cur, loopStep, rep);
    t := Token(cur, if loopCur != cur + loopStep then loopCur - loopStep else cur, rep);
  }

  /** Nothing was followed exactly if the place did not move. */
  lemma OneRunIff(nodes: seq<nat>, from: nat, cur: nat, step: int, rep: nat)
    requires from <= |nodes| && rep > 0 && (step == 0 || step == 1 || step == -1)
    requires from == |nodes| || step != 0 || nodes[from] != cur
    ensures var (end, loopCur) := Follow(nodes, from, cur + step, step, rep);
            end == from <==> loopCur == cur + step && (step == 0 || loopCur - step == cur)
  {
    hide RunLength;
    if step != 0 {
      FollowIsExact(nodes, from, cur, step, rep);
    } else {
      RunEnds(nodes, from, cur);
    }
  }

  lemma RunStep(nodes: seq<nat>, i: nat, node: int)
    requires i < |nodes| && nodes[i] == node
    ensures RunLength(nodes, i, node) == 1 + RunLength(nodes, i + 1, node)
  {
  }

  lemma RunEnds(nodes: seq<nat>, i: nat, node: int)
    requires i <= |nodes|
    ensures RunLength(nodes, i, node) == 0 <==> i == |nodes| || nodes[i] != node
  {
  }

  lemma FollowStep(nodes: seq<nat>, i: nat, loopCur: int, step: int, rep: nat)
    requires i <= |nodes| && rep > 0
    ensures Follow(nodes, i, loopCur, step, rep) ==
            if RunLength(nodes, i, loopCur) != rep then (i, loopCur)
            else Follow(nodes, i + rep, loopCur + step, step, rep)
  {
  }

  /** printSlots: its output does not depend on what lies behind the array, which is
      read exactly if the last token is a single node. */
  method PrintSlots(nodes: seq<nat>, beyond: int, width: int, offset: nat) returns (out: string, overrun: bool)
    ensures var myWidth := if width < 20 then 20 else width;
            out == " " + Layout(Tokens(nodes, 0), 0, myWidth, offset)
    ensures ReadSlots(out) == nodes
    ensures var ts := Tokens(nodes, 0);
            overrun <==> ts != [] && ts[|ts| - 1].first == ts[|ts| - 1].last
  {
    hide TokenAt, FormatToken, ReadSlots, Layout, RunLength, Spaces, Follow;
    var i: nat, pos: nat := 0, 0;
    var myWidth := if width < 20 then 20 else width;
    out, overrun := " ", false;
    ghost var last: seq<Token> := [];
    ghost var whole := Layout(Tokens(nodes, 0), 0, myWidth, offset);
    while i < |nodes|
      invariant i <= |nodes|
      invariant out + Layout(Tokens(nodes, i), pos, myWidth, offset) == " " + whole
      invariant last + Tokens(nodes, i) == Tokens(nodes, 0)
      invariant overrun <==> i == |nodes| && last != [] && last[|last| - 1].first == last[|last| - 1].last
      decreases |nodes| - i
    {
      ghost var before, rest, start := out, Tokens(nodes, i), pos;
      var t, over;
      t, i, over := ScanToken(nodes, i, beyond);
      overrun := overrun || over;
      TokensRepeat(nodes, i);
      assert rest == [t] + Tokens(nodes, i) && rest[1..] == Tokens(nodes, i);
      Assoc(last, [t], Tokens(nodes, i));
      last := last + [t];
      LayoutStep(rest, start, myWidth, offset);
      var range := FormatToken(t);
      var open := "";
      pos := pos + |range| + 1;
      if pos > myWidth {
        open := "\n" + Spaces(offset);
        pos := |range| + 1;
      }
      var item := range + if i < |nodes| then "," else "";
      out := out + open + item;
      AssocOfFour(before, open, item, Layout(Tokens(nodes, i), pos, myWidth, offset));
    }
    TokensRepeat(nodes, |nodes|);
    assert last + [] == last;
    LayoutEnd(pos, myWidth, offset);
    assert out + "" == out;
    PrintedSlotsReadBack(nodes, myWidth, offset);
  }

  lemma LayoutEnd(pos: nat, width: nat, offset: nat)
    ensures Layout([], pos, width, offset) == ""
  {
  }
}
