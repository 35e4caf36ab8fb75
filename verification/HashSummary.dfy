/** PSIADM_SummaryStat of bin/admin/commands.c: grouping the nodes by the hash of
    their node list, in static arrays that are expected to be clean on entry. */
module HashSummary {
  import opened Options
  import opened Sequences

  /** What the loop over the nodes meets: a node that was not selected, one that
      is down, one whose query failed, one that answered with a hash. */
  datatype Answer = Skipped | Down | Failed | Hash(text: string)

  /** One line of the summary; `all` if it reads "All nodes". */
  datatype Line = Line(all: bool, count: int, text: string)

  // ----- specification

  /** The hashes answered, in node order. */
  function Hashes(answers: seq<Answer>): (hs: seq<string>)
    ensures |hs| <= |answers|
  {
    if answers == [] then [] else
    var hs := Hashes(answers[..|answers| - 1]);
    var last := answers[|answers| - 1];
    if last.Hash? then hs + [last.text] else hs
  }

  /** Each hash once, in order of first occurrence. */
  function Distinct(hs: seq<string>): (ds: seq<string>)
    ensures |ds| <= |hs|
  {
    if hs == [] then [] else
    var ds := Distinct(hs[..|hs| - 1]);
    var last := hs[|hs| - 1];
    if last in ds then ds else ds + [last]
  }

  function CountIf(answers: seq<Answer>, p: Answer -> bool): nat {
    if answers == [] then 0
    else CountIf(answers[..|answers| - 1], p) + if p(answers[|answers| - 1]) then 1 else 0
  }

  predicate IsUp(a: Answer) {
    a.Failed? || a.Hash?
  }

  predicate IsDown(a: Answer) {
    a.Down?
  }

  function Sum(lines: seq<Line>): int {
    if lines == [] then 0 else Sum(lines[..|lines| - 1]) + lines[|lines| - 1].count
  }

  /** The summary of the hashes `hs` when `up` nodes are up. */
  function Lines(hs: seq<string>, up: int): (lines: seq<Line>) {
    var ds := Distinct(hs);
    seq(|ds|, k requires 0 <= k < |ds| => Line(k == 0 && multiset(hs)[ds[k]] == up, multiset(hs)[ds[k]], ds[k]))
  }

  lemma DistinctStep(hs: seq<string>, text: string)
    ensures var ds := Distinct(hs); Distinct(hs + [text]) == if text in ds then ds else ds + [text]
  {
    assert (hs + [text])[..|hs|] == hs;
  }

  lemma {:induction false} DistinctIsExact(hs: seq<string>)
    ensures NoDuplicates(Distinct(hs))
    ensures forall h :: h in Distinct(hs) <==> h in hs
  {
    if hs != [] {
      var front, last := hs[..|hs| - 1], hs[|hs| - 1];
      DistinctIsExact(front);
      assert hs == front + [last];
    }
  }

  lemma {:induction false} DistinctFillsIff(hs: seq<string>)
    ensures |Distinct(hs)| == |hs| <==> NoDuplicates(hs)
    ensures NoDuplicates(hs) ==> Distinct(hs) == hs
  {
    if hs != [] {
      var front, last := hs[..|hs| - 1], hs[|hs| - 1];
      DistinctFillsIff(front);
      DistinctIsExact(front);
      assert hs == front + [last];
      if last in front {
        var i :| 0 <= i < |front| && front[i] == last;
        assert hs[i] == hs[|hs| - 1];
      }
      if NoDuplicates(hs) {
        assert forall i, j | 0 <= i < j < |front| :: hs[i] != hs[j];
        assert forall i | 0 <= i < |front| :: hs[i] != hs[|front|];
      }
    }
  }

  // ----- counts add up

  function SumOver(ds: seq<string>, m: multiset<string>): nat {
    if ds == [] then 0 else SumOver(ds[..|ds| - 1], m) + m[ds[|ds| - 1]]
  }

  lemma {:induction false} SumOverOneMore(ds: seq<string>, m: multiset<string>, h: string)
    requires NoDuplicates(ds)
    ensures SumOver(ds, m + multiset{h}) == SumOver(ds, m) + if h in ds then 1 else 0
  {
    if ds != [] {
      var front, last := ds[..|ds| - 1], ds[|ds| - 1];
      assert ds == front + [last];
      SumOverOneMore(front, m, h);
    }
  }

  lemma {:induction false} SumOverDistinct(hs: seq<string>)
    ensures SumOver(Distinct(hs), multiset(hs)) == |hs|
  {
    if hs != [] {
      var front, last := hs[..|hs| - 1], hs[|hs| - 1];
      assert hs == front + [last];
      var ds := Distinct(front);
      SumOverDistinct(front);
      DistinctIsExact(front);
      SumOverOneMore(ds, multiset(front), last);
      if last !in ds {
        assert (ds + [last])[..|ds|] == ds;
        assert last !in multiset(front);
      }
    }
  }

  lemma {:induction false} SumOfLines(lines: seq<Line>, ds: seq<string>, m: multiset<string>)
    requires |lines| == |ds| && forall k | 0 <= k < |ds| :: lines[k].count == m[ds[k]]
    ensures Sum(lines) == SumOver(ds, m)
  {
    if lines != [] {
      SumOfLines(lines[..|lines| - 1], ds[..|ds| - 1], m);
    }
  }

  /** The counts printed add up to the nodes that answered. */
  lemma LinesAddUp(hs: seq<string>, up: int)
    ensures Sum(Lines(hs, up)) == |hs|
  {
    SumOfLines(Lines(hs, up), Distinct(hs), multiset(hs));
    SumOverDistinct(hs);
  }

  lemma {:induction false} AllAnswerIff(answers: seq<Answer>)
    ensures |Hashes(answers)| == |answers| <==> forall i | 0 <= i < |answers| :: answers[i].Hash?
  {
    if answers != [] {
      AllAnswerIff(answers[..|answers| - 1]);
    }
  }

  // ----- what the lines say about the answers

  predicate Answers(a: Answer, text: string) {
    a == Hash(text)
  }

  /** How many nodes answered `text`. */
  function Votes(answers: seq<Answer>, text: string): nat {
    CountIf(answers, a => Answers(a, text))
  }

  lemma {:induction false} VotesAre(answers: seq<Answer>, text: string)
    ensures multiset(Hashes(answers))[text] == Votes(answers, text)
  {
    if answers != [] {
      var front, last := answers[..|answers| - 1], answers[|answers| - 1];
      VotesAre(front, text);
      if last.Hash? {
        assert multiset(Hashes(front) + [last.text]) == multiset(Hashes(front)) + multiset{last.text};
      }
    }
  }

  /** As many nodes are up as answered `text` exactly if all that are up did. */
  lemma {:induction false} AllVoteIff(answers: seq<Answer>, text: string)
    ensures Votes(answers, text) <= CountIf(answers, IsUp)
    ensures Votes(answers, text) == CountIf(answers, IsUp) <==>
            forall i | 0 <= i < |answers| && IsUp(answers[i]) :: Answers(answers[i], text)
  {
    if answers != [] {
      var front, last := answers[..|answers| - 1], answers[|answers| - 1];
      AllVoteIff(front, text);
      if forall i | 0 <= i < |front| && IsUp(front[i]) :: Answers(front[i], text) {
        assert forall i | 0 <= i < |front| :: answers[i] == front[i];
      } else {
        var i :| 0 <= i < |front| && IsUp(front[i]) && !Answers(front[i], text);
        assert answers[i] == front[i];
      }
    }
  }

  lemma {:induction false} AnsweredIff(answers: seq<Answer>, text: string)
    ensures text in Hashes(answers) <==> Hash(text) in answers
  {
    if answers != [] {
      var front, last := answers[..|answers| - 1], answers[|answers| - 1];
      AnsweredIff(front, text);
      assert answers == front + [last];
    }
  }

  /** Somebody has answered `text` before place `i`. */
  predicate AnsweredBefore(answers: seq<Answer>, text: string, i: nat)
    requires i <= |answers|
  {
    Hash(text) in answers[..i]
  }

  /** The groups are in the order in which they were first answered: who answered a
      later one comes after somebody who answered an earlier one. */
  lemma {:induction false} FirstAnswers(answers: seq<Answer>, i: nat)
    requires i <= |answers|
    ensures var ds, es := Distinct(Hashes(answers)), Distinct(Hashes(answers[..i])); es <= ds
    decreases |answers|
  {
    if i == |answers| {
      assert answers[..i] == answers;
    } else {
      var front, last := answers[..|answers| - 1], answers[|answers| - 1];
      FirstAnswers(front, i);
      assert front[..i] == answers[..i];
      DistinctStep(Hashes(front), if last.Hash? then last.text else "");
    }
  }

  /** What the summary says of the answers. */
  ghost predicate Summarises(lines: seq<Line>, answers: seq<Answer>) {
    // Each hash that was answered is on one line, and no other.
    && (forall j, k | 0 <= j < k < |lines| :: lines[j].text != lines[k].text)
    && (forall a | a in answers && a.Hash? :: exists k :: 0 <= k < |lines| && lines[k].text == a.text)
    && (forall k | 0 <= k < |lines| :: Hash(lines[k].text) in answers)
    // The lines are in the order of the first answers.
    && (forall i, j, k | 0 <= j < k < |lines| && 0 <= i < |answers| && Answers(answers[i], lines[k].text) ::
          AnsweredBefore(answers, lines[j].text, i))
    // The count is the number of nodes that answered the hash.
    && (forall k | 0 <= k < |lines| :: lines[k].count == Votes(answers, lines[k].text))
    // The first line speaks of all nodes if every node that is up answered its hash.
    && (forall k | 0 <= k < |lines| ::
          lines[k].all <==> k == 0 && forall i | 0 <= i < |answers| && IsUp(answers[i]) ::
                              Answers(answers[i], lines[k].text))
  }

  lemma LineOf(hs: seq<string>, up: int, k: nat)
    requires k < |Distinct(hs)|
    ensures |Lines(hs, up)| == |Distinct(hs)|
    ensures var text := Distinct(hs)[k];
            Lines(hs, up)[k] == Line(k == 0 && multiset(hs)[text] == up, multiset(hs)[text], text)
  {
    hide Distinct;
  }

  lemma EarlierAnswered(answers: seq<Answer>, i: nat, j: nat, k: nat)
    requires var ds := Distinct(Hashes(answers));
             j < k < |ds| && i < |answers| && Answers(answers[i], ds[k])
    ensures AnsweredBefore(answers, Distinct(Hashes(answers))[j], i)
  {
    hide Distinct, Hashes;
    var ds := Distinct(Hashes(answers));
    var before, with := answers[..i], answers[..i + 1];
    FirstAnswers(answers, i);
    FirstAnswers(answers, i + 1);
    DistinctIsExact(Hashes(answers));
    DistinctIsExact(Hashes(before));
    DistinctIsExact(Hashes(with));
    AnsweredIff(with, ds[k]);
    AnsweredIff(before, ds[j]);
    assert with[i] == answers[i];
    assert with[..i] == before;
    HashesStep(answers, i);
    DistinctStep(Hashes(before), ds[k]);
    var es := Distinct(Hashes(before));
    var m :| 0 <= m < |Distinct(Hashes(with))| && Distinct(Hashes(with))[m] == ds[k];
    assert ds[m] == ds[k];
    assert m == k;
    assert j < |es| && es[j] == ds[j];
  }

  lemma HashesStep(answers: seq<Answer>, i: nat)
    requires i < |answers|
    ensures Hashes(answers[..i + 1]) ==
            if answers[i].Hash? then Hashes(answers[..i]) + [answers[i].text] else Hashes(answers[..i])
  {
    assert answers[..i + 1][..i] == answers[..i];
  }

  /** The lines printed for all answers. */
  lemma LinesSummarise(answers: seq<Answer>)
    ensures Summarises(Lines(Hashes(answers), CountIf(answers, IsUp)), answers)
  {
    hide Distinct, Hashes, Lines, CountIf, AnsweredBefore;
    var hs, up := Hashes(answers), CountIf(answers, IsUp);
    var ds, lines := Distinct(hs), Lines(hs, up);
    DistinctIsExact(hs);
    SameLength(hs, up);
    forall k | 0 <= k < |ds| ensures lines[k].text == ds[k] && Hash(ds[k]) in answers
                                     && lines[k].count == Votes(answers, ds[k])
                                     && (lines[k].all <==> k == 0 && Votes(answers, ds[k]) == up) {
      LineOf(hs, up, k);
      VotesAre(answers, ds[k]);
      AnsweredIff(answers, ds[k]);
    }
    forall k | 0 <= k < |ds| ensures
      lines[k].all <==> k == 0 && forall i | 0 <= i < |answers| && IsUp(answers[i]) :: Answers(answers[i], ds[k]) {
      AllVoteIff(answers, ds[k]);
    }
    forall a | a in answers && a.Hash? ensures exists k :: 0 <= k < |lines| && lines[k].text == a.text {
      AnsweredIff(answers, a.text);
      var k :| 0 <= k < |ds| && ds[k] == a.text;
      assert lines[k].text == a.text;
    }
    forall i, j, k | 0 <= j < k < |lines| && 0 <= i < |answers| && Answers(answers[i], lines[k].text)
      ensures AnsweredBefore(answers, lines[j].text, i)
    {
      EarlierAnswered(answers, i, j, k);
    }
  }

  lemma SameLength(hs: seq<string>, up: int)
    ensures |Lines(hs, up)| == |Distinct(hs)|
  {
    hide Distinct;
  }

  // ----- the arrays

  class Summary {
    const hashes: array<Option<string>>
    const counts: array<int>

    ghost predicate Valid() {
      hashes.Length == counts.Length
    }

    /** The first slots hold the distinct hashes with their counts, the others
        are empty. */
    ghost predicate Holds(hs: seq<string>)
      requires Valid()
      reads hashes, counts
    {
      var ds := Distinct(hs);
      && |ds| <= hashes.Length
      && (forall k | 0 <= k < |ds| :: hashes[k] == Some(ds[k]) && counts[k] == multiset(hs)[ds[k]])
      && (forall k | |ds| <= k < hashes.Length :: hashes[k] == None && counts[k] == 0)
    }

    /** calloc of both arrays */
    constructor (nodes: nat)
      ensures Valid() && hashes.Length == nodes && Holds([])
      ensures fresh(hashes) && fresh(counts)
    {
      hashes := new Option<string>[nodes](_ => None);
      counts := new int[nodes](_ => 0);
    }

    /** The search for a slot among the first `node + 1`: it always ends at one. */
    method Note(ghost hs: seq<string>, node: nat, text: string)
      requires Valid() && Holds(hs) && |hs| <= node < hashes.Length
      modifies hashes, counts
      ensures Holds(hs + [text])
    {
      hide Distinct;
      ghost var ds := Distinct(hs);
      DistinctStep(hs, text);
      DistinctIsExact(hs);
      assert multiset(hs + [text]) == multiset(hs) + multiset{text};
      for i := 0 to node + 1
        invariant Holds(hs) && i <= |ds|
        invariant forall k | 0 <= k < i :: ds[k] != text
      {
        if hashes[i].None? || hashes[i].value == text {
          assert i < |ds| <==> text in ds;
          if hashes[i].None? {
            hashes[i] := Some(text);
          }
          counts[i] := counts[i] + 1;
          return;
        }
      }
      assert false;
    }

    /** Prints the groups and empties their slots. The loop has no bound: when
        every slot is in use it goes on to read the one after the last, which is
        where this method stops. */
    method PrintGroups(ghost hs: seq<string>, up: int) returns (lines: seq<Line>, overrun: bool)
      requires Valid() && Holds(hs)
      modifies hashes, counts
      ensures lines == Lines(hs, up) && Holds([])
      ensures overrun <==> |Distinct(hs)| == hashes.Length
    {
      ghost var ds := Distinct(hs);
      lines, overrun := [], false;
      var i := 0;
      while i < hashes.Length && hashes[i].Some?
        invariant i <= |ds| <= hashes.Length && lines == Lines(hs, up)[..i]
        invariant forall k | 0 <= k < hashes.Length && (k < i || |ds| <= k) :: hashes[k] == None && counts[k] == 0
        invariant forall k | i <= k < |ds| :: hashes[k] == Some(ds[k]) && counts[k] == multiset(hs)[ds[k]]
      {
        lines := lines + [Line(i == 0 && counts[i] == up, counts[i], hashes[i].value)];
        counts[i] := 0;
        hashes[i] := None;
        i := i + 1;
      }
      overrun := i == hashes.Length;
    }

    /** From clean arrays to clean arrays. The summary lists the hashes in order
        of first occurrence, each with the number of nodes that answered it. */
    method SummaryStat(answers: seq<Answer>) returns (up: int, down: int, lines: seq<Line>, overrun: bool)
      requires Valid() && Holds([]) && |answers| == hashes.Length
      modifies hashes, counts
      ensures up == CountIf(answers, IsUp) && down == CountIf(answers, IsDown)
      ensures lines == Lines(Hashes(answers), up) && Summarises(lines, answers) && Holds([])
      ensures overrun <==> (forall i | 0 <= i < |answers| :: answers[i].Hash?) && NoDuplicates(Hashes(answers))
    {
      hide Distinct, Holds, Lines, NoDuplicates, Summarises;
      up, down := 0, 0;
      for node := 0 to |answers|
        invariant Holds(Hashes(answers[..node]))
        invariant up == CountIf(answers[..node], IsUp) && down == CountIf(answers[..node], IsDown)
      {
        assert answers[..node + 1][..node] == answers[..node];
        match answers[node] {
          case Skipped =>
          case Down => down := down + 1;
          case Failed => up := up + 1;
          case Hash(text) =>
            up := up + 1;
            Note(Hashes(answers[..node]), node, text);
        }
      }
      assert answers[..|answers|] == answers;
      lines, overrun := PrintGroups(Hashes(answers), up);
      LinesSummarise(answers);
      DistinctFillsIff(Hashes(answers));
      AllAnswerIff(answers);
    }
  }
}
