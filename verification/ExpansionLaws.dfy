/** What expansion does to arbitrary text, not only to what `compress` prints. */
module ExpansionLaws {
  import opened Decimals
  import opened Expansion
  import opened HostNames
  import opened Options
  import opened PrintParse
  import opened Sequences

  // ----- concatenation of lists

  /** The scanner never meets an opening bracket that nothing closes. */
  predicate Closed(s: string)
    decreases |s|
  {
    if s == "" then true
    else if s[0] == '[' then IndexOf(']', s) < |s| && Closed(s[IndexOf(']', s) + 1..])
    else Closed(s[1..])
  }

  /** `a` with everything that follows it in a longer list. */
  function Followed(a: string, r: string): string {
    a + ("," + r)
  }

  lemma FollowedSuffix(a: string, r: string, j: nat)
    requires j <= |a|
    ensures Followed(a, r)[j..] == Followed(a[j..], r)
  {
  }

  lemma MatchElemOfBracket(s: string, j: nat)
    requires s != "" && s[0] == '[' && j == IndexOf(']', s) + 1 <= |s|
    ensures MatchElem(s) == j + MatchElem(s[j..])
  {
    hide IndexOf;
  }

  lemma {:induction false} MatchElemOfClosed(a: string, r: string)
    requires Closed(a)
    ensures MatchElem(Followed(a, r)) == MatchElem(a)
    decreases |a|
  {
    var s := Followed(a, r);
    if a != "" && a[0] == '[' {
      var j := IndexOf(']', a) + 1;
      IndexOfConcat(']', a, "," + r);
      MatchElemOfBracket(a, j);
      MatchElemOfBracket(s, j);
      FollowedSuffix(a, r, j);
      MatchElemOfClosed(a[j..], r);
    } else if a != "" && a[0] != ',' {
      FollowedSuffix(a, r, 1);
      MatchElemOfClosed(a[1..], r);
    }
  }

  lemma MatchElemOfChar(s: string)
    requires s != "" && s[0] != '[' && s[0] != ','
    ensures MatchElem(s) == 1 + MatchElem(s[1..])
  {
  }

  lemma ClosedStep(s: string)
    requires s != ""
    ensures Closed(s) ==
            if s[0] == '[' then IndexOf(']', s) < |s| && Closed(s[IndexOf(']', s) + 1..]) else Closed(s[1..])
  {
    hide IndexOf;
  }

  lemma {:induction false} ClosedRest(a: string)
    requires Closed(a) && MatchElem(a) < |a|
    ensures Closed(a[MatchElem(a) + 1..])
    decreases |a|
  {
    hide IndexOf, Closed, MatchElem;
    var k := MatchElem(a);
    ClosedStep(a);
    if a[0] == '[' {
      var j := IndexOf(']', a) + 1;
      MatchElemOfBracket(a, j);
      ClosedRest(a[j..]);
      assert a[j..][k - j + 1..] == a[k + 1..];
    } else if a[0] == ',' {
      CommaEnds(a);
    } else {
      MatchElemOfChar(a);
      ClosedRest(a[1..]);
      assert a[1..][k..] == a[k + 1..];
    }
  }

  lemma CommaEnds(s: string)
    requires s != "" && s[0] == ','
    ensures MatchElem(s) == 0
  {
  }

  lemma {:induction false} JoinedStep(a: string, b: string)
    requires Closed(a)
    ensures var k := MatchElem(a);
            Expanded(Followed(a, b)) ==
            ExpandGroup(a[..k]) + if k == |a| then Expanded(b) else Expanded(Followed(a[k + 1..], b))
  {
    hide IndexOf, Closed, MatchElem, Expanded, ExpandGroup;
    var s, k := Followed(a, b), MatchElem(a);
    MatchElemOfClosed(a, b);
    ExpandedStep(s);
    assert s[..k] == a[..k];
    if k == |a| {
      assert s[k + 1..] == b;
    } else {
      FollowedSuffix(a, b, k + 1);
    }
  }

  lemma {:induction false} ExpandedFollowed(a: string, b: string)
    requires Closed(a)
    ensures Expanded(Followed(a, b)) == Expanded(a) + Expanded(b)
    decreases |a|
  {
    hide MatchElem, Expanded, ExpandGroup, Followed, IndexOf, Closed;
    var k := MatchElem(a);
    JoinedStep(a, b);
    ExpandedStep(a);
    if k == |a| {
    } else {
      ClosedRest(a);
      ExpandedFollowed(a[k + 1..], b);
      Assoc(ExpandGroup(a[..k]), Expanded(a[k + 1..]), Expanded(b));
    }
  }

  /** Lists may be joined with commas before they are expanded. */
  lemma ExpandedOfJoined(a: string, b: string)
    requires Closed(a)
    ensures Expanded(a + "," + b) == Expanded(a) + Expanded(b)
  {
    hide Expanded, Closed;
    ExpandedFollowed(a, b);
    assert a + "," + b == Followed(a, b);
  }

  // ----- lists with a bracket that nothing closes

  /** The first element contains an opening bracket that nothing closes. */
  predicate OpenElement(a: string)
    decreases |a|
  {
    if a == "" || a[0] == ',' then false
    else if a[0] == '[' then IndexOf(']', a) == |a| || OpenElement(a[IndexOf(']', a) + 1..])
    else OpenElement(a[1..])
  }

  /** A list that is not closed has such an element first, or later. The bracket
      appended behind a comma closes it. */
  lemma OpenStep(a: string)
    requires a != "" && a[0] != ','
    ensures OpenElement(a) ==
            if a[0] == '[' then IndexOf(']', a) == |a| || OpenElement(a[IndexOf(']', a) + 1..])
            else OpenElement(a[1..])
  {
    hide IndexOf;
  }

  lemma OpenEnds(a: string)
    requires a == "" || a[0] == ','
    ensures !OpenElement(a) && (a == "" ==> Closed(a) && MatchElem(a) == 0)
  {
  }

  lemma {:induction false} ScanOpen(a: string)
    requires !Closed(a)
    ensures var k, s := MatchElem(a), Followed(a, "]");
            if OpenElement(a) then MatchElem(s) == |s|
            else k < |a| && MatchElem(s) == k && !Closed(a[k + 1..])
    decreases |a|
  {
    hide IndexOf, MatchElem, Closed, OpenElement;
    var s := Followed(a, "]");
    OpenEnds("");
    if a[0] == ',' {
      OpenEnds(a);
      CommaEnds(s);
      CommaEnds(a);
      ClosedStep(a);
    } else if a[0] == '[' {
      IndexOfConcat(']', a, ",]");
      assert s == a + ",]";
      ClosedStep(a);
      OpenStep(a);
      if IndexOf(']', a) < |a| {
        var j := IndexOf(']', a) + 1;
        MatchElemOfBracket(a, j);
        MatchElemOfBracket(s, j);
        FollowedSuffix(a, "]", j);
        ScanOpen(a[j..]);
        if !OpenElement(a[j..]) {
          assert a[j..][MatchElem(a[j..]) + 1..] == a[MatchElem(a) + 1..];
        }
      } else {
        SecondOfTwo();
        MatchElemOfBracket(s, |s|);
        assert s[|s|..] == "";
      }
    } else {
      FollowedSuffix(a, "]", 1);
      MatchElemOfChar(a);
      MatchElemOfChar(s);
      ClosedStep(a);
      OpenStep(a);
      ScanOpen(a[1..]);
      if !OpenElement(a[1..]) {
        assert a[1..][MatchElem(a[1..]) + 1..] == a[MatchElem(a) + 1..];
      }
    }
  }

  lemma SecondOfTwo()
    ensures IndexOf(']', ",]") == 1
  {
    assert ",]"[1..] == "]";
  }

  /** Not empty, and not ending in a closing bracket. */
  predicate EndsOpen(n: string) {
    n != "" && n[|n| - 1] != ']'
  }

  predicate AllEndOpen(ns: seq<string>) {
    forall i | 0 <= i < |ns| :: EndsOpen(ns[i])
  }

  lemma {:induction false} RangesEndOpen(ps: seq<string>)
    requires forall i | 0 <= i < |ps| :: ']' !in ps[i]
    ensures AllEndOpen(ExpandRanges(ps))
  {
    if ps != [] {
      RangesEndOpen(ps[1..]);
      if MatchRange(ps[0]).Some? {
        var (lo, hi) := MatchRange(ps[0]).value;
        SpanEndsOpen(|lo|, ValueOf(lo), ValueOf(hi));
      }
    }
  }

  lemma {:induction false} SpanEndsOpen(width: nat, first: nat, last: nat)
    ensures AllEndOpen(Span(width, first, last))
    decreases last + 1 - first
  {
    hide PadTo;
    if first <= last {
      SpanEndsOpen(width, first + 1, last);
    }
  }

  lemma {:induction false} SplitOnKeepsOut(c: char, s: string, d: char)
    requires d !in s
    ensures forall i | 0 <= i < |SplitOn(c, s)| :: d !in SplitOn(c, s)[i]
    decreases |s|
  {
    var k := IndexOf(c, s);
    hide IndexOf;
    if k < |s| {
      SplitOnKeepsOut(c, s[k + 1..], d);
    }
  }

  lemma {:induction false} ChooseEndsOpen(heads: seq<string>, tails: seq<string>)
    requires AllEndOpen(tails) || (AllEndOpen(heads) && tails == [""])
    ensures AllEndOpen(Choose(heads, tails))
  {
    if heads != [] {
      ChooseEndsOpen(heads[1..], tails);
      forall i | 0 <= i < |tails| ensures EndsOpen(heads[0] + tails[i]) {
        assert tails == [""] || EndsOpen(tails[i]);
      }
    }
  }

  lemma PrefixEndsOpen(p: string, ns: seq<string>)
    requires AllEndOpen(ns)
    ensures AllEndOpen(Prefix(p, ns))
  {
    forall i | 0 <= i < |ns| ensures EndsOpen(p + ns[i]) {
      assert EndsOpen(ns[i]);
    }
  }

  /** No name of that element ends in the appended bracket. */
  lemma {:induction false} OpenElementNames(a: string)
    requires OpenElement(a)
    ensures AllEndOpen(ExpandGroup(Followed(a, "]")))
    decreases |a|
  {
    hide IndexOf, ExpandGroup, Choose, ExpandRanges, SplitOn, Prefix;
    var s := Followed(a, "]");
    if a[0] != '[' {
      FollowedSuffix(a, "]", 1);
      OpenElementNames(a[1..]);
      assert s == [a[0]] + Followed(a[1..], "]");
      ExpandGroupAfterLiteral([a[0]], Followed(a[1..], "]"));
      PrefixEndsOpen([a[0]], ExpandGroup(Followed(a[1..], "]")));
    } else if IndexOf(']', a) < |a| {
      var j := IndexOf(']', a);
      var b, rest := a[1..j], Followed(a[j + 1..], "]");
      OpenElementNames(a[j + 1..]);
      assert s == "[" + b + "]" + rest;
      if b == "" {
        EmptyBracket(rest);
      } else {
        ExpandGroupAfterBracket(b, rest);
        ChooseEndsOpen(ExpandRanges(SplitOn(',', b)), ExpandGroup(rest));
      }
    } else {
      var b := a[1..] + ",";
      assert ']' !in a;
      assert s == "[" + b + "]" + "";
      ExpandGroupAfterBracket(b, "");
      ExpandPlainGroup("");
      SplitOnKeepsOut(',', b, ']');
      RangesEndOpen(SplitOn(',', b));
      ChooseEndsOpen(ExpandRanges(SplitOn(',', b)), [""]);
    }
  }

  /** An empty bracket leaves no names. */
  lemma EmptyBracket(s: string)
    ensures ExpandGroup("[]" + s) == [] && "[" + "" + "]" + s == "[]" + s
  {
    hide Choose, ExpandRanges, SplitOn;
    var g := "[]" + s;
    assert g[0] == '[' && g[1..] == "]" + s && ("]" + s)[0] == ']';
    assert IndexOf('[', g) == 0 && IndexOf(']', g[1..]) == 0;
    PiecesStep(g, 0, g[1..]);
    assert g[..0] == "" && g[1..][..0] == "" && g[1..][1..] == s;
    var p: Piece := ("", Some(""));
    ExpandPiecesCons(p, Pieces(s));
    ChooseNone(Product(ExpandPieces(Pieces(s))));
  }

  lemma ChooseNone(tails: seq<string>)
    ensures Choose([], tails) == []
  {
  }

  lemma {:induction false} OpenListDiffers(a: string)
    requires !Closed(a)
    ensures Expanded(Followed(a, "]")) != Expanded(a) + ["]"]
    decreases |a|
  {
    hide Closed, OpenElement, MatchElem, Expanded, ExpandGroup;
    var s, k := Followed(a, "]"), MatchElem(a);
    ScanOpen(a);
    ExpandedStep(s);
    if OpenElement(a) {
      OpenElementNames(a);
      assert s[..|s|] == s;
      LastIsOpen(Expanded(s), Expanded(a));
    } else {
      ExpandedStep(a);
      FollowedSuffix(a, "]", k + 1);
      assert s[..k] == a[..k];
      OpenListDiffers(a[k + 1..]);
      Assoc(ExpandGroup(a[..k]), Expanded(a[k + 1..]), ["]"]);
      SameTail(ExpandGroup(a[..k]), Expanded(Followed(a[k + 1..], "]")), Expanded(a[k + 1..]) + ["]"]);
    }
  }

  lemma LastIsOpen(ns: seq<string>, ms: seq<string>)
    requires AllEndOpen(ns)
    ensures ns != ms + ["]"]
  {
    if ns != [] {
      assert EndsOpen(ns[|ns| - 1]);
    }
    assert (ms + ["]"])[|ms|] == "]";
  }

  /** Exactly the lists in which every bracket is closed may be put in front of
      others. */
  lemma ClosedIff(a: string)
    ensures (forall b :: Expanded(a + "," + b) == Expanded(a) + Expanded(b)) <==> Closed(a)
  {
    hide Expanded, Closed;
    if Closed(a) {
      forall b ensures Expanded(a + "," + b) == Expanded(a) + Expanded(b) {
        ExpandedOfJoined(a, b);
      }
    } else {
      OpenListDiffers(a);
      BracketAlone();
      assert a + "," + "]" == Followed(a, "]");
      assert Expanded(a + "," + "]") != Expanded(a) + Expanded("]");
    }
  }

  lemma BracketAlone()
    ensures Expanded("]") == ["]"]
  {
    assert "]"[1..] == "" && MatchElem("]") == 1 && "]"[..1] == "]";
    ExpandedStep("]");
    IndexOfAbsent('[', "]");
    PlainPieces("]");
    var p: Piece := ("]", None);
    assert [p] == [p] + [];
    ExpandPiecesCons(p, []);
    ChooseOne("]", [""]);
    assert "]" + "" == "]";
    assert Prefix("]", [""]) == ["]"];
  }

  // ----- what a bracket stands for

  /** A range: digits, a dash, digits; one line break at the end is overlooked. */
  predicate IsRange(x: string, lo: string, hi: string) {
    IsNumeral(lo) && IsNumeral(hi) && (x == lo + "-" + hi || x == lo + "-" + hi + "\n")
  }

  lemma MatchRangeIs(x: string, lo: string, hi: string)
    requires IsRange(x, lo, hi)
    ensures MatchRange(x) == Some((lo, hi))
  {
    hide IndexOf;
    NumeralHasNo('-', lo);
    IndexOfHere('-', lo, hi);
    var body := lo + ['-'] + hi;
    assert body == lo + "-" + hi && body[..|lo|] == lo && body[|lo| + 1..] == hi;
    assert (body + "\n")[..|body|] == body;
  }

  lemma MatchedIsRange(x: string)
    requires MatchRange(x).Some?
    ensures IsRange(x, MatchRange(x).value.0, MatchRange(x).value.1)
  {
    hide IndexOf;
    var body := if x != "" && x[|x| - 1] == '\n' then x[..|x| - 1] else x;
    var k := IndexOf('-', body);
    assert body == body[..k] + ['-'] + body[k + 1..];
    if body != x {
      assert x == body + "\n";
    }
  }

  /** An item of a bracket that is a range stands for its numbers, any other one for
      itself, and an empty one for nothing. */
  lemma {:induction false} ExpandRangeIs(x: string)
    ensures forall lo, hi | IsRange(x, lo, hi) :: ExpandRange(x) == Span(|lo|, ValueOf(lo), ValueOf(hi))
    ensures (forall lo, hi :: !IsRange(x, lo, hi)) ==> ExpandRange(x) == if x == "" then [] else [x]
  {
    hide MatchRange, IsRange;
    forall lo, hi | IsRange(x, lo, hi)
      ensures IsNumeral(lo) && IsNumeral(hi) && ExpandRange(x) == Span(|lo|, ValueOf(lo), ValueOf(hi))
    {
      RangeNumerals(x, lo, hi);
      MatchRangeIs(x, lo, hi);
    }
    if MatchRange(x).Some? {
      MatchedIsRange(x);
    }
  }

  lemma RangeNumerals(x: string, lo: string, hi: string)
    requires IsRange(x, lo, hi)
    ensures IsNumeral(lo) && IsNumeral(hi)
  {
  }

  lemma MatchBracket(p: string, b: string, t: string)
    requires Clean(p) && Clean(t) && ']' !in b
    ensures var s := p + "[" + b + "]" + t; MatchElem(s) == |s|
  {
    hide IndexOf, MatchElem;
    var s := "[" + b + "]" + t;
    assert p + "[" + b + "]" + t == p + s;
    MatchElemAfterLiteral(p, s);
    assert s == ("[" + b) + [']'] + t;
    IndexOfHere(']', "[" + b, t);
    MatchElemOfBracket(s, |b| + 2);
    assert s[|b| + 2..] == t;
    MatchElemAfterLiteral(t, "");
    assert t + "" == t;
    CommaEndsNothing();
  }

  lemma CommaEndsNothing()
    ensures MatchElem("") == 0
  {
  }

  lemma {:induction false} ChooseLast(heads: seq<string>, t: string)
    ensures Choose(heads, [t]) == Around("", heads, t)
  {
    if heads != [] {
      ChooseLast(heads[1..], t);
      assert Prefix(heads[0], [t]) == [heads[0] + t];
      assert "" + heads[0] + t == heads[0] + t;
      assert Around("", heads, t) == [heads[0] + t] + Around("", heads[1..], t);
    }
  }

  /** A name with one bracket stands for what the items in it stand for, in order, with
      the text before and behind it. */
  lemma BracketExpands(p: string, b: string, t: string)
    requires Clean(p) && Clean(t) && ']' !in b
    ensures Expanded(p + "[" + b + "]" + t) == Around(p, ExpandRanges(SplitOn(',', b)), t)
  {
    hide MatchElem, ExpandGroup, Choose, Expanded, ExpandRanges, SplitOn;
    var g := "[" + b + "]" + t;
    var s, items := p + g, ExpandRanges(SplitOn(',', b));
    assert p + "[" + b + "]" + t == s && s[..|s|] == s;
    MatchBracket(p, b, t);
    ExpandedStep(s);
    ExpandGroupAfterLiteral(p, g);
    if b == "" {
      EmptyBracket(t);
      NoItems();
    } else {
      ExpandGroupAfterBracket(b, t);
    }
    ExpandPlainGroup(t);
    ChooseLast(items, t);
    forall i | 0 <= i < |items| ensures Prefix(p, Around("", items, t))[i] == Around(p, items, t)[i] {
      assert p + ("" + items[i] + t) == p + items[i] + t;
    }
  }

  lemma NoItems()
    ensures ExpandRanges(SplitOn(',', "")) == []
  {
    assert SplitOn(',', "") == [""];
    assert [""][1..] == [];
  }

  /** Text without a closed bracket is a name as it is, if it has no comma. */
  lemma {:induction false} UnclosedExpands(s: string)
    requires ',' !in s && (IndexOf('[', s) == |s| || ']' !in s[IndexOf('[', s)..])
    ensures Expanded(s) == [s]
  {
    hide MatchElem, Expanded, Choose;
    UnclosedMatch(s);
    ExpandedStep(s);
    assert s[..|s|] == s;
    UnclosedPieces(s);
    var p: Piece := (s, None);
    assert [p] == [p] + [];
    ExpandPiecesCons(p, []);
    ChooseOne(s, [""]);
    assert s + "" == s;
    assert Prefix(s, [""]) == [s];
  }

  lemma UnclosedPieces(s: string)
    requires IndexOf('[', s) == |s| || ']' !in s[IndexOf('[', s)..]
    ensures Pieces(s) == [(s, None)]
  {
    hide IndexOf, Pieces;
    var i := IndexOf('[', s);
    if i == |s| {
      PlainPieces(s);
    } else {
      var u := s[i + 1..];
      assert forall k | 0 <= k < |u| :: u[k] == s[i..][k + 1];
      IndexOfAbsent(']', u);
      PiecesStep(s, i, u);
    }
  }

  lemma {:induction false} UnclosedMatch(s: string)
    requires ',' !in s && (IndexOf('[', s) == |s| || ']' !in s[IndexOf('[', s)..])
    ensures MatchElem(s) == |s|
    decreases |s|
  {
    if s != "" {
      if s[0] == '[' {
        assert s[0..] == s;
        IndexOfAbsent(']', s);
        if '[' in s[1..] {
          var i := IndexOf('[', s[1..]);
          assert forall k | 0 <= k < |s[1..][i..]| :: s[1..][i..][k] == s[i + 1 + k];
        } else {
          IndexOfAbsent('[', s[1..]);
        }
      } else {
        var i := IndexOf('[', s[1..]);
        assert i < |s[1..]| ==> s[1..][i..] == s[i + 1..];
      }
      UnclosedMatch(s[1..]);
    }
  }

  /** What is neither a number nor a range is taken as it is. */
  lemma BracketOfText(p: string, x: string, t: string)
    requires Clean(p) && Clean(t) && x != "" && ']' !in x && ',' !in x && forall lo, hi :: !IsRange(x, lo, hi)
    ensures Expanded(p + "[" + x + "]" + t) == [p + x + t]
  {
    hide Expanded, ExpandRange, IsRange, IndexOf;
    BracketExpands(p, x, t);
    IndexOfAbsent(',', x);
    SplitOnStep(',', x, |x|);
    ExpandRangeIs(x);
    assert [x][1..] == [];
    assert ExpandRanges([x]) == [x] + [];
  }

  // ----- how many names

  function RangeSize(s: string): nat {
    match MatchRange(s)
    case Some((lo, hi)) =>
      if ValueOf(lo) <= ValueOf(hi) then ValueOf(hi) + 1 - ValueOf(lo) else 0
    case None => if s != "" then 1 else 0
  }

  function RangesSize(ps: seq<string>): nat {
    if ps == [] then 0 else RangeSize(ps[0]) + RangesSize(ps[1..])
  }

  function PieceSize(p: Piece): nat {
    match p.1
    case None => 1
    case Some(rs) => if rs == "" then 0 else RangesSize(SplitOn(',', rs))
  }

  function PiecesSize(ps: seq<Piece>): nat {
    if ps == [] then 1 else PieceSize(ps[0]) * PiecesSize(ps[1..])
  }

  lemma {:induction false} ExpandRangesSize(ps: seq<string>)
    ensures |ExpandRanges(ps)| == RangesSize(ps)
  {
    if ps != [] {
      ExpandRangesSize(ps[1..]);
    }
  }

  lemma {:induction false} ChooseSize(heads: seq<string>, tails: seq<string>)
    ensures |Choose(heads, tails)| == |heads| * |tails|
  {
    if heads != [] {
      ChooseSize(heads[1..], tails);
      assert |heads| * |tails| == |tails| + |heads[1..]| * |tails|;
    }
  }

  lemma {:induction false} ProductSize(ps: seq<Piece>)
    ensures |Product(ExpandPieces(ps))| == PiecesSize(ps)
  {
    if ps != [] {
      ProductSize(ps[1..]);
      assert ps == [ps[0]] + ps[1..];
      ExpandPiecesCons(ps[0], ps[1..]);
      ChooseSize(ExpandPiece(ps[0]), Product(ExpandPieces(ps[1..])));
      if ps[0].1.Some? {
        ExpandRangesSize(SplitOn(',', ps[0].1.value));
      }
    }
  }

  /** A group unfolds to the product, over its brackets, of the summed sizes of
      the ranges in each. */
  lemma GroupSize(s: string)
    ensures |ExpandGroup(s)| == PiecesSize(Pieces(s))
  {
    ProductSize(Pieces(s));
  }
}
