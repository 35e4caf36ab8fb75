/** Reading back what `compress` prints: the expansion of a printed element is
    the product of its fields, and a printed list expands to the concatenation. */
module PrintParse {
  import opened Decimals
  import opened HostNames
  import opened Folding
  import opened Expansion
  import opened Options
  import opened Sequences

  // ----- what elements stand for

  function RangeValues(r: Range): seq<string> {
    Span(|r.lo|, ValueOf(r.lo), ValueOf(r.hi))
  }

  function FieldValues(f: seq<Range>): seq<string> {
    if f == [] then [] else RangeValues(f[0]) + FieldValues(f[1..])
  }

  /** The names an element stands for, the last field running fastest. */
  function Names(e: Element): seq<string>
    decreases |e.fields|
  {
    if e.fields == [] then [e.texts[0]]
    else Prefix(e.texts[0], Choose(FieldValues(e.fields[0]), Names(Folding.Tail(e))))
  }

  function AllNames(es: seq<Element>): seq<string> {
    if es == [] then [] else Names(es[0]) + AllNames(es[1..])
  }

  predicate CleanElement(e: Element) {
    forall i | 0 <= i < |e.texts| :: Clean(e.texts[i])
  }

  // ----- searching and splitting

  lemma {:induction false} IndexOfConcat(c: char, t: string, r: string)
    ensures IndexOf(c, t + r) ==
            if IndexOf(c, t) < |t| then IndexOf(c, t) else |t| + IndexOf(c, r)
  {
    if t == "" {
      assert t + r == r;
    } else {
      assert (t + r)[1..] == t[1..] + r;
      IndexOfConcat(c, t[1..], r);
    }
  }

  lemma IndexOfHere(c: char, t: string, r: string)
    requires c !in t
    ensures IndexOf(c, t + [c] + r) == |t|
  {
    assert t + [c] + r == t + ([c] + r);
    IndexOfConcat(c, t, [c] + r);
  }

  lemma IndexOfAbsent(c: char, t: string)
    requires c !in t
    ensures IndexOf(c, t) == |t|
  {
  }

  lemma SplitOnStep(c: char, s: string, k: nat)
    requires k == IndexOf(c, s)
    ensures SplitOn(c, s) == if k == |s| then [s] else [s[..k]] + SplitOn(c, s[k + 1..])
  {
    hide IndexOf;
  }

  lemma IndexInConcat(c: char, a: string, b: string)
    ensures IndexOf(c, a + [c] + b) == IndexOf(c, a)
  {
    hide IndexOf;
    if c in a {
      assert IndexOf(c, a) < |a|;
      assert a + [c] + b == a + ([c] + b);
      IndexOfConcat(c, a, [c] + b);
    } else {
      IndexOfAbsent(c, a);
      IndexOfHere(c, a, b);
    }
  }

  lemma SlicesOfConcat(a: string, c: string, b: string, k: nat)
    requires k <= |a| && |c| == 1
    ensures var s := a + c + b;
            && s[..k] == a[..k]
            && (k == |a| ==> s[k + 1..] == b)
            && (k < |a| ==> s[k + 1..] == a[k + 1..] + c + b)
  {
  }

  lemma {:induction false} SplitOnConcat(c: char, a: string, b: string)
    ensures SplitOn(c, a + [c] + b) == SplitOn(c, a) + SplitOn(c, b)
    decreases |a|
  {
    hide IndexOf, SplitOn;
    var k := IndexOf(c, a);
    var s := a + [c] + b;
    SplitOnStep(c, a, k);
    IndexInConcat(c, a, b);
    SlicesOfConcat(a, [c], b, k);
    SplitOnStep(c, s, k);
    assert a[..|a|] == a;
    if k < |a| {
      SplitOnConcat(c, a[k + 1..], b);
      Assoc([a[..k]], SplitOn(c, a[k + 1..]), SplitOn(c, b));
    }
  }

  lemma {:induction false} ExpandRangesConcat(ps: seq<string>, qs: seq<string>)
    ensures ExpandRanges(ps + qs) == ExpandRanges(ps) + ExpandRanges(qs)
  {
    if ps == [] {
      assert ps + qs == qs;
    } else {
      assert (ps + qs)[1..] == ps[1..] + qs;
      ExpandRangesConcat(ps[1..], qs);
    }
  }

  // ----- one range

  lemma NumeralHasNo(c: char, s: string)
    requires AllDigits(s) && !IsDigit(c)
    ensures c !in s
  {
  }

  lemma ExpandNumeral(s: string)
    requires IsNumeral(s)
    ensures SplitOn(',', s) == [s]
    ensures ExpandRange(s) == [s]
    ensures ExpandRanges([s]) == [s]
  {
    NumeralHasNo(',', s);
    NumeralHasNo('-', s);
    IndexOfAbsent(',', s);
    IndexOfAbsent('-', s);
    assert s[|s| - 1] != '\n';
    assert ExpandRanges([s]) == ExpandRange(s) + ExpandRanges([]);
  }

  lemma ExpandDashed(lo: string, hi: string)
    requires IsNumeral(lo) && IsNumeral(hi)
    ensures var s := lo + "-" + hi;
            && SplitOn(',', s) == [s]
            && ExpandRanges([s]) == Span(|lo|, ValueOf(lo), ValueOf(hi))
  {
    var s := lo + "-" + hi;
    NumeralHasNo('-', lo);
    IndexOfHere('-', lo, hi);
    assert s[|s| - 1] == hi[|hi| - 1] != '\n';
    assert s[..|lo|] == lo && s[|lo| + 1..] == hi;
    NumeralHasNo(',', lo);
    NumeralHasNo(',', hi);
    assert ',' !in s;
    IndexOfAbsent(',', s);
    assert ExpandRanges([s]) == ExpandRange(s) + ExpandRanges([]);
  }

  /** A printed range is read back as the numerals it runs through. */
  lemma ExpandFormatRange(r: Range)
    ensures ExpandRanges(SplitOn(',', FormatRange(r))) == RangeValues(r)
  {
    var a, b := ValueOf(r.lo), ValueOf(r.hi);
    PadToOwnWidth(r.lo);
    if a == b {
      ExpandNumeral(r.lo);
      assert Span(|r.lo|, a, b) == [r.lo] + Span(|r.lo|, a + 1, b) == [r.lo];
    } else if a + 1 == b {
      var next := PadTo(|r.lo|, b);
      ExpandNumeral(r.lo);
      ExpandNumeral(next);
      SplitOnConcat(',', r.lo, next);
      ExpandRangesConcat([r.lo], [next]);
      assert Span(|r.lo|, b, b) == [next] + Span(|r.lo|, b + 1, b) == [next];
      assert Span(|r.lo|, a, b) == [r.lo] + [next];
    } else {
      ExpandDashed(r.lo, r.hi);
    }
  }

  lemma {:induction false} ExpandFormatRangeList(rs: Field)
    ensures ExpandRanges(SplitOn(',', FormatRangeList(rs))) == FieldValues(rs)
  {
    ExpandFormatRange(rs[0]);
    if |rs| == 1 {
      assert FieldValues(rs) == RangeValues(rs[0]) + FieldValues([]);
    } else {
      ExpandFormatRangeList(rs[1..]);
      SplitOnConcat(',', FormatRange(rs[0]), FormatRangeList(rs[1..]));
      ExpandRangesConcat(SplitOn(',', FormatRange(rs[0])), SplitOn(',', FormatRangeList(rs[1..])));
    }
  }

  // ----- one element

  /** Characters of a printed range list. */
  predicate RangeText(s: string) {
    s != "" && forall i | 0 <= i < |s| :: IsDigit(s[i]) || s[i] == ',' || s[i] == '-'
  }

  lemma {:induction false} FormatRangeListText(rs: Field)
    ensures RangeText(FormatRangeList(rs))
  {
    if |rs| > 1 {
      FormatRangeListText(rs[1..]);
    }
  }

  lemma PrefixOfPrefix(p: string, q: string, ss: seq<string>)
    ensures Prefix(p, Prefix(q, ss)) == Prefix(p + q, ss)
  {
    forall i | 0 <= i < |ss| ensures Prefix(p, Prefix(q, ss))[i] == Prefix(p + q, ss)[i] {
      assert p + (q + ss[i]) == p + q + ss[i];
    }
  }

  lemma PrefixConcat(p: string, ss: seq<string>, ts: seq<string>)
    ensures Prefix(p, ss + ts) == Prefix(p, ss) + Prefix(p, ts)
  {
  }

  lemma {:induction false} ChooseOfPrefix(p: string, heads: seq<string>, tails: seq<string>)
    ensures Choose(Prefix(p, heads), tails) == Prefix(p, Choose(heads, tails))
  {
    if heads != [] {
      assert Prefix(p, heads)[1..] == Prefix(p, heads[1..]);
      ChooseOfPrefix(p, heads[1..], tails);
      PrefixOfPrefix(p, heads[0], tails);
      PrefixConcat(p, Prefix(heads[0], tails), Choose(heads[1..], tails));
    }
  }

  lemma ChooseOne(v: string, tails: seq<string>)
    ensures Choose([v], tails) == Prefix(v, tails)
  {
    assert Choose([v], tails) == Prefix(v, tails) + Choose([], tails);
  }

  lemma ProductCons(choice: seq<string>, choices: seq<seq<string>>)
    ensures Product([choice] + choices) == Choose(choice, Product(choices))
  {
    assert ([choice] + choices)[1..] == choices;
  }

  lemma ExpandPiecesCons(p: Piece, ps: seq<Piece>)
    ensures Product(ExpandPieces([p] + ps)) == Choose(ExpandPiece(p), Product(ExpandPieces(ps)))
  {
    assert ([p] + ps)[1..] == ps;
    ProductCons(ExpandPiece(p), ExpandPieces(ps));
  }

  lemma CutStep(s: string, i: nat, u: string)
    requires i == IndexOf('[', s) && i < |s| && u == s[i + 1..]
    ensures var j := IndexOf(']', u); Cut(s) == if j == |u| then None else Some((s[..i], u[..j], u[j + 1..]))
  {
    hide IndexOf;
  }

  /** The first bracket decides how a string is cut into pieces. */
  lemma PiecesStep(s: string, i: nat, u: string)
    requires i == IndexOf('[', s) && i < |s| && u == s[i + 1..]
    ensures var j := IndexOf(']', u);
            Pieces(s) == if j == |u| then [(s, None)] else [(s[..i], Some(u[..j]))] + Pieces(u[j + 1..])
  {
    hide IndexOf, Cut;
    CutStep(s, i, u);
  }

  lemma PlainPieces(s: string)
    requires IndexOf('[', s) == |s|
    ensures Pieces(s) == [(s, None)]
  {
  }

  /** `q` is `p` with `t` in front of its literal. */
  function Lead(t: string, p: Piece): Piece {
    (t + p.0, p.1)
  }

  lemma CutAfterLiteral(t: string, s: string, i: nat)
    requires '[' !in t && i == IndexOf('[', s) && i < |s|
    ensures var ps := Pieces(s); ps != [] && Pieces(t + s) == [Lead(t, ps[0])] + ps[1..]
  {
    hide IndexOf, Pieces;
    IndexOfConcat('[', t, s);
    IndexOfAbsent('[', t);
    var u := s[i + 1..];
    assert (t + s)[|t| + i + 1..] == u;
    assert (t + s)[..|t| + i] == t + s[..i];
    PiecesStep(s, i, u);
    PiecesStep(t + s, |t| + i, u);
  }

  lemma PiecesAfterLiteral(t: string, s: string)
    requires '[' !in t
    ensures var ps := Pieces(s); ps != [] && Pieces(t + s) == [Lead(t, ps[0])] + ps[1..]
  {
    if IndexOf('[', s) < |s| {
      CutAfterLiteral(t, s, IndexOf('[', s));
    } else {
      IndexOfConcat('[', t, s);
      IndexOfAbsent('[', t);
      PlainPieces(s);
      PlainPieces(t + s);
    }
  }

  lemma ExpandPieceAfterLiteral(t: string, p: Piece)
    ensures ExpandPiece(Lead(t, p)) == Prefix(t, ExpandPiece(p))
  {
    if p.1.Some? && p.1.value != "" {
      PrefixOfPrefix(t, p.0, ExpandRanges(SplitOn(',', p.1.value)));
    }
  }

  /** Text in front of a group ends up in front of every name. */
  lemma ExpandGroupAfterLiteral(t: string, s: string)
    requires '[' !in t
    ensures ExpandGroup(t + s) == Prefix(t, ExpandGroup(s))
  {
    PiecesAfterLiteral(t, s);
    var ps := Pieces(s);
    ExpandPiecesCons(Lead(t, ps[0]), ps[1..]);
    ExpandPieceAfterLiteral(t, ps[0]);
    ChooseOfPrefix(t, ExpandPiece(ps[0]), Product(ExpandPieces(ps[1..])));
    assert ps == [ps[0]] + ps[1..];
    ExpandPiecesCons(ps[0], ps[1..]);
  }

  /** A bracket contributes its range set as one factor of the product. */
  lemma ExpandGroupAfterBracket(b: string, s: string)
    requires b != "" && ']' !in b
    ensures ExpandGroup("[" + b + "]" + s) == Choose(ExpandRanges(SplitOn(',', b)), ExpandGroup(s))
  {
    hide SplitOn, ExpandRanges, Choose, ValueOf, Decimal, PadTo, Pieces, ExpandPieces, Product;
    var g := "[" + b + "]" + s;
    assert g[0] == '[';
    assert IndexOf('[', g) == 0;
    assert g[1..] == b + [']'] + s;
    IndexOfHere(']', b, s);
    assert g[1..][..|b|] == b;
    assert g[1..][|b| + 1..] == s;
    assert g[..0] == "";
    var vs := ExpandRanges(SplitOn(',', b));
    PiecesStep(g, 0, g[1..]);
    assert Pieces(g) == [("", Some(b))] + Pieces(s);
    ExpandPiecesCons(("", Some(b)), Pieces(s));
    assert Prefix("", vs) == vs by {
      forall i | 0 <= i < |vs| ensures Prefix("", vs)[i] == vs[i] {
        assert "" + vs[i] == vs[i];
      }
    }
  }

  lemma ExpandGroupAfterField(f: Field, s: string)
    ensures ExpandGroup(FormatField(f) + s) == Choose(FieldValues(f), ExpandGroup(s))
  {
    if |f| == 1 && ValueOf(f[0].lo) == ValueOf(f[0].hi) {
      var n := f[0].lo;
      ExpandGroupAfterLiteral(n, s);
      ChooseOne(n, ExpandGroup(s));
      PadToOwnWidth(n);
      assert Span(|n|, ValueOf(n), ValueOf(n)) == [n] + Span(|n|, ValueOf(n) + 1, ValueOf(n)) == [n];
      assert FieldValues(f) == [n] + FieldValues([]) == [n];
    } else {
      FormatRangeListText(f);
      ExpandFormatRangeList(f);
      ExpandGroupAfterBracket(FormatRangeList(f), s);
    }
  }

  lemma ExpandPlainGroup(t: string)
    requires Clean(t)
    ensures ExpandGroup(t) == [t]
  {
    IndexOfAbsent('[', t);
    var p: Piece := (t, None);
    assert Pieces(t) == [p] == [p] + [];
    ExpandPiecesCons(p, []);
    ChooseOne(t, [""]);
    assert t + "" == t;
    assert Prefix(t, [""]) == [t];
  }

  lemma FormatElementParts(e: Element)
    requires e.fields != []
    ensures FormatElement(e) == e.texts[0] + (FormatField(e.fields[0]) + FormatElement(Folding.Tail(e)))
  {
    var t, f, r := e.texts[0], FormatField(e.fields[0]), FormatElement(Folding.Tail(e));
    assert t + f + r == t + (f + r);
  }

  /** Expanding a printed element yields its names, in order. */
  lemma {:induction false} ExpandFormatElement(e: Element)
    requires CleanElement(e)
    ensures ExpandGroup(FormatElement(e)) == Names(e)
    decreases |e.fields|
  {
    if e.fields == [] {
      ExpandPlainGroup(e.texts[0]);
    } else {
      var rest := FormatElement(Folding.Tail(e));
      ExpandFormatElement(Folding.Tail(e));
      FormatElementParts(e);
      ExpandGroupAfterField(e.fields[0], rest);
      ExpandGroupAfterLiteral(e.texts[0], FormatField(e.fields[0]) + rest);
    }
  }

  // ----- the scanner on printed lists

  lemma {:induction false} MatchElemAfterLiteral(t: string, s: string)
    requires Clean(t)
    ensures MatchElem(t + s) == |t| + MatchElem(s)
  {
    if t == "" {
      assert t + s == s;
    } else {
      assert (t + s)[1..] == t[1..] + s;
      MatchElemAfterLiteral(t[1..], s);
    }
  }

  lemma MatchElemAfterBracket(b: string, s: string)
    requires RangeText(b)
    ensures MatchElem("[" + b + "]" + s) == |b| + 2 + MatchElem(s)
  {
    var g := "[" + b + "]" + s;
    assert g == ("[" + b) + [']'] + s;
    IndexOfHere(']', "[" + b, s);
    assert g[|b| + 2..] == s;
  }

  lemma MatchElemOfField(f: Field, s: string)
    ensures MatchElem(FormatField(f) + s) == |FormatField(f)| + MatchElem(s)
  {
    if |f| == 1 && ValueOf(f[0].lo) == ValueOf(f[0].hi) {
      MatchElemAfterLiteral(f[0].lo, s);
    } else {
      FormatRangeListText(f);
      MatchElemAfterBracket(FormatRangeList(f), s);
    }
  }

  lemma {:induction false} MatchElemOfFormat(e: Element, s: string)
    requires CleanElement(e)
    ensures MatchElem(FormatElement(e) + s) == |FormatElement(e)| + MatchElem(s)
    decreases |e.fields|
  {
    hide MatchElem, ValueOf, Decimal, PadTo;
    if e.fields == [] {
      MatchElemAfterLiteral(e.texts[0], s);
    } else {
      var t, f, r := e.texts[0], FormatField(e.fields[0]), FormatElement(Folding.Tail(e));
      MatchElemOfFormat(Folding.Tail(e), s);
      MatchElemOfField(e.fields[0], r + s);
      MatchElemAfterLiteral(t, f + (r + s));
      assert t + f + r + s == t + (f + (r + s));
    }
  }

  lemma ExpandedPrinted(e: Element, rest: string)
    requires CleanElement(e)
    ensures Expanded(FormatElement(e)) == Names(e)
    ensures Expanded(FormatElement(e) + ("," + rest)) == Names(e) + Expanded(rest)
  {
    hide Expanded, FormatElement, IndexOf, Names, ExpandGroup, ValueOf, Decimal, PadTo;
    var first := FormatElement(e);
    var s := first + ("," + rest);
    ExpandFormatElement(e);
    MatchElemOfFormat(e, "");
    assert first + "" == first && first[..|first|] == first;
    ExpandedStep(first);
    MatchElemOfFormat(e, "," + rest);
    assert s[..|first|] == first && s[|first| + 1..] == rest;
    ExpandedStep(s);
  }

  /** A printed list expands to the names of its elements, in order. */
  lemma {:induction false} ExpandedFormatList(es: seq<Element>)
    requires es != []
    requires forall i | 0 <= i < |es| :: CleanElement(es[i])
    ensures Expanded(FormatList(es)) == AllNames(es)
  {
    if |es| == 1 {
      ExpandedPrinted(es[0], "");
      assert AllNames(es) == Names(es[0]) + AllNames([]);
    } else {
      var rest := FormatList(es[1..]);
      ExpandedFormatList(es[1..]);
      ExpandedPrinted(es[0], rest);
      assert FormatElement(es[0]) + "," + rest == FormatElement(es[0]) + ("," + rest);
    }
  }
}
