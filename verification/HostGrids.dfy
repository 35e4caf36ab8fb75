/** What `compress` of scripts/pscompress.py prints for names that differ in two
    numbers: racks and the nodes in them. */
module HostGrids {
  import opened Decimals
  import opened Expansion
  import opened FoldMeaning
  import opened Folding
  import opened HostLists
  import opened HostNames
  import opened HostOrder
  import opened HostRanges
  import opened Sequences

  /** The names of a grid, row by row. */
  function Grid(p: string, xs: seq<string>, m: string, ys: seq<string>, t: string): seq<string> {
    if xs == [] then [] else Around(p + xs[0] + m, ys, t) + Grid(p, xs[1..], m, ys, t)
  }

  function TwoFields(p: string, f: Field, m: string, g: Field, t: string): Element {
    Parts([p, m, t], [f, g])
  }

  /** The elements of a grid, and those of its rows. */
  function Rows(e: Element, xs: seq<string>, ys: seq<string>): seq<Element>
    requires |e.fields| == 2 && Numerals(xs) && Numerals(ys)
  {
    if xs == [] then [] else Points(With(e, 0, Point(xs[0])), 1, ys) + Rows(e, xs[1..], ys)
  }

  lemma TwoPoints(p: string, x: Numeral, m: string, y: Numeral, t: string)
    requires DigitFree(p) && DigitFree(m) && DigitFree(t) && m != ""
    ensures Preprocess(p + x + m + y + t) == TwoFields(p, Point(x), m, Point(y), t)
  {
    hide SplitName;
    JoinCons(m, y, [t], []);
    JoinCons(p, x, [m, t], [y]);
    assert [m] + [t] == [m, t] && [y] + [] == [y] && [p] + [m, t] == [p, m, t] && [x] + [y] == [x, y];
    SplitOfJoin([p, m, t], [x, y]);
    assert p + x + (m + y + t) == p + x + m + y + t;
  }

  lemma PreprocessConcat(a: seq<string>, b: seq<string>)
    ensures PreprocessAll(a + b) == PreprocessAll(a) + PreprocessAll(b)
  {
    hide Preprocess;
  }

  lemma {:induction false} GridElements(p: string, xs: seq<string>, m: string, ys: seq<string>, t: string, e: Element)
    requires DigitFree(p) && DigitFree(m) && DigitFree(t) && m != "" && Numerals(xs) && Numerals(ys)
    requires e == TwoFields(p, Point("0"), m, Point("0"), t)
    ensures PreprocessAll(Grid(p, xs, m, ys, t)) == Rows(e, xs, ys)
    decreases |xs|
  {
    hide Preprocess;
    if xs != [] {
      var x, row := xs[0], Around(p + xs[0] + m, ys, t);
      GridElements(p, xs[1..], m, ys, t, e);
      PreprocessConcat(row, Grid(p, xs[1..], m, ys, t));
      forall i | 0 <= i < |ys| ensures PreprocessAll(row)[i] == Points(With(e, 0, Point(x)), 1, ys)[i] {
        TwoPoints(p, x, m, ys[i], t);
        assert With(With(e, 0, Point(x)), 1, Point(ys[i])) == TwoFields(p, Point(x), m, Point(ys[i]), t);
      }
      assert PreprocessAll(row) == Points(With(e, 0, Point(x)), 1, ys);
    }
  }

  lemma {:induction false} PassConcat(result: seq<Element>, a: seq<Element>, b: seq<Element>)
    ensures PassFrom(result, a + b) == PassFrom(PassFrom(result, a), b)
    decreases |a|
  {
    hide PassFrom, Push;
    PassFromStep(result, a);
    if a == [] {
      assert a + b == b;
    } else {
      PassFromStep(result, a + b);
      assert (a + b)[1..] == a[1..] + b;
      PassConcat(Push(result, a[0]), a[1..], b);
    }
  }

  /** The rest of a row behind its first element. */
  lemma {:induction false} PassRest(front: seq<Element>, e: Element, rs: seq<Run>, more: seq<Element>)
    requires |e.fields| == 2 && Maximal(rs) && rs != [] && |Numbers(rs)| > 1 && Numbers(rs)[1] != Lo(rs[0])
    ensures Numerals(Numbers(rs))
    ensures PassFrom(front + [With(e, 1, Point(Lo(rs[0])))], Points(e, 1, Numbers(rs)[1..]) + more) ==
            PassFrom(front + [With(e, 1, RangesOf(rs))], more)
  {
    hide PassFrom, Numbers, Push, RangesOf, Points;
    NumbersAreNumerals(rs);
    var x := With(e, 1, Point(Lo(rs[0])));
    PassConcat(front + [x], Points(e, 1, Numbers(rs)[1..]), more);
    PassBehind(front, x, Points(e, 1, Numbers(rs)[1..]));
    PassOfNumbers(e, 1, rs);
  }

  lemma NextRow(front: seq<Element>, a: Element, b: Element)
    requires |a.fields| == 2 == |b.fields| && a.fields[0] != b.fields[0] && a.fields[1] != b.fields[1]
    ensures Push(front + [a], b) == front + [a] + [b]
  {
    TwiceDifferent(a, b, 0, 1);
    PushBehindOthers(front, a, b);
  }

  /** A pass turns every row into one element. */
  lemma {:induction false} PassRows(front: seq<Element>, e: Element, w: Numeral, xs: seq<string>, rs: seq<Run>)
    requires |e.fields| == 2 && Numerals(xs) && Changing([w] + xs)
    requires Maximal(rs) && rs != [] && |Numbers(rs)| > 1 && Numbers(rs)[1] != Lo(rs[0])
    ensures Numerals(Numbers(rs))
    ensures var row := With(e, 1, RangesOf(rs));
            PassFrom(front + [With(row, 0, Point(w))], Rows(e, xs, Numbers(rs))) ==
            front + [With(row, 0, Point(w))] + Points(row, 0, xs)
    decreases |xs|
  {
    hide PassFrom, Numbers, Push, RangesOf;
    NumbersAreNumerals(rs);
    var ys, row := Numbers(rs), With(e, 1, RangesOf(rs));
    var done := front + [With(row, 0, Point(w))];
    if xs == [] {
      PassFromStep(done, []);
      assert done + Points(row, 0, xs) == done;
    } else {
      var x := xs[0];
      var c, more := With(e, 0, Point(x)), Rows(e, xs[1..], ys);
      FirstNumber(rs);
      LeavesPoint(rs);
      var es := Points(c, 1, ys) + more;
      assert ([w] + xs)[0] == w && ([w] + xs)[1] == x;
      assert Point(w)[0].lo == w && Point(x)[0].lo == x;
      assert es[0] == With(c, 1, Point(Lo(rs[0])));
      assert es[1..] == Points(c, 1, ys[1..]) + more;
      NextRow(front, With(row, 0, Point(w)), es[0]);
      PassFromStep(done, es);
      PassRest(done, c, rs, more);
      assert With(c, 1, RangesOf(rs)) == With(row, 0, Point(x));
      TailChanging(w, xs);
      PassRows(done, e, x, xs[1..], rs);
      assert Points(row, 0, xs) == [With(row, 0, Point(x))] + Points(row, 0, xs[1..]);
      Assoc(done, [With(row, 0, Point(x))], Points(row, 0, xs[1..]));
    }
  }

  lemma TailChanging(w: string, xs: seq<string>)
    requires xs != [] && Changing([w] + xs)
    ensures Changing([xs[0]] + xs[1..]) && Changing(xs)
  {
    assert [xs[0]] + xs[1..] == xs;
    forall i | 0 <= i < |xs| - 1 ensures xs[i] != xs[i + 1] {
      assert ([w] + xs)[i + 1] == xs[i] && ([w] + xs)[i + 2] == xs[i + 1];
    }
  }

  /** A pass over a whole grid. */
  lemma {:induction false} PassOfGrid(e: Element, xs: seq<string>, rs: seq<Run>)
    requires |e.fields| == 2 && Numerals(xs) && xs != [] && Changing(xs)
    requires Maximal(rs) && rs != [] && |Numbers(rs)| > 1 && Numbers(rs)[1] != Lo(rs[0])
    ensures Numerals(Numbers(rs))
    ensures Pass(Rows(e, xs, Numbers(rs))) == Points(With(e, 1, RangesOf(rs)), 0, xs)
  {
    hide PassFrom, Numbers, Push, RangesOf;
    NumbersAreNumerals(rs);
    FirstNumber(rs);
    var ys, row, x := Numbers(rs), With(e, 1, RangesOf(rs)), xs[0];
    var c, more := With(e, 0, Point(x)), Rows(e, xs[1..], ys);
    var first := With(c, 1, Point(Lo(rs[0])));
    var rest := Points(c, 1, ys[1..]) + more;
    assert Rows(e, xs, ys) == [first] + rest;
    FirstOfPass(first, rest);
    assert [] + [first] == [first];
    PassRest([], c, rs, more);
    assert With(c, 1, RangesOf(rs)) == With(row, 0, Point(x));
    assert [x] + xs[1..] == xs;
    PassRows([], e, x, xs[1..], rs);
    assert Points(row, 0, xs) == [] + [With(row, 0, Point(x))] + Points(row, 0, xs[1..]);
  }

  lemma FormatTwoFields(p: string, f: Field, m: string, g: Field, t: string)
    ensures FormatElement(TwoFields(p, f, m, g, t)) == p + FormatField(f) + (m + FormatField(g) + t)
  {
    hide FormatField;
    var e := TwoFields(p, f, m, g, t);
    assert Folding.Tail(e) == OneField(m, g, t);
    FormatOneField(m, g, t);
  }

  /** The rows of a grid are folded into one element, and these into one. */
  lemma {:induction false} FoldOfGrid(e: Element, rs: seq<Run>, ss: seq<Run>)
    requires |e.fields| == 2 && Maximal(rs) && |Numbers(rs)| > 1 && Changing(Numbers(rs))
    requires Maximal(ss) && |Numbers(ss)| > 1 && Numbers(ss)[0] != Numbers(ss)[1] && rs != [] && ss != []
    ensures Numerals(Numbers(rs)) && Numerals(Numbers(ss))
    ensures Fold(Rows(e, Numbers(rs), Numbers(ss))) == [With(With(e, 1, RangesOf(ss)), 0, RangesOf(rs))]
  {
    hide Fold, Numbers, Points, RangesOf, Rows, PassFrom, Changing;
    var xs, ys := Numbers(rs), Numbers(ss);
    NumbersAreNumerals(rs);
    NumbersAreNumerals(ss);
    FirstNumber(ss);
    PassOfGrid(e, xs, ss);
    FoldStep(Rows(e, xs, ys));
    FoldStep(Pass(Rows(e, xs, ys)));
    ChangingDiffers(xs);
    FoldOfNumbers(With(e, 1, RangesOf(ss)), 0, rs);
  }

  /** The names of a grid, row by row, are printed as one name with two brackets. */
  lemma {:induction false} CompressedGrid(p: string, rs: seq<Run>, m: string, ss: seq<Run>, t: string)
    requires DigitFree(p) && DigitFree(m) && DigitFree(t) && m != ""
    requires Maximal(rs) && |Numbers(rs)| > 1 && Changing(Numbers(rs))
    requires Maximal(ss) && |Numbers(ss)| > 1 && Numbers(ss)[0] != Numbers(ss)[1]
    ensures Compressed(Grid(p, Numbers(rs), m, Numbers(ss), t)) ==
            p + "[" + RunsText(rs) + "]" + m + "[" + RunsText(ss) + "]" + t
  {
    NoNumbers();
    hide Fold, Numbers, FormatElement, FormatField, RangesOf, Rows, Grid, RunsText, Maximal, Changing;
    assert rs != [] && ss != [];
    var e := TwoFields(p, Point("0"), m, Point("0"), t);
    NumbersAreNumerals(rs);
    NumbersAreNumerals(ss);
    GridElements(p, Numbers(rs), m, Numbers(ss), t, e);
    FoldOfGrid(e, rs, ss);
    assert With(With(e, 1, RangesOf(ss)), 0, RangesOf(rs)) == TwoFields(p, RangesOf(rs), m, RangesOf(ss), t);
    FormatTwoFields(p, RangesOf(rs), m, RangesOf(ss), t);
    ChangingDiffers(Numbers(rs));
    FormatRuns(rs);
    FormatRuns(ss);
    OneElement(TwoFields(p, RangesOf(rs), m, RangesOf(ss), t));
    BracketsText(p, RunsText(rs), m, RunsText(ss), t);
  }

  lemma BracketsText(p: string, f: string, m: string, g: string, t: string)
    ensures p + ("[" + f + "]") + (m + ("[" + g + "]") + t) == p + "[" + f + "]" + m + "[" + g + "]" + t
  {
  }

  /** All numbers from `a` to `b` with all from `c` to `d`. */
  lemma {:induction false} CompressedGridOfRuns(p: string, w: nat, a: nat, b: nat, m: string, v: nat, c: nat, d: nat,
                                                t: string)
    requires DigitFree(p) && DigitFree(m) && DigitFree(t) && m != "" && a + 1 < b && c + 1 < d
    ensures Compressed(Grid(p, Span(w, a, b), m, Span(v, c, d), t)) ==
            p + "[" + PadTo(w, a) + "-" + PadTo(w, b) + "]" + m + "[" + PadTo(v, c) + "-" + PadTo(v, d) + "]" + t
  {
    hide Compressed, Span, PadTo, Numbers, Grid, RunsText;
    OneRun(w, a, b);
    OneRun(v, c, d);
    var rs, ss := [Run(w, a, b)], [Run(v, c, d)];
    ChangingDiffers(Numbers(ss));
    CompressedGrid(p, rs, m, ss, t);
    GridText(p, PadTo(w, a), PadTo(w, b), m, PadTo(v, c), PadTo(v, d), t);
  }

  lemma GridText(p: string, a: string, b: string, m: string, c: string, d: string, t: string)
    ensures p + "[" + (a + "-" + b) + "]" + m + "[" + (c + "-" + d) + "]" + t ==
            p + "[" + a + "-" + b + "]" + m + "[" + c + "-" + d + "]" + t
  {
  }
}
