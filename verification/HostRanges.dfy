/** What `compress` of scripts/pscompress.py prints for names that differ in one
    number only. */
module HostRanges {
  import opened Decimals
  import opened Expansion
  import opened FoldMeaning
  import opened Folding
  import opened HostLists
  import opened HostNames
  import opened HostOrder
  import opened Sequences

  // ----- runs of numbers

  /** The numbers from `first` to `last`, padded to `width`. */
  datatype Run = Run(width: nat, first: nat, last: nat)

  function Lo(r: Run): Numeral {
    PadTo(r.width, r.first)
  }

  function Hi(r: Run): Numeral {
    PadTo(r.width, r.last)
  }

  function Numbers(rs: seq<Run>): seq<string> {
    if rs == [] then [] else Span(rs[0].width, rs[0].first, rs[0].last) + Numbers(rs[1..])
  }

  /** No run is empty, and none goes on with the next one. */
  predicate Maximal(rs: seq<Run>) {
    && (forall i | 0 <= i < |rs| :: rs[i].first <= rs[i].last)
    && (forall i | 0 <= i < |rs| - 1 :: PadTo(rs[i].width, rs[i].last + 1) != Lo(rs[i + 1]))
  }

  /** One number stands alone, two are listed, more are a range. */
  function RunText(r: Run): string {
    if r.first == r.last then Lo(r) else Lo(r) + (if r.first + 1 == r.last then "," else "-") + Hi(r)
  }

  function RunsText(rs: seq<Run>): string {
    if rs == [] then "" else RunText(rs[0]) + (if |rs| > 1 then "," else "") + RunsText(rs[1..])
  }

  lemma {:induction false} NumbersAreNumerals(rs: seq<Run>)
    ensures Numerals(Numbers(rs))
  {
    if rs != [] {
      SpanNumerals(rs[0].width, rs[0].first, rs[0].last);
      NumbersAreNumerals(rs[1..]);
    }
  }

  lemma {:induction false} NumbersStep(rs: seq<Run>)
    requires rs != [] && rs[0].first <= rs[0].last
    ensures var r := rs[0];
            Numbers(rs) == [Lo(r)] + (Span(r.width, r.first + 1, r.last) + Numbers(rs[1..]))
  {
  }

  lemma RunsInTail(r: Run, n: Numeral, v: nat)
    requires n == PadTo(r.width, v) && v <= r.first
    ensures Span(|n|, r.first, r.last) == Span(r.width, r.first, r.last)
  {
    SpanWidthChange(r.width, v, r.first, r.last);
  }

  /** A number in front of runs that it does not go on with. */
  lemma {:induction false} NewRun(n: Numeral, ss: seq<Run>)
    requires Maximal(ss) && (ss != [] ==> PadTo(|n|, ValueOf(n) + 1) != Lo(ss[0]))
    ensures var rs := [Run(|n|, ValueOf(n), ValueOf(n))] + ss; Maximal(rs) && Numbers(rs) == [n] + Numbers(ss)
  {
    hide Decimal, ValueOf, PadTo, Span;
    var w, v := |n|, ValueOf(n);
    var rs := [Run(w, v, v)] + ss;
    PadToOwnWidth(n);
    SpanOne(w, v);
    assert rs[1..] == ss;
    forall i | 0 <= i < |rs| - 1 ensures PadTo(rs[i].width, rs[i].last + 1) != Lo(rs[i + 1]) {
      if i > 0 {
        assert rs[i] == ss[i - 1] && rs[i + 1] == ss[i];
      }
    }
  }

  /** A number in front of runs that it does go on with. */
  lemma {:induction false} LongerRun(n: Numeral, ss: seq<Run>)
    requires Maximal(ss) && ss != [] && PadTo(|n|, ValueOf(n) + 1) == Lo(ss[0])
    ensures var rs := [Run(|n|, ValueOf(n), ss[0].last)] + ss[1..]; Maximal(rs) && Numbers(rs) == [n] + Numbers(ss)
  {
    hide Decimal, ValueOf, PadTo, Span;
    var w, v, s := |n|, ValueOf(n), ss[0];
    var rs := [Run(w, v, s.last)] + ss[1..];
    PadToOwnWidth(n);
    JoinedRun(w, v, s);
    assert rs[1..] == ss[1..];
    LongerStaysMaximal(Run(w, v, s.last), ss);
    Assoc([n], Span(s.width, s.first, s.last), Numbers(ss[1..]));
  }

  /** Every list of digit strings is a list of maximal runs. */
  lemma {:induction false} EveryListIsRuns(nums: seq<string>) returns (rs: seq<Run>)
    requires Numerals(nums)
    ensures Maximal(rs) && Numbers(rs) == nums
    ensures rs == [] <==> nums == []
  {
    hide Decimal, ValueOf, PadTo, Numbers, Maximal;
    if nums == [] {
      rs := [];
      NoRuns();
    } else {
      var n := nums[0];
      var ss := EveryListIsRuns(nums[1..]);
      assert nums == [n] + nums[1..];
      if ss != [] && PadTo(|n|, ValueOf(n) + 1) == Lo(ss[0]) {
        rs := [Run(|n|, ValueOf(n), ss[0].last)] + ss[1..];
        LongerRun(n, ss);
      } else {
        rs := [Run(|n|, ValueOf(n), ValueOf(n))] + ss;
        NewRun(n, ss);
      }
    }
  }

  lemma NoRuns()
    ensures Maximal([]) && Numbers([]) == []
  {
  }

  lemma SpanOne(width: nat, v: nat)
    ensures Span(width, v, v) == [PadTo(width, v)]
  {
    hide PadTo;
    assert Span(width, v + 1, v) == [];
  }

  /** A number in front of a run that starts with the next one, whatever width that
      run is padded to. */
  lemma JoinedRun(width: nat, v: nat, s: Run)
    requires s.first <= s.last && PadTo(width, v + 1) == Lo(s)
    ensures s.first == v + 1
    ensures Span(width, v, s.last) == [PadTo(width, v)] + Span(s.width, s.first, s.last)
    ensures PadTo(width, s.last + 1) == PadTo(s.width, s.last + 1)
  {
    hide Decimal, ValueOf, PadTo;
    ValueOfPadTo(width, v + 1);
    ValueOfPadTo(s.width, s.first);
    var n := Lo(s);
    SpanWidthChange(width, v + 1, v + 1, s.last);
    SpanWidthChange(s.width, s.first, s.first, s.last);
    PadToWidthChange(width, v + 1, s.last + 1);
    PadToWidthChange(s.width, s.first, s.last + 1);
  }

  lemma {:induction false} LongerStaysMaximal(r: Run, ss: seq<Run>)
    requires Maximal(ss) && ss != [] && r.first <= r.last == ss[0].last
    requires PadTo(r.width, r.last + 1) == PadTo(ss[0].width, r.last + 1)
    ensures Maximal([r] + ss[1..])
  {
    hide PadTo;
    var rs := [r] + ss[1..];
    forall i | 0 <= i < |rs| - 1 ensures PadTo(rs[i].width, rs[i].last + 1) != Lo(rs[i + 1]) {
      assert rs[i + 1] == ss[i + 1];
      assert PadTo(ss[i].width, ss[i].last + 1) != Lo(ss[i + 1]);
    }
  }

  // ----- elements with one field

  function OneField(p: string, f: Field, t: string): Element {
    Parts([p, t], [f])
  }

  /** The element with each of the numbers in turn as its field `j`. */
  function Points(e: Element, j: nat, nums: seq<string>): (es: seq<Element>)
    requires j < |e.fields| && Numerals(nums)
    ensures |es| == |nums|
  {
    seq(|nums|, i requires 0 <= i < |nums| => With(e, j, Point(nums[i])))
  }

  lemma PointOfName(p: string, n: Numeral, t: string)
    requires DigitFree(p) && DigitFree(t)
    ensures Preprocess(p + n + t) == OneField(p, Point(n), t)
  {
    hide SplitName;
    JoinCons(p, n, [t], []);
    assert [p] + [t] == [p, t] && [n] + [] == [n];
    SplitOfJoin([p, t], [n]);
  }

  /** The element for names that start with `p` and end with `t`. */
  function Frame(p: string, t: string): Element {
    OneField(p, Point("0"), t)
  }

  lemma PointsOfNames(p: string, nums: seq<string>, t: string)
    requires DigitFree(p) && DigitFree(t) && Numerals(nums)
    ensures PreprocessAll(Around(p, nums, t)) == Points(Frame(p, t), 0, nums)
  {
    hide Preprocess;
    forall i | 0 <= i < |nums| ensures PreprocessAll(Around(p, nums, t))[i] == Points(Frame(p, t), 0, nums)[i] {
      PointOfName(p, nums[i], t);
    }
  }

  lemma PushPoint(e: Element, j: nat, f: Field, n: Numeral)
    requires j < |e.fields| && f != Point(n)
    ensures Push([With(e, j, f)], With(e, j, Point(n))) == [With(e, j, Absorb(f, Point(n)))]
  {
    hide Mergeable, Absorb;
    var a := With(e, j, f);
    WithMerges(a, j, Point(n));
    assert With(a, j, Point(n)) == With(e, j, Point(n));
    assert With(a, j, Absorb(f, Point(n))) == With(e, j, Absorb(f, Point(n)));
  }

  /** A range grows by the number after its last one. */
  lemma GrowingRange(f: Field, w: nat, first: nat, c: nat)
    requires first <= c && Last(f) == Range(PadTo(w, first), PadTo(w, c))
    ensures f != Point(PadTo(w, c + 1))
    ensures Absorb(f, Point(PadTo(w, c + 1))) == Front(f) + [Range(PadTo(w, first), PadTo(w, c + 1))]
  {
    hide Decimal, ValueOf, PadTo;
    ValueOfPadTo(w, c);
    ValueOfPadTo(w, c + 1);
    PadToWidthChange(w, first, c + 1);
    assert Point(PadTo(w, c + 1))[1..] == [];
  }

  lemma {:induction false} PassRun(e: Element, j: nat, f: Field, w: nat, first: nat, c: nat, last: nat,
                                   more: seq<string>)
    requires j < |e.fields| && first <= c <= last && Last(f) == Range(PadTo(w, first), PadTo(w, c)) && Numerals(more)
    ensures Numerals(Span(w, c + 1, last) + more)
    ensures PassFrom([With(e, j, f)], Points(e, j, Span(w, c + 1, last) + more)) ==
            PassFrom([With(e, j, Front(f) + [Range(PadTo(w, first), PadTo(w, last))])], Points(e, j, more))
    decreases last - c
  {
    hide PadTo, Push, PassFrom, Absorb;
    SpanNumerals(w, c + 1, last);
    var nums := Span(w, c + 1, last) + more;
    if c == last {
      assert nums == more;
      assert f == Front(f) + [Last(f)];
    } else {
      var n := PadTo(w, c + 1);
      var g := Front(f) + [Range(PadTo(w, first), n)];
      var rest := Span(w, c + 2, last) + more;
      assert nums == [n] + rest;
      GrowingRange(f, w, first, c);
      PushPoint(e, j, f, n);
      assert Front(g) == Front(f);
      PassRun(e, j, g, w, first, c + 1, last, more);
      assert Points(e, j, nums)[1..] == Points(e, j, rest);
      PassFromStep([With(e, j, f)], Points(e, j, nums));
    }
  }

  function RangeOf(r: Run): Range {
    Range(Lo(r), Hi(r))
  }

  function RangesOf(rs: seq<Run>): (f: seq<Range>)
    ensures |f| == |rs|
  {
    seq(|rs|, i requires 0 <= i < |rs| => RangeOf(rs[i]))
  }

  /** The field does not go on with the runs. */
  predicate Apart(f: Field, rs: seq<Run>) {
    rs != [] ==> f != Point(Lo(rs[0])) && PadTo(|Last(f).lo|, ValueOf(Last(f).hi) + 1) != Lo(rs[0])
  }

  lemma {:induction false} StartsRange(f: Field, rs: seq<Run>)
    requires rs != [] && Maximal(rs) && Apart(f, rs)
    ensures Absorb(f, Point(Lo(rs[0]))) == f + Point(Lo(rs[0]))
    ensures Apart(f + [RangeOf(rs[0])], rs[1..])
  {
    hide Decimal, ValueOf, PadTo;
    var r := rs[0];
    ValueOfPadTo(r.width, r.last);
    PadToWidthChange(r.width, r.first, r.last + 1);
    if |rs| > 1 {
      assert PadTo(rs[0].width, rs[0].last + 1) != Lo(rs[1]);
    }
  }

  /** A pass collects the runs. */
  lemma {:induction false} PassRuns(e: Element, j: nat, f: Field, rs: seq<Run>)
    requires j < |e.fields| && Maximal(rs) && Apart(f, rs)
    ensures Numerals(Numbers(rs))
    ensures PassFrom([With(e, j, f)], Points(e, j, Numbers(rs))) == [With(e, j, f + RangesOf(rs))]
    decreases |rs|
  {
    hide PadTo, Push, PassFrom, Absorb, Numbers, Apart, ValueOf, Span;
    NumbersAreNumerals(rs);
    var es := Points(e, j, Numbers(rs));
    PassFromStep([With(e, j, f)], es);
    if rs == [] {
      NoNumbers();
      assert f + RangesOf(rs) == f;
    } else {
      var r, n := rs[0], Lo(rs[0]);
      NumbersStep(rs);
      NumbersAreNumerals(rs[1..]);
      SpanNumerals(r.width, r.first + 1, r.last);
      var rest := Span(r.width, r.first + 1, r.last) + Numbers(rs[1..]);
      assert es[1..] == Points(e, j, rest);
      NotThePoint(f, rs);
      PushPoint(e, j, f, n);
      StartsRange(f, rs);
      var g := f + Point(n);
      PassRun(e, j, g, r.width, r.first, r.first, r.last, Numbers(rs[1..]));
      assert Front(g) == f;
      TailMaximal(rs);
      PassRuns(e, j, f + [RangeOf(r)], rs[1..]);
      assert f + [RangeOf(r)] + RangesOf(rs[1..]) == f + RangesOf(rs);
    }
  }

  lemma NoNumbers()
    ensures Numbers([]) == []
  {
  }

  lemma NotThePoint(f: Field, rs: seq<Run>)
    requires rs != [] && Apart(f, rs)
    ensures f != Point(Lo(rs[0]))
  {
  }

  lemma {:induction false} TailMaximal(rs: seq<Run>)
    requires Maximal(rs) && rs != []
    ensures Maximal(rs[1..])
  {
    hide PadTo;
    forall i | 0 <= i < |rs[1..]| - 1 ensures PadTo(rs[1..][i].width, rs[1..][i].last + 1) != Lo(rs[1..][i + 1]) {
      assert PadTo(rs[i + 1].width, rs[i + 1].last + 1) != Lo(rs[i + 2]);
    }
  }

  // ----- equal numbers at the front

  lemma EqualPoints(e: Element)
    ensures !Mergeable(e, e)
  {
  }

  lemma PushBehindOthers(front: seq<Element>, x: Element, e: Element)
    ensures Push(front + [x], e) ==
            if Mergeable(x, e) then front + [Merge(x, e)] else front + [x] + [e]
    ensures Push([x], e) == if Mergeable(x, e) then [Merge(x, e)] else [x] + [e]
  {
    hide Mergeable, Merge;
    assert Last(front + [x]) == x && Front(front + [x]) == front;
    assert Last([x]) == x && Front([x]) == [];
  }

  /** Only the last element of the result takes part in what follows. */
  lemma {:induction false} PassBehind(front: seq<Element>, x: Element, es: seq<Element>)
    ensures PassFrom(front + [x], es) == front + PassFrom([x], es)
    decreases |es|
  {
    hide Mergeable, Merge, Push, PassFrom;
    PassFromStep(front + [x], es);
    PassFromStep([x], es);
    if es != [] {
      var e := es[0];
      PushBehindOthers(front, x, e);
      if Mergeable(x, e) {
        PassBehind(front, Merge(x, e), es[1..]);
      } else {
        PassBehind(front + [x], e, es[1..]);
        PassBehind([x], e, es[1..]);
        Assoc(front, [x], PassFrom([e], es[1..]));
      }
    }
  }

  function Copies(e: Element, k: nat): (es: seq<Element>)
    ensures |es| == k
  {
    seq(k, _ => e)
  }

  /** Equal elements stay apart, and the last of them meets what follows. */
  lemma {:induction false} PassCopies(x: Element, k: nat, es: seq<Element>)
    ensures PassFrom([x], Copies(x, k) + es) == Copies(x, k) + PassFrom([x], es)
    decreases k
  {
    hide Mergeable, Push, PassFrom;
    if k == 0 {
      assert Copies(x, 0) + es == es;
      assert Copies(x, 0) + PassFrom([x], es) == PassFrom([x], es);
    } else {
      var all, rest := Copies(x, k) + es, Copies(x, k - 1) + es;
      assert all[0] == x && all[1..] == rest;
      PassFromStep([x], all);
      PushEqual(x);
      PassBehind([x], x, rest);
      PassCopies(x, k - 1, es);
      assert Copies(x, k) == [x] + Copies(x, k - 1);
      Assoc([x], Copies(x, k - 1), PassFrom([x], es));
    }
  }

  lemma PushEqual(x: Element)
    ensures Push([x], x) == [x] + [x]
  {
    hide Mergeable;
    EqualPoints(x);
  }

  /** Pass by pass, what is folded takes in the equal elements before it. */
  lemma {:induction false} FoldCopies(e: Element, j: nat, n: Numeral, k: nat, f: Field)
    requires j < |e.fields| && f[0].lo == n && f != Point(n)
    ensures Fold(Copies(With(e, j, Point(n)), k) + [With(e, j, f)]) ==
            [With(e, j, Repeated(n, k) + f)]
    decreases k
  {
    hide Mergeable, Push, PassFrom, Absorb, Fold;
    var x, y := With(e, j, Point(n)), With(e, j, f);
    var es := Copies(x, k) + [y];
    if k == 0 {
      assert es == [y];
      FoldKeepsIff(es);
      assert Repeated(n, 0) + f == f;
    } else {
      var g := Point(n) + f;
      var z := With(e, j, g);
      assert es == [x] + (Copies(x, k - 1) + [y]);
      FirstOfPass(x, Copies(x, k - 1) + [y]);
      PassCopies(x, k - 1, [y]);
      PassFromStep([x], [y]);
      PassFromStep(Push([x], y), []);
      PushBehind(e, j, n, f);
      assert [y][1..] == [];
      assert Pass(es) == Copies(x, k - 1) + [z];
      FoldStep(es);
      FoldCopies(e, j, n, k - 1, g);
      assert Repeated(n, k - 1) + g == Repeated(n, k) + f;
    }
  }

  lemma FoldStep(es: seq<Element>)
    ensures Fold(es) == if Pass(es) == es then es else Fold(Pass(es))
  {
    hide PassFrom;
  }

  lemma FirstOfPass(x: Element, es: seq<Element>)
    ensures Pass([x] + es) == PassFrom([x], es)
  {
    hide Mergeable;
    assert ([x] + es)[1..] == es;
    assert Push([], x) == [x];
  }

  function Repeated(n: Numeral, k: nat): seq<Range> {
    seq(k, _ => Range(n, n))
  }

  lemma PushBehind(e: Element, j: nat, n: Numeral, f: Field)
    requires j < |e.fields| && f[0].lo == n && f != Point(n)
    ensures Push([With(e, j, Point(n))], With(e, j, f)) == [With(e, j, Point(n) + f)]
  {
    hide Mergeable, Decimal, PadTo, ValueOf;
    var x := With(e, j, Point(n));
    WithMerges(x, j, f);
    assert With(x, j, f) == With(e, j, f);
    ValueOfPadTo(|n|, ValueOf(n) + 1);
    assert Absorb(Point(n), f) == Point(n) + f;
    assert With(x, j, Point(n) + f) == With(e, j, Point(n) + f);
  }

  // ----- what is folded, and printed

  /** How many more numbers at the front equal the first one. */
  function EqualFront(nums: seq<string>): (k: nat)
    requires nums != []
    ensures k < |nums| && forall i | 0 <= i <= k :: nums[i] == nums[0]
    ensures k + 1 < |nums| ==> nums[k + 1] != nums[0]
    decreases |nums|
  {
    if |nums| > 1 && nums[1] == nums[0] then 1 + EqualFront(nums[1..]) else 0
  }

  /** A run that starts with two equal numbers is followed by another one. */
  lemma {:induction false} EqualNumbersApart(rs: seq<Run>)
    requires Maximal(rs) && |Numbers(rs)| > 1 && Numbers(rs)[1] == Lo(rs[0])
    ensures |rs| > 1 && Hi(rs[0]) == Lo(rs[0]) == Lo(rs[1]) && Maximal(rs[1..])
    ensures Numbers(rs) == [Lo(rs[0])] + Numbers(rs[1..])
  {
    hide PadTo, Span, Numbers;
    if rs == [] {
      NoNumbers();
      assert false;
    }
    var r, rest := rs[0], rs[1..];
    NumbersStep(rs);
    if r.first < r.last {
      SecondDiffers(r);
      assert false;
    }
    PointRun(r);
    assert [] + Numbers(rest) == Numbers(rest);
    TailMaximal(rs);
    if rest == [] {
      NoNumbers();
      assert false;
    }
    FirstNumber(rest);
  }

  lemma {:induction false} RunsWithFront(rs: seq<Run>, k: nat)
    requires Maximal(rs) && rs != [] && k < |Numbers(rs)|
    requires forall i | 0 <= i <= k :: Numbers(rs)[i] == Lo(rs[0])
    ensures k < |rs| && Numbers(rs)[k..] == Numbers(rs[k..]) && Maximal(rs[k..])
    ensures RangesOf(rs) == Repeated(Lo(rs[0]), k) + RangesOf(rs[k..])
    ensures Lo(rs[k]) == Lo(rs[0])
    decreases k
  {
    hide PadTo, Span, Numbers, Maximal;
    if k == 0 {
      assert rs[0..] == rs && Numbers(rs)[0..] == Numbers(rs);
      assert RangesOf(rs) == Repeated(Lo(rs[0]), 0) + RangesOf(rs);
    } else {
      var r, rest := rs[0], rs[1..];
      EqualNumbersApart(rs);
      forall i | 0 <= i <= k - 1 ensures Numbers(rest)[i] == Lo(rest[0]) {
        assert Numbers(rs)[i + 1] == Numbers(rest)[i];
      }
      RunsWithFront(rest, k - 1);
      assert Numbers(rs)[k..] == Numbers(rest)[k - 1..];
      assert rs[k..] == rest[k - 1..];
      RangesCons(rs, k);
    }
  }

  lemma {:induction false} RangesCons(rs: seq<Run>, k: nat)
    requires 0 < k <= |rs| && Hi(rs[0]) == Lo(rs[0])
    requires RangesOf(rs[1..]) == Repeated(Lo(rs[0]), k - 1) + RangesOf(rs[k..])
    ensures RangesOf(rs) == Repeated(Lo(rs[0]), k) + RangesOf(rs[k..])
  {
    hide PadTo;
    assert RangesOf(rs) == [RangeOf(rs[0])] + RangesOf(rs[1..]);
    assert Repeated(Lo(rs[0]), k) == [RangeOf(rs[0])] + Repeated(Lo(rs[0]), k - 1);
    Assoc([RangeOf(rs[0])], Repeated(Lo(rs[0]), k - 1), RangesOf(rs[k..]));
  }

  lemma {:induction false} FirstNumber(rs: seq<Run>)
    requires rs != [] && Maximal(rs)
    ensures Numbers(rs) != [] && Numbers(rs)[0] == Lo(rs[0])
  {
    NumbersStep(rs);
  }

  lemma PointRun(r: Run)
    requires r.first >= r.last
    ensures Span(r.width, r.first + 1, r.last) == []
  {
  }

  lemma SecondDiffers(r: Run)
    requires r.first < r.last
    ensures Lo(r) != PadTo(r.width, r.first + 1)
    ensures |Span(r.width, r.first + 1, r.last)| > 0
    ensures Span(r.width, r.first + 1, r.last)[0] == PadTo(r.width, r.first + 1)
  {
    if Lo(r) == PadTo(r.width, r.first + 1) {
      PadToInjective(r.width, r.first, r.first + 1);
    }
  }

  lemma {:induction false} LeavesPoint(rs: seq<Run>)
    requires Maximal(rs) && rs != [] && |Numbers(rs)| > 1 && Numbers(rs)[1] != Lo(rs[0])
    ensures Apart([RangeOf(rs[0])], rs[1..]) && RangesOf(rs) != Point(Lo(rs[0]))
  {
    hide PadTo, Span, Numbers, ValueOf;
    var r, rest := rs[0], rs[1..];
    NumbersStep(rs);
    ValueOfPadTo(r.width, r.first);
    ValueOfPadTo(r.width, r.last);
    PadToWidthChange(r.width, r.first, r.last + 1);
    if r.first == r.last {
      PointRun(r);
      assert Numbers(rs) == [Lo(r)] + Numbers(rest);
      if rest == [] {
        NoNumbers();
        assert false;
      }
      TailMaximal(rs);
      FirstNumber(rest);
    }
    if rest != [] {
      assert PadTo(rs[0].width, rs[0].last + 1) != Lo(rs[1]);
    }
    assert RangesOf(rs)[0] == RangeOf(r);
  }

  /** The pass over a list of numbers of which the first two differ. */
  lemma {:induction false} PassOfNumbers(e: Element, j: nat, rs: seq<Run>)
    requires j < |e.fields| && Maximal(rs) && rs != [] && |Numbers(rs)| > 1 && Numbers(rs)[1] != Lo(rs[0])
    ensures Numerals(Numbers(rs)[1..])
    ensures PassFrom([With(e, j, Point(Lo(rs[0])))], Points(e, j, Numbers(rs)[1..])) ==
            [With(e, j, RangesOf(rs))]
  {
    hide PadTo, Span, Numbers, PassFrom, ValueOf;
    var r, rest := rs[0], rs[1..];
    NumbersStep(rs);
    TailMaximal(rs);
    NumbersAreNumerals(rest);
    SpanNumerals(r.width, r.first + 1, r.last);
    assert Numbers(rs)[1..] == Span(r.width, r.first + 1, r.last) + Numbers(rest);
    PassRun(e, j, Point(Lo(r)), r.width, r.first, r.first, r.last, Numbers(rest));
    assert Front(Point(Lo(r))) + [RangeOf(r)] == [RangeOf(r)];
    LeavesPoint(rs);
    PassRuns(e, j, [RangeOf(r)], rest);
    assert [RangeOf(r)] + RangesOf(rest) == RangesOf(rs);
  }

  ghost predicate AllEqual(nums: seq<string>) {
    forall i | 0 <= i < |nums| :: nums[i] == nums[0]
  }

  lemma {:induction false} PointsSplit(e: Element, j: nat, nums: seq<string>, k: nat)
    requires j < |e.fields| && Numerals(nums) && k < |nums| && forall i | 0 <= i <= k :: nums[i] == nums[0]
    ensures var x := With(e, j, Point(nums[0]));
            Points(e, j, nums) == [x] + (Copies(x, k) + Points(e, j, nums[k..][1..]))
  {
    var x := With(e, j, Point(nums[0]));
    var all := [x] + (Copies(x, k) + Points(e, j, nums[k..][1..]));
    forall i | 0 <= i < |nums| ensures Points(e, j, nums)[i] == all[i] {
      if i > k {
        assert nums[k..][1..][i - k - 1] == nums[i];
      }
    }
  }

  lemma {:induction false} FoldOfNumbers(e: Element, j: nat, rs: seq<Run>)
    requires j < |e.fields| && Maximal(rs) && rs != [] && !AllEqual(Numbers(rs))
    ensures Numerals(Numbers(rs)) && Fold(Points(e, j, Numbers(rs))) == [With(e, j, RangesOf(rs))]
  {
    hide PadTo, Span, Numbers, PassFrom, ValueOf, Fold, Points;
    var nums := Numbers(rs);
    NumbersAreNumerals(rs);
    FirstNumber(rs);
    var k := EqualFront(nums);
    assert k + 1 < |nums|;
    RunsWithFront(rs, k);
    var n, tail := Lo(rs[0]), rs[k..];
    var x := With(e, j, Point(n));
    LeavesPoint(tail);
    PassOfNumbers(e, j, tail);
    PointsSplit(e, j, nums, k);
    FirstOfPass(x, Copies(x, k) + Points(e, j, nums[k..][1..]));
    PassCopies(x, k, Points(e, j, nums[k..][1..]));
    FoldStep(Points(e, j, nums));
    assert RangesOf(tail)[0] == RangeOf(tail[0]);
    FoldCopies(e, j, n, k, RangesOf(tail));
  }

  lemma {:induction false} FoldOfEqual(e: Element, j: nat, nums: seq<string>)
    requires j < |e.fields| && Numerals(nums) && AllEqual(nums)
    ensures Fold(Points(e, j, nums)) == Points(e, j, nums)
  {
    hide Fold, Mergeable;
    var es := Points(e, j, nums);
    forall i | 0 <= i < |es| - 1 ensures !Mergeable(es[i], es[i + 1]) {
      EqualPoints(es[i]);
    }
    FoldKeepsIff(es);
  }

  // ----- printing

  lemma FormatRangeOf(r: Run)
    requires r.first <= r.last
    ensures FormatRange(RangeOf(r)) == RunText(r)
  {
    hide PadTo, ValueOf;
    ValueOfPadTo(r.width, r.first);
    ValueOfPadTo(r.width, r.last);
    PadToWidthChange(r.width, r.first, r.last);
  }

  lemma {:induction false} FormatRanges(rs: seq<Run>)
    requires rs != [] && forall i | 0 <= i < |rs| :: rs[i].first <= rs[i].last
    ensures FormatRangeList(RangesOf(rs)) == RunsText(rs)
  {
    hide RunText, FormatRange;
    FormatRangeOf(rs[0]);
    if |rs| > 1 {
      FormatRanges(rs[1..]);
      assert RangesOf(rs)[1..] == RangesOf(rs[1..]);
    }
  }

  lemma FormatOneField(p: string, f: Field, t: string)
    ensures FormatElement(OneField(p, f, t)) == p + FormatField(f) + t
  {
    hide FormatField;
    var e := OneField(p, f, t);
    assert Folding.Tail(e).fields == [] && Folding.Tail(e).texts[0] == t;
  }

  function CommaList(names: seq<string>): string {
    if names == [] then "" else names[0] + (if |names| > 1 then "," else "") + CommaList(names[1..])
  }

  lemma FormatPoint(n: Numeral)
    ensures FormatField(Point(n)) == n
  {
  }

  lemma {:induction false} FormatPoints(p: string, nums: seq<string>, t: string)
    requires Numerals(nums)
    ensures FormatList(Points(Frame(p, t), 0, nums)) == CommaList(Around(p, nums, t))
  {
    hide FormatElement, FormatField;
    if nums != [] {
      var rest := nums[1..];
      FormatOneField(p, Point(nums[0]), t);
      FormatPoint(nums[0]);
      FormatPoints(p, rest, t);
      assert Points(Frame(p, t), 0, nums)[1..] == Points(Frame(p, t), 0, rest);
      assert Points(Frame(p, t), 0, nums)[0] == OneField(p, Point(nums[0]), t);
      assert Around(p, nums, t)[1..] == Around(p, rest, t);
    }
  }

  lemma BracketText(p: string, f: string, t: string)
    ensures p + ("[" + f + "]") + t == p + "[" + f + "]" + t
  {
  }

  lemma OneElement(e: Element)
    ensures FormatList([e]) == FormatElement(e)
  {
    hide FormatElement;
  }

  lemma {:induction false} CompressedRuns(p: string, t: string, rs: seq<Run>)
    requires DigitFree(p) && DigitFree(t) && Maximal(rs) && rs != [] && !AllEqual(Numbers(rs))
    ensures Compressed(Around(p, Numbers(rs), t)) == p + "[" + RunsText(rs) + "]" + t
  {
    hide Fold, Numbers, FormatElement, FormatField, FormatList, Points, RangesOf, RunsText;
    hide AllEqual, Maximal, DigitFree, PreprocessAll;
    NumbersAreNumerals(rs);
    PointsOfNames(p, Numbers(rs), t);
    FoldOfNumbers(Frame(p, t), 0, rs);
    assert With(Frame(p, t), 0, RangesOf(rs)) == OneField(p, RangesOf(rs), t);
    OneElement(OneField(p, RangesOf(rs), t));
    FormatOneField(p, RangesOf(rs), t);
    FormatRuns(rs);
    BracketText(p, RunsText(rs), t);
  }

  lemma {:induction false} CompressedEqual(p: string, t: string, nums: seq<string>)
    requires DigitFree(p) && DigitFree(t) && Numerals(nums) && AllEqual(nums)
    ensures Compressed(Around(p, nums, t)) == CommaList(Around(p, nums, t))
  {
    hide Fold, FormatElement, FormatList, CommaList, Points, AllEqual, DigitFree, PreprocessAll;
    PointsOfNames(p, nums, t);
    FoldOfEqual(Frame(p, t), 0, nums);
    FormatPoints(p, nums, t);
  }

  /** What is printed for a list of names that differ in one number: the names, if
      they are all equal, and else the maximal runs of the numbers, in brackets. */
  lemma {:induction false} CompressedNumbers(p: string, t: string, rs: seq<Run>)
    requires DigitFree(p) && DigitFree(t) && Maximal(rs) && rs != []
    ensures var names := Around(p, Numbers(rs), t);
            Compressed(names) ==
            if AllEqual(Numbers(rs)) then CommaList(names) else p + "[" + RunsText(rs) + "]" + t
  {
    hide Compressed, Numbers, CommaList, RunsText, AllEqual, Maximal, DigitFree, Around;
    if AllEqual(Numbers(rs)) {
      NumbersAreNumerals(rs);
      CompressedEqual(p, t, Numbers(rs));
    } else {
      CompressedRuns(p, t, rs);
    }
  }

  lemma {:induction false} FormatRuns(rs: seq<Run>)
    requires Maximal(rs) && rs != [] && !AllEqual(Numbers(rs))
    ensures FormatField(RangesOf(rs)) == "[" + RunsText(rs) + "]"
  {
    hide PadTo, Span, Numbers, ValueOf;
    FormatRanges(rs);
    var r := rs[0];
    ValueOfPadTo(r.width, r.first);
    ValueOfPadTo(r.width, r.last);
    if |rs| == 1 && r.first == r.last {
      NumbersStep(rs);
      PointRun(r);
      assert rs[1..] == [];
      NoNumbers();
      assert false;
    }
  }

  lemma SpanStep(width: nat, a: nat, b: nat)
    requires a <= b
    ensures Span(width, a, b) == [PadTo(width, a)] + Span(width, a + 1, b)
  {
  }

  lemma {:induction false} SpanIs(width: nat, a: nat, b: nat, i: nat)
    requires a + i <= b
    ensures Span(width, a, b)[i] == PadTo(width, a + i)
    decreases i
  {
    hide PadTo;
    SpanStep(width, a, b);
    if i > 0 {
      SpanIs(width, a + 1, b, i - 1);
    }
  }

  predicate Changing(nums: seq<string>) {
    forall i | 0 <= i < |nums| - 1 :: nums[i] != nums[i + 1]
  }

  lemma {:induction false} ChangingDiffers(nums: seq<string>)
    requires Changing(nums) && |nums| > 1
    ensures !AllEqual(nums) && nums[0] != nums[1]
  {
    assert nums[0] != nums[0 + 1];
  }

  lemma {:induction false} OneRun(width: nat, a: nat, b: nat)
    requires a < b
    ensures var rs := [Run(width, a, b)];
            Maximal(rs) && Numbers(rs) == Span(width, a, b) && |Numbers(rs)| > 1 && Changing(Numbers(rs))
    ensures RunsText([Run(width, a, b)]) ==
            PadTo(width, a) + (if b == a + 1 then "," else "-") + PadTo(width, b)
  {
    hide PadTo;
    var r := Run(width, a, b);
    assert [r][1..] == [];
    assert Numbers([r]) == Span(width, a, b) + [] == Span(width, a, b);
    forall i | 0 <= i < b - a ensures Span(width, a, b)[i] != Span(width, a, b)[i + 1] {
      SpanIs(width, a, b, i);
      SpanIs(width, a, b, i + 1);
      if PadTo(width, a + i) == PadTo(width, a + i + 1) {
        PadToInjective(width, a + i, a + i + 1);
      }
    }
    assert RunsText([r]) == RunText(r) + "" + "" == RunText(r);
  }

  /** Two consecutive numbers are listed, more are a range, with the zeros they have. */
  lemma {:induction false} CompressedRun(p: string, t: string, width: nat, a: nat, b: nat)
    requires DigitFree(p) && DigitFree(t) && a < b
    ensures Compressed(Around(p, Span(width, a, b), t)) ==
            p + "[" + PadTo(width, a) + (if b == a + 1 then "," else "-") + PadTo(width, b) + "]" + t
  {
    hide Compressed, Span, PadTo, Numbers;
    var rs := [Run(width, a, b)];
    OneRun(width, a, b);
    ChangingDiffers(Numbers(rs));
    CompressedNumbers(p, t, rs);
    var lo, hi, dash := PadTo(width, a), PadTo(width, b), if b == a + 1 then "," else "-";
    assert p + "[" + (lo + dash + hi) + "]" + t == p + "[" + lo + dash + hi + "]" + t;
  }
}
