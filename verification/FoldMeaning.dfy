/** What folding does to the names a list stands for. */
module FoldMeaning {
  import opened Decimals
  import opened HostNames
  import opened Folding
  import opened Expansion
  import opened PrintParse
  import opened Sequences

  // ----- well-formed elements

  predicate Rising(r: Range) {
    ValueOf(r.lo) <= ValueOf(r.hi)
  }

  ghost predicate Varied(f: Field) {
    exists x, y :: x in FieldValues(f) && y in FieldValues(f) && x != y
  }

  /** A field that stands for one value only is a single, degenerate range. */
  ghost predicate GoodField(f: Field) {
    && (forall i | 0 <= i < |f| :: Rising(f[i]))
    && (f == [Range(f[0].lo, f[0].lo)] || Varied(f))
  }

  ghost predicate WellFormed(e: Element) {
    && Separators(e.texts)
    && forall k | 0 <= k < |e.fields| :: GoodField(e.fields[k])
  }

  ghost predicate AllWellFormed(es: seq<Element>) {
    forall i | 0 <= i < |es| :: WellFormed(es[i])
  }

  lemma PointValues(n: Numeral)
    ensures FieldValues([Range(n, n)]) == [n]
  {
    PadToOwnWidth(n);
    var v := ValueOf(n);
    assert Span(|n|, v, v) == [n] + Span(|n|, v + 1, v) == [n];
    var f := [Range(n, n)];
    assert f[1..] == [];
  }

  lemma {:induction false} SpanNumerals(width: nat, a: nat, b: nat)
    ensures Numerals(Span(width, a, b))
    decreases b + 1 - a
  {
    if a <= b {
      SpanNumerals(width, a + 1, b);
    }
  }

  lemma {:induction false} FieldValuesNumerals(f: seq<Range>)
    ensures Numerals(FieldValues(f))
  {
    if f != [] {
      SpanNumerals(|f[0].lo|, ValueOf(f[0].lo), ValueOf(f[0].hi));
      FieldValuesNumerals(f[1..]);
    }
  }

  lemma GoodFieldNonEmpty(f: Field)
    requires GoodField(f)
    ensures FieldValues(f) != []
  {
    assert FieldValues(f) == RangeValues(f[0]) + FieldValues(f[1..]);
  }

  /** Two different well-formed fields offer two different values. */
  lemma DifferentFields(f: Field, g: Field) returns (x: string, y: string)
    requires GoodField(f) && GoodField(g) && f != g
    ensures x in FieldValues(f) && y in FieldValues(g) && x != y
  {
    GoodFieldNonEmpty(f);
    GoodFieldNonEmpty(g);
    x, y := FieldValues(f)[0], FieldValues(g)[0];
    if x == y {
      if Varied(f) {
        x :| x in FieldValues(f) && x != y;
      } else if Varied(g) {
        y :| y in FieldValues(g) && y != x;
      } else {
        PointValues(f[0].lo);
        PointValues(g[0].lo);
        assert false;
      }
    }
  }

  // ----- absorbing a field

  lemma {:induction false} FieldValuesConcat(f: seq<Range>, g: seq<Range>)
    ensures FieldValues(f + g) == FieldValues(f) + FieldValues(g)
  {
    if f == [] {
      assert f + g == g;
    } else {
      assert (f + g)[1..] == f[1..] + g;
      FieldValuesConcat(f[1..], g);
    }
  }

  lemma {:induction false} SpanConcat(width: nat, a: nat, b: nat, c: nat)
    requires a <= b + 1 && b <= c
    ensures Span(width, a, b) + Span(width, b + 1, c) == Span(width, a, c)
    decreases b + 1 - a
  {
    if a <= b {
      SpanConcat(width, a + 1, b, c);
    }
  }

  lemma {:induction false} SpanWidthChange(width: nat, n: nat, a: nat, b: nat)
    requires n <= a
    ensures Span(|PadTo(width, n)|, a, b) == Span(width, a, b)
    decreases b + 1 - a
  {
    if a <= b {
      PadToWidthChange(width, n, a);
      SpanWidthChange(width, n, a + 1, b);
    }
  }

  /** Joining two ranges keeps the numerals, although the second one's own
      padding width is forgotten. */
  lemma JoinedRangeValues(r: Range, s: Range)
    requires Rising(r) && Rising(s) && Joinable(r, s)
    ensures Rising(Range(r.lo, s.hi))
    ensures RangeValues(Range(r.lo, s.hi)) == RangeValues(r) + RangeValues(s)
  {
    hide Decimal, ValueOf, Span;
    var w, a, b, c := |r.lo|, ValueOf(r.lo), ValueOf(r.hi), ValueOf(s.hi);
    ValueOfPadTo(w, b + 1);
    assert s.lo == PadTo(w, b + 1) && ValueOf(s.lo) == b + 1;
    SpanWidthChange(w, b + 1, b + 1, c);
    assert RangeValues(s) == Span(w, b + 1, c);
    SpanConcat(w, a, b, c);
  }

  lemma FieldValuesOne(r: Range)
    ensures FieldValues([r]) == RangeValues(r)
  {
    assert [r][1..] == [];
  }

  lemma FieldValuesMiddle(f: seq<Range>, r: Range, g: seq<Range>)
    ensures FieldValues(f + [r] + g) == FieldValues(f) + RangeValues(r) + FieldValues(g)
  {
    FieldValuesConcat(f + [r], g);
    FieldValuesConcat(f, [r]);
    FieldValuesOne(r);
  }

  lemma {:induction false} JoinValues(f: seq<Range>, r: Range, s: Range, g: seq<Range>)
    requires Rising(r) && Rising(s) && Joinable(r, s)
    ensures FieldValues(f + [Range(r.lo, s.hi)] + g) == FieldValues(f + [r]) + FieldValues([s] + g)
  {
    FieldValuesMiddle(f, Range(r.lo, s.hi), g);
    FieldValuesConcat(f, [r]);
    FieldValuesConcat([s], g);
    FieldValuesOne(r);
    FieldValuesOne(s);
    JoinedRangeValues(r, s);
    Regroup(FieldValues(f), RangeValues(r), RangeValues(s), FieldValues(g));
  }

  lemma {:induction false} AbsorbValues(cur: Field, test: Field)
    requires Rising(Last(cur)) && Rising(test[0])
    ensures FieldValues(Absorb(cur, test)) == FieldValues(cur) + FieldValues(test)
  {
    var f, r, s, g := Front(cur), Last(cur), test[0], test[1..];
    assert cur == f + [r] && test == [s] + g;
    if Joinable(r, s) {
      JoinValues(f, r, s, g);
      assert Absorb(cur, test) == f + [Range(r.lo, s.hi)] + g;
    } else {
      FieldValuesConcat(cur, test);
      assert Absorb(cur, test) == cur + test;
    }
  }

  lemma AbsorbRising(cur: Field, test: Field)
    requires forall i | 0 <= i < |cur| :: Rising(cur[i])
    requires forall i | 0 <= i < |test| :: Rising(test[i])
    ensures var f := Absorb(cur, test); forall i | 0 <= i < |f| :: Rising(f[i])
  {
    hide ValueOf, Decimal, PadTo;
    if Joinable(Last(cur), test[0]) {
      JoinedRangeValues(Last(cur), test[0]);
    }
  }

  lemma AbsorbGood(cur: Field, test: Field)
    requires GoodField(cur) && GoodField(test) && cur != test
    ensures GoodField(Absorb(cur, test))
  {
    AbsorbRising(cur, test);
    var x, y := DifferentFields(cur, test);
    AbsorbValues(cur, test);
    var vs := FieldValues(Absorb(cur, test));
    assert x in vs && y in vs;
    assert Varied(Absorb(cur, test));
  }

  // ----- merging elements

  /** What the zip comparison establishes: below the shorter length exactly one
      field differs, and no text. */
  lemma MergeableMeaning(a: Element, b: Element)
    requires Mergeable(a, b)
    ensures var k := MergeField(a, b);
            && a.fields[k] != b.fields[k]
            && (forall j | 0 <= j < |a.fields| && j < |b.fields| && j != k :: a.fields[j] == b.fields[j])
            && (forall j | 0 <= j < |a.texts| && j < |b.texts| :: a.texts[j] == b.texts[j])
  {
    var k, ds := MergeField(a, b), DiffsFrom(a, b, 0);
    assert ds == [2 * k + 1];
    assert PartsDiffer(a, b, ds[0]);
    forall j | 0 <= j < |a.fields| && j < |b.fields| && j != k ensures a.fields[j] == b.fields[j] {
      assert 2 * j + 1 !in ds;
      assert !PartsDiffer(a, b, 2 * j + 1);
    }
    forall j | 0 <= j < |a.texts| && j < |b.texts| ensures a.texts[j] == b.texts[j] {
      assert 2 * j !in ds;
      assert !PartsDiffer(a, b, 2 * j);
    }
  }

  lemma MergeWellFormed(a: Element, b: Element)
    requires WellFormed(a) && WellFormed(b) && Mergeable(a, b)
    ensures WellFormed(Merge(a, b))
  {
    MergeableMeaning(a, b);
    AbsorbGood(a.fields[MergeField(a, b)], b.fields[MergeField(a, b)]);
  }

  // ----- multisets of names

  lemma PrefixCons(p: string, y: string, ss: seq<string>)
    ensures Prefix(p, [y] + ss) == [p + y] + Prefix(p, ss)
  {
  }

  lemma CutPrefix(p: string, x: string, y: string)
    ensures p <= x && x[|p|..] == y <==> x == p + y
  {
    if p <= x && x[|p|..] == y {
      assert x == x[..|p|] + x[|p|..];
    }
  }

  lemma {:induction false} PrefixCount(p: string, ss: seq<string>, x: string)
    ensures multiset(Prefix(p, ss))[x] == if p <= x then multiset(ss)[x[|p|..]] else 0
  {
    hide Prefix;
    if ss == [] {
      assert Prefix(p, ss) == [];
    } else {
      var y, rest := ss[0], ss[1..];
      assert ss == [y] + rest;
      PrefixCount(p, rest, x);
      PrefixCons(p, y, rest);
      CutPrefix(p, x, y);
      assert multiset(ss) == multiset{y} + multiset(rest);
      assert multiset(Prefix(p, ss)) == multiset{p + y} + multiset(Prefix(p, rest));
    }
  }

  lemma PrefixSum(p: string, t: seq<string>, u: seq<string>, v: seq<string>)
    requires multiset(t) == multiset(u) + multiset(v)
    ensures multiset(Prefix(p, t)) == multiset(Prefix(p, u)) + multiset(Prefix(p, v))
  {
    forall x ensures multiset(Prefix(p, t))[x] == multiset(Prefix(p, u))[x] + multiset(Prefix(p, v))[x] {
      PrefixCount(p, t, x);
      PrefixCount(p, u, x);
      PrefixCount(p, v, x);
    }
  }

  /** The product distributes over its tails, up to order. */
  lemma {:induction false} ChooseTailSum(heads: seq<string>, t: seq<string>, u: seq<string>, v: seq<string>)
    requires multiset(t) == multiset(u) + multiset(v)
    ensures multiset(Choose(heads, t)) == multiset(Choose(heads, u)) + multiset(Choose(heads, v))
  {
    if heads != [] {
      PrefixSum(heads[0], t, u, v);
      ChooseTailSum(heads[1..], t, u, v);
    }
  }

  /** The product distributes over its heads, in order. */
  lemma {:induction false} ChooseHeadConcat(g: seq<string>, h: seq<string>, tails: seq<string>)
    ensures Choose(g + h, tails) == Choose(g, tails) + Choose(h, tails)
  {
    if g == [] {
      assert g + h == h;
    } else {
      assert (g + h)[1..] == g[1..] + h;
      ChooseHeadConcat(g[1..], h, tails);
    }
  }

  ghost predicate DiffersOnlyAt(k: nat, a: Element, b: Element) {
    && k < |a.fields| && |a.fields| == |b.fields|
    && a.texts == b.texts
    && forall j | 0 <= j < |a.fields| && j != k :: a.fields[j] == b.fields[j]
  }

  /** If the first field is the one that grew, the names keep their order. */
  lemma FirstFieldSum(a: Element, b: Element, c: Element)
    requires DiffersOnlyAt(0, a, b) && DiffersOnlyAt(0, a, c)
    requires FieldValues(c.fields[0]) == FieldValues(a.fields[0]) + FieldValues(b.fields[0])
    ensures Names(c) == Names(a) + Names(b)
  {
    assert Folding.Tail(a) == Folding.Tail(b) == Folding.Tail(c);
    ChooseHeadConcat(FieldValues(a.fields[0]), FieldValues(b.fields[0]), Names(Folding.Tail(a)));
  }

  lemma NamesStep(e: Element)
    requires e.fields != []
    ensures Names(e) == Prefix(e.texts[0], Choose(FieldValues(e.fields[0]), Names(Folding.Tail(e))))
  {
    hide Choose, FieldValues;
  }

  lemma {:induction false} FieldSum(k: nat, a: Element, b: Element, c: Element)
    requires DiffersOnlyAt(k, a, b) && DiffersOnlyAt(k, a, c)
    requires FieldValues(c.fields[k]) == FieldValues(a.fields[k]) + FieldValues(b.fields[k])
    ensures multiset(Names(c)) == multiset(Names(a)) + multiset(Names(b))
    decreases k
  {
    hide Names, Choose, FieldValues;
    if k == 0 {
      FirstFieldSum(a, b, c);
    } else {
      NamesStep(a);
      NamesStep(b);
      NamesStep(c);
      var a', b', c' := Folding.Tail(a), Folding.Tail(b), Folding.Tail(c);
      FieldSum(k - 1, a', b', c');
      var heads := FieldValues(a.fields[0]);
      ChooseTailSum(heads, Names(c'), Names(a'), Names(b'));
      PrefixSum(a.texts[0], Choose(heads, Names(c')), Choose(heads, Names(a')), Choose(heads, Names(b')));
    }
  }

  lemma MergeDiffers(a: Element, b: Element)
    requires Mergeable(a, b) && |a.fields| == |b.fields|
    ensures DiffersOnlyAt(MergeField(a, b), a, b) && DiffersOnlyAt(MergeField(a, b), a, Merge(a, b))
  {
    MergeableMeaning(a, b);
  }

  /** Merging two elements of equally many fields neither loses nor invents a
      name, nor changes how often one occurs. */
  lemma {:induction false} MergeNames(a: Element, b: Element)
    requires WellFormed(a) && WellFormed(b) && Mergeable(a, b) && |a.fields| == |b.fields|
    ensures multiset(Names(Merge(a, b))) == multiset(Names(a)) + multiset(Names(b))
  {
    var k := MergeField(a, b);
    MergeDiffers(a, b);
    AbsorbValues(a.fields[k], b.fields[k]);
    FieldSum(k, a, b, Merge(a, b));
  }

  lemma {:induction false} AllNamesConcat(es: seq<Element>, fs: seq<Element>)
    ensures AllNames(es + fs) == AllNames(es) + AllNames(fs)
  {
    if es == [] {
      assert es + fs == fs;
    } else {
      assert (es + fs)[1..] == es[1..] + fs;
      AllNamesConcat(es[1..], fs);
    }
  }

  lemma AllNamesOne(e: Element)
    ensures AllNames([e]) == Names(e)
  {
    assert AllNames([e]) == Names(e) + AllNames([]);
  }

  lemma AllNamesFrontLast(es: seq<Element>)
    requires es != []
    ensures AllNames(es) == AllNames(Front(es)) + Names(Last(es))
  {
    assert es == Front(es) + [Last(es)];
    AllNamesConcat(Front(es), [Last(es)]);
    AllNamesOne(Last(es));
  }

  // ----- picking names out of an element

  ghost predicate Picks(e: Element, nums: seq<string>) {
    |nums| == |e.fields| && forall k | 0 <= k < |nums| :: nums[k] in FieldValues(e.fields[k])
  }

  lemma {:induction false} InChoose(heads: seq<string>, tails: seq<string>, h: string, t: string)
    requires h in heads && t in tails
    ensures h + t in Choose(heads, tails)
  {
    if h == heads[0] {
      var i :| 0 <= i < |tails| && tails[i] == t;
      assert Prefix(h, tails)[i] == h + t;
    } else {
      InChoose(heads[1..], tails, h, t);
    }
  }

  lemma {:induction false} FromChoose(heads: seq<string>, tails: seq<string>, x: string)
      returns (h: string, t: string)
    requires x in Choose(heads, tails)
    ensures h in heads && t in tails && x == h + t
  {
    if x in Prefix(heads[0], tails) {
      var i :| 0 <= i < |tails| && Prefix(heads[0], tails)[i] == x;
      h, t := heads[0], tails[i];
    } else {
      h, t := FromChoose(heads[1..], tails, x);
    }
  }

  lemma {:induction false} PickIsName(e: Element, nums: seq<string>)
    requires Picks(e, nums)
    ensures JoinName(e.texts, nums) in Names(e)
    decreases |nums|
  {
    if nums != [] {
      var rest := Folding.Tail(e);
      PickIsName(rest, nums[1..]);
      var tails := Choose(FieldValues(e.fields[0]), Names(rest));
      var t := JoinName(rest.texts, nums[1..]);
      InChoose(FieldValues(e.fields[0]), Names(rest), nums[0], t);
      var i :| 0 <= i < |tails| && tails[i] == nums[0] + t;
      assert Prefix(e.texts[0], tails)[i] == e.texts[0] + (nums[0] + t) == e.texts[0] + nums[0] + t;
    }
  }

  /** A name of an element consists of its first text, a value of its first
      field and a name of the rest. */
  lemma NameParted(e: Element, name: string) returns (h: string, t: string)
    requires e.fields != [] && name in Names(e)
    ensures h in FieldValues(e.fields[0]) && t in Names(Folding.Tail(e)) && name == e.texts[0] + h + t
  {
    var tails := Choose(FieldValues(e.fields[0]), Names(Folding.Tail(e)));
    assert Names(e) == Prefix(e.texts[0], tails);
    var i :| 0 <= i < |tails| && Prefix(e.texts[0], tails)[i] == name;
    h, t := FromChoose(FieldValues(e.fields[0]), Names(Folding.Tail(e)), tails[i]);
    assert e.texts[0] + h + t == e.texts[0] + (h + t);
  }

  lemma PicksCons(e: Element, h: string, ns: seq<string>)
    requires e.fields != [] && h in FieldValues(e.fields[0]) && Picks(Folding.Tail(e), ns)
    ensures Picks(e, [h] + ns)
    ensures JoinName(e.texts, [h] + ns) == e.texts[0] + h + JoinName(e.texts[1..], ns)
  {
    forall k | 0 <= k < |e.fields| ensures ([h] + ns)[k] in FieldValues(e.fields[k]) {
      if k > 0 {
        assert ns[k - 1] in FieldValues(Folding.Tail(e).fields[k - 1]);
      }
    }
    JoinCons(e.texts[0], h, e.texts[1..], ns);
    assert e.texts == [e.texts[0]] + e.texts[1..];
  }

  lemma {:induction false} NameIsPick(e: Element, name: string) returns (nums: seq<string>)
    requires name in Names(e)
    ensures Picks(e, nums) && JoinName(e.texts, nums) == name
    decreases |e.fields|
  {
    if e.fields == [] {
      nums := [];
    } else {
      var h, t := NameParted(e, name);
      var ns := NameIsPick(Folding.Tail(e), t);
      nums := [h] + ns;
      PicksCons(e, h, ns);
    }
  }

  /** A picked name splits back into the element's texts and the picks. */
  lemma SplitOfPick(e: Element, nums: seq<string>)
    requires Separators(e.texts) && Picks(e, nums)
    ensures SplitName(JoinName(e.texts, nums)) == NameParts(e.texts, nums)
  {
    forall k | 0 <= k < |nums| ensures IsNumeral(nums[k]) {
      FieldValuesNumerals(e.fields[k]);
    }
    SplitOfJoin(e.texts, nums);
  }

  /** Every name of an element has the element's texts. */
  lemma NameShape(e: Element, name: string)
    requires Separators(e.texts) && name in Names(e)
    ensures SplitName(name).texts == e.texts
  {
    var nums := NameIsPick(e, name);
    SplitOfPick(e, nums);
  }
}
