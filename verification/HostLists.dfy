/** The laws of folding and unfolding host lists. */
module HostLists {
  import opened Decimals
  import opened HostNames
  import opened Folding
  import opened Expansion
  import opened PrintParse
  import opened FoldMeaning
  import opened Sequences

  // ----- when the truncating zip is dangerous

  /** As far as the shorter one goes, the names look alike but for group `k`. */
  ghost predicate DifferOnlyAt(a: NameParts, b: NameParts, k: nat) {
    && k < |a.nums| && k < |b.nums| && a.nums[k] != b.nums[k]
    && (forall j | 0 <= j < |a.nums| && j < |b.nums| && j != k :: a.nums[j] == b.nums[j])
    && (forall j | 0 <= j < |a.texts| && j < |b.texts| :: a.texts[j] == b.texts[j])
  }

  /** Two names with different numbers of digit groups that differ in one group
      where they overlap: a1b and a2b3. */
  ghost predicate Hazard(p: string, q: string) {
    && Groups(p) != Groups(q)
    && exists k :: DifferOnlyAt(SplitName(p), SplitName(q), k)
  }

  ghost predicate HazardFree(names: seq<string>) {
    forall p, q | p in names && q in names :: !Hazard(p, q)
  }

  ghost predicate AllClean(names: seq<string>) {
    forall i | 0 <= i < |names| :: Clean(names[i])
  }

  /** Picks for `a` and `b` that agree wherever the fields do. */
  lemma MatchingPicks(a: Element, b: Element, k: nat, x: string, y: string) returns (s: seq<string>, t: seq<string>)
    requires WellFormed(a) && WellFormed(b)
    requires k < |a.fields| && k < |b.fields|
    requires x in FieldValues(a.fields[k]) && y in FieldValues(b.fields[k])
    ensures Picks(a, s) && Picks(b, t) && s[k] == x && t[k] == y
    ensures forall j | 0 <= j < |s| && j < |t| && j != k :: a.fields[j] == b.fields[j] ==> s[j] == t[j]
  {
    s := FirstPicks(a)[k := x];
    t := FirstPicks(b)[k := y];
  }

  function FirstPicks(e: Element): (s: seq<string>)
    ensures |s| == |e.fields|
    ensures WellFormed(e) ==> Picks(e, s)
    ensures forall k | 0 <= k < |s| :: FieldValues(e.fields[k]) != [] ==> s[k] == FieldValues(e.fields[k])[0]
  {
    assert WellFormed(e) ==> forall k | 0 <= k < |e.fields| :: FieldValues(e.fields[k]) != [] by {
      if WellFormed(e) {
        forall k | 0 <= k < |e.fields| ensures FieldValues(e.fields[k]) != [] {
          GoodFieldNonEmpty(e.fields[k]);
        }
      }
    }
    seq(|e.fields|, k requires 0 <= k < |e.fields| =>
      var vs := FieldValues(e.fields[k]); if vs == [] then "" else vs[0])
  }

  lemma {:induction false} PicksAreHazard(a: Element, b: Element, s: seq<string>, t: seq<string>, k: nat)
    requires Separators(a.texts) && Separators(b.texts) && Picks(a, s) && Picks(b, t)
    requires |s| != |t| && k < |s| && k < |t| && s[k] != t[k]
    requires forall j | 0 <= j < |a.texts| && j < |b.texts| :: a.texts[j] == b.texts[j]
    requires forall j | 0 <= j < |s| && j < |t| && j != k :: s[j] == t[j]
    ensures Hazard(JoinName(a.texts, s), JoinName(b.texts, t))
  {
    hide SplitName, JoinName, FieldValues, ValueOf, Decimal, PadTo;
    SplitOfPick(a, s);
    SplitOfPick(b, t);
    assert DifferOnlyAt(NameParts(a.texts, s), NameParts(b.texts, t), k);
  }

  /** Folding elements of different lengths needs two hazardous names. */
  lemma {:induction false} MismatchIsHazard(a: Element, b: Element) returns (p: string, q: string)
    requires WellFormed(a) && WellFormed(b) && Mergeable(a, b) && |a.fields| != |b.fields|
    ensures p in Names(a) && q in Names(b) && Hazard(p, q)
  {
    MergeableMeaning(a, b);
    var k := MergeField(a, b);
    var x, y := DifferentFields(a.fields[k], b.fields[k]);
    var s, t := MatchingPicks(a, b, k, x, y);
    p, q := JoinName(a.texts, s), JoinName(b.texts, t);
    PickIsName(a, s);
    PickIsName(b, t);
    PicksAreHazard(a, b, s, t, k);
  }

  lemma OtherTextsOtherNames(a: Element, b: Element, q: string)
    requires Separators(a.texts) && Separators(b.texts) && a.texts != b.texts && q in Names(b)
    ensures q !in Names(a)
  {
    hide SplitName, Names, Separators;
    NameShape(b, q);
    if q in Names(a) {
      NameShape(a, q);
      assert false;
    }
  }

  /** A merge keeps all names exactly if `zip` had nothing to truncate. */
  lemma {:induction false} MergeKeepsNamesIff(a: Element, b: Element)
    requires WellFormed(a) && WellFormed(b) && Mergeable(a, b)
    ensures multiset(Names(Merge(a, b))) == multiset(Names(a)) + multiset(Names(b)) <==> |a.fields| == |b.fields|
  {
    hide SplitName, DiffsFrom, Names, ValueOf, Decimal, PadTo;
    if |a.fields| == |b.fields| {
      MergeNames(a, b);
    } else {
      var p, q := MismatchIsHazard(a, b);
      OtherTextsOtherNames(Merge(a, b), b, q);
      assert q !in multiset(Names(Merge(a, b))) && q in multiset(Names(b));
    }
  }

  // ----- passes preserve the names

  lemma PushWellFormed(result: seq<Element>, e: Element)
    requires AllWellFormed(result) && WellFormed(e)
    ensures AllWellFormed(Push(result, e))
  {
    if result != [] && Mergeable(Last(result), e) {
      MergeWellFormed(Last(result), e);
    }
  }

  lemma {:induction false} PassWellFormed(result: seq<Element>, es: seq<Element>)
    requires AllWellFormed(result) && AllWellFormed(es)
    ensures AllWellFormed(PassFrom(result, es))
    decreases |es|
  {
    if es != [] {
      PushWellFormed(result, es[0]);
      PassWellFormed(Push(result, es[0]), es[1..]);
    }
  }

  lemma {:induction false} PushSplit(result: seq<Element>, e: Element)
    ensures AllNames(Push(result, e)) ==
            if result == [] || !Mergeable(Last(result), e) then AllNames(result) + Names(e)
            else AllNames(Front(result)) + Names(Merge(Last(result), e))
  {
    AllNamesFrontLast(Push(result, e));
    if result == [] || !Mergeable(Last(result), e) {
      assert Front(Push(result, e)) == result;
    } else {
      assert Front(Push(result, e)) == Front(result);
    }
  }

  /** One step of a pass, for elements of equally many fields. */
  lemma {:induction false} PushNames(result: seq<Element>, e: Element)
    requires AllWellFormed(result) && WellFormed(e)
    requires result != [] && Mergeable(Last(result), e) ==> |Last(result).fields| == |e.fields|
    ensures multiset(AllNames(Push(result, e))) == multiset(AllNames(result)) + multiset(Names(e))
  {
    PushSplit(result, e);
    if result != [] && Mergeable(Last(result), e) {
      MergeNames(Last(result), e);
      AllNamesFrontLast(result);
    }
  }

  lemma AllIn(s: seq<string>, t: seq<string>, all: seq<string>)
    requires multiset(s) + multiset(t) <= multiset(all)
    ensures forall x | x in s || x in t :: x in all
  {
    forall x | x in s || x in t ensures x in all {
      assert x in multiset(s) + multiset(t);
      assert x in multiset(all);
    }
  }

  lemma SameFieldsIfHazardFree(a: Element, e: Element, names: seq<string>)
    requires WellFormed(a) && WellFormed(e) && Mergeable(a, e) && HazardFree(names)
    requires forall x | x in Names(a) || x in Names(e) :: x in names
    ensures |a.fields| == |e.fields|
  {
    hide WellFormed, Mergeable, Names, Hazard;
    if |a.fields| != |e.fields| {
      var p, q := MismatchIsHazard(a, e);
      assert false;
    }
  }

  lemma {:induction false} PassNames(result: seq<Element>, es: seq<Element>, names: seq<string>)
    requires AllWellFormed(result) && AllWellFormed(es) && HazardFree(names)
    requires multiset(AllNames(result)) + multiset(AllNames(es)) == multiset(names)
    ensures multiset(AllNames(PassFrom(result, es))) == multiset(names)
    decreases |es|
  {
    hide Names, DiffsFrom, ValueOf, Decimal, PadTo;
    if es != [] {
      var e := es[0];
      assert multiset(AllNames(es)) == multiset(Names(e)) + multiset(AllNames(es[1..]));
      if result != [] && Mergeable(Last(result), e) {
        AllNamesFrontLast(result);
        AllIn(AllNames(result), Names(e), names);
        SameFieldsIfHazardFree(Last(result), e, names);
      }
      PushNames(result, e);
      PushWellFormed(result, e);
      PassNames(Push(result, e), es[1..], names);
    }
  }

  lemma {:induction false} FoldNames(es: seq<Element>, names: seq<string>)
    requires AllWellFormed(es) && HazardFree(names)
    requires multiset(AllNames(es)) == multiset(names)
    ensures multiset(AllNames(Fold(es))) == multiset(names)
    decreases |es|
  {
    PassLength([], es);
    PassWellFormed([], es);
    PassNames([], es, names);
    if Pass(es) != es {
      FoldNames(Pass(es), names);
    }
  }

  // ----- the unfolded input

  lemma {:induction false} PointNames(e: Element, nums: seq<Numeral>)
    requires |nums| == |e.fields|
    requires forall k | 0 <= k < |nums| :: e.fields[k] == [Range(nums[k], nums[k])]
    ensures Names(e) == [JoinName(e.texts, nums)]
    decreases |nums|
  {
    if nums != [] {
      var rest := Folding.Tail(e);
      PointNames(rest, nums[1..]);
      var t := JoinName(rest.texts, nums[1..]);
      PointValues(nums[0]);
      ChooseOne(nums[0], [t]);
      assert Prefix(nums[0], [t]) == [nums[0] + t];
      assert Prefix(e.texts[0], [nums[0] + t]) == [e.texts[0] + (nums[0] + t)];
      assert e.texts[0] + (nums[0] + t) == e.texts[0] + nums[0] + t;
    }
  }

  lemma PreprocessNames(name: string)
    ensures Names(Preprocess(name)) == [name]
  {
    SplitNameShape(name);
    JoinOfSplit(name);
    PointNames(Preprocess(name), SplitName(name).nums);
  }

  lemma PreprocessWellFormed(name: string)
    ensures WellFormed(Preprocess(name))
  {
    SplitNameShape(name);
  }

  lemma {:induction false} PreprocessAllNames(names: seq<string>)
    ensures AllNames(PreprocessAll(names)) == names
  {
    if names != [] {
      PreprocessAllNames(names[1..]);
      PreprocessNames(names[0]);
      assert PreprocessAll(names)[1..] == PreprocessAll(names[1..]);
    }
  }

  lemma PreprocessAllWellFormed(names: seq<string>)
    ensures AllWellFormed(PreprocessAll(names))
  {
    forall i | 0 <= i < |names| ensures WellFormed(PreprocessAll(names)[i]) {
      PreprocessWellFormed(names[i]);
    }
  }

  /** No brackets and commas in any text. */
  predicate CleanElements(es: seq<Element>) {
    forall i | 0 <= i < |es| :: CleanElement(es[i])
  }

  lemma PreprocessAllClean(names: seq<string>)
    requires AllClean(names)
    ensures CleanElements(PreprocessAll(names))
  {
    forall i | 0 <= i < |names| ensures CleanElement(PreprocessAll(names)[i]) {
      SplitNameShape(names[i]);
      JoinOfSplit(names[i]);
      CleanParts(SplitName(names[i]).texts, SplitName(names[i]).nums);
    }
  }

  lemma {:induction false} PassClean(result: seq<Element>, es: seq<Element>)
    requires CleanElements(result) && CleanElements(es)
    ensures CleanElements(PassFrom(result, es))
    decreases |es|
  {
    hide Mergeable, CleanElement;
    if es != [] {
      if result != [] && Mergeable(Last(result), es[0]) {
        MergeClean(Last(result), es[0]);
      }
      PassClean(Push(result, es[0]), es[1..]);
    }
  }

  lemma MergeClean(a: Element, b: Element)
    requires Mergeable(a, b) && CleanElement(a)
    ensures CleanElement(Merge(a, b))
  {
  }

  lemma {:induction false} FoldClean(es: seq<Element>)
    requires CleanElements(es)
    ensures CleanElements(Fold(es)) && (es != [] ==> Fold(es) != [])
    decreases |es|
  {
    PassLength([], es);
    PassClean([], es);
    if Pass(es) != es {
      FoldClean(Pass(es));
    }
  }

  /** What is printed is read back as the names of the folded elements. */
  lemma ExpandedCompressed(names: seq<string>)
    requires names != [] && AllClean(names)
    ensures Expanded(Compressed(names)) == AllNames(Fold(PreprocessAll(names)))
  {
    PreprocessAllClean(names);
    FoldClean(PreprocessAll(names));
    ExpandedFormatList(Fold(PreprocessAll(names)));
  }

  // ----- the laws

  ghost predicate RoundTrips(names: seq<string>) {
    multiset(Expanded(Compressed(names))) == multiset(names)
  }

  /** Expanding a compressed list gives back every name, exactly as often as it
      was given, unless two of the names are hazardous together. */
  lemma RoundTrip(names: seq<string>)
    requires names != [] && AllClean(names) && HazardFree(names)
    ensures RoundTrips(names)
  {
    PreprocessAllWellFormed(names);
    PreprocessAllNames(names);
    FoldNames(PreprocessAll(names), names);
    ExpandedCompressed(names);
  }

  lemma EqualGroupsAreHazardFree(names: seq<string>)
    requires forall i, j | 0 <= i < |names| && 0 <= j < |names| :: Groups(names[i]) == Groups(names[j])
    ensures HazardFree(names)
  {
    forall p, q | p in names && q in names ensures !Hazard(p, q) {
      var i :| 0 <= i < |names| && names[i] == p;
      var j :| 0 <= j < |names| && names[j] == q;
      assert Groups(names[i]) == Groups(names[j]);
    }
  }

  /** The round trip for names with equally many digit groups. */
  lemma RoundTripOfEqualGroups(names: seq<string>)
    requires names != [] && AllClean(names)
    requires forall i, j | 0 <= i < |names| && 0 <= j < |names| :: Groups(names[i]) == Groups(names[j])
    ensures RoundTrips(names)
  {
    EqualGroupsAreHazardFree(names);
    RoundTrip(names);
  }

  // ----- hazardous names do not survive

  lemma {:induction false} DiffsAre(a: Element, b: Element, i: nat, d: nat)
    requires i <= ZipLength(a, b) && d < ZipLength(a, b)
    requires forall j | i <= j < ZipLength(a, b) :: PartsDiffer(a, b, j) <==> j == d
    ensures DiffsFrom(a, b, i) == if i <= d then [d] else []
    decreases ZipLength(a, b) - i
  {
    if i < ZipLength(a, b) {
      DiffsAre(a, b, i + 1, d);
    }
  }

  lemma PreprocessField(p: string, k: nat)
    requires k < Groups(p)
    ensures var n, f := SplitName(p).nums[k], Preprocess(p).fields[k];
            |f| == 1 && f[0].lo == n && f[0].hi == n
  {
    SplitNameShape(p);
  }

  lemma PreprocessDiffers(p: string, q: string, j: nat)
    requires j < Groups(p) && j < Groups(q)
    ensures Preprocess(p).fields[j] != Preprocess(q).fields[j] <==> SplitName(p).nums[j] != SplitName(q).nums[j]
  {
    PreprocessField(p, j);
    PreprocessField(q, j);
  }

  lemma HazardDiffers(p: string, q: string, k: nat, j: nat)
    requires DifferOnlyAt(SplitName(p), SplitName(q), k)
    requires j < ZipLength(Preprocess(p), Preprocess(q))
    ensures PartsDiffer(Preprocess(p), Preprocess(q), j) <==> j == 2 * k + 1
  {
    hide SplitName, DiffsFrom, ValueOf, Decimal, PadTo;
    if j % 2 == 1 {
      PreprocessDiffers(p, q, j / 2);
    }
  }

  lemma HazardMerges(p: string, q: string)
    requires Hazard(p, q)
    ensures Mergeable(Preprocess(p), Preprocess(q))
  {
    hide SplitName, ValueOf, Decimal, PadTo;
    var a, b := Preprocess(p), Preprocess(q);
    var k: nat :| DifferOnlyAt(SplitName(p), SplitName(q), k);
    forall j | 0 <= j < ZipLength(a, b) ensures PartsDiffer(a, b, j) <==> j == 2 * k + 1 {
      HazardDiffers(p, q, k, j);
    }
    DiffsAre(a, b, 0, 2 * k + 1);
  }

  lemma FoldOfPair(a: Element, b: Element)
    requires Mergeable(a, b)
    ensures Fold([a, b]) == [Merge(a, b)]
  {
    hide DiffsFrom, Merge, ValueOf, Decimal, PadTo;
    var m := Merge(a, b);
    assert [a, b][1..] == [b] && [b][1..] == [] && [m][1..] == [];
    assert Push([], a) == [a] && Push([a], b) == [m] && Push([], m) == [m];
    assert PassFrom([m], []) == [m];
    assert PassFrom([a], [b]) == PassFrom([m], []);
    assert Pass([a, b]) == PassFrom([a], [b]);
    assert Pass([m]) == PassFrom([m], []);
    assert Fold([m]) == [m];
  }

  /** For two hazardous names, the second one is lost. */
  lemma {:induction false} HazardLosesName(p: string, q: string)
    requires Clean(p) && Clean(q) && Hazard(p, q)
    ensures q !in Expanded(Compressed([p, q]))
    ensures !RoundTrips([p, q])
  {
    hide SplitName, DiffsFrom, Expanded, Fold, Names, ValueOf, Decimal, PadTo;
    var names := [p, q];
    var a, b := Preprocess(p), Preprocess(q);
    assert PreprocessAll(names) == [a, b];
    HazardMerges(p, q);
    FoldOfPair(a, b);
    var m := Merge(a, b);
    ExpandedCompressed(names);
    AllNamesOne(m);
    SplitNameShape(p);
    if q in Names(m) {
      NameShape(m, q);
      assert false;
    }
    assert q in multiset(names);
  }

  ghost predicate DrawnFrom(names: seq<string>, stock: set<string>) {
    names != [] && forall i | 0 <= i < |names| :: names[i] in stock
  }

  lemma SafeStock(names: seq<string>, stock: set<string>)
    requires DrawnFrom(names, stock)
    requires forall n | n in stock :: Clean(n)
    requires forall p, q | p in stock && q in stock :: !Hazard(p, q)
    ensures RoundTrips(names)
  {
    assert AllClean(names);
    assert HazardFree(names);
    RoundTrip(names);
  }

  /** Exactly when a stock of host names is safe: every list drawn from it
      survives the round trip if and only if no two of them are hazardous. */
  lemma RoundTripIff(stock: set<string>)
    requires forall n | n in stock :: Clean(n)
    ensures (forall names | DrawnFrom(names, stock) :: RoundTrips(names))
       <==> (forall p, q | p in stock && q in stock :: !Hazard(p, q))
  {
    hide SplitName, Expanded, ValueOf, Decimal, PadTo;
    if p, q :| p in stock && q in stock && Hazard(p, q) {
      HazardLosesName(p, q);
      assert DrawnFrom([p, q], stock);
    } else {
      forall names | DrawnFrom(names, stock) ensures RoundTrips(names) {
        SafeStock(names, stock);
      }
    }
  }

  lemma ShortExample()
    ensures SplitName("a1b") == NameParts(["a", "b"], ["1"])
  {
    hide SplitName, ValueOf, Decimal, PadTo;
    JoinCons("a", "1", ["b"], []);
    assert ["a"] + ["b"] == ["a", "b"] && ["1"] + [] == ["1"];
    SplitOfJoin(["a", "b"], ["1"]);
    assert "a" + "1" + "b" == "a1b";
  }

  lemma LongExample()
    ensures SplitName("a2b3") == NameParts(["a", "b", ""], ["2", "3"])
  {
    hide SplitName, ValueOf, Decimal, PadTo;
    JoinCons("b", "3", [""], []);
    assert ["b"] + [""] == ["b", ""] && ["3"] + [] == ["3"];
    JoinCons("a", "2", ["b", ""], ["3"]);
    assert ["a"] + ["b", ""] == ["a", "b", ""] && ["2"] + ["3"] == ["2", "3"];
    SplitOfJoin(["a", "b", ""], ["2", "3"]);
    assert "a" + "2" + ("b" + "3" + "") == "a2b3";
  }

  lemma ExampleParts()
    ensures DifferOnlyAt(NameParts(["a", "b"], ["1"]), NameParts(["a", "b", ""], ["2", "3"]), 0)
  {
    assert "1"[0] != "2"[0];
  }

  lemma ExampleNames() returns (p: string, q: string)
    ensures p == "a1b" && q == "a2b3" && Clean(p) && Clean(q) && Hazard(p, q)
  {
    hide SplitName, ValueOf, Decimal, PadTo;
    p, q := "a1b", "a2b3";
    ShortExample();
    LongExample();
    ExampleParts();
  }

  /** A concrete loss: the 3 of a2b3 disappears. */
  lemma {:induction false} TruncationExample() returns (p: string, q: string)
    ensures p == "a1b" && q == "a2b3"
    ensures Hazard(p, q) && q !in Expanded(Compressed([p, q]))
  {
    p, q := ExampleNames();
    HazardLosesName(p, q);
  }

  /** The empty list is not a list to compress: it comes back as one empty name. */
  lemma EmptyListGainsName()
    ensures Expanded(Compressed([])) == [""]
  {
    assert PreprocessAll([]) == [];
    ExpandPlainGroup("");
  }

  // ----- normal form

  /** No range starts at the number that follows the range before it, printed at the
      width of that one. */
  ghost predicate Settled(f: seq<Range>) {
    forall i | 0 <= i < |f| - 1 :: PadTo(|f[i].lo|, ValueOf(f[i].hi) + 1) != f[i + 1].lo
  }

  ghost predicate AllSettled(es: seq<Element>) {
    forall i | 0 <= i < |es| :: forall k | 0 <= k < |es[i].fields| :: Settled(es[i].fields[k])
  }

  /** The range after a join starts at a number that both paddings print alike. */
  lemma JoinedStaysUnjoinable(r: Range, s: Range, next: Range)
    requires Rising(s) && Joinable(r, s) && !Joinable(s, next)
    ensures !Joinable(Range(r.lo, s.hi), next)
  {
    hide Decimal, ValueOf, PadTo;
    var w, n, h := |r.lo|, ValueOf(r.hi) + 1, ValueOf(s.hi) + 1;
    assert s.lo == PadTo(w, n);
    ValueOfPadTo(w, n);
    assert n <= h;
    PadToWidthChange(w, n, h);
    assert PadTo(|s.lo|, h) == PadTo(w, h);
  }

  lemma ConcatSettled(f: seq<Range>, g: seq<Range>)
    requires Settled(f) && Settled(g)
    requires f != [] && g != [] ==> !Joinable(Last(f), g[0])
    ensures Settled(f + g)
  {
    hide Decimal, ValueOf, PadTo;
    var h := f + g;
    forall i | 0 <= i < |h| - 1 ensures PadTo(|h[i].lo|, ValueOf(h[i].hi) + 1) != h[i + 1].lo {
      if i < |f| - 1 {
        assert PadTo(|f[i].lo|, ValueOf(f[i].hi) + 1) != f[i + 1].lo;
      } else if i >= |f| {
        assert PadTo(|g[i - |f|].lo|, ValueOf(g[i - |f|].hi) + 1) != g[i - |f| + 1].lo;
      } else {
        assert h[i] == Last(f) && h[i + 1] == g[0];
      }
    }
  }

  lemma SliceSettled(f: seq<Range>, i: nat, j: nat)
    requires Settled(f) && i <= j <= |f|
    ensures Settled(f[i..j])
  {
    hide Decimal, ValueOf, PadTo;
    var g := f[i..j];
    forall k | 0 <= k < |g| - 1 ensures PadTo(|g[k].lo|, ValueOf(g[k].hi) + 1) != g[k + 1].lo {
      assert PadTo(|f[i + k].lo|, ValueOf(f[i + k].hi) + 1) != f[i + k + 1].lo;
    }
  }

  /** The joint of a merge stays unjoinable behind it, although the width it is
      padded to may change. */
  lemma {:induction false} AbsorbSettled(cur: Field, test: Field)
    requires Settled(cur) && Settled(test) && Rising(test[0])
    ensures Settled(Absorb(cur, test))
  {
    hide ValueOf, Decimal, PadTo;
    var n, r, s := |cur|, Last(cur), test[0];
    if Joinable(r, s) {
      var j := Range(r.lo, s.hi);
      SliceSettled(cur, 0, n - 1);
      SliceSettled(test, 1, |test|);
      if n > 1 {
        assert !Joinable(cur[n - 2], cur[n - 1]);
      }
      ConcatSettled(Front(cur), [j]);
      if |test| > 1 {
        assert !Joinable(test[0], test[1]);
        JoinedStaysUnjoinable(r, s, test[1]);
      }
      ConcatSettled(Front(cur) + [j], test[1..]);
    } else {
      ConcatSettled(cur, test);
    }
  }

  lemma {:induction false} PushSettled(result: seq<Element>, e: Element)
    requires AllWellFormed(result) && WellFormed(e) && AllSettled(result) && AllSettled([e])
    ensures AllSettled(Push(result, e))
  {
    hide DiffsFrom, ValueOf, Decimal, PadTo;
    assert [e][0] == e;
    if result != [] && Mergeable(Last(result), e) {
      var a := Last(result);
      var k := MergeField(a, e);
      AbsorbSettled(a.fields[k], e.fields[k]);
    }
  }

  lemma {:induction false} PassSettled(result: seq<Element>, es: seq<Element>)
    requires AllWellFormed(result) && AllWellFormed(es) && AllSettled(result) && AllSettled(es)
    ensures AllSettled(PassFrom(result, es))
    decreases |es|
  {
    if es != [] {
      PushSettled(result, es[0]);
      PushWellFormed(result, es[0]);
      PassSettled(Push(result, es[0]), es[1..]);
    }
  }

  ghost predicate NoNeighboursMerge(es: seq<Element>) {
    forall i | 0 <= i < |es| - 1 :: !Mergeable(es[i], es[i + 1])
  }

  lemma QuietPush(result: seq<Element>, e: Element)
    requires NoNeighboursMerge(result) && |Push(result, e)| == |result| + 1
    ensures Push(result, e) == result + [e] && NoNeighboursMerge(result + [e])
  {
    hide DiffsFrom, ValueOf, Decimal, PadTo;
    forall i | 0 <= i < |result + [e]| - 1 ensures !Mergeable((result + [e])[i], (result + [e])[i + 1]) {
      if i < |result| - 1 {
        assert !Mergeable(result[i], result[i + 1]);
      }
    }
  }

  lemma {:induction false} QuietPass(result: seq<Element>, es: seq<Element>)
    requires NoNeighboursMerge(result)
    requires |PassFrom(result, es)| == |result| + |es|
    ensures NoNeighboursMerge(result + es)
    decreases |es|
  {
    hide PassFrom, Push, NoNeighboursMerge;
    PassFromStep(result, es);
    if es == [] {
      assert result + es == result;
    } else {
      PushLength(result, es[0]);
      PassLength(Push(result, es[0]), es[1..]);
      QuietPush(result, es[0]);
      QuietPass(result + [es[0]], es[1..]);
      assert result + es == result + [es[0]] + es[1..];
    }
  }

  lemma {:induction false} FoldNormalForm(es: seq<Element>)
    requires AllWellFormed(es) && AllSettled(es)
    ensures NoNeighboursMerge(Fold(es)) && AllSettled(Fold(es))
    decreases |es|
  {
    PassLength([], es);
    PassWellFormed([], es);
    PassSettled([], es);
    if Pass(es) == es {
      QuietPass([], es);
      assert [] + es == es;
    } else {
      FoldNormalForm(Pass(es));
    }
  }

  /** As far as the shorter one goes, the elements differ in field `k` and nowhere else. */
  ghost predicate DifferInField(a: Element, b: Element, k: nat) {
    && k < |a.fields| && k < |b.fields| && a.fields[k] != b.fields[k]
    && (forall j | 0 <= j < |a.fields| && j < |b.fields| && j != k :: a.fields[j] == b.fields[j])
    && (forall j | 0 <= j < |a.texts| && j < |b.texts| :: a.texts[j] == b.texts[j])
  }

  ghost predicate DifferInOneField(a: Element, b: Element) {
    exists k :: DifferInField(a, b, k)
  }

  /** What the comparison by `zip` finds out. */
  lemma MergeableIff(a: Element, b: Element)
    ensures Mergeable(a, b) <==> DifferInOneField(a, b)
    ensures Mergeable(a, b) ==> DifferInField(a, b, MergeField(a, b))
  {
    hide DiffsFrom, ValueOf, Decimal, PadTo;
    if Mergeable(a, b) {
      MergeableMeaning(a, b);
      assert DifferInField(a, b, MergeField(a, b));
    } else if k: nat :| DifferInField(a, b, k) {
      forall j | 0 <= j < ZipLength(a, b) ensures PartsDiffer(a, b, j) <==> j == 2 * k + 1 {
      }
      DiffsAre(a, b, 0, 2 * k + 1);
    }
  }

  /** Nothing is left to fold: no two neighbouring elements differ in one field only,
      and no field has a range that goes on where the one before it ends. */
  lemma CompressedNormalForm(names: seq<string>)
    ensures var r := Fold(PreprocessAll(names));
            && (forall i | 0 <= i < |r| - 1 :: !DifferInOneField(r[i], r[i + 1]))
            && forall i, k | 0 <= i < |r| && 0 <= k < |r[i].fields| :: Settled(r[i].fields[k])
  {
    hide Fold, Mergeable, DifferInOneField, Settled;
    var r := Fold(PreprocessAll(names));
    PreprocessAllWellFormed(names);
    PreprocessAllSettled(names);
    FoldNormalForm(PreprocessAll(names));
    forall i | 0 <= i < |r| - 1 ensures !DifferInOneField(r[i], r[i + 1]) {
      assert !Mergeable(r[i], r[i + 1]);
      MergeableIff(r[i], r[i + 1]);
    }
  }

  lemma PreprocessAllSettled(names: seq<string>)
    ensures AllSettled(PreprocessAll(names))
  {
  }

  lemma {:induction false} StillPass(result: seq<Element>, es: seq<Element>)
    requires NoNeighboursMerge(result + es)
    ensures PassFrom(result, es) == result + es
    decreases |es|
  {
    hide Mergeable;
    if es == [] {
      assert result + es == result;
    } else {
      var e, all := es[0], result + es;
      assert result + [e] + es[1..] == all;
      if result != [] {
        assert all[|result| - 1] == Last(result) && all[|result|] == e;
      }
      StillPass(result + [e], es[1..]);
    }
  }

  /** Nothing is folded exactly if no two neighbours can be merged. */
  lemma FoldKeepsIff(es: seq<Element>)
    ensures Fold(es) == es <==> NoNeighboursMerge(es)
  {
    PassLength([], es);
    assert [] + es == es;
    if NoNeighboursMerge(es) {
      StillPass([], es);
    } else if Fold(es) == es {
      FoldGetsShorter(es);
      QuietPass([], es);
    }
  }

  lemma {:induction false} FoldGetsShorter(es: seq<Element>)
    ensures |Fold(es)| <= |es|
    ensures |Fold(es)| == |es| ==> Pass(es) == es
    decreases |es|
  {
    hide PassFrom, Push;
    PassLength([], es);
    if Pass(es) != es {
      assert [] + es == es;
      FoldGetsShorter(Pass(es));
    }
  }

  /** A list in which no two neighbours can be merged is kept. */
  lemma {:induction false} UnmergedListIsKept(names: seq<string>)
    requires names != [] && AllClean(names) && NoNeighboursMerge(PreprocessAll(names))
    ensures Expanded(Compressed(names)) == names
  {
    hide Expanded, Fold, Names, ValueOf, Decimal, PadTo;
    FoldKeepsIff(PreprocessAll(names));
    PreprocessAllNames(names);
    ExpandedCompressed(names);
  }

  lemma PlainNameStandsApart(a: Element, b: Element)
    requires a.fields == [] || b.fields == []
    ensures !Mergeable(a, b)
  {
    assert ZipLength(a, b) == 1;
  }

  /** The names of the truncation example survive with another one between them. */
  lemma SurvivorExample() returns (p: string, q: string)
    ensures p == "a1b" && q == "a2b3" && Hazard(p, q)
    ensures Expanded(Compressed([p, "zz", q])) == [p, "zz", q]
  {
    hide SplitName, DiffsFrom, Expanded, Fold, Names, ValueOf, Decimal, PadTo, Mergeable, Hazard;
    p, q := ExampleNames();
    var names := [p, "zz", q];
    SplitOfJoin(["zz"], []);
    assert SplitName("zz") == NameParts(["zz"], []);
    var es := PreprocessAll(names);
    assert es[1].fields == [];
    PlainNameStandsApart(es[0], es[1]);
    PlainNameStandsApart(es[1], es[2]);
    assert Clean("zz");
    UnmergedListIsKept(names);
  }
}
