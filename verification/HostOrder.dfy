/** When a list keeps its order. With two digit groups it can change: a product runs
    through its last field first. */
module HostOrder {
  import opened Decimals
  import opened Expansion
  import opened FoldMeaning
  import opened Folding
  import opened HostLists
  import opened HostNames
  import opened PrintParse
  import opened Sequences

  // ----- rectangles

  /** `b` is `a` with another number in group `j`, `c` with another one in the later
      group `k`, and `d` with both. */
  predicate RectangleAt(a: NameParts, b: NameParts, c: NameParts, d: NameParts, j: nat, k: nat) {
    && a.texts == b.texts == c.texts == d.texts
    && |a.nums| == |b.nums| == |c.nums| == |d.nums| && j < k < |a.nums|
    && a.nums[j] != b.nums[j] && b.nums == a.nums[j := b.nums[j]]
    && a.nums[k] != c.nums[k] && c.nums == a.nums[k := c.nums[k]]
    && d.nums == b.nums[k := c.nums[k]]
  }

  ghost predicate Rectangle(a: string, b: string, c: string, d: string) {
    exists j, k :: RectangleAt(SplitName(a), SplitName(b), SplitName(c), SplitName(d), j, k)
  }

  ghost predicate RectangleFree(names: seq<string>) {
    forall a, b, c, d | a in names && b in names && c in names && d in names :: !Rectangle(a, b, c, d)
  }

  // ----- merges that keep the order

  /** The product distributes over a field in order if the fields before it have
      one value each. */
  lemma {:induction false} OrderedFieldSum(k: nat, a: Element, b: Element, c: Element)
    requires DiffersOnlyAt(k, a, b) && DiffersOnlyAt(k, a, c)
    requires FieldValues(c.fields[k]) == FieldValues(a.fields[k]) + FieldValues(b.fields[k])
    requires forall j | 0 <= j < k :: |FieldValues(a.fields[j])| == 1
    ensures Names(c) == Names(a) + Names(b)
    decreases k
  {
    if k == 0 {
      FirstFieldSum(a, b, c);
    } else {
      var x, y, z := Folding.Tail(a), Folding.Tail(b), Folding.Tail(c);
      OrderedFieldSum(k - 1, x, y, z);
      var vs := FieldValues(a.fields[0]);
      assert vs == [vs[0]];
      ChooseOne(vs[0], Names(x));
      ChooseOne(vs[0], Names(y));
      ChooseOne(vs[0], Names(z));
      PrefixConcat(vs[0], Names(x), Names(y));
      PrefixConcat(a.texts[0], Prefix(vs[0], Names(x)), Prefix(vs[0], Names(y)));
    }
  }

  lemma OneValue(f: Field)
    requires GoodField(f) && !Varied(f)
    ensures |FieldValues(f)| == 1
  {
    PointValues(f[0].lo);
  }

  lemma MergeKeepsOrder(a: Element, b: Element)
    requires WellFormed(a) && WellFormed(b) && Mergeable(a, b) && |a.fields| == |b.fields|
    requires forall j | 0 <= j < MergeField(a, b) :: !Varied(a.fields[j])
    ensures Names(Merge(a, b)) == Names(a) + Names(b)
  {
    hide Varied, DiffsFrom, Names, FieldValues, Absorb;
    var k := MergeField(a, b);
    MergeDiffers(a, b);
    AbsorbValues(a.fields[k], b.fields[k]);
    forall j | 0 <= j < k ensures |FieldValues(a.fields[j])| == 1 {
      OneValue(a.fields[j]);
    }
    OrderedFieldSum(k, a, b, Merge(a, b));
  }

  lemma PickedRectangle(texts: seq<string>, nums: seq<string>, j: nat, k: nat,
                        x: string, y: string, u: string, v: string)
    requires |texts| == |nums| + 1 && j < k < |nums| && x != y && u != v
    ensures RectangleAt(NameParts(texts, nums[j := x][k := u]), NameParts(texts, nums[j := y][k := u]),
                        NameParts(texts, nums[j := x][k := v]), NameParts(texts, nums[j := y][k := v]), j, k)
  {
  }

  /** Otherwise four of the names are a rectangle. */
  lemma MergeHasRectangle(a: Element, e: Element, j: nat) returns (p: string, q: string, r: string, s: string)
    requires WellFormed(a) && WellFormed(e) && Mergeable(a, e) && |a.fields| == |e.fields|
    requires j < MergeField(a, e) && Varied(a.fields[j])
    ensures p in Names(a) && q in Names(a) && r in Names(e) && s in Names(e) && Rectangle(p, q, r, s)
  {
    hide Names, FieldValues, SplitName, JoinName, DiffsFrom, GoodField;
    MergeableMeaning(a, e);
    var k := MergeField(a, e);
    var x, y :| x in FieldValues(a.fields[j]) && y in FieldValues(a.fields[j]) && x != y;
    var u, v := DifferentFields(a.fields[k], e.fields[k]);
    var nums := FirstPicks(a);
    var ps, qs, rs, ss := nums[j := x][k := u], nums[j := y][k := u], nums[j := x][k := v], nums[j := y][k := v];
    assert Picks(a, nums);
    assert Picks(a, ps) && Picks(a, qs) && Picks(e, rs) && Picks(e, ss);
    p, q, r, s := JoinName(a.texts, ps), JoinName(a.texts, qs), JoinName(e.texts, rs), JoinName(e.texts, ss);
    PickIsName(a, ps);
    PickIsName(a, qs);
    PickIsName(e, rs);
    PickIsName(e, ss);
    SplitOfPick(a, ps);
    SplitOfPick(a, qs);
    SplitOfPick(e, rs);
    SplitOfPick(e, ss);
    assert a.texts == e.texts;
    PickedRectangle(a.texts, nums, j, k, x, y, u, v);
  }

  // ----- passes

  lemma PushKeepsOrder(result: seq<Element>, e: Element, names: seq<string>)
    requires AllWellFormed(result) && WellFormed(e) && HazardFree(names) && RectangleFree(names)
    requires forall x | x in AllNames(result) || x in Names(e) :: x in names
    ensures AllNames(Push(result, e)) == AllNames(result) + Names(e)
  {
    hide Names, Mergeable, WellFormed, Varied, Rectangle, Hazard;
    PushSplit(result, e);
    if result != [] && Mergeable(Last(result), e) {
      var a := Last(result);
      AllNamesFrontLast(result);
      assert AllWellFormed(result) ==> WellFormed(a);
      SameFieldsIfHazardFree(a, e, names);
      if j :| 0 <= j < MergeField(a, e) && Varied(a.fields[j]) {
        var p, q, r, s := MergeHasRectangle(a, e, j);
        assert false;
      }
      MergeKeepsOrder(a, e);
      Assoc(AllNames(Front(result)), Names(a), Names(e));
    }
  }

  lemma {:induction false} PassKeepsOrder(result: seq<Element>, es: seq<Element>, names: seq<string>)
    requires AllWellFormed(result) && AllWellFormed(es) && HazardFree(names) && RectangleFree(names)
    requires AllNames(result) + AllNames(es) == names
    ensures AllNames(PassFrom(result, es)) == names
    decreases |es|
  {
    hide Names, Mergeable, WellFormed, HazardFree, RectangleFree, Push;
    if es == [] {
      assert AllNames(result) + [] == AllNames(result);
    } else {
      var e, rest := es[0], AllNames(es[1..]);
      assert AllNames(es) == Names(e) + rest;
      Assoc(AllNames(result), Names(e), rest);
      assert forall x | x in AllNames(result) || x in Names(e) :: x in AllNames(result) + Names(e) + rest;
      assert AllWellFormed(es) ==> WellFormed(es[0]) && AllWellFormed(es[1..]);
      PushKeepsOrder(result, e, names);
      PushWellFormed(result, e);
      PassKeepsOrder(Push(result, e), es[1..], names);
    }
  }

  lemma {:induction false} FoldKeepsOrder(es: seq<Element>, names: seq<string>)
    requires AllWellFormed(es) && HazardFree(names) && RectangleFree(names) && AllNames(es) == names
    ensures AllNames(Fold(es)) == names
    decreases |es|
  {
    hide AllWellFormed, HazardFree, RectangleFree, PassFrom, AllNames;
    PassLength([], es);
    NothingFolded();
    PassWellFormed([], es);
    assert [] + names == names;
    PassKeepsOrder([], es, names);
    if Pass(es) != es {
      FoldKeepsOrder(Pass(es), names);
    }
  }

  lemma NothingFolded()
    ensures AllWellFormed([]) && AllNames([]) == []
  {
  }

  /** A list without hazards and rectangles comes back as it was. */
  lemma OrderedRoundTrip(names: seq<string>)
    requires names != [] && AllClean(names) && HazardFree(names) && RectangleFree(names)
    ensures Expanded(Compressed(names)) == names
  {
    hide Expanded, Fold, HazardFree, RectangleFree;
    PreprocessAllWellFormed(names);
    PreprocessAllNames(names);
    FoldKeepsOrder(PreprocessAll(names), names);
    ExpandedCompressed(names);
  }

  /** With at most one digit group per name, order and duplicates come back as
      given; names without any digits may be mixed in. */
  lemma RoundTripInOrder(names: seq<string>)
    requires names != [] && AllClean(names) && forall i | 0 <= i < |names| :: Groups(names[i]) <= 1
    ensures Expanded(Compressed(names)) == names
  {
    hide Expanded, Compressed, SplitName;
    assert forall n | n in names :: Groups(n) <= 1;
    OrderedRoundTrip(names);
  }

  // ----- a rectangle changes the order

  /** `e` with another field at place `k`. */
  function With(e: Element, k: nat, f: Field): Element
    requires k < |e.fields|
  {
    e.(fields := e.fields[k := f])
  }

  lemma WithMerges(e: Element, k: nat, g: Field)
    requires k < |e.fields| && e.fields[k] != g
    ensures Mergeable(e, With(e, k, g)) && Merge(e, With(e, k, g)) == With(e, k, Absorb(e.fields[k], g))
  {
    DiffsAre(e, With(e, k, g), 0, 2 * k + 1);
  }

  lemma TwiceDifferent(a: Element, b: Element, j: nat, k: nat)
    requires |a.fields| == |b.fields| && j < k < |a.fields|
    requires a.fields[j] != b.fields[j] && a.fields[k] != b.fields[k]
    ensures !Mergeable(a, b)
  {
    var ds := DiffsFrom(a, b, 0);
    assert PartsDiffer(a, b, 2 * j + 1) && PartsDiffer(a, b, 2 * k + 1);
    assert 2 * j + 1 in ds && 2 * k + 1 in ds;
  }

  function Point(n: Numeral): Field {
    [Range(n, n)]
  }

  lemma AbsorbGrows(x: Numeral, y: Numeral)
    requires x != y
    ensures Absorb(Point(x), Point(y)) != Point(x)
    ensures FieldValues(Absorb(Point(x), Point(y))) == [x] + [y]
  {
    AbsorbValues(Point(x), Point(y));
    PointValues(x);
    PointValues(y);
  }

  /** One number of a name changes one field of its element. */
  lemma PreprocessWith(a: string, b: string, j: nat)
    requires SplitName(a).texts == SplitName(b).texts
    requires |SplitName(a).nums| == |SplitName(b).nums| && j < Groups(a)
    requires SplitName(b).nums == SplitName(a).nums[j := SplitName(b).nums[j]]
    ensures IsNumeral(SplitName(b).nums[j]) && |Preprocess(a).fields| == Groups(a)
    ensures Preprocess(b) == With(Preprocess(a), j, Point(SplitName(b).nums[j]))
  {
    hide SplitName;
    SplitNameShape(a);
    SplitNameShape(b);
    assert Preprocess(b).fields == Preprocess(a).fields[j := Point(SplitName(b).nums[j])];
  }

  /** The elements of a rectangle. */
  lemma RectangleElements(a: string, b: string, c: string, d: string, j: nat, k: nat)
    requires RectangleAt(SplitName(a), SplitName(b), SplitName(c), SplitName(d), j, k)
    ensures var e, p := Preprocess(a), Preprocess(b);
            && j < k < |e.fields| && IsNumeral(SplitName(b).nums[j]) && IsNumeral(SplitName(c).nums[k])
            && p == With(e, j, Point(SplitName(b).nums[j]))
            && Preprocess(c) == With(e, k, Point(SplitName(c).nums[k]))
            && Preprocess(d) == With(p, k, Point(SplitName(c).nums[k]))
  {
    hide SplitName, Preprocess;
    assert SplitName(d).nums[k] == SplitName(c).nums[k];
    PreprocessWith(a, b, j);
    PreprocessWith(a, c, k);
    PreprocessWith(b, d, k);
  }

  lemma FoldOfFour(a: Element, b: Element, c: Element, d: Element)
    requires Mergeable(a, b) && !Mergeable(Merge(a, b), c) && Mergeable(c, d)
    requires Mergeable(Merge(a, b), Merge(c, d))
    ensures Fold([a, b, c, d]) == [Merge(Merge(a, b), Merge(c, d))]
  {
    hide Mergeable, Merge;
    var m, n := Merge(a, b), Merge(c, d);
    var es: seq<Element>, one: seq<Element>, two: seq<Element>, three: seq<Element> := [a, b, c, d], [a], [m], [m, c];
    assert es[1..] == [b, c, d] && [b, c, d][1..] == [c, d] && [c, d][1..] == [d];
    assert Push([], a) == one;
    assert Push(one, b) == two by { assert Last(one) == a && Front(one) == []; }
    assert Push(two, c) == three by { assert Last(two) == m; }
    assert Push(three, d) == [m, n] by { assert Last(three) == c && Front(three) == [m]; }
    assert PassFrom(three, [d]) == PassFrom([m, n], []);
    assert PassFrom(two, [c, d]) == PassFrom(three, [d]);
    assert PassFrom(one, [b, c, d]) == PassFrom(two, [c, d]);
    assert Pass(es) == PassFrom(one, [b, c, d]);
    FoldOfPair(m, n);
  }

  /** What four elements that form a rectangle fold to. */
  lemma FoldOfRectangle(e: Element, j: nat, k: nat, x: Numeral, y: Numeral, u: Numeral, v: Numeral)
    requires j < k < |e.fields| && e.fields[j] == Point(x) && e.fields[k] == Point(u) && x != y && u != v
    ensures var p, q := With(e, j, Point(y)), With(e, k, Point(v));
            Fold([e, p, q, With(p, k, Point(v))]) ==
            [With(With(e, j, Absorb(Point(x), Point(y))), k, Absorb(Point(u), Point(v)))]
  {
    hide Mergeable, Merge, Fold, Absorb;
    var p, q := With(e, j, Point(y)), With(e, k, Point(v));
    var r := With(p, k, Point(v));
    var f := Absorb(Point(x), Point(y));
    AbsorbGrows(x, y);
    WithMerges(e, j, Point(y));
    var m := With(e, j, f);
    assert r == With(q, j, Point(y)) && q.fields[j] == Point(x);
    WithMerges(q, j, Point(y));
    var n := With(q, j, f);
    TwiceDifferent(m, q, j, k);
    assert n == With(m, k, Point(v)) && m.fields[k] == Point(u);
    WithMerges(m, k, Point(v));
    FoldOfFour(e, p, q, r);
  }

  /** All fields have one value. */
  ghost predicate IsPoint(e: Element) {
    forall i | 0 <= i < |e.fields| :: |FieldValues(e.fields[i])| == 1
  }

  lemma NamesOfRectangle(e: Element, j: nat, k: nat, x: Numeral, y: Numeral, u: Numeral, v: Numeral)
    requires j < k < |e.fields| && e.fields[j] == Point(x) && e.fields[k] == Point(u) && x != y && u != v
    requires IsPoint(e)
    ensures var p, q := With(e, j, Point(y)), With(e, k, Point(v));
            Names(With(With(e, j, Absorb(Point(x), Point(y))), k, Absorb(Point(u), Point(v)))) ==
            Names(e) + Names(q) + (Names(p) + Names(With(p, k, Point(v))))
  {
    hide Names, FieldValues, Absorb;
    var p, q := With(e, j, Point(y)), With(e, k, Point(v));
    var r := With(p, k, Point(v));
    var f, g := Absorb(Point(x), Point(y)), Absorb(Point(u), Point(v));
    AbsorbGrows(x, y);
    AbsorbGrows(u, v);
    PointValues(x);
    PointValues(y);
    PointValues(u);
    PointValues(v);
    var row, other := With(e, k, g), With(p, k, g);
    OrderedFieldSum(k, e, q, row);
    OrderedFieldSum(k, p, r, other);
    var all := With(With(e, j, f), k, g);
    assert all.fields[j] == f && row.fields[j] == Point(x) && other.fields[j] == Point(y);
    OrderedFieldSum(j, row, other, all);
  }

  /** Four names that form a rectangle change places. */
  lemma RectangleChangesOrder(a: string, b: string, c: string, d: string)
    requires Clean(a) && Clean(b) && Clean(c) && Clean(d) && Rectangle(a, b, c, d)
    ensures b != c && Expanded(Compressed([a, b, c, d])) == [a, c, b, d]
  {
    hide SplitName, Names, Fold, Expanded, Preprocess, Absorb;
    var j: nat, k: nat :| RectangleAt(SplitName(a), SplitName(b), SplitName(c), SplitName(d), j, k);
    RectangleElements(a, b, c, d, j, k);
    var e := Preprocess(a);
    var y, v := SplitName(b).nums[j], SplitName(c).nums[k];
    PreprocessPoints(a, j, k);
    var x, u := SplitName(a).nums[j], SplitName(a).nums[k];
    var names := [a, b, c, d];
    assert PreprocessAll(names) == [e, Preprocess(b), Preprocess(c), Preprocess(d)];
    FoldOfRectangle(e, j, k, x, y, u, v);
    NamesOfRectangle(e, j, k, x, y, u, v);
    PreprocessNames(a);
    PreprocessNames(b);
    PreprocessNames(c);
    PreprocessNames(d);
    ExpandedCompressed(names);
    AllNamesOne(Fold(PreprocessAll(names))[0]);
    assert [a] + [c] + ([b] + [d]) == [a, c, b, d];
  }

  lemma PreprocessPoints(a: string, j: nat, k: nat)
    requires j < Groups(a) && k < Groups(a)
    ensures IsPoint(Preprocess(a)) && IsNumeral(SplitName(a).nums[j]) && IsNumeral(SplitName(a).nums[k])
    ensures Preprocess(a).fields[j] == Point(SplitName(a).nums[j])
    ensures Preprocess(a).fields[k] == Point(SplitName(a).nums[k])
  {
    hide SplitName, FieldValues;
    SplitNameShape(a);
    var e := Preprocess(a);
    forall i | 0 <= i < |e.fields| ensures |FieldValues(e.fields[i])| == 1 {
      PointValues(SplitName(a).nums[i]);
    }
  }

  // ----- exactly when the order is kept

  /** Every list drawn from a stock of names comes back as it was, order included, if
      and only if no two of the names are a hazard and no four are a rectangle. */
  lemma OrderKeptIff(stock: set<string>)
    requires forall n | n in stock :: Clean(n)
    ensures (forall names | DrawnFrom(names, stock) :: Expanded(Compressed(names)) == names)
       <==> ((forall p, q | p in stock && q in stock :: !Hazard(p, q)) &&
             (forall a, b, c, d | a in stock && b in stock && c in stock && d in stock :: !Rectangle(a, b, c, d)))
  {
    hide Expanded, Compressed, Hazard, Rectangle, Clean;
    if p, q :| p in stock && q in stock && Hazard(p, q) {
      HazardLosesName(p, q);
      assert DrawnFrom([p, q], stock) && q in [p, q];
    } else if a, b, c, d :| a in stock && b in stock && c in stock && d in stock && Rectangle(a, b, c, d) {
      RectangleChangesOrder(a, b, c, d);
      assert DrawnFrom([a, b, c, d], stock);
      assert [a, c, b, d][1] != [a, b, c, d][1];
    } else {
      forall names | DrawnFrom(names, stock) ensures Expanded(Compressed(names)) == names {
        assert HazardFree(names) && RectangleFree(names) && AllClean(names);
        OrderedRoundTrip(names);
      }
    }
  }

  // ----- an example

  lemma SplitOfGridName(x: Numeral, y: Numeral)
    ensures var s := "a" + x + "b" + y;
            SplitName(s) == NameParts(["a", "b", ""], [x, y]) && Clean(s)
  {
    hide SplitName;
    JoinCons("b", y, [""], []);
    JoinCons("a", x, ["b", ""], [y]);
    assert ["b"] + [""] == ["b", ""] && [y] + [] == [y];
    assert ["a"] + ["b", ""] == ["a", "b", ""] && [x] + [y] == [x, y];
    SplitOfJoin(["a", "b", ""], [x, y]);
    assert "a" + x + ("b" + y + "") == "a" + x + "b" + y;
  }

  /** With two digit groups a list can come back in another order. */
  lemma OrderExample()
    ensures Rectangle("a1b1", "a2b1", "a1b2", "a2b2")
    ensures Expanded(Compressed(["a1b1", "a2b1", "a1b2", "a2b2"])) == ["a1b1", "a1b2", "a2b1", "a2b2"]
  {
    hide SplitName, Expanded, Compressed, Clean;
    SplitOfGridName("1", "1");
    SplitOfGridName("2", "1");
    SplitOfGridName("1", "2");
    SplitOfGridName("2", "2");
    assert "a" + "1" + "b" + "1" == "a1b1" && "a" + "2" + "b" + "1" == "a2b1";
    assert "a" + "1" + "b" + "2" == "a1b2" && "a" + "2" + "b" + "2" == "a2b2";
    assert "1"[0] != "2"[0];
    assert RectangleAt(SplitName("a1b1"), SplitName("a2b1"), SplitName("a1b2"), SplitName("a2b2"), 0, 1);
    RectangleChangesOrder("a1b1", "a2b1", "a1b2", "a2b2");
  }
}
