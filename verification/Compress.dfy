/** `compress` of scripts/pscompress.py as it runs: the lists of ranges are
    objects, shared between `list_in` and `result`, and merged in place. */
module Compress {
  import opened Decimals
  import opened HostNames
  import opened Folding
  import opened Sequences

  /** A Python list of `(from, to)` tuples. */
  class RangeList {
    var items: Field

    constructor (f: Field)
      ensures items == f
    {
      items := f;
    }
  }

  datatype Entry = Entry(texts: seq<string>, lists: seq<RangeList>)

  /** A Python list whose odd places refer to lists of ranges. */
  type SharedElement = e: Entry | |e.texts| == |e.lists| + 1 witness Entry([""], [])

  function Footprint(es: seq<SharedElement>): set<RangeList> {
    set i, j | 0 <= i < |es| && 0 <= j < |es[i].lists| :: es[i].lists[j]
  }

  /** No list of ranges occurs twice. */
  predicate Separate(es: seq<SharedElement>) {
    forall i, j, k, l | 0 <= i < |es| && 0 <= j < |es[i].lists| && 0 <= k < |es| && 0 <= l < |es[k].lists|
      :: es[i].lists[j] == es[k].lists[l] ==> i == k && j == l
  }

  /** The value of an element, as `==` compares it. */
  function Value(e: SharedElement): (v: Element)
    reads e.lists
  {
    Parts(e.texts, seq(|e.lists|, k requires 0 <= k < |e.lists| reads e.lists => e.lists[k].items))
  }

  function Values(es: seq<SharedElement>): (vs: seq<Element>)
    reads Footprint(es)
    ensures |vs| == |es|
    ensures forall i | 0 <= i < |es| :: vs[i] == Value(es[i])
  {
    seq(|es|, i requires 0 <= i < |es| reads Footprint(es) => Value(es[i]))
  }

  /** Turns each name into texts and fresh one-point lists. */
  method Unshared(name: string) returns (e: SharedElement)
    ensures Value(e) == Preprocess(name)
    ensures Separate([e]) && fresh(Footprint([e]))
  {
    hide ValueOf, Decimal, PadTo, SplitName;
    var p := SplitName(name);
    SplitNameShape(name);
    var lists: seq<RangeList> := [];
    for i := 0 to |p.nums|
      invariant |lists| == i && fresh(set k | 0 <= k < i :: lists[k])
      invariant forall k | 0 <= k < i :: lists[k].items == [Range(p.nums[k], p.nums[k])]
      invariant forall k, l | 0 <= k < i && 0 <= l < i :: lists[k] == lists[l] ==> k == l
    {
      var r := new RangeList([Range(p.nums[i], p.nums[i])]);
      lists := lists + [r];
    }
    e := Entry(p.texts, lists);
  }

  lemma SeparateAppend(es: seq<SharedElement>, e: SharedElement)
    requires Separate(es) && Separate([e]) && Footprint(es) !! Footprint([e])
    ensures Separate(es + [e]) && Footprint(es + [e]) == Footprint(es) + Footprint([e])
  {
    var all := es + [e];
    assert forall j | 0 <= j < |e.lists| :: [e][0].lists[j] in Footprint([e]);
    assert forall i, j | 0 <= i < |es| && 0 <= j < |es[i].lists| :: es[i].lists[j] in Footprint(es);
    forall r | r in Footprint(es) + Footprint([e]) ensures r in Footprint(all) {
      if r in Footprint(es) {
        var i, j :| 0 <= i < |es| && 0 <= j < |es[i].lists| && r == es[i].lists[j];
        assert r == all[i].lists[j];
      } else {
        var j :| 0 <= j < |e.lists| && r == [e][0].lists[j];
        assert r == all[|es|].lists[j];
      }
    }
  }

  method UnsharedAll(names: seq<string>) returns (es: seq<SharedElement>)
    ensures Values(es) == PreprocessAll(names)
    ensures Separate(es) && fresh(Footprint(es))
  {
    es := [];
    for i := 0 to |names|
      invariant |es| == i && Separate(es) && fresh(Footprint(es))
      invariant forall k | 0 <= k < i :: Value(es[k]) == Preprocess(names[k])
    {
      var e := Unshared(names[i]);
      SeparateAppend(es, e);
      es := es + [e];
    }
  }

  lemma DiffsStep(a: Element, b: Element, i: nat)
    requires i < ZipLength(a, b)
    ensures var rest := DiffsFrom(a, b, i + 1);
            DiffsFrom(a, b, i) == if PartsDiffer(a, b, i) then [i] + rest else rest
  {
  }

  lemma DiffsEnd(a: Element, b: Element)
    ensures DiffsFrom(a, b, ZipLength(a, b)) == []
  {
  }

  /** The comprehension that collects the places at which `zip` differs. */
  method Diffs(a: SharedElement, b: SharedElement) returns (ds: seq<nat>)
    ensures ds == DiffsFrom(Value(a), Value(b), 0)
  {
    hide DiffsFrom, PartsDiffer, Value, ZipLength, ValueOf;
    ds := [];
    var va, vb := Value(a), Value(b);
    ghost var all := DiffsFrom(va, vb, 0);
    for i := 0 to ZipLength(va, vb)
      invariant ds + DiffsFrom(va, vb, i) == all
    {
      DiffsStep(va, vb, i);
      ghost var found, rest := ds, DiffsFrom(va, vb, i + 1);
      if PartsDiffer(va, vb, i) {
        ds := ds + [i];
        Assoc(found, [i], rest);
      }
    }
    DiffsEnd(va, vb);
  }

  /** Merges in place if the ranges fit together, concatenates if not. */
  method AbsorbInPlace(cur: RangeList, test: RangeList)
    requires cur != test
    modifies cur
    ensures cur.items == Absorb(old(cur.items), test.items)
    ensures var r := Last(old(cur.items));
            |cur.items| == |old(cur.items)| + |test.items| -
                           if PadTo(|r.lo|, ValueOf(r.hi) + 1) == test.items[0].lo then 1 else 0
  {
    var r := Last(cur.items);
    if Joinable(r, test.items[0]) {
      cur.items := Front(cur.items) + [Range(r.lo, test.items[0].hi)] + test.items[1..];
    } else {
      cur.items := cur.items + test.items;
    }
  }

  lemma InFootprint(es: seq<SharedElement>, i: nat, j: nat)
    requires i < |es| && j < |es[i].lists|
    ensures es[i].lists[j] in Footprint(es)
  {
  }

  lemma SameList(es: seq<SharedElement>, i: nat, j: nat, k: nat, l: nat)
    requires Separate(es)
    requires i < |es| && j < |es[i].lists| && k < |es| && l < |es[k].lists| && es[i].lists[j] == es[k].lists[l]
    ensures i == k && j == l
  {
  }

  /** A list of ranges of the last element belongs to no other element. */
  lemma LastIsAlone(result: seq<SharedElement>, rest: seq<SharedElement>, k: nat)
    requires Separate(result + rest) && result != [] && k < |Last(result).lists|
    ensures var r := Last(result).lists[k];
            && r in Footprint(result)
            && r !in Footprint(Front(result)) && r !in Footprint(rest)
            && forall j | 0 <= j < |Last(result).lists| && j != k :: Last(result).lists[j] != r
  {
    var all, n := result + rest, |result| - 1;
    var r := Last(result).lists[k];
    InFootprint(result, n, k);
    assert all[n].lists[k] == r;
    if r in Footprint(Front(result)) {
      var i, j :| 0 <= i < n && 0 <= j < |Front(result)[i].lists| && Front(result)[i].lists[j] == r;
      SameList(all, i, j, n, k);
      assert false;
    }
    if r in Footprint(rest) {
      var i, j :| 0 <= i < |rest| && 0 <= j < |rest[i].lists| && rest[i].lists[j] == r;
      SameList(all, n + 1 + i, j, n, k);
      assert false;
    }
    forall j | 0 <= j < |Last(result).lists| && j != k ensures Last(result).lists[j] != r {
      assert all[n].lists[j] == Last(result).lists[j];
    }
  }

  lemma SeparateDrop(a: seq<SharedElement>, e: SharedElement, b: seq<SharedElement>)
    requires Separate(a + [e] + b)
    ensures Separate(a + b) && Separate(a + ([e] + b))
  {
    var all, some := a + [e] + b, a + b;
    assert all == a + ([e] + b);
    forall i, j, k, l | 0 <= i < |some| && 0 <= j < |some[i].lists| && 0 <= k < |some| && 0 <= l < |some[k].lists|
                        && some[i].lists[j] == some[k].lists[l]
      ensures i == k && j == l
    {
      var i' := if i < |a| then i else i + 1;
      var k' := if k < |a| then k else k + 1;
      assert all[i'].lists[j] == all[k'].lists[l];
    }
  }

  lemma FootprintCons(e: SharedElement, b: seq<SharedElement>)
    ensures Footprint([e] + b) == Footprint([e]) + Footprint(b)
  {
    var all := [e] + b;
    forall r | r in Footprint(all) ensures r in Footprint([e]) + Footprint(b) {
      var i, j :| 0 <= i < |all| && 0 <= j < |all[i].lists| && r == all[i].lists[j];
      if i == 0 {
        assert r == [e][0].lists[j];
      } else {
        assert r == b[i - 1].lists[j];
      }
    }
    forall r | r in Footprint([e]) + Footprint(b) ensures r in Footprint(all) {
      if r in Footprint([e]) {
        var j :| 0 <= j < |e.lists| && r == [e][0].lists[j];
        assert r == all[0].lists[j];
      } else {
        var i, j :| 0 <= i < |b| && 0 <= j < |b[i].lists| && r == b[i].lists[j];
        assert r == all[i + 1].lists[j];
      }
    }
  }

  lemma ValuesFrontLast(es: seq<SharedElement>)
    requires es != []
    ensures Front(Values(es)) == Values(Front(es)) && Last(Values(es)) == Value(Last(es))
    ensures Values(es) == Values(Front(es)) + [Value(Last(es))]
  {
  }

  /** Absorbs `test` into field `k` of the element. */
  method AbsorbField(a: SharedElement, k: nat, test: RangeList)
    requires k < |a.lists| && test != a.lists[k]
    requires forall j | 0 <= j < |a.lists| && j != k :: a.lists[j] != a.lists[k]
    modifies a.lists[k]
    ensures var v := old(Value(a));
            Value(a) == v.(fields := v.fields[k := Absorb(v.fields[k], old(test.items))])
  {
    ghost var v, t := Value(a), test.items;
    AbsorbInPlace(a.lists[k], test);
    assert Value(a).fields == v.fields[k := Absorb(v.fields[k], t)];
  }

  /** Folds `element` into the last one of `result`, in place. */
  method MergeInPlace(result: seq<SharedElement>, element: SharedElement, ghost rest: seq<SharedElement>, k: nat)
    requires Separate(result + [element] + rest) && result != []
    requires Mergeable(Value(Last(result)), Value(element)) && k == MergeField(Value(Last(result)), Value(element))
    modifies Footprint(result)
    ensures Values(result) == Values(Front(result)) + [Value(Last(result))]
    ensures Values(Front(result)) == old(Values(Front(result)))
    ensures Value(Last(result)) == Merge(old(Value(Last(result))), old(Value(element)))
    ensures Values(rest) == old(Values(rest))
  {
    hide DiffsFrom, ValueOf, Decimal, PadTo;
    SeparateDrop(result, element, rest);
    LastIsAlone(result, [element] + rest, k);
    FootprintCons(element, rest);
    InFootprint([element] + rest, 0, k);
    AbsorbField(Last(result), k, element.lists[k]);
    ValuesFrontLast(result);
  }

  /** The body of the inner loop. */
  method FoldElement(result: seq<SharedElement>, element: SharedElement, ghost rest: seq<SharedElement>)
      returns (longer: bool)
    requires Separate(result + [element] + rest)
    modifies Footprint(result)
    ensures longer ==> Values(result) == old(Values(result)) && Value(element) == old(Value(element))
    ensures longer ==> Push(old(Values(result)), old(Value(element))) == old(Values(result)) + [Value(element)]
    ensures !longer ==> Values(result) == Push(old(Values(result)), old(Value(element)))
    ensures Values(rest) == old(Values(rest))
  {
    hide DiffsFrom, Absorb, ValueOf, Decimal, PadTo;
    if result == [] {
      return true;
    }
    ghost var vs, ve := Values(result), Value(element);
    ValuesFrontLast(result);
    var ds := Diffs(Last(result), element);
    if |ds| == 1 && ds[0] % 2 == 1 {
      MergeInPlace(result, element, rest, ds[0] / 2);
      assert Values(result) == Front(vs) + [Merge(Last(vs), ve)];
      return false;
    }
    assert !Mergeable(Last(vs), ve);
    return true;
  }

  lemma ValuesCons(es: seq<SharedElement>)
    requires es != []
    ensures Values(es) == [Value(es[0])] + Values(es[1..])
  {
  }

  lemma ValuesAppend(es: seq<SharedElement>, e: SharedElement)
    ensures Values(es + [e]) == Values(es) + [Value(e)]
  {
  }

  lemma FootprintAppend(es: seq<SharedElement>, listIn: seq<SharedElement>, idx: nat)
    requires idx < |listIn| && Footprint(es) <= Footprint(listIn)
    ensures Footprint(es + [listIn[idx]]) <= Footprint(listIn)
  {
    var all := es + [listIn[idx]];
    forall r | r in Footprint(all) ensures r in Footprint(listIn) {
      var i, j :| 0 <= i < |all| && 0 <= j < |all[i].lists| && r == all[i].lists[j];
      if i < |es| {
        assert r == es[i].lists[j];
      } else {
        assert r == listIn[idx].lists[j];
      }
    }
  }

  /** The state of a pass before element `idx`, which started from `start`. */
  ghost predicate PassState(result: seq<SharedElement>, listIn: seq<SharedElement>, idx: nat, start: seq<Element>)
    requires idx <= |listIn| == |start|
    reads Footprint(result), Footprint(listIn[idx..])
  {
    && |result| <= idx
    && Separate(result + listIn[idx..]) && Footprint(result) <= Footprint(listIn)
    && Values(listIn[idx..]) == start[idx..]
    && Values(result) == PassFrom([], start[..idx])
    && (|result| == idx ==> result == listIn[..idx] && Values(result) == start[..idx])
  }

  method PassStep(result: seq<SharedElement>, listIn: seq<SharedElement>, idx: nat, ghost start: seq<Element>)
      returns (result': seq<SharedElement>)
    requires idx < |listIn| == |start| && PassState(result, listIn, idx, start)
    modifies Footprint(result)
    ensures PassState(result', listIn, idx + 1, start)
  {
    hide PassFrom, DiffsFrom, ValueOf, Decimal, PadTo;
    var element := listIn[idx];
    ghost var rest := listIn[idx + 1..];
    assert listIn[idx..][1..] == rest;
    ValuesCons(listIn[idx..]);
    assert Value(element) == start[idx] && Values(rest) == start[idx + 1..];
    assert result + listIn[idx..] == result + [element] + rest == (result + [element]) + rest;
    PassFromAppend([], start[..idx], start[idx]);
    assert start[..idx + 1] == start[..idx] + [start[idx]];
    assert listIn[..idx + 1] == listIn[..idx] + [element];
    SeparateDrop(result, element, rest);
    FootprintAppend(result, listIn, idx);
    var longer := FoldElement(result, element, rest);
    if longer {
      result' := result + [element];
      ValuesAppend(result, element);
    } else {
      result' := result;
    }
  }

  /** The inner loop. Merging also changes lists of ranges that `listIn` refers
      to; still, `result` is as long as `listIn` only if nothing merged, and
      then it is `listIn`, unchanged. */
  method PassInPlace(listIn: seq<SharedElement>) returns (result: seq<SharedElement>)
    requires Separate(listIn)
    modifies Footprint(listIn)
    ensures Values(result) == Pass(old(Values(listIn)))
    ensures Separate(result) && Footprint(result) <= Footprint(listIn)
    ensures |result| <= |listIn|
    ensures |result| == |listIn| ==> result == listIn && Values(listIn) == old(Values(listIn))
  {
    hide PassFrom, Push, Mergeable, Value;
    ghost var start := Values(listIn);
    result := [];
    assert [] + listIn == listIn && listIn[0..] == listIn && start[..0] == [];
    PassFromStep([], start[..0]);
    for idx := 0 to |listIn|
      invariant PassState(result, listIn, idx, start)
    {
      result := PassStep(result, listIn, idx, start);
    }
    assert start[..|listIn|] == start && listIn[..|listIn|] == listIn;
    assert result + [] == result;
  }

  /** The outer loop: passes until one leaves the list as it was. The comparison
      sees `listIn` as the pass has changed it. */
  method FoldInPlace(names: seq<string>) returns (result: seq<SharedElement>)
    ensures Values(result) == Fold(PreprocessAll(names))
  {
    var listIn := UnsharedAll(names);
    while true
      invariant Separate(listIn) && fresh(Footprint(listIn))
      invariant Fold(Values(listIn)) == Fold(PreprocessAll(names))
      decreases |listIn|
    {
      ghost var start := Values(listIn);
      result := PassInPlace(listIn);
      PassLength([], start);
      if Values(result) == Values(listIn) {
        break;
      }
      listIn := result;
    }
  }

  /** `compress` */
  method CompressNames(names: seq<string>) returns (text: string)
    ensures text == Compressed(names)
  {
    var result := FoldInPlace(names);
    text := FormatList(Values(result));
  }
}
