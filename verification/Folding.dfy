/** The values that `compress` of scripts/pscompress.py works on, and what its
    loops compute, as functions. */
module Folding {
  import opened Decimals
  import opened HostNames

  type Numeral = s: string | IsNumeral(s) witness "0"

  /** A tuple `(from, to)` of digit strings. */
  datatype Range = Range(lo: Numeral, hi: Numeral)

  /** One digit group of an element: the ranges it runs through, never none. */
  type Field = f: seq<Range> | f != [] witness [Range("0", "0")]

  datatype Parts = Parts(texts: seq<string>, fields: seq<Field>)

  /** A list element: texts at the even places, fields at the odd ones. */
  type Element = e: Parts | |e.texts| == |e.fields| + 1 witness Parts([""], [])

  function Last<T>(s: seq<T>): T
    requires s != []
  {
    s[|s| - 1]
  }

  function Front<T>(s: seq<T>): seq<T>
    requires s != []
  {
    s[..|s| - 1]
  }

  // ----- preprocessing

  /** a1b becomes a[1-1]b. */
  function Preprocess(name: string): Element {
    var p := SplitName(name);
    SplitNameShape(name);
    Parts(p.texts, seq(|p.nums|, i requires 0 <= i < |p.nums| => [Range(p.nums[i], p.nums[i])]))
  }

  function PreprocessAll(names: seq<string>): (es: seq<Element>)
    ensures |es| == |names|
    ensures forall i | 0 <= i < |es| :: es[i] == Preprocess(names[i])
  {
    seq(|names|, i requires 0 <= i < |names| => Preprocess(names[i]))
  }

  // ----- one pass

  /** Length of `zip(a, b)`: truncated to the shorter element. */
  function ZipLength(a: Element, b: Element): nat {
    if |a.fields| <= |b.fields| then 2 * |a.fields| + 1 else 2 * |b.fields| + 1
  }

  predicate PartsDiffer(a: Element, b: Element, i: nat)
    requires i < ZipLength(a, b)
  {
    if i % 2 == 1 then a.fields[i / 2] != b.fields[i / 2] else a.texts[i / 2] != b.texts[i / 2]
  }

  /** The places from `i` on at which the zipped elements differ. */
  function DiffsFrom(a: Element, b: Element, i: nat): (ds: seq<nat>)
    requires i <= ZipLength(a, b)
    ensures forall k | 0 <= k < |ds| :: i <= ds[k] < ZipLength(a, b) && PartsDiffer(a, b, ds[k])
    ensures forall j | i <= j < ZipLength(a, b) :: PartsDiffer(a, b, j) ==> j in ds
    decreases ZipLength(a, b) - i
  {
    if i == ZipLength(a, b) then []
    else if PartsDiffer(a, b, i) then [i] + DiffsFrom(a, b, i + 1)
    else DiffsFrom(a, b, i + 1)
  }

  /** Exactly one place differs, and it is a field. */
  predicate Mergeable(a: Element, b: Element) {
    var ds := DiffsFrom(a, b, 0);
    |ds| == 1 && ds[0] % 2 == 1
  }

  function MergeField(a: Element, b: Element): (k: nat)
    requires Mergeable(a, b)
    ensures k < |a.fields| && k < |b.fields|
  {
    DiffsFrom(a, b, 0)[0] / 2
  }

  /** The number after `a` printed at the width of `a` is where `b` starts. */
  predicate Joinable(a: Range, b: Range) {
    PadTo(|a.lo|, ValueOf(a.hi) + 1) == b.lo
  }

  function Absorb(cur: Field, test: Field): Field {
    if Joinable(Last(cur), test[0]) then
      Front(cur) + [Range(Last(cur).lo, test[0].hi)] + test[1..]
    else
      cur + test
  }

  /** `b` folded into `a`, which keeps its texts and its other fields. */
  function Merge(a: Element, b: Element): Element
    requires Mergeable(a, b)
  {
    var k := MergeField(a, b);
    a.(fields := a.fields[k := Absorb(a.fields[k], b.fields[k])])
  }

  /** The body of the inner loop. */
  function Push(result: seq<Element>, e: Element): seq<Element> {
    if result == [] || !Mergeable(Last(result), e) then result + [e]
    else Front(result) + [Merge(Last(result), e)]
  }

  function PassFrom(result: seq<Element>, es: seq<Element>): seq<Element>
    decreases |es|
  {
    if es == [] then result else PassFrom(Push(result, es[0]), es[1..])
  }

  function Pass(es: seq<Element>): seq<Element> {
    PassFrom([], es)
  }

  lemma {:induction false} PassFromAppend(result: seq<Element>, es: seq<Element>, e: Element)
    ensures PassFrom(result, es + [e]) == Push(PassFrom(result, es), e)
    decreases |es|
  {
    if es == [] {
      assert ([] + [e])[1..] == [];
      assert es + [e] == [e];
    } else {
      assert (es + [e])[1..] == es[1..] + [e];
      PassFromAppend(Push(result, es[0]), es[1..], e);
    }
  }

  lemma PushLength(result: seq<Element>, e: Element)
    ensures var r := Push(result, e);
            r != [] && |r| <= |result| + 1 && (|r| == |result| + 1 ==> r == result + [e])
  {
    hide Mergeable;
  }

  lemma PassFromStep(result: seq<Element>, es: seq<Element>)
    ensures PassFrom(result, es) == if es == [] then result else PassFrom(Push(result, es[0]), es[1..])
  {
    hide Push;
  }

  /** A pass gives back its input, or something shorter. */
  lemma {:induction false} PassLength(result: seq<Element>, es: seq<Element>)
    ensures var r := PassFrom(result, es);
            && |r| <= |result| + |es|
            && (result != [] || es != [] ==> r != [])
            && (|r| == |result| + |es| ==> r == result + es)
    decreases |es|
  {
    hide PassFrom, Push;
    PassFromStep(result, es);
    if es == [] {
      assert result + es == result;
    } else {
      PushLength(result, es[0]);
      PassLength(Push(result, es[0]), es[1..]);
      assert result + es == (result + [es[0]]) + es[1..];
    }
  }

  // ----- passes to the fixpoint

  /** The outer loop: passes until one changes nothing. */
  function Fold(es: seq<Element>): seq<Element>
    decreases |es|
  {
    PassLength([], es);
    var r := Pass(es);
    if r == es then es else Fold(r)
  }

  // ----- postprocessing

  function FormatRange(r: Range): string {
    if ValueOf(r.lo) == ValueOf(r.hi) then r.lo
    else if ValueOf(r.lo) + 1 == ValueOf(r.hi) then r.lo + "," + PadTo(|r.lo|, ValueOf(r.hi))
    else r.lo + "-" + r.hi
  }

  function FormatRangeList(rs: Field): string {
    if |rs| == 1 then FormatRange(rs[0]) else FormatRange(rs[0]) + "," + FormatRangeList(rs[1..])
  }

  function FormatField(f: Field): string {
    if |f| == 1 && ValueOf(f[0].lo) == ValueOf(f[0].hi) then f[0].lo else "[" + FormatRangeList(f) + "]"
  }

  function FormatElement(e: Element): string
    decreases |e.fields|
  {
    if e.fields == [] then e.texts[0]
    else e.texts[0] + FormatField(e.fields[0]) + FormatElement(Tail(e))
  }

  function Tail(e: Element): Element
    requires e.fields != []
  {
    Parts(e.texts[1..], e.fields[1..])
  }

  function FormatList(es: seq<Element>): string {
    if es == [] then ""
    else if |es| == 1 then FormatElement(es[0])
    else FormatElement(es[0]) + "," + FormatList(es[1..])
  }

  /** What `compress` returns. */
  function Compressed(names: seq<string>): string {
    FormatList(Fold(PreprocessAll(names)))
  }
}
