/** Facts about sequences that several modules need. */
module Sequences {

  ghost predicate NoDuplicates<T>(s: seq<T>) {
    forall i, j | 0 <= i < j < |s| :: s[i] != s[j]
  }

  lemma Assoc<T>(a: seq<T>, b: seq<T>, c: seq<T>)
    ensures a + (b + c) == a + b + c
  {
  }

  lemma Regroup<T>(a: seq<T>, b: seq<T>, c: seq<T>, d: seq<T>)
    ensures a + (b + c) + d == (a + b) + (c + d)
  {
  }

  lemma SameTail<T>(x: seq<T>, y: seq<T>, z: seq<T>)
    ensures x + y == x + z ==> y == z
  {
    assert y == (x + y)[|x|..] && z == (x + z)[|x|..];
  }

  lemma AssocOfFour<T>(a: seq<T>, b: seq<T>, c: seq<T>, d: seq<T>)
    ensures a + (b + c + d) == a + b + c + d
  {
  }

  // ----- pigeonholes

  ghost function Elements<T(!new)>(s: seq<T>): (r: set<T>)
    ensures forall x :: x in r <==> x in s
  {
    set x | x in s
  }

  lemma {:induction false} ElementsSize<T(!new)>(s: seq<T>)
    ensures |Elements(s)| <= |s|
    ensures |Elements(s)| == |s| <==> NoDuplicates(s)
  {
    if s != [] {
      var front, last := s[..|s| - 1], s[|s| - 1];
      ElementsSize(front);
      assert Elements(s) == Elements(front) + {last};
      if last in front {
        var i :| 0 <= i < |front| && front[i] == last;
        assert s[i] == s[|s| - 1];
        assert Elements(s) == Elements(front);
      }
    }
  }

  ghost function Below(n: nat): (s: set<nat>)
    ensures |s| == n
    ensures forall j: nat :: j in s <==> j < n
  {
    if n == 0 then {} else Below(n - 1) + {n - 1}
  }

  lemma {:induction false} SizeOfSubset<T>(a: set<T>, b: set<T>)
    requires a <= b
    ensures |a| <= |b|
  {
    if a != {} {
      var x :| x in a;
      SizeOfSubset(a - {x}, b - {x});
    }
  }

  lemma SubsetOfSameSize<T>(a: set<T>, b: set<T>)
    requires a <= b && |a| == |b|
    ensures a == b
  {
    if a != b {
      var x :| x in b && x !in a;
      SizeOfSubset(a, b - {x});
    }
  }

  /** As many pigeons as holes: all holes are taken exactly if none is shared. */
  lemma Pigeonhole(s: seq<nat>)
    requires forall i | 0 <= i < |s| :: s[i] < |s|
    ensures NoDuplicates(s) <==> forall j: nat | j < |s| :: j in s
  {
    hide NoDuplicates;
    ElementsSize(s);
    assert Elements(s) <= Below(|s|);
    if NoDuplicates(s) {
      SubsetOfSameSize(Elements(s), Below(|s|));
      assert forall j: nat | j < |s| :: j in Below(|s|);
    }
    if forall j: nat | j < |s| :: j in s {
      assert Elements(s) == Below(|s|);
    }
  }
}
