/** The circular doubly linked lists of include/list.h. */
module IntrusiveList {

  /** A list_head, embedded in a structure that carries `value`. */
  class Link<T> {
    var next: Link<T>
    var prev: Link<T>
    const value: T

    /** INIT_LIST_HEAD */
    constructor (value: T)
      ensures next == this && prev == this && this.value == value
    {
      next, prev, this.value := this, this, value;
    }
  }

  /** Place `i` of the ring of `head` and the entries `s`, 0 and |s| + 1 being
      the head itself. */
  ghost function Place<T>(head: Link<T>, s: seq<Link<T>>, i: nat): Link<T> {
    if 0 < i <= |s| then s[i - 1] else head
  }

  ghost predicate Distinct<T>(head: Link<T>, s: seq<Link<T>>) {
    && head !in s
    && forall i, j | 0 <= i < j < |s| :: s[i] != s[j]
  }

  ghost predicate Linked<T>(a: Link<T>, b: Link<T>)
    reads a, b
  {
    a.next == b && b.prev == a
  }

  /** `head` leads through exactly the entries `s`, in this order, and back. */
  ghost predicate Ring<T>(head: Link<T>, s: seq<Link<T>>)
    reads head, s
  {
    && Distinct(head, s)
    && forall i | 0 <= i <= |s| :: Linked(Place(head, s, i), Place(head, s, i + 1))
  }

  /** The empty ring is what INIT_LIST_HEAD makes. */
  lemma EmptyRing<T>(head: Link<T>)
    ensures Ring(head, []) <==> head.next == head && head.prev == head
  {
    assert Place(head, [], 0) == Place(head, [], 1) == head;
    if Ring(head, []) {
      assert Linked(Place(head, [], 0), Place(head, [], 0 + 1));
    }
  }

  lemma Neighbours<T>(head: Link<T>, s: seq<Link<T>>, i: nat)
    requires Ring(head, s) && i <= |s|
    ensures Place(head, s, i).next == Place(head, s, i + 1)
    ensures Place(head, s, i + 1).prev == Place(head, s, i)
  {
    assert Linked(Place(head, s, i), Place(head, s, i + 1));
  }

  /** __list_add: between two neighbours. */
  method ListInsert<T>(n: Link<T>, prev: Link<T>, next: Link<T>)
    requires n != prev && n != next
    modifies n, prev, next
    ensures prev.next == n && n.prev == prev && n.next == next && next.prev == n
    ensures prev != next ==> prev.prev == old(prev.prev) && next.next == old(next.next)
  {
    next.prev := n;
    n.next := next;
    n.prev := prev;
    prev.next := n;
  }

  /** A new entry at place `k`, whatever the surgery around it was. */
  lemma Inserted<T>(head: Link<T>, s: seq<Link<T>>, n: Link<T>, k: nat)
    requires k <= |s| && Distinct(head, s) && n != head && n !in s
    requires Linked(Place(head, s, k), n) && Linked(n, Place(head, s, k + 1))
    requires forall i | 0 <= i <= |s| && i != k :: Linked(Place(head, s, i), Place(head, s, i + 1))
    ensures Ring(head, s[..k] + [n] + s[k..])
  {
    var t := s[..k] + [n] + s[k..];
    forall i | 0 <= i <= |t| ensures Linked(Place(head, t, i), Place(head, t, i + 1)) {
      if i < k {
        assert Linked(Place(head, s, i), Place(head, s, i + 1));
      } else if i > k + 1 {
        assert Linked(Place(head, s, i - 1), Place(head, s, i - 1 + 1));
      }
    }
  }

  /** list_add: cons. */
  method ListAdd<T>(n: Link<T>, head: Link<T>, ghost s: seq<Link<T>>)
    requires Ring(head, s) && n != head && n !in s
    modifies n, head, s
    ensures Ring(head, [n] + s)
  {
    Neighbours(head, s, 0);
    ListInsert(n, head, head.next);
    Inserted(head, s, n, 0);
    assert s[..0] + [n] + s[0..] == [n] + s;
  }

  /** list_add_tail: snoc. */
  method ListAddTail<T>(n: Link<T>, head: Link<T>, ghost s: seq<Link<T>>)
    requires Ring(head, s) && n != head && n !in s
    modifies n, head, s
    ensures Ring(head, s + [n])
  {
    Neighbours(head, s, |s|);
    ListInsert(n, head.prev, head);
    Inserted(head, s, n, |s|);
    assert s[..|s|] + [n] + s[|s|..] == s + [n];
  }

  /** list_empty */
  method ListEmpty<T>(head: Link<T>, ghost s: seq<Link<T>>) returns (empty: bool)
    requires Ring(head, s)
    ensures empty <==> s == []
  {
    Neighbours(head, s, 0);
    empty := head.next == head;
  }

  lemma Removed<T>(head: Link<T>, s: seq<Link<T>>, k: nat)
    requires k < |s| && Distinct(head, s)
    requires Linked(Place(head, s, k), Place(head, s, k + 2))
    requires forall i | 0 <= i <= |s| && i != k && i != k + 1 :: Linked(Place(head, s, i), Place(head, s, i + 1))
    ensures Ring(head, s[..k] + s[k + 1..])
  {
    var t := s[..k] + s[k + 1..];
    forall i | 0 <= i <= |t| ensures Linked(Place(head, t, i), Place(head, t, i + 1)) {
      if i < k {
        assert Linked(Place(head, s, i), Place(head, s, i + 1));
      } else if i > k {
        assert Linked(Place(head, s, i + 1), Place(head, s, i + 1 + 1));
      }
    }
  }

  /** list_del: removal; the entry itself keeps its own pointers. */
  method ListDel<T>(entry: Link<T>, ghost head: Link<T>, ghost s: seq<Link<T>>, ghost k: nat)
    requires Ring(head, s) && k < |s| && s[k] == entry
    modifies entry.prev, entry.next
    ensures Ring(head, s[..k] + s[k + 1..])
    ensures entry.next == old(entry.next) && entry.prev == old(entry.prev)
  {
    Neighbours(head, s, k);
    Neighbours(head, s, k + 1);
    var prev, next := entry.prev, entry.next;
    next.prev := prev;
    prev.next := next;
    Removed(head, s, k);
  }

  /** list_del_init: removal; the entry becomes an empty list. */
  method ListDelInit<T>(entry: Link<T>, ghost head: Link<T>, ghost s: seq<Link<T>>, ghost k: nat)
    requires Ring(head, s) && k < |s| && s[k] == entry
    modifies head, s
    ensures Ring(head, s[..k] + s[k + 1..]) && Ring(entry, [])
  {
    Neighbours(head, s, k);
    Neighbours(head, s, k + 1);
    ListDel(entry, head, s, k);
    label deleted:
    entry.next := entry;
    entry.prev := entry;
    EmptyRing(entry);
    ghost var t := s[..k] + s[k + 1..];
    assert entry !in t;
    forall i | 0 <= i <= |t| ensures Linked(Place(head, t, i), Place(head, t, i + 1)) {
      assert old@deleted(Linked(Place(head, t, i), Place(head, t, i + 1)));
    }
  }

  lemma Spliced<T>(head: Link<T>, s: seq<Link<T>>, t: seq<Link<T>>)
    requires s != [] && Distinct(head, s + t)
    requires Linked(head, s[0]) && Linked(s[|s| - 1], Place(head, t, 1))
    requires forall i | 0 < i < |s| :: Linked(Place(head, s, i), Place(head, s, i + 1))
    requires forall i | 0 < i <= |t| :: Linked(Place(head, t, i), Place(head, t, i + 1))
    ensures Ring(head, s + t)
  {
    var all := s + t;
    forall i | 0 <= i <= |all| ensures Linked(Place(head, all, i), Place(head, all, i + 1)) {
      if 0 < i < |s| {
        assert Linked(Place(head, s, i), Place(head, s, i + 1));
      } else if i > |s| {
        assert Linked(Place(head, t, i - |s|), Place(head, t, i - |s| + 1));
      }
    }
  }

  /** list_splice: `list ++ head`; `list` itself is left as it was. */
  method ListSplice<T>(list: Link<T>, head: Link<T>, ghost s: seq<Link<T>>, ghost t: seq<Link<T>>)
    requires Ring(list, s) && Ring(head, t)
    requires list != head && list !in t && head !in s && forall n | n in s :: n !in t
    modifies head, s, t
    ensures Ring(head, s + t)
  {
    Neighbours(list, s, 0);
    Neighbours(list, s, |s|);
    Neighbours(head, t, 0);
    var first := list.next;
    if first != list {
      var last, at := list.prev, head.next;
      assert forall i | 0 < i < |s| :: Linked(Place(list, s, i), Place(list, s, i + 1));
      forall i, j | 0 <= i < |s| && 0 <= j < |t| ensures s[i] != t[j] {
        assert s[i] in s && t[j] in t;
      }
      first.prev := head;
      head.next := first;
      last.next := at;
      at.prev := last;
      forall i | 0 < i < |s| ensures Linked(Place(head, s, i), Place(head, s, i + 1)) {
        assert old(Linked(Place(list, s, i), Place(list, s, i + 1)));
      }
      Spliced(head, s, t);
    } else {
      assert s + t == t;
    }
  }

  ghost predicate MovedEntry<T>(old_: Link<T>, s: seq<Link<T>>, i: nat)
    requires 0 < i <= |s|
    reads s
  {
    s[i - 1].next == Place(old_, s, i + 1) && s[i - 1].prev == Place(old_, s, i - 1)
  }

  /** The ring of `old` after its head was copied to `head`: the entries still
      point to the old place. */
  ghost predicate Moved<T>(head: Link<T>, old_: Link<T>, s: seq<Link<T>>)
    reads head, s
  {
    && Distinct(old_, s) && Distinct(head, s)
    && head.next == Place(old_, s, 1) && head.prev == Place(old_, s, |s|)
    && forall i | 0 < i <= |s| :: MovedEntry(old_, s, i)
  }

  /** list_fix: the ring is closed again around the new head. */
  method ListFix<T>(head: Link<T>, old_: Link<T>, ghost s: seq<Link<T>>)
    requires Moved(head, old_, s)
    modifies head, s
    ensures Ring(head, s)
  {
    ghost var n := |s|;
    if n > 0 {
      assert MovedEntry(old_, s, 1) && MovedEntry(old_, s, n);
      assert s[0] in s && s[n - 1] in s;
    }
    if head.next == old_ {
      head.next, head.prev := head, head;
      EmptyRing(head);
    } else {
      head.next.prev := head;
      head.prev.next := head;
      forall i | 0 <= i <= n ensures Linked(Place(head, s, i), Place(head, s, i + 1)) {
        if 0 < i {
          assert old(MovedEntry(old_, s, i));
        }
        if i < n {
          assert old(MovedEntry(old_, s, i + 1));
        }
      }
    }
  }

  // ----- iteration

  /** The values along a ring. */
  ghost function Values<T>(s: seq<Link<T>>): (vs: seq<T>)
    ensures |vs| == |s| && forall i | 0 <= i < |s| :: vs[i] == s[i].value
  {
    seq(|s|, i requires 0 <= i < |s| => s[i].value)
  }

  /** The entries that do not satisfy `p`. */
  ghost function Without<T>(s: seq<Link<T>>, p: T -> bool): (r: seq<Link<T>>)
    ensures forall n | n in r :: n in s && !p(n.value)
  {
    if s == [] then [] else (if p(s[0].value) then [] else [s[0]]) + Without(s[1..], p)
  }

  lemma {:induction false} WithoutConcat<T>(s: seq<Link<T>>, t: seq<Link<T>>, p: T -> bool)
    ensures Without(s + t, p) == Without(s, p) + Without(t, p)
  {
    if s == [] {
      assert s + t == t;
    } else {
      assert (s + t)[1..] == s[1..] + t;
      WithoutConcat(s[1..], t, p);
    }
  }

  ghost function First<T>(head: Link<T>, rest: seq<Link<T>>): Link<T> {
    if rest == [] then head else rest[0]
  }

  lemma NextOfRest<T>(head: Link<T>, kept: seq<Link<T>>, rest: seq<Link<T>>)
    requires Ring(head, kept + rest) && rest != []
    ensures rest[0].next == First(head, rest[1..])
  {
    Neighbours(head, kept + rest, |kept| + 1);
  }

  lemma PlacesAround<T>(head: Link<T>, kept: seq<Link<T>>, rest: seq<Link<T>>)
    requires Ring(head, kept + rest) && rest != []
    ensures rest[0].prev == head || rest[0].prev in kept
    ensures rest[0].next == head || rest[0].next in rest
  {
    Neighbours(head, kept + rest, |kept|);
    Neighbours(head, kept + rest, |kept| + 1);
  }

  /** The loop body: the entry is deleted or left alone. */
  method VisitEntry<T>(pos: Link<T>, ghost head: Link<T>, ghost kept: seq<Link<T>>, ghost rest: seq<Link<T>>,
                       p: T -> bool)
    requires rest != [] && rest[0] == pos && Ring(head, kept + rest)
    modifies pos.prev, pos.next
    ensures Ring(head, kept + Without([pos], p) + rest[1..])
  {
    ghost var all, k := kept + rest, |kept|;
    assert all[k] == pos && [pos][1..] == [];
    if p(pos.value) {
      ListDel(pos, head, all, k);
      assert Without([pos], p) == [];
      assert all[..k] + all[k + 1..] == kept + rest[1..] == kept + [] + rest[1..];
    } else {
      assert Without([pos], p) == [pos];
      assert kept + [pos] + rest[1..] == all;
    }
  }

  lemma WithoutAppend<T>(s: seq<Link<T>>, n: Link<T>, p: T -> bool)
    ensures Without(s + [n], p) == Without(s, p) + Without([n], p)
  {
    WithoutConcat(s, [n], p);
  }

  /** list_for_each_safe with a list_del of the current entry: every entry is
      visited once, in order, and exactly those that satisfy `p` are gone. */
  method DeleteWhere<T>(head: Link<T>, ghost s: seq<Link<T>>, p: T -> bool) returns (ghost visited: seq<Link<T>>)
    requires Ring(head, s)
    modifies head, s
    ensures Ring(head, Without(s, p)) && visited == s
  {
    hide Ring, Without;
    visited := [];
    ghost var kept, rest := [], s;
    WithoutNone<T>(p);
    assert [] + s == s;
    FirstOfRing(head, s);
    var pos := head.next;
    var n := pos.next;
    while pos != head
      invariant visited + rest == s && kept == Without(visited, p)
      invariant forall x | x in kept || x in rest :: x in s
      invariant Ring(head, kept + rest)
      invariant pos == First(head, rest) && head !in rest
      invariant rest != [] ==> n == First(head, rest[1..])
      decreases |rest|
    {
      WithoutAppend(visited, pos, p);
      PlacesAround(head, kept, rest);
      assert forall x | x in kept || x in rest :: x in s;
      assert pos.prev == head || pos.prev in s;
      assert pos.next == head || pos.next in s;
      VisitEntry(pos, head, kept, rest, p);
      assert visited + rest == (visited + [pos]) + rest[1..];
      visited, kept, rest := visited + [pos], kept + Without([pos], p), rest[1..];
      pos := n;
      n := pos.next;
      if rest != [] {
        NextOfRest(head, kept, rest);
      }
    }
    assert visited + [] == visited && kept + [] == kept;
  }

  lemma WithoutNone<T>(p: T -> bool)
    ensures Without([], p) == []
  {
  }

  lemma FirstOfRing<T>(head: Link<T>, s: seq<Link<T>>)
    requires Ring(head, s)
    ensures head.next == First(head, s) && head !in s
    ensures s != [] ==> s[0].next == First(head, s[1..])
  {
    Neighbours(head, s, 0);
    if s != [] {
      Neighbours(head, s, 1);
    }
  }
}
