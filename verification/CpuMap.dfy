/** The CPU map of scripts/gencpumap.py: two stable sorts and a stride walk. */
module CpuMap {
  import opened Options
  import opened Sequences
  import opened StrideWalk

  datatype HWThread = HWThread(thread: int, socket: int, core: int)

  datatype Key = Core | Socket

  /** `attrgetter("core")` and `attrgetter("socket")` */
  function KeyOf(k: Key, x: HWThread): int {
    match k
    case Core => x.core
    case Socket => x.socket
  }

  // ----- stable sorting

  /** The threads with a given key, in order. */
  function WithKey(ts: seq<HWThread>, k: Key, v: int): (r: seq<HWThread>)
    ensures forall x :: x in r <==> x in ts && KeyOf(k, x) == v
  {
    if ts == [] then [] else (if KeyOf(k, ts[0]) == v then [ts[0]] else []) + WithKey(ts[1..], k, v)
  }

  predicate SortedBy(ts: seq<HWThread>, k: Key) {
    ts == [] || ((forall x | x in ts[1..] :: KeyOf(k, ts[0]) <= KeyOf(k, x)) && SortedBy(ts[1..], k))
  }

  /** `x` in front of the first element that is not smaller. */
  function Insert(x: HWThread, ts: seq<HWThread>, k: Key): (r: seq<HWThread>)
    ensures |r| == |ts| + 1
  {
    if ts == [] || KeyOf(k, x) <= KeyOf(k, ts[0]) then [x] + ts else [ts[0]] + Insert(x, ts[1..], k)
  }

  /** `threads.sort(key=attrgetter(k))`; Python's sort is stable. */
  function Sort(ts: seq<HWThread>, k: Key): (r: seq<HWThread>)
    ensures |r| == |ts|
  {
    if ts == [] then [] else Insert(ts[0], Sort(ts[1..], k), k)
  }

  lemma {:induction false} InsertSorted(x: HWThread, ts: seq<HWThread>, k: Key)
    requires SortedBy(ts, k)
    ensures SortedBy(Insert(x, ts, k), k)
    ensures forall y :: y in Insert(x, ts, k) <==> y == x || y in ts
  {
    if ts != [] && KeyOf(k, x) > KeyOf(k, ts[0]) {
      InsertSorted(x, ts[1..], k);
      assert ts == [ts[0]] + ts[1..];
    }
  }

  lemma WithKeyCons(x: HWThread, ts: seq<HWThread>, k: Key, v: int)
    ensures WithKey([x] + ts, k, v) == (if KeyOf(k, x) == v then [x] else []) + WithKey(ts, k, v)
  {
    assert ([x] + ts)[1..] == ts;
  }

  /** Insertion comes before everything of the same key. */
  lemma {:induction false} InsertStable(x: HWThread, ts: seq<HWThread>, k: Key, v: int)
    ensures WithKey(Insert(x, ts, k), k, v) == (if KeyOf(k, x) == v then [x] else []) + WithKey(ts, k, v)
  {
    hide WithKey;
    if ts == [] || KeyOf(k, x) <= KeyOf(k, ts[0]) {
      WithKeyCons(x, ts, k, v);
    } else {
      InsertStable(x, ts[1..], k, v);
      WithKeyCons(ts[0], Insert(x, ts[1..], k), k, v);
      WithKeyCons(ts[0], ts[1..], k, v);
      assert [ts[0]] + ts[1..] == ts;
    }
  }

  lemma {:induction false} SortSorts(ts: seq<HWThread>, k: Key)
    ensures SortedBy(Sort(ts, k), k)
    ensures forall y :: y in Sort(ts, k) <==> y in ts
  {
    if ts != [] {
      SortSorts(ts[1..], k);
      InsertSorted(ts[0], Sort(ts[1..], k), k);
      assert ts == [ts[0]] + ts[1..];
    }
  }

  /** Threads of the same key stay in their order. */
  lemma {:induction false} SortStable(ts: seq<HWThread>, k: Key, v: int)
    ensures WithKey(Sort(ts, k), k, v) == WithKey(ts, k, v)
  {
    if ts != [] {
      SortStable(ts[1..], k, v);
      InsertStable(ts[0], Sort(ts[1..], k), k, v);
    }
  }

  /** Any stable sort does what `Sort` does: there is one sorted list in which
      elements of the same key keep their order. */
  lemma {:induction false} StableSortIsUnique(us: seq<HWThread>, ws: seq<HWThread>, k: Key)
    requires SortedBy(us, k) && SortedBy(ws, k)
    requires forall v :: WithKey(us, k, v) == WithKey(ws, k, v)
    ensures us == ws
  {
    hide WithKey;
    SameEmptiness(us, ws, k);
    SameEmptiness(ws, us, k);
    if us != [] {
      var x, y := us[0], ws[0];
      FirstKeys(us, ws, k);
      FirstKeys(ws, us, k);
      assert us == [x] + us[1..] && ws == [y] + ws[1..];
      WithKeyCons(x, us[1..], k, KeyOf(k, x));
      WithKeyCons(y, ws[1..], k, KeyOf(k, x));
      assert WithKey(us, k, KeyOf(k, x))[0] == WithKey(ws, k, KeyOf(k, x))[0];
      forall v ensures WithKey(us[1..], k, v) == WithKey(ws[1..], k, v) {
        WithKeyCons(x, us[1..], k, v);
        WithKeyCons(y, ws[1..], k, v);
        var n := if KeyOf(k, x) == v then 1 else 0;
        assert WithKey(us[1..], k, v) == WithKey(us, k, v)[n..];
        assert WithKey(ws[1..], k, v) == WithKey(ws, k, v)[n..];
      }
      StableSortIsUnique(us[1..], ws[1..], k);
    }
  }

  lemma SameEmptiness(us: seq<HWThread>, ws: seq<HWThread>, k: Key)
    requires forall v :: WithKey(us, k, v) == WithKey(ws, k, v)
    ensures us == [] ==> ws == []
  {
    if ws != [] {
      var v := KeyOf(k, ws[0]);
      assert ws[0] in WithKey(ws, k, v);
      assert ws[0] in WithKey(us, k, v);
    }
  }

  lemma FirstKeys(us: seq<HWThread>, ws: seq<HWThread>, k: Key)
    requires us != [] && ws != [] && SortedBy(us, k)
    requires forall v :: WithKey(us, k, v) == WithKey(ws, k, v)
    ensures KeyOf(k, us[0]) <= KeyOf(k, ws[0])
  {
    var v := KeyOf(k, ws[0]);
    assert ws[0] in WithKey(ws, k, v);
    assert ws[0] in WithKey(us, k, v);
    assert ws[0] in us;
    assert us == [us[0]] + us[1..];
  }

  lemma {:induction false} InsertKeeps(x: HWThread, ts: seq<HWThread>, k: Key)
    ensures multiset(Insert(x, ts, k)) == multiset{x} + multiset(ts)
  {
    if ts != [] && KeyOf(k, x) > KeyOf(k, ts[0]) {
      InsertKeeps(x, ts[1..], k);
      assert ts == [ts[0]] + ts[1..];
    }
  }

  lemma {:induction false} SortKeeps(ts: seq<HWThread>, k: Key)
    ensures multiset(Sort(ts, k)) == multiset(ts)
  {
    if ts != [] {
      SortKeeps(ts[1..], k);
      InsertKeeps(ts[0], Sort(ts[1..], k), k);
      assert ts == [ts[0]] + ts[1..];
    }
  }

  lemma {:induction false} WithKeySorted(ts: seq<HWThread>, k: Key, v: int, l: Key)
    requires SortedBy(ts, l)
    ensures SortedBy(WithKey(ts, k, v), l)
  {
    if ts != [] {
      WithKeySorted(ts[1..], k, v, l);
      var rest := WithKey(ts[1..], k, v);
      assert ([ts[0]] + rest)[1..] == rest;
      assert [] + rest == rest;
    }
  }

  // ----- sorting by core, then by socket

  /** The two sorts of the script. */
  function TwiceSorted(ts: seq<HWThread>): (r: seq<HWThread>)
    ensures |r| == |ts|
  {
    Sort(Sort(ts, Core), Socket)
  }

  /** A core of a socket. */
  datatype Place = Place(socket: int, core: int)

  function PlaceOf(x: HWThread): Place {
    Place(x.socket, x.core)
  }

  predicate Before(p: Place, q: Place) {
    p.socket < q.socket || (p.socket == q.socket && p.core < q.core)
  }

  /** The threads of one core, in order. */
  function OfPlace(ts: seq<HWThread>, p: Place): (r: seq<HWThread>)
    ensures forall x :: x in r <==> x in ts && PlaceOf(x) == p
  {
    WithKey(WithKey(ts, Socket, p.socket), Core, p.core)
  }

  predicate InOrder(ts: seq<HWThread>) {
    ts == [] || ((forall x | x in ts[1..] :: !Before(PlaceOf(x), PlaceOf(ts[0]))) && InOrder(ts[1..]))
  }

  lemma {:induction false} KeysCommute(ts: seq<HWThread>, p: Place)
    ensures OfPlace(ts, p) == WithKey(WithKey(ts, Core, p.core), Socket, p.socket)
  {
    if ts != [] {
      KeysCommute(ts[1..], p);
      var a, b := WithKey(ts[1..], Socket, p.socket), WithKey(ts[1..], Core, p.core);
      assert ([ts[0]] + a)[1..] == a && ([ts[0]] + b)[1..] == b;
      assert [] + a == a && [] + b == b;
    }
  }

  /** The threads of each core keep the order of the file. */
  lemma SortsKeepFileOrder(ts: seq<HWThread>, p: Place)
    ensures OfPlace(TwiceSorted(ts), p) == OfPlace(ts, p)
  {
    hide WithKey, Sort;
    var byCore := Sort(ts, Core);
    SortStable(byCore, Socket, p.socket);
    KeysCommute(byCore, p);
    SortStable(ts, Core, p.core);
    KeysCommute(ts, p);
  }

  lemma {:induction false} OrderFromKeys(ts: seq<HWThread>)
    requires SortedBy(ts, Socket)
    requires forall v :: SortedBy(WithKey(ts, Socket, v), Core)
    ensures InOrder(ts)
  {
    if ts != [] {
      var rest := ts[1..];
      forall v ensures SortedBy(WithKey(rest, Socket, v), Core) {
        var w := WithKey(rest, Socket, v);
        assert SortedBy(WithKey(ts, Socket, v), Core);
        assert ([ts[0]] + w)[1..] == w;
        assert [] + w == w;
      }
      OrderFromKeys(rest);
      var w := WithKey(rest, Socket, ts[0].socket);
      assert ([ts[0]] + w)[1..] == w;
      assert SortedBy(WithKey(ts, Socket, ts[0].socket), Core);
      forall x | x in rest ensures !Before(PlaceOf(x), PlaceOf(ts[0])) {
        assert KeyOf(Socket, ts[0]) <= KeyOf(Socket, x);
        if x.socket == ts[0].socket {
          assert x in w;
          assert KeyOf(Core, ts[0]) <= KeyOf(Core, x);
        }
      }
    }
  }

  /** Sockets come in order, and within a socket the cores. */
  lemma SortsOrder(ts: seq<HWThread>)
    ensures InOrder(TwiceSorted(ts))
    ensures multiset(TwiceSorted(ts)) == multiset(ts)
    ensures forall x :: x in TwiceSorted(ts) <==> x in ts
  {
    var byCore := Sort(ts, Core);
    SortSorts(ts, Core);
    SortSorts(byCore, Socket);
    SortKeeps(ts, Core);
    SortKeeps(byCore, Socket);
    hide WithKey, Sort, SortedBy;
    forall v ensures SortedBy(WithKey(TwiceSorted(ts), Socket, v), Core) {
      SortStable(byCore, Socket, v);
      WithKeySorted(byCore, Socket, v, Core);
    }
    OrderFromKeys(TwiceSorted(ts));
  }

  // ----- the threads core by core

  ghost predicate Increasing(cs: seq<Place>) {
    forall i, j | 0 <= i < j < |cs| :: Before(cs[i], cs[j])
  }

  /** `cs` lists the cores that have threads, in order. */
  ghost predicate CoresOf(cs: seq<Place>, ts: seq<HWThread>) {
    && Increasing(cs)
    && forall x | x in ts :: PlaceOf(x) in cs
  }

  function Groups(ts: seq<HWThread>, cs: seq<Place>): seq<HWThread> {
    if cs == [] then [] else OfPlace(ts, cs[0]) + Groups(ts, cs[1..])
  }

  lemma OfPlaceCons(ts: seq<HWThread>, p: Place)
    requires ts != []
    ensures OfPlace(ts, p) == (if PlaceOf(ts[0]) == p then [ts[0]] else []) + OfPlace(ts[1..], p)
  {
    var w := WithKey(ts[1..], Socket, p.socket);
    assert ([ts[0]] + w)[1..] == w;
    assert [] + w == w;
  }

  lemma FirstIsMember(ts: seq<HWThread>)
    ensures ts != [] ==> ts[0] in ts
  {
  }

  lemma NoneAt(ts: seq<HWThread>, p: Place)
    requires forall x | x in ts :: PlaceOf(x) != p
    ensures OfPlace(ts, p) == []
  {
    FirstIsMember(OfPlace(ts, p));
  }

  /** The threads of the smallest core come first. */
  lemma {:induction false} FirstGroup(ts: seq<HWThread>, p: Place)
    requires InOrder(ts) && forall x | x in ts :: !Before(PlaceOf(x), p)
    ensures var n := |OfPlace(ts, p)|;
            && n <= |ts| && ts[..n] == OfPlace(ts, p) && InOrder(ts[n..])
            && (forall x | x in ts[n..] :: x in ts && PlaceOf(x) != p)
            && (forall q | q != p :: OfPlace(ts[n..], q) == OfPlace(ts, q))
  {
    hide OfPlace;
    if ts == [] {
      NoneAt(ts, p);
    } else {
      var rest := ts[1..];
      OfPlaceCons(ts, p);
      if PlaceOf(ts[0]) == p {
        FirstGroup(rest, p);
        var m := |OfPlace(rest, p)|;
        assert ts == [ts[0]] + rest;
        assert ts[m + 1..] == rest[m..];
        assert ts[..m + 1] == [ts[0]] + rest[..m];
        forall q | q != p ensures OfPlace(ts[m + 1..], q) == OfPlace(ts, q) {
          OfPlaceCons(ts, q);
          assert [] + OfPlace(rest, q) == OfPlace(rest, q);
        }
      } else {
        assert forall x | x in ts :: PlaceOf(x) != p by {
          assert ts == [ts[0]] + rest;
        }
        NoneAt(ts, p);
        assert ts[0..] == ts;
      }
    }
  }

  lemma {:induction false} GroupsSame(ts: seq<HWThread>, us: seq<HWThread>, cs: seq<Place>)
    requires forall q | q in cs :: OfPlace(ts, q) == OfPlace(us, q)
    ensures Groups(ts, cs) == Groups(us, cs)
  {
    if cs != [] {
      GroupsSame(ts, us, cs[1..]);
    }
  }

  /** Threads in order are their cores' threads, core after core. */
  lemma {:induction false} InOrderGroups(ts: seq<HWThread>, cs: seq<Place>)
    requires InOrder(ts) && CoresOf(cs, ts)
    ensures ts == Groups(ts, cs)
    decreases |cs|
  {
    hide OfPlace, InOrder;
    FirstIsMember(ts);
    if cs != [] {
      var p := cs[0];
      forall x | x in ts ensures !Before(PlaceOf(x), p) {
        var i :| 0 <= i < |cs| && cs[i] == PlaceOf(x);
      }
      FirstGroup(ts, p);
      var n := |OfPlace(ts, p)|;
      var rest := ts[n..];
      assert CoresOf(cs[1..], rest) by {
        forall x | x in rest ensures PlaceOf(x) in cs[1..] {
          var i :| 0 <= i < |cs| && cs[i] == PlaceOf(x);
          assert i > 0 && cs[1..][i - 1] == PlaceOf(x);
        }
      }
      InOrderGroups(rest, cs[1..]);
      assert forall q | q in cs[1..] :: q != p;
      GroupsSame(ts, rest, cs[1..]);
      assert ts == ts[..n] + rest;
    }
  }

  lemma {:induction false} GroupsLength(ts: seq<HWThread>, cs: seq<Place>, k: nat)
    requires forall p | p in cs :: |OfPlace(ts, p)| == k
    ensures |Groups(ts, cs)| == |cs| * k
    decreases |cs|
  {
    hide OfPlace;
    if cs != [] {
      GroupsLength(ts, cs[1..], k);
      assert |cs| * k == k + (|cs| - 1) * k;
    }
  }

  lemma {:induction false} GroupsAt(ts: seq<HWThread>, cs: seq<Place>, k: nat, c: nat, t: nat)
    requires forall p | p in cs :: |OfPlace(ts, p)| == k
    requires c < |cs| && t < k
    ensures |Groups(ts, cs)| == k * |cs| && Entry(c, t, k) < k * |cs|
    ensures Groups(ts, cs)[Entry(c, t, k)] == OfPlace(ts, cs[c])[t]
    decreases |cs|
  {
    hide OfPlace;
    GroupsLength(ts, cs, k);
    EntryBound(c, t, k, |cs|);
    if c > 0 {
      GroupsAt(ts, cs[1..], k, c - 1, t);
      assert Entry(c, t, k) == k + Entry(c - 1, t, k);
    }
  }

  // ----- placement

  /** What place `j` holds after `n` entries: the last one put there. */
  function HeldAt(threads: seq<HWThread>, cores: nat, n: nat, j: nat): Option<HWThread>
    requires n <= |threads|
  {
    if n == 0 then None
    else if At(n - 1, cores, |threads|) == j then Some(threads[n - 1])
    else HeldAt(threads, cores, n - 1, j)
  }

  /** The list after `n` entries have been placed. */
  function Held(threads: seq<HWThread>, cores: nat, n: nat): (r: seq<Option<HWThread>>)
    requires n <= |threads|
    ensures |r| == |threads|
    ensures forall j | 0 <= j < |r| :: r[j] == HeldAt(threads, cores, n, j)
  {
    seq(|threads|, j requires 0 <= j < |threads| => HeldAt(threads, cores, n, j))
  }

  function Spread(threads: seq<HWThread>, cores: nat): (r: seq<Option<HWThread>>)
    ensures |r| == |threads|
    ensures forall j | 0 <= j < |r| :: r[j] == HeldAt(threads, cores, |threads|, j)
  {
    Held(threads, cores, |threads|)
  }

  lemma HeldStep(threads: seq<HWThread>, cores: nat, n: nat)
    requires n < |threads|
    ensures Held(threads, cores, n + 1) == Held(threads, cores, n)[At(n, cores, |threads|) := Some(threads[n])]
  {
    hide At;
  }

  lemma AtStep(n: nat, cores: nat, total: nat)
    requires total > 0
    ensures At(n + 1, cores, total) == Next(At(n, cores, total), cores, total)
  {
    hide Next;
  }

  lemma NothingHeld(threads: seq<HWThread>, cores: nat)
    ensures Held(threads, cores, 0) == seq(|threads|, _ => None)
    ensures |threads| > 0 ==> At(0, cores, |threads|) == 0
  {
  }

  /** Step `n` is the last one that visits place `j`. */
  ghost predicate LastAt(n: nat, cores: nat, total: nat, j: nat)
    requires total > 0
  {
    n < total && At(n, cores, total) == j && forall m | n < m < total :: At(m, cores, total) != j
  }

  /** Every place ends with the thread of the last step that visits it, if any does. */
  ghost predicate LastOnesStay(places: seq<Option<HWThread>>, threads: seq<HWThread>, cores: nat) {
    && |places| == |threads|
    && (forall j, n | 0 <= j < |places| && 0 <= n < |threads| ::
          LastAt(n, cores, |threads|, j) ==> places[j] == Some(threads[n]))
    && (forall j | 0 <= j < |places| ::
          (forall n | 0 <= n < |threads| :: At(n, cores, |threads|) != j) ==> places[j] == None)
  }

  lemma {:induction false} HeldIsLast(threads: seq<HWThread>, cores: nat, n: nat, j: nat, last: nat)
    requires last < n <= |threads| && At(last, cores, |threads|) == j
    requires forall m | last < m < n :: At(m, cores, |threads|) != j
    ensures HeldAt(threads, cores, n, j) == Some(threads[last])
    decreases n
  {
    hide At;
    if last < n - 1 {
      HeldIsLast(threads, cores, n - 1, j, last);
    }
  }

  lemma {:induction false} HeldIsNone(threads: seq<HWThread>, cores: nat, n: nat, j: nat)
    requires n <= |threads| && forall m | 0 <= m < n :: At(m, cores, |threads|) != j
    ensures HeldAt(threads, cores, n, j) == None
    decreases n
  {
    hide At;
    if n > 0 {
      HeldIsNone(threads, cores, n - 1, j);
    }
  }

  lemma {:induction false} SpreadIsLast(threads: seq<HWThread>, cores: nat)
    ensures LastOnesStay(Spread(threads, cores), threads, cores)
  {
    hide At, HeldAt;
    var total := |threads|;
    forall j, n | 0 <= j < total && 0 <= n < total && LastAt(n, cores, total, j)
      ensures Spread(threads, cores)[j] == Some(threads[n])
    {
      HeldIsLast(threads, cores, total, j, n);
    }
    forall j | 0 <= j < total && forall n | 0 <= n < total :: At(n, cores, total) != j
      ensures Spread(threads, cores)[j] == None
    {
      HeldIsNone(threads, cores, total, j);
    }
  }

  /** The placement loop. */
  method PlaceThreads(threads: seq<HWThread>, cores: nat) returns (sthreads: array<Option<HWThread>>)
    ensures fresh(sthreads) && sthreads[..] == Spread(threads, cores)
    ensures LastOnesStay(sthreads[..], threads, cores)
  {
    SpreadIsLast(threads, cores);
    hide LastOnesStay;
    hide Held, HeldAt, At;
    var total := |threads|;
    NothingHeld(threads, cores);
    sthreads := new Option<HWThread>[total](_ => None);
    assert sthreads[..] == seq(total, _ => None);
    var i: nat := 0;
    for n := 0 to total
      invariant total > 0 ==> i == At(n, cores, total)
      invariant sthreads[..] == Held(threads, cores, n)
    {
      AtStep(n, cores, total);
      HeldStep(threads, cores, n);
      sthreads[i] := Some(threads[n]);
      i := i + cores;
      if i >= total {
        i := i + 1;
      }
      i := i % total;
    }
  }

  lemma {:induction false} HeldIsVisited(threads: seq<HWThread>, cores: nat, n: nat, j: nat)
    requires n <= |threads|
    ensures HeldAt(threads, cores, n, j).Some? <==> j in Walk(cores, |threads|)[..n]
  {
    hide At;
    var ps := Walk(cores, |threads|);
    if n > 0 {
      HeldIsVisited(threads, cores, n - 1, j);
      assert ps[..n] == ps[..n - 1] + [ps[n - 1]];
    }
  }

  lemma {:induction false} HeldStays(threads: seq<HWThread>, cores: nat, m: nat, n: nat)
    requires m < n <= |threads| && NoDuplicates(Walk(cores, |threads|))
    ensures HeldAt(threads, cores, n, At(m, cores, |threads|)) == Some(threads[m])
    decreases n
  {
    hide At;
    if m < n - 1 {
      HeldStays(threads, cores, m, n - 1);
      var ps := Walk(cores, |threads|);
      assert ps[m] != ps[n - 1];
    }
  }

  /** Exactly when the map has a thread in every place, for every number of
      threads and cores. An empty place stops the script at its last loop. */
  lemma MapIsCompleteIff(threads: seq<HWThread>, cores: nat)
    requires 0 < cores
    ensures (forall j | 0 <= j < |threads| :: Spread(threads, cores)[j].Some?) <==>
            !exists d :: 0 < d < Period(cores, |threads|) && Returns(d, cores, |threads|)
  {
    hide Walk, Returns;
    var ps := Walk(cores, |threads|);
    FillsIff(cores, |threads|);
    assert ps[..|threads|] == ps;
    forall j: nat | j < |threads| ensures Spread(threads, cores)[j].Some? <==> j in ps {
      HeldIsVisited(threads, cores, |threads|, j);
    }
  }

  /** Then no thread is overwritten: entry `n` of the list is where the walk put it. */
  lemma {:induction false} EntriesStay(threads: seq<HWThread>, cores: nat, n: nat)
    requires 0 < cores && n < |threads|
    requires !exists d :: 0 < d < Period(cores, |threads|) && Returns(d, cores, |threads|)
    ensures Spread(threads, cores)[At(n, cores, |threads|)] == Some(threads[n])
  {
    hide Walk, Returns, At;
    RepeatsIff(cores, |threads|);
    HeldStays(threads, cores, n, |threads|);
  }

  /** With `k` times as many threads as cores, the map is the transposed list. */
  lemma {:induction false} MapTransposes(threads: seq<HWThread>, cores: nat, k: nat, c: nat, t: nat)
    requires |threads| == k * cores && c < cores && t < k
    ensures Slot(t, c, cores) < |threads| && Entry(c, t, k) < |threads|
    ensures Spread(threads, cores)[Slot(t, c, cores)] == Some(threads[Entry(c, t, k)])
  {
    hide Walk, At, Slot, Entry;
    SlotBound(t, c, cores, k);
    EntryBound(c, t, k, cores);
    WalkTransposes(cores, k, c, t);
    MultipleNeverRepeats(cores, k);
    HeldStays(threads, cores, Entry(c, t, k), |threads|);
  }

  // ----- the whole map

  /** The sorted list is the cores' threads, core after core, in file order. */
  lemma SortedIsGroups(threads: seq<HWThread>, cs: seq<Place>)
    requires CoresOf(cs, threads)
    ensures TwiceSorted(threads) == Groups(threads, cs)
  {
    hide TwiceSorted, OfPlace, InOrder;
    var sorted := TwiceSorted(threads);
    SortsOrder(threads);
    forall p ensures OfPlace(sorted, p) == OfPlace(threads, p) {
      SortsKeepFileOrder(threads, p);
    }
    assert CoresOf(cs, sorted);
    InOrderGroups(sorted, cs);
    GroupsSame(sorted, threads, cs);
  }

  /** The script from the sorts on, for all threads and cores. */
  method GenCpuMap(threads: seq<HWThread>, totalCores: nat) returns (sthreads: array<Option<HWThread>>)
    ensures sthreads[..] == Spread(TwiceSorted(threads), totalCores)
  {
    var sorted := TwiceSorted(threads);
    sthreads := PlaceThreads(sorted, totalCores);
  }

  /** Place `t * cores + c` of the map holds thread `t`, in file order, of core `c`,
      in the order of sockets and cores, if every core has `k` threads. */
  lemma {:induction false} MapOfCores(threads: seq<HWThread>, cs: seq<Place>, k: nat, c: nat, t: nat)
    requires CoresOf(cs, threads) && |threads| == k * |cs| && c < |cs| && t < k
    requires forall p | p in cs :: |OfPlace(threads, p)| == k
    ensures Slot(t, c, |cs|) < |threads|
    ensures Spread(TwiceSorted(threads), |cs|)[Slot(t, c, |cs|)] == Some(OfPlace(threads, cs[c])[t])
  {
    hide TwiceSorted, OfPlace, Slot, Entry, Spread;
    SortedIsGroups(threads, cs);
    MapTransposes(TwiceSorted(threads), |cs|, k, c, t);
    GroupsAt(threads, cs, k, c, t);
  }

  /** Every column of the map belongs to one core, in their order. */
  ghost predicate ColumnsAreCores(threads: seq<HWThread>, cs: seq<Place>, k: nat)
    requires |threads| == k * |cs|
  {
    forall c: nat, t: nat | c < |cs| && t < k ::
      Slot(t, c, |cs|) < |threads|
      && var x := Spread(TwiceSorted(threads), |cs|)[Slot(t, c, |cs|)]; x.Some? && PlaceOf(x.value) == cs[c]
  }

  lemma {:induction false} OfPlaceConcat(ts: seq<HWThread>, us: seq<HWThread>, p: Place)
    ensures OfPlace(ts + us, p) == OfPlace(ts, p) + OfPlace(us, p)
  {
    hide OfPlace;
    if ts == [] {
      assert ts + us == us;
      NoneAt(ts, p);
    } else {
      OfPlaceConcat(ts[1..], us, p);
      assert (ts + us)[1..] == ts[1..] + us;
      OfPlaceCons(ts + us, p);
      OfPlaceCons(ts, p);
      Assoc(if PlaceOf(ts[0]) == p then [ts[0]] else [], OfPlace(ts[1..], p), OfPlace(us, p));
    }
  }

  lemma {:induction false} AllAt(ts: seq<HWThread>, p: Place)
    requires forall i | 0 <= i < |ts| :: PlaceOf(ts[i]) == p
    ensures OfPlace(ts, p) == ts
  {
    if ts != [] {
      AllAt(ts[1..], p);
    }
  }

  /** The list is core after core, each with `k` threads. */
  ghost predicate InColumns(ts: seq<HWThread>, cs: seq<Place>, k: nat)
    requires |ts| == k * |cs|
  {
    forall c: nat, t: nat | c < |cs| && t < k :: Entry(c, t, k) < |ts| && PlaceOf(ts[Entry(c, t, k)]) == cs[c]
  }

  lemma {:induction false} ColumnsSplit(ts: seq<HWThread>, cs: seq<Place>, k: nat)
    requires cs != [] && |ts| == k * |cs| && InColumns(ts, cs, k)
    ensures |ts[k..]| == k * |cs[1..]| && InColumns(ts[k..], cs[1..], k)
    ensures forall i | 0 <= i < k :: PlaceOf(ts[..k][i]) == cs[0]
    ensures forall i | 0 <= i < |ts| - k :: PlaceOf(ts[k..][i]) in cs[1..]
  {
    assert k * |cs| == k + k * (|cs| - 1);
    var rest, ds := ts[k..], cs[1..];
    forall i: nat | i < k ensures PlaceOf(ts[..k][i]) == cs[0] {
      assert Entry(0, i, k) == i;
    }
    forall c: nat, t: nat | c < |ds| && t < k
      ensures Entry(c, t, k) < |rest| && PlaceOf(rest[Entry(c, t, k)]) == ds[c]
    {
      assert Entry(c + 1, t, k) == k + Entry(c, t, k);
      assert PlaceOf(ts[Entry(c + 1, t, k)]) == cs[c + 1];
    }
    forall i: nat | i < |rest| ensures PlaceOf(rest[i]) in ds {
      var c, t := EntryOf(i, k, |ds|);
    }
  }

  lemma {:induction false} ColumnsCount(ts: seq<HWThread>, cs: seq<Place>, k: nat)
    requires |ts| == k * |cs| && Increasing(cs) && InColumns(ts, cs, k)
    ensures forall p | p in cs :: |OfPlace(ts, p)| == k
    decreases |cs|
  {
    hide InColumns, OfPlace;
    if cs != [] {
      var column, rest := ts[..k], ts[k..];
      assert k * |cs| == k + k * (|cs| - 1);
      ColumnsSplit(ts, cs, k);
      ColumnsCount(rest, cs[1..], k);
      AllAt(column, cs[0]);
      assert cs[0] !in cs[1..];
      NoneAt(rest, cs[0]);
      assert ts == column + rest;
      forall p | p in cs ensures |OfPlace(ts, p)| == k {
        OfPlaceConcat(column, rest, p);
        if p != cs[0] {
          NoneAt(column, p);
          assert p in cs[1..];
        }
      }
    }
  }

  /** Exactly when the map is a table of cores: every core has `k` threads. */
  lemma {:induction false} ColumnsAreCoresIff(threads: seq<HWThread>, cs: seq<Place>, k: nat)
    requires CoresOf(cs, threads) && |threads| == k * |cs|
    ensures ColumnsAreCores(threads, cs, k) <==> forall p | p in cs :: |OfPlace(threads, p)| == k
  {
    hide TwiceSorted, OfPlace, Slot, Entry, Spread;
    var sorted := TwiceSorted(threads);
    if forall p | p in cs :: |OfPlace(threads, p)| == k {
      forall c: nat, t: nat | c < |cs| && t < k
        ensures Slot(t, c, |cs|) < |threads|
        ensures Spread(sorted, |cs|)[Slot(t, c, |cs|)] == Some(OfPlace(threads, cs[c])[t])
      {
        MapOfCores(threads, cs, k, c, t);
      }
    } else if ColumnsAreCores(threads, cs, k) {
      forall c: nat, t: nat | c < |cs| && t < k
        ensures Entry(c, t, k) < |sorted| && PlaceOf(sorted[Entry(c, t, k)]) == cs[c]
      {
        MapTransposes(sorted, |cs|, k, c, t);
        assert Slot(t, c, |cs|) < |threads|;
      }
      ColumnsCount(sorted, cs, k);
      forall p | p in cs ensures |OfPlace(threads, p)| == k {
        SortsKeepFileOrder(threads, p);
      }
    }
  }
}
