/** The walk over the places of a CPU map: the index arithmetic of
    scripts/gencpumap.py, for every number of threads and cores. */
module StrideWalk {
  import opened Sequences

  /** One step of the walk. */
  function Next(i: nat, cores: nat, total: nat): (j: nat)
    requires total > 0
    ensures j < total
  {
    (if i + cores >= total then i + cores + 1 else i + cores) % total
  }

  /** The place that step `n` visits. */
  function At(n: nat, cores: nat, total: nat): (j: nat)
    requires total > 0
    ensures j < total
  {
    if n == 0 then 0 else Next(At(n - 1, cores, total), cores, total)
  }

  /** The places in the order of their visits, one step for each thread. */
  function Walk(cores: nat, total: nat): (ps: seq<nat>)
    ensures |ps| == total
    ensures forall n | 0 <= n < total :: ps[n] == At(n, cores, total)
  {
    seq(total, n requires 0 <= n < total => At(n, cores, total))
  }

  // ----- products and remainders

  function Times(a: int, b: int): int {
    a * b
  }

  lemma TimesAdds(a: int, b: int, m: int)
    ensures Times(a + b, m) == Times(a, m) + Times(b, m)
    ensures Times(a - b, m) == Times(a, m) - Times(b, m)
  {
  }

  lemma TimesUnits(m: int)
    ensures Times(0, m) == 0 && Times(1, m) == m && Times(-1, m) == -m
  {
  }

  lemma {:induction false} TimesGrows(a: nat, b: nat, m: nat)
    requires a <= b
    ensures Times(a, m) <= Times(b, m)
    decreases b
  {
    hide Times;
    if a < b {
      TimesGrows(a, b - 1, m);
      TimesAdds(b - 1, 1, m);
      TimesUnits(m);
    }
  }

  lemma ModOnce(v: nat, total: nat)
    requires total <= v < 2 * total
    ensures v % total == v - total
  {
    var q, r := v / total, v % total;
    assert v == q * total + r;
    if q >= 2 {
      TimesGrows(2, q, total);
    }
    assert q == 0 ==> q * total == 0;
  }

  lemma ModNone(v: nat, total: nat)
    requires v < total
    ensures v % total == v
  {
  }

  lemma DivisionIs(v: nat, m: nat)
    requires m > 0
    ensures v % m < m && v / m >= 0 && v == Times(v / m, m) + v % m
  {
  }

  /** A multiple of `m` closer to 0 than `m` is 0. */
  lemma SmallMultiple(z: int, m: nat)
    requires Times(z, m) < m && -Times(z, m) < m
    ensures z == 0
  {
    hide Times;
    TimesUnits(m);
    if z > 0 {
      TimesGrows(1, z, m);
    } else if z < 0 {
      TimesAdds(0, z, m);
      TimesGrows(1, -z, m);
    }
  }

  lemma MultipleIff(x: nat, m: nat)
    requires m > 0
    ensures x % m == 0 <==> exists z :: Times(z, m) == x
  {
    hide Times;
    DivisionIs(x, m);
    if z :| Times(z, m) == x {
      TimesAdds(z, x / m, m);
      SmallMultiple(z - x / m, m);
    }
  }

  // ----- the walk goes around in strides

  /** Around how many places the walk goes, and by how much: a wrap skips one. */
  function Period(cores: nat, total: nat): nat {
    if cores < total then total - 1 else total
  }

  function Stride(cores: nat, total: nat): nat {
    if cores < total then cores else cores + 1
  }

  /** A step is a stride, up to multiples of the period. */
  lemma StepIsStride(i: nat, cores: nat, total: nat) returns (z: int)
    requires 0 < cores && i < total
    ensures Next(i, cores, total) + Times(z, Period(cores, total)) == i + Stride(cores, total)
    ensures cores < total ==> Next(i, cores, total) > 0
  {
    hide Times;
    TimesUnits(Period(cores, total));
    if i + cores < total {
      ModNone(i + cores, total);
      z := 0;
    } else if cores < total {
      ModOnce(i + cores + 1, total);
      z := 1;
    } else {
      DivisionIs(i + cores + 1, total);
      z := (i + cores + 1) / total;
    }
  }

  /** Step `n` is `n` strides on. */
  lemma {:induction false} StridesOn(n: nat, cores: nat, total: nat) returns (q: int)
    requires 0 < cores && 0 < total
    ensures At(n, cores, total) + Times(q, Period(cores, total)) == Times(n, Stride(cores, total))
    ensures cores < total && n > 0 ==> At(n, cores, total) > 0
  {
    hide Times, Next, Period, Stride;
    var period, stride := Period(cores, total), Stride(cores, total);
    TimesUnits(period);
    TimesUnits(stride);
    q := 0;
    if n > 0 {
      var p := StridesOn(n - 1, cores, total);
      var z := StepIsStride(At(n - 1, cores, total), cores, total);
      q := p + z;
      TimesAdds(p, z, period);
      TimesAdds(n - 1, 1, stride);
    }
  }

  /** `d` strides lead back to where they started. */
  predicate Returns(d: nat, cores: nat, total: nat) {
    Period(cores, total) > 0 && Times(d, Stride(cores, total)) % Period(cores, total) == 0
  }

  lemma ReturnsIff(d: nat, cores: nat, total: nat)
    requires Period(cores, total) > 0
    ensures Returns(d, cores, total) <==> exists z :: Times(z, Period(cores, total)) == Times(d, Stride(cores, total))
  {
    TimesGrows(0, d, Stride(cores, total));
    TimesUnits(Stride(cores, total));
    hide Times;
    MultipleIff(Times(d, Stride(cores, total)), Period(cores, total));
  }

  lemma AtStart(cores: nat, total: nat)
    requires total > 0
    ensures At(0, cores, total) == 0
  {
  }

  lemma CollisionReturns(m: nat, n: nat, cores: nat, total: nat)
    requires 0 < cores && m < n < total && At(m, cores, total) == At(n, cores, total)
    ensures 0 < n - m < Period(cores, total) && Returns(n - m, cores, total)
  {
    hide At, Times, Stride, Returns;
    var period, stride := Period(cores, total), Stride(cores, total);
    var p := StridesOn(m, cores, total);
    var q := StridesOn(n, cores, total);
    AtStart(cores, total);
    TimesAdds(n, m, stride);
    TimesAdds(q, p, period);
    assert Times(q - p, period) == Times(n - m, stride);
    ReturnsIff(n - m, cores, total);
  }

  lemma ReturnCollides(d: nat, cores: nat, total: nat)
    requires 0 < cores && 0 < total && 0 < d < Period(cores, total) && Returns(d, cores, total)
    ensures var m := if cores < total then 1 else 0;
            m + d < total && At(m, cores, total) == At(m + d, cores, total)
  {
    hide At, Times, Stride, Returns;
    var period, stride := Period(cores, total), Stride(cores, total);
    var m := if cores < total then 1 else 0;
    var p := StridesOn(m, cores, total);
    var q := StridesOn(m + d, cores, total);
    ReturnsIff(d, cores, total);
    var z: int :| Times(z, period) == Times(d, stride);
    TimesAdds(m, d, stride);
    TimesAdds(z, p, period);
    TimesAdds(z + p, q, period);
    SmallMultiple(z + p - q, period);
    TimesUnits(period);
  }

  /** Exactly when the walk visits a place twice: fewer strides than the period
      has places lead around to a place again. */
  lemma RepeatsIff(cores: nat, total: nat)
    requires 0 < cores
    ensures NoDuplicates(Walk(cores, total)) <==>
            !exists d :: 0 < d < Period(cores, total) && Returns(d, cores, total)
  {
    hide At, Returns;
    var ps := Walk(cores, total);
    if !NoDuplicates(ps) {
      var m, n :| 0 <= m < n < |ps| && ps[m] == ps[n];
      CollisionReturns(m, n, cores, total);
    }
    if d :| 0 < d < Period(cores, total) && Returns(d, cores, total) {
      ReturnCollides(d, cores, total);
      var m := if cores < total then 1 else 0;
      assert ps[m] == ps[m + d];
    }
  }

  /** A socket of 10 cores with 16 threads: place 10 is visited twice. */
  lemma SixteenThreadsOnTenCores()
    ensures At(1, 10, 16) == At(4, 10, 16) == 10 && !NoDuplicates(Walk(10, 16))
  {
    assert At(1, 10, 16) == 10;
    assert At(2, 10, 16) == 5;
    assert At(3, 10, 16) == 15;
    assert At(4, 10, 16) == 10;
    assert Walk(10, 16)[1] == Walk(10, 16)[4];
  }

  /** All places are visited exactly under the same condition. */
  lemma FillsIff(cores: nat, total: nat)
    requires 0 < cores
    ensures (forall j: nat | j < total :: j in Walk(cores, total)) <==>
            !exists d :: 0 < d < Period(cores, total) && Returns(d, cores, total)
  {
    hide At, Walk, Returns;
    Pigeonhole(Walk(cores, total));
    RepeatsIff(cores, total);
  }

  // ----- rows and columns

  /** Step `t` of column `c`: column by column, each of `k` steps. */
  function Entry(c: nat, t: nat, k: nat): nat {
    c * k + t
  }

  /** Place `c` of row `t`: row by row, each of `cores` places. */
  function Slot(t: nat, c: nat, cores: nat): nat {
    t * cores + c
  }

  lemma EntryBound(c: nat, t: nat, k: nat, cores: nat)
    requires c < cores && t < k
    ensures Entry(c, t, k) < k * cores
  {
    TimesGrows(c + 1, cores, k);
    assert (c + 1) * k == c * k + k;
  }

  lemma SlotBound(t: nat, c: nat, cores: nat, k: nat)
    requires c < cores && t < k
    ensures Slot(t, c, cores) < k * cores
  {
    EntryBound(t, c, cores, k);
  }

  lemma EntryOrder(c: nat, t: nat, c': nat, t': nat, k: nat)
    requires t < k && t' < k && c < c'
    ensures Entry(c, t, k) < Entry(c', t', k)
  {
    TimesGrows(c + 1, c', k);
    assert (c + 1) * k == c * k + k;
  }

  /** Distinct pairs of row and column are distinct places. */
  lemma SlotsDistinct(t: nat, c: nat, t': nat, c': nat, cores: nat)
    requires c < cores && c' < cores && Slot(t, c, cores) == Slot(t', c', cores)
    ensures t == t' && c == c'
  {
    if t < t' {
      EntryOrder(t, c, t', c', cores);
    } else if t' < t {
      EntryOrder(t', c', t, c, cores);
    }
  }

  /** Every step is one of some column and row. */
  lemma {:induction false} EntryOf(n: nat, k: nat, cores: nat) returns (c: nat, t: nat)
    requires n < k * cores
    ensures c < cores && t < k && n == Entry(c, t, k)
    decreases cores
  {
    assert k * cores == k * (cores - 1) + k;
    if n < k * (cores - 1) {
      c, t := EntryOf(n, k, cores - 1);
    } else {
      c, t := cores - 1, n - k * (cores - 1);
      assert (cores - 1) * k == k * (cores - 1);
    }
  }

  /** If the cores divide the threads, a step goes down a column, or from its end
      to the next one. */
  lemma StepInColumn(cores: nat, k: nat, t: nat, c: nat)
    requires c < cores && t < k
    ensures k * cores > 0
    ensures var next := Next(Slot(t, c, cores), cores, k * cores);
            && (t + 1 < k ==> next == Slot(t + 1, c, cores))
            && (t + 1 == k && c + 1 < cores ==> next == Slot(0, c + 1, cores))
  {
    var total, i := k * cores, Slot(t, c, cores);
    SlotBound(t, c, cores, k);
    assert Slot(t + 1, c, cores) == i + cores by {
      assert (t + 1) * cores == t * cores + cores;
    }
    if t + 1 < k {
      SlotBound(t + 1, c, cores, k);
      ModNone(i + cores, total);
    } else if c + 1 < cores {
      SlotBound(0, c + 1, cores, k);
      assert Slot(t + 1, c, cores) == total + c;
      ModOnce(total + c + 1, total);
    }
  }

  /** Then the walk is the transposition of a matrix with `k` rows. */
  lemma {:induction false} WalkTransposes(cores: nat, k: nat, c: nat, t: nat)
    requires c < cores && t < k
    ensures k * cores > 0 && At(Entry(c, t, k), cores, k * cores) == Slot(t, c, cores)
    decreases c, t
  {
    hide Next;
    var total := k * cores;
    EntryBound(c, t, k, cores);
    if t > 0 {
      WalkTransposes(cores, k, c, t - 1);
      StepInColumn(cores, k, t - 1, c);
      assert Entry(c, t, k) == Entry(c, t - 1, k) + 1;
    } else if c > 0 {
      WalkTransposes(cores, k, c - 1, k - 1);
      StepInColumn(cores, k, k - 1, c - 1);
      assert Entry(c, 0, k) == Entry(c - 1, k - 1, k) + 1 by {
        assert c * k == (c - 1) * k + k;
      }
    }
  }

  /** So no place is visited twice. */
  lemma MultipleNeverRepeats(cores: nat, k: nat)
    ensures NoDuplicates(Walk(cores, k * cores))
  {
    hide At, Slot, Entry;
    var total := k * cores;
    forall m, n | 0 <= m < n < total ensures At(m, cores, total) != At(n, cores, total) {
      var c, t := EntryOf(m, k, cores);
      var c', t' := EntryOf(n, k, cores);
      WalkTransposes(cores, k, c, t);
      WalkTransposes(cores, k, c', t');
      if At(m, cores, total) == At(n, cores, total) {
        SlotsDistinct(t, c, t', c', cores);
        assert false;
      }
    }
  }

  /** It need not be a multiple: 24 threads and 16 cores. */
  lemma TwentyFourThreadsOnSixteenCores()
    ensures NoDuplicates(Walk(16, 24))
  {
    forall d: nat | 0 < d < 23 ensures !Returns(d, 16, 24) {
    }
    hide Returns;
    RepeatsIff(16, 24);
  }
}
