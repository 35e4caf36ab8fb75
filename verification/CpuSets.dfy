/** include/pscpu.h: a set of up to 1024 CPUs as 64 words of 16 bits. */
module CpuSets {
  const PSCPU_MAX := 1024
  const WORDS := 64

  type Word = w: nat | w < 0x10000
  type Byte = b: nat | b < 0x100

  // ----- words, digit by digit

  /** `w & 1<<i` */
  predicate Bit(w: nat, i: nat) {
    if i == 0 then w % 2 == 1 else Bit(w / 2, i - 1)
  }

  /** `1 << i` */
  function Shl(i: nat): (r: nat)
    ensures r > 0
  {
    if i == 0 then 1 else 2 * Shl(i - 1)
  }

  /** `a | b` */
  function Or(a: nat, b: nat): nat {
    if a == 0 && b == 0 then 0
    else 2 * Or(a / 2, b / 2) + if a % 2 == 1 || b % 2 == 1 then 1 else 0
  }

  /** `a & ~b` */
  function AndNot(a: nat, b: nat): (r: nat)
    ensures r <= a
  {
    if a == 0 then 0
    else 2 * AndNot(a / 2, b / 2) + if a % 2 == 1 && b % 2 == 0 then 1 else 0
  }

  lemma {:induction false} NoBits(i: nat)
    ensures !Bit(0, i)
  {
    if i > 0 {
      NoBits(i - 1);
    }
  }

  lemma {:induction false} OrBit(a: nat, b: nat, i: nat)
    ensures Bit(Or(a, b), i) <==> Bit(a, i) || Bit(b, i)
    decreases a + b
  {
    if a == 0 && b == 0 {
      NoBits(i);
    } else if i > 0 {
      OrBit(a / 2, b / 2, i - 1);
    }
  }

  lemma {:induction false} AndNotBit(a: nat, b: nat, i: nat)
    ensures Bit(AndNot(a, b), i) <==> Bit(a, i) && !Bit(b, i)
  {
    if a == 0 {
      NoBits(i);
    } else if i > 0 {
      AndNotBit(a / 2, b / 2, i - 1);
    }
  }

  lemma {:induction false} ShlBit(k: nat, i: nat)
    ensures Bit(Shl(k), i) <==> i == k
  {
    if k == 0 && i > 0 {
      NoBits(i - 1);
    } else if k > 0 && i > 0 {
      ShlBit(k - 1, i - 1);
    }
  }

  lemma {:induction false} OrWidth(a: nat, b: nat, n: nat)
    requires a < Shl(n) && b < Shl(n)
    ensures Or(a, b) < Shl(n)
  {
    if n > 0 {
      OrWidth(a / 2, b / 2, n - 1);
    }
  }

  lemma {:induction false} ShlGrows(i: nat, n: nat)
    requires i < n
    ensures Shl(i) < Shl(n)
  {
    if i > 0 {
      ShlGrows(i - 1, n - 1);
    }
  }

  lemma {:induction false} AllOnes(n: nat, i: nat)
    requires i < n
    ensures Bit(Shl(n) - 1, i)
  {
    assert (Shl(n) - 1) / 2 == Shl(n - 1) - 1;
    if i > 0 {
      AllOnes(n - 1, i - 1);
    }
  }

  /** Numbers of `n` bits are equal if their bits are. */
  lemma {:induction false} SameBits(a: nat, b: nat, n: nat)
    requires a < Shl(n) && b < Shl(n)
    requires forall i | 0 <= i < n :: Bit(a, i) <==> Bit(b, i)
    ensures a == b
  {
    if n > 0 {
      forall i | 0 <= i < n - 1 ensures Bit(a / 2, i) <==> Bit(b / 2, i) {
        assert Bit(a, i + 1) <==> Bit(b, i + 1);
      }
      SameBits(a / 2, b / 2, n - 1);
      assert Bit(a, 0) <==> Bit(b, 0);
    }
  }

  /** The highest bit in which two numbers differ decides their order. */
  lemma {:induction false} HighestDifference(a: nat, b: nat, n: nat) returns (top: nat)
    requires a < Shl(n) && b < Shl(n) && a != b
    ensures top < n && (Bit(a, top) <==> a > b) && (Bit(b, top) <==> a < b)
    ensures forall i | top < i < n :: Bit(a, i) <==> Bit(b, i)
  {
    if a / 2 == b / 2 {
      top := 0;
      assert forall i | 0 < i < n :: Bit(a, i) == Bit(a / 2, i - 1) == Bit(b, i);
    } else {
      var t := HighestDifference(a / 2, b / 2, n - 1);
      top := t + 1;
      forall i | top < i < n ensures Bit(a, i) <==> Bit(b, i) {
        assert Bit(a / 2, i - 1) <==> Bit(b / 2, i - 1);
      }
    }
  }

  lemma WordWidth()
    ensures Shl(8) == 0x100 && Shl(16) == 0x10000
  {
    assert Shl(4) == 16;
    assert Shl(8) == 0x100;
    assert Shl(12) == 0x1000;
  }

  // ----- the set that words stand for

  predicate Has(ws: seq<Word>, cpu: nat)
    requires |ws| == WORDS
  {
    cpu < PSCPU_MAX && Bit(ws[cpu / 16], cpu % 16)
  }

  ghost function Cpus(ws: seq<Word>): set<nat>
    requires |ws| == WORDS
  {
    set c | 0 <= c < PSCPU_MAX && Has(ws, c)
  }

  /** Words are equal exactly if the sets are. */
  lemma SameCpusIff(ws: seq<Word>, vs: seq<Word>)
    requires |ws| == |vs| == WORDS
    ensures ws == vs <==> Cpus(ws) == Cpus(vs)
  {
    if Cpus(ws) == Cpus(vs) {
      forall k | 0 <= k < WORDS ensures ws[k] == vs[k] {
        forall i | 0 <= i < 16 ensures Bit(ws[k], i) <==> Bit(vs[k], i) {
          assert (16 * k + i) / 16 == k && (16 * k + i) % 16 == i;
          assert 16 * k + i in Cpus(ws) <==> 16 * k + i in Cpus(vs);
        }
        WordWidth();
        SameBits(ws[k], vs[k], 16);
      }
    }
  }

  lemma UnionOfWords(ws: seq<Word>, vs: seq<Word>, us: seq<Word>)
    requires |ws| == |vs| == |us| == WORDS
    requires forall k | 0 <= k < WORDS :: us[k] == Or(ws[k], vs[k])
    ensures Cpus(us) == Cpus(ws) + Cpus(vs)
  {
    forall c: nat ensures c in Cpus(us) <==> c in Cpus(ws) + Cpus(vs) {
      if c < PSCPU_MAX {
        OrBit(ws[c / 16], vs[c / 16], c % 16);
      }
    }
  }

  lemma DifferenceOfWords(ws: seq<Word>, vs: seq<Word>, us: seq<Word>)
    requires |ws| == |vs| == |us| == WORDS
    requires forall k | 0 <= k < WORDS :: us[k] == AndNot(ws[k], vs[k])
    ensures Cpus(us) == Cpus(ws) - Cpus(vs)
  {
    forall c: nat ensures c in Cpus(us) <==> c in Cpus(ws) - Cpus(vs) {
      if c < PSCPU_MAX {
        AndNotBit(ws[c / 16], vs[c / 16], c % 16);
      }
    }
  }

  lemma OrIsWord(w: Word, v: Word)
    ensures Or(w, v) < 0x10000
  {
    WordWidth();
    OrWidth(w, v, 16);
  }

  lemma ShlIsWord(i: nat)
    requires i < 16
    ensures Shl(i) < 0x10000
  {
    WordWidth();
    ShlGrows(i, 16);
  }

  // ----- operations on arrays of words

  method SetCPU(words: array<Word>, cpu: nat)
    requires words.Length == WORDS
    modifies words
    ensures Cpus(words[..]) == old(Cpus(words[..])) + if cpu < PSCPU_MAX then {cpu} else {}
  {
    hide Bit, Shl, Or;
    if cpu < PSCPU_MAX {
      ghost var was := words[..];
      var i, mask := cpu / 16, Shl(cpu % 16);
      ShlIsWord(cpu % 16);
      OrIsWord(words[i], mask);
      words[i] := Or(words[i], mask);
      forall c: nat ensures c in Cpus(words[..]) <==> c in Cpus(was) + {cpu} {
        OrBit(was[i], mask, c % 16);
        ShlBit(cpu % 16, c % 16);
      }
    }
  }

  method ClrCPU(words: array<Word>, cpu: nat)
    requires words.Length == WORDS
    modifies words
    ensures Cpus(words[..]) == old(Cpus(words[..])) - {cpu}
  {
    hide Bit, Shl, AndNot;
    if cpu < PSCPU_MAX {
      ghost var was := words[..];
      var i, mask := cpu / 16, Shl(cpu % 16);
      words[i] := AndNot(words[i], mask);
      forall c: nat ensures c in Cpus(words[..]) <==> c in Cpus(was) - {cpu} {
        AndNotBit(was[i], mask, c % 16);
        ShlBit(cpu % 16, c % 16);
      }
    }
  }

  method SetAll(words: array<Word>)
    requires words.Length == WORDS
    modifies words
    ensures forall c: nat | c < PSCPU_MAX :: c in Cpus(words[..])
  {
    for i := 0 to WORDS
      invariant forall k | 0 <= k < i :: words[k] == 0xffff
    {
      words[i] := 0xffff;
    }
    forall c: nat | c < PSCPU_MAX ensures c in Cpus(words[..]) {
      WordWidth();
      AllOnes(16, c % 16);
    }
  }

  method ClrAll(words: array<Word>)
    requires words.Length == WORDS
    modifies words
    ensures words[..] == Zeros() && Cpus(words[..]) == {}
  {
    for i := 0 to WORDS
      invariant forall k | 0 <= k < i :: words[k] == 0
    {
      words[i] := 0;
    }
    assert words[..] == Zeros();
    NoCpus();
  }

  /** Both parameters may be the same array. */
  method AddCPUs(words: array<Word>, add: array<Word>)
    requires words.Length == add.Length == WORDS
    modifies words
    ensures Cpus(words[..]) == old(Cpus(words[..])) + old(Cpus(add[..]))
  {
    hide Or, Cpus;
    ghost var was, other := words[..], add[..];
    for i := 0 to WORDS
      invariant forall k | 0 <= k < i :: words[k] == Or(was[k], other[k])
      invariant forall k | i <= k < WORDS :: words[k] == was[k] && add[k] == other[k]
    {
      OrIsWord(words[i], add[i]);
      words[i] := Or(words[i], add[i]);
    }
    UnionOfWords(was, other, words[..]);
  }

  /** Both parameters may be the same array. */
  method RemCPUs(words: array<Word>, rem: array<Word>)
    requires words.Length == rem.Length == WORDS
    modifies words
    ensures Cpus(words[..]) == old(Cpus(words[..])) - old(Cpus(rem[..]))
  {
    hide AndNot, Cpus;
    ghost var was, other := words[..], rem[..];
    for i := 0 to WORDS
      invariant forall k | 0 <= k < i :: words[k] == AndNot(was[k], other[k])
      invariant forall k | i <= k < WORDS :: words[k] == was[k] && rem[k] == other[k]
    {
      words[i] := AndNot(words[i], rem[i]);
    }
    DifferenceOfWords(was, other, words[..]);
  }

  method IsSet(words: array<Word>, cpu: nat) returns (r: bool)
    requires words.Length == WORDS
    ensures r <==> cpu in Cpus(words[..])
  {
    r := cpu < PSCPU_MAX && Bit(words[cpu / 16], cpu % 16);
  }

  // ----- bytes, in little-endian order

  function ByteAt(ws: seq<Word>, k: nat): Byte
    requires |ws| == WORDS && k < 2 * WORDS
  {
    if k % 2 == 0 then ws[k / 2] % 0x100 else ws[k / 2] / 0x100
  }

  function Bytes(ws: seq<Word>): (bs: seq<Byte>)
    requires |ws| == WORDS
    ensures |bs| == 2 * WORDS
  {
    seq(2 * WORDS, k requires 0 <= k < 2 * WORDS => ByteAt(ws, k))
  }

  function Zeros(): (ws: seq<Word>)
    ensures |ws| == WORDS
  {
    seq(WORDS, _ => 0)
  }

  lemma NoCpus()
    ensures Cpus(Zeros()) == {}
  {
    forall c: nat | c < PSCPU_MAX ensures !Has(Zeros(), c) {
      NoBits(c % 16);
    }
  }

  lemma {:induction false} BitOfJoined(lo: nat, hi: nat, n: nat, i: nat)
    requires lo < Shl(n)
    ensures Bit(lo + Shl(n) * hi, i) <==> if i < n then Bit(lo, i) else Bit(hi, i - n)
  {
    if n > 0 {
      var p := Shl(n - 1) * hi;
      assert Shl(n) * hi == 2 * p;
      assert (lo + 2 * p) / 2 == lo / 2 + p && (lo + 2 * p) % 2 == lo % 2;
      if i > 0 {
        BitOfJoined(lo / 2, hi, n - 1, i - 1);
      }
    }
  }

  /** CPU `c` is bit `c % 8` of byte `c / 8`. */
  lemma HasIsByteBit(ws: seq<Word>, c: nat)
    requires |ws| == WORDS && c < PSCPU_MAX
    ensures Has(ws, c) <==> Bit(ByteAt(ws, c / 8), c % 8)
  {
    hide Shl;
    var w := ws[c / 16];
    WordWidth();
    assert w == w % 0x100 + 0x100 * (w / 0x100);
    BitOfJoined(w % 0x100, w / 0x100, 8, c % 16);
    assert c / 8 / 2 == c / 16;
  }

  /** The bytes needed for `num` CPUs: none if there are too many. */
  function BytesForCPUs(num: nat): (bytes: nat)
    ensures num <= PSCPU_MAX ==> num <= 8 * bytes < num + 8
    ensures num > PSCPU_MAX ==> bytes == 0
    ensures bytes <= PSCPU_MAX / 8
  {
    var bytes := if num != 0 then (num - 1) / 8 + 1 else 0;
    if num > PSCPU_MAX then 0 else bytes
  }

  /** The bytes beyond the set's own are not there to be read. */
  method Extract(dest: array<Byte>, src: array<Word>, num: nat)
    requires src.Length == WORDS && num <= dest.Length && num <= PSCPU_MAX / 8
    modifies dest
    ensures dest[..] == Bytes(src[..])[..num] + old(dest[num..])
  {
    ghost var was := dest[..];
    for k := 0 to num
      invariant forall i | 0 <= i < dest.Length :: dest[i] == if i < k then ByteAt(src[..], i) else was[i]
    {
      dest[k] := if k % 2 == 0 then src[k / 2] % 0x100 else src[k / 2] / 0x100;
    }
    assert dest[..] == Bytes(src[..])[..num] + was[num..];
  }

  /** `w` with its lower (0) or upper (1) byte replaced. */
  function WithByte(w: Word, half: nat, b: Byte): (r: Word)
    requires half < 2
    ensures r % 0x100 == if half == 0 then b else w % 0x100
    ensures r / 0x100 == if half == 0 then w / 0x100 else b
  {
    var value: nat := b;
    if half == 0 then value + 0x100 * (w / 0x100) else w % 0x100 + 0x100 * value
  }

  method Inject(dest: array<Word>, src: array<Byte>, num: nat)
    requires dest.Length == WORDS && src.Length >= if num > PSCPU_MAX / 8 then PSCPU_MAX / 8 else num
    modifies dest
    ensures var m := if num > PSCPU_MAX / 8 then PSCPU_MAX / 8 else num;
            Bytes(dest[..]) == src[..m] + old(Bytes(dest[..]))[m..]
  {
    var m := if num > PSCPU_MAX / 8 then PSCPU_MAX / 8 else num;
    ghost var was := Bytes(dest[..]);
    hide WithByte;
    for k := 0 to m
      invariant forall i | 0 <= i < 2 * WORDS :: ByteAt(dest[..], i) == if i < k then src[i] else was[i]
    {
      dest[k / 2] := WithByte(dest[k / 2], k % 2, src[k]);
    }
    assert Bytes(dest[..]) == src[..m] + was[m..];
  }

  /** What arrives when the bytes for `num` CPUs are extracted from one set and
      injected into a cleared one: its CPUs up to the next multiple of 8. */
  lemma CarriedCpus(sent: seq<Word>, received: seq<Word>, num: nat)
    requires |sent| == |received| == WORDS
    requires var m := BytesForCPUs(num); Bytes(received) == Bytes(sent)[..m] + Bytes(Zeros())[m..]
    ensures Cpus(received) == set c | c in Cpus(sent) && c < 8 * BytesForCPUs(num)
  {
    var m := BytesForCPUs(num);
    forall c: nat | c < PSCPU_MAX ensures Has(received, c) <==> Has(sent, c) && c < 8 * m {
      HasIsByteBit(received, c);
      HasIsByteBit(sent, c);
      assert ByteAt(received, c / 8) == Bytes(received)[c / 8];
      NoBits(c % 8);
    }
  }

  /** A SLOTS message: the sender extracts what `num` CPUs need, the receiver
      clears its set and injects it. */
  method Carry(src: array<Word>, dest: array<Word>, num: nat)
    requires src.Length == dest.Length == WORDS
    modifies dest
    ensures Cpus(dest[..]) == set c | c in old(Cpus(src[..])) && c < 8 * BytesForCPUs(num)
  {
    hide Cpus, ByteAt;
    var bytes := BytesForCPUs(num);
    ghost var sent := src[..];
    var buf := new Byte[bytes](_ => 0);
    Extract(buf, src, bytes);
    assert buf[..] == Bytes(sent)[..bytes];
    ClrAll(dest);
    Inject(dest, buf, bytes);
    CarriedCpus(sent, dest[..], num);
  }

  // ----- comparison

  /** `ws` has `cpu` and `vs` has not, and the two agree on all CPUs in earlier
      bytes and on the higher ones in the same byte. */
  ghost predicate Leads(ws: seq<Word>, vs: seq<Word>, cpu: nat)
    requires |ws| == |vs| == WORDS
  {
    && Has(ws, cpu) && !Has(vs, cpu)
    && forall d | 0 <= d < cpu / 8 * 8 || cpu < d < cpu / 8 * 8 + 8 :: Has(ws, d) <==> Has(vs, d)
  }

  lemma BytesLead(ws: seq<Word>, vs: seq<Word>, k: nat) returns (cpu: nat)
    requires |ws| == |vs| == WORDS && k < 2 * WORDS
    requires Bytes(ws)[..k] == Bytes(vs)[..k] && ByteAt(ws, k) != ByteAt(vs, k)
    ensures if ByteAt(ws, k) > ByteAt(vs, k) then Leads(ws, vs, cpu) else Leads(vs, ws, cpu)
  {
    hide Bit;
    WordWidth();
    var top := HighestDifference(ByteAt(ws, k), ByteAt(vs, k), 8);
    cpu := 8 * k + top;
    forall d: nat | d < 8 * k ensures Has(ws, d) <==> Has(vs, d) {
      HasIsByteBit(ws, d);
      HasIsByteBit(vs, d);
      assert Bytes(ws)[..k][d / 8] == Bytes(vs)[..k][d / 8];
    }
    forall d: nat | 8 * k <= d < 8 * k + 8
      ensures Has(ws, d) <==> Bit(ByteAt(ws, k), d - 8 * k)
      ensures Has(vs, d) <==> Bit(ByteAt(vs, k), d - 8 * k)
    {
      assert d / 8 == k && d % 8 == d - 8 * k;
      HasIsByteBit(ws, d);
      HasIsByteBit(vs, d);
    }
    assert Has(ws, cpu) <==> Bit(ByteAt(ws, k), top);
    assert Has(vs, cpu) <==> Bit(ByteAt(vs, k), top);
    LeadsAt(ws, vs, k, cpu);
  }

  lemma LeadsAt(ws: seq<Word>, vs: seq<Word>, k: nat, cpu: nat)
    requires |ws| == |vs| == WORDS && cpu / 8 == k
    requires forall d: nat | d < 8 * k || cpu < d < 8 * k + 8 :: Has(ws, d) <==> Has(vs, d)
    requires Has(ws, cpu) != Has(vs, cpu)
    ensures if Has(ws, cpu) then Leads(ws, vs, cpu) else Leads(vs, ws, cpu)
  {
    hide Has;
  }

  lemma LeadsOneWay(ws: seq<Word>, vs: seq<Word>, c: nat, d: nat)
    requires |ws| == |vs| == WORDS
    requires Leads(ws, vs, c)
    ensures !Leads(vs, ws, d)
  {
  }

  lemma BytesSame(ws: seq<Word>, vs: seq<Word>)
    requires |ws| == |vs| == WORDS
    ensures ws == vs <==> Bytes(ws) == Bytes(vs)
  {
    if Bytes(ws) == Bytes(vs) {
      forall k | 0 <= k < WORDS ensures ws[k] == vs[k] {
        assert Bytes(ws)[2 * k] == Bytes(vs)[2 * k] && Bytes(ws)[2 * k + 1] == Bytes(vs)[2 * k + 1];
      }
    }
  }

  /** memcmp on the bytes of both words. */
  method Cmp(s1: array<Word>, s2: array<Word>) returns (r: int)
    requires s1.Length == s2.Length == WORDS
    ensures r == 0 <==> Cpus(s1[..]) == Cpus(s2[..])
    ensures r > 0 <==> exists cpu :: Leads(s1[..], s2[..], cpu)
    ensures r < 0 <==> exists cpu :: Leads(s2[..], s1[..], cpu)
  {
    hide Leads, Cpus, Has, Bit;
    ghost var ws, vs := s1[..], s2[..];
    SameCpusIff(ws, vs);
    BytesSame(ws, vs);
    for k := 0 to 2 * WORDS
      invariant Bytes(ws)[..k] == Bytes(vs)[..k]
    {
      var a: int := if k % 2 == 0 then s1[k / 2] % 0x100 else s1[k / 2] / 0x100;
      var b: int := if k % 2 == 0 then s2[k / 2] % 0x100 else s2[k / 2] / 0x100;
      assert a == Bytes(ws)[k] && b == Bytes(vs)[k];
      if a != b {
        ghost var cpu := BytesLead(ws, vs, k);
        forall d ensures if a > b then !Leads(vs, ws, d) else !Leads(ws, vs, d) {
          if a > b {
            LeadsOneWay(ws, vs, cpu, d);
          } else {
            LeadsOneWay(vs, ws, cpu, d);
          }
        }
        return a - b;
      }
    }
    assert Bytes(ws) == Bytes(vs);
    NoneLeads(ws);
    return 0;
  }

  lemma NoneLeads(ws: seq<Word>)
    requires |ws| == WORDS
    ensures forall cpu :: !Leads(ws, ws, cpu)
  {
  }

  ghost predicate Differ(ws: seq<Word>, vs: seq<Word>, cpu: nat)
    requires |ws| == |vs| == WORDS
  {
    Has(ws, cpu) != Has(vs, cpu)
  }

  /** `lo` is the first CPU in which the sets differ, `hi` the last such CPU in the
      same byte. */
  ghost predicate FirstAndLast(ws: seq<Word>, vs: seq<Word>, lo: nat, hi: nat)
    requires |ws| == |vs| == WORDS
  {
    && Differ(ws, vs, lo) && (forall d: nat | d < lo :: !Differ(ws, vs, d))
    && lo <= hi && hi / 8 == lo / 8
    && Differ(ws, vs, hi) && (forall d: nat | hi < d < lo / 8 * 8 + 8 :: !Differ(ws, vs, d))
  }

  /** `ws` compares greater than `vs`; see Cmp. */
  ghost predicate Above(ws: seq<Word>, vs: seq<Word>)
    requires |ws| == |vs| == WORDS
  {
    exists cpu :: Leads(ws, vs, cpu)
  }

  /** The documentation says the order depends on which set holds the first CPU.
      This is so exactly if the same set holds the last CPU in that byte, too. */
  lemma FirstCpuDecidesIff(ws: seq<Word>, vs: seq<Word>, lo: nat, hi: nat)
    requires |ws| == |vs| == WORDS && FirstAndLast(ws, vs, lo, hi)
    ensures Above(ws, vs) <==> Has(ws, hi)
    ensures (Above(ws, vs) <==> Has(ws, lo)) <==> (Has(ws, hi) <==> Has(ws, lo))
  {
    hide Has, Leads;
    forall d: nat | d < 8 * (hi / 8) || hi < d < 8 * (hi / 8) + 8 ensures Has(ws, d) <==> Has(vs, d) {
      assert !Differ(ws, vs, d);
    }
    LeadsAt(ws, vs, hi / 8, hi);
    if Leads(vs, ws, hi) {
      forall d ensures !Leads(ws, vs, d) {
        LeadsOneWay(vs, ws, hi, d);
      }
    }
  }

  lemma NoDifference(ws: seq<Word>, vs: seq<Word>)
    requires |ws| == |vs| == WORDS && forall c: nat | c < PSCPU_MAX :: !Differ(ws, vs, c)
    ensures Cpus(ws) == Cpus(vs)
  {
    hide Has;
    forall c: nat | c < PSCPU_MAX ensures Has(ws, c) <==> Has(vs, c) {
      assert !Differ(ws, vs, c);
    }
  }

  /** Different sets have such CPUs. */
  lemma FirstDifference(ws: seq<Word>, vs: seq<Word>) returns (lo: nat, hi: nat)
    requires |ws| == |vs| == WORDS && Cpus(ws) != Cpus(vs)
    ensures FirstAndLast(ws, vs, lo, hi)
  {
    hide Has;
    if forall c: nat | c < PSCPU_MAX :: !Differ(ws, vs, c) {
      NoDifference(ws, vs);
    }
    var c: nat :| 0 <= c < PSCPU_MAX && Differ(ws, vs, c);
    lo := 0;
    while !Differ(ws, vs, lo)
      invariant lo <= c && forall d: nat | d < lo :: !Differ(ws, vs, d)
      decreases c - lo
    {
      lo := lo + 1;
    }
    hi := lo / 8 * 8 + 7;
    while !Differ(ws, vs, hi)
      invariant lo <= hi && hi / 8 == lo / 8
      invariant forall d: nat | hi < d < lo / 8 * 8 + 8 :: !Differ(ws, vs, d)
      decreases hi
    {
      hi := hi - 1;
    }
  }

  /** So the first CPU alone does not decide: twice it is CPU 0 and in the first
      set, but one comparison goes up and the other down. */
  lemma FirstCpuDoesNotDecide(a: seq<Word>, b: seq<Word>, c: seq<Word>)
    requires a == Zeros()[0 := 0x5] && b == Zeros()[0 := 0x1] && c == Zeros()[0 := 0x2]
    ensures Has(a, 0) && Has(b, 0) && !Has(c, 0)
    ensures Leads(a, c, 2) && Leads(c, b, 1)
  {
    forall d: nat ensures Has(a, d) <==> d == 0 || d == 2
                  ensures Has(b, d) <==> d == 0
                  ensures Has(c, d) <==> d == 1 {
      if d < PSCPU_MAX {
        SmallBits(d % 16);
        NoBits(d % 16);
      }
    }
  }

  lemma SmallBits(i: nat)
    ensures Bit(5, i) <==> i == 0 || i == 2
    ensures Bit(1, i) <==> i == 0
    ensures Bit(2, i) <==> i == 1
  {
    if i > 2 {
      NoBits(i - 3);
      assert !Bit(1, i - 2);
    } else if i == 2 {
      assert Bit(5, 2) == Bit(2, 1) == Bit(1, 0);
    }
  }
}
