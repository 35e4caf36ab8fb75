/** The growing `exec_hosts` buffer that handleAccSlotsMsg of bin/psaccounter.c
    fills through the C string functions. */
module ExecHosts {
  import opened Decimals
  import opened Jobs
  import opened Sequences

  const NUL := '\0'

  /** MAX_HOSTNAME_LEN, EXEC_HOST_SIZE and the size of `ctmphost` */
  const MAX_HOSTNAME_LEN := 64
  const EXEC_HOST_SIZE := 1024
  const ENTRY_SIZE := 400

  /** `strlen`: the place of the first NUL. */
  function StrLen(s: seq<char>): (n: nat)
    requires NUL in s
    ensures n < |s| && s[n] == NUL && NUL !in s[..n]
  {
    if s[0] == NUL then 0 else 1 + StrLen(s[1..])
  }

  lemma FoundBefore(s: seq<char>, i: nat, n: nat)
    requires i < n <= |s| && s[i] == NUL
    ensures NUL in s[..n]
  {
    assert s[..n][i] == NUL;
  }

  lemma {:induction false} StrLenIs(s: seq<char>, n: nat)
    requires n < |s| && s[n] == NUL && NUL !in s[..n]
    ensures NUL in s && StrLen(s) == n
  {
    if n > 0 {
      assert s[0] == s[..n][0];
      assert s[1..][..n - 1] == s[..n][1..];
      StrLenIs(s[1..], n - 1);
    }
  }

  /** `strncpy(dest, src, n)` into a fresh buffer of `n` characters: the string,
      then NUL up to the end. */
  method StrNCpy(src: array<char>, n: nat) returns (dest: array<char>)
    requires NUL in src[..] && StrLen(src[..]) < n
    ensures fresh(dest) && dest.Length == n
    ensures var len := StrLen(src[..]);
            && dest[..len] == src[..len] && (forall i | len <= i < n :: dest[i] == NUL)
  {
    dest := new char[n](_ => NUL);
    var i := 0;
    ghost var len := StrLen(src[..]);
    while src[i] != NUL
      invariant i <= len
      invariant forall k | 0 <= k < i :: dest[k] == src[k]
      invariant forall k | i <= k < n :: dest[k] == NUL
      decreases len - i
    {
      assert src[..][i] == src[i];
      dest[i] := src[i];
      i := i + 1;
    }
    assert i == len by {
      if i < len {
        FoundBefore(src[..], i, len);
      }
    }
  }

  /** `snprintf(dest + at, room, "%s", text)`: as much as fits, then a NUL. */
  method SNPrintF(dest: array<char>, at: nat, room: nat, text: string)
    requires room > 0 && at + room <= dest.Length
    modifies dest
    ensures var n := if |text| < room then |text| else room - 1;
            && dest[..at] == old(dest[..at])
            && dest[at..at + n] == text[..n]
            && dest[at + n] == NUL
            && dest[at + n + 1..] == old(dest[at + n + 1..])
  {
    var n := if |text| < room then |text| else room - 1;
    var i := 0;
    while i < n
      invariant i <= n
      invariant dest[..at] == old(dest[..at])
      invariant forall k | 0 <= k < i :: dest[at + k] == text[k]
      invariant forall k | at + n < k < dest.Length :: dest[k] == old(dest[k])
    {
      dest[at + i] := text[i];
      i := i + 1;
    }
    dest[at + n] := NUL;
  }

  /** What `snprintf` leaves of a string in a buffer of `size` characters. */
  function Cut(s: string, size: nat): string
    requires size > 0
  {
    if |s| < size then s else s[..size - 1]
  }

  // ----- entries

  lemma {:induction false} DecimalLength(n: nat, digits: nat, bound: nat)
    requires digits > 0 && n < bound
    requires bound <= Pow10(digits)
    ensures |Decimal(n)| <= digits
  {
    if n >= 10 {
      if digits > 1 {
        DecimalLength(n / 10, digits - 1, Pow10(digits - 1));
      }
    }
  }

  function Pow10(k: nat): (p: nat)
    ensures p > 0
  {
    if k == 0 then 1 else 10 * Pow10(k - 1)
  }

  /** An entry always fits its buffer: it is never cut. */
  lemma EntryFits(sep: string, host: string, cpu: int)
    requires |sep| <= 1 && |host| < MAX_HOSTNAME_LEN && -0x8000 <= cpu < 0x8000
    ensures |sep + (host + "/" + FormatInt(cpu))| < 72
  {
    assert Pow10(5) == 10 * Pow10(4) == 100 * Pow10(3) == 1000 * Pow10(2) == 10000 * Pow10(1) == 100000;
    DecimalLength(if cpu < 0 then -cpu else cpu, 5, 100000);
  }

  predicate Hostname(h: string) {
    |h| < MAX_HOSTNAME_LEN && NUL !in h
  }

  lemma EntryIsText(slot: Slot, hostnames: seq<string>)
    requires slot.node < |hostnames| && NUL !in hostnames[slot.node]
    ensures NUL !in SlotEntry(slot, hostnames)
  {
    assert forall i | 0 <= i < |FormatInt(slot.cpu)| :: FormatInt(slot.cpu)[i] != NUL;
  }

  // ----- the buffer

  class HostBuffer {
    var buf: array<char>
    var size: nat
    var count: nat

    /** The buffer is as large as claimed and its string ends inside. */
    ghost predicate Valid()
      reads this, buf
    {
      buf.Length == size && NUL in buf[..]
    }

    ghost function Text(): string
      requires Valid()
      reads this, buf
    {
      buf[..StrLen(buf[..])]
    }

    constructor ()
      ensures Valid() && fresh(buf) && Text() == "" && count == 0 && size == EXEC_HOST_SIZE
    {
      size, count := EXEC_HOST_SIZE, 0;
      buf := new char[EXEC_HOST_SIZE](_ => NUL);
      new;
      assert buf[..][0] == NUL;
      StrLenIs(buf[..], 0);
    }

    /** One growth makes room for any entry. */
    method Grow()
      requires Valid()
      modifies this`buf, this`size
      ensures Valid() && fresh(buf)
      ensures Text() == old(Text()) && size == old(size) + EXEC_HOST_SIZE
    {
      ghost var len, text := StrLen(buf[..]), Text();
      size := size + EXEC_HOST_SIZE;
      buf := StrNCpy(buf, size);
      assert buf[..][..len] == text;
      StrLenIs(buf[..], len);
    }

    /** Appends an entry; nothing of it is lost. */
    method Append(entry: string)
      requires Valid() && |entry| < ENTRY_SIZE && NUL !in entry
      modifies this`buf, this`size, buf
      ensures Valid() && (buf == old(buf) || fresh(buf))
      ensures Text() == old(Text()) + entry
      ensures size == old(size) || size == old(size) + EXEC_HOST_SIZE
    {
      var len := StrLen(buf[..]);
      ghost var text := Text();
      if len + |entry| + 1 > size {
        Grow();
        assert StrLen(buf[..]) == |Text()| == len;
      }
      var bufleft := size - len;
      assert buf[..len] == text;
      SNPrintF(buf, len, bufleft, entry);
      assert entry[..|entry|] == entry;
      assert buf[..len + |entry|] == buf[..len] + buf[len..len + |entry|];
      assert buf[..][..len + |entry|] == text + entry;
      StrLenIs(buf[..], len + |entry|);
    }

    /** The slots loop: whatever has been stored, the entries of the message follow
        in full, and the counter counts them. */
    method AddSlotEntries(slots: seq<Slot>, hostnames: seq<string>, ghost done: seq<string>)
      requires Valid() && Text() == JoinPlus(done) && count == |done|
      requires forall i | 0 <= i < |hostnames| :: Hostname(hostnames[i])
      requires forall i | 0 <= i < |slots| :: ShortCpu(slots[i])
      modifies this, buf
      ensures Valid() && (buf == old(buf) || fresh(buf))
      ensures Text() == JoinPlus(done + Entries(slots, hostnames)) && count == |done + Entries(slots, hostnames)|
    {
      hide JoinPlus;
      ghost var all := done + Entries(slots, hostnames);
      ghost var now := done;
      var i := 0;
      while i < |slots|
        invariant i <= |slots| && Valid() && (buf == old(buf) || fresh(buf))
        invariant Text() == JoinPlus(now) && count == |now|
        invariant now + Entries(slots[i..], hostnames) == all
      {
        assert slots[i..][0] == slots[i] && slots[i..][1..] == slots[i + 1..];
        if slots[i].node >= |hostnames| {
          assert now + [] == now;
          return;
        }
        var sep := if count != 0 then "+" else "";
        var entry := SlotEntry(slots[i], hostnames);
        EntryFits(sep, hostnames[slots[i].node], slots[i].cpu);
        EntryIsText(slots[i], hostnames);
        var ctmphost := Cut(sep + entry, ENTRY_SIZE);
        Append(ctmphost);
        JoinPlusAppend(now, entry);
        count := count + 1;
        Assoc(now, [entry], Entries(slots[i + 1..], hostnames));
        now := now + [entry];
        i := i + 1;
      }
      assert slots[|slots|..] == [] && now + [] == now;
    }

    /** All SLOTS messages about a job, from its creation on: nothing is truncated
        in any of them. */
    static method Receive(messages: seq<seq<Slot>>, hostnames: seq<string>) returns (buffer: HostBuffer)
      requires forall i | 0 <= i < |hostnames| :: Hostname(hostnames[i])
      requires forall i, j | 0 <= i < |messages| && 0 <= j < |messages[i]| :: ShortCpu(messages[i][j])
      ensures fresh(buffer) && buffer.Valid()
      ensures buffer.Text() == JoinPlus(AllEntries(messages, hostnames))
      ensures buffer.count == |AllEntries(messages, hostnames)|
    {
      hide JoinPlus, Entries, Hostname, ShortCpu;
      buffer := new HostBuffer();
      NoEntries(hostnames);
      for i := 0 to |messages|
        invariant fresh(buffer) && fresh(buffer.buf) && buffer.Valid()
        invariant buffer.Text() == JoinPlus(AllEntries(messages[..i], hostnames))
        invariant buffer.count == |AllEntries(messages[..i], hostnames)|
      {
        assert messages[..i + 1][..i] == messages[..i];
        buffer.AddSlotEntries(messages[i], hostnames, AllEntries(messages[..i], hostnames));
      }
      assert messages[..|messages|] == messages;
    }
  }

  /** The CPU number has 16 bits. */
  predicate ShortCpu(slot: Slot) {
    -0x8000 <= slot.cpu < 0x8000
  }

  lemma NoEntries(hostnames: seq<string>)
    ensures AllEntries([], hostnames) == [] && JoinPlus([]) == ""
  {
  }
}
