/** Host names seen as text alternating with groups of digits. */
module HostNames {
  import opened Decimals

  /** What `re.split(r"(\d+)", name)` yields: the even entries are `texts`, the
      odd ones `nums`. */
  datatype NameParts = NameParts(texts: seq<string>, nums: seq<string>)

  predicate DigitFree(s: string) {
    forall i | 0 <= i < |s| :: !IsDigit(s[i])
  }

  /** Length of the longest prefix without digits. */
  function TextRun(s: string): (k: nat)
    ensures k <= |s| && DigitFree(s[..k]) && (k < |s| ==> IsDigit(s[k]))
  {
    if s == "" || IsDigit(s[0]) then 0 else 1 + TextRun(s[1..])
  }

  /** Length of the longest prefix of digits. */
  function DigitRun(s: string): (k: nat)
    ensures k <= |s| && AllDigits(s[..k]) && (k < |s| ==> !IsDigit(s[k]))
    ensures s != "" && IsDigit(s[0]) ==> k > 0
  {
    if s == "" || !IsDigit(s[0]) then 0 else 1 + DigitRun(s[1..])
  }

  function SplitName(s: string): (p: NameParts)
    ensures |p.texts| == |p.nums| + 1
    decreases |s|
  {
    var k := TextRun(s);
    if k == |s| then
      NameParts([s], [])
    else
      var d := DigitRun(s[k..]);
      var rest := SplitName(s[k + d..]);
      NameParts([s[..k]] + rest.texts, [s[k..k + d]] + rest.nums)
  }

  /** Number of digit groups of a name. */
  function Groups(s: string): nat {
    |SplitName(s).nums|
  }

  function JoinName(texts: seq<string>, nums: seq<string>): string
    requires |texts| == |nums| + 1
  {
    if nums == [] then texts[0] else texts[0] + nums[0] + JoinName(texts[1..], nums[1..])
  }

  /** The texts around digit groups: no digits in them, and something between
      any two groups. */
  predicate Separators(texts: seq<string>) {
    && texts != []
    && (forall i | 0 <= i < |texts| :: DigitFree(texts[i]))
    && (forall i | 0 < i < |texts| - 1 :: texts[i] != "")
  }

  predicate Numerals(nums: seq<string>) {
    forall i | 0 <= i < |nums| :: IsNumeral(nums[i])
  }

  lemma SeparatorsCons(t: string, texts: seq<string>)
    requires DigitFree(t) && Separators(texts) && (|texts| > 1 ==> texts[0] != "")
    ensures Separators([t] + texts)
  {
    var all := [t] + texts;
    forall i | 0 < i < |all| - 1 ensures all[i] != "" {
      assert all[i] == texts[i - 1];
    }
  }

  lemma {:induction false} SplitNameShape(s: string)
    ensures var p := SplitName(s);
            && Separators(p.texts) && Numerals(p.nums)
            && (s != "" && !IsDigit(s[0]) ==> p.texts[0] != "")
    decreases |s|
  {
    var k := TextRun(s);
    if k < |s| {
      var u := s[k..];
      var d := DigitRun(u);
      var tail := s[k + d..];
      assert u[..d] == s[k..k + d];
      assert tail != "" ==> tail[0] == u[d];
      SplitNameShape(tail);
      var rest := SplitName(tail);
      SeparatorsCons(s[..k], rest.texts);
    }
  }

  lemma JoinCons(t: string, n: string, texts: seq<string>, nums: seq<string>)
    requires |texts| == |nums| + 1
    ensures JoinName([t] + texts, [n] + nums) == t + n + JoinName(texts, nums)
  {
    assert ([t] + texts)[1..] == texts;
    assert ([n] + nums)[1..] == nums;
  }

  /** The first text and the first digit group of a name. */
  lemma SplitStep(s: string, k: nat, d: nat)
    requires k == TextRun(s) && k < |s| && d == DigitRun(s[k..])
    ensures var rest := SplitName(s[k + d..]);
            SplitName(s) == NameParts([s[..k]] + rest.texts, [s[k..k + d]] + rest.nums)
  {
    hide TextRun, DigitRun;
  }

  lemma SplitPlain(s: string)
    requires TextRun(s) == |s|
    ensures SplitName(s) == NameParts([s], [])
  {
    hide TextRun;
  }

  /** Splitting loses no character of the name. */
  lemma {:induction false} JoinOfSplit(s: string)
    ensures JoinName(SplitName(s).texts, SplitName(s).nums) == s
    decreases |s|
  {
    hide SplitName, TextRun, DigitRun;
    var k := TextRun(s);
    if k == |s| {
      SplitPlain(s);
    } else {
      var d := DigitRun(s[k..]);
      assert IsDigit(s[k..][0]);
      var rest := SplitName(s[k + d..]);
      SplitStep(s, k, d);
      JoinOfSplit(s[k + d..]);
      JoinCons(s[..k], s[k..k + d], rest.texts, rest.nums);
      assert s[..k] + s[k..k + d] + s[k + d..] == s;
    }
  }

  lemma {:induction false} TextRunOfConcat(t: string, r: string)
    requires DigitFree(t) && (r == "" || IsDigit(r[0]))
    ensures TextRun(t + r) == |t|
  {
    if t == "" {
      assert t + r == r;
    } else {
      assert (t + r)[1..] == t[1..] + r;
      TextRunOfConcat(t[1..], r);
    }
  }

  lemma {:induction false} DigitRunOfConcat(t: string, r: string)
    requires AllDigits(t) && (r == "" || !IsDigit(r[0]))
    ensures DigitRun(t + r) == |t|
  {
    if t == "" {
      assert t + r == r;
    } else {
      assert (t + r)[1..] == t[1..] + r;
      DigitRunOfConcat(t[1..], r);
    }
  }

  lemma {:induction false} JoinStart(texts: seq<string>, nums: seq<string>)
    requires |texts| == |nums| + 1 && Separators(texts) && Numerals(nums)
    requires nums != [] ==> texts[0] != ""
    ensures var s := JoinName(texts, nums); s == "" || !IsDigit(s[0])
  {
    var s := JoinName(texts, nums);
    if texts[0] != "" {
      assert s[0] == texts[0][0];
    }
  }

  lemma {:induction false} SplitCons(t: string, n: string, tail: string)
    requires DigitFree(t) && IsNumeral(n) && (tail == "" || !IsDigit(tail[0]))
    ensures var rest := SplitName(tail);
            SplitName(t + n + tail) == NameParts([t] + rest.texts, [n] + rest.nums)
  {
    hide SplitName, TextRun, DigitRun;
    var s := t + n + tail;
    assert s == t + (n + tail);
    TextRunOfConcat(t, n + tail);
    DigitRunOfConcat(n, tail);
    assert s[|t|..] == n + tail;
    assert s[|t|..|t| + |n|] == n;
    assert s[|t| + |n|..] == tail;
    SplitStep(s, |t|, |n|);
    assert s[..|t|] == t;
  }

  /** The split of a name is the only way to read it as separated groups. */
  lemma {:induction false} SplitOfJoin(texts: seq<string>, nums: seq<string>)
    requires |texts| == |nums| + 1 && Separators(texts) && Numerals(nums)
    ensures SplitName(JoinName(texts, nums)) == NameParts(texts, nums)
    decreases |nums|
  {
    if nums == [] {
      TextRunOfConcat(texts[0], "");
      assert texts[0] + "" == texts[0];
      assert texts == [texts[0]];
    } else {
      var ts, ns := texts[1..], nums[1..];
      assert Separators(ts) by {
        assert forall i | 0 < i < |ts| - 1 :: ts[i] == texts[i + 1];
      }
      JoinStart(ts, ns);
      SplitCons(texts[0], nums[0], JoinName(ts, ns));
      SplitOfJoin(ts, ns);
      assert texts == [texts[0]] + ts && nums == [nums[0]] + ns;
    }
  }

  /** Host names the range syntax can carry: its own punctuation is reserved. */
  predicate Clean(s: string) {
    forall i | 0 <= i < |s| :: s[i] != '[' && s[i] != ']' && s[i] != ','
  }

  lemma {:induction false} CleanParts(texts: seq<string>, nums: seq<string>)
    requires |texts| == |nums| + 1 && Clean(JoinName(texts, nums))
    ensures forall i | 0 <= i < |texts| :: Clean(texts[i])
    decreases |nums|
  {
    var s := JoinName(texts, nums);
    if nums != [] {
      var tail := JoinName(texts[1..], nums[1..]);
      forall i | 0 <= i < |tail| ensures tail[i] == s[|texts[0]| + |nums[0]| + i] {
      }
      assert Clean(tail);
      CleanParts(texts[1..], nums[1..]);
      forall i | 0 <= i < |texts| ensures Clean(texts[i]) {
        if i == 0 {
          assert forall j | 0 <= j < |texts[0]| :: texts[0][j] == s[j];
        } else {
          assert texts[i] == texts[1..][i - 1];
        }
      }
    }
  }
}
