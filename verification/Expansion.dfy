/** scripts/psexpand.py: scanning and unfolding of node lists. */
module Expansion {
  import opened Decimals
  import opened Options

  /** First place of `c` in `s`, or `|s|`. */
  function IndexOf(c: char, s: string): (k: nat)
    ensures k <= |s|
    ensures k < |s| ==> s[k] == c
    ensures forall i | 0 <= i < k :: s[i] != c
  {
    if s == "" || s[0] == c then 0 else 1 + IndexOf(c, s[1..])
  }

  /** `s.split(",")` */
  function SplitOn(c: char, s: string): (ps: seq<string>)
    ensures ps != []
    decreases |s|
  {
    var k := IndexOf(c, s);
    if k == |s| then [s] else [s[..k]] + SplitOn(c, s[k + 1..])
  }

  // ----- ranges

  /** The two groups of RANGE_RE, if it matches: digits, a dash, digits. The
      pattern's `$` also accepts one newline at the very end. */
  function MatchRange(s: string): Option<(string, string)> {
    var body := if s != "" && s[|s| - 1] == '\n' then s[..|s| - 1] else s;
    var k := IndexOf('-', body);
    if k < |body| && IsNumeral(body[..k]) && IsNumeral(body[k + 1..]) then
      Some((body[..k], body[k + 1..]))
    else
      None
  }

  /** The numbers from `first` to `last`, each at the given width. */
  function Span(width: nat, first: nat, last: nat): (ss: seq<string>)
    ensures |ss| == if first <= last then last + 1 - first else 0
    decreases last + 1 - first
  {
    if first > last then [] else [PadTo(width, first)] + Span(width, first + 1, last)
  }

  function ExpandRange(s: string): seq<string> {
    match MatchRange(s)
    case Some((lo, hi)) => Span(|lo|, ValueOf(lo), ValueOf(hi))
    case None => if s != "" then [s] else []
  }

  function ExpandRanges(ps: seq<string>): seq<string> {
    if ps == [] then [] else ExpandRange(ps[0]) + ExpandRanges(ps[1..])
  }

  // ----- products

  /** `p` put in front of each string. */
  function Prefix(p: string, ss: seq<string>): (r: seq<string>)
    ensures |r| == |ss|
    ensures forall i | 0 <= i < |ss| :: r[i] == p + ss[i]
  {
    seq(|ss|, i requires 0 <= i < |ss| => p + ss[i])
  }

  /** Each string between `p` and `t`. */
  function Around(p: string, ss: seq<string>, t: string): (r: seq<string>)
    ensures |r| == |ss|
  {
    seq(|ss|, i requires 0 <= i < |ss| => p + ss[i] + t)
  }

  /** Each head in front of all tails, the tails running fastest. */
  function Choose(heads: seq<string>, tails: seq<string>): seq<string> {
    if heads == [] then [] else Prefix(heads[0], tails) + Choose(heads[1..], tails)
  }

  /** The joined tuples of `product(*choices)`. */
  function Product(choices: seq<seq<string>>): seq<string> {
    if choices == [] then [""] else Choose(choices[0], Product(choices[1..]))
  }

  // ----- groups

  /** A literal and the range set that follows it, if one does. */
  type Piece = (string, Option<string>)

  /** What is before the first bracket, in it, and behind it. */
  function Cut(s: string): (r: Option<(string, string, string)>)
    ensures r.Some? ==> |r.value.2| < |s|
  {
    var i := IndexOf('[', s);
    if i == |s| then None else
    var u := s[i + 1..];
    var j := IndexOf(']', u);
    if j == |u| then None else Some((s[..i], u[..j], u[j + 1..]))
  }

  /** The pairs that grouping `re.split(GROUP_RE, s)` by two yields. */
  function Pieces(s: string): seq<Piece>
    decreases |s|
  {
    match Cut(s)
    case None => [(s, None)]
    case Some((literal, ranges, rest)) => [(literal, Some(ranges))] + Pieces(rest)
  }

  function ExpandPiece(p: Piece): seq<string> {
    match p.1
    case None => [p.0]
    case Some(rs) => if rs == "" then [] else Prefix(p.0, ExpandRanges(SplitOn(',', rs)))
  }

  function ExpandPieces(ps: seq<Piece>): seq<seq<string>> {
    if ps == [] then [] else [ExpandPiece(ps[0])] + ExpandPieces(ps[1..])
  }

  function ExpandGroup(s: string): seq<string> {
    Product(ExpandPieces(Pieces(s)))
  }

  // ----- lists

  /** Length of what LIST_RE matches at the front of `s`: closed brackets, or
      single characters other than a comma. */
  function MatchElem(s: string): (k: nat)
    ensures k <= |s|
    ensures k < |s| ==> s[k] == ','
    decreases |s|
  {
    if s == "" then 0
    else if s[0] == '[' && IndexOf(']', s) < |s| then
      var j := IndexOf(']', s) + 1;
      j + MatchElem(s[j..])
    else if s[0] == ',' then 0
    else 1 + MatchElem(s[1..])
  }

  /** What `expand_list` yields. The assertion of the script, a comma after
      each element, is the contract of MatchElem. */
  function Expanded(s: string): seq<string>
    decreases |s|
  {
    var k := MatchElem(s);
    ExpandGroup(s[..k]) + if k == |s| then [] else Expanded(s[k + 1..])
  }

  lemma ExpandedStep(s: string)
    ensures var k := MatchElem(s);
            && (k == |s| ==> Expanded(s) == ExpandGroup(s[..k]))
            && (k < |s| ==> Expanded(s) == ExpandGroup(s[..k]) + Expanded(s[k + 1..]))
  {
    hide MatchElem, ExpandGroup;
    assert ExpandGroup(s[..MatchElem(s)]) + [] == ExpandGroup(s[..MatchElem(s)]);
  }

  /** The scanner loop. */
  method ExpandList(text: string) returns (names: seq<string>)
    ensures names == Expanded(text)
  {
    var s := text;
    names := [];
    var end := MatchElem(s);
    while true
      invariant end == MatchElem(s)
      invariant names + Expanded(s) == Expanded(text)
      decreases |s|
    {
      ghost var before, found := s, names;
      ExpandedStep(before);
      names := names + ExpandGroup(s[..end]);
      s := s[end..];
      if s == "" {
        assert end == |before|;
        break;
      }
      assert s[0] == ',';
      s := s[1..];
      assert s == before[end + 1..];
      assert names + Expanded(s) == found + (ExpandGroup(before[..end]) + Expanded(s));
      end := MatchElem(s);
    }
  }
}
