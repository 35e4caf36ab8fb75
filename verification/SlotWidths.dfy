/** How wide the lines of printSlots (bin/admin/commands.c) get. */
module SlotWidths {
  import opened Decimals
  import opened Expansion
  import opened PrintParse
  import opened Sequences
  import opened SlotLists

  /** A line without its leading blanks. */
  function Strip(line: string): string {
    if line != "" && line[0] == ' ' then Strip(line[1..]) else line
  }

  predicate Fit(lines: seq<string>, width: nat) {
    forall i | 0 <= i < |lines| :: |Strip(lines[i])| <= width
  }

  /** All lines of the text stay within the width. */
  predicate LinesFit(s: string, width: nat) {
    Fit(SplitOn('\n', s), width)
  }

  /** A token with the comma behind it. */
  function Item(ts: seq<Token>, i: nat): string
    requires i < |ts|
  {
    FormatToken(ts[i]) + if i + 1 < |ts| then "," else ""
  }

  predicate ItemsFit(ts: seq<Token>, width: nat) {
    forall i | 0 <= i < |ts| :: |Item(ts, i)| <= width
  }

  /** Part of a line: no line break, and not starting with a blank. */
  predicate Inked(s: string) {
    '\n' !in s && (s == "" || s[0] != ' ')
  }

  lemma {:induction false} StripSpaces(n: nat, cur: string)
    requires Inked(cur)
    ensures Strip(Spaces(n) + cur) == cur && '\n' !in Spaces(n) + cur
  {
    if n == 0 {
      assert Spaces(0) + cur == cur;
    } else {
      StripSpaces(n - 1, cur);
      assert (Spaces(n) + cur)[1..] == Spaces(n - 1) + cur;
    }
  }

  /** One line. */
  lemma LineFits(n: nat, cur: string, width: nat)
    requires Inked(cur)
    ensures LinesFit(Spaces(n) + cur, width) <==> |cur| <= width
  {
    hide IndexOf, Strip;
    var s := Spaces(n) + cur;
    StripSpaces(n, cur);
    IndexOfAbsent('\n', s);
    var lines := SplitOn('\n', s);
    assert lines == [s];
    assert lines[0] == s && Strip(s) == cur;
  }

  lemma FitConcat(ls: seq<string>, ms: seq<string>, width: nat)
    ensures Fit(ls + ms, width) <==> Fit(ls, width) && Fit(ms, width)
  {
    hide Strip;
    if Fit(ls + ms, width) {
      forall i | 0 <= i < |ls| ensures |Strip(ls[i])| <= width {
        assert (ls + ms)[i] == ls[i];
      }
      forall i | 0 <= i < |ms| ensures |Strip(ms[i])| <= width {
        assert (ls + ms)[|ls| + i] == ms[i];
      }
    }
  }

  /** A line break separates two texts. */
  lemma BreakFits(s: string, t: string, width: nat)
    ensures LinesFit(s + ['\n'] + t, width) <==> LinesFit(s, width) && LinesFit(t, width)
  {
    hide Fit, SplitOn;
    SplitOnConcat('\n', s, t);
    FitConcat(SplitOn('\n', s), SplitOn('\n', t), width);
  }

  lemma ItemsSplit(ts: seq<Token>, width: nat)
    requires ts != []
    ensures ItemsFit(ts, width) <==> |Item(ts, 0)| <= width && ItemsFit(ts[1..], width)
  {
    hide FormatToken;
    forall i: nat | i < |ts| - 1 ensures Item(ts[1..], i) == Item(ts, i + 1) {
    }
    if |Item(ts, 0)| <= width && ItemsFit(ts[1..], width) {
      forall i: nat | i < |ts| ensures |Item(ts, i)| <= width {
        if i > 0 {
          assert |Item(ts[1..], i - 1)| <= width;
        }
      }
    }
  }

  lemma ItemIsInked(ts: seq<Token>, cur: string)
    requires ts != [] && Inked(cur)
    ensures Inked(Item(ts, 0)) && Inked(cur + Item(ts, 0))
  {
    hide FormatToken;
    TokenText(ts[0]);
  }

  /** What follows the part `cur` of a line that is `pos` wide. */
  lemma {:induction false} LayoutFitsIff(ts: seq<Token>, n: nat, cur: string, pos: nat, width: nat, offset: nat)
    requires Inked(cur) && (ts != [] ==> pos == |cur|)
    ensures LinesFit(Spaces(n) + cur + Layout(ts, pos, width, offset), width) <==>
            |cur| <= width && ItemsFit(ts, width)
    decreases |ts|
  {
    hide FormatToken, LinesFit, Layout, ItemsFit, Inked, Spaces, Item;
    if ts == [] {
      LayoutEnd(pos, width, offset);
      NoItems(width);
      assert Spaces(n) + cur + "" == Spaces(n) + cur;
      LineFits(n, cur, width);
    } else {
      LayoutItem(ts, pos, width, offset);
      ItemsSplit(ts, width);
      ItemIsInked(ts, cur);
      var item, end := Item(ts, 0), pos + |FormatToken(ts[0])| + 1;
      if end <= width {
        var rest := Layout(ts[1..], end, width, offset);
        LayoutFitsIff(ts[1..], n, cur + item, end, width, offset);
        assert Spaces(n) + cur + (item + rest) == Spaces(n) + (cur + item) + rest;
      } else {
        var rest := Layout(ts[1..], end - pos, width, offset);
        LayoutFitsIff(ts[1..], offset, item, end - pos, width, offset);
        LineFits(n, cur, width);
        BreakFits(Spaces(n) + cur, Spaces(offset) + item + rest, width);
        assert Spaces(n) + cur + ("\n" + Spaces(offset) + item + rest) ==
               Spaces(n) + cur + ['\n'] + (Spaces(offset) + item + rest);
      }
    }
  }

  lemma NoItems(width: nat)
    ensures ItemsFit([], width)
  {
  }

  lemma LayoutItem(ts: seq<Token>, pos: nat, width: nat, offset: nat)
    requires ts != []
    ensures var end := pos + |FormatToken(ts[0])| + 1;
            && Layout(ts, pos, width, offset) ==
               (if end > width then "\n" + Spaces(offset) + Item(ts, 0) + Layout(ts[1..], end - pos, width, offset)
                else Item(ts, 0) + Layout(ts[1..], end, width, offset))
            && |Item(ts, 0)| == end - pos - if |ts| == 1 then 1 else 0
  {
    LayoutStep(ts, pos, width, offset);
    hide FormatToken, Layout;
    var item := Item(ts, 0);
    assert "" + item == item;
  }

  /** Exactly when the output stays within its width: every token does, with the
      comma behind it. */
  lemma OutputFitsIff(nodes: seq<nat>, width: nat, offset: nat)
    ensures LinesFit(" " + Layout(Tokens(nodes, 0), 0, width, offset), width) <==> ItemsFit(Tokens(nodes, 0), width)
  {
    hide Tokens, Layout, LinesFit, ItemsFit;
    LayoutFitsIff(Tokens(nodes, 0), 1, "", 0, width, offset);
    assert " " == Spaces(1) + "";
  }

  // ----- where lines are broken

  /** Width of a row of tokens, each with a comma. */
  function RowWidth(row: seq<Token>): nat {
    if row == [] then 0 else |FormatToken(row[0])| + 1 + RowWidth(row[1..])
  }

  function AllTokens(rows: seq<seq<Token>>): seq<Token> {
    if rows == [] then [] else rows[0] + AllTokens(rows[1..])
  }

  /** The rows as lines, all but the first behind `offset` blanks. */
  function RowsText(rows: seq<seq<Token>>, offset: nat): string {
    if rows == [] then ""
    else if |rows| == 1 then FormatTokens(rows[0])
    else FormatTokens(rows[0]) + (if rows[0] == [] then "" else ",") +
         ("\n" + Spaces(offset) + RowsText(rows[1..], offset))
  }

  /** The first token of each row does not fit behind the row before it. The first row
      is `pos` wide already. */
  predicate Greedy(rows: seq<seq<Token>>, pos: nat, width: nat) {
    && rows != []
    && (forall i | 1 <= i < |rows| :: rows[i] != [])
    && (|rows| > 1 ==> pos + RowWidth(rows[0]) + |FormatToken(rows[1][0])| + 1 > width)
    && (forall i | 1 <= i < |rows| - 1 :: RowWidth(rows[i]) + |FormatToken(rows[i + 1][0])| + 1 > width)
  }

  lemma RowCons(t: Token, row: seq<Token>)
    ensures RowWidth([t] + row) == |FormatToken(t)| + 1 + RowWidth(row)
    ensures FormatTokens([t] + row) == FormatToken(t) + (if row == [] then "" else ",") + FormatTokens(row)
  {
    hide FormatToken;
    assert ([t] + row)[1..] == row;
  }

  lemma NoTokensIff(rows: seq<seq<Token>>)
    requires rows != [] && forall i | 1 <= i < |rows| :: rows[i] != []
    ensures AllTokens(rows) == [] <==> rows[0] == [] && |rows| == 1
  {
    if |rows| > 1 {
      assert AllTokens(rows[1..]) == rows[1] + AllTokens(rows[1..][1..]);
    }
  }

  lemma {:induction false} GreedyCons(t: Token, rows: seq<seq<Token>>, pos: nat, width: nat)
    requires Greedy(rows, pos + |FormatToken(t)| + 1, width)
    ensures Greedy([[t] + rows[0]] + rows[1..], pos, width)
  {
    RowCons(t, rows[0]);
    hide FormatToken, FormatTokens, RowWidth;
    var more := [[t] + rows[0]] + rows[1..];
    forall i | 1 <= i < |more| ensures more[i] == rows[i] {
    }
  }

  /** A comma stands between two tokens of a row, and between two rows. */
  lemma CommaCons(t: string, text: string, rest: string)
    ensures var inner := if text == "" then "" else ",";
            (t + inner + text) + "," + rest == t + "," + (text + inner + rest)
  {
  }

  lemma TokensText(row: seq<Token>)
    ensures FormatTokens(row) == "" <==> row == []
  {
    if row != [] {
      TokenText(row[0]);
    }
  }

  lemma {:induction false} InFirstRow(t: Token, rows: seq<seq<Token>>, offset: nat)
    requires rows != [] && forall i | 1 <= i < |rows| :: rows[i] != []
    ensures var more := [[t] + rows[0]] + rows[1..];
            && AllTokens(more) == [t] + AllTokens(rows)
            && RowsText(more, offset) ==
               FormatToken(t) + (if AllTokens(rows) == [] then "" else ",") + RowsText(rows, offset)
  {
    var more := [[t] + rows[0]] + rows[1..];
    RowCons(t, rows[0]);
    NoTokensIff(rows);
    TokensText(rows[0]);
    hide FormatToken, Spaces, FormatTokens, RowWidth;
    assert more[1..] == rows[1..];
    Assoc([t], rows[0], AllTokens(rows[1..]));
    if |rows| > 1 {
      FirstLine(rows, offset);
      FirstLine(more, offset);
      var text := FormatTokens(rows[0]);
      CommaCons(FormatToken(t), text, "\n" + Spaces(offset) + RowsText(rows[1..], offset));
    }
  }

  lemma FirstLine(rows: seq<seq<Token>>, offset: nat)
    requires |rows| > 1
    ensures RowsText(rows, offset) ==
            FormatTokens(rows[0]) + (if rows[0] == [] then "" else ",") +
            ("\n" + Spaces(offset) + RowsText(rows[1..], offset))
  {
    hide FormatTokens, Spaces;
  }

  /** A line break in front of the first row. */
  lemma InNextRow(rows: seq<seq<Token>>, pos: nat, width: nat, offset: nat)
    requires Greedy(rows, 0, width) && rows[0] != [] && pos + |FormatToken(rows[0][0])| + 1 > width
    ensures var more := [[]] + rows;
            && Greedy(more, pos, width) && AllTokens(more) == AllTokens(rows)
            && RowsText(more, offset) == "\n" + Spaces(offset) + RowsText(rows, offset)
  {
    hide FormatToken, Spaces;
    var more := [[]] + rows;
    assert more[1..] == rows;
    forall i | 1 <= i < |more| ensures more[i] == rows[i - 1] {
    }
    assert FormatTokens([]) == "";
  }

  lemma {:induction false} LayoutIsGreedy(ts: seq<Token>, pos: nat, width: nat, offset: nat)
      returns (rows: seq<seq<Token>>)
    ensures Greedy(rows, pos, width) && AllTokens(rows) == ts
    ensures Layout(ts, pos, width, offset) == RowsText(rows, offset)
    decreases |ts|
  {
    hide FormatToken, Layout, Greedy, RowsText, AllTokens, Spaces;
    if ts == [] {
      rows := [[]];
      NoRows(pos, width, offset);
    } else {
      LayoutStep(ts, pos, width, offset);
      var t := ts[0];
      var end := pos + |FormatToken(t)| + 1;
      if end <= width {
        var rest := LayoutIsGreedy(ts[1..], end, width, offset);
        rows := OneRowMore(t, rest, pos, width, offset);
      } else {
        var rest := LayoutIsGreedy(ts[1..], |FormatToken(t)| + 1, width, offset);
        var first := OneRowMore(t, rest, 0, width, offset);
        rows := [[]] + first;
        InNextRow(first, pos, width, offset);
      }
      assert ts == [t] + ts[1..];
    }
  }

  lemma {:induction false} OneRowMore(t: Token, rows: seq<seq<Token>>, pos: nat, width: nat, offset: nat)
      returns (more: seq<seq<Token>>)
    requires Greedy(rows, pos + |FormatToken(t)| + 1, width)
    ensures Greedy(more, pos, width) && AllTokens(more) == [t] + AllTokens(rows) && more[0] != [] && more[0][0] == t
    ensures RowsText(more, offset) ==
            FormatToken(t) + (if AllTokens(rows) == [] then "" else ",") + RowsText(rows, offset)
  {
    hide FormatToken, RowsText, AllTokens, Spaces;
    more := [[t] + rows[0]] + rows[1..];
    GreedyCons(t, rows, pos, width);
    InFirstRow(t, rows, offset);
  }

  lemma NoRows(pos: nat, width: nat, offset: nat)
    ensures Greedy([[]], pos, width) && AllTokens([[]]) == []
    ensures Layout([], pos, width, offset) == RowsText([[]], offset)
  {
    LayoutEnd(pos, width, offset);
    var none: seq<seq<Token>> := [[]];
    assert none[1..] == [];
  }

  // ----- a token that does not fit

  lemma DecimalStep(n: nat)
    requires n >= 10
    ensures |Decimal(n)| == |Decimal(n / 10)| + 1
  {
  }

  lemma LongDecimal(n: nat)
    requires 1_000_000_000 <= n < 10_000_000_000
    ensures |Decimal(n)| == 10
  {
    hide Decimal;
    DecimalStep(n);
    DecimalStep(n / 10);
    DecimalStep(n / 100);
    DecimalStep(n / 1000);
    DecimalStep(n / 10_000);
    DecimalStep(n / 100_000);
    DecimalStep(n / 1_000_000);
    DecimalStep(n / 10_000_000);
    DecimalStep(n / 100_000_000);
    ShortDecimal(n / 1_000_000_000);
  }

  lemma ShortDecimal(n: nat)
    requires n < 10
    ensures |Decimal(n)| == 1
  {
  }

  /** Two nodes with ten digits each make a token of 21 characters, one more than
      the narrowest width that is used. */
  lemma WideToken(offset: nat)
    ensures var nodes := [1_000_000_000, 1_000_000_001];
            && Tokens(nodes, 0) == [Token(nodes[0], nodes[1], 1)]
            && !LinesFit(" " + Layout(Tokens(nodes, 0), 0, 20, offset), 20)
  {
    hide Layout, LinesFit, Decimal;
    var nodes: seq<nat> := [1_000_000_000, 1_000_000_001];
    OutputFitsIff(nodes, 20, offset);
    var ts := Tokens(nodes, 0);
    assert ts == [Token(nodes[0], nodes[1], 1)];
    LongDecimal(nodes[0]);
    LongDecimal(nodes[1]);
    assert |Item(ts, 0)| == 21;
  }
}
