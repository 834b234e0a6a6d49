/**
 * `create_table`: render a header row and data rows as an aligned text
 * table. Each column is as wide as its widest cell; the header is centred,
 * a rule of '-' joined by '+' follows, and data cells are left-justified.
 */
module Table {
  import opened Outcomes
  import opened Text

  /** One row of cells, each already turned into text by `str`. */
  type Row = seq<string>

  function Min(a: int, b: int): int { if a <= b then a else b }

  function Max(a: int, b: int): int { if a >= b then a else b }

  /** The number of columns `zip(*data)` yields: the length of the shortest row. */
  function ColumnCount(data: seq<Row>): (n: nat)
    requires |data| > 0
    ensures forall i :: 0 <= i < |data| ==> n <= |data[i]|
    ensures exists i :: 0 <= i < |data| && n == |data[i]|
  {
    if |data| == 1 then |data[0]|
    else
      var rest := ColumnCount(data[1..]);
      assert exists i :: 1 <= i < |data| && rest == |data[i]|;
      Min(|data[0]|, rest)
  }

  predicate HasColumn(data: seq<Row>, j: nat) {
    forall i :: 0 <= i < |data| ==> j < |data[i]|
  }

  /** The width of column `j`: the longest cell in it, header included. */
  function ColumnWidth(data: seq<Row>, j: nat): (w: nat)
    requires |data| > 0 && HasColumn(data, j)
    ensures forall i :: 0 <= i < |data| ==> |data[i][j]| <= w
    ensures exists i :: 0 <= i < |data| && w == |data[i][j]|
  {
    if |data| == 1 then |data[0][j]|
    else
      var rest := ColumnWidth(data[1..], j);
      assert exists i :: 1 <= i < |data| && rest == |data[i][j]|;
      Max(|data[0][j]|, rest)
  }

  /** `col_widths`. */
  function Widths(data: seq<Row>): (ws: seq<nat>)
    requires |data| > 0
    ensures |ws| == ColumnCount(data)
    ensures forall j :: 0 <= j < |ws| ==> HasColumn(data, j) && ws[j] == ColumnWidth(data, j)
  {
    seq(ColumnCount(data), j requires 0 <= j < ColumnCount(data) => ColumnWidth(data, j))
  }

  /**
   * The left margin CPython's `str.center` gives: half the padding, and the
   * odd space on the left when both the padding and the width are odd.
   */
  function CenterLeft(n: nat, width: nat): (left: nat)
    ensures n >= width ==> left == 0
    ensures n < width ==> (width - n) / 2 <= left <= (width - n + 1) / 2
  {
    if width <= n then 0
    else
      var marg := width - n;
      marg / 2 + (if marg % 2 == 1 && width % 2 == 1 then 1 else 0)
  }

  /** `s.center(width)`. */
  function Center(s: string, width: nat): (r: string)
    ensures |r| == Max(width, |s|)
    ensures var left := CenterLeft(|s|, width);
      && r[left..left + |s|] == s
      && (forall k :: 0 <= k < left ==> r[k] == ' ')
      && (forall k :: left + |s| <= k < |r| ==> r[k] == ' ')
    ensures forall c :: c in r ==> c in s || c == ' '
  {
    var left := CenterLeft(|s|, width);
    var r := Spaces(left) + s + Spaces(Max(width, |s|) - |s| - left);
    assert r[left..left + |s|] == s;
    r
  }

  /** `s.ljust(width)`. */
  function LJust(s: string, width: nat): (r: string)
    ensures |r| == Max(width, |s|)
    ensures r[..|s|] == s
    ensures forall k :: |s| <= k < |r| ==> r[k] == ' '
    ensures forall c :: c in r ==> c in s || c == ' '
  {
    if width <= |s| then s else s + Spaces(width - |s|)
  }

  function HeaderCells(header: Row, ws: seq<nat>): (cells: seq<string>)
    requires |ws| <= |header|
    ensures |cells| == |ws|
    ensures forall j :: 0 <= j < |ws| ==> cells[j] == Center(header[j], ws[j])
  {
    seq(|ws|, j requires 0 <= j < |ws| => Center(header[j], ws[j]))
  }

  function RuleCells(ws: seq<nat>): (cells: seq<string>)
    ensures |cells| == |ws|
  {
    seq(|ws|, j requires 0 <= j < |ws| => Repeat('-', ws[j]))
  }

  function RowCells(row: Row, ws: seq<nat>): (cells: seq<string>)
    requires |ws| <= |row|
    ensures |cells| == |ws|
    ensures forall j :: 0 <= j < |ws| ==> cells[j] == LJust(row[j], ws[j])
  {
    seq(|ws|, j requires 0 <= j < |ws| => LJust(row[j], ws[j]))
  }

  function HeaderLine(header: Row, ws: seq<nat>): string
    requires |ws| <= |header|
  {
    Join(HeaderCells(header, ws), "|")
  }

  function RuleLine(ws: seq<nat>): string {
    Join(RuleCells(ws), "+")
  }

  function RowLine(row: Row, ws: seq<nat>): string
    requires |ws| <= |row|
  {
    Join(RowCells(row, ws), "|")
  }

  /** The lines of the table before they are joined: header, rule, one line per data row. */
  function TableLines(data: seq<Row>): (lines: seq<string>)
    requires |data| > 0
    ensures |lines| == |data| + 1
    ensures lines[0] == HeaderLine(data[0], Widths(data)) && lines[1] == RuleLine(Widths(data))
    ensures forall i :: 1 <= i < |data| ==> lines[i + 1] == RowLine(data[i], Widths(data))
  {
    var ws := Widths(data);
    [HeaderLine(data[0], ws), RuleLine(ws)]
      + seq(|data| - 1, i requires 0 <= i < |data| - 1 => RowLine(data[i + 1], ws))
  }

  lemma PrefixSnoc(s: seq<string>, n: nat)
    requires n < |s|
    ensures s[..n + 1] == s[..n] + [s[n]]
  {
  }

  /** `create_table(data)`: `IndexError` for no rows at all, else the lines joined by newlines. */
  method CreateTable(data: seq<Row>) returns (r: Attempt<string>)
    ensures |data| == 0 ==> r == Raised(IndexError)
    ensures |data| > 0 ==> r == Returned(Join(TableLines(data), "\n"))
  {
    if |data| == 0 {
      return Raised(IndexError);
    }
    var widths := Widths(data);
    ghost var lines := TableLines(data);
    var tableLines: seq<string> := [];
    var header := HeaderLine(data[0], widths);
    tableLines := tableLines + [header];
    var separator := RuleLine(widths);
    tableLines := tableLines + [separator];
    assert tableLines == lines[..2];
    for i := 1 to |data|
      invariant tableLines == lines[..i + 1]
    {
      var rowLine := RowLine(data[i], widths);
      PrefixSnoc(lines, i + 1);
      tableLines := tableLines + [rowLine];
    }
    assert lines[..|data| + 1] == lines;
    r := Returned(Join(tableLines, "\n"));
  }

  // Layout of a line: where each column starts

  function Sum(ws: seq<nat>): nat {
    if ws == [] then 0 else ws[0] + Sum(ws[1..])
  }

  /** The length of every line of a table with these column widths. */
  function LineWidth(ws: seq<nat>): nat {
    if ws == [] then 0 else Sum(ws) + |ws| - 1
  }

  /** Where column `j` starts: the widths before it plus one separator after each. */
  function Offset(ws: seq<nat>, j: nat): nat
    requires j <= |ws|
  {
    Sum(ws[..j]) + j
  }

  lemma OffsetStep(ws: seq<nat>, j: nat)
    requires 0 < j <= |ws|
    ensures Offset(ws, j) == ws[0] + 1 + Offset(ws[1..], j - 1)
  {
    assert ws[..j][1..] == ws[1..][..j - 1];
  }

  lemma {:induction false} SumBound(ws: seq<nat>, j: nat)
    requires j < |ws|
    ensures Offset(ws, j) + ws[j] <= LineWidth(ws)
    ensures j < |ws| - 1 ==> Offset(ws, j) + ws[j] < LineWidth(ws)
  {
    if j > 0 {
      OffsetStep(ws, j);
      SumBound(ws[1..], j - 1);
    }
  }

  /** Cells of exactly the column widths, joined by a one-character separator, make a line of `LineWidth(ws)`. */
  lemma {:induction false} JoinLength(cells: seq<string>, ws: seq<nat>, sep: char)
    requires |cells| == |ws|
    requires forall k :: 0 <= k < |ws| ==> |cells[k]| == ws[k]
    ensures |Join(cells, [sep])| == LineWidth(ws)
  {
    if |cells| == 1 {
      assert ws[1..] == [];
      assert Sum(ws) == ws[0] + Sum(ws[1..]);
      assert |Join(cells, [sep])| == |cells[0]|;
    } else if |cells| > 1 {
      JoinLength(cells[1..], ws[1..], sep);
      assert LineWidth(ws) == ws[0] + 1 + LineWidth(ws[1..]);
    }
  }

  /**
   * Cells of exactly the column widths, joined by a one-character separator,
   * put column `j` at `Offset(ws, j)` with the separator right after it.
   */
  lemma {:induction false} JoinAligned(cells: seq<string>, ws: seq<nat>, sep: char, j: nat)
    requires |cells| == |ws| && j < |ws|
    requires forall k :: 0 <= k < |ws| ==> |cells[k]| == ws[k]
    ensures |Join(cells, [sep])| == LineWidth(ws)
    ensures Offset(ws, j) + ws[j] <= LineWidth(ws)
    ensures Join(cells, [sep])[Offset(ws, j)..Offset(ws, j) + ws[j]] == cells[j]
    ensures j < |ws| - 1 ==> Offset(ws, j) + ws[j] < LineWidth(ws) && Join(cells, [sep])[Offset(ws, j) + ws[j]] == sep
  {
    JoinLength(cells, ws, sep);
    SumBound(ws, j);
    var line := Join(cells, [sep]);
    if j == 0 {
      assert ws[..0] == [];
    } else {
      var rest := Join(cells[1..], [sep]);
      assert line == cells[0] + [sep] + rest;
      JoinAligned(cells[1..], ws[1..], sep, j - 1);
      OffsetStep(ws, j);
      var o := Offset(ws[1..], j - 1);
      assert ws[1..][j - 1] == ws[j] && cells[1..][j - 1] == cells[j];
      assert line[Offset(ws, j)..Offset(ws, j) + ws[j]] == rest[o..o + ws[j]];
      if j < |ws| - 1 {
        assert line[Offset(ws, j) + ws[j]] == rest[o + ws[j]];
      }
    }
  }

  /** Every cell of a column fits its width, and the width is that of some cell. */
  lemma CellsFit(data: seq<Row>, i: nat, j: nat)
    requires 0 <= i < |data| && j < ColumnCount(data)
    ensures j < |data[i]| && |data[i][j]| <= Widths(data)[j]
    ensures exists m :: 0 <= m < |data| && Widths(data)[j] == |data[m][j]|
  {
  }

  /** Every item of `row` fits the column width given for it. */
  predicate Fits(row: Row, ws: seq<nat>) {
    |ws| <= |row| && forall k :: 0 <= k < |ws| ==> |row[k]| <= ws[k]
  }

  /** Every row of the table, header included, fits the column widths. */
  lemma RowFits(data: seq<Row>, i: nat)
    requires 0 <= i < |data|
    ensures Fits(data[i], Widths(data))
  {
    var ws := Widths(data);
    forall k | 0 <= k < |ws|
      ensures |data[i][k]| <= ws[k]
    {
      CellsFit(data, i, k);
    }
  }

  /**
   * `line` is `LineWidth(ws)` long, holds `cell` exactly in column `j`, and
   * has `sep` right after it unless `j` is the last column.
   */
  predicate Aligned(line: string, ws: seq<nat>, j: nat, cell: string, sep: char)
    requires j < |ws|
  {
    && |line| == LineWidth(ws)
    && Offset(ws, j) + ws[j] <= |line|
    && line[Offset(ws, j)..Offset(ws, j) + ws[j]] == cell
    && (j < |ws| - 1 ==> Offset(ws, j) + ws[j] < |line| && line[Offset(ws, j) + ws[j]] == sep)
  }

  lemma HeaderLineLayout(header: Row, ws: seq<nat>, j: nat)
    requires Fits(header, ws) && j < |ws|
    ensures Aligned(HeaderLine(header, ws), ws, j, Center(header[j], ws[j]), '|')
  {
    JoinAligned(HeaderCells(header, ws), ws, '|', j);
  }

  lemma RuleLineLayout(ws: seq<nat>, j: nat)
    requires j < |ws|
    ensures Aligned(RuleLine(ws), ws, j, Repeat('-', ws[j]), '+')
  {
    JoinAligned(RuleCells(ws), ws, '+', j);
  }

  lemma RowLineLayout(row: Row, ws: seq<nat>, j: nat)
    requires Fits(row, ws) && j < |ws|
    ensures Aligned(RowLine(row, ws), ws, j, LJust(row[j], ws[j]), '|')
  {
    JoinAligned(RowCells(row, ws), ws, '|', j);
  }

  /** The header line: each item centred in its column, columns separated by '|'. */
  lemma HeaderLayout(data: seq<Row>, j: nat)
    requires |data| > 0 && j < ColumnCount(data)
    ensures j < |data[0]| && Aligned(TableLines(data)[0], Widths(data), j, Center(data[0][j], Widths(data)[j]), '|')
  {
    RowFits(data, 0);
    HeaderLineLayout(data[0], Widths(data), j);
  }

  /** The rule: a run of '-' as wide as each column, the runs joined by '+'. */
  lemma RuleLayout(data: seq<Row>, j: nat)
    requires |data| > 0 && j < ColumnCount(data)
    ensures Aligned(TableLines(data)[1], Widths(data), j, Repeat('-', Widths(data)[j]), '+')
  {
    RuleLineLayout(Widths(data), j);
  }

  /** Data line `i`: each item left-justified in its column, columns separated by '|'. */
  lemma RowLayout(data: seq<Row>, i: nat, j: nat)
    requires 0 < i < |data| && j < ColumnCount(data)
    ensures j < |data[i]| && Aligned(TableLines(data)[i + 1], Widths(data), j, LJust(data[i][j], Widths(data)[j]), '|')
  {
    RowFits(data, i);
    RowLineLayout(data[i], Widths(data), j);
  }

  lemma LineWidths(row: Row, ws: seq<nat>)
    requires Fits(row, ws)
    ensures |HeaderLine(row, ws)| == LineWidth(ws)
    ensures |RuleLine(ws)| == LineWidth(ws)
    ensures |RowLine(row, ws)| == LineWidth(ws)
  {
    JoinLength(HeaderCells(row, ws), ws, '|');
    JoinLength(RuleCells(ws), ws, '+');
    JoinLength(RowCells(row, ws), ws, '|');
  }

  /** All lines of a table have the same length, `sum(col_widths) + ncols - 1`. */
  lemma LinesEqualWidth(data: seq<Row>)
    requires |data| > 0
    ensures forall k :: 0 <= k < |TableLines(data)| ==> |TableLines(data)[k]| == LineWidth(Widths(data))
  {
    var ws := Widths(data);
    var lines := TableLines(data);
    forall k | 0 <= k < |lines| ensures |lines[k]| == LineWidth(ws) {
      if k < 2 {
        RowFits(data, 0);
        LineWidths(data[0], ws);
      } else {
        RowFits(data, k - 1);
        LineWidths(data[k - 1], ws);
      }
    }
  }

  predicate NoNewline(data: seq<Row>) {
    forall i, j :: 0 <= i < |data| && 0 <= j < |data[i]| ==> '\n' !in data[i][j]
  }

  /**
   * When no cell holds a newline, the rendered text has exactly
   * `len(data) + 1` lines, and they are the table lines.
   */
  lemma TextLines(data: seq<Row>)
    requires |data| > 0 && NoNewline(data)
    ensures SplitOn(Join(TableLines(data), "\n"), '\n') == TableLines(data)
    ensures |SplitOn(Join(TableLines(data), "\n"), '\n')| == |data| + 1
  {
    var ws := Widths(data);
    var lines := TableLines(data);
    JoinExcludes(HeaderCells(data[0], ws), "|", '\n');
    JoinExcludes(RuleCells(ws), "+", '\n');
    forall k | 0 <= k < |lines| ensures '\n' !in lines[k] {
      if k >= 2 {
        JoinExcludes(RowCells(data[k - 1], ws), "|", '\n');
      }
    }
    SplitOnJoin(lines, '\n');
  }
}
