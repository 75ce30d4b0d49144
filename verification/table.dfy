/** The text table `print_confusion` of label_statistics.py writes: an empty
    line, a header of column indices, a rule of dashes, one line per matrix
    row headed by its index, and a closing empty line. Every `print` ends in
    a newline, so the output is modelled as its sequence of lines. */
module ConfusionTable {
  import opened Wrappers
  import opened Python
  import opened Counting
  import Statistics

  /** One cell, `f'{x:5d}'`. */
  function Field(x: int): string
  {
    FormatInt(x, 5)
  }

  /** The row index in the first column, `f"{i:2d}"`. */
  function RowLabel(i: int): string
  {
    FormatInt(i, 2)
  }

  /** The strings of `ss` written one after the other. */
  function Concat(ss: seq<string>): string
  {
    if |ss| == 0 then "" else Concat(ss[..|ss| - 1]) + ss[|ss| - 1]
  }

  /** The cells of one row: each value right-aligned to five characters,
      `{x:5d}`; the first column, `"   |"` or `f"{i:2d} |"`, is four wide. */
  function Fields(row: seq<int>): string
  {
    Concat(Formatted(row))
  }

  function Formatted(row: seq<int>): (ss: seq<string>)
    ensures |ss| == |row| && forall j :: 0 <= j < |row| ==> ss[j] == Field(row[j])
  {
    seq(|row|, j requires 0 <= j < |row| => Field(row[j]))
  }

  /** `print_row(first_column, row)`. */
  function RowLine(first: string, row: seq<int>): string
  {
    first + Fields(row)
  }

  /** `range(n)` as a list of integers. */
  function Range(n: nat): (r: seq<int>)
    ensures |r| == n && forall j :: 0 <= j < n ==> r[j] == j
  {
    if n == 0 then [] else Range(n - 1) + [n - 1]
  }

  function Dashes(n: nat): (s: string)
    ensures |s| == n && forall k :: 0 <= k < n ==> s[k] == '-'
  {
    if n == 0 then "" else Dashes(n - 1) + "-"
  }

  /** `m` is a two-dimensional array with `cols` columns. */
  ghost predicate Rectangular(m: seq<seq<int>>, cols: nat)
  {
    forall i :: 0 <= i < |m| ==> |m[i]| == cols
  }

  /** The line of matrix row i: `f"{i:2d} |"` followed by its cells. */
  function NumberedLine(i: int, row: seq<int>): string
  {
    RowLine(RowLabel(i) + " |", row)
  }

  /** The numbered lines of every matrix row, `enumerate(array2d)`. */
  function BodyLines(m: seq<seq<int>>): (lines: seq<string>)
    ensures |lines| == |m|
    ensures forall i :: 0 <= i < |m| ==> lines[i] == NumberedLine(i, m[i])
  {
    seq(|m|, i requires 0 <= i < |m| => NumberedLine(i, m[i]))
  }

  /** The header line: an empty first column, then the column indices. */
  function Header(cols: nat): string
  {
    RowLine("   |", Range(cols))
  }

  /** The rule under the header, as wide as the header. */
  function Rule(cols: nat): string
  {
    Dashes(5 * cols + 4)
  }

  /** `print_confusion(array2d)` for an array with `cols` columns. */
  function RenderConfusion(m: seq<seq<int>>, cols: nat): seq<string>
    requires Rectangular(m, cols)
  {
    [""] + [Header(cols)] + [Rule(cols)] + BodyLines(m) + [""]
  }

  /** Cell j of a table line. */
  function Cell(line: string, j: nat): string
    requires 4 + 5 * j + 5 <= |line|
  {
    line[4 + 5 * j .. 4 + 5 * j + 5]
  }

  /** `{x:5d}` writes exactly five characters: no value is wider than a cell. */
  predicate FitsCell(x: int)
  {
    -10000 < x < 100000
  }

  lemma FormatCellWidth(x: int)
    requires FitsCell(x)
    ensures |Field(x)| == 5
  {
    assert Pow10(5) == 100000 && Pow10(4) == 10000 by {
      assert Pow10(1) == 10 && Pow10(2) == 100 && Pow10(3) == 1000;
    }
    DecimalStringLength(x, 5);
  }

  /** Strings of five characters each, written one after the other: string
      j occupies positions 5j to 5j+5. */
  lemma {:induction false} ConcatLayout(ss: seq<string>)
    requires forall j :: 0 <= j < |ss| ==> |ss[j]| == 5
    ensures |Concat(ss)| == 5 * |ss|
    ensures forall j :: 0 <= j < |ss| ==> Concat(ss)[5 * j .. 5 * j + 5] == ss[j]
  {
    if |ss| > 0 {
      var n := |ss| - 1;
      var pre := ss[..n];
      assert forall j :: 0 <= j < n ==> pre[j] == ss[j];
      ConcatLayout(pre);
      var f := Concat(ss);
      assert f == Concat(pre) + ss[n];
      forall j | 0 <= j < |ss|
        ensures f[5 * j .. 5 * j + 5] == ss[j]
      {
        if j < n {
          assert f[5 * j .. 5 * j + 5] == Concat(pre)[5 * j .. 5 * j + 5];
        } else {
          assert f[5 * j .. 5 * j + 5] == f[|Concat(pre)|..];
        }
      }
    }
  }

  /** When every value fits a cell, the cells of a row are five characters
      each and cell j holds exactly `{row[j]:5d}`. */
  lemma FieldsLayout(row: seq<int>)
    requires forall j :: 0 <= j < |row| ==> FitsCell(row[j])
    ensures |Fields(row)| == 5 * |row|
    ensures forall j :: 0 <= j < |row| ==>
              Fields(row)[5 * j .. 5 * j + 5] == Field(row[j])
  {
    var ss := Formatted(row);
    forall j | 0 <= j < |row| ensures |ss[j]| == 5 {
      FormatCellWidth(row[j]);
    }
    ConcatLayout(ss);
  }

  /** A slice of the part after a prefix, read in the whole string. */
  lemma SliceAfterPrefix(first: string, rest: string, a: nat, b: nat)
    requires a <= b <= |rest|
    ensures (first + rest)[|first| + a .. |first| + b] == rest[a..b]
  {
  }

  /** Cell j of a line sits after the four-character first column. */
  lemma CellOfLine(first: string, row: seq<int>, j: nat)
    requires |first| == 4 && j < |row|
    requires |Fields(row)| == 5 * |row|
    requires Fields(row)[5 * j .. 5 * j + 5] == Field(row[j])
    ensures 4 + 5 * j + 5 <= |RowLine(first, row)|
    ensures Cell(RowLine(first, row), j) == Field(row[j])
  {
    var rest := Fields(row);
    var a := 5 * j;
    assert a + 5 <= |rest|;
    SliceAfterPrefix(first, rest, a, a + 5);
    assert RowLine(first, row) == first + rest;
  }

  /** A cell parses back to the value written into it. */
  lemma FieldReadsBack(x: int)
    ensures ParseInt(Field(x)) == Ok(x)
  {
    ParseFormatInt(x, 5);
  }

  /** Reading one table line back: its width, its first column, and every
      cell parses with `int()` to the value written into it. */
  lemma LineReadsBack(first: string, row: seq<int>)
    requires |first| == 4
    requires forall j :: 0 <= j < |row| ==> FitsCell(row[j])
    ensures |RowLine(first, row)| == 4 + 5 * |row|
    ensures RowLine(first, row)[..4] == first
    ensures forall j: nat :: j < |row| ==> Cell(RowLine(first, row), j) == Field(row[j])
    ensures forall j: nat :: j < |row| ==> ParseInt(Cell(RowLine(first, row), j)) == Ok(row[j])
  {
    FieldsLayout(row);
    forall j: nat | j < |row|
      ensures Cell(RowLine(first, row), j) == Field(row[j])
      ensures ParseInt(Cell(RowLine(first, row), j)) == Ok(row[j])
    {
      CellOfLine(first, row, j);
      FieldReadsBack(row[j]);
    }
  }

  /** The line of row i read back: the row index, " |", then its cells. */
  lemma NumberedLineReadsBack(i: int, row: seq<int>)
    requires 0 <= i < 100
    requires forall j :: 0 <= j < |row| ==> FitsCell(row[j])
    ensures var line := NumberedLine(i, row);
            |line| == 4 + 5 * |row| &&
            line[..2] == RowLabel(i) && ParseInt(line[..2]) == Ok(i) && line[2..4] == " |" &&
            (forall j: nat :: j < |row| ==> Cell(line, j) == Field(row[j])) &&
            forall j: nat :: j < |row| ==> ParseInt(Cell(line, j)) == Ok(row[j])
  {
    var first := RowLabel(i) + " |";
    var line := NumberedLine(i, row);
    assert line == RowLine(first, row);
    assert |RowLabel(i)| == 2 by {
      assert Pow10(2) == 100 by { assert Pow10(1) == 10; }
      DecimalStringLength(i, 2);
    }
    LineReadsBack(first, row);
    assert line[..2] == RowLabel(i) by {
      assert line[..4] == first;
    }
    ParseFormatInt(i, 2);
  }

  /** The header read back: `"   |"`, then the column indices. */
  lemma HeaderReadsBack(cols: nat)
    requires cols <= 100000
    ensures var header := Header(cols);
            |header| == 4 + 5 * cols && header[..4] == "   |" &&
            (forall j: nat :: j < cols ==> Cell(header, j) == Field(j)) &&
            forall j: nat :: j < cols ==> ParseInt(Cell(header, j)) == Ok(j)
  {
    var range := Range(cols);
    assert forall j :: 0 <= j < cols ==> FitsCell(range[j]);
    LineReadsBack("   |", range);
  }

  /** Where each part of the printed table sits. */
  lemma RenderLayout(m: seq<seq<int>>, cols: nat)
    requires Rectangular(m, cols)
    ensures var lines := RenderConfusion(m, cols);
            |lines| == |m| + 4 && lines[0] == "" && lines[|m| + 3] == "" &&
            lines[1] == Header(cols) && lines[2] == Rule(cols) &&
            lines[3..|m| + 3] == BodyLines(m)
  {
  }

  /** The header is four characters plus five per column. */
  lemma HeaderWidth(cols: nat)
    requires cols <= 100000
    ensures |Header(cols)| == 4 + 5 * cols
  {
    HeaderReadsBack(cols);
  }

  /** So is every row line. */
  lemma BodyWidths(m: seq<seq<int>>, cols: nat)
    requires Rectangular(m, cols)
    requires forall i, j :: 0 <= i < |m| && 0 <= j < cols ==> FitsCell(m[i][j])
    requires |m| <= 100
    ensures forall i :: 0 <= i < |m| ==> |BodyLines(m)[i]| == 4 + 5 * cols
  {
    forall i | 0 <= i < |m|
      ensures |BodyLines(m)[i]| == 4 + 5 * cols
    {
      NumberedLineReadsBack(i, m[i]);
    }
  }

  /** The printed table has one line per matrix row plus four: an empty
      line, the header, the rule, the row lines in order, and an empty line;
      the header, the rule and every row line are equally wide, and the rule
      is all dashes. */
  lemma RenderShape(m: seq<seq<int>>, cols: nat)
    requires Rectangular(m, cols)
    requires forall i, j :: 0 <= i < |m| && 0 <= j < cols ==> FitsCell(m[i][j])
    requires |m| <= 100 && cols <= 100000
    ensures var lines := RenderConfusion(m, cols);
            |lines| == |m| + 4 && lines[0] == "" && lines[|m| + 3] == "" &&
            lines[1] == Header(cols) && lines[3..|m| + 3] == BodyLines(m)
    ensures var lines := RenderConfusion(m, cols);
            forall k :: 1 <= k < |m| + 3 ==> |lines[k]| == 4 + 5 * cols
    ensures var rule := RenderConfusion(m, cols)[2];
            forall k :: 0 <= k < |rule| ==> rule[k] == '-'
  {
    var lines := RenderConfusion(m, cols);
    var body := BodyLines(m);
    RenderLayout(m, cols);
    HeaderWidth(cols);
    BodyWidths(m, cols);
    forall k | 1 <= k < |m| + 3
      ensures |lines[k]| == 4 + 5 * cols
    {
      if k >= 3 {
        assert lines[k] == lines[3..|m| + 3][k - 3] == body[k - 3];
      }
    }
  }

  /** The printed table, read back: the header cells are the column
      indices; the line of row i starts with i and " |"; and every cell
      parses with `int()` to the matrix entry it shows. */
  lemma RenderReadsBack(m: seq<seq<int>>, cols: nat)
    requires Rectangular(m, cols)
    requires forall i, j :: 0 <= i < |m| && 0 <= j < cols ==> FitsCell(m[i][j])
    requires |m| <= 100 && cols <= 100000
    ensures var header := Header(cols);
            |header| == 4 + 5 * cols && header[..4] == "   |" &&
            forall j: nat :: j < cols ==> ParseInt(Cell(header, j)) == Ok(j)
    ensures var body := BodyLines(m);
            forall i :: 0 <= i < |m| ==>
              |body[i]| == 4 + 5 * cols &&
              ParseInt(body[i][..2]) == Ok(i) && body[i][2..4] == " |" &&
              forall j: nat :: j < cols ==> ParseInt(Cell(body[i], j)) == Ok(m[i][j])
  {
    var body := BodyLines(m);
    HeaderReadsBack(cols);
    forall i | 0 <= i < |m|
      ensures |body[i]| == 4 + 5 * cols
      ensures ParseInt(body[i][..2]) == Ok(i) && body[i][2..4] == " |"
      ensures forall j: nat :: j < cols ==> ParseInt(Cell(body[i], j)) == Ok(m[i][j])
    {
      NumberedLineReadsBack(i, m[i]);
    }
  }

  /** One cell of a printed table read back: row r's line is line 3 + r,
      and its cell c parses to the entry m[r][c]. */
  lemma RenderedCell(m: seq<seq<int>>, cols: nat, r: nat, c: nat)
    requires Rectangular(m, cols)
    requires forall i, j :: 0 <= i < |m| && 0 <= j < cols ==> FitsCell(m[i][j])
    requires r < |m| <= 100 && c < cols
    ensures |RenderConfusion(m, cols)| == |m| + 4
    ensures 4 + 5 * c + 5 <= |RenderConfusion(m, cols)[3 + r]|
    ensures ParseInt(Cell(RenderConfusion(m, cols)[3 + r], c)) == Ok(m[r][c])
  {
    var lines := RenderConfusion(m, cols);
    RenderLayout(m, cols);
    assert lines[3 + r] == lines[3..|m| + 3][r] == BodyLines(m)[r];
    NumberedLineReadsBack(r, m[r]);
  }

  /** The line of matrix row r, line 3 + r of the table, has a cell c that
      `int()` reads as x. */
  ghost predicate PrintedCount(lines: seq<string>, r: nat, c: nat, x: int)
  {
    3 + r < |lines| && 4 + 5 * c + 5 <= |lines[3 + r]| && ParseInt(Cell(lines[3 + r], c)) == Ok(x)
  }

  /** What `report_statistics` prints last: in the table of the reported
      matrix, the cell in row r and column c reads back as the number of
      keys whose original label selects row r and whose annotation selects
      column c. Below 100000 keys every count fits its five-character cell. */
  lemma ReportPrintsConfusion(original: seq<int>, labels: seq<(int, int)>)
    requires Statistics.ReportStatistics(original, labels).Ok?
    ensures |labels| < 100000 ==>
            forall r: nat, c: nat :: r < Statistics.Size && c < Statistics.Size ==>
              PrintedCount(RenderConfusion(Statistics.ReportStatistics(original, labels).value.confusion, Statistics.Size), r, c,
                Count(Statistics.Cells(original, labels).value, (r, c)))
  {
    var m := Statistics.ReportStatistics(original, labels).value.confusion;
    var cs := Statistics.Cells(original, labels).value;
    if |labels| < 100000 {
      assert Rectangular(m, Statistics.Size);
      Statistics.ReportedCellsBounded(original, labels);
      assert forall i, j :: 0 <= i < |m| && 0 <= j < Statistics.Size ==> FitsCell(m[i][j]);
      forall r: nat, c: nat | r < Statistics.Size && c < Statistics.Size
        ensures PrintedCount(RenderConfusion(m, Statistics.Size), r, c, Count(cs, (r, c)))
      {
        RenderedCell(m, Statistics.Size, r, c);
        Statistics.ReportedCell(original, labels, r, c);
      }
    }
  }
}
