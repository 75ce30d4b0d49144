/** The statistics reporter of label_statistics.py: how many annotations
    agree with the original labels, and the 10x10 confusion matrix with the
    original label selecting the row and the annotation the column. */
module Statistics {
  import opened Wrappers
  import opened Python
  import opened OrderedDict
  import opened Counting
  import opened Pairs

  /** The side of the confusion matrix, `np.zeros((10, 10))`. */
  const Size: nat := 10

  /** A matrix of counts as a sequence of rows. */
  type Matrix = seq<seq<nat>>

  ghost predicate IsGrid(m: Matrix)
  {
    |m| == Size && forall r :: 0 <= r < |m| ==> |m[r]| == Size
  }

  /** Entry `n` of the annotations agrees with the original label of its key. */
  ghost predicate Agrees(original: seq<int>, labels: Dict<int, int>, n: int)
  {
    0 <= n < |labels| && Item(original, labels[n].0) == Ok(labels[n].1)
  }

  /** The number of keys whose annotation equals the original label at that
      index; IndexError at the first key that is no subscript of `original`. */
  function NrCorrect(original: seq<int>, labels: Dict<int, int>): (r: Result<nat>)
    ensures r.Ok? <==> forall n :: 0 <= n < |labels| ==> Item(original, labels[n].0).Ok?
    ensures r.Err? ==> r.error == IndexError
    ensures r.Ok? ==> r.value <= |labels|
    ensures r.Ok? ==> (r.value == |labels| <==> forall n :: 0 <= n < |labels| ==> Agrees(original, labels, n))
    ensures r.Ok? ==> (r.value == 0 <==> forall n :: 0 <= n < |labels| ==> !Agrees(original, labels, n))
  {
    if |labels| == 0 then Ok(0) else
      var n := |labels| - 1;
      var pre := labels[..n];
      assert forall i :: 0 <= i < n ==> pre[i] == labels[i];
      assert forall i :: 0 <= i < n ==> (Agrees(original, pre, i) <==> Agrees(original, labels, i));
      match NrCorrect(original, pre)
      case Err(e) => Err(e)
      case Ok(c) =>
        match Item(original, labels[n].0)
        case Err(e) => Err(e)
        case Ok(o) =>
          assert Agrees(original, labels, n) <==> o == labels[n].1;
          Ok(c + if o == labels[n].1 then 1 else 0)
  }

  /** One flag per annotation entry: whether it agrees with the original
      label of its key, `original_labels[index] == labels[index]`. */
  function AgreeFlags(original: seq<int>, labels: Dict<int, int>): (fs: seq<bool>)
    ensures |fs| == |labels|
    ensures forall n :: 0 <= n < |labels| ==> (fs[n] <==> Agrees(original, labels, n))
  {
    seq(|labels|, n requires 0 <= n < |labels| => Item(original, labels[n].0) == Ok(labels[n].1))
  }

  /** The matrix cell `confusion[original_labels[k], v]` for key `k` and
      annotation `v`; numpy wraps negative subscripts and raises IndexError
      outside -10..9. */
  function CellOf(original: seq<int>, k: int, v: int): (r: Result<(nat, nat)>)
    ensures r.Ok? <==> Item(original, k).Ok? && -(Size as int) <= Item(original, k).value < Size &&
                       -(Size as int) <= v < Size
    ensures r.Err? ==> r.error == IndexError
    ensures r.Ok? ==> r.value.0 < Size && r.value.1 < Size
    ensures r.Ok? ==> var o := Item(original, k).value;
                      r.value.0 == (if o >= 0 then o else Size + o) &&
                      r.value.1 == (if v >= 0 then v else Size + v)
  {
    match Item(original, k)
    case Err(e) => Err(e)
    case Ok(o) =>
      match (Subscript(o, Size), Subscript(v, Size))
      case (Some(row), Some(col)) => Ok((row, col))
      case _ => Err(IndexError)
  }

  /** The cells the loop of `report_statistics` increments, one per key in
      key order. */
  function Cells(original: seq<int>, labels: Dict<int, int>): (r: Result<seq<(nat, nat)>>)
    ensures r.Ok? <==> forall n :: 0 <= n < |labels| ==> CellOf(original, labels[n].0, labels[n].1).Ok?
    ensures r.Err? ==> r.error == IndexError
    ensures r.Ok? ==> |r.value| == |labels|
    ensures r.Ok? ==> forall n :: 0 <= n < |labels| ==> r.value[n] == CellOf(original, labels[n].0, labels[n].1).value
  {
    if |labels| == 0 then Ok([]) else
      var n := |labels| - 1;
      var pre := labels[..n];
      assert forall i :: 0 <= i < n ==> pre[i] == labels[i];
      match Cells(original, pre)
      case Err(e) => Err(e)
      case Ok(cs) =>
        match CellOf(original, labels[n].0, labels[n].1)
        case Err(e) => Err(IndexError)
        case Ok(cell) => Ok(cs + [cell])
  }

  ghost predicate InGrid(cs: seq<(nat, nat)>)
  {
    forall i :: 0 <= i < |cs| ==> cs[i].0 < Size && cs[i].1 < Size
  }

  /** `np.zeros((10, 10), dtype=int)`. */
  function EmptyGrid(): (m: Matrix)
    ensures IsGrid(m)
  {
    seq(Size, r => Zeros(Size))
  }

  /** `confusion[r, c] += 1`. */
  function Increment(m: Matrix, r: nat, c: nat): (m': Matrix)
    requires IsGrid(m) && r < Size && c < Size
    ensures IsGrid(m')
  {
    m[r := m[r][c := m[r][c] + 1]]
  }

  /** The matrix after incrementing the cells `cs` one after the other. */
  function Tally(cs: seq<(nat, nat)>): (m: Matrix)
    requires InGrid(cs)
    ensures IsGrid(m)
  {
    if |cs| == 0 then EmptyGrid() else
      var n := |cs| - 1;
      Increment(Tally(cs[..n]), cs[n].0, cs[n].1)
  }

  /** The confusion matrix of `report_statistics`. */
  function Confusion(original: seq<int>, labels: Dict<int, int>): (r: Result<Matrix>)
    ensures r.Ok? ==> IsGrid(r.value)
    ensures r.Ok? <==> Cells(original, labels).Ok?
  {
    match Cells(original, labels)
    case Err(e) => Err(e)
    case Ok(cs) => Ok(Tally(cs))
  }

  /** What `report_statistics` computes before printing: the number of
      labels, the agreement count and percentage, and the confusion matrix. */
  datatype Report = Report(count: nat, nrCorrect: nat, percent: real, confusion: Matrix)

  /** `report_statistics`: IndexError when a key is no subscript of the
      original labels, ZeroDivisionError for an empty annotation dict,
      IndexError when a label is no subscript of the matrix. */
  function ReportStatistics(original: seq<int>, labels: Dict<int, int>): (r: Result<Report>)
    ensures r == Err(ZeroDivisionError) <==> |labels| == 0
    ensures r.Ok? <==> |labels| > 0 && Cells(original, labels).Ok?
    ensures r.Err? ==> r.error == IndexError || r.error == ZeroDivisionError
    ensures r.Ok? ==> r.value.count == |labels| && r.value.nrCorrect <= r.value.count
    ensures r.Ok? ==> NrCorrect(original, labels) == Ok(r.value.nrCorrect)
    ensures r.Ok? ==> r.value.percent == Percent(r.value.nrCorrect, r.value.count)
    ensures r.Ok? ==> IsGrid(r.value.confusion)
    ensures r.Ok? ==> Confusion(original, labels) == Ok(r.value.confusion)
  {
    match NrCorrect(original, labels)
    case Err(e) =>
      assert |labels| > 0;
      assert Cells(original, labels).Err? by {
        var n :| 0 <= n < |labels| && Item(original, labels[n].0).Err?;
        assert CellOf(original, labels[n].0, labels[n].1).Err?;
      }
      Err(e)
    case Ok(nr) =>
      if |labels| == 0 then Err(ZeroDivisionError) else
        var count := |labels|;
        var percent := Percent(nr, count);
        match Confusion(original, labels)
        case Err(e) => Err(e)
        case Ok(m) => Ok(Report(count, nr, percent, m))
  }

  /** `100 * part / whole` as an exact rational; it lies between 0 and 100. */
  function Percent(part: nat, whole: nat): (p: real)
    requires 0 < whole && part <= whole
    ensures 0.0 <= p <= 100.0
    ensures p * (whole as real) == 100.0 * (part as real)
  {
    var a := part as real;
    var b := whole as real;
    var q := a / b;
    assert q * b == a;
    assert 0.0 <= q <= 1.0 by {
      if q > 1.0 {
        assert false;
      }
    }
    assert (100.0 * q) * b == 100.0 * (q * b);
    100.0 * q
  }

  // ---------------------------------------------------------- matrix sums

  /** Column `c` of a grid, top to bottom. */
  function Column(m: Matrix, c: nat): (col: seq<nat>)
    requires IsGrid(m) && c < Size
    ensures |col| == Size && forall r :: 0 <= r < Size ==> col[r] == m[r][c]
  {
    seq(Size, r requires 0 <= r < Size => m[r][c])
  }

  /** The diagonal of a grid. */
  function Diagonal(m: Matrix): (d: seq<nat>)
    requires IsGrid(m)
    ensures |d| == Size && forall r :: 0 <= r < Size ==> d[r] == m[r][r]
  {
    seq(Size, r requires 0 <= r < Size => m[r][r])
  }

  /** The row sums of a grid. */
  function RowSums(m: Matrix): (s: seq<nat>)
    requires IsGrid(m)
    ensures |s| == Size && forall r :: 0 <= r < Size ==> s[r] == Sum(m[r])
  {
    seq(Size, r requires 0 <= r < Size => Sum(m[r]))
  }

  function Trace(m: Matrix): nat
    requires IsGrid(m)
  {
    Sum(Diagonal(m))
  }

  function Total(m: Matrix): nat
    requires IsGrid(m)
  {
    Sum(RowSums(m))
  }

  /** Whether each cell lies on the diagonal. */
  function OnDiagonal(cs: seq<(nat, nat)>): (ds: seq<bool>)
    ensures |ds| == |cs| && forall i :: 0 <= i < |cs| ==> ds[i] == (cs[i].0 == cs[i].1)
  {
    seq(|cs|, i requires 0 <= i < |cs| => cs[i].0 == cs[i].1)
  }

  /** `confusion[r, c] += 1` adds one to column c at row r and leaves the
      other columns alone. */
  lemma ColumnIncrement(m: Matrix, r: nat, c: nat, col: nat)
    requires IsGrid(m) && r < Size && c < Size && col < Size
    ensures Column(Increment(m, r, c), col) ==
              if c == col then Column(m, col)[r := m[r][col] + 1] else Column(m, col)
  {
  }

  /** ... adds one to row r at column c and leaves the other rows alone ... */
  lemma RowIncrement(m: Matrix, r: nat, c: nat, row: nat)
    requires IsGrid(m) && r < Size && c < Size && row < Size
    ensures Increment(m, r, c)[row] == if row == r then m[r][c := m[r][c] + 1] else m[row]
  {
  }

  /** ... and adds one to the row sum of row r. */
  lemma RowSumsIncrement(m: Matrix, r: nat, c: nat)
    requires IsGrid(m) && r < Size && c < Size
    ensures RowSums(Increment(m, r, c)) == RowSums(m)[r := Sum(m[r]) + 1]
  {
    SumIncrement(m[r], c);
  }

  /** ... and adds one to the diagonal exactly when r == c. */
  lemma DiagonalIncrement(m: Matrix, r: nat, c: nat)
    requires IsGrid(m) && r < Size && c < Size
    ensures Diagonal(Increment(m, r, c)) == if r == c then Diagonal(m)[r := m[r][r] + 1] else Diagonal(m)
  {
  }

  /** The cells of a prefix stay inside the grid. */
  lemma InGridPrefix(cs: seq<(nat, nat)>, n: nat)
    requires InGrid(cs) && n <= |cs|
    ensures InGrid(cs[..n])
  {
    assert forall i :: 0 <= i < n ==> cs[..n][i] == cs[i];
  }

  lemma {:induction false} TallyCell(cs: seq<(nat, nat)>, r: nat, c: nat)
    requires InGrid(cs) && r < Size && c < Size
    ensures Tally(cs)[r][c] == Count(cs, (r, c))
  {
    if |cs| > 0 {
      InGridPrefix(cs, |cs| - 1);
      TallyCell(cs[..|cs| - 1], r, c);
    }
  }

  /** One step of the tally: the last cell is incremented after the others. */
  lemma TallyLast(cs: seq<(nat, nat)>)
    requires InGrid(cs) && |cs| > 0
    ensures InGrid(cs[..|cs| - 1])
    ensures var n := |cs| - 1; Tally(cs) == Increment(Tally(cs[..n]), cs[n].0, cs[n].1)
  {
    InGridPrefix(cs, |cs| - 1);
  }

  /** An increment adds one to the sum of its row. */
  lemma RowSumStep(m: Matrix, r: nat, c: nat, row: nat)
    requires IsGrid(m) && r < Size && c < Size && row < Size
    ensures Sum(Increment(m, r, c)[row]) == Sum(m[row]) + if r == row then 1 else 0
  {
    RowIncrement(m, r, c, row);
    if r == row {
      SumIncrement(m[r], c);
    }
  }

  /** An increment adds one to the sum of its column. */
  lemma ColSumStep(m: Matrix, r: nat, c: nat, col: nat)
    requires IsGrid(m) && r < Size && c < Size && col < Size
    ensures Sum(Column(Increment(m, r, c), col)) == Sum(Column(m, col)) + if c == col then 1 else 0
  {
    ColumnIncrement(m, r, c, col);
    if c == col {
      SumIncrement(Column(m, col), r);
    }
  }

  /** An increment adds one to the total. */
  lemma TotalStep(m: Matrix, r: nat, c: nat)
    requires IsGrid(m) && r < Size && c < Size
    ensures Total(Increment(m, r, c)) == Total(m) + 1
  {
    RowSumsIncrement(m, r, c);
    SumIncrement(RowSums(m), r);
  }

  /** An increment adds one to the trace exactly when it hits the diagonal. */
  lemma TraceStep(m: Matrix, r: nat, c: nat)
    requires IsGrid(m) && r < Size && c < Size
    ensures Trace(Increment(m, r, c)) == Trace(m) + if r == c then 1 else 0
  {
    DiagonalIncrement(m, r, c);
    if r == c {
      SumIncrement(Diagonal(m), r);
    }
  }

  lemma {:induction false} TallyRowSum(cs: seq<(nat, nat)>, r: nat)
    requires InGrid(cs) && r < Size
    ensures Sum(Tally(cs)[r]) == Count(Firsts(cs), r)
  {
    if |cs| > 0 {
      var n := |cs| - 1;
      var pre := cs[..n];
      TallyLast(cs);
      TallyRowSum(pre, r);
      assert Firsts(cs) == Firsts(pre) + [cs[n].0];
      CountSnoc(Firsts(pre), cs[n].0, r);
      RowSumStep(Tally(pre), cs[n].0, cs[n].1, r);
    } else {
      SumZeros(Size);
    }
  }

  lemma {:induction false} TallyColSum(cs: seq<(nat, nat)>, c: nat)
    requires InGrid(cs) && c < Size
    ensures Sum(Column(Tally(cs), c)) == Count(Seconds(cs), c)
  {
    if |cs| > 0 {
      var n := |cs| - 1;
      var pre := cs[..n];
      TallyLast(cs);
      TallyColSum(pre, c);
      assert Seconds(cs) == Seconds(pre) + [cs[n].1];
      CountSnoc(Seconds(pre), cs[n].1, c);
      ColSumStep(Tally(pre), cs[n].0, cs[n].1, c);
    } else {
      assert Column(EmptyGrid(), c) == Zeros(Size);
      SumZeros(Size);
    }
  }

  lemma EmptyGridTotal()
    ensures Total(EmptyGrid()) == 0
  {
    SumZeros(Size);
    assert RowSums(EmptyGrid()) == Zeros(Size);
    SumZeros(Size);
  }

  lemma {:induction false} TallyTotal(cs: seq<(nat, nat)>)
    requires InGrid(cs)
    ensures Total(Tally(cs)) == |cs|
  {
    if |cs| == 0 {
      EmptyGridTotal();
    } else {
      var n := |cs| - 1;
      TallyLast(cs);
      TallyTotal(cs[..n]);
      TotalStep(Tally(cs[..n]), cs[n].0, cs[n].1);
    }
  }

  lemma {:induction false} TallyTrace(cs: seq<(nat, nat)>)
    requires InGrid(cs)
    ensures Trace(Tally(cs)) == Count(OnDiagonal(cs), true)
  {
    if |cs| == 0 {
      assert Diagonal(EmptyGrid()) == Zeros(Size);
      SumZeros(Size);
    } else {
      var n := |cs| - 1;
      var pre := cs[..n];
      TallyLast(cs);
      TallyTrace(pre);
      assert OnDiagonal(cs) == OnDiagonal(pre) + [cs[n].0 == cs[n].1];
      CountSnoc(OnDiagonal(pre), cs[n].0 == cs[n].1, true);
      TraceStep(Tally(pre), cs[n].0, cs[n].1);
    }
  }

  // ------------------------------------------------------ report properties

  /** The confusion matrix counts every key once: cell (r, c) counts the keys
      whose cell is (r, c), row r sums to the number of keys whose original
      label selects row r, column c to the number of keys whose annotation
      selects column c, and all cells sum to the number of keys. */
  lemma ConfusionCounts(original: seq<int>, labels: Dict<int, int>)
    requires Cells(original, labels).Ok?
    ensures var m := Confusion(original, labels).value;
            var cs := Cells(original, labels).value;
            Total(m) == |labels| &&
            (forall r: nat, c: nat :: r < Size && c < Size ==> m[r][c] == Count(cs, (r, c))) &&
            (forall r: nat :: r < Size ==> Sum(m[r]) == Count(Firsts(cs), r)) &&
            (forall c: nat :: c < Size ==> Sum(Column(m, c)) == Count(Seconds(cs), c))
  {
    var cs := Cells(original, labels).value;
    assert InGrid(cs);
    assert Confusion(original, labels).value == Tally(cs);
    TallyTotal(cs);
    TallySums(cs);
  }

  /** Entry (r, c) of the reported matrix counts the keys whose cell is
      (r, c). */
  lemma ReportedCell(original: seq<int>, labels: Dict<int, int>, r: nat, c: nat)
    requires ReportStatistics(original, labels).Ok? && r < Size && c < Size
    ensures Cells(original, labels).Ok?
    ensures ReportStatistics(original, labels).value.confusion[r][c] ==
              Count(Cells(original, labels).value, (r, c))
  {
    var cs := Cells(original, labels).value;
    assert InGrid(cs);
    TallyCell(cs, r, c);
  }

  /** No entry of the reported matrix exceeds the number of keys. */
  lemma ReportedCellsBounded(original: seq<int>, labels: Dict<int, int>)
    requires ReportStatistics(original, labels).Ok?
    ensures var m := ReportStatistics(original, labels).value.confusion;
            forall r, c :: 0 <= r < |m| && 0 <= c < |m[r]| ==> m[r][c] <= |labels|
  {
    var m := ReportStatistics(original, labels).value.confusion;
    forall r, c | 0 <= r < |m| && 0 <= c < |m[r]|
      ensures m[r][c] <= |labels|
    {
      ReportedCell(original, labels, r, c);
    }
  }

  lemma TallySums(cs: seq<(nat, nat)>)
    requires InGrid(cs)
    ensures forall r: nat, c: nat :: r < Size && c < Size ==> Tally(cs)[r][c] == Count(cs, (r, c))
    ensures forall r: nat :: r < Size ==> Sum(Tally(cs)[r]) == Count(Firsts(cs), r)
    ensures forall c: nat :: c < Size ==> Sum(Column(Tally(cs), c)) == Count(Seconds(cs), c)
  {
    forall r: nat, c: nat | r < Size && c < Size
      ensures Tally(cs)[r][c] == Count(cs, (r, c))
    {
      TallyCell(cs, r, c);
    }
    forall r: nat | r < Size
      ensures Sum(Tally(cs)[r]) == Count(Firsts(cs), r)
    {
      TallyRowSum(cs, r);
    }
    forall c: nat | c < Size
      ensures Sum(Column(Tally(cs), c)) == Count(Seconds(cs), c)
    {
      TallyColSum(cs, c);
    }
  }

  /** An agreeing key lands on the diagonal; without wrap-around (both
      labels non-negative) only agreeing keys do. */
  lemma CellOnDiagonal(original: seq<int>, k: int, v: int)
    requires CellOf(original, k, v).Ok?
    ensures Item(original, k).Ok?
    ensures Item(original, k).value == v ==> CellOf(original, k, v).value.0 == CellOf(original, k, v).value.1
    ensures Item(original, k).value >= 0 && v >= 0 ==>
              (CellOf(original, k, v).value.0 == CellOf(original, k, v).value.1 <==> Item(original, k).value == v)
  {
  }

  /** Every key with a cell has an original label. */
  lemma CellsHaveOriginals(original: seq<int>, labels: Dict<int, int>)
    requires Cells(original, labels).Ok?
    ensures NrCorrect(original, labels).Ok?
  {
    forall n | 0 <= n < |labels| ensures Item(original, labels[n].0).Ok? {
      assert CellOf(original, labels[n].0, labels[n].1).Ok?;
      CellOnDiagonal(original, labels[n].0, labels[n].1);
    }
  }

  /** No annotation and no original label of a key needs wrap-around. */
  ghost predicate NonNegativeLabels(original: seq<int>, labels: Dict<int, int>)
  {
    forall n :: 0 <= n < |labels| ==>
      labels[n].1 >= 0 && Item(original, labels[n].0).Ok? && Item(original, labels[n].0).value >= 0
  }

  /** One step of the loop over the keys: the last key's cell follows the
      cells of the others. */
  lemma CellsLast(original: seq<int>, labels: Dict<int, int>)
    requires |labels| > 0 && Cells(original, labels).Ok?
    ensures var n := |labels| - 1;
            Cells(original, labels[..n]).Ok? &&
            Cells(original, labels).value ==
              Cells(original, labels[..n]).value + [CellOf(original, labels[n].0, labels[n].1).value]
  {
  }

  /** One step of the agreement count: the last key adds one when it agrees. */
  lemma NrCorrectLast(original: seq<int>, labels: Dict<int, int>)
    requires |labels| > 0 && NrCorrect(original, labels).Ok?
    ensures var n := |labels| - 1;
            NrCorrect(original, labels[..n]).Ok? && Item(original, labels[n].0).Ok? &&
            NrCorrect(original, labels).value ==
              NrCorrect(original, labels[..n]).value +
              if Item(original, labels[n].0).value == labels[n].1 then 1 else 0
  {
  }

  /** One step of the agreement flags: the last entry adds its own flag. */
  lemma AgreeFlagsLast(original: seq<int>, labels: Dict<int, int>)
    requires |labels| > 0
    ensures var n := |labels| - 1;
            Count(AgreeFlags(original, labels), true) ==
              Count(AgreeFlags(original, labels[..n]), true) +
              if Item(original, labels[n].0) == Ok(labels[n].1) then 1 else 0
  {
    var n := |labels| - 1;
    var pre := labels[..n];
    var fs := AgreeFlags(original, labels);
    assert fs[..n] == AgreeFlags(original, pre) by {
      forall i | 0 <= i < n
        ensures fs[..n][i] == AgreeFlags(original, pre)[i]
      {
        assert pre[i] == labels[i];
      }
    }
  }

  /** `nr_correct` is the number of entries whose annotation agrees with
      the original label of its key. */
  lemma {:induction false} NrCorrectCounts(original: seq<int>, labels: Dict<int, int>)
    ensures NrCorrect(original, labels).Ok? ==>
              NrCorrect(original, labels).value == Count(AgreeFlags(original, labels), true)
  {
    if |labels| > 0 && NrCorrect(original, labels).Ok? {
      NrCorrectLast(original, labels);
      NrCorrectCounts(original, labels[..|labels| - 1]);
      AgreeFlagsLast(original, labels);
    }
  }

  lemma DiagonalCountSnoc(cs: seq<(nat, nat)>, c: (nat, nat))
    ensures Count(OnDiagonal(cs + [c]), true) == Count(OnDiagonal(cs), true) + if c.0 == c.1 then 1 else 0
  {
    assert OnDiagonal(cs + [c]) == OnDiagonal(cs) + [c.0 == c.1];
    CountSnoc(OnDiagonal(cs), c.0 == c.1, true);
  }

  /** The diagonal cells of the keys. */
  function DiagonalCount(original: seq<int>, labels: Dict<int, int>): nat
    requires Cells(original, labels).Ok?
  {
    Count(OnDiagonal(Cells(original, labels).value), true)
  }

  /** The last key adds to the agreement count only when it adds to the
      diagonal, and, without wrap-around, exactly when it does. */
  lemma NrCorrectStep(original: seq<int>, labels: Dict<int, int>)
    requires |labels| > 0 && Cells(original, labels).Ok?
    ensures var pre := labels[..|labels| - 1];
            Cells(original, pre).Ok? && NrCorrect(original, labels).Ok? && NrCorrect(original, pre).Ok? &&
            NrCorrect(original, labels).value - NrCorrect(original, pre).value <=
              DiagonalCount(original, labels) - DiagonalCount(original, pre) &&
            (NonNegativeLabels(original, labels) ==>
               NonNegativeLabels(original, pre) &&
               NrCorrect(original, labels).value - NrCorrect(original, pre).value ==
                 DiagonalCount(original, labels) - DiagonalCount(original, pre))
  {
    var n := |labels| - 1;
    var pre := labels[..n];
    assert forall i :: 0 <= i < n ==> pre[i] == labels[i];
    CellsHaveOriginals(original, labels);
    CellsLast(original, labels);
    NrCorrectLast(original, labels);
    var cell := CellOf(original, labels[n].0, labels[n].1).value;
    var o := Item(original, labels[n].0).value;
    DiagonalCountSnoc(Cells(original, pre).value, cell);
    CellOnDiagonal(original, labels[n].0, labels[n].1);
    if NonNegativeLabels(original, labels) {
      assert labels[n].1 >= 0 && o >= 0;
    }
  }

  /** Agreeing entries land on the diagonal, so `nr_correct` never exceeds
      the number of diagonal cells; without wrap-around it equals it. */
  lemma {:induction false} NrCorrectBelowDiagonal(original: seq<int>, labels: Dict<int, int>)
    requires Cells(original, labels).Ok?
    ensures NrCorrect(original, labels).Ok?
    ensures NrCorrect(original, labels).value <= DiagonalCount(original, labels)
    ensures NonNegativeLabels(original, labels) ==>
              NrCorrect(original, labels).value == DiagonalCount(original, labels)
  {
    CellsHaveOriginals(original, labels);
    if |labels| > 0 {
      NrCorrectStep(original, labels);
      NrCorrectBelowDiagonal(original, labels[..|labels| - 1]);
    }
  }

  /** The trace of the reported matrix bounds the agreement count, and equals
      it when no label needs wrap-around. */
  lemma ReportTrace(original: seq<int>, labels: Dict<int, int>)
    requires ReportStatistics(original, labels).Ok?
    ensures var rep := ReportStatistics(original, labels).value;
            rep.nrCorrect <= Trace(rep.confusion) &&
            (NonNegativeLabels(original, labels) ==> rep.nrCorrect == Trace(rep.confusion))
  {
    NrCorrectBelowDiagonal(original, labels);
    TallyTrace(Cells(original, labels).value);
    assert Trace(ReportStatistics(original, labels).value.confusion) == DiagonalCount(original, labels);
  }
}
