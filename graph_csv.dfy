/** The column handling of the collectd CSV grapher: which columns of a CSV
    file are kept under an optional column-name filter, how a data row is cut
    down to them, and the checks and column labels of opening a file.  Rows
    are already-split lists of cells; reading the file is not modelled. */
module GraphCsv {
  import opened Wrappers
  import opened Strings

  /** One graphed column: where its values sit in a row, and its label. */
  datatype CsvColumn = CsvColumn(columnIndex: nat, name: string)

  /** Why opening a CSV file fails.  `IndexError` is Python's error for
      reading the first cell of an empty header while a filter is active. */
  datatype CsvError = IndexError | NoColumns | RowLengthMismatch

  /** A column filter is active when names are given and there is at least one. */
  predicate Filtering(columnNames: Option<seq<string>>)
  {
    columnNames.Some? && |columnNames.value| > 0
  }

  predicate Increasing(xs: seq<nat>)
  {
    forall i, j :: 0 <= i < j < |xs| ==> xs[i] < xs[j]
  }

  /** 0, 1, ..., n - 1. */
  function Range(n: nat): (r: seq<nat>)
    ensures |r| == n && forall i :: 0 <= i < n ==> r[i] == i
  {
    seq(n, i requires 0 <= i < n => i)
  }

  /** The positions below `n` that appear in `needed`, in increasing order:
      the positions a filter keeps from a row of length `n`. */
  function Kept(n: nat, needed: seq<nat>): (r: seq<nat>)
    ensures |r| <= n
    ensures forall k :: 0 <= k < |r| ==> r[k] < n && r[k] in needed
  {
    if n == 0 then [] else Kept(n - 1, needed) + (if n - 1 in needed then [n - 1] else [])
  }

  /** The cells of `row` at the positions `idx`. */
  function Pick(row: seq<string>, idx: seq<nat>): (r: seq<string>)
    requires forall k :: 0 <= k < |idx| ==> idx[k] < |row|
    ensures |r| == |idx|
  {
    seq(|idx|, k requires 0 <= k < |idx| => row[idx[k]])
  }

  /** The label of the `k`-th graphed column of file `basename`. */
  function ColumnName(k: nat, basename: string, title: string): string
  {
    NatToString(k) + "." + basename + "." + title
  }

  /** Increasing positions grow at least one per step. */
  lemma {:induction false} IncreasingSpread(xs: seq<nat>, i: nat, j: nat)
    requires Increasing(xs) && i <= j < |xs|
    ensures xs[j] - xs[i] >= j - i
    decreases j - i
  {
    if i < j {
      IncreasingSpread(xs, i + 1, j);
    }
  }

  /** For increasing positions, the ones below `m` form a prefix of them,
      and that prefix is what `Kept` returns. */
  lemma {:induction false} KeptPrefix(m: nat, needed: seq<nat>) returns (c: nat)
    requires Increasing(needed)
    ensures c <= |needed| && Kept(m, needed) == needed[..c]
    ensures forall k :: 0 <= k < c ==> needed[k] < m
    ensures forall k :: c <= k < |needed| ==> needed[k] >= m
    ensures c == |needed| || needed[c] >= m
  {
    if m == 0 {
      c := 0;
    } else {
      var c0 := KeptPrefix(m - 1, needed);
      if m - 1 in needed {
        c := KeptNext(m - 1, needed, c0);
      } else {
        c := c0;
        forall k | c <= k < |needed|
          ensures needed[k] >= m
        {
          assert needed[k] != m - 1;
        }
      }
    }
  }

  /** The step of `KeptPrefix` that meets a kept position `p`: it sits right
      after the prefix below it. */
  lemma KeptNext(p: nat, needed: seq<nat>, c0: nat) returns (c: nat)
    requires Increasing(needed) && p in needed
    requires c0 <= |needed| && Kept(p, needed) == needed[..c0]
    requires forall k :: 0 <= k < c0 ==> needed[k] < p
    requires c0 == |needed| || needed[c0] >= p
    ensures c == c0 + 1 <= |needed| && Kept(p + 1, needed) == needed[..c]
    ensures forall k :: 0 <= k < c ==> needed[k] < p + 1
    ensures forall k :: c <= k < |needed| ==> needed[k] >= p + 1
    ensures c == |needed| || needed[c] >= p + 1
  {
    var j :| 0 <= j < |needed| && needed[j] == p;
    assert j >= c0;
    assert needed[c0] <= needed[j];
    assert j == c0;
    c := c0 + 1;
    assert needed[..c] == needed[..c0] + [p];
  }

  /** A row long enough for every kept position keeps exactly those. */
  lemma KeptAll(n: nat, needed: seq<nat>)
    requires Increasing(needed)
    requires forall k :: 0 <= k < |needed| ==> needed[k] < n
    ensures Kept(n, needed) == needed
  {
    var c := KeptPrefix(n, needed);
  }

  /** The CSV file being opened: the label base, the filtered title row, the
      positions it keeps, the filtered first data row, and the columns. */
  class CsvFile {
    const basename: string
    var titleRow: seq<string>
    var neededRows: seq<nat>
    var firstDataRow: seq<string>
    var columns: seq<CsvColumn>

    constructor(basename: string)
      ensures this.basename == basename
      ensures titleRow == [] && neededRows == [] && firstDataRow == [] && columns == []
    {
      this.basename := basename;
      titleRow, neededRows, firstDataRow, columns := [], [], [], [];
    }

    /** set_up_title_row: without a filter every column is kept; with one,
        the first column always is and any other exactly when its header
        names a wanted column.  An empty header under a filter fails. */
    method SetUpTitleRow(row: seq<string>, columnNames: Option<seq<string>>) returns (r: Result<(), CsvError>)
      modifies this
      ensures firstDataRow == old(firstDataRow) && columns == old(columns)
      ensures r.Failure? <==> Filtering(columnNames) && |row| == 0
      ensures r.Failure? ==> r.error == IndexError
      ensures !Filtering(columnNames) ==> titleRow == row && neededRows == Range(|row|)
      ensures r.Success? && Filtering(columnNames) ==>
                && |neededRows| >= 1 && neededRows[0] == 0
                && forall i :: 1 <= i < |row| ==> (i in neededRows <==> row[i] in columnNames.value)
      ensures r.Success? ==>
                && Increasing(neededRows) && |titleRow| == |neededRows|
                && forall k :: 0 <= k < |neededRows| ==> neededRows[k] < |row| && titleRow[k] == row[neededRows[k]]
    {
      if !Filtering(columnNames) {
        neededRows := Range(|row|);
        titleRow := row;
        return Success(());
      }
      if |row| == 0 {
        return Failure(IndexError);
      }
      var title := [row[0]];
      var needed: seq<nat> := [0];
      var i := 1;
      while i < |row|
        invariant 1 <= i <= |row|
        invariant |title| == |needed| >= 1 && needed[0] == 0
        invariant Increasing(needed)
        invariant forall k :: 0 <= k < |needed| ==> needed[k] < i && title[k] == row[needed[k]]
        invariant forall j :: 1 <= j < i ==> (j in needed <==> row[j] in columnNames.value)
      {
        if row[i] in columnNames.value {
          title := title + [row[i]];
          needed := needed + [i];
        }
        i := i + 1;
      }
      titleRow, neededRows := title, needed;
      return Success(());
    }

    /** filter_row: the cells of `row` whose positions are kept, in order;
        never longer than `row`. */
    method FilterRow(row: seq<string>) returns (filtered: seq<string>)
      ensures filtered == Pick(row, Kept(|row|, neededRows))
      ensures |filtered| <= |row|
    {
      filtered := [];
      var i := 0;
      while i < |row|
        invariant 0 <= i <= |row|
        invariant filtered == Pick(row, Kept(i, neededRows))
      {
        if i in neededRows {
          filtered := filtered + [row[i]];
        }
        assert Kept(i + 1, neededRows) == Kept(i, neededRows) + (if i in neededRows then [i] else []);
        i := i + 1;
      }
    }

    /** Opening a file with header `header` and first data row `firstRow`:
        the header must keep at least one column and the filtered first row
        must be as long as the title row; each kept position then becomes a
        column labelled with its position among the kept ones. */
    method Init(header: seq<string>, firstRow: seq<string>, columnNames: Option<seq<string>>)
      returns (r: Result<(), CsvError>)
      modifies this
      ensures r == Failure(IndexError) <==> Filtering(columnNames) && |header| == 0
      ensures r == Failure(NoColumns) <==> !Filtering(columnNames) && |header| == 0
      ensures r == Failure(RowLengthMismatch) <==> |header| > 0 && |Kept(|firstRow|, neededRows)| != |neededRows|
      ensures r == Failure(RowLengthMismatch) ==> |firstRow| < |header|
      ensures |header| > 0 && |firstRow| >= |header| ==> r.Success?
      ensures r.Success? ==> 1 <= |titleRow| == |firstDataRow| == |columns| == |neededRows|
      ensures r.Success? ==> Increasing(neededRows) && firstDataRow == Pick(firstRow, Kept(|firstRow|, neededRows))
      ensures r.Success? && Filtering(columnNames) ==>
                && neededRows[0] == 0
                && forall i :: 1 <= i < |header| ==> (i in neededRows <==> header[i] in columnNames.value)
      ensures r.Success? && !Filtering(columnNames) ==> titleRow == header && neededRows == Range(|header|)
      ensures r.Success? ==> forall k :: 0 <= k < |columns| ==>
                && columns[k] == CsvColumn(neededRows[k], ColumnName(k, basename, titleRow[k]))
                && columns[k].columnIndex < |header| && header[columns[k].columnIndex] == titleRow[k]
      ensures r.Success? && !Filtering(columnNames) ==> |columns| == |header| && forall k :: 0 <= k < |header| ==>
                columns[k] == CsvColumn(k, NatToString(k) + "." + basename + "." + header[k])
    {
      r := SetUpTitleRow(header, columnNames);
      if r.Failure? {
        return;
      }
      if |titleRow| < 1 {
        return Failure(NoColumns);
      }
      firstDataRow := FilterRow(firstRow);
      if |titleRow| != |firstDataRow| {
        if |firstRow| >= |header| {
          KeptAll(|firstRow|, neededRows);
        }
        return Failure(RowLengthMismatch);
      }
      var cols: seq<CsvColumn> := [];
      var k := 0;
      while k < |neededRows|
        invariant 0 <= k <= |neededRows|
        invariant |cols| == k
        invariant forall j :: 0 <= j < k ==> cols[j] == CsvColumn(neededRows[j], ColumnName(j, basename, titleRow[j]))
      {
        cols := cols + [CsvColumn(neededRows[k], ColumnName(k, basename, titleRow[k]))];
        k := k + 1;
      }
      columns := cols;
    }
  }

  /** The column loop as the grapher writes it: it walks the VALUES of
      `needed` and uses each one as a position into `needed` and `title`,
      failing (Python's IndexError, here `None`) on a value past their end. */
  function ColumnsAsWritten(needed: seq<nat>, title: seq<string>, basename: string): Option<seq<CsvColumn>>
  {
    ColumnsFrom(needed, needed, title, basename)
  }

  function ColumnsFrom(values: seq<nat>, needed: seq<nat>, title: seq<string>, basename: string): Option<seq<CsvColumn>>
  {
    if |values| == 0 then Some([])
    else
      var i := values[0];
      if i >= |needed| || i >= |title| then None
      else
        match ColumnsFrom(values[1..], needed, title, basename)
        case None => None
        case Some(rest) => Some([CsvColumn(needed[i], ColumnName(i, basename, title[i]))] + rest)
  }

  /** The loop only succeeds when every value is a valid position. */
  lemma {:induction false} ColumnsFromInRange(values: seq<nat>, needed: seq<nat>, title: seq<string>, basename: string)
    requires ColumnsFrom(values, needed, title, basename).Some?
    ensures forall k :: 0 <= k < |values| ==> values[k] < |needed|
  {
    if |values| > 0 {
      ColumnsFromInRange(values[1..], needed, title, basename);
      assert forall k :: 1 <= k < |values| ==> values[k] == values[1..][k - 1];
    }
  }

  /** Hence the loop as written succeeds only when the kept positions are
      exactly 0, 1, ..., that is, when the filter drops no column before a
      kept one. */
  lemma ColumnsAsWrittenNeedsNoGap(needed: seq<nat>, title: seq<string>, basename: string)
    requires Increasing(needed)
    requires ColumnsAsWritten(needed, title, basename).Some?
    ensures forall k :: 0 <= k < |needed| ==> needed[k] == k
  {
    ColumnsFromInRange(needed, needed, title, basename);
    forall k | 0 <= k < |needed|
      ensures needed[k] == k
    {
      IncreasingSpread(needed, 0, k);
      IncreasingSpread(needed, k, |needed| - 1);
    }
  }

  /** A value past the end of `needed` makes the loop fail. */
  lemma {:induction false} ColumnsFromOutOfRange(values: seq<nat>, needed: seq<nat>, title: seq<string>, basename: string, k: nat)
    requires k < |values| && values[k] >= |needed|
    ensures ColumnsFrom(values, needed, title, basename).None?
  {
    if k > 0 {
      assert values[1..][k - 1] == values[k];
      ColumnsFromOutOfRange(values[1..], needed, title, basename, k - 1);
    }
  }

  /** The same fact read the other way, with the failing position named:
      as soon as one kept position is not its own index (a column before it
      was dropped), the loop as written fails, because the last kept
      position is then past the end of `needed`. */
  lemma ColumnsAsWrittenGapFails(needed: seq<nat>, title: seq<string>, basename: string, k: nat)
    requires Increasing(needed)
    requires k < |needed| && needed[k] != k
    ensures ColumnsAsWritten(needed, title, basename).None?
  {
    IncreasingSpread(needed, 0, k);
    IncreasingSpread(needed, k, |needed| - 1);
    ColumnsFromOutOfRange(needed, needed, title, basename, |needed| - 1);
  }

  /** The input that shows it: a header `time,a,b` filtered to column `b`
      keeps positions 0 and 2, and the loop as written then fails. */
  method FilterGapBreaksColumns() returns (r: Option<seq<CsvColumn>>)
    ensures r.None?
  {
    var f := new CsvFile("cpu.csv");
    var header := ["time", "a", "b"];
    var ok := f.SetUpTitleRow(header, Some(["b"]));
    assert 2 in f.neededRows by {
      assert header[2] in ["b"];
    }
    assert 1 !in f.neededRows by {
      assert header[1] !in ["b"];
    }
    var j :| 0 <= j < |f.neededRows| && f.neededRows[j] == 2;
    assert |f.neededRows| >= 2 && f.neededRows[1] != 1;
    ColumnsAsWrittenGapFails(f.neededRows, f.titleRow, f.basename, 1);
    r := ColumnsAsWritten(f.neededRows, f.titleRow, f.basename);
  }

  /** Without a filter the loop as written and `CsvFile.Init`'s loop agree:
      the fault only shows once a filter drops a column. */
  lemma {:induction false} ColumnsAsWrittenWithoutFilter(title: seq<string>, basename: string, j: nat)
    requires j <= |title|
    ensures ColumnsFrom(Range(|title|)[j..], Range(|title|), title, basename)
              == Some(seq(|title| - j, k requires 0 <= k < |title| - j =>
                           CsvColumn(j + k, ColumnName(j + k, basename, title[j + k]))))
    decreases |title| - j
  {
    var n := |title|;
    if j == n {
      assert Range(n)[j..] == [];
    } else {
      assert Range(n)[j..][0] == j;
      ColumnsAsWrittenWithoutFilter(title, basename, j + 1);
      assert Range(n)[j..][1..] == Range(n)[j + 1..];
      var tail := seq(n - (j + 1), k requires 0 <= k < n - (j + 1) =>
                        CsvColumn(j + 1 + k, ColumnName(j + 1 + k, basename, title[j + 1 + k])));
      assert [CsvColumn(j, ColumnName(j, basename, title[j]))] + tail
          == seq(n - j, k requires 0 <= k < n - j => CsvColumn(j + k, ColumnName(j + k, basename, title[j + k])));
    }
  }
}
