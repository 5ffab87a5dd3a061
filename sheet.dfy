/**
 * The record-building part of `process_excel_sheet`: the sheet's rows,
 * already read from the workbook, become a dict that maps `row_1`,
 * `row_2`, ... to one record per data row, and each record maps a field
 * name to that row's cell.
 */
module Sheet {
  import opened Results
  import opened PyDict
  import opened Decimal

  /** One data row: field name -> cell text, in column order. */
  type Record = Dict<string>

  /** The two places where the record-building step raises IndexError. */
  datatype SheetError =
    | NoRows                // `rows_to_process.pop(0)` or `rows_to_process[0]` on a sheet without rows
    | RowTooLong(idx: nat)  // `heading_row[i]` past the end of the field names, in data row idx

  /** `'row_{}'.format(idx)` */
  function RowKey(idx: nat): (s: string)
    ensures |s| > 4 && s[..4] == "row_"
    ensures forall i :: 4 <= i < |s| ==> '0' <= s[i] <= '9'
  {
    "row_" + NatToString(idx)
  }

  lemma RowKeysDiffer(m: nat, n: nat)
    requires m != n
    ensures RowKey(m) != RowKey(n)
  {
    assert RowKey(m)[4..] == NatToString(m);
    assert RowKey(n)[4..] == NatToString(n);
    NatToStringInjective(m, n);
  }

  /** The key of the next data row is not yet in a dict holding rows 1 to k. */
  lemma FreshRowKey<V>(d: Dict<V>, k: nat)
    requires |d| == k && forall i :: 0 <= i < k ==> d[i].0 == RowKey(i + 1)
    ensures RowKey(k + 1) !in Keys(d)
  {
    forall j | 0 <= j < k ensures Keys(d)[j] != RowKey(k + 1) {
      RowKeysDiffer(j + 1, k + 1);
    }
  }

  /** `['Unnamed Property {}'.format(i) for i in range(width)]` */
  function UnnamedHeading(width: nat): (h: seq<string>)
    ensures |h| == width
    ensures forall i :: 0 <= i < width ==> |h[i]| > 17 && h[i][..17] == "Unnamed Property "
  {
    seq(width, i requires 0 <= i < width => "Unnamed Property " + NatToString(i))
  }

  ghost predicate Distinct(names: seq<string>) {
    forall i, j :: 0 <= i < j < |names| ==> names[i] != names[j]
  }

  /** The generated field names never clash, so no cell of a row is lost. */
  lemma UnnamedHeadingDistinct(width: nat)
    ensures |UnnamedHeading(width)| == width
    ensures Distinct(UnnamedHeading(width))
  {
    var h := UnnamedHeading(width);
    forall i, j | 0 <= i < j < width ensures h[i] != h[j] {
      NatToStringInjective(i, j);
      assert h[i][17..] == NatToString(i);
      assert h[j][17..] == NatToString(j);
    }
  }

  /** The field names: the first row when `heading` is set, generated names otherwise. */
  function HeadingRow(rows: seq<seq<string>>, heading: bool): seq<string>
    requires |rows| > 0
  {
    if heading then rows[0] else UnnamedHeading(|rows[0]|)
  }

  /** The rows that become records: all but the first when `heading` is set. */
  function DataRows(rows: seq<seq<string>>, heading: bool): seq<seq<string>>
    requires |rows| > 0
  {
    if heading then rows[1..] else rows
  }

  /** `{heading_row[i]: row[i] for i in range(len(row))}` */
  function BuildRecord(headingRow: seq<string>, row: seq<string>): (r: Record)
    requires |row| <= |headingRow|
    ensures |r| <= |row|
    ensures forall k :: k in Keys(r) <==> k in headingRow[..|row|]
  {
    var ps := seq(|row|, i requires 0 <= i < |row| => (headingRow[i], row[i]));
    assert Keys(ps) == headingRow[..|row|];
    FromPairs(ps)
  }

  /**
   * With distinct field names, the record lists the field names as its keys
   * and the row's cells as its values, both in column order.
   */
  lemma BuildRecordInOrder(headingRow: seq<string>, row: seq<string>)
    requires |row| <= |headingRow| && Distinct(headingRow)
    ensures Keys(BuildRecord(headingRow, row)) == headingRow[..|row|]
    ensures Values(BuildRecord(headingRow, row)) == row
  {
    var ps := seq(|row|, i requires 0 <= i < |row| => (headingRow[i], row[i]));
    assert DistinctKeys(ps);
    FromDistinctPairs(ps);
  }

  /** The first `k` data rows are no longer than the heading row. */
  ghost predicate RowsFit(data: seq<seq<string>>, headingRow: seq<string>, k: nat)
    requires k <= |data|
  {
    forall i :: 0 <= i < k ==> |data[i]| <= |headingRow|
  }

  /** Entry `i` of `d` is data row `i` built as a record, under the key row_<i+1>. */
  ghost predicate Numbered(d: Dict<Record>, data: seq<seq<string>>, headingRow: seq<string>)
    requires |d| <= |data| && RowsFit(data, headingRow, |d|)
  {
    forall i :: 0 <= i < |d| ==> d[i] == (RowKey(i + 1), BuildRecord(headingRow, data[i]))
  }

  lemma ExtendRows(data: seq<seq<string>>, headingRow: seq<string>, k: nat)
    requires k < |data| && RowsFit(data, headingRow, k) && |data[k]| <= |headingRow|
    ensures RowsFit(data, headingRow, k + 1)
  {
  }

  lemma ExtendNumbered(d: Dict<Record>, data: seq<seq<string>>, headingRow: seq<string>)
    requires |d| < |data| && RowsFit(data, headingRow, |d| + 1) && Numbered(d, data, headingRow)
    ensures Numbered(d + [(RowKey(|d| + 1), BuildRecord(headingRow, data[|d|]))], data, headingRow)
  {
  }

  /**
   * Lines 156-165: pop or generate the field names, then store the record
   * of data row idx (counting from 1) under `row_idx`.
   */
  method ProcessSheet(rows: seq<seq<string>>, heading: bool) returns (r: Result<Dict<Record>, SheetError>)
    ensures rows == [] ==> r == Err(NoRows)
    ensures rows != [] ==>
      (r.Ok? <==> RowsFit(DataRows(rows, heading), HeadingRow(rows, heading), |DataRows(rows, heading)|))
    ensures r.Ok? ==>
      rows != [] && |r.value| == |DataRows(rows, heading)| &&
      RowsFit(DataRows(rows, heading), HeadingRow(rows, heading), |r.value|) &&
      Numbered(r.value, DataRows(rows, heading), HeadingRow(rows, heading))
    ensures rows != [] && r.Err? ==> r.error.RowTooLong?
    ensures r.Err? && r.error.RowTooLong? ==>
      rows != [] && 1 <= r.error.idx <= |DataRows(rows, heading)| &&
      |DataRows(rows, heading)[r.error.idx - 1]| > |HeadingRow(rows, heading)| &&
      RowsFit(DataRows(rows, heading), HeadingRow(rows, heading), r.error.idx - 1)
  {
    if |rows| == 0 {
      return Err(NoRows);
    }
    var rowsToProcess := rows;
    var headingRow: seq<string>;
    if heading {
      headingRow := rowsToProcess[0];
      rowsToProcess := rowsToProcess[1..];
    } else {
      headingRow := UnnamedHeading(|rowsToProcess[0]|);
    }
    assert rowsToProcess == DataRows(rows, heading) && headingRow == HeadingRow(rows, heading);
    var returnDict: Dict<Record> := [];
    for k := 0 to |rowsToProcess|
      invariant |returnDict| == k
      invariant RowsFit(rowsToProcess, headingRow, k)
      invariant Numbered(returnDict, rowsToProcess, headingRow)
    {
      var row := rowsToProcess[k];
      if |row| > |headingRow| {
        assert !RowsFit(rowsToProcess, headingRow, |rowsToProcess|);
        return Err(RowTooLong(k + 1));
      }
      var processedRow := BuildRecord(headingRow, row);
      var key := RowKey(k + 1);
      FreshRowKey(returnDict, k);
      var next := Insert(returnDict, key, processedRow);
      ExtendRows(rowsToProcess, headingRow, k);
      ExtendNumbered(returnDict, rowsToProcess, headingRow);
      returnDict := next;
    }
    return Ok(returnDict);
  }
}
