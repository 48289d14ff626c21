/**
 * Column-wise merge of mapped tables.  Each table is a classification row,
 * a header row and data rows, as read from one `*_mapped.csv` file.
 */
module MergeTables {

  import opened Base
  import opened Text

  datatype Table = Table(classRow: seq<string>, header: seq<string>, data: seq<seq<string>>)

  function Max(a: nat, b: nat): nat { if a < b then b else a }

  function Min(a: nat, b: nat): nat { if a < b then a else b }

  /** `pad(row, length)`: cut to `length` cells or fill with empty cells. */
  function Pad(row: seq<string>, length: nat): (r: seq<string>)
    ensures |r| == length
    ensures forall k :: 0 <= k < Min(|row|, length) ==> r[k] == row[k]
    ensures forall k :: |row| <= k < length ==> r[k] == ""
  {
    if |row| < length then row + seq(length - |row|, _ => "") else row[..length]
  }

  /** `[""] * n` */
  function Blank(n: nat): (r: seq<string>)
    ensures |r| == n && forall k :: 0 <= k < n ==> r[k] == ""
  {
    seq(n, _ => "")
  }

  /** `[j for j, n in enumerate(head2) if n not in head1]`, in increasing order. */
  function KeepIndices(head1: seq<string>, head2: seq<string>): (keep: seq<nat>)
    ensures forall k :: 0 <= k < |keep| ==> keep[k] < |head2| && head2[keep[k]] !in head1
    ensures forall j :: 0 <= j < |head2| && head2[j] !in head1 ==> j in keep
    ensures forall a, b :: 0 <= a < b < |keep| ==> keep[a] < keep[b]
    decreases |head2|
  {
    if |head2| == 0 then []
    else
      var n := |head2| - 1;
      var prev := KeepIndices(head1, head2[..n]);
      assert forall k :: 0 <= k < |prev| ==> head2[..n][prev[k]] == head2[prev[k]];
      if head2[n] in head1 then prev else prev + [n]
  }

  /** `[xs[j] for j in idx]` */
  function Select(xs: seq<string>, idx: seq<nat>): (r: seq<string>)
    requires forall k :: 0 <= k < |idx| ==> idx[k] < |xs|
    ensures |r| == |idx| && forall k :: 0 <= k < |idx| ==> r[k] == xs[idx[k]]
  {
    seq(|idx|, k requires 0 <= k < |idx| => xs[idx[k]])
  }

  /** Row `i` of a table as it enters the merge: padded, or blank when missing. */
  function RowOrBlank(data: seq<seq<string>>, i: nat, width: nat): (r: seq<string>)
    ensures |r| == width
    ensures i >= |data| ==> r == Blank(width)
  {
    if i < |data| then Pad(data[i], width) else Blank(width)
  }

  /** Row `i` of the merge: the first table's row, then the kept cells of the second's. */
  function MergedRow(t1: Table, t2: Table, keep: seq<nat>, i: nat): seq<string>
    requires forall k :: 0 <= k < |keep| ==> keep[k] < |t2.header|
  {
    RowOrBlank(t1.data, i, |t1.header|) + Select(RowOrBlank(t2.data, i, |t2.header|), keep)
  }

  /**
   * `merge_two_tables`.  The class row of the second table is indexed at the
   * kept header positions; a class row shorter than that raises in the source.
   */
  function MergeTwo(t1: Table, t2: Table): (r: Result<Table, string>)
  {
    var keep := KeepIndices(t1.header, t2.header);
    if exists k :: 0 <= k < |keep| && keep[k] >= |t2.classRow| then Err("list index out of range")
    else
      Ok(Table(t1.classRow + Select(t2.classRow, keep), t1.header + Select(t2.header, keep), MergedData(t1, t2, keep)))
  }

  /** The merged data rows: one per row of the longer table. */
  function MergedData(t1: Table, t2: Table, keep: seq<nat>): seq<seq<string>>
    requires forall k :: 0 <= k < |keep| ==> keep[k] < |t2.header|
  {
    seq(Max(|t1.data|, |t2.data|), i requires 0 <= i < Max(|t1.data|, |t2.data|) => MergedRow(t1, t2, keep, i))
  }

  /**
   * The merge fails exactly when a name that only the second table has sits
   * past the end of the second table's class row.
   */
  lemma MergeTwoFails(t1: Table, t2: Table)
    ensures MergeTwo(t1, t2).Err? <==>
      exists j :: |t2.classRow| <= j < |t2.header| && t2.header[j] !in t1.header
  {
    var keep := KeepIndices(t1.header, t2.header);
    if j :| |t2.classRow| <= j < |t2.header| && t2.header[j] !in t1.header {
      var k :| 0 <= k < |keep| && keep[k] == j;
      assert keep[k] >= |t2.classRow|;
    }
  }

  /** A name is in head1 followed by the kept names of head2 exactly when it is in either. */
  lemma KeptNames(head1: seq<string>, head2: seq<string>)
    ensures forall x :: x in head1 + Select(head2, KeepIndices(head1, head2)) <==> x in head1 || x in head2
  {
    var keep := KeepIndices(head1, head2);
    var sel := Select(head2, keep);
    forall x ensures x in head1 + sel <==> x in head1 || x in head2 {
      if x in head2 && x !in head1 {
        var j :| 0 <= j < |head2| && head2[j] == x;
        var k :| 0 <= k < |keep| && keep[k] == j;
        assert sel[k] == x;
      }
      if x in sel {
        var p :| 0 <= p < |sel| && sel[p] == x;
        assert x == head2[keep[p]];
      }
    }
  }

  /** The merged header is head1 followed by the names only head2 has. */
  lemma MergeTwoHeader(t1: Table, t2: Table)
    requires MergeTwo(t1, t2).Ok?
    ensures t1.header <= MergeTwo(t1, t2).value.header
    ensures forall x :: x in MergeTwo(t1, t2).value.header <==> x in t1.header || x in t2.header
    ensures |MergeTwo(t1, t2).value.classRow| - |t1.classRow| ==
            |MergeTwo(t1, t2).value.header| - |t1.header|
  {
    var keep := KeepIndices(t1.header, t2.header);
    assert MergeTwo(t1, t2).value.header == t1.header + Select(t2.header, keep);
    KeptNames(t1.header, t2.header);
  }

  /**
   * The merged data has one row per row of the longer table, each as wide as
   * the merged header; a row the first table lacks starts with empty cells
   * and a row it has keeps its leading cells.
   */
  lemma MergeTwoRows(t1: Table, t2: Table)
    requires MergeTwo(t1, t2).Ok?
    ensures var m := MergeTwo(t1, t2).value;
      |m.data| == Max(|t1.data|, |t2.data|) &&
      forall i :: 0 <= i < |m.data| ==> |m.data[i]| == |m.header|
    ensures var m := MergeTwo(t1, t2).value;
      forall i, k :: |t1.data| <= i < |m.data| && 0 <= k < |t1.header| ==> m.data[i][k] == ""
    ensures var m := MergeTwo(t1, t2).value;
      forall i, k :: 0 <= i < |t1.data| && 0 <= k < Min(|t1.data[i]|, |t1.header|) ==>
        m.data[i][k] == t1.data[i][k]
  {
    var keep := KeepIndices(t1.header, t2.header);
    var m := MergeTwo(t1, t2).value;
    forall i | 0 <= i < |m.data|
      ensures m.data[i] == RowOrBlank(t1.data, i, |t1.header|) + Select(RowOrBlank(t2.data, i, |t2.header|), keep)
    {
      assert m.data[i] == MergedData(t1, t2, keep)[i] == MergedRow(t1, t2, keep, i);
    }
  }

  /**
   * Cell `(i, j)` of the merge: under a column of the first table it is that
   * table's cell, empty where its row is missing or short; under a column
   * only the second table has, it is the second table's cell for that name,
   * empty likewise.
   */
  lemma MergeTwoCell(t1: Table, t2: Table, i: nat, j: nat)
    requires MergeTwo(t1, t2).Ok?
    requires i < |MergeTwo(t1, t2).value.data| && j < |MergeTwo(t1, t2).value.header|
    ensures var m := MergeTwo(t1, t2).value;
      j < |m.data[i]| &&
      (j < |t1.header| ==>
        m.header[j] == t1.header[j] &&
        m.data[i][j] == if i < |t1.data| && j < |t1.data[i]| then t1.data[i][j] else "")
    ensures var m := MergeTwo(t1, t2).value;
      j >= |t1.header| ==>
        exists c :: 0 <= c < |t2.header| && t2.header[c] == m.header[j] && t2.header[c] !in t1.header &&
          m.data[i][j] == if i < |t2.data| && c < |t2.data[i]| then t2.data[i][c] else ""
  {
    var keep := KeepIndices(t1.header, t2.header);
    var m := MergeTwo(t1, t2).value;
    assert m.data[i] == MergedData(t1, t2, keep)[i] == MergedRow(t1, t2, keep, i);
    assert m.header == t1.header + Select(t2.header, keep);
    MergedRowCell(t1, t2, keep, i, j);
  }

  /** Cell `j` of merged row `i`, read off the two rows it is made of. */
  lemma MergedRowCell(t1: Table, t2: Table, keep: seq<nat>, i: nat, j: nat)
    requires keep == KeepIndices(t1.header, t2.header)
    requires j < |t1.header| + |keep|
    ensures var row, header := MergedRow(t1, t2, keep, i), t1.header + Select(t2.header, keep);
      j < |row| &&
      (j < |t1.header| ==>
        header[j] == t1.header[j] &&
        row[j] == if i < |t1.data| && j < |t1.data[i]| then t1.data[i][j] else "")
    ensures var row, header := MergedRow(t1, t2, keep, i), t1.header + Select(t2.header, keep);
      j >= |t1.header| ==>
        exists c :: 0 <= c < |t2.header| && t2.header[c] == header[j] && t2.header[c] !in t1.header &&
          row[j] == if i < |t2.data| && c < |t2.data[i]| then t2.data[i][c] else ""
  {
    var n1 := |t1.header|;
    var header := t1.header + Select(t2.header, keep);
    var row := MergedRow(t1, t2, keep, i);
    if j >= n1 {
      var c := keep[j - n1];
      assert header[j] == t2.header[c];
      assert row[j] == RowOrBlank(t2.data, i, |t2.header|)[c];
    }
  }

  /** Distinct header names stay distinct in the merged header. */
  lemma MergeTwoKeepsNamesDistinct(t1: Table, t2: Table)
    requires NoDup(t1.header) && NoDup(t2.header)
    requires MergeTwo(t1, t2).Ok?
    ensures NoDup(MergeTwo(t1, t2).value.header)
  {
    var keep := KeepIndices(t1.header, t2.header);
    var h := MergeTwo(t1, t2).value.header;
    var n1 := |t1.header|;
    forall a, b | 0 <= a < b < |h| ensures h[a] != h[b] {
      if b >= n1 {
        assert h[b] == t2.header[keep[b - n1]];
        if a >= n1 {
          assert h[a] == t2.header[keep[a - n1]];
          assert keep[a - n1] < keep[b - n1];
        } else {
          assert h[a] in t1.header;
        }
      }
    }
  }

  /** `merge_two_tables`, building the data rows with an appending loop. */
  method MergeTwoTables(t1: Table, t2: Table) returns (r: Result<Table, string>)
    ensures r == MergeTwo(t1, t2)
  {
    var keep := KeepIndices(t1.header, t2.header);
    var k := 0;
    while k < |keep|
      invariant 0 <= k <= |keep|
      invariant forall k' :: 0 <= k' < k ==> keep[k'] < |t2.classRow|
    {
      if keep[k] >= |t2.classRow| {
        return Err("list index out of range");
      }
      k := k + 1;
    }
    var mergedClass := t1.classRow + Select(t2.classRow, keep);
    var mergedHead := t1.header + Select(t2.header, keep);
    var mergedData := MergeData(t1, t2, keep);
    r := Ok(Table(mergedClass, mergedHead, mergedData));
  }

  /** The row loop of `merge_two_tables`. */
  method MergeData(t1: Table, t2: Table, keep: seq<nat>) returns (mergedData: seq<seq<string>>)
    requires forall k :: 0 <= k < |keep| ==> keep[k] < |t2.header|
    ensures mergedData == MergedData(t1, t2, keep)
  {
    var maxLen := Max(|t1.data|, |t2.data|);
    mergedData := [];
    var i := 0;
    while i < maxLen
      invariant 0 <= i <= maxLen && |mergedData| == i
      invariant forall i' :: 0 <= i' < i ==> mergedData[i'] == MergedRow(t1, t2, keep, i')
    {
      var row := MergeRow(t1, t2, keep, i);
      mergedData := mergedData + [row];
      i := i + 1;
    }
  }

  /** One pass of the row loop: both rows padded (or blank), then the kept cells of the second appended. */
  method MergeRow(t1: Table, t2: Table, keep: seq<nat>, i: nat) returns (row: seq<string>)
    requires forall k :: 0 <= k < |keep| ==> keep[k] < |t2.header|
    ensures row == MergedRow(t1, t2, keep, i)
  {
    var len1, len2 := |t1.header|, |t2.header|;
    var r1 := if i < |t1.data| then Pad(t1.data[i], len1) else Blank(len1);
    var r2 := if i < |t2.data| then Pad(t2.data[i], len2) else Blank(len2);
    row := r1 + Select(r2, keep);
  }

  /** The left fold `merge_all` performs over the remaining tables. */
  function FoldMerge(acc: Table, rest: seq<Table>): (r: Result<Table, string>)
    decreases |rest|
  {
    if |rest| == 0 then Ok(acc)
    else match MergeTwo(acc, rest[0])
      case Err(e) => Err(e)
      case Ok(m) => FoldMerge(m, rest[1..])
  }

  /** `merge_all` without the file I/O: the first table merged with each later one in turn. */
  method MergeAll(tables: seq<Table>) returns (r: Result<Table, string>)
    ensures |tables| == 0 ==> r.Err?
    ensures |tables| > 0 ==> r == FoldMerge(tables[0], tables[1..])
  {
    if |tables| == 0 {
      return Err("list index out of range");
    }
    var acc := tables[0];
    var i := 1;
    while i < |tables|
      invariant 1 <= i <= |tables|
      invariant FoldMerge(acc, tables[i..]) == FoldMerge(tables[0], tables[1..])
    {
      var m := MergeTwoTables(acc, tables[i]);
      assert tables[i..][1..] == tables[i + 1..];
      if m.Err? {
        return m;
      }
      acc := m.value;
      i := i + 1;
    }
    assert tables[i..] == [];
    r := Ok(acc);
  }

  /**
   * Folding keeps every name of every table, keeps the first table's header
   * as a prefix, and leaves every data row as wide as the header once at
   * least one merge has happened.
   */
  lemma {:induction false} FoldMergeShape(acc: Table, rest: seq<Table>)
    requires FoldMerge(acc, rest).Ok?
    ensures var m := FoldMerge(acc, rest).value;
      acc.header <= m.header &&
      (forall x :: x in acc.header ==> x in m.header) &&
      (forall t, x :: t in rest && x in t.header ==> x in m.header) &&
      (|rest| > 0 ==> forall i :: 0 <= i < |m.data| ==> |m.data[i]| == |m.header|)
    decreases |rest|
  {
    if |rest| > 0 {
      MergeTwoHeader(acc, rest[0]);
      MergeTwoRows(acc, rest[0]);
      var m1 := MergeTwo(acc, rest[0]).value;
      FoldMergeShape(m1, rest[1..]);
      var m := FoldMerge(acc, rest).value;
      forall t, x | t in rest && x in t.header ensures x in m.header {
        if t != rest[0] {
          assert t in rest[1..];
        }
      }
      if |rest| > 1 {
        assert |rest[1..]| > 0;
      }
    }
  }
}
