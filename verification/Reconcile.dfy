/**
  Cross-sheet reconciliation (`src/excel_audit/reconcile.py`): a keyed join through an index,
  against its definition by nested loops over both sheets.
*/
module Reconcile {
  import opened Options
  import opened Cells
  import opened Audit
  import Selections
  import Seqs

  datatype Sheet = Sheet(headers: seq<string>, rows: seq<Row>)

  // ----- the key index

  /** Reference: the last row whose key is `key`, found by scanning. */
  ghost function LastWithKey(rows: seq<Row>, column: string, key: string): Option<Row> {
    if rows == [] then None
    else
      var last := rows[|rows| - 1];
      if Key(last, column) == key then Some(last) else LastWithKey(rows[..|rows| - 1], column, key)
  }

  /** `_build_key_index` */
  method BuildKeyIndex(rows: seq<Row>, column: string) returns (index: map<string, Row>)
    ensures "" !in index
    ensures forall k :: k != "" ==>
      (if k in index then Some(index[k]) else None) == LastWithKey(rows, column, k)
  {
    index := map[];
    for n := 0 to |rows|
      invariant "" !in index
      invariant forall k :: k != "" ==>
        (if k in index then Some(index[k]) else None) == LastWithKey(rows[..n], column, k)
    {
      assert rows[..n + 1][..n] == rows[..n];
      var key := Key(rows[n], column);
      if key != "" {
        index := index[key := rows[n]];
      }
    }
    assert rows[..|rows|] == rows;
  }

  lemma {:induction false} LastWithKeyFinds(rows: seq<Row>, column: string, key: string)
    ensures LastWithKey(rows, column, key).None? <==> forall i :: 0 <= i < |rows| ==> Key(rows[i], column) != key
    ensures LastWithKey(rows, column, key).Some? ==>
      exists i :: 0 <= i < |rows| && rows[i] == LastWithKey(rows, column, key).value && Key(rows[i], column) == key
        && forall j :: i < j < |rows| ==> Key(rows[j], column) != key
  {
    if rows != [] {
      var n := |rows| - 1;
      if Key(rows[n], column) == key {
        assert rows[n] == LastWithKey(rows, column, key).value;
      } else {
        LastWithKeyFinds(rows[..n], column, key);
        assert forall i :: 0 <= i < n ==> rows[..n][i] == rows[i];
        if LastWithKey(rows, column, key).Some? {
          var i :| 0 <= i < n && rows[..n][i] == LastWithKey(rows, column, key).value && Key(rows[i], column) == key
            && forall j :: i < j < n ==> Key(rows[..n][j], column) != key;
          assert rows[i] == LastWithKey(rows, column, key).value;
          assert forall j :: i < j < |rows| ==> Key(rows[j], column) != key by {
            forall j | i < j < |rows| ensures Key(rows[j], column) != key {
              assert j < n ==> rows[..n][j] == rows[j];
            }
          }
        }
      }
    }
  }

  // ----- comparing two cells

  /** Both cells numeric: within the tolerance. Otherwise: they print alike. */
  predicate Agree(s: Cell, t: Cell, tolerance: real) {
    if s.Number().Some? && t.Number().Some? then Abs(s.Number().value - t.Number().value) <= tolerance
    else s.Text() == t.Text()
  }

  function Difference(i: nat, key: string, column: string, s: Cell, t: Cell): Finding {
    var rule := "reconcile_diff_" + column;
    if s.Number().Some? && t.Number().Some? then
      var diff := Abs(s.Number().value - t.Number().value);
      Finding(i, rule, DiffSeverity(diff), key, Number(s.Number().value), Number(t.Number().value), Some(diff))
    else
      Finding(i, rule, Info, key, Raw(s), Raw(t), None)
  }

  function Missing(i: nat, key: string): Finding {
    Finding(i, "reconcile_missing_target", Warning, key, Absent, Absent, None)
  }

  // ----- reference: nested loops

  /** What a source sheet is joined with: the target rows, and how rows are matched and compared. */
  datatype Join = Join(target: seq<Row>, keyColumn: string, cols: seq<string>, tolerance: real)

  ghost function ColumnFindings(i: nat, src: Row, tgt: Row, j: Join, n: nat): seq<Finding>
    requires n <= |j.cols|
  {
    if n == 0 then []
    else
      var c := j.cols[n - 1];
      ColumnFindings(i, src, tgt, j, n - 1)
      + if Agree(Get(src, c), Get(tgt, c), j.tolerance) then []
        else [Difference(i, Key(src, j.keyColumn), c, Get(src, c), Get(tgt, c))]
  }

  ghost function RowFindings(i: nat, src: Row, j: Join): seq<Finding> {
    var key := Key(src, j.keyColumn);
    if key == "" then []
    else match LastWithKey(j.target, j.keyColumn, key)
      case None => [Missing(i, key)]
      case Some(tgt) => ColumnFindings(i, src, tgt, j, |j.cols|)
  }

  /** The findings of the first `n` source rows. */
  ghost function NestedFindings(source: seq<Row>, j: Join, n: nat): seq<Finding>
    requires n <= |source|
  {
    if n == 0 then [] else NestedFindings(source, j, n - 1) + RowFindings(n - 1, source[n - 1], j)
  }

  ghost function KeyedRows(rows: seq<Row>, keyColumn: string, n: nat): nat
    requires n <= |rows|
  {
    if n == 0 then 0
    else KeyedRows(rows, keyColumn, n - 1) + if Key(rows[n - 1], keyColumn) != "" then 1 else 0
  }

  /** The columns to compare: those asked for, else the source's headers that the target shares. */
  function Columns(source: Sheet, target: Sheet, keyColumn: string, compareColumns: Option<seq<string>>): seq<string> {
    if compareColumns.Some? && compareColumns.value != [] then compareColumns.value
    else CommonColumns(source.headers, target.headers, keyColumn)
  }

  function CommonColumns(headers: seq<string>, targetHeaders: seq<string>, keyColumn: string): (cols: seq<string>)
    ensures forall c :: c in cols <==> c in headers && c in targetHeaders && c != keyColumn
  {
    if headers == [] then []
    else (if headers[0] in targetHeaders && headers[0] != keyColumn then [headers[0]] else [])
         + CommonColumns(headers[1..], targetHeaders, keyColumn)
  }

  // ----- the program

  /** The inner loop of `reconcile`: one source row against its target row. */
  method CompareColumns(idx: nat, key: string, src: Row, tgt: Row, cols: seq<string>, tolerance: real, ghost j: Join)
    returns (findings: seq<Finding>)
    requires key == Key(src, j.keyColumn) && cols == j.cols && tolerance == j.tolerance
    ensures findings == ColumnFindings(idx, src, tgt, j, |cols|)
  {
    findings := [];
    for c := 0 to |cols|
      invariant findings == ColumnFindings(idx, src, tgt, j, c)
    {
      var s, t := Get(src, cols[c]), Get(tgt, cols[c]);
      if s.Number().Some? && t.Number().Some? {
        var diff := Abs(s.Number().value - t.Number().value);
        if diff > tolerance {
          findings := findings + [Finding(idx, "reconcile_diff_" + cols[c], DiffSeverity(diff), key,
                                          Number(s.Number().value), Number(t.Number().value), Some(diff))];
        }
      } else if s.Text() != t.Text() {
        findings := findings + [Finding(idx, "reconcile_diff_" + cols[c], Info, key, Raw(s), Raw(t), None)];
      }
    }
  }

  /** `reconcile` agrees with the nested loops. */
  method Reconcile(source: Sheet, target: Sheet, keyColumn: string, compareColumns: Option<seq<string>>,
                   tolerance: real)
    returns (r: Result)
    ensures keyColumn == "" ==> r == Result(0, |source.rows|, [])
    ensures keyColumn != "" ==>
      var j := Join(target.rows, keyColumn, Columns(source, target, keyColumn, compareColumns), tolerance);
      r == Result(|j.cols|, KeyedRows(source.rows, keyColumn, |source.rows|),
                  NestedFindings(source.rows, j, |source.rows|))
  {
    hide Key, LastWithKey, ColumnFindings, Agree, CommonColumns;
    if keyColumn == "" {
      return Result(0, |source.rows|, []);
    }
    var index := BuildKeyIndex(target.rows, keyColumn);
    var cols := Columns(source, target, keyColumn, compareColumns);
    ghost var j := Join(target.rows, keyColumn, cols, tolerance);
    var findings: seq<Finding> := [];
    var rowsChecked := 0;
    for idx := 0 to |source.rows|
      invariant rowsChecked == KeyedRows(source.rows, keyColumn, idx)
      invariant findings == NestedFindings(source.rows, j, idx)
    {
      var src := source.rows[idx];
      var key := Key(src, keyColumn);
      if key == "" {
        continue;
      }
      rowsChecked := rowsChecked + 1;
      assert (if key in index then Some(index[key]) else None) == LastWithKey(target.rows, keyColumn, key);
      if key !in index {
        findings := findings + [Missing(idx, key)];
        continue;
      }
      var more := CompareColumns(idx, key, src, index[key], cols, tolerance, j);
      findings := findings + more;
    }
    return Result(|cols|, rowsChecked, findings);
  }

  // ----- what the findings say

  /** The row has a key, and its target row (the last one with that key) is missing or differs in a column. */
  ghost predicate Fails(src: Row, j: Join) {
    var key := Key(src, j.keyColumn);
    && key != ""
    && match LastWithKey(j.target, j.keyColumn, key)
       case None => true
       case Some(tgt) => exists c :: c in j.cols && !Agree(Get(src, c), Get(tgt, c), j.tolerance)
  }

  lemma {:induction false} ColumnFindingsCover(i: nat, src: Row, tgt: Row, j: Join, n: nat)
    requires n <= |j.cols|
    ensures forall f :: f in ColumnFindings(i, src, tgt, j, n) ==> f.rowIndex == i
    ensures ColumnFindings(i, src, tgt, j, n) == [] <==>
            forall k :: 0 <= k < n ==> Agree(Get(src, j.cols[k]), Get(tgt, j.cols[k]), j.tolerance)
  {
    hide Agree;
    if n > 0 {
      ColumnFindingsCover(i, src, tgt, j, n - 1);
    }
  }

  lemma RowFindingsCover(i: nat, src: Row, j: Join)
    ensures forall f :: f in RowFindings(i, src, j) ==> f.rowIndex == i
    ensures RowFindings(i, src, j) != [] <==> Fails(src, j)
  {
    var hit := LastWithKey(j.target, j.keyColumn, Key(src, j.keyColumn));
    if hit.Some? {
      ColumnFindingsCover(i, src, hit.value, j, |j.cols|);
      if c :| c in j.cols && !Agree(Get(src, c), Get(hit.value, c), j.tolerance) {
        var k :| 0 <= k < |j.cols| && j.cols[k] == c;
        assert !Agree(Get(src, j.cols[k]), Get(hit.value, j.cols[k]), j.tolerance);
      }
    }
  }

  /** Findings come in row order, and a row has findings exactly when it fails. */
  lemma {:induction false} FindingsExactly(source: seq<Row>, j: Join, n: nat)
    requires n <= |source|
    ensures InRowOrder(NestedFindings(source, j, n))
    ensures forall i :: Reports(NestedFindings(source, j, n), i) <==> 0 <= i < n && Fails(source[i], j)
  {
    hide Fails, RowFindings;
    if n > 0 {
      FindingsExactly(source, j, n - 1);
      RowFindingsCover(n - 1, source[n - 1], j);
      var fs, row := NestedFindings(source, j, n - 1), RowFindings(n - 1, source[n - 1], j);
      forall k | 0 <= k < |fs| ensures fs[k].rowIndex < n - 1 {
        assert Reports(fs, fs[k].rowIndex);
      }
      forall i ensures Reports(row, i) <==> i == n - 1 && Fails(source[i], j) {
        if row != [] {
          assert row[0].rowIndex == n - 1;
        }
      }
      forall i ensures Reports(fs + row, i) <==> Reports(fs, i) || Reports(row, i) {
        ReportsConcat(fs, row, i);
      }
    }
  }

  /** Numbers agree within the tolerance, other cells by their texts. */
  lemma AgreeExactly(s: Cell, t: Cell, tolerance: real)
    ensures Agree(s, t, tolerance) <==>
      match (s.Number(), t.Number())
      case (Some(x), Some(y)) => -tolerance <= x - y <= tolerance
      case _ => s.Text() == t.Text()
  {
  }

  /** What a finding says about its source row, and the target row it was compared with. */
  ghost predicate Explains(f: Finding, src: Row, j: Join) {
    var key := Key(src, j.keyColumn);
    && key != "" && f.keyValue == key
    && match LastWithKey(j.target, j.keyColumn, key)
       case None => f.ruleId == "reconcile_missing_target" && StatesCell(f, Absent, Absent, Warning)
       case Some(tgt) => exists c :: c in j.cols && StatesDifference(f, c, Get(src, c), Get(tgt, c), j.tolerance)
  }

  ghost predicate StatesDifference(f: Finding, c: string, s: Cell, t: Cell, tolerance: real) {
    && f.ruleId == "reconcile_diff_" + c && !Agree(s, t, tolerance)
    && match (s.Number(), t.Number())
       case (Some(x), Some(y)) => StatesNumbers(f, x, y)
       case _ => StatesCell(f, Raw(s), Raw(t), Info)
  }

  lemma DifferenceStates(i: nat, key: string, c: string, s: Cell, t: Cell, tolerance: real)
    requires !Agree(s, t, tolerance)
    ensures var f := Difference(i, key, c, s, t);
      f.rowIndex == i && f.keyValue == key && StatesDifference(f, c, s, t, tolerance)
  {
  }

  lemma {:induction false} ColumnsExplained(i: nat, src: Row, tgt: Row, j: Join, n: nat)
    requires n <= |j.cols|
    ensures forall f :: f in ColumnFindings(i, src, tgt, j, n) ==>
      f.keyValue == Key(src, j.keyColumn)
      && exists c :: c in j.cols && StatesDifference(f, c, Get(src, c), Get(tgt, c), j.tolerance)
  {
    hide StatesDifference, Agree, Difference, Key;
    if n > 0 {
      ColumnsExplained(i, src, tgt, j, n - 1);
      var c := j.cols[n - 1];
      if !Agree(Get(src, c), Get(tgt, c), j.tolerance) {
        DifferenceStates(i, Key(src, j.keyColumn), c, Get(src, c), Get(tgt, c), j.tolerance);
      }
    }
  }

  lemma RowExplained(i: nat, src: Row, j: Join)
    ensures forall f :: f in RowFindings(i, src, j) ==> Explains(f, src, j)
  {
    hide StatesDifference, Agree, Key;
    var hit := LastWithKey(j.target, j.keyColumn, Key(src, j.keyColumn));
    if hit.Some? {
      ColumnsExplained(i, src, hit.value, j, |j.cols|);
    }
  }

  /** Every finding is about a source row, its key, and a missing row or a difference between the two rows. */
  lemma {:induction false} FindingsExplained(source: seq<Row>, j: Join, n: nat)
    requires n <= |source|
    ensures forall f :: f in NestedFindings(source, j, n) ==> f.rowIndex < n && Explains(f, source[f.rowIndex], j)
  {
    hide Explains, RowFindings;
    if n > 0 {
      FindingsExplained(source, j, n - 1);
      RowExplained(n - 1, source[n - 1], j);
      RowFindingsCover(n - 1, source[n - 1], j);
    }
  }

  /** The rows that count as checked are those with a key. */
  lemma {:induction false} KeyedRowsExactly(rows: seq<Row>, keyColumn: string, n: nat)
    requires n <= |rows|
    ensures KeyedRows(rows, keyColumn, n) == |set i | 0 <= i < n && Key(rows[i], keyColumn) != ""|
  {
    hide Key;
    if n > 0 {
      KeyedRowsExactly(rows, keyColumn, n - 1);
      var before := set i | 0 <= i < n - 1 && Key(rows[i], keyColumn) != "";
      var now := set i | 0 <= i < n && Key(rows[i], keyColumn) != "";
      assert now == if Key(rows[n - 1], keyColumn) != "" then before + {n - 1} else before;
    }
  }

  /** A header that both sheets have and that is not the key column. */
  function Shared(targetHeaders: seq<string>, keyColumn: string): string -> bool {
    c => c in targetHeaders && c != keyColumn
  }

  function Same(c: string): string {
    c
  }

  lemma {:induction false} CommonColumnsSnoc(headers: seq<string>, targetHeaders: seq<string>, keyColumn: string,
                                             c: string)
    ensures CommonColumns(headers + [c], targetHeaders, keyColumn) ==
      CommonColumns(headers, targetHeaders, keyColumn) + if Shared(targetHeaders, keyColumn)(c) then [c] else []
  {
    if headers != [] {
      Seqs.TailOfConcat(headers, [c]);
      CommonColumnsSnoc(headers[1..], targetHeaders, keyColumn, c);
      Seqs.Assoc(if headers[0] in targetHeaders && headers[0] != keyColumn then [headers[0]] else [],
                 CommonColumns(headers[1..], targetHeaders, keyColumn),
                 if Shared(targetHeaders, keyColumn)(c) then [c] else []);
    } else {
      assert ([c])[1..] == [];
      assert [] + [c] == [c];
    }
  }

  /** The common columns are the shared headers of the source, in the source's order. */
  lemma {:induction false} CommonColumnsExactly(headers: seq<string>, targetHeaders: seq<string>, keyColumn: string)
    ensures Selections.Selection(headers, Shared(targetHeaders, keyColumn), Same,
                                 CommonColumns(headers, targetHeaders, keyColumn))
  {
    hide Selections.Selection, CommonColumns;
    var keep := Shared(targetHeaders, keyColumn);
    if headers == [] {
      Selections.SelectNothing(keep, Same);
      NoColumns(targetHeaders, keyColumn);
    } else {
      var n := |headers| - 1;
      var cols := CommonColumns(headers[..n], targetHeaders, keyColumn);
      CommonColumnsExactly(headers[..n], targetHeaders, keyColumn);
      CommonColumnsSnoc(headers[..n], targetHeaders, keyColumn, headers[n]);
      Selections.SelectMore(headers[..n], keep, Same, cols, headers[n]);
      Seqs.SplitLast(headers);
      Seqs.EmptyUnit(cols);
    }
  }

  lemma NoColumns(targetHeaders: seq<string>, keyColumn: string)
    ensures CommonColumns([], targetHeaders, keyColumn) == []
  {
  }

  /** The columns that are compared: the given ones, or without any the shared headers of the source. */
  lemma ColumnsExactly(source: Sheet, target: Sheet, keyColumn: string, compareColumns: Option<seq<string>>)
    ensures var cols := Columns(source, target, keyColumn, compareColumns);
      if compareColumns.None? || |compareColumns.value| == 0
      then Selections.Selection(source.headers, Shared(target.headers, keyColumn), Same, cols)
      else cols == compareColumns.value
  {
    hide Selections.Selection, CommonColumns;
    CommonColumnsExactly(source.headers, target.headers, keyColumn);
  }

  // ----- a sheet against itself

  /** Row `k` is the last one with row `i`'s key, which is not empty: the row that `i` is compared with. */
  ghost predicate Partner(rows: seq<Row>, keyColumn: string, i: int, k: int) {
    && 0 <= i <= k < |rows|
    && Key(rows[i], keyColumn) != "" && Key(rows[k], keyColumn) == Key(rows[i], keyColumn)
    && forall j :: k < j < |rows| ==> Key(rows[j], keyColumn) != Key(rows[i], keyColumn)
  }

  /** Every compared column agrees. */
  ghost predicate Alike(a: Row, b: Row, cols: seq<string>, tolerance: real) {
    forall c :: c in cols ==> Agree(Get(a, c), Get(b, c), tolerance)
  }

  lemma PartnerIsLast(rows: seq<Row>, keyColumn: string, i: nat) returns (k: nat)
    requires i < |rows| && Key(rows[i], keyColumn) != ""
    ensures Partner(rows, keyColumn, i, k)
    ensures LastWithKey(rows, keyColumn, Key(rows[i], keyColumn)) == Some(rows[k])
  {
    hide LastWithKey, Key;
    LastWithKeyFinds(rows, keyColumn, Key(rows[i], keyColumn));
    k :| 0 <= k < |rows| && rows[k] == LastWithKey(rows, keyColumn, Key(rows[i], keyColumn)).value
      && Key(rows[k], keyColumn) == Key(rows[i], keyColumn)
      && forall j :: k < j < |rows| ==> Key(rows[j], keyColumn) != Key(rows[i], keyColumn);
  }

  /** Against its own sheet a row fails exactly when it differs from its partner. */
  lemma OwnRowFails(rows: seq<Row>, keyColumn: string, cols: seq<string>, tolerance: real, i: nat, k: nat)
    requires Partner(rows, keyColumn, i, k)
    ensures Fails(rows[i], Join(rows, keyColumn, cols, tolerance)) <==> !Alike(rows[i], rows[k], cols, tolerance)
  {
    hide LastWithKey, Agree, Key;
    var last := PartnerIsLast(rows, keyColumn, i);
  }

  /** Row `i` of a sheet is reported against the sheet itself exactly when it differs from its partner. */
  lemma ReportedAgainstItself(rows: seq<Row>, keyColumn: string, cols: seq<string>, tolerance: real, i: nat, k: nat)
    requires Partner(rows, keyColumn, i, k)
    ensures Reports(NestedFindings(rows, Join(rows, keyColumn, cols, tolerance), |rows|), i)
      <==> !Alike(rows[i], rows[k], cols, tolerance)
  {
    hide Fails, NestedFindings, Reports, Partner, Alike;
    FindingsExactly(rows, Join(rows, keyColumn, cols, tolerance), |rows|);
    OwnRowFails(rows, keyColumn, cols, tolerance, i, k);
    assert i < |rows| by {
      PartnersAreRows(rows, keyColumn, i, k);
    }
  }

  lemma PartnersAreRows(rows: seq<Row>, keyColumn: string, i: int, k: int)
    requires Partner(rows, keyColumn, i, k)
    ensures 0 <= i <= k < |rows|
  {
  }

  /**
    A sheet reconciles with itself without findings if and only if every keyed row agrees, in every
    compared column, with the last row that has its key.
  */
  lemma SelfReconciliation(rows: seq<Row>, keyColumn: string, cols: seq<string>, tolerance: real)
    ensures NestedFindings(rows, Join(rows, keyColumn, cols, tolerance), |rows|) == []
      <==> forall i, k :: Partner(rows, keyColumn, i, k) ==> Alike(rows[i], rows[k], cols, tolerance)
  {
    hide Fails, NestedFindings, Reports, Partner, Alike, Key;
    var j := Join(rows, keyColumn, cols, tolerance);
    var fs := NestedFindings(rows, j, |rows|);
    FindingsExactly(rows, j, |rows|);
    NoReports(fs);
    forall i, k | Partner(rows, keyColumn, i, k) ensures 0 <= i <= k < |rows| {
      PartnersAreRows(rows, keyColumn, i, k);
    }
    forall i, k | Partner(rows, keyColumn, i, k)
      ensures Reports(fs, i) <==> !Alike(rows[i], rows[k], cols, tolerance)
    {
      ReportedAgainstItself(rows, keyColumn, cols, tolerance, i, k);
    }
    forall i | Reports(fs, i) ensures exists k :: Partner(rows, keyColumn, i, k) {
      FailingHasKey(rows[i], j);
      var k := PartnerIsLast(rows, keyColumn, i);
    }
  }

  lemma FailingHasKey(src: Row, j: Join)
    requires Fails(src, j)
    ensures Key(src, j.keyColumn) != ""
  {
  }

  ghost predicate UniqueKeys(rows: seq<Row>, keyColumn: string) {
    forall i, k :: 0 <= i < k < |rows| && Key(rows[i], keyColumn) == Key(rows[k], keyColumn) ==>
      Key(rows[i], keyColumn) == ""
  }

  /** Some compared cell of a keyed row is a number. */
  ghost predicate ComparesNumbers(rows: seq<Row>, keyColumn: string, cols: seq<string>) {
    exists i, c :: 0 <= i < |rows| && c in cols && Key(rows[i], keyColumn) != "" && Get(rows[i], c).Number().Some?
  }

  /** A cell agrees with itself unless it is a number and the tolerance negative. */
  lemma AgreesWithItself(s: Cell, tolerance: real)
    ensures Agree(s, s, tolerance) <==> tolerance >= 0.0 || s.Number().None?
  {
  }

  /**
    With unique keys every row is its own partner: there are no findings if and only if the tolerance
    is not negative or no number is compared.
  */
  lemma UniqueKeysReconcile(rows: seq<Row>, keyColumn: string, cols: seq<string>, tolerance: real)
    requires UniqueKeys(rows, keyColumn)
    ensures NestedFindings(rows, Join(rows, keyColumn, cols, tolerance), |rows|) == []
      <==> tolerance >= 0.0 || !ComparesNumbers(rows, keyColumn, cols)
  {
    hide NestedFindings, Agree, Key;
    SelfReconciliation(rows, keyColumn, cols, tolerance);
    forall i, k | Partner(rows, keyColumn, i, k) ensures i == k {
    }
    forall i | 0 <= i < |rows| && Key(rows[i], keyColumn) != "" ensures Partner(rows, keyColumn, i, i) {
      var k := PartnerIsLast(rows, keyColumn, i);
    }
    forall s: Cell ensures Agree(s, s, tolerance) <==> tolerance >= 0.0 || s.Number().None? {
      AgreesWithItself(s, tolerance);
    }
    if i, c :| 0 <= i < |rows| && c in cols && Key(rows[i], keyColumn) != "" && Get(rows[i], c).Number().Some? {
      assert Partner(rows, keyColumn, i, i);
      assert Agree(Get(rows[i], c), Get(rows[i], c), tolerance) <==> tolerance >= 0.0;
    }
  }

  /** A repeated key makes an earlier row, different from the last one with its key, reported against its own sheet. */
  lemma RepeatedKeyIsReported(rows: seq<Row>, keyColumn: string, cols: seq<string>, tolerance: real,
                              i: nat, k: nat, c: string)
    requires Partner(rows, keyColumn, i, k) && i < k && c in cols
    requires !Agree(Get(rows[i], c), Get(rows[k], c), tolerance)
    ensures Reports(NestedFindings(rows, Join(rows, keyColumn, cols, tolerance), |rows|), i)
  {
    hide Agree, NestedFindings, Reports, Partner;
    PartnersAreRows(rows, keyColumn, i, k);
    ReportedAgainstItself(rows, keyColumn, cols, tolerance, i, k);
  }
}
