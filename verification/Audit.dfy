/** Findings of the Excel audit (`src/excel_audit/contracts.py`). */
module Audit {
  import opened Options
  import opened Cells

  datatype Severity = Info | Warning | Error

  /** The `expected` and `actual` fields hold a computed number, a raw cell, or nothing. */
  datatype Datum = Absent | Number(value: real) | Raw(cell: Cell)

  datatype Finding = Finding(rowIndex: nat, ruleId: string, severity: Severity, keyValue: string,
                             expected: Datum, actual: Datum, difference: Option<real>)

  datatype Result = Result(rulesEvaluated: nat, rowsChecked: nat, findings: seq<Finding>)

  /** Differences below 100 are warnings, larger ones errors. */
  function DiffSeverity(diff: real): Severity {
    if diff < 100.0 then Warning else Error
  }

  /** The finding states two numbers and how far they are apart: an error from a difference of 100 on. */
  ghost predicate StatesNumbers(f: Finding, expected: real, actual: real) {
    && f.expected == Number(expected) && f.actual == Number(actual)
    && f.difference.Some? && f.difference.value >= 0.0
    && (f.difference.value == expected - actual || f.difference.value == actual - expected)
    && f.severity == (if f.difference.value < 100.0 then Warning else Error)
  }

  /** The finding states a cell beside what was expected, and no difference. */
  ghost predicate StatesCell(f: Finding, expected: Datum, actual: Datum, severity: Severity) {
    f.expected == expected && f.actual == actual && f.difference.None? && f.severity == severity
  }

  /** The rows that findings point at never go backwards. */
  ghost predicate InRowOrder(findings: seq<Finding>) {
    forall a, b :: 0 <= a < b < |findings| ==> findings[a].rowIndex <= findings[b].rowIndex
  }

  /** Row `i` has a finding. */
  ghost predicate Reports(findings: seq<Finding>, i: int) {
    exists k :: 0 <= k < |findings| && findings[k].rowIndex == i
  }

  lemma ReportsConcat(a: seq<Finding>, b: seq<Finding>, i: int)
    ensures Reports(a + b, i) <==> Reports(a, i) || Reports(b, i)
  {
    if Reports(a, i) {
      var k :| 0 <= k < |a| && a[k].rowIndex == i;
      assert (a + b)[k].rowIndex == i;
    }
    if Reports(b, i) {
      var k :| 0 <= k < |b| && b[k].rowIndex == i;
      assert (a + b)[|a| + k].rowIndex == i;
    }
  }

  lemma NoReports(findings: seq<Finding>)
    ensures findings == [] <==> forall i :: !Reports(findings, i)
  {
    if findings != [] {
      assert Reports(findings, findings[0].rowIndex);
    }
  }
}
