/** The cross-agent quota residual, computed with checked int64 arithmetic. */
module Quota {
  import opened Wrappers
  import opened Ints
  import opened Lists

  datatype QuotaRow = QuotaRow(baselineBytes: int64, headroomBytes: int64, latestReportedBytes: int64)

  datatype FleetQuotaInput = FleetQuotaInput(
    limitBytes: int64,
    rows: seq<QuotaRow>,
    numeratorAsOfMS: int64,
    oldestReportAgeMS: int64
  )

  datatype ReportedLimitPosition = ReportedAtOrBelowLimit | ReportedAboveLimit

  datatype FleetQuotaAssessment = FleetQuotaAssessment(
    latestReportedBytes: int64,
    overburnHeadroomBytes: int64,
    numeratorAsOfMS: int64,
    oldestReportAgeMS: int64,
    reportedLimitPosition: ReportedLimitPosition
  )

  // ---- checked arithmetic ----

  /** Only a positive addend is checked; the sum itself is Go's, which wraps. */
  function CheckedAdd(a: int64, b: int64): Option<int64> {
    if b > 0 && a > MAX_INT64 - b then None else Some(Wrap64(a + b))
  }

  function CheckedSub(a: int64, b: int64): Option<int64> {
    if b > 0 && a < MIN_INT64 + b then None else Some(Wrap64(a - b))
  }

  /** CheckedAdd refuses exactly the overflows above; its answer is the exact sum unless that lies
      below int64, which takes two negative operands. */
  lemma CheckedAddIsExact(a: int64, b: int64)
    ensures CheckedAdd(a, b).None? <==> a + b > MAX_INT64
    ensures CheckedAdd(a, b) == Some(a + b) <==> MIN_INT64 <= a + b <= MAX_INT64
    ensures CheckedAdd(a, b).Some? && CheckedAdd(a, b).value != a + b ==> a < 0 && b < 0
  {
    Wrap64Exact(a + b);
  }

  lemma CheckedSubIsExact(a: int64, b: int64)
    ensures CheckedSub(a, b).None? <==> a - b < MIN_INT64
    ensures CheckedSub(a, b) == Some(a - b) <==> MIN_INT64 <= a - b <= MAX_INT64
  {
    Wrap64Exact(a - b);
  }

  // ---- the residual over unbounded integers ----

  predicate NonNegative(row: QuotaRow) {
    row.baselineBytes >= 0 && row.headroomBytes >= 0 && row.latestReportedBytes >= 0
  }

  predicate NonNegativeRows(rows: seq<QuotaRow>) {
    forall i :: 0 <= i < |rows| ==> NonNegative(rows[i])
  }

  /** Totals are over naturals; on the rows that can be assessed nothing is clamped. */
  function Clamped(x: int): nat {
    if x < 0 then 0 else x
  }

  function Ceiling(row: QuotaRow): nat {
    Clamped(row.baselineBytes + row.headroomBytes)
  }

  function Reported(row: QuotaRow): nat {
    Clamped(row.latestReportedBytes)
  }

  function Ceilings(rows: seq<QuotaRow>): nat {
    Total(Ceiling, rows)
  }

  function ReportedBytes(rows: seq<QuotaRow>): nat {
    Total(Reported, rows)
  }

  predicate Assessable(input: FleetQuotaInput) {
    && input.limitBytes >= 0 && input.numeratorAsOfMS >= 0 && input.oldestReportAgeMS >= 0
    && NonNegativeRows(input.rows)
    && Ceilings(input.rows) <= MAX_INT64
    && ReportedBytes(input.rows) <= MAX_INT64
  }

  /** The assessment in exact arithmetic. */
  function Assessment(input: FleetQuotaInput): FleetQuotaAssessment
    requires Assessable(input)
  {
    var ceilings, reported := Ceilings(input.rows), ReportedBytes(input.rows);
    FleetQuotaAssessment(reported, ceilings - reported, input.numeratorAsOfMS, input.oldestReportAgeMS,
                         if reported > input.limitBytes then ReportedAboveLimit else ReportedAtOrBelowLimit)
  }

  /** Why an assessment failed. */
  datatype QuotaError =
    | NegativeInput
    | NegativeRow
    | RowCeilingOverflow
    | FleetCeilingOverflow
    | FleetReportedOverflow
    | ResidualOverflow

  datatype Outcome = Assessed(assessment: FleetQuotaAssessment) | Failed(error: QuotaError)

  lemma RowsGrow(rows: seq<QuotaRow>, n: nat)
    requires n < |rows|
    ensures Ceilings(rows[..n + 1]) == Ceilings(rows[..n]) + Ceiling(rows[n])
    ensures ReportedBytes(rows[..n + 1]) == ReportedBytes(rows[..n]) + Reported(rows[n])
    ensures Ceilings(rows[..n + 1]) <= Ceilings(rows) && ReportedBytes(rows[..n + 1]) <= ReportedBytes(rows)
  {
    assert rows[..n + 1][..n] == rows[..n];
    PrefixTotal(Ceiling, rows, n + 1);
    PrefixTotal(Reported, rows, n + 1);
  }

  /** One pass in int64 gives the exact answer of unbounded arithmetic, on exactly the inputs whose
      two sums fit; and the last of its overflow checks never fires. */
  method AssessFleetQuota(input: FleetQuotaInput) returns (r: Outcome)
    ensures r.Assessed? <==> Assessable(input)
    ensures r.Assessed? ==> r.assessment == Assessment(input)
    ensures r != Failed(ResidualOverflow)
  {
    if input.limitBytes < 0 || input.numeratorAsOfMS < 0 || input.oldestReportAgeMS < 0 {
      return Failed(NegativeInput);
    }
    var ceilings: int64, reported: int64 := 0, 0;
    for i := 0 to |input.rows|
      invariant NonNegativeRows(input.rows[..i])
      invariant ceilings == Ceilings(input.rows[..i])
      invariant reported == ReportedBytes(input.rows[..i])
    {
      var row := input.rows[i];
      RowsGrow(input.rows, i);
      if row.baselineBytes < 0 || row.headroomBytes < 0 || row.latestReportedBytes < 0 {
        assert !NonNegative(input.rows[i]);
        return Failed(NegativeRow);
      }
      assert input.rows[..i + 1] == input.rows[..i] + [row];
      CheckedAddIsExact(row.baselineBytes, row.headroomBytes);
      var ceiling := CheckedAdd(row.baselineBytes, row.headroomBytes);
      if ceiling.None? {
        return Failed(RowCeilingOverflow);
      }
      CheckedAddIsExact(ceilings, ceiling.value);
      var sum := CheckedAdd(ceilings, ceiling.value);
      if sum.None? {
        return Failed(FleetCeilingOverflow);
      }
      ceilings := sum.value;
      CheckedAddIsExact(reported, row.latestReportedBytes);
      sum := CheckedAdd(reported, row.latestReportedBytes);
      if sum.None? {
        return Failed(FleetReportedOverflow);
      }
      reported := sum.value;
    }
    assert input.rows[..|input.rows|] == input.rows;
    CheckedSubIsExact(ceilings, reported);
    var residual := CheckedSub(ceilings, reported);
    if residual.None? {
      return Failed(ResidualOverflow);
    }
    var position := ReportedAtOrBelowLimit;
    if reported > input.limitBytes {
      position := ReportedAboveLimit;
    }
    r := Assessed(
      FleetQuotaAssessment(reported, residual.value, input.numeratorAsOfMS, input.oldestReportAgeMS, position));
  }

  /** The order of the rows is irrelevant, to the verdict and to every figure. */
  lemma RowOrderDoesNotMatter(input: FleetQuotaInput, rows: seq<QuotaRow>)
    requires multiset(rows) == multiset(input.rows)
    ensures Assessable(input) <==> Assessable(input.(rows := rows))
    ensures Assessable(input) ==> Assessment(input) == Assessment(input.(rows := rows))
  {
    SameMembers(rows, input.rows);
    assert NonNegativeRows(rows) <==> forall r :: r in rows ==> NonNegative(r);
    assert NonNegativeRows(input.rows) <==> forall r :: r in input.rows ==> NonNegative(r);
    TotalPermuted(Ceiling, rows, input.rows);
    TotalPermuted(Reported, rows, input.rows);
  }

  /** The limit decides only which side of it the reported bytes are on; all else is handed through or summed. */
  lemma LimitIsAThreshold(input: FleetQuotaInput, limit: int64)
    requires Assessable(input) && limit >= 0
    ensures Assessable(input.(limitBytes := limit))
    ensures var a, b := Assessment(input), Assessment(input.(limitBytes := limit));
            && b == a.(reportedLimitPosition := b.reportedLimitPosition)
            && (b.reportedLimitPosition == ReportedAtOrBelowLimit <==> a.latestReportedBytes <= limit)
            && (b.reportedLimitPosition == ReportedAboveLimit <==> limit < a.latestReportedBytes)
            && a.numeratorAsOfMS == input.numeratorAsOfMS && a.oldestReportAgeMS == input.oldestReportAgeMS
  {}

  /** What a row has left of what it was authorised to use; negative when it has used more. */
  function Left(row: QuotaRow): int {
    row.baselineBytes + row.headroomBytes - row.latestReportedBytes
  }

  function LeftOf(rows: seq<QuotaRow>): int {
    if rows == [] then 0 else Left(rows[0]) + LeftOf(rows[1..])
  }

  function UsedBy(rows: seq<QuotaRow>): int {
    if rows == [] then 0 else rows[0].latestReportedBytes + UsedBy(rows[1..])
  }

  lemma {:induction false} TotalConcat(size: QuotaRow -> nat, a: seq<QuotaRow>, b: seq<QuotaRow>)
    ensures Total(size, a + b) == Total(size, a) + Total(size, b)
  {
    if b == [] {
      assert a + b == a;
    } else {
      assert (a + b)[..|a + b| - 1] == a + b[..|b| - 1];
      TotalConcat(size, a, b[..|b| - 1]);
    }
  }

  /** The signed residual is what all rows have left together, and is never clamped. */
  lemma {:induction false} ResidualIsWhatIsLeft(rows: seq<QuotaRow>)
    requires NonNegativeRows(rows)
    ensures Ceilings(rows) - ReportedBytes(rows) == LeftOf(rows)
    ensures ReportedBytes(rows) == UsedBy(rows)
  {
    if rows != [] {
      var head, tail := [rows[0]], rows[1..];
      assert rows == head + tail;
      assert NonNegative(rows[0]);
      ResidualIsWhatIsLeft(tail);
      TotalConcat(Ceiling, head, tail);
      TotalConcat(Reported, head, tail);
      assert head[..0] == [];
      assert Ceilings(head) == Ceiling(rows[0]) && ReportedBytes(head) == Reported(rows[0]);
    }
  }

  lemma AssessmentIsWhatIsLeft(input: FleetQuotaInput)
    requires Assessable(input)
    ensures Assessment(input).overburnHeadroomBytes == LeftOf(input.rows)
    ensures Assessment(input).latestReportedBytes == UsedBy(input.rows)
  {
    ResidualIsWhatIsLeft(input.rows);
  }

  lemma NonNegativeConcat(a: seq<QuotaRow>, b: seq<QuotaRow>)
    ensures NonNegativeRows(a + b) <==> NonNegativeRows(a) && NonNegativeRows(b)
  {
    if NonNegativeRows(a + b) {
      assert forall i :: 0 <= i < |a| ==> a[i] == (a + b)[i];
      assert forall i :: 0 <= i < |b| ==> b[i] == (a + b)[|a| + i];
    }
  }

  /** A fleet can be assessed as a whole exactly when its two parts can and their two pairs of sums fit;
      and then the residuals and the totals of the parts add. */
  lemma ResidualsAdd(input: FleetQuotaInput, a: seq<QuotaRow>, b: seq<QuotaRow>)
    requires input.rows == a + b
    ensures Assessable(input) <==>
            && Assessable(input.(rows := a)) && Assessable(input.(rows := b))
            && Ceilings(a) + Ceilings(b) <= MAX_INT64
            && ReportedBytes(a) + ReportedBytes(b) <= MAX_INT64
    ensures Assessable(input) ==>
              var whole := Assessment(input);
              var first, second := Assessment(input.(rows := a)), Assessment(input.(rows := b));
              && whole.overburnHeadroomBytes == first.overburnHeadroomBytes + second.overburnHeadroomBytes
              && whole.latestReportedBytes == first.latestReportedBytes + second.latestReportedBytes
  {
    TotalConcat(Ceiling, a, b);
    TotalConcat(Reported, a, b);
    NonNegativeConcat(a, b);
  }
}
