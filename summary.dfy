/** `get_attendance_summary` and the overall figures of the report page:
    pure projections of the store. Percentages are exact reals; the
    program's floats and their one-decimal formatting are not modelled. */
module Summary {
  import opened Wrappers
  import opened Grid
  import opened OrderedDict
  import opened Store

  /** One summary dict: `{"name", "present", "total", "percentage"}`. */
  datatype SummaryRow = SummaryRow(name: Cell, present: nat, total: nat, percentage: real)

  /** `sum(var.get() for var in record)`: the ticked slots. */
  function PresentDays(rec: Record): (n: nat)
    ensures n <= |rec|
    ensures n == 0 <==> forall i :: 0 <= i < |rec| ==> !rec[i]
    ensures n == |rec| <==> forall i :: 0 <= i < |rec| ==> rec[i]
  {
    if rec == [] then 0
    else
      var init := rec[..|rec| - 1];
      assert forall i :: 0 <= i < |init| ==> init[i] == rec[i];
      PresentDays(init) + if rec[|rec| - 1] then 1 else 0
  }

  /** `(present / total) * 100 if total > 0 else 0`. */
  function Percentage(present: nat, total: nat): (p: real)
    ensures total == 0 ==> p == 0.0
    ensures total > 0 ==> p * (total as real) == (present as real) * 100.0
    ensures present <= total ==> 0.0 <= p <= 100.0
  {
    if total > 0 then (present as real) / (total as real) * 100.0 else 0.0
  }

  function Row(e: Entry, rec: Record, total: nat): SummaryRow
  {
    SummaryRow(e.name, PresentDays(rec), total, Percentage(PresentDays(rec), total))
  }

  /** The rows for `roster` in order, every one measured against `total`;
      None where some name has no record (the loop's KeyError). */
  function RowsOf(roster: seq<Entry>, data: Dict<Cell, Record>, total: nat): Option<seq<SummaryRow>>
  {
    match RecordsOf(roster, data)
    case None => None
    case Some(recs) => Some(seq(|roster|, i requires 0 <= i < |roster| => Row(roster[i], recs[i], total)))
  }

  /** `get_attendance_summary`: empty for an empty roster; otherwise every
      row is measured against the length of the first row's record. */
  function Compute(roster: seq<Entry>, data: Dict<Cell, Record>): Option<seq<SummaryRow>>
  {
    if roster == [] then Some([])
    else
      match Get(data, roster[0].name)
      case None => None
      case Some(first) => RowsOf(roster, data, |first|)
  }

  /** The shape of the summary: one row per roster entry in roster order,
      named after it, with its own present count and the first record's
      length as total; it fails exactly when some name has no record. */
  lemma SummaryShape(roster: seq<Entry>, data: Dict<Cell, Record>)
    ensures roster == [] ==> Compute(roster, data) == Some([])
    ensures Compute(roster, data).Some? <==> forall i :: 0 <= i < |roster| ==> roster[i].name in data.entries
    ensures Compute(roster, data).Some? && roster != [] ==>
      var rows := Compute(roster, data).value;
      && |rows| == |roster|
      && forall i :: 0 <= i < |roster| ==>
        && rows[i].name == roster[i].name
        && rows[i].total == |Get(data, roster[0].name).value|
        && rows[i].present == PresentDays(Get(data, roster[i].name).value)
        && rows[i].percentage == Percentage(rows[i].present, rows[i].total)
  {
    if roster != [] {
      match Get(data, roster[0].name)
      case None =>
      case Some(first) =>
    }
  }

  /** On a store in lock-step the summary always exists, every total is 31,
      and every percentage lies between 0 and 100. */
  lemma LockStepSummary(st: State)
    requires LockStep(st)
    ensures Compute(st.roster, st.data).Some?
    ensures forall row :: row in Compute(st.roster, st.data).value ==>
      row.total == Days && row.present <= Days && 0.0 <= row.percentage <= 100.0
  {
    SummaryShape(st.roster, st.data);
    var rows := Compute(st.roster, st.data).value;
    forall row | row in rows
      ensures row.total == Days && row.present <= Days && 0.0 <= row.percentage <= 100.0
    {
      var i :| 0 <= i < |rows| && rows[i] == row;
      assert st.roster[i].name in st.data.entries && st.roster[0].name in st.data.entries;
    }
  }

  /** Right after adding a name, the summary has a last row for it with no
      day present, whatever was on the roster before. */
  lemma AddThenSummary(st: State, name: string, email: Option<string>, sap: Option<string>)
    requires LockStep(st) && name != ""
    ensures
      var after := Add(st, Some(name), email, sap);
      var rows := Compute(after.roster, after.data);
      && rows.Some? && |rows.value| == |after.roster|
      && rows.value[|rows.value| - 1].name == Text(name)
      && rows.value[|rows.value| - 1].present == 0
      && rows.value[|rows.value| - 1].total == Days
      && rows.value[|rows.value| - 1].percentage == 0.0
  {
    var after := Add(st, Some(name), email, sap);
    AddLockStep(st, Some(name), email, sap);
    LockStepSummary(after);
    SummaryShape(after.roster, after.data);
    var rows := Compute(after.roster, after.data).value;
    assert rows[|rows| - 1] in rows;
  }

  /** After `remove_attendee` as written on a roster whose last name repeats
      an earlier one, the summary raises KeyError. */
  lemma RemoveLastThenSummary(st: State)
    requires LockStep(st) && st.roster != []
    requires st.roster[|st.roster| - 1].name in Names(st.roster[..|st.roster| - 1])
    ensures Compute(RemoveLast(st).0.roster, RemoveLast(st).0.data).None?
  {
    RemoveLastRepeatedName(st);
    SummaryShape(RemoveLast(st).0.roster, RemoveLast(st).0.data);
  }

  /** The overall figures of `update_report`. */
  datatype Overall = Overall(totalDays: nat, totalPresent: nat, totalPossible: nat, percentage: real)

  /** `sum(item['present'] for item in summary)`. */
  function SumPresent(rows: seq<SummaryRow>): nat
  {
    if rows == [] then 0 else SumPresent(rows[..|rows| - 1]) + rows[|rows| - 1].present
  }

  function Aggregate(rows: seq<SummaryRow>): Overall
  {
    var totalDays := if rows != [] then rows[0].total else 0;
    var totalPresent := SumPresent(rows);
    var totalPossible := if rows != [] then totalDays * |rows| else 1;
    Overall(totalDays, totalPresent, totalPossible, Percentage(totalPresent, totalPossible))
  }

  /** When no row counts more present days than `bound`, the present days
      add up to at most `bound` per row. */
  lemma {:induction false} SumPresentBound(rows: seq<SummaryRow>, bound: nat)
    requires forall i :: 0 <= i < |rows| ==> rows[i].present <= bound
    ensures SumPresent(rows) <= bound * |rows|
  {
    if rows != [] {
      var init := rows[..|rows| - 1];
      assert forall i :: 0 <= i < |init| ==> init[i] == rows[i];
      SumPresentBound(init, bound);
      assert bound * |rows| == bound * |init| + bound;
    }
  }

  /** The overall figures: the possible total is days times rows, the
      overall percentage is 0 when nothing is possible, and it lies between
      0 and 100 when no row's present count exceeds the common total. */
  lemma AggregateFacts(rows: seq<SummaryRow>)
    ensures rows != [] ==> Aggregate(rows).totalPossible == rows[0].total * |rows|
    ensures rows == [] ==> Aggregate(rows) == Overall(0, 0, 1, 0.0)
    ensures Aggregate(rows).totalPossible == 0 ==> Aggregate(rows).percentage == 0.0
    ensures rows != [] && (forall i :: 0 <= i < |rows| ==> rows[i].present <= rows[0].total) ==>
      && Aggregate(rows).totalPresent <= Aggregate(rows).totalPossible
      && 0.0 <= Aggregate(rows).percentage <= 100.0
  {
    if rows != [] && forall i :: 0 <= i < |rows| ==> rows[i].present <= rows[0].total {
      SumPresentBound(rows, rows[0].total);
    }
  }
}
