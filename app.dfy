/** The application controller that every page shares: it owns the roster
    `name_data` and the dict `attendance_data` and changes them in place,
    and it holds the attendance page's month and date fields, which a load
    overwrites. Each method is proved to have the effect that module Store
    or Codec gives as a function of values. */
module App {
  import opened Wrappers
  import opened Grid
  import opened OrderedDict
  import opened Store
  import opened Summary
  import opened Codec

  /** How `load_attendance` ended. */
  datatype LoadOutcome =
      /** no file chosen, or the file could not be opened: nothing changes */
    | Cancelled
    | Loaded
      /** the sheet is narrower than three columns: IndexError at its first
          row with a truthy column A, with nothing loaded */
    | FailedAt(row: int)

  /** Why `export_to_excel` wrote nothing. */
  datatype ExportError =
      /** the summary is empty: a warning, nothing is written */
    | NothingToExport
      /** the summary itself raised KeyError */
    | SummaryFailed

  class AttendanceApp {
    var nameData: seq<Entry>
    var attendanceData: Dict<Cell, Record>
    /** `month_var` of the attendance page */
    var month: Cell
    /** `date_var` of the attendance page */
    var date: Cell

    /** The store as a value. */
    function Current(): State
      reads this
    {
      State(nameData, attendanceData)
    }

    /** A fresh controller: empty roster and dict; the month and date fields
        start from the clock, passed in here. */
    constructor(currentMonth: string, today: string)
      ensures nameData == [] && attendanceData == EmptyDict()
      ensures month == Text(currentMonth) && date == Text(today)
    {
      nameData := [];
      attendanceData := EmptyDict();
      month := Text(currentMonth);
      date := Text(today);
    }

    /** `add_attendee`, with the three dialog answers as parameters. */
    method AddAttendee(name: Option<string>, email: Option<string>, sap: Option<string>)
      modifies this
      ensures Current() == Add(old(Current()), name, email, sap)
      ensures month == old(month) && date == old(date)
      ensures old(LockStep(Current())) ==> LockStep(Current())
    {
      if LockStep(Current()) {
        AddLockStep(Current(), name, email, sap);
      }
      if name.None? || name.value == "" {
        return;
      }
      var key := Text(name.value);
      nameData := nameData + [Entry(key, Answer(email), Answer(sap))];
      attendanceData := Put(attendanceData, key, Blank());
    }

    /** `remove_attendee` as written: pop the roster, then `popitem` the
        dict. */
    method RemoveAttendee() returns (outcome: Removal)
      modifies this
      ensures (Current(), outcome) == RemoveLast(old(Current()))
      ensures month == old(month) && date == old(date)
    {
      if nameData == [] {
        return NothingToRemove;
      }
      nameData := nameData[..|nameData| - 1];
      if attendanceData.order == [] {
        return PopFromEmptyDict;
      }
      attendanceData := PopItem(attendanceData);
      return Removed;
    }

    /** `clear_attendees`, with the confirmation answer as a parameter. */
    method ClearAttendees(confirmed: bool)
      modifies this
      ensures Current() == Clear(old(Current()), confirmed)
      ensures month == old(month) && date == old(date)
      ensures old(LockStep(Current())) ==> LockStep(Current())
    {
      if LockStep(Current()) {
        ClearInvariants(Current(), confirmed);
      }
      if nameData == [] || !confirmed {
        return;
      }
      nameData := [];
      attendanceData := EmptyDict();
    }

    /** `get_attendance_summary`: the loop over the roster, with the inner
        sum of ticked slots; None where a lookup raises KeyError. */
    method GetAttendanceSummary() returns (summary: Option<seq<SummaryRow>>)
      ensures summary == Compute(nameData, attendanceData)
    {
      var roster, data := nameData, attendanceData;
      if roster == [] {
        return Some([]);
      }
      if roster[0].name !in data.entries {
        return None;
      }
      var total := |data.entries[roster[0].name]|;
      var rows := [];
      var recs := [];
      var i := 0;
      while i < |roster|
        invariant 0 <= i <= |roster| && |rows| == i && |recs| == i
        invariant forall j :: 0 <= j < i ==> Get(data, roster[j].name) == Some(recs[j])
        invariant forall j :: 0 <= j < i ==> rows[j] == Row(roster[j], recs[j], total)
      {
        var name := roster[i].name;
        if name !in data.entries {
          assert RecordsOf(roster, data).None?;
          return None;
        }
        var rec := data.entries[name];
        var present := CountPresent(rec);
        rows := rows + [SummaryRow(name, present, total, Percentage(present, total))];
        recs := recs + [rec];
        i := i + 1;
      }
      RecordsOfAll(roster, data, recs);
      assert rows == seq(|roster|, j requires 0 <= j < |roster| => Row(roster[j], recs[j], total));
      return Some(rows);
    }

    /** `save_attendance` up to the file dialog: the sheet it would write,
        headed by the page's month and date. */
    method SaveAttendance() returns (res: Result<Worksheet, SaveError>)
      ensures res == Err(NoData) <==> nameData == []
      ensures res.Ok? <==> nameData != [] && RecordsOf(nameData, attendanceData).Some?
      ensures res.Ok? ==> IsAttendanceSheet(res.value, month, date, nameData, RecordsOf(nameData, attendanceData).value)
    {
      res := EncodeAttendance(month, date, nameData, attendanceData);
    }

    /** `export_to_excel` up to the file dialog: the report of the current
        summary, with the clock's reading passed in as `stamp`. */
    method ExportToExcel(stamp: string) returns (res: Result<Worksheet, ExportError>)
      ensures res == Err(SummaryFailed) <==> Compute(nameData, attendanceData).None?
      ensures res == Err(NothingToExport) <==> nameData == []
      ensures res.Ok? ==> IsReportSheet(res.value, Compute(nameData, attendanceData).value, stamp)
    {
      SummaryShape(nameData, attendanceData);
      var summary := GetAttendanceSummary();
      if summary.None? {
        return Err(SummaryFailed);
      }
      var report := ExportReport(summary.value, stamp);
      if report.None? {
        return Err(NothingToExport);
      }
      return Ok(report.value);
    }

    /** `load_attendance`, with the chosen and opened sheet as a parameter:
        the store is emptied, the month and date fields take B1 and B2, and
        the rows from 4 on are read one by one. */
    method LoadAttendance(chosen: Option<Worksheet>) returns (outcome: LoadOutcome)
      modifies this
      ensures chosen.None? ==>
        outcome == Cancelled && Current() == old(Current()) && month == old(month) && date == old(date)
      ensures chosen.Some? ==>
        var d := Decode(chosen.value);
        && nameData == d.roster && attendanceData == d.data
        && month == Read(chosen.value, 1, 2) && date == Read(chosen.value, 2, 2)
        && (outcome == Loaded <==> d.failedAt == None)
        && (d.failedAt.Some? ==> outcome == FailedAt(d.failedAt.value))
    {
      if chosen.None? {
        return Cancelled;
      }
      var w := chosen.value;
      nameData := [];
      attendanceData := EmptyDict();
      month := Read(w, 1, 2);
      date := Read(w, 2, 2);
      var r := 4;
      while r <= w.maxRow
        invariant 4 <= r
        invariant month == Read(w, 1, 2) && date == Read(w, 2, 2)
        invariant DecodeRows(w, r, nameData, attendanceData) == Decode(w)
        decreases w.maxRow + 1 - r
      {
        var name := Read(w, r, 1);
        if Truthy(name) {
          if w.maxCol < 3 {
            return FailedAt(r);
          }
          nameData := nameData + [RowEntry(w, r)];
          var rec := ReadRecord(w, r);
          attendanceData := Put(attendanceData, name, rec);
        }
        r := r + 1;
      }
      return Loaded;
    }
  }

  /** `sum(var.get() for var in record)`, one slot at a time. */
  method CountPresent(rec: Record) returns (n: nat)
    ensures n == PresentDays(rec)
  {
    n := 0;
    var k := 0;
    while k < |rec|
      invariant 0 <= k <= |rec|
      invariant n == PresentDays(rec[..k])
    {
      assert rec[..k + 1][..k] == rec[..k];
      n := n + if rec[k] then 1 else 0;
      k := k + 1;
    }
    assert rec[..k] == rec;
  }

  /** `[tk.IntVar(value=1 if status == "Present" else 0) for status in
      row[3:34]]`, one cell at a time. */
  method ReadRecord(w: Worksheet, r: int) returns (rec: Record)
    requires w.maxCol >= 3
    ensures rec == RowRecord(w, r)
  {
    var width := Min(3 + Days, w.maxCol);
    rec := [];
    var c := 3;
    while c < width
      invariant 3 <= c <= width && |rec| == c - 3
      invariant forall k :: 0 <= k < c - 3 ==> rec[k] == (Read(w, r, 4 + k) == PresentMark)
    {
      rec := rec + [Read(w, r, c + 1) == PresentMark];
      c := c + 1;
    }
  }
}
