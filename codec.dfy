/** The two worksheet layouts: the attendance sheet that `save_attendance`
    writes and `load_attendance` reads back, and the one-way report that
    `export_to_excel` writes. Choosing the file and writing it to disk are
    outside the model: a save produces the worksheet, a load receives one. */
module Codec {
  import opened Wrappers
  import opened Grid
  import opened OrderedDict
  import opened Store
  import opened Summary

  const PresentMark := Text("Present")
  const AbsentMark := Text("Absent")

  /** `"Present" if var.get() else "Absent"`. */
  function Status(b: bool): Cell
  {
    if b then PresentMark else AbsentMark
  }

  // ---------------------------------------------------------------------
  // Attendance sheet layout
  // ---------------------------------------------------------------------

  /** Rows 1 to 3: the month, the update date and the column headings with
      the day numbers 1..31 in columns 4..34. */
  function HeaderCell(month: Cell, date: Cell, r: int, c: int): Option<Cell>
  {
    if r == 1 then
      (if c == 1 then Some(Text("Month")) else if c == 2 then Some(month) else None)
    else if r == 2 then
      (if c == 1 then Some(Text("Date of update")) else if c == 2 then Some(date) else None)
    else if r == 3 then
      (if c == 1 then Some(Text("Name"))
       else if c == 2 then Some(Text("Email"))
       else if c == 3 then Some(Text("SAP ID"))
       else if 4 <= c <= 3 + Days then Some(Int(c - 3))
       else None)
    else None
  }

  /** One roster row: name, email and SAP ID, then one mark per slot. */
  function EntryCell(e: Entry, rec: Record, c: int): Option<Cell>
  {
    if c == 1 then Some(e.name)
    else if c == 2 then Some(e.email)
    else if c == 3 then Some(e.sap)
    else if 4 <= c < 4 + |rec| then Some(Status(rec[c - 4]))
    else None
  }

  /** The cell `save_attendance` leaves at (r, c) once the first `|recs|`
      rows of `roster`, whose records are `recs`, are written; None where
      nothing is written. */
  function AttendanceCell(month: Cell, date: Cell, roster: seq<Entry>, recs: seq<Record>, r: int, c: int): Option<Cell>
    requires |recs| <= |roster|
  {
    if r <= 3 then HeaderCell(month, date, r, c)
    else if r < 4 + |recs| then EntryCell(roster[r - 4], recs[r - 4], c)
    else None
  }

  /** The sheet's `max_column` once every record is written. */
  function Width(recs: seq<Record>): nat
  {
    if recs == [] then 3 + Days
    else Max(Width(recs[..|recs| - 1]), 3 + |recs[|recs| - 1]|)
  }

  /** `w` holds the header rows and the first `|recs|` rows of `roster`. */
  ghost predicate WrittenSoFar(w: Worksheet, month: Cell, date: Cell, roster: seq<Entry>, recs: seq<Record>)
    requires |recs| <= |roster|
  {
    && w.title == "Sheet"
    && w.maxRow == 3 + |recs|
    && w.maxCol == Width(recs)
    && forall r, c :: CellAt(w, r, c) == AttendanceCell(month, date, roster, recs, r, c)
  }

  /** `w` is what `save_attendance` builds for these rows and records. */
  ghost predicate IsAttendanceSheet(w: Worksheet, month: Cell, date: Cell, roster: seq<Entry>, recs: seq<Record>)
  {
    |recs| == |roster| && WrittenSoFar(w, month, date, roster, recs)
  }

  /** Why `save_attendance` produced no sheet. */
  datatype SaveError =
    | NoData                  // empty roster: a warning, nothing is written
    | MissingRecord(name: Cell) // `attendance_data[name]` raised KeyError

  /** The three header rows of `save_attendance` on a fresh sheet. */
  method WriteHeaders(month: Cell, date: Cell) returns (w: Worksheet)
    ensures w.title == "Sheet" && w.maxRow == 3 && w.maxCol == 3 + Days
    ensures forall r, c :: CellAt(w, r, c) == (if r <= 3 then HeaderCell(month, date, r, c) else None)
  {
    w := NewWorksheet();
    w := Write(w, 1, 1, Text("Month"));
    w := Write(w, 1, 2, month);
    w := Write(w, 2, 1, Text("Date of update"));
    w := Write(w, 2, 2, date);
    w := Write(w, 3, 1, Text("Name"));
    w := Write(w, 3, 2, Text("Email"));
    w := Write(w, 3, 3, Text("SAP ID"));
    var day := 1;
    while day <= Days
      invariant 1 <= day <= Days + 1
      invariant w.title == "Sheet" && w.maxRow == 3 && w.maxCol == 2 + day
      invariant forall r, c :: CellAt(w, r, c) ==
                  (if r < 3 || (r == 3 && c < 3 + day) then HeaderCell(month, date, r, c) else None)
    {
      w := Write(w, 3, 3 + day, Int(day));
      day := day + 1;
    }
  }

  /** One roster row of `save_attendance`, written into a blank row `r`:
      name, email, SAP ID, then one mark per slot of the record. */
  method WriteEntryRow(w: Worksheet, r: int, e: Entry, rec: Record) returns (w': Worksheet)
    requires r >= 1 && w.maxCol >= 3
    requires forall c :: CellAt(w, r, c) == None
    ensures w'.title == w.title && w'.maxRow == Max(w.maxRow, r) && w'.maxCol == Max(w.maxCol, 3 + |rec|)
    ensures forall r', c :: CellAt(w', r', c) == (if r' == r then EntryCell(e, rec, c) else CellAt(w, r', c))
  {
    w' := Write(w, r, 1, e.name);
    w' := Write(w', r, 2, e.email);
    w' := Write(w', r, 3, e.sap);
    var d := 0;
    while d < |rec|
      invariant 0 <= d <= |rec|
      invariant w'.title == w.title && w'.maxRow == Max(w.maxRow, r) && w'.maxCol == Max(w.maxCol, 3 + d)
      invariant forall r', c :: CellAt(w', r', c) ==
                  (if r' == r && c < 4 + d then EntryCell(e, rec, c) else CellAt(w, r', c))
    {
      w' := Write(w', r, 4 + d, Status(rec[d]));
      d := d + 1;
    }
  }

  /** The cell writing of `save_attendance`: empty roster refused, then the
      header rows, then one row per roster entry looked up in the dict. */
  method EncodeAttendance(month: Cell, date: Cell, roster: seq<Entry>, data: Dict<Cell, Record>)
    returns (res: Result<Worksheet, SaveError>)
    ensures res == Err(NoData) <==> roster == []
    ensures res.Ok? <==> roster != [] && RecordsOf(roster, data).Some?
    ensures res.Ok? ==> IsAttendanceSheet(res.value, month, date, roster, RecordsOf(roster, data).value)
  {
    if roster == [] {
      return Err(NoData);
    }
    var w := WriteHeaders(month, date);
    var recs: seq<Record> := [];
    var i := 0;
    while i < |roster|
      invariant 0 <= i <= |roster| && |recs| == i
      invariant forall j :: 0 <= j < i ==> Get(data, roster[j].name) == Some(recs[j])
      invariant WrittenSoFar(w, month, date, roster, recs)
    {
      var e := roster[i];
      var found := Get(data, e.name);
      if found.None? {
        return Err(MissingRecord(e.name));
      }
      var rec := found.value;
      w := AppendRow(w, month, date, roster, recs, rec);
      recs := recs + [rec];
      i := i + 1;
    }
    RecordsOfAll(roster, data, recs);
    return Ok(w);
  }

  /** One pass of the row loop of `save_attendance`: the next roster row goes
      below the rows already written. */
  method AppendRow(w: Worksheet, month: Cell, date: Cell, roster: seq<Entry>, recs: seq<Record>, rec: Record)
    returns (w': Worksheet)
    requires |recs| < |roster|
    requires WrittenSoFar(w, month, date, roster, recs)
    ensures WrittenSoFar(w', month, date, roster, recs + [rec])
  {
    w' := WriteEntryRow(w, 4 + |recs|, roster[|recs|], rec);
    RowAppended(month, date, roster, recs, rec);
  }

  /** Writing row `4 + |recs|` extends the layout by one roster row. */
  lemma RowAppended(month: Cell, date: Cell, roster: seq<Entry>, recs: seq<Record>, rec: Record)
    requires |recs| < |roster|
    ensures Width(recs + [rec]) == Max(Width(recs), 3 + |rec|)
    ensures forall r, c :: AttendanceCell(month, date, roster, recs + [rec], r, c) ==
                           (if r == 4 + |recs| then EntryCell(roster[|recs|], rec, c)
                            else AttendanceCell(month, date, roster, recs, r, c))
  {
    assert (recs + [rec])[..|recs|] == recs;
  }

  // ---------------------------------------------------------------------
  // Loading
  // ---------------------------------------------------------------------

  /** `row[3:34]` mapped to slots: columns 4 up to 34, cut short by the
      sheet's width; only the exact text "Present" counts as present. */
  function RowRecord(w: Worksheet, r: int): (rec: Record)
    requires w.maxCol >= 3
    ensures w.maxCol >= 3 + Days ==> |rec| == Days
    ensures w.maxCol < 3 + Days ==> |rec| < Days
    ensures forall k :: 0 <= k < |rec| ==> (rec[k] <==> Read(w, r, 4 + k) == Text("Present"))
  {
    seq(Min(3 + Days, w.maxCol) - 3, k => Read(w, r, 4 + k) == PresentMark)
  }

  /** `name, email, sap = row[0], row[1], row[2]`. */
  function RowEntry(w: Worksheet, r: int): Entry
  {
    Entry(Read(w, r, 1), Read(w, r, 2), Read(w, r, 3))
  }

  /** What the row loop of `load_attendance` leaves behind, and the row
      whose short tuple raised IndexError, if any. */
  datatype Decoded = Decoded(roster: seq<Entry>, data: Dict<Cell, Record>, failedAt: Option<int>)

  /** The row loop from row `r` on, having built `roster` and `data` so far.
      A row whose column A is falsy is skipped; a kept row needs at least
      three columns. */
  function DecodeRows(w: Worksheet, r: int, roster: seq<Entry>, data: Dict<Cell, Record>): Decoded
    decreases w.maxRow + 1 - r
  {
    if r > w.maxRow then Decoded(roster, data, None)
    else
      var name := Read(w, r, 1);
      if !Truthy(name) then DecodeRows(w, r + 1, roster, data)
      else if w.maxCol < 3 then Decoded(roster, data, Some(r))
      else DecodeRows(w, r + 1, roster + [RowEntry(w, r)], Put(data, name, RowRecord(w, r)))
  }

  /** The rows of `load_attendance`, from row 4 onto an emptied store. */
  function Decode(w: Worksheet): Decoded
  {
    DecodeRows(w, 4, [], EmptyDict())
  }

  /** The roster rows a sheet holds from row `r` on: every row whose
      column A is truthy, in sheet order; the others are passed over. */
  function KeptEntries(w: Worksheet, r: int): seq<Entry>
    decreases w.maxRow + 1 - r
  {
    if r > w.maxRow then []
    else if Truthy(Read(w, r, 1)) then [RowEntry(w, r)] + KeptEntries(w, r + 1)
    else KeptEntries(w, r + 1)
  }

  /** The first row from `r` on with a truthy column A, if any. */
  function FirstKept(w: Worksheet, r: int): Option<int>
    decreases w.maxRow + 1 - r
  {
    if r > w.maxRow then None
    else if Truthy(Read(w, r, 1)) then Some(r)
    else FirstKept(w, r + 1)
  }

  /** The row loop appends exactly the kept rows to the roster; a sheet
      narrower than three columns fails at the first kept row and appends
      nothing, and one without kept rows loads nothing without failing. */
  lemma {:induction false} DecodeRowsRoster(w: Worksheet, r: int, roster: seq<Entry>, data: Dict<Cell, Record>)
    ensures w.maxCol >= 3 ==>
      DecodeRows(w, r, roster, data).roster == roster + KeptEntries(w, r)
      && DecodeRows(w, r, roster, data).failedAt == None
    ensures w.maxCol < 3 ==>
      DecodeRows(w, r, roster, data).roster == roster
      && DecodeRows(w, r, roster, data).data == data
      && DecodeRows(w, r, roster, data).failedAt == FirstKept(w, r)
    decreases w.maxRow + 1 - r
  {
    if r <= w.maxRow {
      if !Truthy(Read(w, r, 1)) {
        DecodeRowsRoster(w, r + 1, roster, data);
      } else if w.maxCol >= 3 {
        var e := RowEntry(w, r);
        DecodeRowsRoster(w, r + 1, roster + [e], Put(data, e.name, RowRecord(w, r)));
        assert roster + [e] + KeptEntries(w, r + 1) == roster + ([e] + KeptEntries(w, r + 1));
      }
    }
  }

  /** The last row from `r` on whose column A is truthy and equal to `k`. */
  function LastRowWith(w: Worksheet, r: int, k: Cell): Option<int>
    decreases w.maxRow + 1 - r
  {
    if r > w.maxRow then None
    else match LastRowWith(w, r + 1, k)
      case Some(later) => Some(later)
      case None => if Truthy(Read(w, r, 1)) && Read(w, r, 1) == k then Some(r) else None
  }

  /** On any sheet of three columns or more, the row loop leaves every name
      holding the record of the last kept row with that name, and every
      other key as it was. */
  lemma {:induction false} DecodeRowsData(w: Worksheet, r: int, roster: seq<Entry>, data: Dict<Cell, Record>, k: Cell)
    requires w.maxCol >= 3
    ensures Get(DecodeRows(w, r, roster, data).data, k) ==
      match LastRowWith(w, r, k)
      case Some(last) => Some(RowRecord(w, last))
      case None => Get(data, k)
    decreases w.maxRow + 1 - r
  {
    if r <= w.maxRow {
      var name := Read(w, r, 1);
      if !Truthy(name) {
        DecodeRowsData(w, r + 1, roster, data, k);
      } else {
        DecodeRowsData(w, r + 1, roster + [RowEntry(w, r)], Put(data, name, RowRecord(w, r)), k);
      }
    }
  }

  /** What a load leaves in the dict, on any sheet of three columns or more:
      a name holds the record of the last row carrying it, and a name no row
      carries is absent. */
  lemma DecodeData(w: Worksheet, k: Cell)
    requires w.maxCol >= 3
    ensures LastRowWith(w, 4, k).Some? ==> Get(Decode(w).data, k) == Some(RowRecord(w, LastRowWith(w, 4, k).value))
    ensures LastRowWith(w, 4, k).None? ==> Get(Decode(w).data, k) == None
  {
    DecodeRowsData(w, 4, [], EmptyDict(), k);
  }

  /** A sheet at least as wide as the attendance layout always loads into
      a store in lock-step, repeated names included. */
  lemma {:induction false} DecodeRowsLockStep(w: Worksheet, r: int, roster: seq<Entry>, data: Dict<Cell, Record>)
    requires w.maxCol >= 3 + Days && LockStep(State(roster, data))
    ensures LockStep(State(DecodeRows(w, r, roster, data).roster, DecodeRows(w, r, roster, data).data))
    decreases w.maxRow + 1 - r
  {
    if r <= w.maxRow {
      if !Truthy(Read(w, r, 1)) {
        DecodeRowsLockStep(w, r + 1, roster, data);
      } else {
        var e := RowEntry(w, r);
        AppendLockStep(State(roster, data), e, RowRecord(w, r));
        DecodeRowsLockStep(w, r + 1, roster + [e], Put(data, e.name, RowRecord(w, r)));
      }
    }
  }

  /** Loading depends on the sheet alone: the store is emptied first, its
      roster becomes the kept rows of the sheet from row 4, and a sheet of
      the attendance width leaves it in lock-step. */
  lemma DecodeFacts(w: Worksheet)
    ensures w.maxCol >= 3 ==> Decode(w).roster == KeptEntries(w, 4) && Decode(w).failedAt == None
    ensures w.maxCol < 3 ==> Decode(w) == Decoded([], EmptyDict(), FirstKept(w, 4))
    ensures w.maxCol >= 3 + Days ==> LockStep(State(Decode(w).roster, Decode(w).data))
  {
    DecodeRowsRoster(w, 4, [], EmptyDict());
    if w.maxCol >= 3 + Days {
      DecodeRowsLockStep(w, 4, [], EmptyDict());
    }
  }

  /** The dict built by `attendance_data[name] = rec` for the first `n`
      rows in turn: a repeated name keeps its first place and its last
      record. */
  function Assigned(roster: seq<Entry>, recs: seq<Record>, n: nat): Dict<Cell, Record>
    requires n <= |roster| == |recs|
  {
    if n == 0 then EmptyDict()
    else Put(Assigned(roster, recs, n - 1), roster[n - 1].name, recs[n - 1])
  }

  /** The loading loop on a saved sheet reads row 4 + i back as roster entry i
      and its record, so it finishes with the whole roster and every record
      assigned in roster order. */
  lemma {:induction false} DecodeSaved(w: Worksheet, month: Cell, date: Cell, roster: seq<Entry>, recs: seq<Record>, i: nat)
    requires i <= |roster|
    requires IsAttendanceSheet(w, month, date, roster, recs) && w.maxCol == 3 + Days
    requires forall j :: 0 <= j < |roster| ==> Truthy(roster[j].name) && |recs[j]| == Days
    ensures DecodeRows(w, 4 + i, roster[..i], Assigned(roster, recs, i)) == Decoded(roster, Assigned(roster, recs, |roster|), None)
    decreases |roster| - i
  {
    if i == |roster| {
      assert roster[..i] == roster;
    } else {
      SavedRow(w, month, date, roster, recs, i);
      assert roster[..i] + [roster[i]] == roster[..i + 1];
      DecodeSaved(w, month, date, roster, recs, i + 1);
    }
  }

  /** Row 4 + i of a saved sheet holds roster entry i and its marks. */
  lemma SavedRow(w: Worksheet, month: Cell, date: Cell, roster: seq<Entry>, recs: seq<Record>, i: nat)
    requires i < |roster|
    requires IsAttendanceSheet(w, month, date, roster, recs) && w.maxCol == 3 + Days
    requires |recs[i]| == Days
    ensures Read(w, 4 + i, 1) == roster[i].name
    ensures Read(w, 4 + i, 2) == roster[i].email
    ensures Read(w, 4 + i, 3) == roster[i].sap
    ensures RowRecord(w, 4 + i) == recs[i]
  {
    var r := 4 + i;
    assert CellAt(w, r, 1) == Some(roster[i].name);
    assert CellAt(w, r, 2) == Some(roster[i].email);
    assert CellAt(w, r, 3) == Some(roster[i].sap);
    var rec := RowRecord(w, r);
    forall k | 0 <= k < Days ensures rec[k] == recs[i][k] {
      assert CellAt(w, r, 4 + k) == Some(Status(recs[i][k]));
    }
  }

  /** Assigning rows one by one yields a well-formed dict whose keys are
      names of the rows assigned. */
  lemma {:induction false} AssignedValid(roster: seq<Entry>, recs: seq<Record>, n: nat)
    requires n <= |roster| == |recs|
    ensures Valid(Assigned(roster, recs, n))
    ensures forall k :: k in Assigned(roster, recs, n).entries ==> exists j :: 0 <= j < n && roster[j].name == k
  {
    if n > 0 {
      AssignedValid(roster, recs, n - 1);
    }
  }

  /** When every row's record is the one `data` holds for its name,
      assigning the first `n` rows in order stores each of their names'
      records. */
  lemma {:induction false} AssignedGet(roster: seq<Entry>, recs: seq<Record>, data: Dict<Cell, Record>, n: nat)
    requires n <= |roster| == |recs|
    requires forall j :: 0 <= j < |roster| ==> Get(data, roster[j].name) == Some(recs[j])
    ensures forall j :: 0 <= j < n ==> Get(Assigned(roster, recs, n), roster[j].name) == Some(recs[j])
  {
    if n > 0 {
      AssignedGet(roster, recs, data, n - 1);
      var last := roster[n - 1].name;
      forall j | 0 <= j < n ensures Get(Assigned(roster, recs, n), roster[j].name) == Some(recs[j]) {
        if roster[j].name == last {
          assert Get(data, last) == Some(recs[j]) && Get(data, last) == Some(recs[n - 1]);
        }
      }
    }
  }

  /** With distinct names the assigned dict lists the rows in roster order. */
  lemma {:induction false} AssignedOrder(roster: seq<Entry>, recs: seq<Record>, n: nat)
    requires n <= |roster| == |recs| && DistinctNames(roster)
    ensures |Assigned(roster, recs, n).order| == n
    ensures forall j :: 0 <= j < n ==> Assigned(roster, recs, n).order[j] == roster[j].name
  {
    if n > 0 {
      AssignedOrder(roster, recs, n - 1);
      AssignedFresh(roster, recs, n);
      var prev := Assigned(roster, recs, n - 1).order;
      assert Assigned(roster, recs, n).order == prev + [roster[n - 1].name];
    }
  }

  /** With distinct names, the n-th row's name is not yet a key when it is
      assigned. */
  lemma AssignedFresh(roster: seq<Entry>, recs: seq<Record>, n: nat)
    requires 0 < n <= |roster| == |recs| && DistinctNames(roster)
    ensures roster[n - 1].name !in Assigned(roster, recs, n - 1).entries
  {
    AssignedValid(roster, recs, n - 1);
  }

  /** Every record of 31 slots: the sheet is 34 columns wide. */
  lemma {:induction false} WidthOfFull(recs: seq<Record>)
    requires forall j :: 0 <= j < |recs| ==> |recs[j]| == Days
    ensures Width(recs) == 3 + Days
  {
    if recs != [] {
      var init := recs[..|recs| - 1];
      assert forall j :: 0 <= j < |init| ==> init[j] == recs[j];
      WidthOfFull(init);
    }
  }

  /** Round trip: loading the sheet that `save_attendance` writes for a store
      in lock-step with truthy names gives back the month, the date, the
      roster in order and every name's record, repeated names included. When
      the dict's order was the roster's order, the dict itself comes back. */
  lemma RoundTrip(w: Worksheet, month: Cell, date: Cell, st: State)
    requires LockStep(st)
    requires forall j :: 0 <= j < |st.roster| ==> Truthy(st.roster[j].name)
    requires IsAttendanceSheet(w, month, date, st.roster, RecordsOf(st.roster, st.data).value)
    ensures Read(w, 1, 2) == month && Read(w, 2, 2) == date
    ensures Decode(w).failedAt == None
    ensures Decode(w).roster == st.roster
    ensures forall k :: Get(Decode(w).data, k) == Get(st.data, k)
    ensures Aligned(st) ==> Decode(w).data == st.data
  {
    var recs := RecordsOf(st.roster, st.data).value;
    RecordsFull(st, recs);
    DecodeSavedSheet(w, month, date, st.roster, recs);
    LoadedRecords(st, recs);
    if Aligned(st) {
      AlignedReload(st, recs);
    }
  }

  /** Every record of a store in lock-step has 31 slots. */
  lemma RecordsFull(st: State, recs: seq<Record>)
    requires LockStep(st) && RecordsOf(st.roster, st.data) == Some(recs)
    ensures forall j :: 0 <= j < |recs| ==> |recs[j]| == Days
  {
    forall j | 0 <= j < |recs| ensures |recs[j]| == Days {
      assert st.roster[j].name in st.data.entries;
    }
  }

  /** Loading a saved sheet of truthy names and 31-slot records yields its
      roster and the records assigned in roster order, and no failure. */
  lemma DecodeSavedSheet(w: Worksheet, month: Cell, date: Cell, roster: seq<Entry>, recs: seq<Record>)
    requires IsAttendanceSheet(w, month, date, roster, recs)
    requires forall j :: 0 <= j < |roster| ==> Truthy(roster[j].name) && |recs[j]| == Days
    ensures Decode(w) == Decoded(roster, Assigned(roster, recs, |roster|), None)
    ensures Read(w, 1, 2) == month && Read(w, 2, 2) == date
  {
    assert CellAt(w, 1, 2) == Some(month) && CellAt(w, 2, 2) == Some(date);
    WidthOfFull(recs);
    DecodeSaved(w, month, date, roster, recs, 0);
    assert roster[..0] == [];
  }

  /** An aligned store comes back whole: same entries, same order. */
  lemma AlignedReload(st: State, recs: seq<Record>)
    requires Aligned(st) && RecordsOf(st.roster, st.data) == Some(recs)
    ensures Assigned(st.roster, recs, |st.roster|) == st.data
  {
    var n := |st.roster|;
    AlignedLockStep(st);
    LoadedRecords(st, recs);
    AssignedOrder(st.roster, recs, n);
    assert Assigned(st.roster, recs, n).order == st.data.order;
  }

  /** Assigning every row its record rebuilds the store's lookups. */
  lemma LoadedRecords(st: State, recs: seq<Record>)
    requires LockStep(st) && RecordsOf(st.roster, st.data) == Some(recs)
    ensures forall k :: Get(Assigned(st.roster, recs, |st.roster|), k) == Get(st.data, k)
    ensures Assigned(st.roster, recs, |st.roster|).entries == st.data.entries
  {
    var n := |st.roster|;
    var loaded := Assigned(st.roster, recs, n);
    AssignedGet(st.roster, recs, st.data, n);
    AssignedValid(st.roster, recs, n);
    forall k ensures Get(loaded, k) == Get(st.data, k) {
      if k in st.data.entries || k in loaded.entries {
        var j :| 0 <= j < n && Names(st.roster)[j] == k;
        assert Get(loaded, st.roster[j].name) == Some(recs[j]);
      }
    }
    assert loaded.entries == st.data.entries by {
      forall k ensures k in loaded.entries <==> k in st.data.entries {
        assert Get(loaded, k) == Get(st.data, k);
      }
      forall k | k in loaded.entries ensures loaded.entries[k] == st.data.entries[k] {
        assert Get(loaded, k) == Get(st.data, k);
      }
    }
  }

  // ---------------------------------------------------------------------
  // Report layout
  // ---------------------------------------------------------------------

  /** Title of the report sheet, set by `ws.title = ...`. */
  const ReportTitle := "Attendance Report"

  /** The percentage cell: the program stores the integer 0 when the total is
      0 and a number otherwise. */
  function PercentageCell(row: SummaryRow): Cell
  {
    if row.total > 0 then Real(row.percentage) else Int(0)
  }

  /** The cell `export_to_excel` leaves at (r, c), or None where it writes
      nothing: title, time stamp, headings in row 4, one row per summary
      row from row 5. */
  function ReportCell(rows: seq<SummaryRow>, stamp: string, r: int, c: int): Option<Cell>
  {
    if r == 1 then (if c == 1 then Some(Text("Attendance Report")) else None)
    else if r == 2 then (if c == 1 then Some(Text("Generated on: " + stamp)) else None)
    else if r == 4 then
      (if c == 1 then Some(Text("Name"))
       else if c == 2 then Some(Text("Present Days"))
       else if c == 3 then Some(Text("Total Days"))
       else if c == 4 then Some(Text("Percentage"))
       else None)
    else if 5 <= r < 5 + |rows| then
      var row := rows[r - 5];
      (if c == 1 then Some(row.name)
       else if c == 2 then Some(Int(row.present))
       else if c == 3 then Some(Int(row.total))
       else if c == 4 then Some(PercentageCell(row))
       else None)
    else None
  }

  ghost predicate IsReportSheet(w: Worksheet, rows: seq<SummaryRow>, stamp: string)
  {
    && w.title == ReportTitle
    && w.maxRow == 4 + |rows|
    && w.maxCol == 4
    && forall r, c :: CellAt(w, r, c) == ReportCell(rows, stamp, r, c)
  }

  /** The cell writing of `export_to_excel`: an empty summary is refused
      ("No data to export"); otherwise the report sheet. The time stamp is
      the caller's formatted `datetime.now()`. */
  method ExportReport(rows: seq<SummaryRow>, stamp: string) returns (res: Option<Worksheet>)
    ensures res.None? <==> rows == []
    ensures res.Some? ==> IsReportSheet(res.value, rows, stamp)
  {
    if rows == [] {
      return None;
    }
    var w := NewWorksheet();
    w := w.(title := ReportTitle);
    w := Write(w, 1, 1, Text("Attendance Report"));
    w := Write(w, 2, 1, Text("Generated on: " + stamp));
    w := Write(w, 4, 1, Text("Name"));
    w := Write(w, 4, 2, Text("Present Days"));
    w := Write(w, 4, 3, Text("Total Days"));
    w := Write(w, 4, 4, Text("Percentage"));
    var i := 0;
    while i < |rows|
      invariant 0 <= i <= |rows|
      invariant w.title == ReportTitle && w.maxRow == 4 + i && w.maxCol == 4
      invariant forall r, c :: CellAt(w, r, c) == (if r < 5 + i then ReportCell(rows, stamp, r, c) else None)
    {
      var row := rows[i];
      w := Write(w, 5 + i, 1, row.name);
      w := Write(w, 5 + i, 2, Int(row.present));
      w := Write(w, 5 + i, 3, Int(row.total));
      w := Write(w, 5 + i, 4, PercentageCell(row));
      i := i + 1;
    }
    return Some(w);
  }

  /** Reading one report row back: the inverse of the row's four cells. */
  function ReadReportRow(w: Worksheet, r: int): Option<SummaryRow>
  {
    match (Read(w, r, 2), Read(w, r, 3), Read(w, r, 4))
    case (Int(p), Int(t), Real(x)) => if p >= 0 && t > 0 then Some(SummaryRow(Read(w, r, 1), p, t, x)) else None
    case (Int(p), Int(t), Int(0)) => if p >= 0 && t == 0 then Some(SummaryRow(Read(w, r, 1), p, 0, 0.0)) else None
    case _ => None
  }

  /** The first `n` report rows read back, in order. */
  function ReadReport(w: Worksheet, n: nat): Option<seq<SummaryRow>>
  {
    if n == 0 then Some([])
    else
      match (ReadReport(w, n - 1), ReadReportRow(w, 4 + n))
      case (Some(rows), Some(row)) => Some(rows + [row])
      case _ => None
  }

  /** The report sheet holds the summary it was written from: its rows read
      back as the summary rows, in order, under the title and headings. */
  lemma {:induction false} ReportReadsBack(w: Worksheet, rows: seq<SummaryRow>, stamp: string, n: nat)
    requires IsReportSheet(w, rows, stamp) && n <= |rows|
    requires forall j :: 0 <= j < |rows| ==> rows[j].total == 0 ==> rows[j].percentage == 0.0
    ensures ReadReport(w, n) == Some(rows[..n])
    ensures Read(w, 1, 1) == Text("Attendance Report") && Read(w, 2, 1) == Text("Generated on: " + stamp)
  {
    assert CellAt(w, 1, 1) == Some(Text("Attendance Report"));
    assert CellAt(w, 2, 1) == Some(Text("Generated on: " + stamp));
    if n > 0 {
      ReportReadsBack(w, rows, stamp, n - 1);
      var r := 4 + n;
      var row := rows[n - 1];
      assert CellAt(w, r, 1) == Some(row.name) && CellAt(w, r, 2) == Some(Int(row.present));
      assert CellAt(w, r, 3) == Some(Int(row.total)) && CellAt(w, r, 4) == Some(PercentageCell(row));
      assert ReadReportRow(w, r) == Some(row);
      assert rows[..n] == rows[..n - 1] + [row];
    }
  }
}
