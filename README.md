# Attendance Management System — the attendance store and its sheets

This project models the core of a Tk desktop program that keeps a monthly
attendance register. The application controller holds two structures:

- the roster `name_data`, a list of `(name, email, sap)` rows;
- `attendance_data`, an insertion-ordered dict from a name to 31 present/absent
  slots.

The attendance page adds a name, removes the last row and clears everything.
It saves the register to an Excel sheet and loads it back. The report page
summarises the register as one row per person, works out the overall figures,
and exports the summary to a second sheet layout.

The model is in seven modules:

- `Wrappers`: `Option` and `Result`.
- `OrderedDict`: a Python 3.7+ dict. It is a map plus the order of first
  insertion. Assignment to a present key keeps that key's place, and
  `popitem` takes the most recently inserted key.
- `Grid`: cell values with Python truthiness. A worksheet is a map from
  (row, column) to cell, with openpyxl's `max_row` and `max_column`.
- `Store`: the roster/dict pair as a value. It gives each operation as a
  function, and it defines two invariants:
  - `LockStep`: every row's name has a 31-slot record, and every record
    belongs to a row. Repeated names are allowed.
  - `Aligned`: as `LockStep`, and in addition the dict's keys are the roster's
    names in roster order.
- `Summary`: `get_attendance_summary` and the overall figures of
  `update_report`, as pure functions.
- `Codec`: the attendance sheet written by `save_attendance`, the row loop of
  `load_attendance`, and the report sheet of `export_to_excel`.
- `App`: the controller as a class. It holds the two structures and the
  page's month and date fields, and it changes them in place. Its methods
  run the program's loops and are proved equal to the `Store`, `Summary` and
  `Codec` definitions.

Choices that the model makes explicit:

- A dict lookup that raises KeyError is an `Option` or `Result` error value.
  On a sheet narrower than three columns, every row is too short, so the
  load fails with IndexError at the first row with a truthy column A.
  That row is recorded. Nothing is loaded, but the store is already emptied
  and the month and date fields are already set.
- The dialogs become parameters:
  - the answers to the add dialogs (None for Cancel);
  - the clear confirmation;
  - the chosen and opened sheet (None when cancelled or unreadable).
- The clock is a parameter: the initial month and date, and the report's time
  stamp.
- Percentages are exact reals.

Two behaviours of the program worth knowing:

- `load_attendance` skips a row whose column A is falsy and goes on with the
  next row. It does not stop at the first empty row.
- Adding a name that is already on the roster appends a second roster row. The
  name's record is reset to 31 blank slots and keeps its original place in the
  dict.

## Model

| member | source | states |
|---|---|---|
| OrderedDict.EmptyDict | AttendenceManagementSystem.py:21 | the empty dict is valid and holds no key |
| OrderedDict.Get | AttendenceManagementSystem.py:70 | a lookup fails exactly for keys the dict does not hold, that is, for keys not in its order |
| OrderedDict.Put | AttendenceManagementSystem.py:206 | after `d[k] = v`, `k` holds `v` and every other key is unchanged; a present key keeps its place, a new key is appended, and validity is kept |
| OrderedDict.PopItem | AttendenceManagementSystem.py:217 | `popitem` drops the last key of the order and only that key; every other key keeps its value and place, and validity is kept |
| OrderedDict.PutPopItem | AttendenceManagementSystem.py:206-217 | `popitem` right after inserting a new key gives back the original dict |
| OrderedDict.Delete | AttendenceManagementSystem.py:217 | `del d[k]` (used by the corrected removal) removes `k` alone and keeps validity |
| OrderedDict.Without | AttendenceManagementSystem.py:217 | the order without `k` holds exactly the other keys, and stays duplicate-free |
| Grid.Truthy | AttendenceManagementSystem.py:359 | definition of Python truthiness of a cell: None, the empty string and zero are falsy |
| Grid.Read | AttendenceManagementSystem.py:354-355 | reading a cell gives the written value, or None where nothing was written |
| Grid.Write | AttendenceManagementSystem.py:309-315 | writing a cell changes that one cell and grows `max_row`/`max_column` to cover it |
| Grid.NewWorksheet | AttendenceManagementSystem.py:291-292 | a fresh workbook's active sheet is empty, with `max_row` and `max_column` both 1 |
| Store.Names | AttendenceManagementSystem.py:20 | the roster's names, one per row, in row order |
| Store.Blank | AttendenceManagementSystem.py:205 | a new record has 31 slots, none ticked |
| Store.Answer | AttendenceManagementSystem.py:201-202 | a cancelled dialog gives None and only a cancelled dialog does |
| Store.Add | AttendenceManagementSystem.py:195-208 | an empty or cancelled name changes nothing; otherwise the roster gains exactly the row (name, email, SAP ID) at its end, the name holds a fresh blank record, every other key is unchanged, a name already present keeps its dict place and a new one is appended |
| Store.AppendLockStep | AttendenceManagementSystem.py:204-206 | appending a row and giving its name a 31-slot record keeps lock-step, whether the name is new or repeated |
| Store.AddLockStep | AttendenceManagementSystem.py:195-208 | `add_attendee` keeps lock-step, also when the name repeats |
| Store.AddAligned | AttendenceManagementSystem.py:204-206 | on an aligned store, adding keeps alignment if and only if the name is new; a repeated name keeps its old dict position and breaks alignment |
| Store.RemoveLast | AttendenceManagementSystem.py:210-218 | an empty roster is a warning that changes nothing, and only an empty roster gives that outcome; otherwise the roster loses exactly its last row, and `popitem` either fails on an empty dict (leaving it unchanged) or drops exactly the dict's last-inserted key, whatever name the removed row had, leaving every other key unchanged |
| Store.AddThenRemoveLast | AttendenceManagementSystem.py:195-218 | removing right after adding a new name restores the store exactly |
| Store.RemoveLastAligned | AttendenceManagementSystem.py:210-218 | on an aligned non-empty store, `popitem` removes the removed row's own record, so removal agrees with the by-name removal and keeps alignment |
| Store.RemoveLastRepeatedName | AttendenceManagementSystem.py:216-217 | when the last row's name also appears earlier, `popitem` drops a record that a remaining row still needs (another name's, or the repeated name's own): a remaining row has no record, lock-step is lost, and the by-name removal keeps it |
| Store.RemoveLastByName | AttendenceManagementSystem.py:216-217 | the corrected removal drops exactly the last roster row; its name's record stays exactly when a remaining row still carries the name and goes otherwise, and every other record stays |
| Store.RemoveLastByNameLockStep | AttendenceManagementSystem.py:216-217 | the corrected removal always keeps lock-step |
| Store.Clear | AttendenceManagementSystem.py:220-228 | nothing happens on an empty roster or a declined confirmation; otherwise the roster and the dict are both emptied |
| Store.ClearInvariants | AttendenceManagementSystem.py:220-228 | clearing keeps lock-step and alignment |
| Store.RecordsOf | AttendenceManagementSystem.py:74 | every row's record is found exactly when every row's name is a key, and the records found are the dict's values in row order |
| Store.RecordsOfAll | AttendenceManagementSystem.py:73-74 | records looked up row by row are the records of the whole roster |
| Store.AlignedLockStep | AttendenceManagementSystem.py:20-21 | an aligned store is in lock-step and has no repeated name |
| Summary.PresentDays | AttendenceManagementSystem.py:74 | the present count is at most the record's length; it is 0 exactly when no slot is ticked and equals the length exactly when all are |
| Summary.Percentage | AttendenceManagementSystem.py:75 | the percentage is 0 when the total is 0; otherwise percentage × total = present × 100, and it lies in [0, 100] when present ≤ total |
| Summary.Compute | AttendenceManagementSystem.py:65-83 | definition of `get_attendance_summary`; characterised by Summary.SummaryShape and Summary.LockStepSummary |
| Summary.SummaryShape | AttendenceManagementSystem.py:65-83 | an empty roster gives an empty summary; otherwise the summary exists exactly when every name has a record, with one row per roster row in order, that row's name and present count, and the first record's length as the total |
| Summary.LockStepSummary | AttendenceManagementSystem.py:65-83 | on a store in lock-step the summary exists, every total is 31, and every percentage lies in [0, 100] |
| Summary.AddThenSummary | AttendenceManagementSystem.py:195-208 | right after adding a name, the summary ends with a row for it with 0 of 31 days and 0 % |
| Summary.RemoveLastThenSummary | AttendenceManagementSystem.py:65-83 | after the as-written removal of a repeated last name, the summary raises KeyError |
| Summary.SumPresent | AttendenceManagementSystem.py:444 | definition of `total_present`; characterised by Summary.SumPresentBound |
| Summary.Aggregate | AttendenceManagementSystem.py:443-446 | definition of the overall figures; characterised by Summary.AggregateFacts |
| Summary.SumPresentBound | AttendenceManagementSystem.py:444 | when no row has more than `b` present days, the total present is at most `b` per row |
| Summary.AggregateFacts | AttendenceManagementSystem.py:443-446 | the possible total is the days times the rows; the overall percentage is 0 when nothing is possible, and lies in [0, 100] with present ≤ possible when no row exceeds the common total |
| Codec.Status | AttendenceManagementSystem.py:314 | definition: "Present" for a ticked slot, "Absent" otherwise; characterised by Codec.SavedRow |
| Codec.HeaderCell | AttendenceManagementSystem.py:295-305 | definition of the three header rows of the attendance sheet; characterised by Codec.WriteHeaders and Codec.DecodeSavedSheet |
| Codec.EntryCell | AttendenceManagementSystem.py:309-315 | definition of one roster row of the attendance sheet; characterised by Codec.WriteEntryRow and Codec.SavedRow |
| Codec.WriteHeaders | AttendenceManagementSystem.py:291-305 | the header rows hold Month / month, Date of update / date, Name / Email / SAP ID and the day numbers 1 to 31 in columns 4 to 34, and nothing else |
| Codec.WriteEntryRow | AttendenceManagementSystem.py:309-315 | one row holds the name, email, SAP ID and a Present/Absent cell per slot, and no other cell changes |
| Codec.AppendRow | AttendenceManagementSystem.py:308-315 | writing the next roster row extends a correctly written prefix of the sheet by that row |
| Codec.RowAppended | AttendenceManagementSystem.py:308-315 | the sheet's layout for one more row differs from the previous layout only in that row |
| Codec.EncodeAttendance | AttendenceManagementSystem.py:285-315 | an empty roster is a warning and writes nothing; otherwise the sheet is written exactly when every name has a record, and it is the attendance layout of the roster and its records |
| Codec.RowRecord | AttendenceManagementSystem.py:366-367 | a loaded row has 31 slots exactly when the sheet is at least 34 columns wide, and fewer otherwise; slot k is ticked exactly when cell (row, 4 + k) holds the text "Present" |
| Codec.RowEntry | AttendenceManagementSystem.py:362 | definition: columns A, B and C of a row as name, email and SAP ID; characterised by Codec.DecodeRowsRoster and Codec.SavedRow |
| Codec.DecodeRows | AttendenceManagementSystem.py:358-369 | definition of the row loop: falsy column A skipped, IndexError on a sheet narrower than three columns, otherwise the row appended and `attendance_data[name]` assigned; characterised by Codec.DecodeRowsRoster, Codec.DecodeRowsData and Codec.DecodeRowsLockStep |
| Codec.Decode | AttendenceManagementSystem.py:349-369 | definition: the row loop from row 4 on an emptied store; characterised by Codec.DecodeFacts, Codec.DecodeData and Codec.RoundTrip |
| Codec.DecodeRowsData | AttendenceManagementSystem.py:358-369 | on any sheet of three columns or more, the row loop leaves each name holding the record of the last kept row with that name, and leaves every other key as it was |
| Codec.DecodeData | AttendenceManagementSystem.py:349-369 | after a load of any sheet of three columns or more, a name holds the record of the last row carrying it, and a name no row carries is absent |
| Codec.DecodeRowsRoster | AttendenceManagementSystem.py:358-369 | the row loop appends exactly the rows with a truthy column A, in sheet order; a sheet narrower than three columns stops with IndexError at the first such row and loads nothing |
| Codec.DecodeRowsLockStep | AttendenceManagementSystem.py:358-369 | loading rows of a sheet at least 34 columns wide keeps lock-step, repeated names included |
| Codec.DecodeFacts | AttendenceManagementSystem.py:349-369 | loading depends on the sheet alone (the store is emptied first); the roster is the kept rows from row 4 on, and a sheet of the attendance width leaves the store in lock-step |
| Codec.SavedRow | AttendenceManagementSystem.py:309-315 | a saved row reads back as its name, email, SAP ID and record, because only "Present" is read as ticked |
| Codec.DecodeSaved | AttendenceManagementSystem.py:358-369 | reading a saved sheet from any row on gives back the remaining roster and the dict the assignments build |
| Codec.AssignedValid | AttendenceManagementSystem.py:369 | the loaded dict is valid and holds only names of loaded rows |
| Codec.AssignedGet | AttendenceManagementSystem.py:369 | each loaded name holds the record the store gave it |
| Codec.AssignedOrder | AttendenceManagementSystem.py:369 | without repeated names, the loaded dict's order is the roster's names |
| Codec.AssignedFresh | AttendenceManagementSystem.py:369 | without repeated names, each row's name is new when it is assigned |
| Codec.WidthOfFull | AttendenceManagementSystem.py:304-315 | a sheet of 31-slot records is 34 columns wide |
| Codec.RecordsFull | AttendenceManagementSystem.py:205 | on a store in lock-step, every record saved has 31 slots |
| Codec.DecodeSavedSheet | AttendenceManagementSystem.py:349-369 | loading a saved sheet gives its roster and the dict rebuilt by the assignments, with no failure, and B1 and B2 hold the month and date |
| Codec.LoadedRecords | AttendenceManagementSystem.py:358-369 | the rebuilt dict holds the same keys with the same records as the saved store |
| Codec.AlignedReload | AttendenceManagementSystem.py:358-369 | for an aligned store the rebuilt dict is the saved dict itself, order included |
| Codec.RoundTrip | AttendenceManagementSystem.py:285-369 | saving a store in lock-step and loading the sheet gives back the month, the date, the roster, and every name's record, without failure; for an aligned store it gives the identical dict |
| Codec.PercentageCell | AttendenceManagementSystem.py:75 | definition: a zero total leaves the integer 0, any other total a fractional number; characterised by Codec.ReportReadsBack |
| Codec.ReportCell | AttendenceManagementSystem.py:476-488 | definition of the report layout; characterised by Codec.ExportReport and Codec.ReportReadsBack |
| Codec.ExportReport | AttendenceManagementSystem.py:464-488 | an empty summary is a warning and writes nothing; otherwise the sheet is titled "Attendance Report" and has the title, the time stamp, the headings in row 4 and one row per summary row from row 5 |
| Codec.ReportReadsBack | AttendenceManagementSystem.py:473-488 | the report's rows read back as the summary rows, in order, under its title and time stamp |
| App.AttendanceApp.constructor | AttendenceManagementSystem.py:13-23 | the controller starts with an empty roster and dict, and with the clock's month (line 23) and date as the page's month and date fields (lines 133 and 137) |
| App.AttendanceApp.AddAttendee | AttendenceManagementSystem.py:195-208 | the fields change as `Store.Add` gives, the month and date stay, and lock-step is kept |
| App.AttendanceApp.RemoveAttendee | AttendenceManagementSystem.py:210-218 | the fields and the outcome are those of the as-written `Store.RemoveLast` |
| App.AttendanceApp.ClearAttendees | AttendenceManagementSystem.py:220-228 | the fields change as `Store.Clear` gives, and lock-step is kept |
| App.AttendanceApp.GetAttendanceSummary | AttendenceManagementSystem.py:65-83 | the loop returns the summary `Summary.Compute` defines, or None where a lookup raises KeyError |
| App.CountPresent | AttendenceManagementSystem.py:74 | counting ticked slots one by one gives `PresentDays` |
| App.AttendanceApp.SaveAttendance | AttendenceManagementSystem.py:285-315 | the sheet written is the attendance layout of the page's month and date and of the store, or the warning or KeyError case |
| App.AttendanceApp.ExportToExcel | AttendenceManagementSystem.py:464-488 | the report of the current summary; the warning exactly when the roster is empty, and the summary's KeyError exactly when the summary fails |
| App.AttendanceApp.LoadAttendance | AttendenceManagementSystem.py:333-375 | with no sheet nothing changes; otherwise the store becomes what `Codec.Decode` reads from the sheet whatever it held before, the month and date become B1 and B2, and the outcome reports the IndexError row when there is one |
| App.ReadRecord | AttendenceManagementSystem.py:365-368 | reading the slots cell by cell gives `RowRecord` |

## Left out

- The Tk windows, frames, check boxes, text areas, styles and page switching
  are not modelled. `update_display` and `update_summary` only redraw.
- The settings page and the settings dict are not modelled. The default save
  path only seeds the file dialogs.
- The file dialogs and message boxes are parameters or outcome values.
- The file system is not modelled: `wb.save`, `load_workbook` and their
  failures. A load whose file cannot be opened is the same as a cancelled
  dialog, and a save or export ends with the sheet it would write.
- `update_report`'s text output and `print_report` are left out, as is the
  one-decimal formatting of percentages. The aggregates are modelled.
- Floating point is not modelled. Percentages are exact reals.
- The `IntVar` slots are booleans. The month and date `StringVar`s are cells,
  so loading them keeps the cell's value. Tk's conversion of a non-string
  value (None, a number) to text is not modelled.
- A loaded sheet's `max_row` and `max_column` are taken as given. Nothing
  models how openpyxl computes them from the file.
- The `datetime` readings are parameters.
- Cells used as dict keys are compared as cell values. Python compares
  numbers across types, so `1 == 1.0`, and two loaded rows named 1 and 1.0
  share one `attendance_data` key. The model keeps `Int(1)` and `Real(1.0)`
  apart. Names typed through the add dialog are always strings, so only a
  loaded sheet with numeric names in column A is affected.
- openpyxl can also return booleans and dates as cell values. `Cell` does
  not hold them. A sheet with such a value in column A, in B1 or in B2 is
  not modelled.
- Only the KeyError and IndexError cases above are modelled. No other
  exception is.
- App.AttendanceApp.AddAttendee, App.AttendanceApp.RemoveAttendee,
  App.AttendanceApp.ClearAttendees and App.AttendanceApp.LoadAttendance state
  their new state through `old`. What they keep is proved on the `Store` and
  `Codec` functions they equal.
- Codec.RoundTrip: for a store in lock-step with repeated names, the
  reloaded dict is equal key by key, but its order is not claimed equal. A
  reload orders the keys by each name's first row. A store in lock-step need
  not order them that way, for example after a by-name removal and a re-add.

## Findings

| source | as written | input that shows it | evidently intended | confidence | as-written member | corrected member |
|---|---|---|---|---|---|---|
| AttendenceManagementSystem.py:216-217 | `remove_attendee` pops the roster's last row, then calls `popitem()`, which removes the dict's most recently inserted key, not necessarily the removed row's name | roster rows A, B, A (A added twice, so the dict order is A, B): removing drops the second A row, but `popitem` drops B's record while a B row remains, and the summary then raises KeyError | remove the record of the removed row's name, and only when no remaining row still carries that name | not executed | Store.RemoveLastRepeatedName, Summary.RemoveLastThenSummary | Store.RemoveLastByName, Store.RemoveLastByNameLockStep |
