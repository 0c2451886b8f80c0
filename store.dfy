/** The attendance store held by the application controller: the roster
    `name_data`, a list of `(name, email, sap)` rows, and `attendance_data`,
    a dict from name to the 31 present/absent slots of that person. This
    module gives the effect of each operation on the pair as a function of
    values; the class in module App performs the same steps in place. */
module Store {
  import opened Wrappers
  import opened Grid
  import opened OrderedDict

  /** Slots in every record the program creates: `range(31)`. */
  const Days: nat := 31

  /** One slot per day; `true` where the check box is ticked (IntVar 1). */
  type Record = seq<bool>

  /** A roster row. Fields are cell values because a loaded sheet may put a
      number or nothing where a string was typed in. */
  datatype Entry = Entry(name: Cell, email: Cell, sap: Cell)

  datatype State = State(roster: seq<Entry>, data: Dict<Cell, Record>)

  function Names(roster: seq<Entry>): (ns: seq<Cell>)
    ensures |ns| == |roster|
    ensures forall i :: 0 <= i < |roster| ==> ns[i] == roster[i].name
  {
    seq(|roster|, i requires 0 <= i < |roster| => roster[i].name)
  }

  predicate DistinctNames(roster: seq<Entry>)
  {
    Distinct(Names(roster))
  }

  /** A fresh record: 31 unticked slots. */
  function Blank(): (r: Record)
    ensures |r| == Days
    ensures forall i :: 0 <= i < |r| ==> !r[i]
  {
    seq(Days, _ => false)
  }

  /** What `simpledialog.askstring` returns: the typed text, or None when the
      dialog is cancelled. */
  function Answer(a: Option<string>): (c: Cell)
    ensures c == Empty <==> a.None?
  {
    match a
    case None => Empty
    case Some(s) => Text(s)
  }

  /** `add_attendee`: an empty or cancelled name changes nothing; otherwise
      the row is appended and the name's record becomes a fresh one. */
  function Add(st: State, name: Option<string>, email: Option<string>, sap: Option<string>): (r: State)
    ensures name.None? || name.value == "" ==> r == st
    ensures name.Some? && name.value != "" ==>
      && r.roster == st.roster + [Entry(Text(name.value), Answer(email), Answer(sap))]
      && Get(r.data, Text(name.value)) == Some(Blank())
      && (forall k :: k != Text(name.value) ==> Get(r.data, k) == Get(st.data, k))
      && (Text(name.value) in st.data.entries ==> r.data.order == st.data.order)
      && (Text(name.value) !in st.data.entries ==> r.data.order == st.data.order + [Text(name.value)])
  {
    if name.None? || name.value == "" then st
    else
      var key := Text(name.value);
      State(st.roster + [Entry(key, Answer(email), Answer(sap))], Put(st.data, key, Blank()))
  }

  /** How `remove_attendee` ended. */
  datatype Removal =
    | Removed
      /** the roster was empty: a warning, nothing changes */
    | NothingToRemove
      /** the roster was popped, then `popitem` on an empty dict raised KeyError */
    | PopFromEmptyDict

  /** `remove_attendee` as written: the roster loses its last row and the
      dict its most recently inserted key, whichever name that is. */
  function RemoveLast(st: State): (r: (State, Removal))
    ensures st.roster == [] <==> r.1 == NothingToRemove
    ensures r.1 == NothingToRemove ==> r.0 == st
    ensures st.roster != [] ==> r.0.roster == st.roster[..|st.roster| - 1]
    ensures st.roster != [] ==> (r.1 == PopFromEmptyDict <==> st.data.order == [])
    ensures r.1 == PopFromEmptyDict ==> r.0.data == st.data
    ensures r.1 == Removed ==>
      var last := st.data.order[|st.data.order| - 1];
      && r.0.data.order == st.data.order[..|st.data.order| - 1]
      && Get(r.0.data, last) == None
      && (forall k :: k != last ==> Get(r.0.data, k) == Get(st.data, k))
  {
    if st.roster == [] then (st, NothingToRemove)
    else
      var rest := st.roster[..|st.roster| - 1];
      if st.data.order == [] then (State(rest, st.data), PopFromEmptyDict)
      else (State(rest, PopItem(st.data)), Removed)
  }

  /** Remove-last keyed by the removed row's own name: its record goes only
      when no remaining row still carries that name. */
  function RemoveLastByName(st: State): (r: State)
    ensures st.roster == [] ==> r == st
    ensures st.roster != [] ==> r.roster == st.roster[..|st.roster| - 1]
    ensures st.roster != [] ==>
      var gone := st.roster[|st.roster| - 1].name;
      && (gone in Names(r.roster) ==> r.data == st.data)
      && (gone !in Names(r.roster) ==> Get(r.data, gone) == None)
      && (forall k :: k != gone ==> Get(r.data, k) == Get(st.data, k))
  {
    if st.roster == [] then st
    else
      var last := st.roster[|st.roster| - 1];
      var rest := st.roster[..|st.roster| - 1];
      if last.name in Names(rest) then State(rest, st.data)
      else State(rest, Delete(st.data, last.name))
  }

  /** `clear_attendees`: nothing happens on an empty roster or when the
      confirmation is declined; otherwise both structures are emptied. */
  function Clear(st: State, confirmed: bool): (r: State)
    ensures st.roster == [] || !confirmed ==> r == st
    ensures st.roster != [] && confirmed ==> r.roster == [] && r.data == EmptyDict()
  {
    if st.roster == [] || !confirmed then st else State([], EmptyDict())
  }

  /** `attendance_data[name]` for every row in order, or None where one of
      those lookups raises KeyError. */
  function RecordsOf(roster: seq<Entry>, data: Dict<Cell, Record>): (r: Option<seq<Record>>)
    ensures r.Some? <==> forall i :: 0 <= i < |roster| ==> roster[i].name in data.entries
    ensures r.Some? ==> |r.value| == |roster|
    ensures r.Some? ==> forall i :: 0 <= i < |roster| ==> Get(data, roster[i].name) == Some(r.value[i])
  {
    if forall i :: 0 <= i < |roster| ==> roster[i].name in data.entries then
      Some(seq(|roster|, i requires 0 <= i < |roster| => data.entries[roster[i].name]))
    else None
  }

  /** Records found for every row one by one are what RecordsOf gives. */
  lemma RecordsOfAll(roster: seq<Entry>, data: Dict<Cell, Record>, recs: seq<Record>)
    requires |recs| == |roster|
    requires forall j :: 0 <= j < |roster| ==> Get(data, roster[j].name) == Some(recs[j])
    ensures RecordsOf(roster, data) == Some(recs)
  {
    forall j | 0 <= j < |roster| ensures roster[j].name in data.entries {
      assert Get(data, roster[j].name).Some?;
    }
    var found := RecordsOf(roster, data).value;
    forall j | 0 <= j < |roster| ensures found[j] == recs[j] {
      assert Get(data, roster[j].name) == Some(found[j]);
    }
    assert found == recs;
  }

  /** The invariant that add and clear keep, and that a load of a sheet of
      the attendance width (34 columns or more) establishes, repeated names
      included: each row's name has a record, each record belongs to some
      row, and each record has 31 slots. `remove_attendee` as written can
      break it, and so can a load of a narrower sheet, whose records are
      shorter. */
  ghost predicate LockStep(st: State)
  {
    && Valid(st.data)
    && (forall i :: 0 <= i < |st.roster| ==> st.roster[i].name in st.data.entries)
    && (forall k :: k in st.data.entries ==> k in Names(st.roster) && |st.data.entries[k]| == Days)
  }

  /** The stronger invariant of a roster without repeated names: the dict's
      keys are the roster's names in roster order. */
  ghost predicate Aligned(st: State)
  {
    && Valid(st.data)
    && st.data.order == Names(st.roster)
    && (forall k :: k in st.data.entries ==> |st.data.entries[k]| == Days)
  }

  lemma AlignedLockStep(st: State)
    requires Aligned(st)
    ensures LockStep(st) && DistinctNames(st.roster)
  {
    forall i | 0 <= i < |st.roster| ensures st.roster[i].name in st.data.entries {
      assert st.data.order[i] == st.roster[i].name;
    }
    forall i, j | 0 <= i < j < |st.roster| ensures st.roster[i].name != st.roster[j].name {
      assert st.data.order[i] == st.roster[i].name && st.data.order[j] == st.roster[j].name;
    }
  }

  /** Appending a row and assigning its name a 31-slot record keeps the
      store in lock-step, whether or not the name is new. */
  lemma AppendLockStep(st: State, e: Entry, rec: Record)
    requires LockStep(st) && |rec| == Days
    ensures LockStep(State(st.roster + [e], Put(st.data, e.name, rec)))
  {
    var r := State(st.roster + [e], Put(st.data, e.name, rec));
    assert Names(r.roster) == Names(st.roster) + [e.name];
    forall i | 0 <= i < |r.roster| ensures r.roster[i].name in r.data.entries {
      if i < |st.roster| {
        assert r.roster[i] == st.roster[i];
        assert Get(st.data, st.roster[i].name).Some?;
      }
    }
    forall k | k in r.data.entries ensures k in Names(r.roster) && |r.data.entries[k]| == Days {
      if k != e.name {
        assert Get(r.data, k) == Get(st.data, k);
      } else {
        assert Get(r.data, k) == Some(rec);
      }
    }
  }

  /** `add_attendee` keeps the store in lock-step. */
  lemma AddLockStep(st: State, name: Option<string>, email: Option<string>, sap: Option<string>)
    requires LockStep(st)
    ensures LockStep(Add(st, name, email, sap))
  {
    if name.Some? && name.value != "" {
      AppendLockStep(st, Entry(Text(name.value), Answer(email), Answer(sap)), Blank());
    }
  }

  /** On an aligned store, Add stays aligned exactly when the name is new. */
  lemma AddAligned(st: State, name: string, email: Option<string>, sap: Option<string>)
    requires Aligned(st) && name != ""
    ensures Aligned(Add(st, Some(name), email, sap)) <==> Text(name) !in Names(st.roster)
  {
    var r := Add(st, Some(name), email, sap);
    var key := Text(name);
    assert Names(r.roster) == Names(st.roster) + [key];
    if key !in Names(st.roster) {
      forall k | k in r.data.entries ensures |r.data.entries[k]| == Days {
        if k != key {
          assert Get(r.data, k) == Get(st.data, k);
        } else {
          assert Get(r.data, k) == Some(Blank());
        }
      }
    } else {
      assert |r.data.order| == |st.data.order| < |Names(r.roster)|;
    }
  }

  /** On an aligned store, `remove_attendee` as written removes the last
      row's own record, agrees with the by-name removal, and stays aligned. */
  lemma RemoveLastAligned(st: State)
    requires Aligned(st) && st.roster != []
    ensures RemoveLast(st).1 == Removed
    ensures RemoveLast(st).0 == RemoveLastByName(st)
    ensures Aligned(RemoveLast(st).0)
  {
    AlignedLockStep(st);
    var n := |st.roster|;
    var last := st.roster[n - 1];
    var rest := st.roster[..n - 1];
    assert st.data.order[n - 1] == last.name;
    assert Names(rest) == Names(st.roster)[..n - 1];
    assert last.name !in Names(rest);
    var popped := PopItem(st.data);
    var deleted := Delete(st.data, last.name);
    assert popped.entries == deleted.entries by {
      forall k ensures k in popped.entries <==> k in deleted.entries {
        assert Get(popped, k) == Get(deleted, k);
      }
    }
    assert popped.order == deleted.order by {
      WithoutLast(st.data.order, last.name);
    }
    forall k | k in popped.entries ensures |popped.entries[k]| == Days {
      assert Get(popped, k) == Get(st.data, k);
    }
  }

  /** Removing the last element of a list that holds it only there is
      dropping that element. */
  lemma {:induction false} WithoutLast(s: seq<Cell>, k: Cell)
    requires s != [] && s[|s| - 1] == k && k !in s[..|s| - 1]
    ensures Without(s, k) == s[..|s| - 1]
  {
    if |s| > 1 {
      assert s[1..][..|s| - 2] == s[..|s| - 1][1..];
      WithoutLast(s[1..], k);
    }
  }

  /** The by-name removal keeps the lock-step invariant on every store, with
      repeated names too. */
  lemma RemoveLastByNameLockStep(st: State)
    requires LockStep(st)
    ensures LockStep(RemoveLastByName(st))
  {
    if st.roster != [] {
      var n := |st.roster|;
      var last := st.roster[n - 1];
      var rest := st.roster[..n - 1];
      var r := RemoveLastByName(st);
      assert Names(st.roster) == Names(rest) + [last.name];
      forall i | 0 <= i < |rest| ensures rest[i].name in r.data.entries {
        assert rest[i] == st.roster[i];
        if last.name !in Names(rest) {
          assert rest[i].name in Names(rest);
          assert Get(r.data, rest[i].name) == Get(st.data, rest[i].name);
        }
      }
      forall k | k in r.data.entries ensures k in Names(rest) && |r.data.entries[k]| == Days {
        assert Get(r.data, k) == Get(st.data, k);
      }
    }
  }

  /** On a store in lock-step whose last row repeats an earlier name,
      `remove_attendee` as written drops a record that a remaining row still
      needs, so the invariant breaks; the by-name removal does not. */
  lemma RemoveLastRepeatedName(st: State)
    requires LockStep(st) && st.roster != []
    requires st.roster[|st.roster| - 1].name in Names(st.roster[..|st.roster| - 1])
    ensures RemoveLast(st).1 == Removed
    ensures exists i :: 0 <= i < |RemoveLast(st).0.roster| && RemoveLast(st).0.roster[i].name !in RemoveLast(st).0.data.entries
    ensures !LockStep(RemoveLast(st).0)
    ensures LockStep(RemoveLastByName(st))
  {
    var n := |st.roster|;
    var rest := st.roster[..n - 1];
    var last := st.roster[n - 1];
    assert last.name in st.data.entries;
    var popped := PopItem(st.data);
    var gone := st.data.order[|st.data.order| - 1];
    assert gone in Names(rest) by {
      assert gone in st.data.entries;
      assert Names(st.roster) == Names(rest) + [last.name];
    }
    var i :| 0 <= i < |rest| && Names(rest)[i] == gone;
    assert rest[i].name !in popped.entries;
    RemoveLastByNameLockStep(st);
  }

  /** `remove_attendee` right after adding a new name restores the store
      exactly and reports the removal. */
  lemma AddThenRemoveLast(st: State, name: string, email: Option<string>, sap: Option<string>)
    requires name != "" && Text(name) !in st.data.entries
    ensures RemoveLast(Add(st, Some(name), email, sap)) == (st, Removed)
  {
    var after := Add(st, Some(name), email, sap);
    PutPopItem(st.data, Text(name), Blank());
    assert after.roster[..|after.roster| - 1] == st.roster;
  }

  /** Clear keeps both invariants. */
  lemma ClearInvariants(st: State, confirmed: bool)
    requires LockStep(st)
    ensures LockStep(Clear(st, confirmed))
    ensures Aligned(st) ==> Aligned(Clear(st, confirmed))
  {
  }
}
