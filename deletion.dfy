/** `delete_student_by_roll`: remove a roll number from the store, looked up
    first as the text `str(roll_no)` and then as the integer `int(roll_no)`,
    and drop the student's rows from `attendance.xlsx`. */
module Deletion {
  import opened Wrappers
  import opened Seqs
  import opened Store
  import Text

  const RemovedNote: string := "\nRemoved from attendance.xlsx."
  const LockedNote: string := "\nERROR: Excel file is OPEN. Close it to update!"

  function WarningNote(error: string): string
  {
    "\nWarning: Excel update failed (" + error + ")."
  }

  function DeletedMessage(name: string, roll: Key): string
  {
    "Successfully deleted student: " + name + " (Roll No: " + KeyText(roll) + ")"
  }

  function IntKeyDeletedMessage(roll: Key): string
  {
    "Successfully deleted student (Roll No: " + KeyText(roll) + ") [Int Key]"
  }

  function NotFoundMessage(roll: Key): string
  {
    "Error: Roll number " + KeyText(roll) + " not found in database."
  }

  /** The key that is deleted: `str(roll_no)` when that is a key, otherwise
      `int(roll_no)` when it parses and is a key, otherwise none. */
  function DeleteTarget(db: Db, roll: Key): (r: Option<Key>)
    ensures r.Some? ==> r.value in Keys(db)
    ensures r.Some? ==> r.value == StrKey(KeyText(roll)) || (KeyInt(roll).Some? && r.value == IntKey(KeyInt(roll).value))
    ensures r.None? <==>
      StrKey(KeyText(roll)) !in Keys(db) && (KeyInt(roll).None? || IntKey(KeyInt(roll).value) !in Keys(db))
    ensures StrKey(KeyText(roll)) in Keys(db) ==> r == Some(StrKey(KeyText(roll)))
  {
    if StrKey(KeyText(roll)) in Keys(db) then Some(StrKey(KeyText(roll)))
    else
      match KeyInt(roll)
      case None => None
      case Some(n) => if IntKey(n) in Keys(db) then Some(IntKey(n)) else None
  }

  /** `str(x).split('.')[0] if pd.notnull(x) else ""` on a 'Roll No' cell. */
  function NormalRoll(row: Row): (r: string)
    ensures '.' !in r
    ensures row.roll.Some? ==> r <= row.roll.value
    ensures row.roll.Some? && |r| < |row.roll.value| ==> row.roll.value[|r|] == '.'
    ensures row.roll.None? ==> r == ""
  {
    match row.roll
    case None => ""
    case Some(s) => Text.BeforeDot(s)
  }

  /** A row as it is written back: its 'Roll No' cell normalised. */
  function Normalised(row: Row): Row
  {
    Row(Some(NormalRoll(row)), row.cells)
  }

  /** `df[df['Roll No'] != target]`, on the normalised frame. */
  function FilterRows(rows: seq<Row>, target: string): (r: seq<Row>)
    ensures |r| <= |rows|
    ensures forall i :: 0 <= i < |r| ==> r[i].roll.Some? && r[i].roll.value != target && '.' !in r[i].roll.value
  {
    if rows == [] then []
    else
      var last := rows[|rows| - 1];
      FilterRows(rows[..|rows| - 1], target) + (if NormalRoll(last) != target then [Normalised(last)] else [])
  }

  /** `target in df['Roll No'].values` after normalisation: some row's roll
      number normalises to the target. */
  predicate HasRoll(rows: seq<Row>, target: string)
  {
    exists row :: row in rows && NormalRoll(row) == target
  }

  /** Filtering keeps exactly the rows of other students, normalised. */
  lemma {:induction false} FilterRowsKeeps(rows: seq<Row>, target: string, row: Row)
    ensures row in FilterRows(rows, target) <==>
      exists old_row :: old_row in rows && NormalRoll(old_row) != target && row == Normalised(old_row)
  {
    if rows != [] {
      var init := rows[..|rows| - 1];
      var last := rows[|rows| - 1];
      assert rows == init + [last];
      FilterRowsKeeps(init, target, row);
    }
  }

  /** Rows are dropped exactly when some row normalises to the target. */
  lemma {:induction false} FilterRowsShrinks(rows: seq<Row>, target: string)
    ensures |FilterRows(rows, target)| < |rows| <==> HasRoll(rows, target)
  {
    if rows != [] {
      var init := rows[..|rows| - 1];
      var last := rows[|rows| - 1];
      assert rows == init + [last];
      FilterRowsShrinks(init, target);
      if HasRoll(rows, target) && !HasRoll(init, target) {
        var row :| row in rows && NormalRoll(row) == target;
        assert row == last;
      }
    }
  }

  /** The filter works row by row and keeps the order of the rows it keeps:
      filtering a concatenation concatenates the filtered parts. */
  lemma {:induction false} FilterRowsAppend(a: seq<Row>, b: seq<Row>, target: string)
    ensures FilterRows(a + b, target) == FilterRows(a, target) + FilterRows(b, target)
    decreases |b|
  {
    if b == [] {
      assert a + b == a;
    } else {
      var init := b[..|b| - 1];
      var last := b[|b| - 1];
      assert (a + b)[..|a + b| - 1] == a + init;
      assert (a + b)[|a + b| - 1] == last;
      FilterRowsAppend(a, init, target);
    }
  }

  /** Filtering a second time changes nothing. */
  lemma {:induction false} FilterRowsIdempotent(rows: seq<Row>, target: string)
    ensures FilterRows(FilterRows(rows, target), target) == FilterRows(rows, target)
  {
    if rows != [] {
      var init := rows[..|rows| - 1];
      var last := rows[|rows| - 1];
      FilterRowsIdempotent(init, target);
      var once := FilterRows(rows, target);
      if NormalRoll(last) != target {
        var n := Normalised(last);
        assert Text.BeforeDot(NormalRoll(last)) == NormalRoll(last) by {
          BeforeDotWithoutDot(NormalRoll(last));
        }
        assert once[..|once| - 1] == FilterRows(init, target);
        assert NormalRoll(n) == NormalRoll(last);
      } else {
        assert once == FilterRows(init, target);
      }
    }
  }

  lemma {:induction false} BeforeDotWithoutDot(s: string)
    requires '.' !in s
    ensures Text.BeforeDot(s) == s
  {
    if s != [] {
      assert '.' !in s[1..];
      BeforeDotWithoutDot(s[1..]);
    }
  }

  /** The spreadsheet step of the text-key branch: a missing file is left
      alone; an unreadable one gives a warning; otherwise, when some row
      holds the target, the other rows are written back, which may fail
      because the file is open or for another reason. */
  function PruneSheet(sheet: SheetFile, write: SheetWrite, target: string): (r: (SheetFile, string))
    ensures r.0 != sheet ==> sheet.Sheet? && write.Writable? && r.0 == Sheet(FilterRows(sheet.rows, target)) && r.1 == RemovedNote
    ensures sheet.Unreadable? ==> r == (sheet, WarningNote(sheet.error))
    ensures sheet.NoSheet? ==> r == (sheet, "")
    ensures sheet.Sheet? && !HasRoll(sheet.rows, target) ==> r == (sheet, "")
    ensures sheet.Sheet? && HasRoll(sheet.rows, target) ==>
      r == match write
           case Writable => (Sheet(FilterRows(sheet.rows, target)), RemovedNote)
           case Locked => (sheet, LockedNote)
           case WriteFails(e) => (sheet, WarningNote(e))
  {
    match sheet
    case NoSheet => (sheet, "")
    case Unreadable(e) => (sheet, WarningNote(e))
    case Sheet(rows) =>
      if HasRoll(rows, target) then
        match write
        case Writable => (Sheet(FilterRows(rows, target)), RemovedNote)
        case Locked => (sheet, LockedNote)
        case WriteFails(e) => (sheet, WarningNote(e))
      else (sheet, "")
  }

  /** The spreadsheet step of the integer-key branch: the same rule, with
      every failure passed over in silence; `removed` is `removed_excel`. */
  function QuietPruneSheet(sheet: SheetFile, write: SheetWrite, target: string): (r: (SheetFile, bool))
    ensures r.1 <==> sheet.Sheet? && write.Writable? && HasRoll(sheet.rows, target)
    ensures r.0 == if r.1 then Sheet(FilterRows(sheet.rows, target)) else sheet
  {
    match sheet
    case Sheet(rows) =>
      FilterRowsShrinks(rows, target);
      var kept := FilterRows(rows, target);
      if |kept| < |rows| && write.Writable? then (Sheet(kept), true) else (sheet, false)
    case _ => (sheet, false)
  }

  /** Both branches leave the spreadsheet in the same state; they differ only
      in what they report. */
  lemma PruneBranchesAgree(sheet: SheetFile, write: SheetWrite, target: string)
    ensures PruneSheet(sheet, write, target).0 == QuietPruneSheet(sheet, write, target).0
    ensures QuietPruneSheet(sheet, write, target).1 <==> PruneSheet(sheet, write, target).1 == RemovedNote
  {
    if sheet.Sheet? {
      FilterRowsShrinks(sheet.rows, target);
    }
  }

  /** The `(success, message)` pair together with the files the call leaves. */
  datatype Removal = Removal(ok: bool, message: string, db: Db, saved: bool, sheet: SheetFile)

  /** The whole call, from the store and spreadsheet as they are on disk. */
  function DeleteStudent(db: Db, sheet: SheetFile, write: SheetWrite, roll: Key): (r: Removal)
    ensures r.ok <==> DeleteTarget(db, roll).Some?
    ensures r.saved <==> r.ok
    ensures r.ok ==> r.db == Del(db, DeleteTarget(db, roll).value) && |r.db| == |db| - 1
    ensures !r.ok ==> r.db == db && r.sheet == sheet && r.message == NotFoundMessage(roll)
    ensures r.sheet != sheet ==>
      sheet.Sheet? && write.Writable? && r.sheet == Sheet(FilterRows(sheet.rows, Text.BeforeDot(KeyText(roll))))
    ensures r.ok && sheet.Sheet? && write.Writable? && HasRoll(sheet.rows, Text.BeforeDot(KeyText(roll))) ==>
      r.sheet == Sheet(FilterRows(sheet.rows, Text.BeforeDot(KeyText(roll))))
    ensures r.ok && DeleteTarget(db, roll).value.StrKey? ==>
      var target := Text.BeforeDot(KeyText(roll));
      r.message == DeletedMessage(Get(db, DeleteTarget(db, roll).value).value.name, roll) + PruneSheet(sheet, write, target).1
    ensures r.ok && DeleteTarget(db, roll).value.IntKey? ==>
      var removed := sheet.Sheet? && write.Writable? && HasRoll(sheet.rows, Text.BeforeDot(KeyText(roll)));
      r.message == IntKeyDeletedMessage(roll) + (if removed then RemovedNote else "")
  {
    var target := Text.BeforeDot(KeyText(roll));
    match DeleteTarget(db, roll)
    case None => Removal(false, NotFoundMessage(roll), db, false, sheet)
    case Some(k) =>
      var name := Get(db, k).value.name;
      if k.StrKey? then
        var (newSheet, note) := PruneSheet(sheet, write, target);
        Removal(true, DeletedMessage(name, roll) + note,
                Del(db, k), true, newSheet)
      else
        var (newSheet, removed) := QuietPruneSheet(sheet, write, target);
        Removal(true, IntKeyDeletedMessage(roll) + (if removed then RemovedNote else ""),
                Del(db, k), true, newSheet)
  }

  /** After a deletion the roll number is gone from the store, every other
      roll number keeps its record, and a written spreadsheet holds no row
      for it. */
  lemma DeletedStudentIsGone(db: Db, sheet: SheetFile, write: SheetWrite, roll: Key)
    requires DeleteTarget(db, roll).Some?
    ensures var r := DeleteStudent(db, sheet, write, roll);
      var k := DeleteTarget(db, roll).value;
      && k !in Keys(r.db)
      && (forall k' :: k' != k ==> Get(r.db, k') == Get(db, k'))
      && (r.sheet != sheet ==>
            forall i :: 0 <= i < |r.sheet.rows| ==> NormalRoll(r.sheet.rows[i]) != Text.BeforeDot(KeyText(roll)))
  {
    var r := DeleteStudent(db, sheet, write, roll);
    var k := DeleteTarget(db, roll).value;
    assert Get(r.db, k) == None;
    if r.sheet != sheet {
      forall i | 0 <= i < |r.sheet.rows|
        ensures NormalRoll(r.sheet.rows[i]) != Text.BeforeDot(KeyText(roll))
      {
        var row := r.sheet.rows[i];
        BeforeDotWithoutDot(row.roll.value);
        assert NormalRoll(row) == row.roll.value;
      }
    }
  }

  /** Deleting a student registered under a new roll number restores the
      store as it was before the registration. */
  lemma DeleteUndoesRegistration(db: Db, roll: string, rec: Record, sheet: SheetFile, write: SheetWrite)
    requires StrKey(roll) !in Keys(db)
    ensures DeleteStudent(Put(db, StrKey(roll), rec), sheet, write, StrKey(roll)).db == db
  {
    DelUndoesPut(db, StrKey(roll), rec);
  }

  /** The spreadsheet's roll numbers are compared up to the first '.', so
      deleting the text key "101.5" also drops the rows of roll number "101". */
  lemma DotRollPrunesPrefixRows(db: Db, rec: Record, cells: seq<string>)
    requires Keys(db) == [StrKey("101.5")]
    ensures var rows := [Row(Some("101"), cells)];
      DeleteStudent(db, Sheet(rows), Writable, StrKey("101.5")).sheet == Sheet([])
  {
    assert |db| == 1 && Keys(db)[0] == db[0].key;
    assert Text.BeforeDot("101.5") == "101";
    assert Text.BeforeDot("101") == "101";
    var rows := [Row(Some("101"), cells)];
    assert NormalRoll(rows[0]) == "101";
    assert rows[..0] == [];
  }

  /** The text-key branch's spreadsheet update, against the store. */
  method PruneStoredSheet(store: Storage, target: string) returns (note: string)
    modifies store
    ensures (store.sheet, note) == PruneSheet(old(store.sheet), old(store.sheetWrite), target)
    ensures store.db == old(store.db) && store.saves == old(store.saves) && store.sheetWrite == old(store.sheetWrite)
  {
    note := "";
    match store.sheet {
      case NoSheet =>
      case Unreadable(e) =>
        note := WarningNote(e);
      case Sheet(rows) =>
        if HasRoll(rows, target) {
          var outcome := store.WriteSheet(FilterRows(rows, target));
          match outcome {
            case Writable => note := RemovedNote;
            case Locked => note := LockedNote;
            case WriteFails(e) => note := WarningNote(e);
          }
        }
    }
  }

  /** The integer-key branch's spreadsheet update, against the store. */
  method QuietPruneStoredSheet(store: Storage, target: string) returns (removed: bool)
    modifies store
    ensures (store.sheet, removed) == QuietPruneSheet(old(store.sheet), old(store.sheetWrite), target)
    ensures store.db == old(store.db) && store.saves == old(store.saves) && store.sheetWrite == old(store.sheetWrite)
  {
    removed := false;
    if store.sheet.Sheet? {
      var rows := store.sheet.rows;
      var kept := FilterRows(rows, target);
      if |kept| < |rows| {
        var outcome := store.WriteSheet(kept);
        removed := outcome.Writable?;
      }
    }
  }

  /** `delete_student_by_roll` against the store. */
  method DeleteStudentByRoll(store: Storage, roll: Key) returns (ok: bool, msg: string)
    modifies store
    ensures var r := DeleteStudent(old(store.db), old(store.sheet), old(store.sheetWrite), roll);
      && ok == r.ok && msg == r.message && store.db == r.db && store.sheet == r.sheet
      && store.saves == old(store.saves) + (if r.saved then 1 else 0)
    ensures store.sheetWrite == old(store.sheetWrite)
  {
    var db := store.db;
    var target := Text.BeforeDot(KeyText(roll));
    if StrKey(KeyText(roll)) in Keys(db) {
      var k := StrKey(KeyText(roll));
      var name := Get(db, k).value.name;
      store.Save(Del(db, k));
      var note := PruneStoredSheet(store, target);
      return true, DeletedMessage(name, roll) + note;
    }
    var n := KeyInt(roll);
    if n.Some? && IntKey(n.value) in Keys(db) {
      store.Save(Del(db, IntKey(n.value)));
      var removed := QuietPruneStoredSheet(store, target);
      msg := IntKeyDeletedMessage(roll);
      if removed {
        msg := msg + RemovedNote;
      }
      return true, msg;
    }
    return false, NotFoundMessage(roll);
  }
}
