/** The enrolment store: the pickled dictionary `db` of `src/database.py`,
    mapping a roll number to `{'name': ..., 'encoding': ...}`, together with
    the files the core reads and writes. A Python dict keeps insertion order,
    so the model is an association list whose keys are distinct. */
module Store {
  import opened Wrappers
  import opened Seqs
  import Text

  /** A face embedding, as produced by the face collaborator. */
  type Encoding = seq<real>

  /** A roll number used as a dict key. Python keeps `"101"` and `101` apart,
      so the two forms are two different keys. */
  datatype Key = StrKey(s: string) | IntKey(n: int)

  /** `{'name': name, 'encoding': encoding}` */
  datatype Record = Record(name: string, encoding: Encoding)

  datatype Entry = Entry(key: Key, rec: Record)

  /** `list(db.keys())`, in insertion order. */
  function Keys(entries: seq<Entry>): seq<Key>
  {
    seq(|entries|, i requires 0 <= i < |entries| => entries[i].key)
  }

  /** A Python dict: entries in insertion order, no key twice. */
  type Db = entries: seq<Entry> | Distinct(Keys(entries)) witness []

  /** `str(k)`. */
  function KeyText(k: Key): string
  {
    match k
    case StrKey(s) => s
    case IntKey(n) => Text.IntToString(n)
  }

  /** `int(k)`, None where Python raises ValueError. */
  function KeyInt(k: Key): Option<int>
  {
    match k
    case StrKey(s) => Text.ParseInt(s)
    case IntKey(n) => Some(n)
  }

  /** `db.get(k)`. */
  function Get(db: Db, k: Key): (r: Option<Record>)
    ensures r.None? <==> k !in Keys(db)
    ensures forall i :: 0 <= i < |db| && db[i].key == k ==> r == Some(db[i].rec)
  {
    match IndexOf(Keys(db), k)
    case None =>
      assert forall j :: 0 <= j < |db| ==> Keys(db)[j] == db[j].key;
      None
    case Some(i) =>
      assert forall j :: 0 <= j < |db| && db[j].key == k ==> j == i by {
        forall j | 0 <= j < |db| && db[j].key == k ensures j == i {
          IndexOfDistinct(Keys(db), j);
        }
      }
      Some(db[i].rec)
  }

  /** `db[k] = rec`: an existing key keeps its place and gets the new record,
      a new key is appended; every other key keeps its record. */
  function Put(db: Db, k: Key, rec: Record): (d: Db)
    ensures Get(d, k) == Some(rec)
    ensures forall k' :: k' != k ==> Get(d, k') == Get(db, k')
    ensures Keys(d) == if k in Keys(db) then Keys(db) else Keys(db) + [k]
  {
    match IndexOf(Keys(db), k)
    case Some(i) =>
      var d := db[i := Entry(k, rec)];
      assert Keys(d) == Keys(db);
      d
    case None =>
      var d := db + [Entry(k, rec)];
      assert Keys(d) == Keys(db) + [k];
      assert Distinct(Keys(d));
      d
  }

  /** `del db[k]`: only k's entry goes, the others keep their records and order. */
  function Del(db: Db, k: Key): (d: Db)
    ensures Get(d, k) == None
    ensures forall k' :: k' != k ==> Get(d, k') == Get(db, k')
    ensures k !in Keys(db) ==> d == db
    ensures k in Keys(db) ==> (
      var i := IndexOf(Keys(db), k).value;
      |d| == |db| - 1 && Keys(d) == Keys(db)[..i] + Keys(db)[i + 1..])
  {
    match IndexOf(Keys(db), k)
    case None => db
    case Some(i) =>
      var d := db[..i] + db[i + 1..];
      assert Keys(d) == Keys(db)[..i] + Keys(db)[i + 1..];
      assert Distinct(Keys(d));
      forall k' | k' != k
        ensures Get(d, k') == Get(db, k')
      {
        if j :| 0 <= j < |d| && d[j].key == k' {
          var j' := if j < i then j else j + 1;
          assert d[j] == db[j'];
        } else {
          assert k' !in Keys(d);
          assert k' !in Keys(db) by {
            if j' :| 0 <= j' < |db| && db[j'].key == k' {
              assert j' != i;
              assert d[if j' < i then j' else j' - 1] == db[j'];
            }
          }
        }
      }
      d
  }

  /** Registering a roll number again overwrites: the earlier record leaves no trace. */
  lemma ReputOverwrites(db: Db, k: Key, first: Record, second: Record)
    ensures Put(Put(db, k, first), k, second) == Put(db, k, second)
  {
    match IndexOf(Keys(db), k)
    case Some(i) =>
      assert Keys(Put(db, k, first)) == Keys(db);
    case None =>
      var once := Put(db, k, first);
      assert Keys(once) == Keys(db) + [k];
      IndexOfDistinct(Keys(once), |db|);
  }

  /** Removing a roll number that was just added gives the store back as it was. */
  lemma DelUndoesPut(db: Db, k: Key, rec: Record)
    requires k !in Keys(db)
    ensures Del(Put(db, k, rec), k) == db
  {
    var once := Put(db, k, rec);
    assert Keys(once) == Keys(db) + [k];
    IndexOfDistinct(Keys(once), |db|);
    assert once == db + [Entry(k, rec)];
    assert once[..|db|] + once[|db| + 1..] == db;
  }

  /** One row of the attendance spreadsheet; `roll` is the text of the
      'Roll No' cell, None for an empty cell. */
  datatype Row = Row(roll: Option<string>, cells: seq<string>)

  /** `attendance.xlsx`: absent, present but unreadable, or a list of rows. */
  datatype SheetFile = NoSheet | Unreadable(error: string) | Sheet(rows: seq<Row>)

  /** What happens when `attendance.xlsx` is written: it is replaced, the
      write raises PermissionError because the file is held open elsewhere,
      or it raises another error. */
  datatype SheetWrite = Writable | Locked | WriteFails(error: string)

  /** The files behind `load_db`/`save_db` and the spreadsheet. */
  class Storage {
    /** `data/db.pkl`, as `load_db()` returns it. */
    var db: Db
    /** How many times `save_db` has rewritten `data/db.pkl`. */
    var saves: nat
    /** `attendance.xlsx`. */
    var sheet: SheetFile
    /** What writing `attendance.xlsx` does. */
    var sheetWrite: SheetWrite

    constructor (db: Db, sheet: SheetFile, sheetWrite: SheetWrite)
      ensures this.db == db && saves == 0 && this.sheet == sheet && this.sheetWrite == sheetWrite
    {
      this.db := db;
      saves := 0;
      this.sheet := sheet;
      this.sheetWrite := sheetWrite;
    }

    /** `save_db(db)`. */
    method Save(db: Db)
      modifies this
      ensures this.db == db && saves == old(saves) + 1
      ensures sheet == old(sheet) && sheetWrite == old(sheetWrite)
    {
      this.db := db;
      saves := saves + 1;
    }

    /** `df.to_excel('attendance.xlsx')`: the rows replace the file unless the
        write raises; `outcome` says which. */
    method WriteSheet(rows: seq<Row>) returns (outcome: SheetWrite)
      modifies this
      ensures outcome == sheetWrite
      ensures sheet == if sheetWrite.Writable? then Sheet(rows) else old(sheet)
      ensures db == old(db) && saves == old(saves) && sheetWrite == old(sheetWrite)
    {
      outcome := sheetWrite;
      if sheetWrite.Writable? {
        sheet := Sheet(rows);
      }
    }
  }
}
