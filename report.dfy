/** The text attendance report written by both attendance paths: a header,
    one row per enrolled roll number in dictionary order, and the totals. */
module Report {
  import opened Wrappers
  import opened Seqs
  import opened Store
  import Text

  /** Width of the `=` and `-` rules. */
  const RuleWidth: nat := 45

  /** Column widths of `{roll:<15} | {name:<20} | {status:<10}`. */
  const RollWidth: nat := 15
  const NameWidth: nat := 20
  const StatusWidth: nat := 10

  const AbsentText: string := "Absent"

  /** Title of a report written for a still photo. */
  const PhotoTitle: string := "Attendance Report"

  /** Title of the report written when a live session ends. */
  const LiveTitle: string := "Live Session Attendance Report"

  /** One table line, fields left-justified in their columns and never truncated. */
  function RowLine(roll: string, name: string, status: string): string
  {
    Text.PadRight(roll, RollWidth) + " | " + Text.PadRight(name, NameWidth) + " | " + Text.PadRight(status, StatusWidth)
  }

  /** The name printed for a roll number: looked up under `str(r_no)` first,
      then under `int(r_no)`, and "Unknown" when both lookups fail. */
  function RowName(db: Db, k: Key): string
  {
    match Get(db, StrKey(KeyText(k)))
    case Some(rec) => rec.name
    case None =>
      match KeyInt(k)
      case None => "Unknown"
      case Some(n) =>
        match Get(db, IntKey(n))
        case Some(rec) => rec.name
        case None => "Unknown"
  }

  /** An enrolled roll number is printed with its own name, unless it is an int
      key whose decimal text is also enrolled as a string key: then the name
      stored under the string key is printed. */
  lemma RowNameOfEnrolled(db: Db, k: Key)
    requires k in Keys(db)
    ensures k.StrKey? || StrKey(KeyText(k)) !in Keys(db) ==> RowName(db, k) == Get(db, k).value.name
    ensures k.IntKey? && StrKey(KeyText(k)) in Keys(db) ==> RowName(db, k) == Get(db, StrKey(KeyText(k))).value.name
    ensures RowName(db, k) != "Unknown" || exists i :: 0 <= i < |db| && db[i].rec.name == "Unknown"
  {
    var i :| 0 <= i < |db| && Keys(db)[i] == k;
    assert db[i].key == k;
    if k.StrKey? || StrKey(KeyText(k)) !in Keys(db) {
      assert Get(db, k) == Some(db[i].rec);
    } else {
      var j :| 0 <= j < |db| && Keys(db)[j] == StrKey(KeyText(k));
      assert db[j].key == StrKey(KeyText(k));
    }
  }

  /** The status column: the capture time when the roll number is present, else "Absent". */
  function Status(k: Key, present: set<Key>, time: string): string
  {
    if k in present then time else AbsentText
  }

  /** The status of every roll number, in roster order. */
  function Statuses(roster: seq<Key>, present: set<Key>, time: string): (r: seq<string>)
    ensures |r| == |roster|
    ensures forall i :: 0 <= i < |roster| ==> r[i] == Status(roster[i], present, time)
  {
    if roster == [] then []
    else Statuses(roster[..|roster| - 1], present, time) + [Status(roster[|roster| - 1], present, time)]
  }

  /** How many entries of s equal x. */
  function Occurrences(s: seq<string>, x: string): (n: nat)
    ensures n <= |s|
  {
    if s == [] then 0 else Occurrences(s[..|s| - 1], x) + (if s[|s| - 1] == x then 1 else 0)
  }

  lemma {:induction false} StatusCounts(roster: seq<Key>, present: set<Key>, time: string)
    requires time != AbsentText
    ensures Occurrences(Statuses(roster, present, time), time) == CountIn(roster, present)
    ensures Occurrences(Statuses(roster, present, time), AbsentText) == |roster| - CountIn(roster, present)
  {
    if roster != [] {
      var init := roster[..|roster| - 1];
      StatusCounts(init, present, time);
      assert Statuses(roster, present, time)[..|roster| - 1] == Statuses(init, present, time);
    }
  }

  /** The opening lines: title, date, rule, column header, rule. */
  function Header(title: string, date: string): seq<string>
  {
    [title, "Date: " + date, Text.Repeat('=', RuleWidth), RowLine("Roll No", "Name", "Status"), Text.Repeat('-', RuleWidth)]
  }

  /** The closing rule and the three totals. */
  function Footer(registered: int, presentCount: int): seq<string>
  {
    [Text.Repeat('=', RuleWidth),
     "Total Registered: " + Text.IntToString(registered),
     "Present: " + Text.IntToString(presentCount),
     "Absent: " + Text.IntToString(registered - presentCount)]
  }

  /** The rows: every enrolled roll number once, in dictionary order. */
  function Rows(db: Db, present: set<Key>, time: string): seq<string>
  {
    var statuses := Statuses(Keys(db), present, time);
    seq(|db|, i requires 0 <= i < |db| => RowLine(KeyText(db[i].key), RowName(db, db[i].key), statuses[i]))
  }

  /** The lines of a report file (each written followed by a newline).
      `present` decides the status column; `presentCount` is the number printed
      as "Present" (`len(...)` of the present list or the session set). */
  function AttendanceReport(title: string, date: string, time: string, db: Db, present: set<Key>, presentCount: nat): seq<string>
  {
    Header(title, date) + Rows(db, present, time) + Footer(|db|, presentCount)
  }

  /** Row i of the table is the i-th enrolled roll number, with its printed
      name and a status that is the time exactly when that roll is present. */
  lemma RowsFollowRoster(db: Db, present: set<Key>, time: string, i: nat)
    requires i < |db|
    ensures var rows := Rows(db, present, time);
      && |rows| == |db|
      && rows[i] == RowLine(KeyText(Keys(db)[i]), RowName(db, Keys(db)[i]),
                            if Keys(db)[i] in present then time else AbsentText)
  {
    assert Keys(db)[i] == db[i].key;
  }

  /** The report's layout: the five header lines, a row per enrolled roll
      number, then the closing rule and the totals. */
  lemma ReportLayout(title: string, date: string, time: string, db: Db, present: set<Key>, presentCount: nat)
    ensures var r := AttendanceReport(title, date, time, db, present, presentCount);
      && |r| == |db| + 9
      && r[..5] == Header(title, date)
      && r[5..|db| + 5] == Rows(db, present, time)
      && r[|db| + 5..] == Footer(|db|, presentCount)
  {
    var header := Header(title, date);
    var rows := Rows(db, present, time);
    var footer := Footer(|db|, presentCount);
    assert |rows| == |db|;
    var r := header + rows + footer;
    assert r[..5] == header;
    assert r[5..|db| + 5] == rows;
    assert r[|db| + 5..] == footer;
  }

  /** The header: the title, the date, two 45-character rules around the
      column titles, whose line is 51 characters wide. */
  lemma HeaderLayout(title: string, date: string)
    ensures var h := Header(title, date);
      && |h| == 5 && h[0] == title && h[1] == "Date: " + date
      && |h[2]| == RuleWidth && |h[4]| == RuleWidth
      && |h[3]| == RollWidth + NameWidth + StatusWidth + 6 == 51
  {
  }

  /** Reconciliation: when every present roll number is enrolled and the printed
      count is the size of the present set, the rows show exactly that many
      times, the printed Absent count is the number of "Absent" rows, and
      no more students are present than registered. */
  lemma ReportTotalsReconcile(db: Db, present: set<Key>, time: string)
    requires time != AbsentText
    requires forall k :: k in present ==> k in Keys(db)
    ensures var statuses := Statuses(Keys(db), present, time);
      && Occurrences(statuses, time) == |present|
      && Occurrences(statuses, AbsentText) == |db| - |present|
      && |present| <= |db|
  {
    StatusCounts(Keys(db), present, time);
    CountInCovered(Keys(db), present);
  }

  /** The totals lines read back as the numbers they were written from, and
      Present + Absent = Total Registered. */
  lemma TotalsReadBack(registered: int, presentCount: int)
    ensures var f := Footer(registered, presentCount);
      && |f| == 4 && |f[0]| == RuleWidth
      && f[1][..18] == "Total Registered: " && Text.ParseInt(f[1][18..]) == Some(registered)
      && f[2][..9] == "Present: " && Text.ParseInt(f[2][9..]) == Some(presentCount)
      && f[3][..8] == "Absent: " && Text.ParseInt(f[3][8..]) == Some(registered - presentCount)
  {
    var f := Footer(registered, presentCount);
    assert f[1][18..] == Text.IntToString(registered);
    assert f[2][9..] == Text.IntToString(presentCount);
    assert f[3][8..] == Text.IntToString(registered - presentCount);
    Text.ParseIntToString(registered);
    Text.ParseIntToString(presentCount);
    Text.ParseIntToString(registered - presentCount);
  }

  /** A present list without repetitions has as many elements as the set of
      its elements, so `len(present_roll_nos)` is the size of the present set. */
  lemma DistinctListSize(s: seq<Key>)
    requires Distinct(s)
    ensures |set k | k in s| == |s|
  {
    var p := set k | k in s;
    CountInCovered(s, p);
    CountInAll(s, p);
  }

  lemma {:induction false} CountInAll(s: seq<Key>, p: set<Key>)
    requires forall i :: 0 <= i < |s| ==> s[i] in p
    ensures CountIn(s, p) == |s|
  {
    if s != [] {
      CountInAll(s[..|s| - 1], p);
    }
  }
}
