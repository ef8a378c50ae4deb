/** `GET /download-all-students`: one worksheet per class, pivoting each
    roster student's attendance and score rows into one row with four
    cells per date. The three queries per class are oracles; ExcelJS is
    reduced to the column list and the row maps handed to it. */
module ReportExport {
  import opened Optional
  import opened JsValue
  import opened JsText
  import LexOrder

  // ---------------------------------------------------------------------------
  // Query rows
  // ---------------------------------------------------------------------------

  /** A `class_rosters` row. */
  datatype Student = Student(name: JsVal, phone: string, school: JsVal)

  /** An `attendance` row; `date` is the driver's date value as text. */
  datatype AttendanceRow = AttendanceRow(phone: string, date: string, status: JsVal)

  /** A `scores` row; `date` is `None` when the column is NULL. */
  datatype ScoreRow = ScoreRow(phone: string, round: JsVal, date: Option<string>,
                               testScore: JsVal, assignment1: JsVal, assignment2: JsVal)

  // ---------------------------------------------------------------------------
  // Date keys
  // ---------------------------------------------------------------------------

  /** `new Date(raw).toISOString().split('T')[0]`, with `toIso` standing
      for the date formatting: the formatted text up to its first `T`. */
  function DayOf(toIso: string -> string, raw: string): (day: string)
    ensures 'T' !in day
    ensures |day| <= |toIso(raw)| && toIso(raw)[..|day|] == day
    ensures |day| < |toIso(raw)| ==> toIso(raw)[|day|] == 'T'
  {
    SplitHead(toIso(raw), 'T');
    Split(toIso(raw), 'T')[0]
  }

  /** `s.date ?`: the date is truthy, so neither NULL nor empty text. */
  predicate Dated(row: ScoreRow) {
    row.date.Some? && row.date.value != ""
  }

  /** The record key of a score row: its day when the date is truthy,
      otherwise `(날짜없음-<round>회차)`. */
  function ScoreKey(toIso: string -> string, row: ScoreRow): (key: string)
    ensures Dated(row) ==> 'T' !in key
    ensures !Dated(row) ==> |key| > 0 && key[0] == '('
  {
    if Dated(row) then DayOf(toIso, row.date.value)
    else "(날짜없음-" + ToStr(row.round) + "회차)"
  }

  /** An empty date text is falsy like NULL: the row is keyed by its round,
      exactly as if the date were missing. */
  lemma EmptyDateIsUndated(toIso: string -> string, row: ScoreRow)
    requires row.date == Some("")
    ensures ScoreKey(toIso, row) == ScoreKey(toIso, row.(date := None))
    ensures ScoreKey(toIso, row) == "(날짜없음-" + ToStr(row.round) + "회차)"
  {
  }

  /** An undated score's key sorts before every key that starts with a
      digit, so undated columns come before the ISO-dated ones. */
  lemma UndatedKeysFirst(toIso: string -> string, row: ScoreRow, day: string)
    requires !Dated(row)
    requires |day| > 0 && '0' <= day[0] <= '9'
    ensures LexOrder.Less(ScoreKey(toIso, row), day)
  {
  }

  // ---------------------------------------------------------------------------
  // Grouping: studentDataMap
  // ---------------------------------------------------------------------------

  /** What `studentRecords.get(dateStr)` holds; a field never assigned is
      `Undefined`. */
  datatype Record = Record(attendance: JsVal, score: JsVal, assignment1: JsVal, assignment2: JsVal)

  const BlankRecord := Record(Undefined, Undefined, Undefined, Undefined)

  /** The field assignments one query row performs on its record. */
  datatype Change =
    | MarkAttendance(status: JsVal)
    | MarkScore(score: JsVal, assignment1: JsVal, assignment2: JsVal)

  /** One row of either query, reduced to its phone, its record key and
      its assignments. */
  datatype Update = Update(phone: string, key: string, change: Change)

  /** Per roster phone, its records keyed by date. */
  type Records = map<string, Record>
  type StudentData = map<string, Records>

  function AttendanceUpdates(toIso: string -> string, rows: seq<AttendanceRow>): (us: seq<Update>)
    ensures |us| == |rows|
    ensures forall i :: 0 <= i < |rows| ==>
              us[i] == Update(rows[i].phone, DayOf(toIso, rows[i].date), MarkAttendance(rows[i].status))
  {
    if |rows| == 0 then []
    else [Update(rows[0].phone, DayOf(toIso, rows[0].date), MarkAttendance(rows[0].status))]
         + AttendanceUpdates(toIso, rows[1..])
  }

  function ScoreUpdates(toIso: string -> string, rows: seq<ScoreRow>): (us: seq<Update>)
    ensures |us| == |rows|
    ensures forall i :: 0 <= i < |rows| ==>
              us[i] == Update(rows[i].phone, ScoreKey(toIso, rows[i]),
                              MarkScore(rows[i].testScore, rows[i].assignment1, rows[i].assignment2))
  {
    if |rows| == 0 then []
    else [Update(rows[0].phone, ScoreKey(toIso, rows[0]),
                 MarkScore(rows[0].testScore, rows[0].assignment1, rows[0].assignment2))]
         + ScoreUpdates(toIso, rows[1..])
  }

  function Touch(rec: Record, change: Change): Record {
    match change
    case MarkAttendance(status) => rec.(attendance := status)
    case MarkScore(score, a1, a2) => rec.(score := score, assignment1 := a1, assignment2 := a2)
  }

  /** One `forEach` step: a row whose phone is on the roster creates its
      record if needed and assigns its fields; any other row is ignored. */
  function Apply(data: StudentData, u: Update): StudentData {
    if u.phone in data then
      var recs := data[u.phone];
      var rec := if u.key in recs then recs[u.key] else BlankRecord;
      data[u.phone := recs[u.key := Touch(rec, u.change)]]
    else data
  }

  function Phones(students: seq<Student>): set<string> {
    set s | s in students :: s.phone
  }

  /** The phones of the roster, each with no records yet. */
  function EmptyData(students: seq<Student>): (data: StudentData)
    ensures forall p :: p in data <==> exists i :: 0 <= i < |students| && students[i].phone == p
    ensures forall p :: p in data ==> data[p] == map[]
  {
    map p | p in Phones(students) :: map[]
  }

  /** The rows applied in order, as the two `forEach` loops do. */
  function Group(start: StudentData, us: seq<Update>): (data: StudentData)
    ensures data.Keys == start.Keys
  {
    if |us| == 0 then start else Apply(Group(start, us[..|us| - 1]), us[|us| - 1])
  }

  /** Some row in `us` is for phone `p` and key `k`. */
  predicate Touches(us: seq<Update>, p: string, k: string) {
    exists i :: 0 <= i < |us| && us[i].phone == p && us[i].key == k
  }

  /** The status of the last attendance row for `p` and `k`. */
  function LastAttendance(us: seq<Update>, p: string, k: string): JsVal {
    if |us| == 0 then Undefined
    else
      var u := us[|us| - 1];
      if u.phone == p && u.key == k && u.change.MarkAttendance? then u.change.status
      else LastAttendance(us[..|us| - 1], p, k)
  }

  /** The last score row for `p` and `k`, if any. */
  function LastScore(us: seq<Update>, p: string, k: string): (c: Option<Change>)
    ensures c.Some? ==> c.value.MarkScore?
  {
    if |us| == 0 then None
    else
      var u := us[|us| - 1];
      if u.phone == p && u.key == k && u.change.MarkScore? then Some(u.change)
      else LastScore(us[..|us| - 1], p, k)
  }

  /** The record the rows for `p` and `k` should leave: the last
      attendance status and the last score row's three fields, each
      `Undefined` when no such row exists. */
  function ExpectedRecord(us: seq<Update>, p: string, k: string): Record {
    var s := LastScore(us, p, k);
    Record(LastAttendance(us, p, k),
           if s.Some? then s.value.score else Undefined,
           if s.Some? then s.value.assignment1 else Undefined,
           if s.Some? then s.value.assignment2 else Undefined)
  }

  /** Grouping keeps one record per roster phone and key that some row
      touches, and that record holds, field by field, what the last row
      assigning that field wrote. */
  lemma {:induction false} GroupRecords(start: StudentData, us: seq<Update>, p: string, k: string)
    requires p in start && start[p] == map[]
    ensures k in Group(start, us)[p] <==> Touches(us, p, k)
    ensures k in Group(start, us)[p] ==> Group(start, us)[p][k] == ExpectedRecord(us, p, k)
  {
    if |us| > 0 {
      var init := us[..|us| - 1];
      var u := us[|us| - 1];
      GroupRecords(start, init, p, k);
      if Touches(init, p, k) {
        var i :| 0 <= i < |init| && init[i].phone == p && init[i].key == k;
        assert us[i] == init[i];
      } else {
        UntouchedIsBlank(init, p, k);
      }
    }
  }

  /** With no row for `p` and `k`, the expected record is blank. */
  lemma {:induction false} UntouchedIsBlank(us: seq<Update>, p: string, k: string)
    requires !Touches(us, p, k)
    ensures ExpectedRecord(us, p, k) == BlankRecord
  {
    if |us| > 0 {
      var init := us[..|us| - 1];
      assert forall i :: 0 <= i < |init| ==> init[i] == us[i];
      UntouchedIsBlank(init, p, k);
    }
  }

  lemma {:induction false} LastAttendanceAfterScores(a: seq<Update>, s: seq<Update>, p: string, k: string)
    requires forall i :: 0 <= i < |s| ==> s[i].change.MarkScore?
    ensures LastAttendance(a + s, p, k) == LastAttendance(a, p, k)
  {
    if |s| > 0 {
      LastAttendanceAfterScores(a, s[..|s| - 1], p, k);
      assert (a + s)[..|a + s| - 1] == a + s[..|s| - 1];
    } else {
      assert a + s == a;
    }
  }

  lemma {:induction false} LastScoreAfterScores(a: seq<Update>, s: seq<Update>, p: string, k: string)
    requires forall i :: 0 <= i < |a| ==> a[i].change.MarkAttendance?
    ensures LastScore(a + s, p, k) == LastScore(s, p, k)
  {
    if |s| > 0 {
      LastScoreAfterScores(a, s[..|s| - 1], p, k);
      assert (a + s)[..|a + s| - 1] == a + s[..|s| - 1];
    } else {
      assert a + s == a;
      LastScoreOfAttendance(a, p, k);
    }
  }

  lemma {:induction false} LastScoreOfAttendance(a: seq<Update>, p: string, k: string)
    requires forall i :: 0 <= i < |a| ==> a[i].change.MarkAttendance?
    ensures LastScore(a, p, k) == None
  {
    if |a| > 0 {
      LastScoreOfAttendance(a[..|a| - 1], p, k);
    }
  }

  /** The attendance rows and score rows for one phone and key merge into
      one record: its attendance from the last attendance row, its score
      fields from the last score row. */
  lemma RecordsMerge(toIso: string -> string, attendance: seq<AttendanceRow>, scores: seq<ScoreRow>,
                     p: string, k: string)
    ensures var a := AttendanceUpdates(toIso, attendance);
            var s := ScoreUpdates(toIso, scores);
            && ExpectedRecord(a + s, p, k).attendance == LastAttendance(a, p, k)
            && LastScore(a + s, p, k) == LastScore(s, p, k)
  {
    var a := AttendanceUpdates(toIso, attendance);
    var s := ScoreUpdates(toIso, scores);
    LastAttendanceAfterScores(a, s, p, k);
    LastScoreAfterScores(a, s, p, k);
  }

  // ---------------------------------------------------------------------------
  // Date headers
  // ---------------------------------------------------------------------------

  /** Every key some student's records hold. */
  function RecordKeys(data: StudentData): set<string> {
    set p, k | p in data && k in data[p] :: k
  }

  /** The keys of the rows that reach a roster phone, in row order. */
  function CollectedKeys(data: StudentData, us: seq<Update>): (ks: seq<string>)
    ensures forall k :: k in ks <==> exists i :: 0 <= i < |us| && us[i].phone in data && us[i].key == k
  {
    if |us| == 0 then []
    else
      var rest := CollectedKeys(data, us[1..]);
      assert forall i :: 1 <= i < |us| ==> us[i] == us[1..][i - 1];
      (if us[0].phone in data then [us[0].key] else []) + rest
  }

  /** `Array.from(dateHeaders).sort()`. JavaScript collects the keys
      student by student; since a strictly sorted list is fixed by its
      elements (`LexOrder.SortDistinctIgnoresOrder`), collecting them in
      row order gives the same headers. */
  function DateHeaders(start: StudentData, us: seq<Update>): seq<string> {
    LexOrder.SortDistinct(CollectedKeys(start, us))
  }

  /** The headers are exactly the distinct record keys of all students,
      ascending. */
  lemma HeadersAreRecordKeys(start: StudentData, us: seq<Update>)
    requires forall p :: p in start ==> start[p] == map[]
    ensures LexOrder.StrictlySorted(DateHeaders(start, us))
    ensures forall k :: k in DateHeaders(start, us) <==> k in RecordKeys(Group(start, us))
  {
    var data := Group(start, us);
    forall k
      ensures k in DateHeaders(start, us) <==> k in RecordKeys(data)
    {
      if k in DateHeaders(start, us) {
        var i :| 0 <= i < |us| && us[i].phone in start && us[i].key == k;
        var p := us[i].phone;
        GroupRecords(start, us, p, k);
        assert k in data[p];
      }
      if k in RecordKeys(data) {
        var p :| p in data && k in data[p];
        GroupRecords(start, us, p, k);
        var i :| 0 <= i < |us| && us[i].phone == p && us[i].key == k;
        assert us[i].phone in start;
      }
    }
  }

  // ---------------------------------------------------------------------------
  // Columns
  // ---------------------------------------------------------------------------

  datatype Column = Column(header: string, key: string, width: nat)

  const FixedColumns := [Column("이름", "name", 15), Column("전화번호", "phone", 20), Column("학교", "school", 20)]

  function AttKey(date: string): string { "att_" + date }
  function ScrKey(date: string): string { "scr_" + date }
  function Asg1Key(date: string): string { "asg1_" + date }
  function Asg2Key(date: string): string { "asg2_" + date }

  /** The four columns pushed for one date. */
  function DateColumns(date: string): seq<Column> {
    [ Column(date + " (출결)", AttKey(date), 12),
      Column(date + " (점수)", ScrKey(date), 12),
      Column(date + " (과제1)", Asg1Key(date), 12),
      Column(date + " (과제2)", Asg2Key(date), 12) ]
  }

  lemma DateColumnKeys(date: string)
    ensures DateColumns(date)[0].key == AttKey(date) && DateColumns(date)[1].key == ScrKey(date)
    ensures DateColumns(date)[2].key == Asg1Key(date) && DateColumns(date)[3].key == Asg2Key(date)
  {
  }

  /** The four date columns of every date, in date order. */
  function AllDateColumns(dates: seq<string>): (cs: seq<Column>)
    ensures |cs| == 4 * |dates|
    ensures forall i :: 0 <= i < |dates| ==> cs[4 * i..4 * i + 4] == DateColumns(dates[i])
  {
    if |dates| == 0 then []
    else
      var rest := AllDateColumns(dates[1..]);
      var cs := DateColumns(dates[0]) + rest;
      forall i | 1 <= i < |dates|
        ensures cs[4 * i..4 * i + 4] == DateColumns(dates[i])
      {
        assert cs[4 * i..4 * i + 4] == rest[4 * (i - 1)..4 * (i - 1) + 4];
      }
      cs
  }

  /** `worksheet.columns`: name, phone and school, then for each date its
      attendance, score, first and second assignment columns. */
  function SheetColumns(dates: seq<string>): (cs: seq<Column>)
    ensures |cs| == 3 + 4 * |dates|
    ensures cs[..3] == FixedColumns
    ensures forall i :: 0 <= i < |dates| ==> cs[3 + 4 * i..7 + 4 * i] == DateColumns(dates[i])
  {
    var cs := FixedColumns + AllDateColumns(dates);
    forall i | 0 <= i < |dates|
      ensures cs[3 + 4 * i..7 + 4 * i] == DateColumns(dates[i])
    {
      assert cs[3 + 4 * i..7 + 4 * i] == AllDateColumns(dates)[4 * i..4 * i + 4];
    }
    cs
  }

  // ---------------------------------------------------------------------------
  // Rows
  // ---------------------------------------------------------------------------

  type Row = map<string, JsVal>

  /** `data.records.get(date) || {}`. */
  function RecordAt(recs: Records, date: string): Record {
    if date in recs then recs[date] else BlankRecord
  }

  /** The prefixes keep cell keys apart: the keys of different dates
      differ, the four keys of one date differ, and none is a fixed key. */
  lemma CellKeysDistinct(d: string, e: string)
    ensures AttKey(d) != ScrKey(e) && AttKey(d) != Asg1Key(e) && AttKey(d) != Asg2Key(e)
    ensures ScrKey(d) != Asg1Key(e) && ScrKey(d) != Asg2Key(e) && Asg1Key(d) != Asg2Key(e)
    ensures d != e ==> AttKey(d) != AttKey(e) && ScrKey(d) != ScrKey(e)
                       && Asg1Key(d) != Asg1Key(e) && Asg2Key(d) != Asg2Key(e)
    ensures "name" != AttKey(d) && "name" != ScrKey(d) && "name" != Asg1Key(d) && "name" != Asg2Key(d)
    ensures "phone" != AttKey(d) && "phone" != ScrKey(d) && "phone" != Asg1Key(d) && "phone" != Asg2Key(d)
    ensures "school" != AttKey(d) && "school" != ScrKey(d) && "school" != Asg1Key(d) && "school" != Asg2Key(d)
  {
    assert AttKey(d)[0] == 'a' && ScrKey(e)[0] == 's';
    assert Asg1Key(e)[1] == 's' && AttKey(d)[1] == 't';
    assert ScrKey(d)[1] == 'c' && Asg1Key(e)[1] == 's';
    assert Asg1Key(d)[3] == '1' && Asg2Key(e)[3] == '2';
    assert AttKey(d)[4..] == d && AttKey(e)[4..] == e;
    assert ScrKey(d)[4..] == d && ScrKey(e)[4..] == e;
    assert Asg1Key(d)[5..] == d && Asg1Key(e)[5..] == e;
    assert Asg2Key(d)[5..] == d && Asg2Key(e)[5..] == e;
    assert "school"[2] == 'h' && ScrKey(d)[2] == 'r';
    assert "name"[0] == 'n' && "phone"[0] == 'p';
  }

  /** The four cells of one date. */
  function WithDateCells(row: Row, date: string, rec: Record): Row {
    row[AttKey(date) := Or(rec.attendance, Str("-"))]
       [ScrKey(date) := Coalesce(rec.score, Str("-"))]
       [Asg1Key(date) := Or(rec.assignment1, Str("-"))]
       [Asg2Key(date) := Or(rec.assignment2, Str("-"))]
  }

  /** The cells of `row` for `date` are the record's values, each falsy
      one shown as `-`, except the score, shown as `-` only when null or
      undefined. */
  predicate CellsFor(row: Row, date: string, rec: Record) {
    && AttKey(date) in row && row[AttKey(date)] == Or(rec.attendance, Str("-"))
    && ScrKey(date) in row && row[ScrKey(date)] == Coalesce(rec.score, Str("-"))
    && Asg1Key(date) in row && row[Asg1Key(date)] == Or(rec.assignment1, Str("-"))
    && Asg2Key(date) in row && row[Asg2Key(date)] == Or(rec.assignment2, Str("-"))
  }

  lemma NewCells(row: Row, d: string, rec: Record)
    ensures CellsFor(WithDateCells(row, d, rec), d, rec)
  {
    CellKeysDistinct(d, d);
  }

  lemma OtherCellsKept(row: Row, d: string, rec: Record, e: string, other: Record)
    requires e != d && CellsFor(row, e, other)
    ensures CellsFor(WithDateCells(row, d, rec), e, other)
  {
    CellKeysDistinct(d, e);
    CellKeysDistinct(e, d);
  }

  lemma FixedCellsKept(row: Row, d: string, rec: Record)
    requires "name" in row && "phone" in row && "school" in row
    ensures var after := WithDateCells(row, d, rec);
            && "name" in after && after["name"] == row["name"]
            && "phone" in after && after["phone"] == row["phone"]
            && "school" in after && after["school"] == row["school"]
  {
    CellKeysDistinct(d, d);
  }

  /** The row added for student `s`: the fixed cells, then the cells of
      every date, filled from the student's records. */
  function StudentRow(s: Student, recs: Records, dates: seq<string>): (row: Row)
    ensures "name" in row && row["name"] == s.name
    ensures "phone" in row && row["phone"] == Str(s.phone)
    ensures "school" in row && row["school"] == s.school
    ensures forall d :: d in dates ==> CellsFor(row, d, RecordAt(recs, d))
  {
    if |dates| == 0 then map["name" := s.name, "phone" := Str(s.phone), "school" := s.school]
    else
      var d := dates[|dates| - 1];
      var before := StudentRow(s, recs, dates[..|dates| - 1]);
      var row := WithDateCells(before, d, RecordAt(recs, d));
      FixedCellsKept(before, d, RecordAt(recs, d));
      forall e | e in dates
        ensures CellsFor(row, e, RecordAt(recs, e))
      {
        if e == d {
          NewCells(before, d, RecordAt(recs, d));
        } else {
          assert e in dates[..|dates| - 1];
          OtherCellsKept(before, d, RecordAt(recs, d), e, RecordAt(recs, e));
        }
      }
      row
  }

  /** A roster student's row has a value under every column key. */
  lemma RowCoversColumns(s: Student, recs: Records, dates: seq<string>)
    ensures forall c :: c in SheetColumns(dates) ==> c.key in StudentRow(s, recs, dates)
  {
    var cs := SheetColumns(dates);
    forall c | c in cs
      ensures c.key in StudentRow(s, recs, dates)
    {
      var n :| 0 <= n < |cs| && cs[n] == c;
      ColumnKeyInRow(s, recs, dates, n);
    }
  }

  lemma ColumnKeyInRow(s: Student, recs: Records, dates: seq<string>, n: nat)
    requires n < 3 + 4 * |dates|
    ensures SheetColumns(dates)[n].key in StudentRow(s, recs, dates)
  {
    if n < 3 {
      FixedKeyInRow(s, recs, dates, n);
    } else {
      var i := DatePosition(n, |dates|);
      DateKeyInRow(s, recs, dates, i, n - (3 + 4 * i));
    }
  }

  lemma FixedKeyInRow(s: Student, recs: Records, dates: seq<string>, n: nat)
    requires n < 3
    ensures SheetColumns(dates)[n].key in StudentRow(s, recs, dates)
  {
    var cs := SheetColumns(dates);
    assert cs[n] == cs[..3][n] == FixedColumns[n];
    assert cs[n].key == "name" || cs[n].key == "phone" || cs[n].key == "school";
  }

  lemma DateKeyInRow(s: Student, recs: Records, dates: seq<string>, i: nat, j: nat)
    requires i < |dates| && j < 4
    ensures SheetColumns(dates)[3 + 4 * i + j].key in StudentRow(s, recs, dates)
  {
    var cs := SheetColumns(dates);
    var row := StudentRow(s, recs, dates);
    var d := dates[i];
    assert d in dates;
    assert CellsFor(row, d, RecordAt(recs, d));
    var key := cs[3 + 4 * i + j].key;
    assert cs[3 + 4 * i + j] == cs[3 + 4 * i..7 + 4 * i][j] == DateColumns(d)[j];
    DateColumnKeys(d);
    if j == 0 {
      assert key == AttKey(d);
    } else if j == 1 {
      assert key == ScrKey(d);
    } else if j == 2 {
      assert key == Asg1Key(d);
    } else {
      assert key == Asg2Key(d);
    }
  }

  /** Column `n` past the fixed three belongs to date `i`. */
  lemma DatePosition(n: int, count: nat) returns (i: nat)
    requires 3 <= n < 3 + 4 * count
    ensures i < count && 3 + 4 * i <= n < 7 + 4 * i
  {
    i := (n - 3) / 4;
  }

  // ---------------------------------------------------------------------------
  // Sheets and the workbook
  // ---------------------------------------------------------------------------

  datatype Sheet = Sheet(name: string, columns: seq<Column>, rows: seq<Row>)

  /** One row per roster student, in roster order. */
  function StudentRows(students: seq<Student>, data: StudentData, dates: seq<string>): (rows: seq<Row>)
    requires forall i :: 0 <= i < |students| ==> students[i].phone in data
    ensures |rows| == |students|
    ensures forall i :: 0 <= i < |students| ==> rows[i] == StudentRow(students[i], data[students[i].phone], dates)
  {
    if |students| == 0 then []
    else [StudentRow(students[0], data[students[0].phone], dates)] + StudentRows(students[1..], data, dates)
  }

  /** The sheet of one class from its three query answers. */
  function ClassSheet(toIso: string -> string, className: string, students: seq<Student>,
                      attendance: seq<AttendanceRow>, scores: seq<ScoreRow>): (sheet: Sheet)
    ensures sheet.name == className && |sheet.rows| == |students|
  {
    var start := EmptyData(students);
    var us := AttendanceUpdates(toIso, attendance) + ScoreUpdates(toIso, scores);
    var data := Group(start, us);
    var dates := DateHeaders(start, us);
    assert forall i :: 0 <= i < |students| ==> students[i].phone in data;
    Sheet(className, SheetColumns(dates), StudentRows(students, data, dates))
  }

  /** Each row of a class sheet is its student's, and each of its date
      cells shows the record grouping built for that student's phone. */
  lemma ClassSheetRows(toIso: string -> string, className: string, students: seq<Student>,
                       attendance: seq<AttendanceRow>, scores: seq<ScoreRow>, i: int, k: string)
    requires 0 <= i < |students|
    ensures var us := AttendanceUpdates(toIso, attendance) + ScoreUpdates(toIso, scores);
            var start := EmptyData(students);
            var row := ClassSheet(toIso, className, students, attendance, scores).rows[i];
            && row["name"] == students[i].name
            && (k in DateHeaders(start, us) ==>
                  CellsFor(row, k, if Touches(us, students[i].phone, k)
                                   then ExpectedRecord(us, students[i].phone, k) else BlankRecord))
  {
    var us := AttendanceUpdates(toIso, attendance) + ScoreUpdates(toIso, scores);
    var start := EmptyData(students);
    assert students[i].phone in start;
    GroupRecords(start, us, students[i].phone, k);
  }

  /** The queries of the export, per class; `None` is a thrown error. */
  datatype ExportEnv = ExportEnv(
    classes: Option<seq<string>>,
    students: string -> Option<seq<Student>>,
    attendance: string -> Option<seq<AttendanceRow>>,
    scores: string -> Option<seq<ScoreRow>>,
    toIso: string -> string)

  datatype ExportReply = NoClasses | Workbook(sheets: seq<Sheet>) | ExportFailed

  function ExportStatus(reply: ExportReply): int {
    match reply
    case NoClasses => 404
    case Workbook(_) => 200
    case ExportFailed => 500
  }

  /** One class's sheet, or `None` when one of its queries fails. */
  function ClassResult(env: ExportEnv, c: string): (r: Option<Sheet>)
    ensures r.Some? <==> env.students(c).Some? && env.attendance(c).Some? && env.scores(c).Some?
    ensures r.Some? ==> r.value.name == c && |r.value.rows| == |env.students(c).value|
  {
    var students := env.students(c);
    var attendance := env.attendance(c);
    var scores := env.scores(c);
    if students.None? || attendance.None? || scores.None? then None
    else Some(ClassSheet(env.toIso, c, students.value, attendance.value, scores.value))
  }

  /** The class loop: `f` applied to each class in order, or a failure
      as soon as one application fails. */
  function ForEachClass<T>(f: string -> Option<T>, classes: seq<string>): (r: Option<seq<T>>)
    ensures r.Some? <==> forall i :: 0 <= i < |classes| ==> f(classes[i]).Some?
    ensures r.Some? ==>
              && |r.value| == |classes|
              && forall i :: 0 <= i < |classes| ==> f(classes[i]).Some? && r.value[i] == f(classes[i]).value
  {
    if |classes| == 0 then Some([])
    else
      var head := f(classes[0]);
      var rest := ForEachClass(f, classes[1..]);
      assert forall i :: 1 <= i < |classes| ==> classes[i] == classes[1..][i - 1];
      if head.None? || rest.None? then None
      else Some([head.value] + rest.value)
  }

  /** The handler: 404 with no classes, 500 when a query fails, else the
      workbook holding one sheet per class, named after it, in class
      order. */
  function Export(env: ExportEnv): (reply: ExportReply)
    ensures ExportStatus(reply) == 404 <==> env.classes.Some? && |env.classes.value| == 0
    ensures ExportStatus(reply) == 500 <==>
              || env.classes.None?
              || exists i :: 0 <= i < |env.classes.value| && ClassResult(env, env.classes.value[i]).None?
    ensures reply.Workbook? ==>
              && |reply.sheets| == |env.classes.value|
              && forall i :: 0 <= i < |reply.sheets| ==> reply.sheets[i].name == env.classes.value[i]
  {
    if env.classes.None? then ExportFailed
    else if |env.classes.value| == 0 then NoClasses
    else
      var sheets := ForEachClass(c => ClassResult(env, c), env.classes.value);
      if sheets.None? then ExportFailed else Workbook(sheets.value)
  }
}
