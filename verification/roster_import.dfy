/** `POST /upload-roster`: every sheet of an uploaded workbook registers a
    class named after the sheet and adds the sheet's valid students to
    that class's roster, all in one transaction. The workbook arrives
    already parsed; the two INSERT IGNORE statements are modelled on an
    abstract table whose unique key is given as a clash relation. */
module RosterImport {
  import opened Optional
  import opened JsValue
  import opened JsText
  import JsNumber

  // ---------------------------------------------------------------------------
  // The upload and the tables
  // ---------------------------------------------------------------------------

  /** The cells `sheet_to_json` gives for one spreadsheet row under the
      headers `이름`, `전화번호` and `학교`; a blank cell is `""` and a
      missing column is `Undefined`. */
  datatype Cells = Cells(name: JsVal, phone: JsVal, school: JsVal)

  datatype Sheet = Sheet(name: string, students: seq<Cells>)

  /** No file in the request, a file `xlsx.read` throws on (with the
      error's message), or the workbook's sheets in `SheetNames` order. */
  datatype Upload = NoFile | Unreadable(message: JsVal) | Workbook(sheets: seq<Sheet>)

  /** A `class_rosters` row as bound to the insert's placeholders. */
  datatype RosterRow = RosterRow(className: string, studentName: JsVal, phone: string, school: JsVal)

  datatype Db = Db(classes: set<string>, rosters: seq<RosterRow>)

  /** The statements the handler sends, in order. */
  datatype Statement = Begin | InsertClass(sheet: nat) | InsertRosters(sheet: nat) | Commit

  datatype ImportReply =
    | MissingFile                                                       // 400
    | Imported(message: string, totalCount: int, addedCount: int, skippedCount: int)  // 200
    | ImportFailed(error: JsVal)                                        // 500

  function ImportStatus(reply: ImportReply): int {
    match reply
    case MissingFile => 400
    case Imported(_, _, _, _) => 200
    case ImportFailed(_) => 500
  }

  const DefaultError := "파일 처리 중 오류가 발생했습니다. 엑셀 양식을 확인해주세요."

  /** `총 <n>개 시트 처리 완료.` */
  function DoneMessage(sheets: nat): string {
    "총 " + JsNumber.ShowNat(sheets) + "개 시트 처리 완료."
  }

  // ---------------------------------------------------------------------------
  // One sheet
  // ---------------------------------------------------------------------------

  /** A row counts as a student when its name and phone cells are truthy. */
  predicate IsValid(c: Cells) {
    Truthy(c.name) && Truthy(c.phone)
  }

  /** `students.filter(...)`: the valid rows, in sheet order, each as
      often as the sheet holds it. */
  function ValidStudents(cs: seq<Cells>): (vs: seq<Cells>)
    ensures |vs| <= |cs|
    ensures forall c :: c in vs <==> c in cs && IsValid(c)
  {
    if |cs| == 0 then []
    else (if IsValid(cs[0]) then [cs[0]] else []) + ValidStudents(cs[1..])
  }

  /** The filter drops no duplicate: a valid row appears as often as in
      the sheet, which is what `totalCount` counts. */
  lemma {:induction false} ValidStudentsCount(cs: seq<Cells>, c: Cells)
    ensures multiset(ValidStudents(cs))[c] == if IsValid(c) then multiset(cs)[c] else 0
  {
    if |cs| > 0 {
      ValidStudentsCount(cs[1..], c);
      assert cs == [cs[0]] + cs[1..];
      assert multiset(cs) == multiset{cs[0]} + multiset(cs[1..]);
    }
  }

  /** The filter keeps order across a split of the sheet: the valid rows
      of `a + b` are those of `a` followed by those of `b`. */
  lemma {:induction false} ValidStudentsConcat(a: seq<Cells>, b: seq<Cells>)
    ensures ValidStudents(a + b) == ValidStudents(a) + ValidStudents(b)
  {
    if |a| == 0 {
      assert a + b == b;
    } else {
      assert (a + b)[0] == a[0] && (a + b)[1..] == a[1..] + b;
      ValidStudentsConcat(a[1..], b);
    }
  }

  /** The value row of one student: the sheet name, the name cell, the
      phone cell as text with surrounding whitespace removed, and the
      school cell or `''`. */
  function ValueRow(sheetName: string, c: Cells): RosterRow {
    RosterRow(sheetName, c.name, Trim(ToStr(c.phone)), Or(c.school, Str("")))
  }

  function ValueRows(sheetName: string, vs: seq<Cells>): (rows: seq<RosterRow>)
    ensures |rows| == |vs|
    ensures forall k :: 0 <= k < |vs| ==> rows[k] == ValueRow(sheetName, vs[k])
  {
    if |vs| == 0 then [] else [ValueRow(sheetName, vs[0])] + ValueRows(sheetName, vs[1..])
  }

  /** The value rows a sheet submits. */
  function SheetValues(s: Sheet): seq<RosterRow> {
    ValueRows(s.name, ValidStudents(s.students))
  }

  /** A phone number stored for a student never has whitespace at either
      end, whatever the cell held. */
  lemma ValueRowPhoneTrimmed(sheetName: string, c: Cells)
    ensures var p := ValueRow(sheetName, c).phone;
            |p| > 0 ==> !IsSpace(p[0]) && !IsSpace(p[|p| - 1])
  {
  }

  /** A numeric phone cell is stored as its decimal digits. */
  lemma NumericPhoneIsDigits(sheetName: string, c: Cells)
    requires c.phone.Num? && c.phone.n >= 0
    ensures ValueRow(sheetName, c).phone == JsNumber.ShowNat(c.phone.n)
  {
    var digits := JsNumber.ShowNat(c.phone.n);
    assert JsNumber.IsDigit(digits[0]) && JsNumber.IsDigit(digits[|digits| - 1]);
    assert !IsSpace(digits[0]) && !IsSpace(digits[|digits| - 1]);
    TrimUntouched(digits);
    assert ToStr(c.phone) == digits;
  }

  // ---------------------------------------------------------------------------
  // INSERT IGNORE
  // ---------------------------------------------------------------------------

  /** `row` is in `table`, or a row of `table` holds its unique key. */
  predicate Covered(table: seq<RosterRow>, row: RosterRow, clash: (RosterRow, RosterRow) -> bool) {
    exists x :: x in table && (x == row || clash(x, row))
  }

  /** A multi-row `INSERT IGNORE`: each row, in order, is appended unless a
      row already in the table (including one appended earlier by the same
      statement) clashes with it. Returns the table and `affectedRows`. */
  function InsertIgnore(table: seq<RosterRow>, rows: seq<RosterRow>, clash: (RosterRow, RosterRow) -> bool)
    : (r: (seq<RosterRow>, nat))
    ensures r.1 <= |rows| && |r.0| == |table| + r.1 && r.0[..|table|] == table
    ensures forall x :: x in r.0[|table|..] ==> x in rows
    ensures forall k :: 0 <= k < |rows| ==> Covered(r.0, rows[k], clash)
    decreases |rows|
  {
    if |rows| == 0 then (table, 0)
    else
      var isNew := !exists x :: x in table && clash(x, rows[0]);
      var t := if isNew then table + [rows[0]] else table;
      var r := InsertIgnore(t, rows[1..], clash);
      InsertIgnoreStep(table, rows[0], rows[1..], clash, t, r.0, r.1);
      assert [rows[0]] + rows[1..] == rows;
      (r.0, r.1 + (if isNew then 1 else 0))
  }

  /** The rows inserted after `row` keep what inserting `row` established. */
  lemma InsertIgnoreStep(table: seq<RosterRow>, row: RosterRow, rest: seq<RosterRow>,
                         clash: (RosterRow, RosterRow) -> bool, t: seq<RosterRow>, u: seq<RosterRow>, m: nat)
    requires t == table + [row] || (t == table && Covered(table, row, clash))
    requires m <= |rest| && |u| == |t| + m && u[..|t|] == t
    requires forall x :: x in u[|t|..] ==> x in rest
    requires forall k :: 0 <= k < |rest| ==> Covered(u, rest[k], clash)
    ensures u[..|table|] == table
    ensures forall x :: x in u[|table|..] ==> x in [row] + rest
    ensures forall k :: 0 <= k < |[row] + rest| ==> Covered(u, ([row] + rest)[k], clash)
  {
    assert u[..|table|] == t[..|table|];
    forall x | x in u[|table|..]
      ensures x in [row] + rest
    {
      var k :| 0 <= k < |u[|table|..]| && u[|table|..][k] == x;
      if |table| + k >= |t| {
        assert u[|t|..][|table| + k - |t|] == x;
      } else {
        assert t[|table|] == row;
      }
    }
    if t != table {
      assert t[|table|] == row && t[|table|] in t;
    }
    assert Covered(t, row, clash);
    CoveredGrows(t, u, row, clash);
    forall k | 0 <= k < |[row] + rest|
      ensures Covered(u, ([row] + rest)[k], clash)
    {
      if k > 0 {
        assert ([row] + rest)[k] == rest[k - 1];
      }
    }
  }

  lemma CoveredGrows(t: seq<RosterRow>, u: seq<RosterRow>, row: RosterRow, clash: (RosterRow, RosterRow) -> bool)
    requires |t| <= |u| && u[..|t|] == t && Covered(t, row, clash)
    ensures Covered(u, row, clash)
  {
    var x :| x in t && (x == row || clash(x, row));
    var k :| 0 <= k < |t| && t[k] == x;
    assert u[k] == x;
    assert x in u;
  }

  // ---------------------------------------------------------------------------
  // Whole-workbook references
  // ---------------------------------------------------------------------------

  /** The sheet names, as a set of class names. */
  function SheetNames(sheets: seq<Sheet>): (names: set<string>)
    ensures forall n :: n in names <==> exists j :: 0 <= j < |sheets| && sheets[j].name == n
  {
    if |sheets| == 0 then {}
    else
      var init := sheets[..|sheets| - 1];
      assert forall j :: 0 <= j < |init| ==> init[j] == sheets[j];
      SheetNames(init) + {sheets[|sheets| - 1].name}
  }

  /** The number of valid students over all sheets. */
  function TotalValid(sheets: seq<Sheet>): nat {
    if |sheets| == 0 then 0
    else TotalValid(sheets[..|sheets| - 1]) + |ValidStudents(sheets[|sheets| - 1].students)|
  }

  /** Every value row of every sheet, sheet by sheet. */
  function AllValues(sheets: seq<Sheet>): (rows: seq<RosterRow>)
    ensures |rows| == TotalValid(sheets)
  {
    if |sheets| == 0 then [] else AllValues(sheets[..|sheets| - 1]) + SheetValues(sheets[|sheets| - 1])
  }

  /** The statements sheet `i` sends when none throws: its class insert,
      followed by a roster insert when the sheet has a valid student. */
  function TurnStatements(sheets: seq<Sheet>, i: nat): seq<Statement>
    requires i < |sheets|
  {
    [InsertClass(i)] + (if |ValidStudents(sheets[i].students)| > 0 then [InsertRosters(i)] else [])
  }

  /** The statements a successful import sends for the sheets before `i`. */
  function SheetStatements(sheets: seq<Sheet>, i: nat): seq<Statement>
    requires i <= |sheets|
  {
    if i == 0 then [] else SheetStatements(sheets, i - 1) + TurnStatements(sheets, i - 1)
  }

  /** `a` is an initial stretch of `b`. */
  predicate IsPrefix(a: seq<Statement>, b: seq<Statement>) {
    |a| <= |b| && b[..|a|] == a
  }

  /** The per-sheet statements of an import that went through every sheet. */
  function LoopStatements(sheets: seq<Sheet>): seq<Statement> {
    SheetStatements(sheets, |sheets|)
  }

  /** Every statement of a successful upload: begin, the sheets' inserts,
      commit. */
  function Transaction(sheets: seq<Sheet>): seq<Statement> {
    [Begin] + LoopStatements(sheets) + [Commit]
  }

  /** The statements of an import that got as far as sheet `i` are a
      prefix of those of one that got further. */
  lemma {:induction false} SheetStatementsGrow(sheets: seq<Sheet>, i: nat, j: nat)
    requires i <= j <= |sheets|
    ensures IsPrefix(SheetStatements(sheets, i), SheetStatements(sheets, j))
  {
    if i < j {
      SheetStatementsGrow(sheets, i, j - 1);
      var a, b := SheetStatements(sheets, i), SheetStatements(sheets, j - 1);
      assert SheetStatements(sheets, j)[..|b|] == b;
      assert SheetStatements(sheets, j)[..|a|] == b[..|a|];
    }
  }

  /** `sent` was cut short by an error: every statement before its last
      one succeeded and the last one threw `error`, so `error` is the
      first error the transaction met. */
  predicate StopsAtFirstError(sent: seq<Statement>, fails: Statement -> Option<JsVal>, error: JsVal) {
    && |sent| > 0
    && (forall k :: 0 <= k < |sent| - 1 ==> fails(sent[k]).None?)
    && fails(sent[|sent| - 1]) == Some(error)
  }

  /** Statements that all succeeded, followed by a run cut short by an
      error, are a run cut short by the same error. */
  lemma StopsAfterSuccesses(done: seq<Statement>, sent: seq<Statement>, fails: Statement -> Option<JsVal>, error: JsVal)
    requires forall s :: s in done ==> fails(s).None?
    requires StopsAtFirstError(sent, fails, error)
    ensures StopsAtFirstError(done + sent, fails, error)
  {
    var all := done + sent;
    assert all[|all| - 1] == sent[|sent| - 1];
    forall k | 0 <= k < |all| - 1
      ensures fails(all[k]).None?
    {
      if k < |done| {
        assert all[k] in done;
      } else {
        assert all[k] == sent[k - |done|];
      }
    }
  }

  lemma {:induction false} NoCommitAmongSheets(sheets: seq<Sheet>, i: nat)
    requires i <= |sheets|
    ensures Begin !in SheetStatements(sheets, i) && Commit !in SheetStatements(sheets, i)
  {
    if i > 0 {
      NoCommitAmongSheets(sheets, i - 1);
    }
  }

  /** What one sheet does to the working copy: register its class, then
      insert its value rows if it has any. Returns the table and the
      insert's `affectedRows`. */
  function AddSheet(work: Db, sheet: Sheet, clash: (RosterRow, RosterRow) -> bool): (r: (Db, nat))
    ensures r.0.classes == work.classes + {sheet.name}
  {
    var vs := ValidStudents(sheet.students);
    var classes := work.classes + {sheet.name};
    if |vs| == 0 then (Db(classes, work.rosters), 0)
    else
      var inserted := InsertIgnore(work.rosters, ValueRows(sheet.name, vs), clash);
      (Db(classes, inserted.0), inserted.1)
  }

  /** The facts the handler's loop keeps after the first `i` sheets:
      the counters, the classes registered, and the roster rows added. */
  predicate Progressed(db: Db, sheets: seq<Sheet>, i: nat, work: Db, total: int, added: int,
                       clash: (RosterRow, RosterRow) -> bool)
    requires i <= |sheets|
  {
    && total == TotalValid(sheets[..i]) && 0 <= added <= total
    && work.classes == db.classes + SheetNames(sheets[..i])
    && |work.rosters| == |db.rosters| + added
    && Stored(db.rosters, work.rosters, AllValues(sheets[..i]), clash)
  }

  /** `now` extends `base` with value rows only, and covers every value row. */
  predicate Stored(base: seq<RosterRow>, now: seq<RosterRow>, values: seq<RosterRow>,
                   clash: (RosterRow, RosterRow) -> bool)
  {
    && |base| <= |now| && now[..|base|] == base
    && (forall x :: x in now[|base|..] ==> x in values)
    && (forall k :: 0 <= k < |values| ==> Covered(now, values[k], clash))
  }

  /** The workbook references one sheet further on. */
  lemma PrefixStep(sheets: seq<Sheet>, i: nat)
    requires i < |sheets|
    ensures TotalValid(sheets[..i + 1]) == TotalValid(sheets[..i]) + |ValidStudents(sheets[i].students)|
    ensures AllValues(sheets[..i + 1]) == AllValues(sheets[..i]) + SheetValues(sheets[i])
    ensures SheetNames(sheets[..i + 1]) == SheetNames(sheets[..i]) + {sheets[i].name}
  {
    assert sheets[..i + 1][..i] == sheets[..i];
    assert sheets[..i + 1][i] == sheets[i];
  }

  /** One sheet's rows: the old table stays a prefix, `affectedRows` rows
      are added, all of them value rows of the sheet, and every value row
      of the sheet ends up covered. */
  lemma AddSheetRows(work: Db, sheet: Sheet, clash: (RosterRow, RosterRow) -> bool)
    ensures var r := AddSheet(work, sheet, clash);
            && r.1 <= |SheetValues(sheet)|
            && |r.0.rosters| == |work.rosters| + r.1
            && Stored(work.rosters, r.0.rosters, SheetValues(sheet), clash)
  {
    var r := AddSheet(work, sheet, clash);
    var vs := ValidStudents(sheet.students);
    if |vs| == 0 {
      assert r.0.rosters[|work.rosters|..] == [];
    }
  }

  lemma AddSheetProgresses(db: Db, sheets: seq<Sheet>, i: nat, work: Db, total: int, added: int,
                           clash: (RosterRow, RosterRow) -> bool)
    requires i < |sheets| && Progressed(db, sheets, i, work, total, added, clash)
    ensures var r := AddSheet(work, sheets[i], clash);
            Progressed(db, sheets, i + 1, r.0, total + |ValidStudents(sheets[i].students)|, added + r.1, clash)
  {
    var r := AddSheet(work, sheets[i], clash);
    PrefixStep(sheets, i);
    AddSheetRows(work, sheets[i], clash);
    AppendKeepsRosters(db.rosters, work.rosters, r.0.rosters, AllValues(sheets[..i]), SheetValues(sheets[i]), clash);
  }

  /** The statements of one turn of the sheet loop: register sheet `i`'s
      class, then insert its valid students if it has any, stopping at the
      first statement that throws. */
  method SheetTurn(sheets: seq<Sheet>, i: nat, fails: Statement -> Option<JsVal>)
    returns (error: Option<JsVal>, stmts: seq<Statement>)
    requires i < |sheets|
    ensures error.None? ==>
              && stmts == TurnStatements(sheets, i)
              && (forall s :: s in stmts ==> fails(s).None?)
    ensures error.Some? ==> IsPrefix(stmts, TurnStatements(sheets, i)) && StopsAtFirstError(stmts, fails, error.value)
  {
    stmts := [InsertClass(i)];
    if fails(InsertClass(i)).Some? {
      return fails(InsertClass(i)), stmts;
    }
    if |ValidStudents(sheets[i].students)| > 0 {
      stmts := stmts + [InsertRosters(i)];
      if fails(InsertRosters(i)).Some? {
        return fails(InsertRosters(i)), stmts;
      }
    }
    error := None;
  }

  /** The sheet loop inside the transaction. On success `issued` is the
      loop's statements and the loop's facts hold for all sheets; on an
      error it ends with the statement that threw. */
  method ImportSheets(db: Db, sheets: seq<Sheet>, clash: (RosterRow, RosterRow) -> bool,
                      fails: Statement -> Option<JsVal>)
    returns (error: Option<JsVal>, work: Db, total: int, added: int, issued: seq<Statement>)
    ensures error.None? ==>
              && issued == LoopStatements(sheets)
              && (forall s :: s in issued ==> fails(s).None?)
              && Progressed(db, sheets, |sheets|, work, total, added, clash)
    ensures error.Some? ==>
              && IsPrefix(issued, LoopStatements(sheets))
              && StopsAtFirstError(issued, fails, error.value)
  {
    work := db;
    total := 0;
    added := 0;
    issued := [];
    var i := 0;
    while i < |sheets|
      invariant 0 <= i <= |sheets|
      invariant issued == SheetStatements(sheets, i)
      invariant forall s :: s in issued ==> fails(s).None?
      invariant Progressed(db, sheets, i, work, total, added, clash)
    {
      var e, stmts := SheetTurn(sheets, i, fails);
      if e.Some? {
        TurnFailed(sheets, i, issued, stmts, fails, e.value);
        return e, db, total, added, issued + stmts;
      }
      AddSheetProgresses(db, sheets, i, work, total, added, clash);
      var step := AddSheet(work, sheets[i], clash);
      issued := issued + stmts;
      work, total, added := step.0, total + |ValidStudents(sheets[i].students)|, added + step.1;
      i := i + 1;
    }
    error := None;
  }

  /** A turn cut short by an error, after the earlier sheets all went
      through: the import's statements so far are a prefix of a full
      run's and stop at that error. */
  lemma TurnFailed(sheets: seq<Sheet>, i: nat, done: seq<Statement>, stmts: seq<Statement>,
                   fails: Statement -> Option<JsVal>, error: JsVal)
    requires i < |sheets| && done == SheetStatements(sheets, i)
    requires forall s :: s in done ==> fails(s).None?
    requires IsPrefix(stmts, TurnStatements(sheets, i)) && StopsAtFirstError(stmts, fails, error)
    ensures IsPrefix(done + stmts, LoopStatements(sheets))
    ensures StopsAtFirstError(done + stmts, fails, error)
  {
    StopsAfterSuccesses(done, stmts, fails, error);
    PrefixAppend(done, stmts, TurnStatements(sheets, i));
    SheetStatementsGrow(sheets, i + 1, |sheets|);
    PrefixTransitive(done + stmts, SheetStatements(sheets, i + 1), LoopStatements(sheets));
  }

  lemma PrefixAppend(a: seq<Statement>, b: seq<Statement>, c: seq<Statement>)
    requires IsPrefix(b, c)
    ensures IsPrefix(a + b, a + c)
  {
    assert (a + c)[..|a + b|] == a + c[..|b|];
  }

  lemma PrefixTransitive(a: seq<Statement>, b: seq<Statement>, c: seq<Statement>)
    requires IsPrefix(a, b) && IsPrefix(b, c)
    ensures IsPrefix(a, c)
  {
    assert c[..|a|] == c[..|b|][..|a|];
  }

  /** A run cut short by an error after a successful begin. */
  lemma BegunFailed(sheets: seq<Sheet>, sent: seq<Statement>, fails: Statement -> Option<JsVal>, error: JsVal)
    requires fails(Begin).None?
    requires IsPrefix(sent, LoopStatements(sheets) + [Commit]) && StopsAtFirstError(sent, fails, error)
    ensures IsPrefix([Begin] + sent, Transaction(sheets))
    ensures StopsAtFirstError([Begin] + sent, fails, error)
  {
    StopsAfterSuccesses([Begin], sent, fails, error);
    PrefixAppend([Begin], sent, LoopStatements(sheets) + [Commit]);
    assert [Begin] + (LoopStatements(sheets) + [Commit]) == Transaction(sheets);
  }

  /** A run that went through after a successful begin: the whole
      transaction, every statement succeeding, with one commit at the end. */
  lemma BegunSucceeded(sheets: seq<Sheet>, sent: seq<Statement>, fails: Statement -> Option<JsVal>)
    requires fails(Begin).None?
    requires sent == LoopStatements(sheets) + [Commit] && forall s :: s in sent ==> fails(s).None?
    ensures [Begin] + sent == Transaction(sheets)
    ensures Commit !in Transaction(sheets)[..|Transaction(sheets)| - 1]
    ensures forall s :: s in [Begin] + sent ==> fails(s).None?
  {
    NoCommitAmongSheets(sheets, |sheets|);
    assert Transaction(sheets)[..|Transaction(sheets)| - 1] == [Begin] + LoopStatements(sheets);
  }

  /** What a committed import replies and leaves behind: the done message
      and the three counts, every sheet name added as a class, and exactly
      `addedCount` new roster rows, each drawn from the valid rows with
      every valid row now present or clashing with a stored one. */
  predicate Committed(db: Db, sheets: seq<Sheet>, clash: (RosterRow, RosterRow) -> bool,
                      reply: ImportReply, after: Db)
  {
    && reply.Imported?
    && reply.message == DoneMessage(|sheets|)
    && reply.skippedCount == reply.totalCount - reply.addedCount
    && reply.totalCount == TotalValid(sheets)
    && 0 <= reply.addedCount <= reply.totalCount
    && after.classes == db.classes + SheetNames(sheets)
    && |after.rosters| == |db.rosters| + reply.addedCount
    && Stored(db.rosters, after.rosters, AllValues(sheets), clash)
  }

  /** The handler once `beginTransaction` has succeeded on a readable
      workbook: the sheet loop, then the commit. `sent` lists the
      statements sent after the begin. */
  method ImportWorkbook(db: Db, sheets: seq<Sheet>, clash: (RosterRow, RosterRow) -> bool,
                        fails: Statement -> Option<JsVal>)
    returns (reply: ImportReply, after: Db, sent: seq<Statement>)
    ensures !reply.MissingFile?
    ensures reply.ImportFailed? ==>
              && after == db
              && IsPrefix(sent, LoopStatements(sheets) + [Commit])
              && |sent| > 0 && fails(sent[|sent| - 1]).Some?
              && StopsAtFirstError(sent, fails, fails(sent[|sent| - 1]).value)
              && reply.error == Or(fails(sent[|sent| - 1]).value, Str(DefaultError))
    ensures reply.Imported? ==>
              && sent == LoopStatements(sheets) + [Commit]
              && (forall s :: s in sent ==> fails(s).None?)
              && Committed(db, sheets, clash, reply, after)
  {
    var error, work, total, added, loopIssued := ImportSheets(db, sheets, clash, fails);
    if error.Some? {
      PrefixTransitive(loopIssued, LoopStatements(sheets), LoopStatements(sheets) + [Commit]);
      return ImportFailed(Or(error.value, Str(DefaultError))), db, loopIssued;
    }
    sent := loopIssued + [Commit];
    if fails(Commit).Some? {
      StopsAfterSuccesses(loopIssued, [Commit], fails, fails(Commit).value);
      return ImportFailed(Or(fails(Commit).value, Str(DefaultError))), db, sent;
    }
    assert sheets[..|sheets|] == sheets;
    reply := Imported(DoneMessage(|sheets|), total, added, total - added);
    after := work;
  }

  /** The handler. `fails(s)` is the error statement `s` throws, if any;
      `issued` lists the statements sent, in order. Any error rolls the
      whole transaction back and replies 500 with the message of the
      first error or a default text. */
  method UploadRoster(db: Db, upload: Upload, clash: (RosterRow, RosterRow) -> bool, fails: Statement -> Option<JsVal>)
    returns (reply: ImportReply, after: Db, issued: seq<Statement>)
    ensures upload.NoFile? <==> ImportStatus(reply) == 400
    ensures upload.NoFile? ==> issued == [] && after == db
    ensures !reply.Imported? ==> after == db
    ensures reply.ImportFailed? ==>
              && (upload.Workbook? ==> IsPrefix(issued, Transaction(upload.sheets)))
              && (upload.Unreadable? ==> issued == [Begin])
              && |issued| > 0
              && (|| (&& fails(issued[|issued| - 1]).Some?
                      && StopsAtFirstError(issued, fails, fails(issued[|issued| - 1]).value)
                      && reply.error == Or(fails(issued[|issued| - 1]).value, Str(DefaultError)))
                  || (&& upload.Unreadable? && fails(Begin).None?
                      && reply.error == Or(upload.message, Str(DefaultError))))
    ensures reply.Imported? ==>
              && upload.Workbook?
              && issued == Transaction(upload.sheets)
              && Commit !in issued[..|issued| - 1]
              && (forall s :: s in issued ==> fails(s).None?)
              && Committed(db, upload.sheets, clash, reply, after)
  {
    if upload.NoFile? {
      return MissingFile, db, [];
    }
    issued := [Begin];
    if fails(Begin).Some? {
      assert StopsAtFirstError(issued, fails, fails(Begin).value);
      return ImportFailed(Or(fails(Begin).value, Str(DefaultError))), db, issued;
    }
    if upload.Unreadable? {
      return ImportFailed(Or(upload.message, Str(DefaultError))), db, issued;
    }
    var sheets := upload.sheets;
    var sent;
    reply, after, sent := ImportWorkbook(db, sheets, clash, fails);
    issued := [Begin] + sent;
    if reply.ImportFailed? {
      BegunFailed(sheets, sent, fails, fails(sent[|sent| - 1]).value);
    } else {
      BegunSucceeded(sheets, sent, fails);
    }
  }

  /** One sheet's roster insert keeps the loop's facts about the rows added
      so far: the old table stays a prefix, new rows come from the values
      seen, and every value seen is covered. */
  lemma AppendKeepsRosters(base: seq<RosterRow>, before: seq<RosterRow>, now: seq<RosterRow>,
                           seen: seq<RosterRow>, values: seq<RosterRow>, clash: (RosterRow, RosterRow) -> bool)
    requires Stored(base, before, seen, clash) && Stored(before, now, values, clash)
    ensures Stored(base, now, seen + values, clash)
  {
    assert now[..|base|] == now[..|before|][..|base|];
    forall x | x in now[|base|..]
      ensures x in seen + values
    {
      var k :| 0 <= k < |now[|base|..]| && now[|base|..][k] == x;
      if |base| + k < |before| {
        assert before[|base|..][k] == x;
      } else {
        assert now[|before|..][|base| + k - |before|] == x;
      }
    }
    forall k | 0 <= k < |seen + values|
      ensures Covered(now, (seen + values)[k], clash)
    {
      if k < |seen| {
        CoveredGrows(before, now, seen[k], clash);
      }
    }
  }
}
