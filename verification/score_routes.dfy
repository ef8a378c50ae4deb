/** The score routes: the parameter checks in front of `/rounds`,
    `/roster`, `/list`, `/save` and `/search-student`, and the query that
    `/inquiry` assembles from its optional filters. Query parameters and
    body fields are loosely typed values; the database is an oracle taking
    the bound parameters. */
module ScoreRoutes {
  import opened Optional
  import opened JsValue
  import opened JsText

  // ---------------------------------------------------------------------------
  // Required-parameter checks
  // ---------------------------------------------------------------------------

  datatype Reply<R> = BadRequest | Rows(rows: seq<R>) | ServerError

  function Status<R>(reply: Reply<R>): int {
    match reply
    case BadRequest => 400
    case Rows(_) => 200
    case ServerError => 500
  }

  /** A reply, and the parameters of the query sent, if one was. */
  datatype Lookup<R> = Lookup(reply: Reply<R>, sent: Option<seq<JsVal>>)

  /** Run `query` with `params`: its rows, or 500 when it throws. */
  function RunQuery<R>(params: seq<JsVal>, query: seq<JsVal> -> Option<seq<R>>): (l: Lookup<R>)
    ensures l.sent == Some(params)
    ensures l.reply.Rows? <==> query(params).Some?
    ensures l.reply.Rows? ==> l.reply.rows == query(params).value
    ensures !l.reply.BadRequest?
  {
    var rows := query(params);
    Lookup(if rows.Some? then Rows(rows.value) else ServerError, Some(params))
  }

  /** `GET /rounds?className=` and `GET /roster?className=`, which check
      their parameter alike: 400 without a class, and no query sent. */
  function ClassLookup<R>(className: JsVal, query: seq<JsVal> -> Option<seq<R>>): (l: Lookup<R>)
    ensures Status(l.reply) == 400 <==> !Truthy(className)
    ensures l.sent.Some? <==> Truthy(className)
    ensures l.sent.Some? ==> l.sent.value == [className]
  {
    if !Truthy(className) then Lookup(BadRequest, None) else RunQuery([className], query)
  }

  /** `GET /list?className=&round=`: 400 unless both are given; the query
      binds the round first, then the class. */
  function ScoreList<R>(className: JsVal, round: JsVal, query: seq<JsVal> -> Option<seq<R>>): (l: Lookup<R>)
    ensures Status(l.reply) == 400 <==> !Truthy(className) || !Truthy(round)
    ensures l.sent.Some? <==> Truthy(className) && Truthy(round)
    ensures l.sent.Some? ==> l.sent.value == [round, className]
  {
    if !Truthy(className) || !Truthy(round) then Lookup(BadRequest, None) else RunQuery([round, className], query)
  }

  /** `%<text>%`, the LIKE pattern for a substring. */
  function Contains(v: JsVal): JsVal {
    Str("%" + ToStr(v) + "%")
  }

  /** `GET /search-student?className=&name=`: an empty list, not an error,
      unless both are given. */
  function SearchStudent<R>(className: JsVal, name: JsVal, query: seq<JsVal> -> Option<seq<R>>): (l: Lookup<R>)
    ensures !Truthy(className) || !Truthy(name) ==> l == Lookup(Rows([]), None)
    ensures Status(l.reply) != 400
    ensures l.sent.Some? <==> Truthy(className) && Truthy(name)
    ensures l.sent.Some? ==> l.sent.value == [className, Contains(name)]
  {
    if !Truthy(className) || !Truthy(name) then Lookup(Rows([]), None)
    else RunQuery([className, Contains(name)], query)
  }

  // ---------------------------------------------------------------------------
  // POST /save
  // ---------------------------------------------------------------------------

  datatype ScoreForm = ScoreForm(
    className: JsVal, round: JsVal, date: JsVal, studentName: JsVal, phone: JsVal, school: JsVal,
    testScore: JsVal, totalQuestion: JsVal, wrongQuestions: JsVal,
    assignment1: JsVal, assignment2: JsVal, memo: JsVal)

  datatype SaveReply = SaveRejected | Saved | SaveFailed

  function SaveStatus(reply: SaveReply): int {
    match reply
    case SaveRejected => 400
    case Saved => 200
    case SaveFailed => 500
  }

  /** The reply, and the placeholders of the upsert sent, if one was. */
  datatype SaveRun = SaveRun(reply: SaveReply, sent: Option<seq<JsVal>>)

  /** The twelve values bound to the upsert, in column order, with a
      falsy `memo` stored as `''`. */
  function SaveParams(f: ScoreForm): (ps: seq<JsVal>)
    ensures |ps| == 12
    ensures ps[11] == (if Truthy(f.memo) then f.memo else Str(""))
    ensures ps[..11] == [f.className, f.round, f.date, f.studentName, f.phone, f.school,
                         f.testScore, f.totalQuestion, f.wrongQuestions, f.assignment1, f.assignment2]
  {
    [f.className, f.round, f.date, f.studentName, f.phone, f.school,
     f.testScore, f.totalQuestion, f.wrongQuestions, f.assignment1, f.assignment2, Or(f.memo, Str(""))]
  }

  /** The required fields, checked for truthiness as the handler does. */
  predicate HasRequired(f: ScoreForm) {
    && Truthy(f.className) && Truthy(f.round) && Truthy(f.phone) && Truthy(f.testScore)
    && Truthy(f.totalQuestion) && Truthy(f.assignment1) && Truthy(f.assignment2)
  }

  /** A form the handler rejects for a missing field. */
  function RunSave(accepted: bool, f: ScoreForm, upsert: seq<JsVal> -> bool): (run: SaveRun)
    ensures !accepted <==> run.sent.None?
    ensures run.sent.Some? ==> run.sent.value == SaveParams(f)
    ensures SaveStatus(run.reply) == 400 <==> !accepted
    ensures SaveStatus(run.reply) == 200 <==> accepted && upsert(SaveParams(f))
  {
    if !accepted then SaveRun(SaveRejected, None)
    else SaveRun(if upsert(SaveParams(f)) then Saved else SaveFailed, Some(SaveParams(f)))
  }

  /** `POST /save` as written: every required field must be truthy, so a
      numeric `test_score` of 0 is rejected. `upsert` says whether the
      INSERT ... ON DUPLICATE KEY UPDATE succeeds. */
  function Save(f: ScoreForm, upsert: seq<JsVal> -> bool): (run: SaveRun)
    ensures SaveStatus(run.reply) == 400 <==> !HasRequired(f)
    ensures run.sent.Some? <==> HasRequired(f)
  {
    RunSave(HasRequired(f), f, upsert)
  }

  /** A score of 0 sent as a number is refused with 400 and never stored,
      although the export route goes out of its way (`??`) to show such
      a score. */
  lemma ZeroScoreRejected(f: ScoreForm, upsert: seq<JsVal> -> bool)
    requires f.testScore == Num(0)
    ensures Save(f, upsert) == SaveRun(SaveRejected, None)
  {
  }

  /** A value that was actually supplied: neither null, undefined nor the
      empty string. */
  predicate Supplied(v: JsVal) {
    !IsNullish(v) && v != Str("")
  }

  /** The required-field check with `test_score` tested for presence
      rather than truthiness, so that 0 is a score. */
  predicate HasRequiredCorrected(f: ScoreForm) {
    && Truthy(f.className) && Truthy(f.round) && Truthy(f.phone) && Supplied(f.testScore)
    && Truthy(f.totalQuestion) && Truthy(f.assignment1) && Truthy(f.assignment2)
  }

  /** `POST /save` with the corrected check. */
  function SaveCorrected(f: ScoreForm, upsert: seq<JsVal> -> bool): (run: SaveRun)
    ensures SaveStatus(run.reply) == 400 <==> !HasRequiredCorrected(f)
    ensures run.sent.Some? <==> HasRequiredCorrected(f)
  {
    RunSave(HasRequiredCorrected(f), f, upsert)
  }

  /** The corrected check differs from the original only on a falsy but
      supplied score (0, or `false`): such a form is now stored, with
      the score bound as given; every other form gets the same answer. */
  lemma SaveCorrectedKeepsZero(f: ScoreForm, upsert: seq<JsVal> -> bool)
    ensures Truthy(f.testScore) ==> SaveCorrected(f, upsert) == Save(f, upsert)
    ensures !Supplied(f.testScore) ==> SaveCorrected(f, upsert) == Save(f, upsert)
    ensures f.testScore == Num(0) && HasRequiredCorrected(f) ==>
              && SaveCorrected(f, upsert).sent.Some?
              && SaveCorrected(f, upsert).sent.value[6] == Num(0)
  {
    if f.testScore == Num(0) && HasRequiredCorrected(f) {
      assert SaveParams(f)[..11][6] == Num(0);
    }
  }

  // ---------------------------------------------------------------------------
  // GET /inquiry
  // ---------------------------------------------------------------------------

  const BaseQuery := "SELECT * FROM scores"
  const OrderBy := " ORDER BY date DESC, round, student_name"
  const AllClasses := "전체 분반"

  /** The three conditions `/inquiry` can add, declared in the fixed
      order class, round, name. */
  datatype Condition = ClassIs | RoundIs | NameLike

  function ConditionSql(c: Condition): string {
    match c
    case ClassIs => "class_name = ?"
    case RoundIs => "round = ?"
    case NameLike => "student_name LIKE ?"
  }

  function Rank(c: Condition): int {
    match c
    case ClassIs => 0
    case RoundIs => 1
    case NameLike => 2
  }

  predicate InFixedOrder(conditions: seq<Condition>) {
    forall i, j :: 0 <= i < j < |conditions| ==> Rank(conditions[i]) < Rank(conditions[j])
  }

  /** The conditions and the parameters bound to their placeholders. */
  datatype Filters = Filters(conditions: seq<Condition>, params: seq<JsVal>)

  /** The parameter a condition's placeholder takes. */
  function ParamFor(c: Condition, className: JsVal, round: JsVal, studentName: JsVal): JsVal {
    match c
    case ClassIs => className
    case RoundIs => round
    case NameLike => Contains(studentName)
  }

  function Push(f: Filters, c: Condition, param: JsVal): Filters {
    Filters(f.conditions + [c], f.params + [param])
  }

  /** The filters chosen by three switches, in the fixed order class,
      round, name, each paired with its parameter. */
  function Collect(useClass: bool, useRound: bool, useName: bool,
                   className: JsVal, round: JsVal, studentName: JsVal): (f: Filters)
    ensures |f.conditions| == |f.params|
    ensures (ClassIs in f.conditions <==> useClass) && (RoundIs in f.conditions <==> useRound)
    ensures NameLike in f.conditions <==> useName
    ensures InFixedOrder(f.conditions)
    ensures forall i :: 0 <= i < |f.conditions| ==>
              f.params[i] == ParamFor(f.conditions[i], className, round, studentName)
  {
    var none := Filters([], []);
    var withClass := if useClass then Push(none, ClassIs, className) else none;
    PushInOrder(none, ClassIs, className, useClass, className, round, studentName);
    var withRound := if useRound then Push(withClass, RoundIs, round) else withClass;
    PushInOrder(withClass, RoundIs, round, useRound, className, round, studentName);
    var f := if useName then Push(withRound, NameLike, Contains(studentName)) else withRound;
    PushInOrder(withRound, NameLike, Contains(studentName), useName, className, round, studentName);
    f
  }

  /** The conditions are in the fixed order and each has its parameter. */
  predicate Paired(f: Filters, className: JsVal, round: JsVal, studentName: JsVal) {
    && |f.conditions| == |f.params|
    && InFixedOrder(f.conditions)
    && forall i :: 0 <= i < |f.conditions| ==>
         f.params[i] == ParamFor(f.conditions[i], className, round, studentName)
  }

  /** Pushing, or not, a condition ranked after all present ones keeps the
      filters paired, and adds exactly that condition. */
  lemma PushInOrder(f: Filters, c: Condition, param: JsVal, push: bool,
                    className: JsVal, round: JsVal, studentName: JsVal)
    requires Paired(f, className, round, studentName)
    requires forall x :: x in f.conditions ==> Rank(x) < Rank(c)
    requires param == ParamFor(c, className, round, studentName)
    ensures var g := if push then Push(f, c, param) else f;
            && Paired(g, className, round, studentName)
            && g.conditions == f.conditions + (if push then [c] else [])
  {
    if push {
      var g := Push(f, c, param);
      var n := |f.conditions|;
      assert g.conditions[n] == c && g.params[n] == param;
      forall i, j | 0 <= i < j < |g.conditions|
        ensures Rank(g.conditions[i]) < Rank(g.conditions[j])
      {
        if j == n {
          assert g.conditions[i] == f.conditions[i] && f.conditions[i] in f.conditions;
        } else {
          assert g.conditions[i] == f.conditions[i] && g.conditions[j] == f.conditions[j];
        }
      }
    }
  }

  /** The filters `/inquiry` collects: a class condition unless the class
      is missing or `전체 분반`, a round condition when a round is given,
      a name condition when a name is given — in that order, each paired
      with its parameter. */
  function InquiryFilters(className: JsVal, round: JsVal, studentName: JsVal): (f: Filters)
    ensures |f.conditions| == |f.params|
    ensures ClassIs in f.conditions <==> Truthy(className) && className != Str(AllClasses)
    ensures RoundIs in f.conditions <==> Truthy(round)
    ensures NameLike in f.conditions <==> Truthy(studentName)
    ensures InFixedOrder(f.conditions)
    ensures forall i :: 0 <= i < |f.conditions| ==>
              f.params[i] == ParamFor(f.conditions[i], className, round, studentName)
  {
    var useClass := Truthy(className) && className != Str(AllClasses);
    Collect(useClass, Truthy(round), Truthy(studentName), className, round, studentName)
  }

  /** The SQL texts of some conditions, in order. */
  function ConditionTexts(cs: seq<Condition>): (ts: seq<string>)
    ensures |ts| == |cs|
    ensures forall i :: 0 <= i < |cs| ==> ts[i] == ConditionSql(cs[i])
  {
    if |cs| == 0 then [] else [ConditionSql(cs[0])] + ConditionTexts(cs[1..])
  }

  /** A query text with its bound parameters. */
  datatype Query = Query(sql: string, params: seq<JsVal>)

  /** The statement text: the base query, then, when there are conditions,
      ` WHERE ` and the conditions joined by ` AND `, then the ordering. */
  function Assembled(base: string, where: string, and: string, order: string,
                     texts: seq<string>): string
  {
    if |texts| == 0 then base + order else base + where + Join(texts, and) + order
  }

  /** The query of `/inquiry`: it starts with the base query and ends with
      the fixed ordering; it has no WHERE clause exactly when no filter
      applies, and otherwise lists the filters' conditions joined by
      ` AND `. Its parameters are the filters' parameters, in order. */
  function Inquiry(className: JsVal, round: JsVal, studentName: JsVal): (q: Query)
    ensures var f := InquiryFilters(className, round, studentName);
            && q.params == f.params
            && BaseQuery <= q.sql
            && |q.sql| >= |OrderBy| && q.sql[|q.sql| - |OrderBy|..] == OrderBy
            && (|f.conditions| == 0 <==> q.sql == BaseQuery + OrderBy)
            && (|f.conditions| > 0 ==>
                  q.sql == BaseQuery + " WHERE " + Join(ConditionTexts(f.conditions), " AND ") + OrderBy)
  {
    var f := InquiryFilters(className, round, studentName);
    Query(Assembled(BaseQuery, " WHERE ", " AND ", OrderBy, ConditionTexts(f.conditions)), f.params)
  }

  /** The number of `?` placeholders in a text. */
  function Placeholders(s: string): nat {
    if |s| == 0 then 0 else (if s[0] == '?' then 1 else 0) + Placeholders(s[1..])
  }

  lemma {:induction false} PlaceholdersConcat(a: string, b: string)
    ensures Placeholders(a + b) == Placeholders(a) + Placeholders(b)
  {
    if |a| > 0 {
      assert (a + b)[1..] == a[1..] + b;
      PlaceholdersConcat(a[1..], b);
    } else {
      assert a + b == b;
    }
  }

  /** Joining texts of one placeholder each with a separator that has none
      gives one placeholder per text. */
  lemma {:induction false} PlaceholdersOfJoin(parts: seq<string>, sep: string)
    requires Placeholders(sep) == 0
    requires forall i :: 0 <= i < |parts| ==> Placeholders(parts[i]) == 1
    ensures Placeholders(Join(parts, sep)) == |parts|
  {
    if |parts| > 1 {
      PlaceholdersOfJoin(parts[1..], sep);
      PlaceholdersConcat(parts[0], sep);
      PlaceholdersConcat(parts[0] + sep, Join(parts[1..], sep));
    }
  }

  lemma {:induction false} NoPlaceholder(s: string)
    requires '?' !in s
    ensures Placeholders(s) == 0
  {
    if |s| > 0 {
      assert s == [s[0]] + s[1..];
      NoPlaceholder(s[1..]);
    }
  }

  /** Each condition carries exactly one placeholder. */
  lemma ConditionPlaceholder(c: Condition)
    ensures Placeholders(ConditionSql(c)) == 1
  {
    match c
    case ClassIs => PlaceholderAtEnd("class_name = ", ConditionSql(c));
    case RoundIs => PlaceholderAtEnd("round = ", ConditionSql(c));
    case NameLike => PlaceholderAtEnd("student_name LIKE ", ConditionSql(c));
  }

  lemma PlaceholderAtEnd(s: string, t: string)
    requires '?' !in s && t == s + "?"
    ensures Placeholders(t) == 1
  {
    NoPlaceholder(s);
    PlaceholdersConcat(s, "?");
  }

  /** A query assembled from placeholder-free fixed parts around texts
      of one placeholder each has one placeholder per text. */
  lemma AssembledPlaceholders(base: string, where: string, and: string, order: string,
                               texts: seq<string>)
    requires '?' !in base && '?' !in where && '?' !in and && '?' !in order
    requires forall i :: 0 <= i < |texts| ==> Placeholders(texts[i]) == 1
    ensures Placeholders(Assembled(base, where, and, order, texts)) == |texts|
  {
    NoPlaceholder(base);
    NoPlaceholder(where);
    NoPlaceholder(and);
    NoPlaceholder(order);
    if |texts| == 0 {
      PlaceholdersConcat(base, order);
    } else {
      var joined := Join(texts, and);
      PlaceholdersOfJoin(texts, and);
      PlaceholdersConcat(base, where);
      PlaceholdersConcat(base + where, joined);
      PlaceholdersConcat(base + where + joined, order);
    }
  }

  /** The inquiry binds exactly one value per placeholder in its text. */
  lemma InquiryPlaceholdersMatchParams(className: JsVal, round: JsVal, studentName: JsVal)
    ensures var q := Inquiry(className, round, studentName);
            Placeholders(q.sql) == |q.params|
  {
    FiltersBindPlaceholders(InquiryFilters(className, round, studentName));
  }

  lemma FiltersBindPlaceholders(f: Filters)
    requires |f.conditions| == |f.params|
    ensures var sql := Assembled(BaseQuery, " WHERE ", " AND ", OrderBy, ConditionTexts(f.conditions));
            Placeholders(sql) == |f.params|
  {
    ConditionTextsPlaceholders(f.conditions);
    AssembledPlaceholders(BaseQuery, " WHERE ", " AND ", OrderBy, ConditionTexts(f.conditions));
  }

  lemma ConditionTextsPlaceholders(cs: seq<Condition>)
    ensures forall i :: 0 <= i < |cs| ==> Placeholders(ConditionTexts(cs)[i]) == 1
  {
    forall i | 0 <= i < |cs|
      ensures Placeholders(ConditionTexts(cs)[i]) == 1
    {
      ConditionPlaceholder(cs[i]);
    }
  }

  /** `전체 분반` means no class filter: it gives the same query as no
      class at all. */
  lemma AllClassesIsNoFilter(round: JsVal, studentName: JsVal)
    ensures Inquiry(Str(AllClasses), round, studentName) == Inquiry(Undefined, round, studentName)
  {
  }

  /** `GET /inquiry`: the assembled query's rows, or 500 when it throws. */
  function InquiryRoute<R>(className: JsVal, round: JsVal, studentName: JsVal,
                           query: Query -> Option<seq<R>>): (reply: Reply<R>)
    ensures !reply.BadRequest?
    ensures reply.Rows? <==> query(Inquiry(className, round, studentName)).Some?
  {
    var rows := query(Inquiry(className, round, studentName));
    if rows.Some? then Rows(rows.value) else ServerError
  }
}
