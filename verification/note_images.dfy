/** The wrong-answer note generator behind `GET /generate-note-images`:
    read a student's wrong question numbers for a round, look up where
    those questions sit on the round's material, fetch that document once
    and cut one single-page crop out of it per question.

    The database, the object store and the PDF library are parameters: the
    handler receives the query results and the fetch as functions and
    reports, besides its reply, the calls it made to them. */
module NoteImages {
  import opened Optional
  import opened JsText
  import opened JsNumber

  // ---------------------------------------------------------------------------
  // Parsing `wrong_questions`
  // ---------------------------------------------------------------------------

  /** One comma-separated token, as `parseInt(n.trim())` reads it. */
  function ParseToken(token: string): Option<int> {
    ParseInt(Trim(token))
  }

  /** The values `read` finds in `tokens`, in token order, the tokens it
      cannot read skipped: the `.map(...).filter(n => !isNaN(n))` step. */
  function ParsedNumbers(read: string -> Option<int>, tokens: seq<string>): (r: seq<int>)
    ensures |r| <= |tokens|
  {
    if |tokens| == 0 then []
    else
      var head := read(tokens[0]);
      var rest := ParsedNumbers(read, tokens[1..]);
      if head.Some? then [head.value] + rest else rest
  }

  /** A number is in the result exactly when some token reads as it. */
  lemma {:induction false} ParsedNumbersMembers(read: string -> Option<int>, tokens: seq<string>, x: int)
    ensures x in ParsedNumbers(read, tokens)
        <==> exists i :: 0 <= i < |tokens| && read(tokens[i]).Some? && read(tokens[i]).value == x
  {
    if |tokens| > 0 {
      ParsedNumbersMembers(read, tokens[1..], x);
      assert forall i :: 1 <= i < |tokens| ==> tokens[1..][i - 1] == tokens[i];
      if exists i :: 0 <= i < |tokens| && read(tokens[i]).Some? && read(tokens[i]).value == x {
        var i :| 0 <= i < |tokens| && read(tokens[i]).Some? && read(tokens[i]).value == x;
        if i > 0 {
          assert tokens[1..][i - 1] == tokens[i];
        }
      }
    }
  }

  lemma {:induction false} ParsedNumbersConcat(read: string -> Option<int>, a: seq<string>, b: seq<string>)
    ensures ParsedNumbers(read, a + b) == ParsedNumbers(read, a) + ParsedNumbers(read, b)
  {
    if |a| > 0 {
      assert (a + b)[1..] == a[1..] + b;
      ParsedNumbersConcat(read, a[1..], b);
    } else {
      assert a + b == b;
    }
  }

  /** The question numbers a `wrong_questions` text lists. */
  function WrongQuestionNumbers(text: string): seq<int> {
    ParsedNumbers(ParseToken, Split(text, ','))
  }

  /** The list is read piece by piece: the numbers of `a,b` are those of `a`
      followed by those of `b`. */
  lemma WrongQuestionsConcat(a: string, b: string)
    ensures WrongQuestionNumbers(a + "," + b) == WrongQuestionNumbers(a) + WrongQuestionNumbers(b)
  {
    SplitConcat(a, ',', b);
    ParsedNumbersConcat(ParseToken, Split(a, ','), Split(b, ','));
  }

  /** A list written as `String(n)` joined by commas. */
  function RenderNumbers(ns: seq<int>): string {
    if |ns| == 0 then ""
    else if |ns| == 1 then ShowInt(ns[0])
    else ShowInt(ns[0]) + "," + RenderNumbers(ns[1..])
  }

  lemma SingleNumberReads(n: int)
    ensures WrongQuestionNumbers(ShowInt(n)) == [n]
  {
    var s := ShowInt(n);
    assert ',' !in s by {
      if ',' in s {
        var k :| 0 <= k < |s| && s[k] == ',';
        ShowIntHasNoComma(n, k);
        assert false;
      }
    }
    SplitNoSeparator(s, ',');
    assert !IsSpace(s[0]) && !IsSpace(s[|s| - 1]);
    TrimUntouched(s);
    ParseIntOfShowInt(n, "");
    assert s + "" == s;
  }

  lemma ShowIntHasNoComma(n: int, k: int)
    requires 0 <= k < |ShowInt(n)|
    ensures ShowInt(n)[k] != ','
  {
    if n < 0 {
      if k > 0 {
        assert ShowInt(n)[k] == ShowNat(-n)[k - 1];
      }
    }
  }

  /** Every list of integers, negative ones and repeats included, reads back
      from its comma-joined text unchanged and in order. */
  lemma {:induction false} WrongQuestionsRoundTrip(ns: seq<int>)
    ensures WrongQuestionNumbers(RenderNumbers(ns)) == ns
  {
    if |ns| == 0 {
      EmptyTextReadsNothing();
    } else if |ns| == 1 {
      SingleNumberReads(ns[0]);
    } else {
      WrongQuestionsRoundTrip(ns[1..]);
      RoundTripStep(ns[0], ns[1..]);
      assert [ns[0]] + ns[1..] == ns;
    }
  }

  lemma EmptyTextReadsNothing()
    ensures WrongQuestionNumbers(RenderNumbers([])) == []
  {
    assert Split("", ',') == [""];
    assert ParseToken("").None?;
  }

  /** One more number in front of a list that already reads back. */
  lemma RoundTripStep(n: int, rest: seq<int>)
    requires |rest| > 0
    ensures WrongQuestionNumbers(RenderNumbers([n] + rest)) == [n] + WrongQuestionNumbers(RenderNumbers(rest))
  {
    var tail := RenderNumbers(rest);
    assert ([n] + rest)[1..] == rest;
    assert RenderNumbers([n] + rest) == ShowInt(n) + "," + tail;
    SingleNumberReads(n);
    WrongQuestionsConcat(ShowInt(n), tail);
  }

  /** A token with a blank before the number reads as the number. */
  lemma PaddedNumberReads(n: int)
    ensures WrongQuestionNumbers(" " + ShowInt(n)) == [n]
  {
    var t := ShowInt(n);
    var s := " " + t;
    assert ',' !in s by {
      if ',' in s {
        var k :| 0 <= k < |s| && s[k] == ',';
        assert k > 0 && s[k] == t[k - 1];
        ShowIntHasNoComma(n, k - 1);
        assert false;
      }
    }
    SplitNoSeparator(s, ',');
    TrimLeadingSpace(t);
    ParseIntOfShowInt(n, "");
    assert t + "" == t;
  }

  lemma JunkTokenReadsNothing()
    ensures WrongQuestionNumbers(" x") == []
  {
    UnreadableToken('x');
  }

  /** A blank and a letter make a token that reads as no number. */
  lemma UnreadableToken(letter: char)
    requires !IsSpace(letter) && !IsDigit(letter)
    requires letter != '-' && letter != '+' && letter != ','
    ensures WrongQuestionNumbers(" " + [letter]) == []
  {
    var s := " " + [letter];
    assert ',' !in s;
    SplitNoSeparator(s, ',');
    TrimLeadingSpace([letter]);
    ParseIntOfLetter(letter);
    assert ParseToken(s).None?;
    assert ParsedNumbers(ParseToken, [s]) == ParsedNumbers(ParseToken, [s][1..]);
  }

  lemma PrependToken(token: string, head: seq<int>, rest: string, tail: seq<int>)
    requires WrongQuestionNumbers(token) == head
    requires WrongQuestionNumbers(rest) == tail
    ensures WrongQuestionNumbers(token + "," + rest) == head + tail
  {
    WrongQuestionsConcat(token, rest);
  }

  /** The text "3, 7, x, 15" lists 3, 7 and 15: the unreadable token is
      dropped and the blanks before the others are ignored. */
  lemma ExampleWithJunkToken(text: string)
    requires text == "3, 7, x, 15"
    ensures WrongQuestionNumbers(text) == [3, 7, 15]
  {
    var a, b, c, d := ShowInt(3), " " + ShowInt(7), " x", " " + ShowInt(15);
    ExampleText(text);
    ExampleTokens(a, b, c, d, 3, 7, 15);
    assert [3] + ([7] + ([] + [15])) == [3, 7, 15];
  }

  lemma ExampleText(text: string)
    requires text == "3, 7, x, 15"
    ensures text == ShowInt(3) + "," + ((" " + ShowInt(7)) + "," + (" x" + "," + (" " + ShowInt(15))))
  {
    assert ShowInt(3) == "3" && ShowInt(7) == "7" && ShowInt(15) == "15";
  }

  lemma ExampleTokens(a: string, b: string, c: string, d: string, l: int, m: int, n: int)
    requires a == ShowInt(l) && b == " " + ShowInt(m) && c == " x" && d == " " + ShowInt(n)
    ensures WrongQuestionNumbers(a + "," + (b + "," + (c + "," + d))) == [l] + ([m] + ([] + [n]))
  {
    SingleNumberReads(l);
    PaddedNumberReads(m);
    JunkTokenReadsNothing();
    PaddedNumberReads(n);
    ThreeTokens(b, c, d, [m], [], [n]);
    PrependToken(a, [l], b + "," + (c + "," + d), [m] + ([] + [n]));
  }

  lemma ThreeTokens(b: string, c: string, d: string, x: seq<int>, y: seq<int>, z: seq<int>)
    requires WrongQuestionNumbers(b) == x && WrongQuestionNumbers(c) == y && WrongQuestionNumbers(d) == z
    ensures WrongQuestionNumbers(b + "," + (c + "," + d)) == x + (y + z)
  {
    PrependToken(c, y, d, z);
    PrependToken(b, x, c + "," + d, y + z);
  }

  // ---------------------------------------------------------------------------
  // Crop transform
  // ---------------------------------------------------------------------------

  /** One row of the region query: the material's storage key and where one
      question sits on it, `x`/`y` measured from the page's top-left corner. */
  datatype RegionRow = RegionRow(
    fileKey: string,
    questionNumber: int,
    pageNumber: int,
    x: real, y: real, width: real, height: real)

  /** A page's size in points, as `page.getSize()` reports it. */
  datatype PageSize = PageSize(width: real, height: real)

  /** A rectangle in PDF page space, whose origin is the bottom-left corner. */
  datatype Rect = Rect(x: real, y: real, width: real, height: real)

  /** The crop box for a region on a page of the given size. The region's
      left edge and extent carry over unchanged, and its top edge, `y` below
      the top of the page, becomes a bottom edge so that the box's top is
      exactly `region.y` below the page's top. No scaling is applied. */
  function CropBox(region: RegionRow, page: PageSize): (c: Rect)
    ensures c.x == region.x && c.width == region.width && c.height == region.height
    ensures c.y + c.height + region.y == page.height
  {
    Rect(region.x, page.height - region.y - region.height, region.width, region.height)
  }

  /** A region at (100, 50) of 200 by 80 on an A4 page of 595.28 by 841.89
      points becomes the box (100, 711.89) of 200 by 80. */
  lemma CropBoxExample()
    ensures CropBox(RegionRow("k", 1, 1, 100.0, 50.0, 200.0, 80.0), PageSize(595.28, 841.89))
         == Rect(100.0, 711.89, 200.0, 80.0)
  {
  }

  // ---------------------------------------------------------------------------
  // Extraction
  // ---------------------------------------------------------------------------

  /** A loaded PDF: the size of each page, in order. */
  datatype Document = Document(pages: seq<PageSize>)

  /** One page copied out of a source document with a crop box set on it. */
  datatype CroppedPage = CroppedPage(sourceKey: string, pageIndex: nat, mediaBox: PageSize, cropBox: Rect)

  /** A newly created PDF; `saveAsBase64` turns it into the data URI sent to
      the client, which the model keeps as the document itself. */
  datatype SubDocument = SubDocument(pages: seq<CroppedPage>)

  /** One element of the reply: `{ question_number, imageData }`. */
  datatype NoteImage = NoteImage(questionNumber: int, imageData: SubDocument)

  /** `pdfDoc.getPages()[region.page_number - 1]` names an existing page. */
  predicate PageInRange(doc: Document, region: RegionRow) {
    0 <= region.pageNumber - 1 < |doc.pages|
  }

  /** The work done for one region: create an empty document, copy the one
      page into it, set the crop box and add the page. `None` is the
      rejection pdf-lib raises when the page does not exist. */
  function ExtractRegion(key: string, doc: Document, region: RegionRow): (r: Option<NoteImage>)
    ensures r.Some? <==> PageInRange(doc, region)
    ensures r.Some? ==>
              && r.value.questionNumber == region.questionNumber
              && |r.value.imageData.pages| == 1
              && r.value.imageData.pages[0].sourceKey == key
              && r.value.imageData.pages[0].pageIndex == region.pageNumber - 1
              && r.value.imageData.pages[0].mediaBox == doc.pages[region.pageNumber - 1]
              && r.value.imageData.pages[0].cropBox == CropBox(region, doc.pages[region.pageNumber - 1])
  {
    if PageInRange(doc, region) then
      var index := region.pageNumber - 1;
      var page := doc.pages[index];
      Some(NoteImage(region.questionNumber,
        SubDocument([CroppedPage(key, index, page, CropBox(region, page))])))
    else
      None
  }

  /** `Promise.all` over the per-region work, taken in row order: all the
      images, in row order, or a failure if any one region fails. */
  function ExtractAll(key: string, doc: Document, rows: seq<RegionRow>): (r: Option<seq<NoteImage>>)
    ensures r.Some? <==> forall i :: 0 <= i < |rows| ==> PageInRange(doc, rows[i])
    ensures r.Some? ==>
              && |r.value| == |rows|
              && forall i :: 0 <= i < |rows| ==>
                   ExtractRegion(key, doc, rows[i]).Some? && r.value[i] == ExtractRegion(key, doc, rows[i]).value
  {
    if |rows| == 0 then Some([])
    else
      var head := ExtractRegion(key, doc, rows[0]);
      var rest := ExtractAll(key, doc, rows[1..]);
      assert forall i :: 1 <= i < |rows| ==> rows[i] == rows[1..][i - 1];
      if head.Some? && rest.Some? then Some([head.value] + rest.value) else None
  }

  // ---------------------------------------------------------------------------
  // The handler
  // ---------------------------------------------------------------------------

  /** The score row's `wrong_questions` column, possibly NULL. */
  datatype ScoreRow = ScoreRow(wrongQuestions: Option<string>)

  /** What the handler asks of the outside world, in the order it asks. */
  datatype Call =
    | ScoreQuery(phone: string, roundId: string)
    | RegionQuery(roundId: string, numbers: seq<int>)
    | FetchDocument(key: string)

  /** The outside world as the handler sees it: the answers of its two SQL
      queries and of the S3 download plus `PDFDocument.load`. `None` from
      any of them is a thrown error. */
  datatype NoteEnv = NoteEnv(
    scoreRows: (string, string) -> Option<seq<ScoreRow>>,
    regionRows: (string, seq<int>) -> Option<seq<RegionRow>>,
    fetch: string -> Option<Document>)

  /** `res.json(images)`, or the 500 reply of the catch block. */
  datatype Reply = Images(images: seq<NoteImage>) | ServerError

  datatype NoteRun = NoteRun(reply: Reply, calls: seq<Call>)

  /** The wrong question numbers recorded in the first score row, if that
      row exists and its text is neither NULL nor empty; otherwise none. */
  function RecordedNumbers(rows: seq<ScoreRow>): seq<int> {
    if |rows| == 0 || rows[0].wrongQuestions.None? || rows[0].wrongQuestions.value == "" then []
    else WrongQuestionNumbers(rows[0].wrongQuestions.value)
  }

  /** `run`, preceded by one more call to the outside world. */
  function After(call: Call, run: NoteRun): (r: NoteRun)
    ensures r.reply == run.reply && r.calls == [call] + run.calls
  {
    NoteRun(run.reply, [call] + run.calls)
  }

  /** The body of `GET /generate-note-images?studentPhone=..&roundId=..`. */
  function GenerateNoteImages(env: NoteEnv, phone: string, roundId: string): (run: NoteRun)
    ensures |run.calls| >= 1 && run.calls[0] == ScoreQuery(phone, roundId)
  {
    var scores := env.scoreRows(phone, roundId);
    After(ScoreQuery(phone, roundId),
          if scores.None? then NoteRun(ServerError, [])
          else LookUpRegions(env, roundId, RecordedNumbers(scores.value)))
  }

  /** Steps 2 and 3: stop on an empty number list, else query the regions
      and stop on an empty answer. */
  function LookUpRegions(env: NoteEnv, roundId: string, numbers: seq<int>): (run: NoteRun)
    ensures |numbers| == 0 <==> |run.calls| == 0
    ensures |run.calls| > 0 ==> run.calls[0] == RegionQuery(roundId, numbers)
  {
    if |numbers| == 0 then NoteRun(Images([]), [])
    else
      var rows := env.regionRows(roundId, numbers);
      After(RegionQuery(roundId, numbers),
            if rows.None? then NoteRun(ServerError, [])
            else if |rows.value| == 0 then NoteRun(Images([]), [])
            else CropRegions(env, rows.value))
  }

  /** Steps 4 to 6: fetch the first row's document once and crop every
      region out of it. */
  function CropRegions(env: NoteEnv, rows: seq<RegionRow>): (run: NoteRun)
    requires |rows| > 0
    ensures run.calls == [FetchDocument(rows[0].fileKey)]
  {
    var key := rows[0].fileKey;
    var doc := env.fetch(key);
    var images := if doc.Some? then ExtractAll(key, doc.value, rows) else None;
    NoteRun(if images.Some? then Images(images.value) else ServerError, [FetchDocument(key)])
  }

  // ---------------------------------------------------------------------------
  // Properties of the handler
  // ---------------------------------------------------------------------------

  predicate FetchesDocument(run: NoteRun) {
    exists i :: 0 <= i < |run.calls| && run.calls[i].FetchDocument?
  }

  /** With no score row, a NULL or empty `wrong_questions`, or a text none
      of whose tokens reads as a number, the reply is `[]` and the handler
      made no call after the score query. */
  lemma NothingRecordedMeansEmptyReply(env: NoteEnv, phone: string, roundId: string, scores: seq<ScoreRow>)
    requires env.scoreRows(phone, roundId) == Some(scores)
    requires || |scores| == 0
             || scores[0].wrongQuestions.None?
             || scores[0].wrongQuestions.value == ""
             || |WrongQuestionNumbers(scores[0].wrongQuestions.value)| == 0
    ensures GenerateNoteImages(env, phone, roundId) == NoteRun(Images([]), [ScoreQuery(phone, roundId)])
  {
  }

  /** When the region query matches nothing the reply is `[]` and nothing
      is fetched. */
  lemma NoRegionsMeansEmptyReply(env: NoteEnv, phone: string, roundId: string, scores: seq<ScoreRow>)
    requires env.scoreRows(phone, roundId) == Some(scores)
    requires |RecordedNumbers(scores)| > 0
    requires env.regionRows(roundId, RecordedNumbers(scores)) == Some([])
    ensures GenerateNoteImages(env, phone, roundId).reply == Images([])
    ensures !FetchesDocument(GenerateNoteImages(env, phone, roundId))
  {
  }

  /** The path through the handler once the document has been fetched. */
  lemma FetchedPath(env: NoteEnv, phone: string, roundId: string,
                    scores: seq<ScoreRow>, rows: seq<RegionRow>, doc: Document)
    requires env.scoreRows(phone, roundId) == Some(scores)
    requires |RecordedNumbers(scores)| > 0
    requires env.regionRows(roundId, RecordedNumbers(scores)) == Some(rows)
    requires |rows| > 0 && env.fetch(rows[0].fileKey) == Some(doc)
    ensures var run := GenerateNoteImages(env, phone, roundId);
            && run.calls == [ScoreQuery(phone, roundId), RegionQuery(roundId, RecordedNumbers(scores)),
                             FetchDocument(rows[0].fileKey)]
            && run.reply == (var r := ExtractAll(rows[0].fileKey, doc, rows);
                             if r.Some? then Images(r.value) else ServerError)
  {
  }

  /** The handler's calls, case by case: the score query alone when it
      fails or yields no numbers, the region query next when it fails or
      matches nothing, and the single fetch last otherwise. */
  lemma HandlerCalls(env: NoteEnv, phone: string, roundId: string)
    ensures var scores := env.scoreRows(phone, roundId);
            scores.None? || |RecordedNumbers(scores.value)| == 0 ==>
              GenerateNoteImages(env, phone, roundId).calls == [ScoreQuery(phone, roundId)]
    ensures var scores := env.scoreRows(phone, roundId);
            scores.Some? && |RecordedNumbers(scores.value)| > 0 ==>
              var numbers := RecordedNumbers(scores.value);
              var rows := env.regionRows(roundId, numbers);
              var calls := GenerateNoteImages(env, phone, roundId).calls;
              if rows.None? || |rows.value| == 0 then calls == [ScoreQuery(phone, roundId), RegionQuery(roundId, numbers)]
              else calls == [ScoreQuery(phone, roundId), RegionQuery(roundId, numbers), FetchDocument(rows.value[0].fileKey)]
  {
    var scores := env.scoreRows(phone, roundId);
    if scores.Some? {
      var numbers := RecordedNumbers(scores.value);
      var rest := LookUpRegions(env, roundId, numbers);
      assert GenerateNoteImages(env, phone, roundId).calls == [ScoreQuery(phone, roundId)] + rest.calls;
      if |numbers| > 0 {
        LookUpCalls(env, roundId, numbers);
      }
    }
  }

  lemma LookUpCalls(env: NoteEnv, roundId: string, numbers: seq<int>)
    requires |numbers| > 0
    ensures var rows := env.regionRows(roundId, numbers);
            var calls := LookUpRegions(env, roundId, numbers).calls;
            if rows.None? || |rows.value| == 0 then calls == [RegionQuery(roundId, numbers)]
            else calls == [RegionQuery(roundId, numbers), FetchDocument(rows.value[0].fileKey)]
  {
  }

  /** No two of the handler's calls are document fetches. */
  lemma FetchAtMostOnce(env: NoteEnv, phone: string, roundId: string)
    ensures var run := GenerateNoteImages(env, phone, roundId);
            forall i, j :: 0 <= i < j < |run.calls| ==> !(run.calls[i].FetchDocument? && run.calls[j].FetchDocument?)
  {
    HandlerCalls(env, phone, roundId);
  }

  /** The document is fetched exactly when the score query succeeded with
      numbers recorded and the region query returned rows. */
  lemma FetchOnlyWithRegions(env: NoteEnv, phone: string, roundId: string)
    ensures var run := GenerateNoteImages(env, phone, roundId);
            FetchesDocument(run) <==>
              && env.scoreRows(phone, roundId).Some?
              && var numbers := RecordedNumbers(env.scoreRows(phone, roundId).value);
                 && |numbers| > 0
                 && env.regionRows(roundId, numbers).Some?
                 && |env.regionRows(roundId, numbers).value| > 0
  {
    HandlerCalls(env, phone, roundId);
    var run := GenerateNoteImages(env, phone, roundId);
    if |run.calls| == 3 {
      assert run.calls[2].FetchDocument?;
    } else {
      assert forall i :: 0 <= i < |run.calls| ==> !run.calls[i].FetchDocument?;
    }
  }

  /** The key fetched is the first region row's. */
  lemma FetchFirstRowKey(env: NoteEnv, phone: string, roundId: string)
    ensures var run := GenerateNoteImages(env, phone, roundId);
            forall i :: 0 <= i < |run.calls| && run.calls[i].FetchDocument? ==>
              var rows := env.regionRows(roundId, RecordedNumbers(env.scoreRows(phone, roundId).value)).value;
              |rows| > 0 && run.calls[i].key == rows[0].fileKey
  {
    HandlerCalls(env, phone, roundId);
  }

  /** Once the region rows and the document are in hand, a successful reply
      holds exactly one image per row, in row order, each tagged with its
      row's question number and made of the single cropped page. */
  lemma OneImagePerRegion(env: NoteEnv, phone: string, roundId: string,
                          scores: seq<ScoreRow>, rows: seq<RegionRow>, doc: Document, images: seq<NoteImage>)
    requires env.scoreRows(phone, roundId) == Some(scores)
    requires |RecordedNumbers(scores)| > 0
    requires env.regionRows(roundId, RecordedNumbers(scores)) == Some(rows)
    requires |rows| > 0 && env.fetch(rows[0].fileKey) == Some(doc)
    requires GenerateNoteImages(env, phone, roundId).reply == Images(images)
    ensures |images| == |rows|
    ensures forall i :: 0 <= i < |rows| ==>
              && images[i].questionNumber == rows[i].questionNumber
              && images[i].imageData.pages
                 == [CroppedPage(rows[0].fileKey, rows[i].pageNumber - 1,
                                 doc.pages[rows[i].pageNumber - 1],
                                 CropBox(rows[i], doc.pages[rows[i].pageNumber - 1]))]
  {
    FetchedPath(env, phone, roundId, scores, rows, doc);
    var r := ExtractAll(rows[0].fileKey, doc, rows);
    assert r.Some? && r.value == images;
    forall i | 0 <= i < |rows|
      ensures images[i].questionNumber == rows[i].questionNumber
      ensures images[i].imageData.pages
           == [CroppedPage(rows[0].fileKey, rows[i].pageNumber - 1,
                           doc.pages[rows[i].pageNumber - 1],
                           CropBox(rows[i], doc.pages[rows[i].pageNumber - 1]))]
    {
      var e := ExtractRegion(rows[0].fileKey, doc, rows[i]);
      assert e.Some? && images[i] == e.value;
    }
  }

  /** A region whose page the document does not have fails the whole
      request: the reply is the 500 error, never a shorter list. */
  lemma BadPageFailsRequest(env: NoteEnv, phone: string, roundId: string,
                            scores: seq<ScoreRow>, rows: seq<RegionRow>, doc: Document, k: int)
    requires env.scoreRows(phone, roundId) == Some(scores)
    requires |RecordedNumbers(scores)| > 0
    requires env.regionRows(roundId, RecordedNumbers(scores)) == Some(rows)
    requires |rows| > 0 && env.fetch(rows[0].fileKey) == Some(doc)
    requires 0 <= k < |rows| && !PageInRange(doc, rows[k])
    ensures GenerateNoteImages(env, phone, roundId).reply == ServerError
  {
    FetchedPath(env, phone, roundId, scores, rows, doc);
  }

  /** The catch block's 500 reply: a throwing score query, a throwing
      region query, or a failed download or load each give it. */
  lemma FailuresGive500(env: NoteEnv, phone: string, roundId: string)
    ensures env.scoreRows(phone, roundId).None? ==> GenerateNoteImages(env, phone, roundId).reply == ServerError
    ensures var scores := env.scoreRows(phone, roundId);
            && scores.Some? && |RecordedNumbers(scores.value)| > 0
            && env.regionRows(roundId, RecordedNumbers(scores.value)).None?
            ==> GenerateNoteImages(env, phone, roundId).reply == ServerError
    ensures var scores := env.scoreRows(phone, roundId);
            scores.Some? && |RecordedNumbers(scores.value)| > 0 ==>
              var rows := env.regionRows(roundId, RecordedNumbers(scores.value));
              rows.Some? && |rows.value| > 0 && env.fetch(rows.value[0].fileKey).None? ==>
                GenerateNoteImages(env, phone, roundId).reply == ServerError
  {
  }

  /** Conversely, those failures and a page out of range are the only
      ways to the 500 reply: it comes back exactly when one of them
      happens on the handler's path. */
  lemma ServerErrorCauses(env: NoteEnv, phone: string, roundId: string)
    ensures GenerateNoteImages(env, phone, roundId).reply == ServerError <==>
              || env.scoreRows(phone, roundId).None?
              || var numbers := RecordedNumbers(env.scoreRows(phone, roundId).value);
                 && |numbers| > 0
                 && var rows := env.regionRows(roundId, numbers);
                    || rows.None?
                    || (&& |rows.value| > 0
                        && var doc := env.fetch(rows.value[0].fileKey);
                           || doc.None?
                           || exists k :: 0 <= k < |rows.value| && !PageInRange(doc.value, rows.value[k]))
  {
  }

  /** Rows in ascending question order, as the query's ORDER BY returns
      them, give images in ascending question order. */
  lemma ImagesFollowRowOrder(env: NoteEnv, phone: string, roundId: string,
                             scores: seq<ScoreRow>, rows: seq<RegionRow>, images: seq<NoteImage>)
    requires env.scoreRows(phone, roundId) == Some(scores)
    requires env.regionRows(roundId, RecordedNumbers(scores)) == Some(rows)
    requires forall i, j :: 0 <= i < j < |rows| ==> rows[i].questionNumber <= rows[j].questionNumber
    requires GenerateNoteImages(env, phone, roundId).reply == Images(images)
    ensures forall i, j :: 0 <= i < j < |images| ==> images[i].questionNumber <= images[j].questionNumber
  {
    if |RecordedNumbers(scores)| > 0 && |rows| > 0 && env.fetch(rows[0].fileKey).Some? {
      var doc := env.fetch(rows[0].fileKey).value;
      OneImagePerRegion(env, phone, roundId, scores, rows, doc, images);
    }
  }
}
