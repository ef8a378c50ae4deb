# Academy server routes in Dafny

A model of the plain JavaScript logic in four Express route files of an
academy back-end. The back-end runs on MySQL, S3 and pdf-lib. The logic
sits around the SQL and the libraries. The database, the object store,
the PDF library and the spreadsheet libraries are not modelled; each
becomes a function parameter (an oracle) or a given sequence of rows.

- `NoteImages` (`note_images.dfy`) models the wrong-answer note generator
  behind `GET /generate-note-images`. It reads the comma-separated
  `wrong_questions` text with `trim` and `parseInt`, exits early with `[]`
  in three cases, and fetches the material's PDF once, using the first
  region row's key. It then turns each top-left-origin region into a
  bottom-left-origin crop box and returns one single-page document per
  region row, in row order. A bad page number fails the whole request
  with 500.
- `MaterialStore` (`material_store.dfy`) models `POST /upload`: the
  default material name, the S3 key, and the 201/409/500 replies. It also
  models `POST /define-regions`, the delete-all-then-insert-all
  transaction with rollback.
- `ReportExport` (`report_export.dfy`) models `GET
  /download-all-students`. Per class, it groups attendance and score rows
  per roster phone and date key, collects the distinct keys and sorts
  them. It builds three fixed columns plus four per date and one row per
  student, with the `||` and `??` defaults.
- `RosterImport` (`roster_import.dfy`) models `POST /upload-roster`. For
  each sheet it registers a class, filters valid students, builds value
  rows and keeps the counters. It commits once at the end and rolls back
  on any error. `ImportSheets` and `UploadRoster` are methods with loop
  invariants.
- `ScoreRoutes` (`score_routes.dfy`) models the score routes: the
  required-parameter checks of `/rounds`, `/roster`, `/list`,
  `/search-student` and `/save`, and the conditional WHERE clause and
  parameter list of `/inquiry`.
- Support modules hold the JavaScript semantics the handlers rely on:
  - `JsValue`: loosely typed values, truthiness, `||`, `??` and
    `String()`.
  - `JsText`: `trim`, `split` and `join`.
  - `JsNumber`: decimal numerals and `parseInt`.
  - `LexOrder`: the default `Array.prototype.sort` order.
  - `Optional`: an option type.

Points where the code behaves differently from what a reader might
expect, all followed by the model:

- The crop box applies no scale factor. The stored coordinates are used
  as they are (`server/routes/materials.js:188-193`).
- The wrong-question parse filters out only `NaN`
  (`server/routes/materials.js:165`). Negative numbers, zero and
  duplicates are kept, and the result is a list in token order.
- A region whose page does not exist fails the whole request with 500,
  because the `Promise.all` at `server/routes/materials.js:207` rejects.
- The note handler reads the query parameters `studentPhone` and
  `roundId` (`server/routes/materials.js:158`).

## Model

| member | source | states |
|---|---|---|
| NoteImages.ParsedNumbersMembers | server/routes/materials.js:165 | a number is in the parsed list exactly when some token reads as that number; unreadable tokens contribute nothing |
| NoteImages.WrongQuestionNumbers | server/routes/materials.js:165 | the wrong-question numbers: `split(',')`, `parseInt` of each trimmed token, `NaN` dropped; characterised by `ParsedNumbersMembers`, `WrongQuestionsConcat` and the inverse `WrongQuestionsRoundTrip` |
| NoteImages.WrongQuestionsConcat | server/routes/materials.js:165 | the numbers of `a,b` are the numbers of `a` followed by the numbers of `b`, so token order is kept |
| NoteImages.WrongQuestionsRoundTrip | server/routes/materials.js:165 | every list of integers, negatives and repeats included, is read back unchanged and in order from its comma-joined decimal text |
| NoteImages.SingleNumberReads | server/routes/materials.js:165 | the text `String(n)` alone lists exactly `n` |
| NoteImages.PaddedNumberReads | server/routes/materials.js:165 | a token with a blank before the number still reads as that number, because `trim` runs before `parseInt` |
| NoteImages.UnreadableToken | server/routes/materials.js:165 | a token made of a blank and a non-digit, non-sign letter is dropped as `NaN` |
| NoteImages.JunkTokenReadsNothing | server/routes/materials.js:165 | the token ` x` lists no number |
| NoteImages.ExampleWithJunkToken | server/routes/materials.js:165 | `"3, 7, x, 15"` lists `[3, 7, 15]` |
| NoteImages.CropBox | server/routes/materials.js:188-193 | the box keeps `x`, `width` and `height`, and `box.y + box.height + region.y` equals the page height |
| NoteImages.CropBoxExample | server/routes/materials.js:188-193 | a 200 by 80 region at (100, 50) on an A4 page of height 841.89 gives the box (100, 711.89, 200, 80) |
| NoteImages.ExtractRegion | server/routes/materials.js:184-203 | a region succeeds exactly when its page exists; the result is one page copied from that page of the source, cropped to the region's box, tagged with the region's question number |
| NoteImages.ExtractAll | server/routes/materials.js:183-207 | the fan-out succeeds exactly when every region's page exists, and then gives one image per row, in row order |
| NoteImages.GenerateNoteImages | server/routes/materials.js:157-214 | the handler's first call is always the score query for the given phone and round; its replies are characterised by the lemmas below, the 500 reply by `FailuresGive500` and `ServerErrorCauses` |
| NoteImages.LookUpRegions | server/routes/materials.js:165-176 | no region query is made when no number was read, and otherwise the region query comes first, with exactly the numbers read |
| NoteImages.CropRegions | server/routes/materials.js:179-180 | once region rows exist, the only further call is one fetch of the first row's file key |
| NoteImages.RecordedNumbers | server/routes/materials.js:162-165 | no score row, or a NULL or empty `wrong_questions`, records no number; otherwise the text's parsed numbers |
| NoteImages.NothingRecordedMeansEmptyReply | server/routes/materials.js:161-166 | with no score row, a NULL or empty text, or no readable token, the reply is `[]` and nothing but the score query was made |
| NoteImages.NoRegionsMeansEmptyReply | server/routes/materials.js:175-176 | when the region query matches nothing, the reply is `[]` and no document is fetched |
| NoteImages.FetchedPath | server/routes/materials.js:161-208 | with rows and a loaded document, the calls are the score query, the region query and one fetch, and the reply is the extraction's outcome |
| NoteImages.HandlerCalls | server/routes/materials.js:161-180 | the exact call sequence in each case: the score query alone, then the region query, then the single fetch |
| NoteImages.LookUpCalls | server/routes/materials.js:175-180 | after the score query: the region query alone when it fails or matches nothing, else the region query and one fetch of the first row's key |
| NoteImages.FetchAtMostOnce | server/routes/materials.js:179-180 | no two of the handler's calls are document fetches |
| NoteImages.FetchOnlyWithRegions | server/routes/materials.js:162-180 | the document is fetched if and only if the score query succeeded with numbers read and the region query returned rows |
| NoteImages.FetchFirstRowKey | server/routes/materials.js:179 | any fetch uses the first region row's file key |
| NoteImages.OneImagePerRegion | server/routes/materials.js:183-208 | a successful reply holds exactly one image per region row, in row order, each with its row's question number and its single cropped page |
| NoteImages.BadPageFailsRequest | server/routes/materials.js:183-212 | one region whose page the document lacks makes the reply 500, never a shorter list |
| NoteImages.FailuresGive500 | server/routes/materials.js:161-212 | the reply is the catch block's 500 when the score query throws, when the region query throws after numbers were read, and when the download or load of the first row's file fails (:161, :175, :179-180, :210-212) |
| NoteImages.ServerErrorCauses | server/routes/materials.js:157-214 | the reply is 500 exactly when the score query throws, or numbers were read and then the region query throws, or rows came back and the download or load fails or some row names a page the document lacks |
| NoteImages.ImagesFollowRowOrder | server/routes/materials.js:169-208 | rows in ascending question order give images in ascending question order |
| MaterialStore.UploadRow | server/routes/materials.js:43-56 | the inserted row is the form's fields and the file's key and URL, with a falsy `materialName` replaced by the original file name |
| MaterialStore.Upload | server/routes/materials.js:49-70 | 201 exactly when the insert succeeds (with its id and the file URL), 409 exactly on `ER_DUP_ENTRY`, 500 on any other error |
| MaterialStore.StorageKeyTimestamp | server/routes/materials.js:26 | the key starts with `materials/`, and `parseInt` of what follows reads back the upload's timestamp |
| MaterialStore.StorageKeysDiffer | server/routes/materials.js:26 | uploads at different milliseconds get different keys, whatever the file names |
| MaterialStore.PrefixedNumberReads | server/routes/materials.js:26 | a prefix, a decimal number, a non-digit separator and a name: the number reads back after the prefix |
| MaterialStore.OtherRows | server/routes/materials.js:132 | the rows kept by the delete belong to other materials and are no more than the table's |
| MaterialStore.OtherRowsFromTable | server/routes/materials.js:132 | the delete never invents a row: every kept row was in the table |
| MaterialStore.DeleteEffect | server/routes/materials.js:132 | the delete leaves no region of the material and every other row as it was, in order |
| MaterialStore.InsertFrom | server/routes/materials.js:135-139 | the insert loop succeeds exactly when no insert fails, and then appends one row per submitted region, in array order, after the rows already there |
| MaterialStore.DefineRegions | server/routes/materials.js:122-150 | 400 exactly when `materialId` is falsy or `regions` is missing; 200 exactly when no statement fails; any reply other than 200 leaves the table unchanged |
| MaterialStore.DefineRegionsReplaces | server/routes/materials.js:131-141 | after a save the material's regions are exactly the submitted list, in order, and other materials' rows are unchanged |
| MaterialStore.DefineRegionsIdempotent | server/routes/materials.js:131-141 | saving the same list again succeeds under the same faults and leaves the same regions and other rows |
| MaterialStore.RegionsOfConcat | server/routes/materials.js:132-139 | the regions of a material in two concatenated tables are those of the first followed by those of the second |
| MaterialStore.OtherRowsConcat | server/routes/materials.js:132-139 | the same for the rows of other materials |
| MaterialStore.RowsOfOneMaterial | server/routes/materials.js:135-139 | rows all inserted for one material give back exactly the inserted regions and no row of another material |
| MaterialStore.RowsOfOtherMaterials | server/routes/materials.js:132 | rows none of which belongs to the material hold none of its regions and are all kept |
| ReportExport.DayOf | server/routes/export.js:31-42 | the date key is the formatted date up to its first `T`: a prefix of the formatted text, without `T`, followed by `T` or the end of the text |
| ReportExport.ScoreKey | server/routes/export.js:41-42 | `s.date ?` is a truthiness test: a row whose date is neither NULL nor empty is keyed by its day, which holds no `T`; any other row by `(날짜없음-<round>회차)`, which starts with `(` |
| ReportExport.EmptyDateIsUndated | server/routes/export.js:41-42 | an empty date text is falsy, so the row gets the same `(날짜없음-<round>회차)` key as a row whose date is NULL |
| ReportExport.UndatedKeysFirst | server/routes/export.js:41-56 | the key `(날짜없음-<round>회차)` of a score row with a NULL or empty date sorts before every key that starts with a digit |
| ReportExport.AttendanceUpdates | server/routes/export.js:29-38 | one update per attendance row, in row order, keyed by the row's phone and day, setting the attendance field |
| ReportExport.ScoreUpdates | server/routes/export.js:39-51 | one update per score row, in row order, keyed by the row's phone and date key, setting the score and both assignments |
| ReportExport.EmptyData | server/routes/export.js:26-27 | the map's keys are exactly the roster phones, each with no records |
| ReportExport.Apply | server/routes/export.js:29-51 | one `forEach` step: a row of a roster phone creates its date record if needed and sets that change's fields; a row of any other phone changes nothing; its effect over all rows is `GroupRecords` |
| ReportExport.Group | server/routes/export.js:29-51 | grouping never adds or removes a student |
| ReportExport.LastScore | server/routes/export.js:47-49 | the last score change found for a phone and key is a score change |
| ReportExport.GroupRecords | server/routes/export.js:29-51 | a roster phone has a record under a key exactly when some row for that phone has that key, and the record holds, field by field, what the last row assigning that field wrote |
| ReportExport.UntouchedIsBlank | server/routes/export.js:33-34 | with no row for a phone and key, the expected record is blank |
| ReportExport.LastAttendanceAfterScores | server/routes/export.js:39-51 | score rows applied after the attendance rows never change the attendance field |
| ReportExport.LastScoreAfterScores | server/routes/export.js:29-38 | attendance rows applied before the score rows never decide the score fields |
| ReportExport.LastScoreOfAttendance | server/routes/export.js:29-38 | attendance rows alone carry no score change |
| ReportExport.RecordsMerge | server/routes/export.js:33-49 | attendance and score rows for one phone and key merge into one record: attendance from the last attendance row, scores from the last score row |
| ReportExport.CollectedKeys | server/routes/export.js:29-55 | a key is collected exactly when some row for a roster phone carries it |
| ReportExport.HeadersAreRecordKeys | server/routes/export.js:54-56 | the date headers are strictly ascending and are exactly the keys of all students' records |
| ReportExport.AllDateColumns | server/routes/export.js:63-68 | four columns per date, each date's block at its position |
| ReportExport.DateHeaders | server/routes/export.js:53-56 | the date headers are the collected record keys, deduplicated and sorted; `HeadersAreRecordKeys` shows they are exactly the records' keys, strictly ascending |
| ReportExport.SheetColumns | server/routes/export.js:58-69 | the columns are name, phone and school, then for each date, in order, its attendance, score, first and second assignment columns: 3 + 4 × dates in all |
| ReportExport.DateColumnKeys | server/routes/export.js:64-67 | a date's four columns are keyed `att_`, `scr_`, `asg1_` and `asg2_` plus the date |
| ReportExport.CellKeysDistinct | server/routes/export.js:59-67 | no two cell keys collide: different dates or different prefixes give different keys, and none equals a fixed key |
| ReportExport.WithDateCells | server/routes/export.js:76-80 | one date's four cells: attendance and both assignments defaulting to `-` when falsy (logical or), the score defaulting to `-` only when null or undefined (`??`); stated by `NewCells`, `OtherCellsKept` and `FixedCellsKept` |
| ReportExport.NewCells | server/routes/export.js:76-80 | a date's four cells hold the record's values with the defaults: `-` for a falsy attendance or assignment, and `-` for a score only when null or undefined |
| ReportExport.OtherCellsKept | server/routes/export.js:75-81 | writing one date's cells leaves another date's cells as they were |
| ReportExport.FixedCellsKept | server/routes/export.js:74-81 | writing a date's cells leaves the name, phone and school cells as they were |
| ReportExport.StudentRow | server/routes/export.js:72-81 | the row has the student's name, phone and school, and for every date the cells of that date's record, or of a blank record when there is none: falsy attendance and assignments become `-`, and the score becomes `-` only when null or undefined |
| ReportExport.RowCoversColumns | server/routes/export.js:69-82 | every column key has a value in every student's row |
| ReportExport.ColumnKeyInRow | server/routes/export.js:69-82 | the key of column `n` is present in the row |
| ReportExport.FixedKeyInRow | server/routes/export.js:58-74 | the three fixed column keys are present in the row |
| ReportExport.DateKeyInRow | server/routes/export.js:63-80 | each of a date's four column keys is present in the row |
| ReportExport.DatePosition | server/routes/export.js:63-68 | a column past the fixed three belongs to exactly one date's block of four |
| ReportExport.StudentRows | server/routes/export.js:72-83 | one row per roster student, in roster order, each built from that student's records |
| ReportExport.ClassSheet | server/routes/export.js:16-83 | the sheet is named after the class and has one row per roster student |
| ReportExport.ClassSheetRows | server/routes/export.js:72-83 | row `i` is student `i`'s, and its cells for each header show the grouped record for that student and key, or blanks |
| ReportExport.ClassResult | server/routes/export.js:21-23 | a class's sheet is built exactly when its three queries succeed |
| ReportExport.ForEachClass | server/routes/export.js:16-18 | the class loop succeeds exactly when every class succeeds, and then gives one result per class, in order |
| ReportExport.Export | server/routes/export.js:6-101 | 404 exactly when there are no classes; 500 exactly when a query fails; otherwise one sheet per class, named after it, in class order |
| RosterImport.ValidStudents | server/routes/registration.js:36 | a row is kept exactly when its name and phone cells are both truthy, and the result is no longer than the sheet |
| RosterImport.ValidStudentsCount | server/routes/registration.js:36-37 | the filter drops no duplicate: a valid row is kept as many times as the sheet holds it, an invalid one never, so `totalCount` counts rows |
| RosterImport.ValidStudentsConcat | server/routes/registration.js:36 | the filter keeps row order: the valid rows of two stretches of a sheet are those of the first followed by those of the second |
| RosterImport.ValueRow | server/routes/registration.js:41-46 | the value row is the sheet name, the name cell, `String(phone).trim()` and the school cell or `''`; its properties are in `ValueRowPhoneTrimmed` and `NumericPhoneIsDigits` |
| RosterImport.ValueRows | server/routes/registration.js:41-46 | one value row per valid student, in order |
| RosterImport.ValueRowPhoneTrimmed | server/routes/registration.js:44 | the stored phone never has whitespace at either end |
| RosterImport.NumericPhoneIsDigits | server/routes/registration.js:44 | a numeric phone cell is stored as its decimal digits |
| RosterImport.InsertIgnore | server/routes/registration.js:48-50 | `INSERT IGNORE` keeps the old table as a prefix, adds `affectedRows` rows taken from the values, and leaves every value row present or clashing with a present row |
| RosterImport.InsertIgnoreStep | server/routes/registration.js:48-50 | inserting one row, then the rest, keeps those three facts |
| RosterImport.CoveredGrows | server/routes/registration.js:48-50 | a row covered by a table stays covered when the table grows |
| RosterImport.SheetNames | server/routes/registration.js:25-27 | the class names registered are exactly the sheet names |
| RosterImport.AllValues | server/routes/registration.js:36-46 | as many value rows as valid students over all sheets |
| RosterImport.NoCommitAmongSheets | server/routes/registration.js:25-51 | the sheet loop never begins or commits a transaction |
| RosterImport.AddSheet | server/routes/registration.js:27 | every sheet registers its class, even one with no valid students |
| RosterImport.PrefixStep | server/routes/registration.js:25-51 | the running totals over the first `i + 1` sheets extend those over the first `i` |
| RosterImport.AddSheetRows | server/routes/registration.js:39-50 | one sheet adds at most its value rows, all of them its own, and leaves each of them covered |
| RosterImport.AppendKeepsRosters | server/routes/registration.js:25-51 | the facts about the rows added so far survive one more sheet |
| RosterImport.AddSheetProgresses | server/routes/registration.js:25-51 | one more sheet keeps the loop's facts: the valid count, the added count, the classes and the rows |
| RosterImport.SheetStatementsGrow | server/routes/registration.js:25-50 | the statements of an import that stopped at one sheet are a prefix of those of one that went further |
| RosterImport.StopsAfterSuccesses | server/routes/registration.js:16-64 | statements that all succeeded, followed by a run cut short by an error, form a run cut short by that same first error |
| RosterImport.SheetTurn | server/routes/registration.js:27-50 | one loop turn sends the class insert, then the roster insert when the sheet has valid students; when a statement throws, the statements sent are a prefix of that turn, every one before the last succeeded, and the error is the last one's |
| RosterImport.ImportSheets | server/routes/registration.js:25-51 | on success the loop sent exactly the per-sheet statements, all succeeding, and its facts hold for all sheets; on an error the statements sent are a prefix of the per-sheet statements, all but the last succeeded, and the error is the one the last threw |
| RosterImport.TurnFailed | server/routes/registration.js:25-50 | a turn cut short by an error after the earlier sheets went through leaves a prefix of the full loop's statements that stops at that first error |
| RosterImport.ImportWorkbook | server/routes/registration.js:18-64 | after a successful begin: on 500 the database is unchanged, the statements sent are a prefix of the loop's statements plus the commit, all but the last succeeded and the reply carries the last one's error or the default text; on 200 the loop's statements and the commit all succeeded and the counters, classes and rosters are as in `UploadRoster` |
| RosterImport.BegunFailed | server/routes/registration.js:16-64 | a run cut short after a successful begin is a prefix of the whole transaction that stops at its first error |
| RosterImport.BegunSucceeded | server/routes/registration.js:16-54 | a run that went through is the whole transaction, every statement succeeding, with the only commit at its end |
| RosterImport.UploadRoster | server/routes/registration.js:9-70 | 400 exactly when there is no file, with no statement sent; any reply other than 200 leaves the database unchanged; on 500 the statements sent are a prefix of the full transaction (only begin for an unreadable file), all but the last succeeded, and the reply carries the message of the first error (the last statement's, or the workbook read's) or the default text; on 200 the statements are begin, the sheets' inserts and one commit, all succeeding, the message counts the sheets, `totalCount` is the number of valid students over all sheets and never below `addedCount`, `skippedCount = totalCount - addedCount`, every sheet name becomes a class, the roster grows by exactly `addedCount` rows appended after the old ones, and every value row is in the roster or clashes with a row there |
| ScoreRoutes.RunQuery | server/routes/scores.js:9-13 | the rows of the query run with the given parameters, or 500 when it throws |
| ScoreRoutes.ClassLookup | server/routes/scores.js:6-25 | `/rounds` and `/roster`: 400 and no query exactly when `className` is falsy; otherwise the query binds `[className]` |
| ScoreRoutes.ScoreList | server/routes/scores.js:28-40 | 400 and no query exactly when either parameter is falsy; otherwise the query binds `[round, className]` |
| ScoreRoutes.SearchStudent | server/routes/scores.js:59-67 | an empty list, not 400, and no query when either parameter is falsy; otherwise the query binds the class and `%name%` |
| ScoreRoutes.SaveParams | server/routes/scores.js:54 | the twelve values bound to the upsert, in column order, with a falsy `memo` stored as `''` |
| ScoreRoutes.RunSave | server/routes/scores.js:45-56 | a rejected form gets 400 and no upsert; an accepted one sends the twelve values and gets 200 exactly when the upsert succeeds |
| ScoreRoutes.HasRequired | server/routes/scores.js:45 | the seven required fields of `/save` must all be truthy; `ZeroScoreRejected` shows what that means for a score of 0 |
| ScoreRoutes.Save | server/routes/scores.js:43-57 | 400 and no upsert exactly when one of the seven required fields is falsy |
| ScoreRoutes.ZeroScoreRejected | server/routes/scores.js:45 | a numeric `test_score` of 0 is refused with 400 and never stored |
| ScoreRoutes.SaveCorrected | server/routes/scores.js:43-57 | with the score tested for presence: 400 and no upsert exactly when a required field is missing |
| ScoreRoutes.SaveCorrectedKeepsZero | server/routes/scores.js:45 | the corrected check answers as the original for every truthy or absent score, and stores a score of 0 as given |
| ScoreRoutes.Collect | server/routes/scores.js:79-90 | each condition is present exactly when its switch is on; the conditions come in the fixed order class, round, name; each parameter is its condition's |
| ScoreRoutes.PushInOrder | server/routes/scores.js:79-90 | pushing a condition ranked after all present ones keeps the conditions ordered and paired with their parameters |
| ScoreRoutes.InquiryFilters | server/routes/scores.js:79-90 | a class condition exactly when `className` is truthy and not `전체 분반`, a round condition exactly when `round` is truthy, and a name condition with `%studentName%` exactly when `studentName` is truthy, in that order |
| ScoreRoutes.ConditionTexts | server/routes/scores.js:79-90 | one SQL text per condition, in order |
| ScoreRoutes.Inquiry | server/routes/scores.js:74-96 | the query starts with `SELECT * FROM scores` and ends with the ordering; it has no WHERE exactly when no filter applies, and otherwise joins the conditions with ` AND ` after ` WHERE `; its parameters are the filters' |
| ScoreRoutes.InquiryPlaceholdersMatchParams | server/routes/scores.js:79-98 | the query text has exactly as many `?` placeholders as parameters |
| ScoreRoutes.FiltersBindPlaceholders | server/routes/scores.js:92-96 | any paired filters give a query text with one placeholder per parameter |
| ScoreRoutes.AssembledPlaceholders | server/routes/scores.js:92-96 | placeholder-free fixed parts around texts of one placeholder each give one placeholder per text |
| ScoreRoutes.ConditionTextsPlaceholders | server/routes/scores.js:79-90 | every condition text has exactly one placeholder |
| ScoreRoutes.ConditionPlaceholder | server/routes/scores.js:79-90 | each of the three conditions carries exactly one placeholder |
| ScoreRoutes.PlaceholderAtEnd | server/routes/scores.js:79-90 | a placeholder-free text followed by `?` has one placeholder |
| ScoreRoutes.PlaceholdersOfJoin | server/routes/scores.js:93 | joining one-placeholder texts with a placeholder-free separator gives one placeholder per text |
| ScoreRoutes.PlaceholdersConcat | server/routes/scores.js:92-96 | placeholders of a concatenation add up |
| ScoreRoutes.NoPlaceholder | server/routes/scores.js:74-96 | a text without `?` has no placeholder |
| ScoreRoutes.AllClassesIsNoFilter | server/routes/scores.js:79 | `전체 분반` gives the same query as no class at all |
| ScoreRoutes.InquiryRoute | server/routes/scores.js:70-105 | never 400; rows exactly when the assembled query succeeds, else 500 |
| JsValue.Truthy | server/routes/scores.js:45 | a value is falsy exactly when it is `undefined`, `null`, `false`, `0` or `''` (`NaN` does not arise among integers) |
| JsValue.Or | server/routes/export.js:77 | the logical-or operator on `a` and `b` gives `a` when `a` is truthy, otherwise `b` |
| JsValue.Coalesce | server/routes/export.js:78 | `a ?? b` is `a` unless it is `null` or `undefined` |
| JsValue.OrCoalesceDiffer | server/routes/export.js:77-78 | the logical or and `??` differ exactly on a left operand that is `false`, `0` or `''` with a different right operand |
| JsValue.ToStr | server/routes/registration.js:44 | `String(v)`: `undefined`, `null`, `true`/`false`, the decimal numeral of a number, and a text unchanged; the same conversion the template literals make of `${s.round}` (export.js:42) and of `%${name}%` (scores.js:64, :89) |
| JsText.Trim | server/routes/materials.js:165 | `trim()` returns a slice of its input with only whitespace outside it and none at its ends |
| JsText.TrimUntouched | server/routes/registration.js:44 | a text with no whitespace at either end is its own trim |
| JsText.TrimLeadingSpace | server/routes/materials.js:165 | a leading blank is trimmed away |
| JsText.TrimIdempotent | server/routes/registration.js:44 | trimming twice is trimming once |
| JsText.Split | server/routes/materials.js:165 | `split(',')` gives at least one piece, no piece contains the separator, and joining the pieces with it gives the input back |
| JsText.SplitConcat | server/routes/materials.js:165 | splitting at a separator inside a text splits the two sides apart |
| JsText.SplitJoin | server/routes/materials.js:165 | splitting a join of separator-free pieces gives the pieces back |
| JsText.SplitNoSeparator | server/routes/materials.js:165 | a text without the separator splits into itself alone |
| JsText.SplitHead | server/routes/export.js:31 | `split(sep)[0]` is the text before the first separator: a prefix of the input followed by the separator or the end |
| JsText.LeadingBlanks | server/routes/materials.js:165 | the count of whitespace characters a text starts with |
| JsText.ContentEnd | server/routes/materials.js:165 | where a text's trailing whitespace begins |
| JsNumber.ParseInt | server/routes/materials.js:165 | `parseInt` is `NaN` exactly when, after leading whitespace and one optional sign, no digit follows |
| JsNumber.LeadingNumeral | server/routes/materials.js:165 | a leading digit run is read exactly when the text starts with a digit |
| JsNumber.ParseIntOfDigits | server/routes/materials.js:165 | `parseInt` of digits followed by a non-digit reads the digits' value |
| JsNumber.ParseIntOfNegative | server/routes/materials.js:165 | after a minus sign the value is negated, so negative numbers survive the parse |
| JsNumber.ParseIntOfLetter | server/routes/materials.js:165 | a single character that is no blank, sign or digit reads as `NaN` |
| JsNumber.ParseIntOfShowInt | server/routes/materials.js:165 | `parseInt` reads back what `String(n)` writes, whatever non-digit text follows |
| JsNumber.ShowInt | server/routes/registration.js:44 | `String(n)` for an integer is a sign or digit followed by digits, ending in a digit |
| JsNumber.ShowNat | server/routes/registration.js:44 | `String(n)` for a natural number is all digits |
| JsNumber.DecimalValueOfShowNat | server/routes/materials.js:26 | the digits `String(n)` writes have the value `n` |
| JsNumber.DigitPrefix | server/routes/materials.js:165 | the longest digit prefix: digits only, followed by a non-digit or the end |
| JsNumber.DigitPrefixOfDigits | server/routes/materials.js:165 | the digit prefix of digits followed by a non-digit is exactly those digits |
| LexOrder.SortDistinct | server/routes/export.js:54-56 | `Array.from(new Set(keys)).sort()` is strictly ascending and holds exactly the keys |
| LexOrder.Insert | server/routes/export.js:56 | inserting into a strictly sorted list keeps it strictly sorted and adds exactly the element |
| LexOrder.SortDistinctIgnoresOrder | server/routes/export.js:55-56 | the sorted headers depend only on which keys were collected, not on the order of collection |
| LexOrder.SortedUnique | server/routes/export.js:56 | a strictly sorted list is determined by its elements |
| LexOrder.HeadsAgree | server/routes/export.js:56 | two strictly sorted lists with the same elements start alike |
| LexOrder.LessTotal | server/routes/export.js:56 | the sort order is total on different strings |
| LexOrder.LessTransitive | server/routes/export.js:56 | the sort order is transitive |
| LexOrder.LessIrreflexive | server/routes/export.js:56 | no string sorts before itself |
| LexOrder.LessAsymmetric | server/routes/export.js:56 | two strings never sort before each other both ways |

## Left out

- I/O and libraries are parameters. The S3 upload and download, multer,
  the AWS configuration, ExcelJS and xlsx workbook I/O, and
  `encodeURIComponent` are outside the model. The response headers
  (`server/routes/export.js:87-95`) and `connection.release()` are not
  modelled either.
- pdf-lib is reduced to a list of page sizes. A cropped document is the
  page it copies plus its crop box, and `saveAsBase64` is not modelled.
- SQL semantics are not modelled: JOIN, `IN`, `ORDER BY`, `ON DUPLICATE
  KEY`, `LIKE` and MySQL's type coercion. Query results are given
  sequences, or oracles over the bound parameters. `INSERT IGNORE` is
  modelled on an abstract unique-key relation (`clash`).
- Express routing and route order are left out. `GET /:id`
  (`server/routes/materials.js:99`) is registered before `GET
  /generate-note-images` (`server/routes/materials.js:157`), so Express
  would send that path to `/:id`. The model treats the note handler's
  body as a function of its query parameters.
- `pool.getConnection()` sits outside the `try` blocks
  (`server/routes/materials.js:127`, `server/routes/registration.js:14`).
  A failure there would be an unhandled rejection. The model assumes a
  connection is obtained.
- `Promise.all` is modelled as a sequential map in row order. No
  concurrency is modelled.
- Numbers are integers (`Num(int)`), and coordinates are `real`. `parseInt`
  is modelled for decimal input only. The `0x` hexadecimal prefix,
  fractional text and JavaScript floating point are not modelled.
- `new Date(x).toISOString()` is an abstract `toIso` function. An invalid
  date would throw a `RangeError`; that is not modelled.
- LexOrder.Less compares Unicode scalar values, not UTF-16 code units.
  The two orders agree on characters of the Basic Multilingual Plane.
- MaterialStore.DefineRegions: only a missing `regions` value and a list
  of region objects are modelled. A present value that is not iterable
  (a number, a plain object) throws at the `for...of`
  (`server/routes/materials.js:135`) and gets 500 after a rollback. A
  non-empty string is iterated character by character, and destructuring
  a character (`server/routes/materials.js:136`) gives `undefined`
  fields, which are sent as NULL values. In an array, a `null` or
  `undefined` element throws at that destructuring and gets 500 after a
  rollback; a number or text element gives an insert of `undefined`
  fields.
- MaterialStore.Upload: `req.file` is destructured outside the `try`
  (`server/routes/materials.js:44`). A request without a file part throws
  a `TypeError` there, an unhandled rejection that sends no reply. The
  model always takes an uploaded file.
- Statement failures inside the transactions are given by a fault oracle
  per statement. An error raised by `beginTransaction`, `commit` or
  `rollback` itself is a fault of that statement; a failing rollback is
  not modelled.
- The worksheet-name limits of ExcelJS (length, forbidden characters,
  duplicates) are not modelled; `addWorksheet` is assumed to succeed.
- The routes in `server/routes/attendance.js`, `server/routes/rounds.js`
  and `server/routes/studentRoutes.js` are parameter plumbing around SQL,
  as are `GET /list` and `GET /:id` of the materials routes. They are not
  modelled.

## Findings

| source | as written | input that shows it | evidently intended | confidence | as-written member | corrected member |
|---|---|---|---|---|---|---|
| server/routes/scores.js:45 | `!test_score` rejects every falsy score | a JSON body with `test_score: 0` and all other required fields set gets 400, and the score is never stored | a score of 0 is a valid score: the export shows it deliberately with `??` (`server/routes/export.js:78`), so the guard should test for presence | medium, not executed | ScoreRoutes.ZeroScoreRejected | ScoreRoutes.SaveCorrectedKeepsZero |
