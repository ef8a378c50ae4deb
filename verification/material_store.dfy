/** The two write paths of the materials routes: `POST /upload`, which
    records an uploaded PDF, and `POST /define-regions`, which replaces the
    question regions of one material inside a transaction. The database is
    a table of rows plus an oracle saying which statement fails. */
module MaterialStore {
  import opened Optional
  import opened JsValue
  import JsNumber

  // ---------------------------------------------------------------------------
  // POST /upload
  // ---------------------------------------------------------------------------

  /** What multer-s3 reports about the stored file. */
  datatype UploadedFile = UploadedFile(key: string, location: string, originalname: string)

  /** The form fields sent with the file. */
  datatype UploadForm = UploadForm(roundId: JsVal, materialName: JsVal, totalPages: JsVal)

  /** The values bound to the `INSERT INTO materials` placeholders. */
  datatype MaterialRow = MaterialRow(roundId: JsVal, materialName: JsVal, fileKey: string, fileUrl: string, totalPages: JsVal)

  /** The answer of `pool.query` for the insert: the new id, or the error
      code MySQL raised. */
  datatype InsertOutcome = InsertId(id: int) | DbError(code: string)

  datatype UploadReply =
    | Created(materialId: int, materialUrl: string)  // 201
    | AlreadyUploaded                                 // 409
    | UploadFailed                                    // 500

  /** MySQL's error code for a unique-key clash. */
  const DuplicateEntry := "ER_DUP_ENTRY"

  function UploadStatus(reply: UploadReply): int {
    match reply
    case Created(_, _) => 201
    case AlreadyUploaded => 409
    case UploadFailed => 500
  }

  /** The S3 object key `materials/<Date.now()>_<originalname>`. */
  function StorageKey(now: nat, originalname: string): string {
    "materials/" + JsNumber.ShowNat(now) + "_" + originalname
  }

  /** The timestamp can be read back out of a storage key, so two uploads
      at different milliseconds never share a key, whatever the names. */
  lemma StorageKeyTimestamp(now: nat, originalname: string)
    ensures var key := StorageKey(now, originalname);
            && |key| > 10 && key[..10] == "materials/"
            && JsNumber.ParseInt(key[10..]).Some? && JsNumber.ParseInt(key[10..]).value == now
  {
    PrefixedNumberReads("materials/", now, "_", originalname);
  }

  lemma PrefixedNumberReads(prefix: string, n: nat, sep: string, name: string)
    requires |sep| > 0 && !JsNumber.IsDigit(sep[0])
    ensures var key := prefix + JsNumber.ShowNat(n) + sep + name;
            && key[..|prefix|] == prefix
            && JsNumber.ParseInt(key[|prefix|..]).Some? && JsNumber.ParseInt(key[|prefix|..]).value == n
  {
    var key := prefix + JsNumber.ShowNat(n) + sep + name;
    assert key[|prefix|..] == JsNumber.ShowInt(n) + (sep + name);
    JsNumber.ParseIntOfShowInt(n, sep + name);
  }

  lemma StorageKeysDiffer(now1: nat, name1: string, now2: nat, name2: string)
    requires now1 != now2
    ensures StorageKey(now1, name1) != StorageKey(now2, name2)
  {
    StorageKeyTimestamp(now1, name1);
    StorageKeyTimestamp(now2, name2);
  }

  /** The row the handler inserts: the form's fields, with a falsy
      `materialName` replaced by the file's original name. */
  function UploadRow(form: UploadForm, file: UploadedFile): (row: MaterialRow)
    ensures Truthy(form.materialName) ==> row.materialName == form.materialName
    ensures !Truthy(form.materialName) ==> row.materialName == Str(file.originalname)
    ensures row.roundId == form.roundId && row.totalPages == form.totalPages
    ensures row.fileKey == file.key && row.fileUrl == file.location
  {
    var name := if !Truthy(form.materialName) then Str(file.originalname) else form.materialName;
    MaterialRow(form.roundId, name, file.key, file.location, form.totalPages)
  }

  /** The upload handler after multer has stored the file: one insert,
      whose outcome decides the reply. The status is 201 exactly when the
      insert succeeds, 409 exactly when it hits the unique key, and 500
      for every other error; a 201 carries the inserted id and the file's
      URL. */
  function Upload(form: UploadForm, file: UploadedFile, insert: MaterialRow -> InsertOutcome): (reply: UploadReply)
    ensures var outcome := insert(UploadRow(form, file));
            && (UploadStatus(reply) == 201 <==> outcome.InsertId?)
            && (UploadStatus(reply) == 409 <==> outcome.DbError? && outcome.code == DuplicateEntry)
            && (UploadStatus(reply) == 500 <==> outcome.DbError? && outcome.code != DuplicateEntry)
            && (outcome.InsertId? ==> reply == Created(outcome.id, file.location))
  {
    match insert(UploadRow(form, file))
    case InsertId(id) => Created(id, file.location)
    case DbError(code) => if code == DuplicateEntry then AlreadyUploaded else UploadFailed
  }

  // ---------------------------------------------------------------------------
  // POST /define-regions
  // ---------------------------------------------------------------------------

  /** One entry of the `regions` array, field by field as bound to the
      insert's placeholders. */
  datatype RegionFields = RegionFields(questionNumber: JsVal, pageNumber: JsVal, x: JsVal, y: JsVal, width: JsVal, height: JsVal)

  /** A row of `question_regions`. */
  datatype StoredRegion = StoredRegion(materialId: JsVal, fields: RegionFields)

  /** The statements of the transaction, in the order they are sent. */
  datatype Statement = Begin | DeleteRegions | InsertRegion(index: nat) | Commit

  datatype DefineReply = Saved | MissingFields | SaveFailed

  function DefineStatus(reply: DefineReply): int {
    match reply
    case Saved => 200
    case MissingFields => 400
    case SaveFailed => 500
  }

  /** The table after the transaction, and the reply. */
  datatype DefineOutcome = DefineOutcome(reply: DefineReply, table: seq<StoredRegion>)

  /** The regions stored for material `id`, in table order. */
  function RegionsOf(table: seq<StoredRegion>, id: JsVal): seq<RegionFields> {
    if |table| == 0 then []
    else (if table[0].materialId == id then [table[0].fields] else []) + RegionsOf(table[1..], id)
  }

  /** The rows belonging to other materials, in table order: what
      `DELETE FROM question_regions WHERE material_id = ?` leaves. */
  function OtherRows(table: seq<StoredRegion>, id: JsVal): (r: seq<StoredRegion>)
    ensures |r| <= |table|
    ensures forall k :: 0 <= k < |r| ==> r[k].materialId != id
  {
    if |table| == 0 then []
    else (if table[0].materialId != id then [table[0]] else []) + OtherRows(table[1..], id)
  }

  /** Every row kept is a row of the table: deleting never invents a row. */
  lemma {:induction false} OtherRowsFromTable(table: seq<StoredRegion>, id: JsVal)
    ensures forall x :: x in OtherRows(table, id) ==> x in table
  {
    if |table| > 0 {
      OtherRowsFromTable(table[1..], id);
      assert forall x :: x in table[1..] ==> x in table;
    }
  }

  /** The insert loop from the `i`th region on, applied to the working
      copy `work`: `None` at the first insert that fails, else `work` with
      one row per remaining region appended, in array order. */
  function InsertFrom(work: seq<StoredRegion>, id: JsVal, regions: seq<RegionFields>,
                      fails: Statement -> bool, i: nat): (r: Option<seq<StoredRegion>>)
    requires i <= |regions|
    ensures r.Some? <==> forall k :: i <= k < |regions| ==> !fails(InsertRegion(k))
    ensures r.Some? ==>
              && |r.value| == |work| + |regions| - i
              && r.value[..|work|] == work
              && forall k :: i <= k < |regions| ==> r.value[|work| + k - i] == StoredRegion(id, regions[k])
    decreases |regions| - i
  {
    if i == |regions| then Some(work)
    else if fails(InsertRegion(i)) then None
    else
      var r := InsertFrom(work + [StoredRegion(id, regions[i])], id, regions, fails, i + 1);
      assert r.Some? ==> r.value[..|work|] == (work + [StoredRegion(id, regions[i])])[..|work|];
      r
  }

  /** The handler: reject missing fields with 400; otherwise begin, delete
      the material's regions, insert every submitted region and commit. A
      failure anywhere rolls the working copy back and replies 500. The
      request is saved exactly when both fields are present and no
      statement fails; one that is not saved leaves the table as it was. */
  function DefineRegions(table: seq<StoredRegion>, materialId: JsVal, regions: Option<seq<RegionFields>>,
                         fails: Statement -> bool): (out: DefineOutcome)
    ensures DefineStatus(out.reply) == 400 <==> !Truthy(materialId) || regions.None?
    ensures DefineStatus(out.reply) == 200 <==>
              && Truthy(materialId) && regions.Some?
              && !fails(Begin) && !fails(DeleteRegions) && !fails(Commit)
              && forall k :: 0 <= k < |regions.value| ==> !fails(InsertRegion(k))
    ensures out.reply != Saved ==> out.table == table
  {
    if !Truthy(materialId) || regions.None? then DefineOutcome(MissingFields, table)
    else if fails(Begin) || fails(DeleteRegions) then DefineOutcome(SaveFailed, table)
    else
      var inserted := InsertFrom(OtherRows(table, materialId), materialId, regions.value, fails, 0);
      if inserted.None? || fails(Commit) then DefineOutcome(SaveFailed, table)
      else DefineOutcome(Saved, inserted.value)
  }

  // ---------------------------------------------------------------------------
  // Properties of the region editor
  // ---------------------------------------------------------------------------

  lemma {:induction false} RegionsOfConcat(a: seq<StoredRegion>, b: seq<StoredRegion>, id: JsVal)
    ensures RegionsOf(a + b, id) == RegionsOf(a, id) + RegionsOf(b, id)
  {
    if |a| > 0 {
      assert (a + b)[0] == a[0] && (a + b)[1..] == a[1..] + b;
      RegionsOfConcat(a[1..], b, id);
    } else {
      assert a + b == b;
    }
  }

  /** Concatenation regroups; stated apart so that `OtherRowsConcat`
      applies it to its three pieces only. */
  lemma SeqAssoc<T>(x: seq<T>, y: seq<T>, z: seq<T>)
    ensures x + (y + z) == (x + y) + z
  {
  }

  lemma {:induction false} OtherRowsConcat(a: seq<StoredRegion>, b: seq<StoredRegion>, id: JsVal)
    ensures OtherRows(a + b, id) == OtherRows(a, id) + OtherRows(b, id)
  {
    if |a| > 0 {
      var head := if a[0].materialId != id then [a[0]] else [];
      assert (a + b)[0] == a[0] && (a + b)[1..] == a[1..] + b;
      assert OtherRows(a + b, id) == head + OtherRows(a[1..] + b, id);
      assert OtherRows(a, id) == head + OtherRows(a[1..], id);
      OtherRowsConcat(a[1..], b, id);
      SeqAssoc(head, OtherRows(a[1..], id), OtherRows(b, id));
    } else {
      assert a + b == b;
    }
  }

  /** Rows that all belong to `id`: their regions are their fields, and
      none of them belongs to another material. */
  lemma {:induction false} RowsOfOneMaterial(rows: seq<StoredRegion>, id: JsVal, regions: seq<RegionFields>)
    requires |rows| == |regions|
    requires forall k :: 0 <= k < |rows| ==> rows[k] == StoredRegion(id, regions[k])
    ensures RegionsOf(rows, id) == regions
    ensures OtherRows(rows, id) == []
  {
    if |rows| > 0 {
      RowsOfOneMaterial(rows[1..], id, regions[1..]);
      assert regions == [regions[0]] + regions[1..];
    }
  }

  /** Deleting leaves no region of `id` and every other row untouched. */
  lemma {:induction false} DeleteEffect(table: seq<StoredRegion>, id: JsVal)
    ensures RegionsOf(OtherRows(table, id), id) == []
    ensures OtherRows(OtherRows(table, id), id) == OtherRows(table, id)
  {
    var d := OtherRows(table, id);
    RowsOfOtherMaterials(d, id);
  }

  /** Rows none of which belongs to `id`. */
  lemma {:induction false} RowsOfOtherMaterials(rows: seq<StoredRegion>, id: JsVal)
    requires forall k :: 0 <= k < |rows| ==> rows[k].materialId != id
    ensures RegionsOf(rows, id) == []
    ensures OtherRows(rows, id) == rows
  {
    if |rows| > 0 {
      RowsOfOtherMaterials(rows[1..], id);
      assert rows == [rows[0]] + rows[1..];
    }
  }

  /** Replace-all: after a save the material's regions are exactly the
      submitted list, in order, and every other material's rows are as
      they were. */
  lemma DefineRegionsReplaces(table: seq<StoredRegion>, materialId: JsVal, regions: seq<RegionFields>,
                              fails: Statement -> bool)
    requires DefineRegions(table, materialId, Some(regions), fails).reply == Saved
    ensures RegionsOf(DefineRegions(table, materialId, Some(regions), fails).table, materialId) == regions
    ensures OtherRows(DefineRegions(table, materialId, Some(regions), fails).table, materialId)
            == OtherRows(table, materialId)
  {
    var after := DefineRegions(table, materialId, Some(regions), fails).table;
    var cleared := OtherRows(table, materialId);
    var added := after[|cleared|..];
    assert after == cleared + added;
    RowsOfOneMaterial(added, materialId, regions);
    RegionsOfConcat(cleared, added, materialId);
    OtherRowsConcat(cleared, added, materialId);
    DeleteEffect(table, materialId);
  }

  /** Saving the same list twice leaves the table as saving it once. */
  lemma DefineRegionsIdempotent(table: seq<StoredRegion>, materialId: JsVal, regions: seq<RegionFields>,
                                fails: Statement -> bool)
    requires DefineRegions(table, materialId, Some(regions), fails).reply == Saved
    ensures var once := DefineRegions(table, materialId, Some(regions), fails).table;
            && DefineRegions(once, materialId, Some(regions), fails).reply == Saved
            && RegionsOf(DefineRegions(once, materialId, Some(regions), fails).table, materialId) == regions
            && OtherRows(DefineRegions(once, materialId, Some(regions), fails).table, materialId)
               == OtherRows(table, materialId)
  {
    var once := DefineRegions(table, materialId, Some(regions), fails).table;
    DefineRegionsReplaces(table, materialId, regions, fails);
    DefineRegionsReplaces(once, materialId, regions, fails);
  }
}
