/** The two endpoints of app_name/views.py that change the store:
    `upload_csv` (POST) and `delete_field`. */
module Views {
  import opened Basics
  import opened Text
  import opened Models
  import opened Parsing
  import opened Import
  import opened RowLoop

  /** An HTTP response: its status and its plain-text body. */
  datatype Response = Response(status: nat, body: string)

  /** A JSON response of `delete_field`: its status and the fields
      'status' and 'message' of its body. */
  datatype JsonReply = JsonReply(status: nat, outcome: string, message: string)

  /** The uploaded file after decoding and CSV tokenising: its name, the rows
      `csv.DictReader` yields, and the error the reader raises after them, if any. */
  datatype Upload = Upload(name: string, rows: seq<Row>, readerError: Option<string>)

  /** What the database answers, which this model does not define: the text of
      the exception refusing a `FieldInfo` insert, and the error of
      `bulk_create`, if it fails. */
  datatype Database = Database(refusal: StoreError -> string, bulkWriteError: Option<string>)

  const CsvSuffix: string := ".csv"
  const BadUploadBody: string := "请上传有效的 CSV 文件"
  const ServerErrorHead: string := "服务器处理错误: "
  const WriteErrorHead: string := "数据库写入失败: "

  /** The upload gate: a file is present and its name ends in ".csv". */
  predicate IsCsvUpload(file: Option<Upload>) {
    file.Some? && EndsWith(file.value.name, CsvSuffix)
  }

  /** The field name: the file name with every ".csv" removed, not only the suffix. */
  function FieldNameOf(fileName: string): string {
    ReplaceAll(fileName, CsvSuffix, "")
  }

  /** ".csv" cannot start inside a text free of it and end in a ".csv" that
      follows: its '.' would have to fall on one of "csv". */
  lemma CsvOnlyAtEnd(a: string)
    requires FreeOf(a, CsvSuffix)
    ensures forall i: nat | i < |a| :: !OccursAt(a + CsvSuffix, CsvSuffix, i)
  {
    forall i: nat | i < |a| ensures !OccursAt(a + CsvSuffix, CsvSuffix, i) {
      var w := (a + CsvSuffix)[i..i + |CsvSuffix|];
      if i + |CsvSuffix| <= |a| {
        assert !OccursAt(a, CsvSuffix, i);
        assert w == a[i..i + |CsvSuffix|];
      } else {
        var k := |a| - i;
        assert w[k] == '.' && CsvSuffix[k] != '.';
      }
    }
  }

  /** A file named `base + ".csv"`, with no ".csv" in `base`, passes the gate and
      names the field `base`. */
  lemma FieldNameStripsExtension(base: string)
    requires FreeOf(base, CsvSuffix)
    ensures EndsWith(base + CsvSuffix, CsvSuffix)
    ensures FieldNameOf(base + CsvSuffix) == base
  {
    EndsWithAppended(base, CsvSuffix);
    CsvOnlyAtEnd(base);
    ReplaceTrailing(base, CsvSuffix, "");
    assert base + "" == base;
  }

  /** A name without ".csv" is kept whole. */
  lemma FieldNameKeepsPlainText(s: string)
    requires FreeOf(s, CsvSuffix)
    ensures FieldNameOf(s) == s
  {
    ReplaceFree(s, CsvSuffix, "");
  }

  /** The first ".csv" is removed and the rest of the name is treated the same
      way; with FieldNameKeepsPlainText, every ".csv" goes. */
  lemma FieldNameRemovesFirst(a: string, b: string)
    requires FreeOf(a, CsvSuffix)
    ensures FieldNameOf(a + CsvSuffix + b) == a + FieldNameOf(b)
  {
    CsvOnlyAtEnd(a);
    ReplaceFirstOccurrence(a, b, CsvSuffix, "");
    assert a + "" + FieldNameOf(b) == a + FieldNameOf(b);
  }

  /** The example of the upload page: "plot.csv" creates the field "plot". */
  lemma FieldNameExample()
    ensures FieldNameOf("plot.csv") == "plot"
  {
    var base: string := "plot";
    assert FreeOf(base, CsvSuffix) by {
      forall i: nat | i <= |base| ensures !OccursAt(base, CsvSuffix, i) {
        if i == 0 {
          assert base[0] != CsvSuffix[0];
          assert base[0..0 + |CsvSuffix|][0] == base[0];
        }
      }
    }
    FieldNameStripsExtension(base);
    assert base + CsvSuffix == "plot.csv";
  }

  /** Every ".csv" goes, so "a.csv.csv" creates the field "a". */
  lemma FieldNameDoubleSuffix()
    ensures FieldNameOf("a.csv.csv") == "a"
  {
    var a: string := "a";
    var none: string := [];
    assert FieldNameOf(CsvSuffix) == none by {
      FieldNameStripsExtension(none);
      assert none + CsvSuffix == CsvSuffix;
    }
    assert FieldNameOf(a + CsvSuffix + CsvSuffix) == a by {
      FieldNameRemovesFirst(a, CsvSuffix);
    }
    assert a + CsvSuffix + CsvSuffix == "a.csv.csv";
  }

  /** `upload_csv` for a POST request. A missing file or a name without the
      ".csv" suffix is refused with 400 before anything changes. Otherwise the
      field named after the file is created (a refused insert answers 500 and
      changes nothing), the rows are converted, and unless the reader or the
      bulk insert fails the records are stored and the report returned. The
      field stays created when a later step fails. */
  method UploadCsv(store: FieldStore, file: Option<Upload>, lib: Library, db: Database) returns (resp: Response)
    requires store.Valid()
    modifies store
    ensures store.Valid()
    ensures !IsCsvUpload(file) ==>
      && resp == Response(400, BadUploadBody)
      && store.fields == old(store.fields) && store.points == old(store.points)
      && store.nextFieldIndex == old(store.nextFieldIndex) && store.nextPointId == old(store.nextPointId)
    ensures IsCsvUpload(file) ==>
      var name := FieldNameOf(file.value.name);
      var refused := |name| > MaxNameLength || name in old(store.Names());
      var objs, log := Records(Converter(lib), file.value.rows), Messages(Converter(lib), RowMessage, file.value.rows);
      var written := !refused && file.value.readerError.None? && (objs == [] || db.bulkWriteError.None?);
      && (refused ==>
            && resp == Response(500, ServerErrorHead + db.refusal(if |name| > MaxNameLength then NameTooLong else DuplicateName))
            && store.fields == old(store.fields)
            && store.nextFieldIndex == old(store.nextFieldIndex))
      && (!refused ==>
            && store.fields == old(store.fields) + [FieldInfo(old(store.nextFieldIndex), name)]
            && store.nextFieldIndex == old(store.nextFieldIndex) + 1)
      && (!refused && file.value.readerError.Some? ==>
            resp == Response(500, ServerErrorHead + file.value.readerError.value))
      && (!refused && file.value.readerError.None? && objs != [] && db.bulkWriteError.Some? ==>
            resp == Response(500, WriteErrorHead + db.bulkWriteError.value))
      && (written ==>
            && resp == Response(200, Report(|objs|, log))
            && store.points == old(store.points) + Stamped(objs, name, old(store.nextPointId))
            && store.nextPointId == old(store.nextPointId) + |objs|)
      && (!written ==> store.points == old(store.points) && store.nextPointId == old(store.nextPointId))
  {
    if file.None? || !EndsWith(file.value.name, CsvSuffix) {
      return Response(400, BadUploadBody);
    }
    var upload := file.value;
    var fieldName := FieldNameOf(upload.name);
    var created := store.CreateField(fieldName);
    if created.Err? {
      return Response(500, ServerErrorHead + db.refusal(created.error));
    }
    var objs, errorLog := ImportRows(Converter(lib), RowMessage, upload.rows);
    if upload.readerError.Some? {
      return Response(500, ServerErrorHead + upload.readerError.value);
    }
    if objs != [] {
      if db.bulkWriteError.Some? {
        return Response(500, WriteErrorHead + db.bulkWriteError.value);
      }
      store.BulkCreate(fieldName, objs);
    }
    resp := Response(200, Report(|objs|, errorLog));
  }

  /** `delete_field`: deletes the field named `name` with its track points,
      or answers 404 when there is none. */
  method DeleteField(store: FieldStore, name: string) returns (reply: JsonReply)
    requires store.Valid()
    modifies store
    ensures store.Valid()
    ensures name in old(store.Names()) ==> reply == JsonReply(200, "success", "地块删除成功")
    ensures name !in old(store.Names()) ==> reply == JsonReply(404, "error", "地块不存在")
    ensures store.fields == FieldsWithout(old(store.fields), name)
    ensures store.points == PointsWithout(old(store.points), name)
    ensures PointsOf(store.points, name) == []
    ensures name !in old(store.Names()) ==>
      store.fields == old(store.fields) && store.points == old(store.points)
    ensures store.nextFieldIndex == old(store.nextFieldIndex) && store.nextPointId == old(store.nextPointId)
  {
    var found := store.DeleteField(name);
    if found {
      reply := JsonReply(200, "success", "地块删除成功");
    } else {
      reply := JsonReply(404, "error", "地块不存在");
    }
  }
}
