/**
 * process_file: the chain of checks on one path, the two mappings read
 * from its tables, and the output files derived from them.
 */
module Extract {
  import opened Wrappers
  import opened Values
  import opened Sniff
  import opened Paths
  import opened Dicts
  import opened Payload
  import opened Xml

  /**
   * What sqlite3 yields for the two SELECTs: the rows of both tables, or an
   * sqlite3.Error raised while connecting or by either query.
   */
  datatype Tables = Tables(metadata: seq<(string, Value)>, payload: seq<(string, Value)>) | SqlError

  /** Everything process_file observes of the file at its path. */
  datatype FileState = FileState(probe: FileProbe, tables: Tables)

  /** read_sqlite: on sqlite3.Error both tables are empty, even a metadata table already read. */
  function ReadSqlite(t: Tables): (r: (seq<(string, Value)>, seq<(string, Value)>))
    ensures t.SqlError? ==> r.0 == [] && r.1 == []
    ensures t.Tables? ==> r.0 == t.metadata && r.1 == t.payload
  {
    match t
    case Tables(m, p) => (m, p)
    case SqlError => ([], [])
  }

  datatype Status = WrongExtension | ZipArchive | NotSqlite | Completed

  /** The mark that opens every failure status. */
  const ErrorMark: string := "Ошибка: "

  /** The status strings process_file returns; exactly the three failures open with the error mark. */
  function Message(s: Status): (r: string)
    ensures |r| >= |ErrorMark| && (r[..|ErrorMark|] == ErrorMark <==> s != Completed)
  {
    match s
    case WrongExtension => ErrorMark + "файл не имеет расширения .sketch."
    case ZipArchive => ErrorMark + "файл является ZIP-архивом."
    case NotSqlite => ErrorMark + "файл не является SQLite базой данных."
    case Completed =>
      var r := "Обработка завершена успешно.";
      assert r[..|ErrorMark|][1] != ErrorMark[1];
      r
  }

  /** The four statuses are told apart by their strings alone. */
  lemma MessageInjective(a: Status, b: Status)
    requires Message(a) == Message(b)
    ensures a == b
  {
    assert |Message(WrongExtension)| == 41 && |Message(ZipArchive)| == 34;
    assert |Message(NotSqlite)| == 45 && |Message(Completed)| == 28;
  }

  /**
   * The guard chain: the suffix first, then the ZIP signature, then the
   * SQLite header. A file that cannot be read fails the SQLite check.
   */
  function Screen(path: string, probe: FileProbe): (s: Status)
    ensures s == WrongExtension <==> !EndsWith(path, SketchSuffix)
    ensures s == ZipArchive <==> EndsWith(path, SketchSuffix) && IsZipFile(probe)
    ensures s == Completed <==> EndsWith(path, SketchSuffix) && IsSqliteFile(probe)
    ensures s == NotSqlite <==> EndsWith(path, SketchSuffix) && !IsZipFile(probe) && !IsSqliteFile(probe)
  {
    ZipIsNeverSqlite(probe);
    if !EndsWith(path, SketchSuffix) then WrongExtension
    else if IsZipFile(probe) then ZipArchive
    else if !IsSqliteFile(probe) then NotSqlite
    else Completed
  }

  datatype OutputFile = JsonFile(name: string, data: Dict<Value>) | XmlFile(name: string, root: Element)

  function FileName(f: OutputFile): string {
    f.name
  }

  function FileNames(files: seq<OutputFile>): (names: seq<string>)
    ensures |names| == |files|
    ensures forall i :: 0 <= i < |files| ==> names[i] == files[i].name
  {
    seq(|files|, i requires 0 <= i < |files| => files[i].name)
  }

  /** Whether json.dumps succeeds on the whole mapping. */
  predicate DictEncodable(d: Dict<Value>) {
    forall k :: k in d.entries ==> JsonEncodable(d.entries[k])
  }

  /** f"{sketch_name}_{table}{ext}": the name of an output file, in the working directory. */
  function OutputName(stem: string, table: string, ext: string): string {
    stem + "_" + table + ext
  }

  /**
   * The files written for one mapping (table is "metadata" or "payload"):
   * none when it is empty; otherwise its JSON dump, when json.dumps can
   * encode it, and its XML flattening.
   */
  function Export(stem: string, table: string, d: Dict<Value>, render: Value -> string): seq<OutputFile>
    requires d.Valid()
  {
    if |d.keys| == 0 then []
    else
      (if DictEncodable(d) then [JsonFile(OutputName(stem, table, ".json"), d)] else [])
      + [XmlFile(OutputName(stem, table, ".xml"), Flatten(d, render))]
  }

  datatype Completion = Returned(message: string) | RaisedTypeError

  /** The files process_file leaves behind and how it ends. */
  datatype Outcome = Outcome(written: seq<OutputFile>, completion: Completion)

  /** process_file, with a mapping that json.dumps cannot encode left without its JSON file. */
  function Process(path: string, file: FileState, loads: Value -> Option<Value>, render: Value -> string): (o: Outcome)
    ensures o.completion.Returned?
  {
    var status := Screen(path, file.probe);
    if status != Completed then Outcome([], Returned(Message(status)))
    else
      var (metadata, payload) := ReadSqlite(file.tables);
      var stem := Stem(path);
      Outcome(Export(stem, "metadata", FromRows(metadata), render)
                + Export(stem, "payload", PayloadOf(payload, loads), render),
              Returned(Message(Completed)))
  }

  /** The files process_file writes for one mapping, or None when json.dumps raises TypeError. */
  function ExportAsWritten(stem: string, table: string, d: Dict<Value>, render: Value -> string): Option<seq<OutputFile>>
    requires d.Valid()
  {
    if |d.keys| == 0 then Some([])
    else if !DictEncodable(d) then None
    else Some([JsonFile(OutputName(stem, table, ".json"), d), XmlFile(OutputName(stem, table, ".xml"), Flatten(d, render))])
  }

  /**
   * process_file as the source has it: json.dumps runs outside every
   * exception handler, so a value it cannot encode ends the call with
   * TypeError, after whatever was written before.
   */
  function ProcessAsWritten(path: string, file: FileState, loads: Value -> Option<Value>, render: Value -> string): (o: Outcome)
    ensures Screen(path, file.probe) != Completed ==> o == Outcome([], Returned(Message(Screen(path, file.probe))))
    ensures o.completion == RaisedTypeError ==> Screen(path, file.probe) == Completed
    ensures o.completion.Returned? ==> o.completion.message == Message(Screen(path, file.probe))
  {
    var status := Screen(path, file.probe);
    if status != Completed then Outcome([], Returned(Message(status)))
    else
      var (metadata, payload) := ReadSqlite(file.tables);
      var stem := Stem(path);
      match ExportAsWritten(stem, "metadata", FromRows(metadata), render)
      case None => Outcome([], RaisedTypeError)
      case Some(first) =>
        match ExportAsWritten(stem, "payload", PayloadOf(payload, loads), render)
        case None => Outcome(first, RaisedTypeError)
        case Some(second) => Outcome(first + second, Returned(Message(Completed)))
  }

  /** process_file: returns its status string and the files it wrote. */
  method ProcessFile(path: string, file: FileState, loads: Value -> Option<Value>, render: Value -> string)
    returns (written: seq<OutputFile>, message: string)
    ensures Process(path, file, loads, render) == Outcome(written, Returned(message))
  {
    written := [];
    if !EndsWith(path, SketchSuffix) {
      return written, Message(WrongExtension);
    }
    if IsZipFile(file.probe) {
      return written, Message(ZipArchive);
    }
    if !IsSqliteFile(file.probe) {
      return written, Message(NotSqlite);
    }
    var (metadata, payload) := ReadSqlite(file.tables);
    var metadataDict := FromRows(metadata);
    var payloadDict := BuildPayload(payload, loads);
    var stem := Stem(path);
    var metadataFiles := WriteOutputs(stem, "metadata", metadataDict, render);
    var payloadFiles := WriteOutputs(stem, "payload", payloadDict, render);
    written := metadataFiles + payloadFiles;
    message := Message(Completed);
  }

  /** The block of process_file that writes one mapping's JSON and XML files when it is non-empty. */
  method WriteOutputs(stem: string, table: string, d: Dict<Value>, render: Value -> string)
    returns (written: seq<OutputFile>)
    requires d.Valid()
    ensures written == Export(stem, table, d, render)
  {
    written := [];
    if |d.keys| > 0 {
      if DictEncodable(d) {
        written := written + [JsonFile(OutputName(stem, table, ".json"), d)];
      }
      var root := SaveToXml(d, render);
      written := written + [XmlFile(OutputName(stem, table, ".xml"), root)];
    }
  }

  /**
   * A path without the exact ".sketch" suffix is rejected before the file
   * is looked at: the outcome does not depend on the file at all.
   */
  lemma ExtensionCheckedFirst(path: string, file: FileState, other: FileState,
                              loads: Value -> Option<Value>, render: Value -> string)
    requires !EndsWith(path, SketchSuffix)
    ensures Process(path, file, loads, render) == Process(path, other, loads, render)
    ensures Process(path, file, loads, render) == Outcome([], Returned(Message(WrongExtension)))
    ensures ProcessAsWritten(path, file, loads, render) == Process(path, file, loads, render)
  {
  }

  /** A ".sketch" file with the ZIP signature is rejected whatever its tables hold. */
  lemma ZipRejected(path: string, file: FileState, loads: Value -> Option<Value>, render: Value -> string)
    requires EndsWith(path, SketchSuffix) && IsZipFile(file.probe)
    ensures Process(path, file, loads, render) == Outcome([], Returned(Message(ZipArchive)))
    ensures ProcessAsWritten(path, file, loads, render) == Process(path, file, loads, render)
  {
  }

  /**
   * A ".sketch" file that cannot be read, or whose header is neither a ZIP
   * signature nor an SQLite header, gets the "not an SQLite database"
   * status: a read failure is not reported as anything else.
   */
  lemma NonSqliteRejected(path: string, file: FileState, loads: Value -> Option<Value>, render: Value -> string)
    requires EndsWith(path, SketchSuffix)
    requires file.probe.Unreadable? || (!IsZipFile(file.probe) && !IsSqliteFile(file.probe))
    ensures Process(path, file, loads, render) == Outcome([], Returned(Message(NotSqlite)))
    ensures ProcessAsWritten(path, file, loads, render) == Process(path, file, loads, render)
  {
  }

  lemma OutputNamesDistinct(stem: string)
    ensures var names := [OutputName(stem, "metadata", ".json"), OutputName(stem, "metadata", ".xml"),
                          OutputName(stem, "payload", ".json"), OutputName(stem, "payload", ".xml")];
      forall i, j :: 0 <= i < j < 4 ==> names[i] != names[j]
  {
    var suffixes := ["_metadata.json", "_metadata.xml", "_payload.json", "_payload.xml"];
    assert suffixes[0][1] == 'm' && suffixes[1][1] == 'm' && suffixes[2][1] == 'p' && suffixes[3][1] == 'p';
    assert |suffixes[0]| == 14 && |suffixes[1]| == 13 && |suffixes[2]| == 13 && |suffixes[3]| == 12;
    forall i | 0 <= i < 4 ensures (stem + suffixes[i])[|stem|..] == suffixes[i] {
    }
    assert OutputName(stem, "metadata", ".json") == stem + suffixes[0];
    assert OutputName(stem, "metadata", ".xml") == stem + suffixes[1];
    assert OutputName(stem, "payload", ".json") == stem + suffixes[2];
    assert OutputName(stem, "payload", ".xml") == stem + suffixes[3];
  }

  /**
   * Once the three checks pass the call reports success, even when no file
   * is written; each mapping's XML file is written exactly when the mapping
   * is non-empty, and its JSON file exactly when it is non-empty and
   * json.dumps can encode it.
   */
  lemma {:induction false} CompletedOutputs(path: string, file: FileState, loads: Value -> Option<Value>, render: Value -> string)
    requires EndsWith(path, SketchSuffix) && IsSqliteFile(file.probe)
    ensures var o := Process(path, file, loads, render);
      var md := FromRows(ReadSqlite(file.tables).0);
      var pd := PayloadOf(ReadSqlite(file.tables).1, loads);
      var stem := Stem(path);
      var names := FileNames(o.written);
      && o.completion == Returned(Message(Completed))
      && (OutputName(stem, "metadata", ".xml") in names <==> |md.keys| > 0)
      && (OutputName(stem, "metadata", ".json") in names <==> |md.keys| > 0 && DictEncodable(md))
      && (OutputName(stem, "payload", ".xml") in names <==> |pd.keys| > 0)
      && (OutputName(stem, "payload", ".json") in names <==> |pd.keys| > 0 && DictEncodable(pd))
      && (|md.keys| > 0 ==> XmlFile(OutputName(stem, "metadata", ".xml"), Flatten(md, render)) in o.written)
      && (|pd.keys| > 0 ==> XmlFile(OutputName(stem, "payload", ".xml"), Flatten(pd, render)) in o.written)
  {
    var md := FromRows(ReadSqlite(file.tables).0);
    var pd := PayloadOf(ReadSqlite(file.tables).1, loads);
    var stem := Stem(path);
    assert Screen(path, file.probe) == Completed;
    assert Process(path, file, loads, render).written == Export(stem, "metadata", md, render) + Export(stem, "payload", pd, render);
    ExportNames(stem, md, pd, render);
  }

  lemma ExportNames(stem: string, md: Dict<Value>, pd: Dict<Value>, render: Value -> string)
    requires md.Valid() && pd.Valid()
    ensures var names := FileNames(Export(stem, "metadata", md, render) + Export(stem, "payload", pd, render));
      && (OutputName(stem, "metadata", ".xml") in names <==> |md.keys| > 0)
      && (OutputName(stem, "metadata", ".json") in names <==> |md.keys| > 0 && DictEncodable(md))
      && (OutputName(stem, "payload", ".xml") in names <==> |pd.keys| > 0)
      && (OutputName(stem, "payload", ".json") in names <==> |pd.keys| > 0 && DictEncodable(pd))
      && (|md.keys| > 0 ==> XmlFile(OutputName(stem, "metadata", ".xml"), Flatten(md, render)) in Export(stem, "metadata", md, render))
      && (|pd.keys| > 0 ==> XmlFile(OutputName(stem, "payload", ".xml"), Flatten(pd, render)) in Export(stem, "payload", pd, render))
  {
    OutputNamesDistinct(stem);
    var a := Export(stem, "metadata", md, render);
    var b := Export(stem, "payload", pd, render);
    var n := OutputName(stem, "metadata", ".json");
    var x := OutputName(stem, "metadata", ".xml");
    var pn := OutputName(stem, "payload", ".json");
    var px := OutputName(stem, "payload", ".xml");
    assert n != x && n != pn && n != px && x != pn && x != px && pn != px by {
      assert [n, x, pn, px][0] == n && [n, x, pn, px][1] == x && [n, x, pn, px][2] == pn && [n, x, pn, px][3] == px;
    }
    ExportFileNames(stem, "metadata", md, render);
    ExportFileNames(stem, "payload", pd, render);
    FileNamesAppend(a, b);
  }

  /** One mapping's files: JSON then XML, JSON only when encodable, nothing when empty. */
  lemma ExportFileNames(stem: string, table: string, d: Dict<Value>, render: Value -> string)
    requires d.Valid()
    ensures FileNames(Export(stem, table, d, render)) ==
      if |d.keys| == 0 then []
      else if DictEncodable(d) then [OutputName(stem, table, ".json"), OutputName(stem, table, ".xml")]
      else [OutputName(stem, table, ".xml")]
    ensures |d.keys| > 0 ==>
      XmlFile(OutputName(stem, table, ".xml"), Flatten(d, render)) in Export(stem, table, d, render)
  {
    var e := Export(stem, table, d, render);
    if |d.keys| > 0 {
      assert e[|e| - 1] == XmlFile(OutputName(stem, table, ".xml"), Flatten(d, render));
    }
  }

  lemma FileNamesAppend(a: seq<OutputFile>, b: seq<OutputFile>)
    ensures FileNames(a + b) == FileNames(a) + FileNames(b)
  {
  }

  /**
   * The source raises TypeError exactly when the checks pass and some
   * non-empty mapping holds a value json.dumps cannot encode; otherwise it
   * behaves as Process.
   */
  lemma AsWrittenRaisesOnlyOnUnencodable(path: string, file: FileState, loads: Value -> Option<Value>, render: Value -> string)
    ensures var md := FromRows(ReadSqlite(file.tables).0);
      var pd := PayloadOf(ReadSqlite(file.tables).1, loads);
      var bad := Screen(path, file.probe) == Completed
        && ((|md.keys| > 0 && !DictEncodable(md)) || (|pd.keys| > 0 && !DictEncodable(pd)));
      && (ProcessAsWritten(path, file, loads, render).completion == RaisedTypeError <==> bad)
      && (!bad ==> ProcessAsWritten(path, file, loads, render) == Process(path, file, loads, render))
  {
    if Screen(path, file.probe) == Completed {
      var md := FromRows(ReadSqlite(file.tables).0);
      var pd := PayloadOf(ReadSqlite(file.tables).1, loads);
      var stem := Stem(path);
      ExportAsWrittenIsExport(stem, "metadata", md, render);
      ExportAsWrittenIsExport(stem, "payload", pd, render);
    }
  }

  /** Where json.dumps does not raise, the source writes what Export describes. */
  lemma ExportAsWrittenIsExport(stem: string, table: string, d: Dict<Value>, render: Value -> string)
    requires d.Valid()
    ensures ExportAsWritten(stem, table, d, render) ==
      if |d.keys| > 0 && !DictEncodable(d) then None else Some(Export(stem, table, d, render))
  {
    if |d.keys| > 0 && DictEncodable(d) {
      var j := JsonFile(OutputName(stem, table, ".json"), d);
      var x := XmlFile(OutputName(stem, table, ".xml"), Flatten(d, render));
      assert Export(stem, table, d, render) == [j] + [x] == [j, x];
    }
  }

  /**
   * A keyed-archiver property list, as stored under "main", holds UID
   * values; json.dumps cannot encode them, so the source ends in TypeError
   * where Process writes the payload's XML file and reports success.
   */
  lemma ArchiverPayloadRaises()
    ensures var path := "design.sketch";
      var file := FileState(Readable(SqliteMagic), Tables([], [("main", PyBytes([0x62]))]));
      var archive := PyDict([("$top", PyDict([("root", PyUid(1))]))]);
      var loads := (v: Value) => Some(archive);
      var render := (v: Value) => "";
      && ProcessAsWritten(path, file, loads, render) == Outcome([], RaisedTypeError)
      && Process(path, file, loads, render).completion == Returned(Message(Completed))
      && |Process(path, file, loads, render).written| == 1
  {
    var path := "design.sketch";
    var rows := [("main", PyBytes([0x62]))];
    var file := FileState(Readable(SqliteMagic), Tables([], rows));
    var archive := PyDict([("$top", PyDict([("root", PyUid(1))]))]);
    var loads := (v: Value) => Some(archive);
    var render := (v: Value) => "";
    assert EndsWith(path, SketchSuffix);
    SqliteMagicAccepted(SqliteMagic);
    assert FromRows<Value>([]).keys == [];
    assert rows == [] + [rows[0]];
    PayloadSnoc([], rows[0], loads);
    var pd := PayloadOf(rows, loads);
    assert pd.keys == ["main"] && pd.entries["main"] == archive;
    assert !JsonEncodable(archive) by {
      var inner := PyDict([("root", PyUid(1))]);
      assert archive.entries[0].1 == inner;
      assert inner.entries[0].1 == PyUid(1);
    }
    assert !DictEncodable(pd);
  }
}
