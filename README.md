# Sketch file extractor, modelled in Dafny

A model of the extraction pipeline of `sketh_gui.py`, a small tool that takes a
legacy Sketch design file (an SQLite database holding a `metadata` table and a
`payload` table) and re-exports its contents as JSON and XML.

For one path, `process_file` runs a chain of checks:

1. the exact, case-sensitive `.sketch` suffix;
2. rejection of the newer ZIP packaging, by the ZIP local file header signature
   `PK\x03\x04` (section 4.3.7 of PKWARE's APPNOTE.TXT);
3. acceptance of an SQLite database, by the header string `SQLite format 3`.

Next it builds two mappings. The metadata mapping is a dict comprehension over the
`metadata` rows, so the last value wins. The payload mapping holds the `payload` rows
named `main` or `UIMetadata`, each decoded as a property list and kept only when
decoding yields something other than `None`. Each non-empty mapping is written to
`<stem>_metadata.json` / `.xml` or `<stem>_payload.json` / `.xml`. The stem is the
file name with its directory and extension removed. `process_files_in_folder` runs
`process_file` on every `.sketch` entry of a directory listing and collects one
report line per entry.

Modules, one per part of the pipeline:

- `Values`: the Python values that pass through (sqlite3 cells, plistlib results); which of them `json.dumps` can encode; and `str()`.
- `Sniff`: `is_zip_file` and `is_sqlite_file` over what reading the file yields.
- `Paths`: `str.endswith`, `os.path.basename`, `os.path.splitext`, `os.path.join`, and the stem.
- `Dicts`: an insertion-ordered dict (`Dict`, with a key sequence and a map) and the comprehension `FromRows`.
- `Payload`: the allow-list loop (method `BuildPayload`) and its reference function `PayloadOf`.
- `Xml`: the tree `save_to_xml` builds (method `SaveToXml`, reference `Flatten`).
- `Extract`: the guard chain `Screen`, the outcome `Process`, the method `ProcessFile`, and the behaviour as written (`ProcessAsWritten`).
- `Folder`: the batch (method `ProcessFilesInFolder`, reference `Batch`).

External effects become inputs:

- the bytes of the file, or the fact that it cannot be read (`FileProbe`);
- the rows of the two tables, or an `sqlite3.Error` (`Tables`);
- the plist decoder, `loads: Value -> Option<Value>`, where `None` stands for a raised exception;
- the rendering `str()` gives non-string values (`render`);
- the directory listing, and the file found at each joined path (`env`).

On these points the code behaves differently from what a reader might expect, and the model follows the code:

- A file that cannot be opened or read is not reported as an I/O error. Both sniffers return false, so the status is "not an SQLite database".
- The SQLite check is a 15-byte prefix test of at most 16 bytes read, not a comparison with the full 16-byte header string (NUL included) of the SQLite file format.
- Any `sqlite3.Error` in `read_sqlite` empties both tables, including a metadata table already read.
- Payload rows outside the allow-list are dropped, not passed through.
- A successful decode to `None` (a binary plist whose root is null) is dropped like a failed one.
- The result is only the status string. No counts are reported.

## Model

| member | source | states |
|---|---|---|
| `Values.Str` | sketh_gui.py:65 | `str()` of a string value is that string itself |
| `Values.JsonEncodable` | sketh_gui.py:99-106 | a bytes, datetime or UID value is never encodable by `json.dumps`; every other scalar is |
| `Values.EncodableIffNoRejectedScalar` | sketh_gui.py:99-106 | `json.dumps` succeeds on a value exactly when none of the scalars reached through its lists and dict values is bytes, a datetime or a UID |
| `Sniff.ReadAtMost` | sketh_gui.py:16 | `f.read(n)` yields a prefix of the file of length n, or the whole file when it is shorter |
| `Sniff.IsZipFile` | sketh_gui.py:13-20 | true exactly when the file is readable, has at least 4 bytes and its first 4 are `50 4B 03 04`; a shorter or unreadable file is never ZIP |
| `Sniff.IsSqliteFile` | sketh_gui.py:22-29 | true exactly when the file is readable, has at least 15 bytes and its first 15 are `SQLite format 3`; a shorter or unreadable file is rejected |
| `Sniff.ZipIsNeverSqlite` | sketh_gui.py:13-29 | no file passes both header checks, so the ZIP rejection and the SQLite acceptance are disjoint |
| `Sniff.SqliteMagicAccepted` | sketh_gui.py:25-26 | every file starting with the full 16-byte SQLite header string is accepted |
| `Sniff.SixteenthByteIgnored` | sketh_gui.py:25-26 | the check is laxer than the SQLite header: any sixteenth byte in place of the NUL is accepted too |
| `Paths.Basename` | sketh_gui.py:96 | the basename holds no `/`, ends the path, and is either the whole path or preceded by `/` |
| `Paths.SplitExt` | sketh_gui.py:96 | root and extension concatenate back to the name; the extension is empty or one `.` followed by text without `.` or `/` |
| `Paths.Stem` | sketh_gui.py:96 | the stem holds no `/`, so the four output files land in the working directory |
| `Paths.StemOfSketchPath` | sketh_gui.py:96 | for a `.sketch` path the stem is the basename without `.sketch`, or the whole basename when only dots precede the suffix (`.sketch` keeps its name) |
| `Paths.Join` | sketh_gui.py:119 | the joined path ends with the entry name |
| `Dicts.Dict.Put` | sketh_gui.py:94 | assignment keeps keys distinct and equal to the entries, replaces the value of a present key in place and appends a new key |
| `Dicts.FromRows` | sketh_gui.py:86 | the comprehension yields a well-formed dict whose key set is exactly the set of row names |
| `Dicts.LastRowWins` | sketh_gui.py:86 | each key holds the value of the last row with that name |
| `Dicts.KeysInFirstOccurrenceOrder` | sketh_gui.py:86 | keys iterate in the order of each name's first occurrence among the rows |
| `Payload.ConvertBplist` | sketh_gui.py:45-50 | the result is the decoder's value whenever decoding succeeds, and `None` whenever the decoder raises |
| `Payload.Decoded` | sketh_gui.py:89-94 | every assignment the loop makes is to an allowed name with a value other than `None` |
| `Payload.PayloadOf` | sketh_gui.py:89-94 | the payload dict is well formed, its keys are among `main` and `UIMetadata`, and no value is `None` |
| `Payload.BuildPayload` | sketh_gui.py:89-94 | the loop builds exactly `PayloadOf` of the rows |
| `Payload.UnstoredRowIsInert` | sketh_gui.py:89-94 | a row with another name, or one that fails to decode, has no effect wherever it stands, so a later failed decode never removes an earlier entry |
| `Payload.PayloadKeyPresent` | sketh_gui.py:89-94 | a key is present exactly when it is `main` or `UIMetadata` and some row of that name decodes to something other than `None` |
| `Payload.PayloadKeyLastDecode` | sketh_gui.py:89-94 | a present key holds the decode of the last row of that name that decodes, and every later row of that name failed to decode |
| `Xml.SaveToXml` | sketh_gui.py:59-67 | a `data` root with exactly one `item` child per key in mapping order, each with attribute `name` equal to the key, text `str(value)` and no children |
| `Xml.FlattenRoundTrip` | sketh_gui.py:61-65 | reading the items back recovers the key set, and the whole mapping when every value is a string |
| `Extract.MessageInjective` | sketh_gui.py:71-112 | the four status strings are pairwise distinct |
| `Extract.Message` | sketh_gui.py:74-112 | the three failure statuses (lines 74, 78, 82) open with `Ошибка: `, and the success status (line 112) does not |
| `Extract.ReadSqlite` | sketh_gui.py:31-43 | on `sqlite3.Error` both tables come back empty, the metadata rows already fetched included; otherwise the rows of both tables |
| `Extract.Screen` | sketh_gui.py:71-82 | wrong extension exactly without the suffix; ZIP exactly with suffix and ZIP header; success exactly with suffix and SQLite header; "not SQLite" otherwise |
| `Extract.Process` | sketh_gui.py:71-112 | with the dump failure caught, processing always returns a status |
| `Extract.ProcessAsWritten` | sketh_gui.py:71-112 | `process_file` as written: a failed check returns its status with no file; `TypeError` is raised only after all checks pass; any returned message is the status of the guard chain |
| `Extract.ProcessFile` | sketh_gui.py:71-112 | the method writes the files and returns the status that `Process` describes |
| `Extract.WriteOutputs` | sketh_gui.py:98-110 | one mapping's block writes JSON (when encodable) and XML for a non-empty mapping and nothing for an empty one |
| `Extract.ExtensionCheckedFirst` | sketh_gui.py:72-74 | without the `.sketch` suffix the result is the extension error and no file, whatever the file holds |
| `Extract.ZipRejected` | sketh_gui.py:76-78 | a `.sketch` file with the ZIP signature gets the ZIP error and no file, whatever its tables hold |
| `Extract.NonSqliteRejected` | sketh_gui.py:80-82 | an unreadable `.sketch` file, or one with neither header, gets the "not SQLite" error and no file |
| `Extract.OutputNamesDistinct` | sketh_gui.py:99-107 | the four output names of a stem are pairwise distinct |
| `Extract.CompletedOutputs` | sketh_gui.py:96-112 | once all checks pass the status is success even with no output; each XML file is written exactly when its mapping is non-empty, each JSON file exactly when it is non-empty and encodable |
| `Extract.AsWrittenRaisesOnlyOnUnencodable` | sketh_gui.py:98-110 | the source raises `TypeError` exactly when the checks pass and a non-empty mapping holds an unencodable value; otherwise it behaves as `Process` |
| `Extract.ArchiverPayloadRaises` | sketh_gui.py:105-106 | a `main` row decoding to a keyed archive with a UID makes the source raise, where `Process` writes the payload XML and reports success |
| `Folder.ProcessFilesInFolder` | sketh_gui.py:114-122 | the loop produces exactly `Batch`: the report lines and the files written |
| `Folder.OneLinePerSketchEntry` | sketh_gui.py:116-122 | exactly one line per `.sketch` entry, in listing order, each `"<name>: <status>"`; other entries give nothing |
| `Folder.NoExtensionErrorInBatch` | sketh_gui.py:118-120 | no entry the batch processes is rejected for its extension |
| `Folder.BatchAppend` | sketh_gui.py:116-122 | entries are processed independently: the report of a listing is the reports of its parts, joined |

## Findings

| source | as written | input that shows it | evidently intended | confidence | as-written member | corrected member |
|---|---|---|---|---|---|---|
| sketh_gui.py:99-106 | `json.dumps` runs outside every exception handler. A value it cannot encode (bytes, datetime, plistlib UID) raises `TypeError` out of `process_file`, and so out of `process_files_in_folder`. This can happen after the metadata files were written. | a `.sketch` SQLite file whose `main` payload row decodes to the keyed archive `{"$top": {"root": UID(1)}}`; every keyed-archiver plist holds UIDs | the failed dump is caught and logged like every other write in the script, the other outputs are still written, and a status is returned | likely; not executed | `Extract.ArchiverPayloadRaises` (on `Extract.ProcessAsWritten`) | `Extract.Process` |

The rest of the model uses the corrected `Process`. The batch `Folder.Batch` therefore
returns one line per `.sketch` entry even where the source's batch would end in
`TypeError`. `Extract.AsWrittenRaisesOnlyOnUnencodable` shows that the two versions
differ only on such inputs.

## Left out

- The Tkinter interface (`select_file`, `select_folder`, the window and its main loop) and every logging call: user interface and side effects only.
- Opening and reading the file in the sniffers: the model takes the file's bytes or an unreadable marker. Both sniffers see the same file; a file that changes between the two opens is not modelled.
- The SQL in `read_sqlite`: the rows of both tables, or an `sqlite3.Error`, are an input. Closing the connection is not modelled. Name cells are taken to be text; a NULL or numeric `name` cell is not modelled.
- `plistlib.loads`: an abstract decoder. Its value domain (`Values.Value`) is modelled, its parsing is not. Floats and datetimes are reals.
- Python `str()` of a non-string value: an uninterpreted function.
- The text `json.dumps` produces (4-space indentation, escaping): a JSON output file carries the mapping itself. Only whether the dump raises is modelled.
- Write failures in `save_to_file` and `ElementTree.write`, which are caught and logged: every output file is modelled as written. So is the XML declaration.
- `Xml.SaveToXml`: ElementTree elements are values built up step by step, not objects mutated in place.
- `os.listdir`: the listing is an input, and `env` gives the file found at each joined path. When two entries share a stem, their output files are both listed, in order. Overwriting on disk is not modelled.
- `Paths` follows `posixpath`: only `/` separates path components. On Windows `os.path` is `ntpath`, which also splits on `\` and after a drive colon; that variant is not modelled.
- `Extract.FileState` pairs the file's bytes with the rows sqlite3 returns, but does not tie the header bytes to the tables: a file whose header passes the check but that sqlite3 cannot open is represented by `SqlError`, and the model does not derive one from the other.
