/**
 * process_files_in_folder: every entry of the directory listing whose
 * name ends in ".sketch" is processed in listing order, and contributes
 * one line "<name>: <status>" to the report.
 */
module Folder {
  import opened Wrappers
  import opened Values
  import opened Paths
  import opened Extract

  /** f"{file_name}: {result}" */
  function ReportLine(name: string, message: string): string {
    name + ": " + message
  }

  /** The outcome of processing a directory entry under os.path.join(folder, name); env gives each path's file. */
  function EntryOutcome(folder: string, name: string, env: string -> FileState,
                        loads: Value -> Option<Value>, render: Value -> string): Outcome
  {
    var path := Join(folder, name);
    Process(path, env(path), loads, render)
  }

  /** The report lines and the files written, over a directory listing. */
  function Batch(folder: string, listing: seq<string>, env: string -> FileState,
                 loads: Value -> Option<Value>, render: Value -> string): (r: (seq<string>, seq<OutputFile>))
    ensures |r.0| <= |listing|
  {
    if listing == [] then ([], [])
    else
      var n := |listing| - 1;
      var name := listing[n];
      Step(Batch(folder, listing[..n], env, loads, render), name, EntryOutcome(folder, name, env, loads, render))
  }

  /** One iteration of the loop: a ".sketch" entry adds its line and the files its processing wrote. */
  function Step(prev: (seq<string>, seq<OutputFile>), name: string, o: Outcome): (r: (seq<string>, seq<OutputFile>))
    requires o.completion.Returned?
    ensures |r.0| <= |prev.0| + 1
  {
    if EndsWith(name, SketchSuffix) then (prev.0 + [ReportLine(name, o.completion.message)], prev.1 + o.written)
    else prev
  }

  /** The entries the batch processes: those ending in ".sketch", in listing order. */
  function SketchEntries(listing: seq<string>): (names: seq<string>)
    ensures forall i :: 0 <= i < |names| ==> EndsWith(names[i], SketchSuffix)
  {
    if listing == [] then []
    else (if EndsWith(listing[0], SketchSuffix) then [listing[0]] else []) + SketchEntries(listing[1..])
  }

  method ProcessFilesInFolder(folder: string, listing: seq<string>, env: string -> FileState,
                              loads: Value -> Option<Value>, render: Value -> string)
    returns (results: seq<string>, written: seq<OutputFile>)
    ensures (results, written) == Batch(folder, listing, env, loads, render)
  {
    results, written := [], [];
    for i := 0 to |listing|
      invariant (results, written) == Batch(folder, listing[..i], env, loads, render)
    {
      var name := listing[i];
      assert listing[..i + 1][..i] == listing[..i];
      if EndsWith(name, SketchSuffix) {
        var path := Join(folder, name);
        var files, result := ProcessFile(path, env(path), loads, render);
        written := written + files;
        results := results + [ReportLine(name, result)];
      }
    }
    assert listing[..|listing|] == listing;
  }

  lemma {:induction false} SketchEntriesSnoc(listing: seq<string>, name: string)
    ensures SketchEntries(listing + [name]) ==
      SketchEntries(listing) + if EndsWith(name, SketchSuffix) then [name] else []
  {
    if listing != [] {
      assert (listing + [name])[1..] == listing[1..] + [name];
      SketchEntriesSnoc(listing[1..], name);
    } else {
      assert [name][1..] == [];
    }
  }

  /**
   * One line per ".sketch" entry, in listing order, each the entry's name
   * followed by the status process_file gives it; other entries give nothing.
   */
  lemma {:induction false} OneLinePerSketchEntry(folder: string, listing: seq<string>, env: string -> FileState,
                                                  loads: Value -> Option<Value>, render: Value -> string)
    ensures var lines := Batch(folder, listing, env, loads, render).0;
      var names := SketchEntries(listing);
      && |lines| == |names|
      && forall i :: 0 <= i < |names| ==>
           lines[i] == ReportLine(names[i], EntryOutcome(folder, names[i], env, loads, render).completion.message)
  {
    if listing != [] {
      var n := |listing| - 1;
      assert listing == listing[..n] + [listing[n]];
      SketchEntriesSnoc(listing[..n], listing[n]);
      OneLinePerSketchEntry(folder, listing[..n], env, loads, render);
    }
  }

  lemma EndsWithTrans(s: string, t: string, u: string)
    requires EndsWith(s, t) && EndsWith(t, u)
    ensures EndsWith(s, u)
  {
    assert s[|s| - |u|..] == s[|s| - |t|..][|t| - |u|..];
  }

  /** No entry the batch processes is ever rejected for its extension. */
  lemma NoExtensionErrorInBatch(folder: string, listing: seq<string>, env: string -> FileState,
                                loads: Value -> Option<Value>, render: Value -> string)
    ensures forall name :: name in SketchEntries(listing) ==>
      EntryOutcome(folder, name, env, loads, render).completion.message != Message(WrongExtension)
  {
    forall name | name in SketchEntries(listing)
      ensures EntryOutcome(folder, name, env, loads, render).completion.message != Message(WrongExtension)
    {
      var path := Join(folder, name);
      EndsWithTrans(path, name, SketchSuffix);
      var status := Screen(path, env(path).probe);
      if Message(status) == Message(WrongExtension) {
        MessageInjective(status, WrongExtension);
      }
    }
  }

  lemma BatchSnoc(folder: string, listing: seq<string>, name: string, env: string -> FileState,
                  loads: Value -> Option<Value>, render: Value -> string)
    ensures Batch(folder, listing + [name], env, loads, render) ==
      Step(Batch(folder, listing, env, loads, render), name, EntryOutcome(folder, name, env, loads, render))
  {
    assert (listing + [name])[..|listing|] == listing;
  }

  lemma StepAfter(p: (seq<string>, seq<OutputFile>), q: (seq<string>, seq<OutputFile>), name: string, o: Outcome)
    requires o.completion.Returned?
    ensures Step((p.0 + q.0, p.1 + q.1), name, o) == (p.0 + Step(q, name, o).0, p.1 + Step(q, name, o).1)
  {
    var line := ReportLine(name, o.completion.message);
    assert (p.0 + q.0) + [line] == p.0 + (q.0 + [line]);
    assert (p.1 + q.1) + o.written == p.1 + (q.1 + o.written);
  }

  /** Entries are processed independently: a listing's report is the reports of its parts, joined. */
  lemma {:induction false} BatchAppend(folder: string, a: seq<string>, b: seq<string>, env: string -> FileState,
                                       loads: Value -> Option<Value>, render: Value -> string)
    ensures var ra, rb := Batch(folder, a, env, loads, render), Batch(folder, b, env, loads, render);
      Batch(folder, a + b, env, loads, render) == (ra.0 + rb.0, ra.1 + rb.1)
  {
    if b == [] {
      var ra := Batch(folder, a, env, loads, render);
      assert a + b == a && ra.0 + [] == ra.0 && ra.1 + [] == ra.1;
    } else {
      var n := |b| - 1;
      assert a + b == (a + b[..n]) + [b[n]];
      assert b == b[..n] + [b[n]];
      BatchSnoc(folder, a + b[..n], b[n], env, loads, render);
      BatchSnoc(folder, b[..n], b[n], env, loads, render);
      BatchAppend(folder, a, b[..n], env, loads, render);
      StepAfter(Batch(folder, a, env, loads, render), Batch(folder, b[..n], env, loads, render),
                b[n], EntryOutcome(folder, b[n], env, loads, render));
    }
  }
}
