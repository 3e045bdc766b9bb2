/** `convert_directory` and the command-line entry point `main`: every
    eligible file of a directory listing is converted on its own, a failure
    becomes a `failed` record instead of stopping the run, and the command
    line reports how many records succeeded and failed. */
module Batch {
  import opened Wrappers
  import opened Strings
  import opened Paths
  import opened Dispatch

  /** One path of the directory listing, in the order `glob` yields it:
      whether it is a regular file and, for a file, what its handler does with
      it, the clock reading and its size. */
  datatype FileEntry = FileEntry(path: FilePath, isFile: bool, run: Result<Summary, string>,
                                 conversionTime: string, fileSize: nat)

  /** A listed path is converted when it is a file with a supported suffix
      (compared case-insensitively); everything else is skipped silently. */
  predicate Eligible(e: FileEntry) {
    e.isFile && Extension(e.path) in SupportedExtensions
  }

  /** The listed paths that are converted, in listing order. */
  function Attempted(entries: seq<FileEntry>): (r: seq<FileEntry>)
    ensures |r| <= |entries|
    ensures forall k :: 0 <= k < |r| ==> Eligible(r[k]) && r[k] in entries
  {
    if entries == [] then []
    else if Eligible(entries[0]) then [entries[0]] + Attempted(entries[1..])
    else Attempted(entries[1..])
  }

  /** Every eligible listed path is converted. */
  lemma {:induction false} AttemptedComplete(entries: seq<FileEntry>)
    ensures forall e :: e in entries && Eligible(e) ==> e in Attempted(entries)
  {
    if entries != [] {
      AttemptedComplete(entries[1..]);
      forall e | e in entries && Eligible(e) ensures e in Attempted(entries) {
        if e != entries[0] {
          assert e in entries[1..];
        }
      }
    }
  }

  /** Selection distributes over the concatenation of two listings. */
  lemma {:induction false} AttemptedConcat(a: seq<FileEntry>, b: seq<FileEntry>)
    ensures Attempted(a + b) == Attempted(a) + Attempted(b)
  {
    if a != [] {
      assert (a + b)[0] == a[0];
      assert (a + b)[1..] == a[1..] + b;
      AttemptedConcat(a[1..], b);
    } else {
      assert a + b == b;
    }
  }

  /** The record one file contributes: the record of `convert_file` (run
      without an output name on a file that exists), or, if it raised, a
      `failed` record holding the path and the message. */
  function Attempt(e: FileEntry, outputDir: string): Record {
    match ConvertFile(e.path, true, outputDir, None, e.run, e.conversionTime, e.fileSize)
    case Success(record) => record
    case Failure(err) => Failed(PathString(e.path), Message(err))
  }

  /** A converted file's record names its path, fails exactly when its
      handler raised, and then carries the handler's message unchanged. */
  lemma AttemptMeaning(e: FileEntry, outputDir: string)
    requires Eligible(e)
    ensures Attempt(e, outputDir).inputFile == PathString(e.path)
    ensures Attempt(e, outputDir).Failed? <==> e.run.Failure?
    ensures Status(Attempt(e, outputDir)) == (if e.run.Success? then "success" else "failed")
    ensures e.run.Failure? ==> Attempt(e, outputDir).error == e.run.error
    ensures e.run.Success? ==>
      && Attempt(e, outputDir).summary == e.run.value
      && Attempt(e, outputDir).outputFile == PathString(OutputFile(e.path, outputDir, None))
  {
  }

  /** The records of the converted files, in listing order. */
  function AttemptAll(es: seq<FileEntry>, outputDir: string): (r: seq<Record>)
    ensures |r| == |es| && forall k :: 0 <= k < |es| ==> r[k] == Attempt(es[k], outputDir)
  {
    seq(|es|, k requires 0 <= k < |es| => Attempt(es[k], outputDir))
  }

  /** The result list `convert_directory` returns. */
  function BatchResults(entries: seq<FileEntry>, outputDir: string): seq<Record> {
    AttemptAll(Attempted(entries), outputDir)
  }

  /** Failure isolation: the records of two listings run back to back are the
      records of each listing on its own, so what happens to one file never
      changes another file's record or removes it from the list. */
  lemma BatchConcat(a: seq<FileEntry>, b: seq<FileEntry>, outputDir: string)
    ensures BatchResults(a + b, outputDir) == BatchResults(a, outputDir) + BatchResults(b, outputDir)
  {
    AttemptedConcat(a, b);
    var x, y := Attempted(a), Attempted(b);
    var lhs, rhs := AttemptAll(x + y, outputDir), AttemptAll(x, outputDir) + AttemptAll(y, outputDir);
    forall k | 0 <= k < |lhs| ensures lhs[k] == rhs[k] {
      if k < |x| {
        assert (x + y)[k] == x[k];
      } else {
        assert (x + y)[k] == y[k - |x|];
      }
    }
  }

  /** `convert_directory` over a listing: one record per eligible path, in
      listing order, each naming its path and failing exactly when that
      file's handler raised. */
  method ConvertDirectory(entries: seq<FileEntry>, outputDir: string) returns (results: seq<Record>)
    ensures results == BatchResults(entries, outputDir)
    ensures |results| == |Attempted(entries)|
    ensures forall k :: 0 <= k < |results| ==>
      && results[k].inputFile == PathString(Attempted(entries)[k].path)
      && (results[k].Failed? <==> Attempted(entries)[k].run.Failure?)
  {
    results := [];
    var i := 0;
    while i < |entries|
      invariant 0 <= i <= |entries|
      invariant results == BatchResults(entries[..i], outputDir)
    {
      var e := entries[i];
      BatchStep(entries, i, outputDir);
      if e.isFile && Extension(e.path) in SupportedExtensions {
        var outcome := ConvertFile(e.path, true, outputDir, None, e.run, e.conversionTime, e.fileSize);
        var record := if outcome.Success? then outcome.value else Failed(PathString(e.path), Message(outcome.error));
        results := results + [record];
      }
      i := i + 1;
    }
    assert entries[..|entries|] == entries;
    BatchResultsMeaning(entries, outputDir);
  }

  /** Each record of a directory run names the file it belongs to and fails
      exactly when that file's handler raised. */
  lemma BatchResultsMeaning(entries: seq<FileEntry>, outputDir: string)
    ensures forall k :: 0 <= k < |BatchResults(entries, outputDir)| ==>
      && BatchResults(entries, outputDir)[k].inputFile == PathString(Attempted(entries)[k].path)
      && (BatchResults(entries, outputDir)[k].Failed? <==> Attempted(entries)[k].run.Failure?)
  {
    var es := Attempted(entries);
    var rs := BatchResults(entries, outputDir);
    forall k | 0 <= k < |rs|
      ensures rs[k].inputFile == PathString(es[k].path)
      ensures rs[k].Failed? <==> es[k].run.Failure?
    {
      assert rs[k] == Attempt(es[k], outputDir);
      AttemptMeaning(es[k], outputDir);
    }
  }

  /** One more listed path adds its record, if it is converted, at the end. */
  lemma BatchStep(entries: seq<FileEntry>, i: nat, outputDir: string)
    requires i < |entries|
    ensures BatchResults(entries[..i + 1], outputDir)
      == BatchResults(entries[..i], outputDir) + (if Eligible(entries[i]) then [Attempt(entries[i], outputDir)] else [])
  {
    var e := entries[i];
    var before := Attempted(entries[..i]);
    assert entries[..i + 1] == entries[..i] + [e];
    AttemptedConcat(entries[..i], [e]);
    assert Attempted([e]) == (if Eligible(e) then [e] else []);
    if Eligible(e) {
      assert AttemptAll(before + [e], outputDir) == AttemptAll(before, outputDir) + [Attempt(e, outputDir)];
    } else {
      assert before + [] == before;
    }
  }

  /** How many records have the given status. */
  function CountStatus(rs: seq<Record>, status: string): (n: nat)
    ensures n <= |rs|
  {
    if rs == [] then 0
    else (if Status(rs[0]) == status then 1 else 0) + CountStatus(rs[1..], status)
  }

  /** How many converted files' handlers raised. */
  function HandlerFailures(es: seq<FileEntry>): nat {
    if es == [] then 0 else (if es[0].run.Failure? then 1 else 0) + HandlerFailures(es[1..])
  }

  /** The two counts `main` prints account for every record. */
  lemma {:induction false} CountsPartition(rs: seq<Record>)
    ensures CountStatus(rs, "success") + CountStatus(rs, "failed") == |rs|
  {
    if rs != [] {
      CountsPartition(rs[1..]);
    }
  }

  /** The failed count is the number of converted files whose handler
      raised, and the rest succeeded. */
  lemma {:induction false} BatchCounts(es: seq<FileEntry>, outputDir: string)
    requires forall k :: 0 <= k < |es| ==> Eligible(es[k])
    ensures CountStatus(AttemptAll(es, outputDir), "failed") == HandlerFailures(es)
    ensures CountStatus(AttemptAll(es, outputDir), "success") == |es| - HandlerFailures(es)
  {
    CountsPartition(AttemptAll(es, outputDir));
    if es != [] {
      AttemptMeaning(es[0], outputDir);
      assert AttemptAll(es, outputDir)[1..] == AttemptAll(es[1..], outputDir);
      BatchCounts(es[1..], outputDir);
    }
  }

  /** What the command line was given: an existing file, a directory with its
      listing, or a path that is neither. */
  datatype CliInput =
    | FileInput(entry: FileEntry)
    | DirectoryInput(entries: seq<FileEntry>)
    | OtherInput(path: string)

  /** What `main` reports. */
  datatype CliReport =
    | SingleConverted(record: Record)
    | DirectoryReport(successful: nat, failed: nat, failures: seq<Record>)
    | InputMissing(path: string)
    | Errored(message: string)

  /** The records with status `failed`, in order: the list `main` prints. */
  function FailedRecords(rs: seq<Record>): (r: seq<Record>)
    ensures |r| == CountStatus(rs, "failed")
  {
    if rs == [] then []
    else if Status(rs[0]) == "failed" then [rs[0]] + FailedRecords(rs[1..])
    else FailedRecords(rs[1..])
  }

  /** Every listed record is a failed record of the run, and every failed
      record of the run is listed. */
  lemma {:induction false} FailedRecordsMembers(rs: seq<Record>)
    ensures forall x :: x in FailedRecords(rs) <==> x in rs && x.Failed?
  {
    if rs != [] {
      FailedRecordsMembers(rs[1..]);
      assert rs == [rs[0]] + rs[1..];
    }
  }

  /** A single record is listed exactly when it failed. */
  lemma FailedRecordsOne(x: Record)
    ensures FailedRecords([x]) == (if x.Failed? then [x] else [])
  {
    assert [x][1..] == [];
  }

  /** The failed records are picked record by record, in order: those of two
      runs of records are those of the first run followed by those of the
      second. */
  lemma {:induction false} FailedRecordsConcat(a: seq<Record>, b: seq<Record>)
    ensures FailedRecords(a + b) == FailedRecords(a) + FailedRecords(b)
  {
    if a == [] {
      assert a + b == b;
    } else {
      assert (a + b)[0] == a[0];
      assert (a + b)[1..] == a[1..] + b;
      FailedRecordsConcat(a[1..], b);
      if a[0].Failed? {
        assert FailedRecords(a + b) == [a[0]] + FailedRecords(a[1..] + b);
        assert FailedRecords(a) == [a[0]] + FailedRecords(a[1..]);
      } else {
        assert FailedRecords(a + b) == FailedRecords(a[1..] + b);
        assert FailedRecords(a) == FailedRecords(a[1..]);
      }
    }
  }

  /** `main`: a file is converted on its own (with the optional output name)
      and any exception it raises ends the program with exit status 1; a
      directory is converted file by file and always ends with status 0
      after reporting the two counts; any other path ends with status 1. */
  function RunCli(input: CliInput, outputDir: string, outputName: Option<string>): (r: (CliReport, int))
    ensures r.1 == 0 || r.1 == 1
    ensures input.OtherInput? ==> r == (InputMissing(input.path), 1)
    ensures input.DirectoryInput? ==>
      var results := BatchResults(input.entries, outputDir);
      && r.1 == 0
      && r.0.DirectoryReport?
      && r.0.successful + r.0.failed == |results|
      && r.0.failed == HandlerFailures(Attempted(input.entries))
      && r.0.failures == FailedRecords(results)
    ensures input.FileInput? ==>
      var e := input.entry;
      && (r.1 == 0 <==> Extension(e.path) in SupportedExtensions && e.run.Success?)
      && (r.1 == 0 ==> r.0 == SingleConverted(Converted(e.run.value, PathString(e.path),
            PathString(OutputFile(e.path, outputDir, outputName)), e.conversionTime, e.fileSize)))
  {
    match input
    case OtherInput(path) => (InputMissing(path), 1)
    case FileInput(e) =>
      (match ConvertFile(e.path, true, outputDir, outputName, e.run, e.conversionTime, e.fileSize)
       case Success(record) => (SingleConverted(record), 0)
       case Failure(err) => (Errored(Message(err)), 1))
    case DirectoryInput(entries) =>
      var results := BatchResults(entries, outputDir);
      CountsPartition(results);
      BatchCounts(Attempted(entries), outputDir);
      (DirectoryReport(CountStatus(results, "success"), CountStatus(results, "failed"), FailedRecords(results)), 0)
  }
}
