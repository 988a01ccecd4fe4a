/**
 * The newer application's batch import: every file is imported in order whatever
 * happened to the previous ones, one result is kept per file, and if any failed the
 * whole mutation fails with one `name: message` line per failure.
 */
module ImportBooks {
  import opened Wrappers
  import Js
  import Seqs

  /** What the loop records about one file. */
  datatype FileResult = FileResult(file: string, success: bool, error: Option<string>)

  /** The record for `file`, whose import ended with `o`; a non-`Error` throw reads "Import failed". */
  function ResultOf(file: string, o: Js.Outcome): (r: FileResult)
    ensures r.file == file && (r.success <==> o.Ok?)
    ensures r.error == Js.ErrorMessage(o, "Import failed")
  {
    FileResult(file, o.Ok?, Js.ErrorMessage(o, "Import failed"))
  }

  /** The results of the loop: one per file, in input order. */
  function Results(files: seq<string>, outcomes: seq<Js.Outcome>): (rs: seq<FileResult>)
    requires |outcomes| == |files|
    ensures |rs| == |files|
    ensures forall i :: 0 <= i < |files| ==> rs[i] == ResultOf(files[i], outcomes[i])
  {
    seq(|files|, i requires 0 <= i < |files| => ResultOf(files[i], outcomes[i]))
  }

  /** `${f.file}: ${f.error}` for a failure. */
  function FailureLine(r: FileResult): (line: string)
    ensures r.file <= line
    ensures Js.EndsWith(line, r.error.GetOr("undefined"))
    ensures |line| == |r.file| + 2 + |r.error.GetOr("undefined")|
  {
    r.file + ": " + r.error.GetOr("undefined")
  }

  function FailureLines(rs: seq<FileResult>): (lines: seq<string>)
    ensures |lines| == |rs|
    ensures forall i :: 0 <= i < |rs| ==> lines[i] == FailureLine(rs[i])
  {
    seq(|rs|, i requires 0 <= i < |rs| => FailureLine(rs[i]))
  }

  function Failures(rs: seq<FileResult>): (fs: seq<FileResult>)
    ensures forall i :: 0 <= i < |fs| ==> !fs[i].success && fs[i] in rs
    ensures forall i :: 0 <= i < |rs| && !rs[i].success ==> rs[i] in fs
  {
    Seqs.Filter(rs, (r: FileResult) => !r.success)
  }

  /**
   * The mutation: `outcomes[i]` is how adding `files[i]` ends. Success holds every result
   * when no file failed; otherwise the error message joins the failure lines with newlines.
   */
  method ImportAll(files: seq<string>, outcomes: seq<Js.Outcome>) returns (r: Result<seq<FileResult>, string>)
    requires |outcomes| == |files|
    ensures r.Success? <==> forall i :: 0 <= i < |outcomes| ==> outcomes[i].Ok?
    ensures r.Success? ==> r.value == Results(files, outcomes)
    ensures r.Failure? ==> r.error == Js.Join(FailureLines(Failures(Results(files, outcomes))), "\n")
  {
    var results: seq<FileResult> := [];
    for i := 0 to |files|
      invariant results == Results(files, outcomes)[..i]
    {
      results := results + [ResultOf(files[i], outcomes[i])];
    }
    assert results == Results(files, outcomes);
    var failures := Failures(results);
    if |failures| > 0 {
      var k :| 0 <= k < |failures|;
      assert failures[k] in results;
      r := Failure(Js.Join(FailureLines(failures), "\n"));
    } else {
      r := Success(results);
    }
  }
}
