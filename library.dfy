/**
 * The older library screen's file import: the selected files are imported one after
 * another, the first failure stops the rest and becomes the shown error, and the
 * importing flag is down again whatever happened.
 */
module Library {
  import opened Wrappers
  import Js
  import Seqs

  /** The position of the first import that throws, if any. */
  function FirstFailure(outcomes: seq<Js.Outcome>): (k: Option<nat>)
    ensures k.Some? ==> k.value < |outcomes| && !outcomes[k.value].Ok? &&
                        forall j :: 0 <= j < k.value ==> outcomes[j].Ok?
    ensures k.None? ==> forall j :: 0 <= j < |outcomes| ==> outcomes[j].Ok?
  {
    Seqs.FirstIndex(outcomes, (o: Js.Outcome) => !o.Ok?)
  }

  class Library {
    var importing: bool
    var error: Option<string>

    constructor()
      ensures !importing && error == None
    {
      importing, error := false, None;
    }

    /**
     * `handleFileSelect(files)`: `outcomes[i]` is how importing `files[i]` would end. The
     * method returns the files handed to the importer, in order.
     */
    method HandleFileSelect(files: Option<seq<string>>, outcomes: seq<Js.Outcome>) returns (attempted: seq<string>)
      requires files.Some? ==> |outcomes| == |files.value|
      modifies this
      ensures files.None? || files.value == [] ==>
        attempted == [] && importing == old(importing) && error == old(error)
      ensures files.Some? && files.value != [] ==> !importing
      ensures files.Some? && files.value != [] ==>
        match FirstFailure(outcomes)
        case None => attempted == files.value && error == None
        case Some(k) =>
          attempted == files.value[..k + 1] && error == Js.ErrorMessage(outcomes[k], "Failed to import")
    {
      if files.None? || files.value == [] {
        return [];
      }
      var list := files.value;
      importing := true;
      error := None;
      attempted := [];
      var i := 0;
      var failed := false;
      while i < |list| && !failed
        invariant 0 <= i <= |list|
        invariant forall j :: 0 <= j < i ==> outcomes[j].Ok? || (failed && j == i - 1)
        invariant failed ==> i > 0 && !outcomes[i - 1].Ok? && error == Js.ErrorMessage(outcomes[i - 1], "Failed to import")
        invariant !failed ==> error == None
        invariant attempted == list[..i]
      {
        attempted := attempted + [list[i]];
        if !outcomes[i].Ok? {
          error := Js.ErrorMessage(outcomes[i], "Failed to import");
          failed := true;
        }
        i := i + 1;
      }
      assert failed ==> FirstFailure(outcomes) == Some(i - 1);
      importing := false;
    }
  }
}
