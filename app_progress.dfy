/**
 * Reading progress in the newer application: the reader sees the first progress
 * row of its book, and an update deletes every row of the book before adding one.
 */
module AppProgress {
  import opened Wrappers
  import Seqs
  import opened AppDb

  /** The progress the hook yields for `bookId`; a falsy id (0) yields nothing. */
  function ProgressOf(rows: seq<Progress>, bookId: int): (r: Option<Progress>)
    ensures bookId == 0 ==> r.None?
    ensures r.Some? ==> r.value in rows && r.value.bookId == bookId
    ensures bookId != 0 && (exists i :: 0 <= i < |rows| && rows[i].bookId == bookId) ==> r.Some?
  {
    if bookId == 0 then None else FirstProgressOf(rows, bookId)
  }

  /** The progress table after an update of `bookId` whose added row is `row`. */
  function Upserted(rows: seq<Progress>, bookId: int, row: Progress): seq<Progress> {
    ProgressWithoutBook(rows, bookId) + [row]
  }

  /** `updateProgress(location, percentage)` at time `now`. */
  method UpdateProgress(db: Database, bookId: int, location: string, percentage: int, now: int)
    requires db.Valid()
    modifies db
    ensures db.Valid()
    ensures db.books == old(db.books) && db.bookmarks == old(db.bookmarks) && db.settings == old(db.settings)
    ensures bookId == 0 ==> db.progress == old(db.progress) && db.nextProgressId == old(db.nextProgressId)
    ensures bookId != 0 ==>
      db.progress == Upserted(old(db.progress), bookId, Progress(old(db.nextProgressId), bookId, location, percentage, now))
  {
    if bookId == 0 {
      return;
    }
    db.DeleteProgressOf(bookId);
    var _ := db.AddProgress(bookId, location, percentage, now);
  }

  /** After an update the book has exactly one progress row: the one just added. */
  lemma {:induction false} UpdateLeavesOneRow(rows: seq<Progress>, bookId: int, row: Progress)
    requires row.bookId == bookId
    ensures var after := Upserted(rows, bookId, row);
            forall i :: 0 <= i < |after| && after[i].bookId == bookId ==> after[i] == row && i == |after| - 1
  {
  }

  /** Reading after an update of a real book returns the row just written. */
  lemma {:induction false} ReadAfterUpdate(rows: seq<Progress>, bookId: int, row: Progress)
    requires bookId != 0 && row.bookId == bookId
    ensures ProgressOf(Upserted(rows, bookId, row), bookId) == Some(row)
  {
    var p := (q: Progress) => q.bookId == bookId;
    Seqs.FirstOfAppend(ProgressWithoutBook(rows, bookId), row, p);
    var kept := ProgressWithoutBook(rows, bookId);
    assert forall i :: 0 <= i < |kept| ==> !p(kept[i]);
  }

  /** An update of one book changes nothing another book reads. */
  lemma {:induction false} UpdateLeavesOthers(rows: seq<Progress>, bookId: int, row: Progress, other: int)
    requires row.bookId == bookId && other != bookId
    ensures ProgressOf(Upserted(rows, bookId, row), other) == ProgressOf(rows, other)
  {
    var p := (q: Progress) => q.bookId == other;
    var keep := (q: Progress) => q.bookId != bookId;
    Seqs.FirstOfAppend(ProgressWithoutBook(rows, bookId), row, p);
    Seqs.FirstOfFilter(rows, keep, p);
  }
}
