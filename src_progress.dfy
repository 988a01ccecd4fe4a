/**
 * Reading progress in the older application: the hook loads the book's record
 * once per book id and keeps an in-memory copy that a successful save updates.
 */
module SrcProgress {
  import opened Wrappers
  import opened SrcDb

  class ProgressHook {
    const bookId: int
    var progress: Option<Progress>
    var loading: bool

    /** Mounting with `bookId`: nothing loaded yet. */
    constructor(bookId: int)
      ensures this.bookId == bookId && progress == None && loading
    {
      this.bookId := bookId;
      progress := None;
      loading := true;
    }

    /** The load effect: a falsy id loads nothing (and `loading` stays as it was). */
    method Load(db: Database)
      requires db.Valid()
      modifies this`progress, this`loading
      ensures bookId == 0 ==> progress == old(progress) && loading == old(loading)
      ensures bookId != 0 ==> !loading
      ensures bookId != 0 && db.available ==> progress == (if bookId in db.progress then Some(db.progress[bookId]) else None)
      ensures bookId != 0 && !db.available ==> progress == old(progress)
      ensures bookId != 0 && db.available ==> InSync(db)
    {
      if bookId == 0 {
        return;
      }
      loading := true;
      var saved := db.GetProgress(bookId);
      if saved.Success? {
        progress := saved.value;
      }
      loading := false;
    }

    /** `updateProgress(location, percentage)` at time `now`. */
    method UpdateProgress(db: Database, location: string, percentage: int, now: int)
      requires db.Valid()
      modifies db`progress, this`progress
      ensures db.Valid()
      ensures bookId == 0 ==> db.progress == old(db.progress) && progress == old(progress)
      ensures bookId != 0 && db.available ==>
        db.progress == old(db.progress)[bookId := Progress(bookId, location, percentage, now)] &&
        progress == Some(Progress(bookId, location, percentage, now))
      ensures bookId != 0 && !db.available ==> db.progress == old(db.progress) && progress == old(progress)
      ensures old(InSync(db)) ==> InSync(db)
    {
      if bookId == 0 {
        return;
      }
      var ok := db.SaveProgress(bookId, location, percentage, now);
      if ok {
        progress := Some(Progress(bookId, location, percentage, now));
      }
    }

    /** The in-memory copy agrees with the store's record for the book. */
    predicate InSync(db: Database)
      reads this, db
    {
      progress == (if bookId in db.progress then Some(db.progress[bookId]) else None)
    }
  }
}
