/**
 * Bookmarks in the older application: the hook keeps a newest-first copy of the
 * book's bookmarks and reloads it after every successful change.
 */
module SrcBookmarks {
  import opened Wrappers
  import Seqs
  import opened Bookmarks
  import opened SrcDb

  function CreatedAt(b: Bookmark): int { b.createdAt }

  /** `saved.sort((a, b) => b.createdAt - a.createdAt)`. */
  function NewestCreatedFirst(rows: seq<Bookmark>): (r: seq<Bookmark>)
    ensures Seqs.SortedDesc(r, CreatedAt)
    ensures multiset(r) == multiset(rows)
  {
    Seqs.SortDesc(rows, CreatedAt)
  }

  /** The list a successful load shows: the book's bookmarks, newest first. */
  function Listed(bookmarks: seq<Bookmark>, bookId: int): (r: seq<Bookmark>)
    ensures Seqs.SortedDesc(r, CreatedAt)
    ensures forall b :: b in r <==> b in bookmarks && b.bookId == bookId
  {
    var mine := Seqs.Filter(bookmarks, (b: Bookmark) => b.bookId == bookId);
    var r := NewestCreatedFirst(mine);
    assert forall b :: b in r <==> b in multiset(mine);
    r
  }

  class BookmarksHook {
    const bookId: int
    var bookmarks: seq<Bookmark>
    var loading: bool

    constructor(bookId: int)
      ensures this.bookId == bookId && bookmarks == [] && loading
    {
      this.bookId := bookId;
      bookmarks := [];
      loading := true;
    }

    /** `loadBookmarks()`: a failed read keeps the list; a falsy id does nothing at all. */
    method Load(db: Database)
      requires db.Valid()
      modifies this`bookmarks, this`loading
      ensures bookId == 0 ==> bookmarks == old(bookmarks) && loading == old(loading)
      ensures bookId != 0 ==> !loading
      ensures bookId != 0 && db.available ==> bookmarks == Listed(db.bookmarks, bookId)
      ensures bookId != 0 && !db.available ==> bookmarks == old(bookmarks)
    {
      if bookId == 0 {
        return;
      }
      loading := true;
      var saved := db.GetBookmarks(bookId);
      if saved.Success? {
        bookmarks := NewestCreatedFirst(saved.value);
      }
      loading := false;
    }

    /** `createBookmark(location, label)` at time `now`; callers omitting the label pass `""`. */
    method CreateBookmark(db: Database, location: string, caption: string, now: int)
      requires db.Valid()
      modifies db`bookmarks, db`nextBookmarkId, this`bookmarks, this`loading
      ensures db.Valid()
      ensures bookId == 0 ==> db.bookmarks == old(db.bookmarks) && bookmarks == old(bookmarks) && loading == old(loading)
      ensures bookId != 0 && db.available ==>
        db.bookmarks == old(db.bookmarks) + [Bookmark(old(db.nextBookmarkId), bookId, location, caption, now)] &&
        bookmarks == Listed(db.bookmarks, bookId) && !loading
      ensures bookId != 0 && !db.available ==> db.bookmarks == old(db.bookmarks) && bookmarks == old(bookmarks)
    {
      if bookId == 0 {
        return;
      }
      var r := db.AddBookmark(bookId, location, caption, now);
      if r.Success? {
        Load(db);
      }
    }

    /** `removeBookmark(id)`. */
    method RemoveBookmark(db: Database, id: int)
      requires db.Valid()
      modifies db`bookmarks, this`bookmarks, this`loading
      ensures db.Valid()
      ensures db.available ==> db.bookmarks == WithoutId(old(db.bookmarks), id)
      ensures db.available && bookId != 0 ==> bookmarks == Listed(db.bookmarks, bookId)
      ensures bookId == 0 ==> bookmarks == old(bookmarks)
      ensures !db.available ==> db.bookmarks == old(db.bookmarks) && bookmarks == old(bookmarks)
    {
      var ok := db.DeleteBookmark(id);
      if ok {
        Load(db);
      }
    }
  }

  /** A created bookmark shows up in the reloaded list, even when one already sits at that location. */
  lemma CreatedIsListed(rows: seq<Bookmark>, row: Bookmark)
    ensures row in Listed(rows + [row], row.bookId)
  {
    assert (rows + [row])[|rows|] == row;
  }

  /** After removal the reloaded list has no bookmark with that id and keeps every other one. */
  lemma RemovedIsNotListed(rows: seq<Bookmark>, bookId: int, id: int)
    ensures forall b :: b in Listed(WithoutId(rows, id), bookId) <==> b in Listed(rows, bookId) && b.id != id
  {
    forall b | b in Listed(rows, bookId) && b.id != id ensures b in WithoutId(rows, id) {
      var i :| 0 <= i < |rows| && rows[i] == b;
    }
    forall b | b in WithoutId(rows, id) ensures b in rows && b.id != id {
      var i :| 0 <= i < |WithoutId(rows, id)| && WithoutId(rows, id)[i] == b;
    }
  }
}
