/**
 * Bookmarks in the newer application: the list of the open book, creation without
 * any duplicate check, and removal by id.
 */
module AppBookmarks {
  import opened Wrappers
  import Seqs
  import opened Bookmarks
  import opened AppDb

  /** The bookmarks the hook yields: the book's rows, or none for a falsy id (0). */
  function BookmarkList(rows: seq<Bookmark>, bookId: int): (r: seq<Bookmark>)
    ensures bookId == 0 ==> r == []
    ensures forall i :: 0 <= i < |r| ==> r[i].bookId == bookId && r[i] in rows
    ensures bookId != 0 ==> forall i :: 0 <= i < |rows| && rows[i].bookId == bookId ==> rows[i] in r
  {
    if bookId == 0 then [] else BookmarksOf(rows, bookId)
  }

  /** `createBookmark(location, label)`: the new id, or nothing for a falsy book id. */
  method CreateBookmark(db: Database, bookId: int, location: string, caption: string, now: int) returns (r: Option<nat>)
    requires db.Valid()
    modifies db
    ensures db.Valid()
    ensures db.books == old(db.books) && db.progress == old(db.progress) && db.settings == old(db.settings)
    ensures bookId == 0 ==> r == None && db.bookmarks == old(db.bookmarks) && db.nextBookmarkId == old(db.nextBookmarkId)
    ensures bookId != 0 ==> r == Some(old(db.nextBookmarkId)) &&
                            db.bookmarks == old(db.bookmarks) + [Bookmark(r.value, bookId, location, caption, now)]
  {
    if bookId == 0 {
      return None;
    }
    var id := db.AddBookmark(bookId, location, caption, now);
    r := Some(id);
  }

  /** `removeBookmark(id)`. */
  method RemoveBookmark(db: Database, id: int)
    requires db.Valid()
    modifies db
    ensures db.Valid()
    ensures db.books == old(db.books) && db.progress == old(db.progress) && db.settings == old(db.settings)
    ensures db.bookmarks == Seqs.Filter(old(db.bookmarks), (b: Bookmark) => b.id != id)
  {
    db.DeleteBookmark(id);
  }

  /** Creating at an already bookmarked location still adds a row: the list grows by exactly the new bookmark. */
  lemma {:induction false} CreateNeverDeduplicates(rows: seq<Bookmark>, bookId: int, row: Bookmark)
    requires bookId != 0 && row.bookId == bookId
    ensures BookmarkList(rows + [row], bookId) == BookmarkList(rows, bookId) + [row]
  {
    Seqs.FilterAppend(rows, row, (b: Bookmark) => b.bookId == bookId);
  }

  /** Removal takes away exactly the rows with that id, in the list of every book. */
  lemma {:induction false} RemoveOnlyThatId(rows: seq<Bookmark>, bookId: int, id: int)
    ensures forall b :: b in BookmarkList(rows, bookId) && b.id != id ==>
              b in BookmarkList(Seqs.Filter(rows, (x: Bookmark) => x.id != id), bookId)
    ensures forall b :: b in BookmarkList(Seqs.Filter(rows, (x: Bookmark) => x.id != id), bookId) ==> b.id != id
  {
    var after := Seqs.Filter(rows, (x: Bookmark) => x.id != id);
    forall b | b in BookmarkList(rows, bookId) && b.id != id
      ensures b in BookmarkList(after, bookId)
    {
      var i :| 0 <= i < |rows| && rows[i] == b;
      var j :| 0 <= j < |after| && after[j] == b;
    }
    forall b | b in BookmarkList(after, bookId) ensures b.id != id {
      var j :| 0 <= j < |after| && after[j] == b;
    }
  }
}
