/**
 * The newer application's library operations: adding a processed file, the
 * cascading delete (book, its progress and its bookmarks together), delete and
 * lookup by key, title/author edits, and the newest-first listing.
 */
module AppBooks {
  import opened Wrappers
  import Seqs
  import opened Bookmarks
  import opened AppDb

  /** `addBook(file)`: a file that failed processing adds nothing and its error propagates. */
  method AddBook(db: Database, processed: Result<BookDraft, string>) returns (r: Result<nat, string>)
    requires db.Valid()
    modifies db
    ensures db.Valid()
    ensures db.progress == old(db.progress) && db.bookmarks == old(db.bookmarks) && db.settings == old(db.settings)
    ensures processed.Failure? ==> r == Failure(processed.error) && db.books == old(db.books)
    ensures r.Success? ==>
      processed.Success? && r.value == old(db.nextBookId) &&
      db.books == old(db.books) + [Book(r.value, processed.value.key, processed.value.title,
        processed.value.author, processed.value.kind, processed.value.pageCount, processed.value.addedAt)]
    ensures processed.Success? && r.Failure? ==>
      db.books == old(db.books) && exists i :: 0 <= i < |db.books| && db.books[i].key == processed.value.key
  {
    if processed.Failure? {
      return Failure(processed.error);
    }
    r := db.AddBook(processed.value);
  }

  /** `deleteBook(id)`: one transaction over the three tables. */
  method DeleteBook(db: Database, id: int)
    requires db.Valid()
    modifies db
    ensures db.Valid()
    ensures db.books == BooksWithoutId(old(db.books), id)
    ensures db.progress == ProgressWithoutBook(old(db.progress), id)
    ensures db.bookmarks == BookmarksWithoutBook(old(db.bookmarks), id)
    ensures db.settings == old(db.settings)
  {
    db.DeleteBookRow(id);
    db.DeleteProgressOf(id);
    db.DeleteBookmarksOf(id);
  }

  /** `deleteBookByKey(key)`: deletes the first book with the key when it has an id. */
  method DeleteBookByKey(db: Database, key: string)
    requires db.Valid()
    modifies db
    ensures db.Valid()
    ensures db.settings == old(db.settings)
    ensures match BookByKey(old(db.books), key)
            case Some(b) =>
              b.id != 0 ==> db.books == BooksWithoutId(old(db.books), b.id) &&
                            db.progress == ProgressWithoutBook(old(db.progress), b.id) &&
                            db.bookmarks == BookmarksWithoutBook(old(db.bookmarks), b.id)
            case None =>
              db.books == old(db.books) && db.progress == old(db.progress) && db.bookmarks == old(db.bookmarks)
  {
    var book := BookByKey(db.books, key);
    if book.Some? && book.value.id != 0 {
      DeleteBook(db, book.value.id);
    }
  }

  /** `getBook(id)`. */
  function GetBook(db: Database, id: int): (r: Option<Book>)
    reads db
    ensures r.Some? <==> exists i :: 0 <= i < |db.books| && db.books[i].id == id
    ensures r.Some? ==> r.value in db.books && r.value.id == id
  {
    BookById(db.books, id)
  }

  /** `getBookByKey(key)`. */
  function GetBookByKey(db: Database, key: string): (r: Option<Book>)
    reads db
    ensures r.Some? <==> exists i :: 0 <= i < |db.books| && db.books[i].key == key
    ensures r.Some? ==> r.value in db.books && r.value.key == key
  {
    BookByKey(db.books, key)
  }

  /** `updateBook(id, changes)`: only the title and/or author of that book change. */
  method UpdateBook(db: Database, id: int, title: Option<string>, author: Option<string>)
    requires db.Valid()
    modifies db
    ensures db.Valid()
    ensures db.books == WithChanges(old(db.books), id, title, author)
    ensures db.progress == old(db.progress) && db.bookmarks == old(db.bookmarks) && db.settings == old(db.settings)
  {
    db.UpdateBookRow(id, title, author);
  }

  /** The library as the hook yields it from the live query's result (absent while loading). */
  function Library(query: Option<seq<Book>>): (r: (seq<Book>, bool))
    ensures r.1 <==> query.None?
    ensures query.None? ==> r.0 == []
    ensures query.Some? ==> r.0 == NewestFirst(query.value)
  {
    match query
    case None => ([], true)
    case Some(rows) => (NewestFirst(rows), false)
  }

  /** Every progress and bookmark row belongs to a stored book. */
  predicate NoOrphans(books: seq<Book>, progress: seq<Progress>, bookmarks: seq<Bookmark>) {
    (forall i :: 0 <= i < |progress| ==> exists k :: 0 <= k < |books| && books[k].id == progress[i].bookId) &&
    (forall i :: 0 <= i < |bookmarks| ==> exists k :: 0 <= k < |books| && books[k].id == bookmarks[i].bookId)
  }

  /** The cascade keeps the store free of orphans, and no row of the deleted book remains. */
  lemma {:induction false} DeleteBookKeepsNoOrphans(books: seq<Book>, progress: seq<Progress>, bookmarks: seq<Bookmark>, id: int)
    requires NoOrphans(books, progress, bookmarks)
    ensures NoOrphans(BooksWithoutId(books, id), ProgressWithoutBook(progress, id), BookmarksWithoutBook(bookmarks, id))
    ensures forall i :: 0 <= i < |ProgressWithoutBook(progress, id)| ==> ProgressWithoutBook(progress, id)[i].bookId != id
    ensures forall i :: 0 <= i < |BookmarksWithoutBook(bookmarks, id)| ==> BookmarksWithoutBook(bookmarks, id)[i].bookId != id
  {
    var bs := BooksWithoutId(books, id);
    var ps := ProgressWithoutBook(progress, id);
    var ms := BookmarksWithoutBook(bookmarks, id);
    forall i | 0 <= i < |ps| ensures exists k :: 0 <= k < |bs| && bs[k].id == ps[i].bookId {
      var j :| 0 <= j < |progress| && progress[j] == ps[i];
      var w := StillOwned(books, id, progress[j].bookId);
      assert bs[w].id == ps[i].bookId;
    }
    assert forall i :: 0 <= i < |ps| ==> exists k :: 0 <= k < |bs| && bs[k].id == ps[i].bookId;
    forall i | 0 <= i < |ms| ensures exists k :: 0 <= k < |bs| && bs[k].id == ms[i].bookId {
      var j :| 0 <= j < |bookmarks| && bookmarks[j] == ms[i];
      var w := StillOwned(books, id, bookmarks[j].bookId);
      assert bs[w].id == ms[i].bookId;
    }
  }

  /** A book other than the deleted one is still in the book table. */
  lemma StillOwned(books: seq<Book>, id: int, owner: int) returns (k: nat)
    requires owner != id && exists k :: 0 <= k < |books| && books[k].id == owner
    ensures k < |BooksWithoutId(books, id)| && BooksWithoutId(books, id)[k].id == owner
  {
    var bs := BooksWithoutId(books, id);
    var j :| 0 <= j < |books| && books[j].id == owner;
    k :| 0 <= k < |bs| && bs[k] == books[j];
  }
}
