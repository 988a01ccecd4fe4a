/**
 * The newer application's record store: four auto-increment tables (books with a
 * unique `key` index, progress, bookmarks and settings). A table is a sequence of
 * rows in primary-key order; each table hands out ids 1, 2, 3, ... from its own
 * counter. The methods are the store primitives the hooks call.
 */
module AppDb {
  import opened Wrappers
  import Seqs
  import opened Bookmarks

  datatype BookType = Epub | Pdf

  /** A book row; the file bytes and cover image are carried along untouched and not modelled. */
  datatype Book = Book(id: nat, key: string, title: string, author: string, kind: BookType, pageCount: Option<int>, addedAt: int)

  /** A book as prepared for insertion, before the store assigns its id. */
  datatype BookDraft = BookDraft(key: string, title: string, author: string, kind: BookType, pageCount: Option<int>, addedAt: int)

  datatype Progress = Progress(id: nat, bookId: int, location: string, percentage: int, updatedAt: int)

  datatype Setting = Setting(id: nat, key: string, value: string)

  /** `books.get(id)`. */
  function BookById(books: seq<Book>, id: int): (r: Option<Book>)
    ensures r.Some? <==> exists i :: 0 <= i < |books| && books[i].id == id
    ensures r.Some? ==> r.value in books && r.value.id == id
  {
    Seqs.First(books, (b: Book) => b.id == id)
  }

  /** `books.where('key').equals(key).first()`. */
  function BookByKey(books: seq<Book>, key: string): (r: Option<Book>)
    ensures r.Some? <==> exists i :: 0 <= i < |books| && books[i].key == key
    ensures r.Some? ==> exists i :: 0 <= i < |books| && books[i] == r.value && r.value.key == key &&
                          forall j :: 0 <= j < i ==> books[j].key != key
  {
    Seqs.First(books, (b: Book) => b.key == key)
  }

  /** `progress.where('bookId').equals(bookId).first()`: the matching row with the lowest id. */
  function FirstProgressOf(rows: seq<Progress>, bookId: int): (r: Option<Progress>)
    ensures r.Some? <==> exists i :: 0 <= i < |rows| && rows[i].bookId == bookId
    ensures r.Some? ==> exists i :: 0 <= i < |rows| && rows[i] == r.value && r.value.bookId == bookId &&
                          forall j :: 0 <= j < i ==> rows[j].bookId != bookId
  {
    Seqs.First(rows, (p: Progress) => p.bookId == bookId)
  }

  /** `bookmarks.where('bookId').equals(bookId).toArray()`. */
  function BookmarksOf(rows: seq<Bookmark>, bookId: int): (r: seq<Bookmark>)
    ensures forall i :: 0 <= i < |r| ==> r[i].bookId == bookId && r[i] in rows
    ensures forall i :: 0 <= i < |rows| && rows[i].bookId == bookId ==> rows[i] in r
  {
    Seqs.Filter(rows, (b: Bookmark) => b.bookId == bookId)
  }

  /** The book table after `books.delete(id)`. Kept apart from `SrcDb.BooksWithoutId`
      because the rows differ: this schema's `Book` carries the unique `key`. */
  function BooksWithoutId(rows: seq<Book>, id: int): (r: seq<Book>)
    ensures forall i :: 0 <= i < |r| ==> r[i].id != id && r[i] in rows
    ensures forall i :: 0 <= i < |rows| && rows[i].id != id ==> rows[i] in r
  {
    Seqs.Filter(rows, (b: Book) => b.id != id)
  }

  /** The progress table after `where('bookId').equals(bookId).delete()`. */
  function ProgressWithoutBook(rows: seq<Progress>, bookId: int): (r: seq<Progress>)
    ensures forall i :: 0 <= i < |r| ==> r[i].bookId != bookId && r[i] in rows
    ensures forall i :: 0 <= i < |rows| && rows[i].bookId != bookId ==> rows[i] in r
  {
    Seqs.Filter(rows, (p: Progress) => p.bookId != bookId)
  }

  /** The settings table after `where('key').equals(key).delete()`. */
  function SettingsWithoutKey(rows: seq<Setting>, key: string): (r: seq<Setting>)
    ensures forall i :: 0 <= i < |r| ==> r[i].key != key && r[i] in rows
    ensures forall i :: 0 <= i < |rows| && rows[i].key != key ==> rows[i] in r
  {
    Seqs.Filter(rows, (s: Setting) => s.key != key)
  }

  /** A book row after `update(id, changes)`, where an absent change keeps the field. */
  function Changed(b: Book, title: Option<string>, author: Option<string>): Book {
    b.(title := title.GetOr(b.title), author := author.GetOr(b.author))
  }

  /** The book table after `books.update(id, changes)` with optional title and author. */
  function WithChanges(rows: seq<Book>, id: int, title: Option<string>, author: Option<string>): (r: seq<Book>)
    ensures |r| == |rows|
    ensures forall i :: 0 <= i < |rows| ==> r[i] == (if rows[i].id == id then Changed(rows[i], title, author) else rows[i])
  {
    seq(|rows|, i requires 0 <= i < |rows| => if rows[i].id == id then Changed(rows[i], title, author) else rows[i])
  }

  /** `orderBy('addedAt').reverse()`: walking the index backwards, ties in reverse id order.
      Stated on this schema's `Book` (with `key`); `SrcDb.NewestFirst` is the same query
      on the older rows, both one use of `Seqs.SortDesc`. */
  function NewestFirst(rows: seq<Book>): (r: seq<Book>)
    ensures Seqs.SortedDesc(r, (b: Book) => b.addedAt)
    ensures multiset(r) == multiset(rows)
  {
    Seqs.SortDesc(Seqs.Reverse(rows), (b: Book) => b.addedAt)
  }

  /** Every id is in `[1, next)`, and the next id is a real one. */
  predicate IdsBelow<T>(rows: seq<T>, id: T -> int, next: nat) {
    0 < next && forall i :: 0 <= i < |rows| ==> 0 < id(rows[i]) < next
  }

  function BookId(b: Book): int { b.id }
  function ProgressId(p: Progress): int { p.id }
  function BookmarkId(b: Bookmark): int { b.id }
  function SettingId(s: Setting): int { s.id }

  /** No two books share a key (the `&key` index). */
  predicate UniqueKeys(rows: seq<Book>) {
    forall i, j :: 0 <= i < j < |rows| ==> rows[i].key != rows[j].key
  }

  class Database {
    var books: seq<Book>
    var progress: seq<Progress>
    var bookmarks: seq<Bookmark>
    var settings: seq<Setting>
    var nextBookId: nat
    var nextProgressId: nat
    var nextBookmarkId: nat
    var nextSettingId: nat

    predicate Valid()
      reads this
    {
      Seqs.Ascending(books, BookId) && IdsBelow(books, BookId, nextBookId) &&
      Seqs.Ascending(progress, ProgressId) && IdsBelow(progress, ProgressId, nextProgressId) &&
      Seqs.Ascending(bookmarks, BookmarkId) && IdsBelow(bookmarks, BookmarkId, nextBookmarkId) &&
      Seqs.Ascending(settings, SettingId) && IdsBelow(settings, SettingId, nextSettingId) &&
      UniqueKeys(books)
    }

    constructor()
      ensures Valid()
      ensures books == [] && progress == [] && bookmarks == [] && settings == []
      ensures nextBookId == 1 && nextProgressId == 1 && nextBookmarkId == 1 && nextSettingId == 1
    {
      books, progress, bookmarks, settings := [], [], [], [];
      nextBookId, nextProgressId, nextBookmarkId, nextSettingId := 1, 1, 1, 1;
    }

    /** `books.add(draft)`: refused when the key is taken, otherwise appended under a fresh id. */
    method AddBook(draft: BookDraft) returns (r: Result<nat, string>)
      requires Valid()
      modifies this
      ensures Valid()
      ensures progress == old(progress) && bookmarks == old(bookmarks) && settings == old(settings)
      ensures nextProgressId == old(nextProgressId) && nextBookmarkId == old(nextBookmarkId) && nextSettingId == old(nextSettingId)
      ensures (exists i :: 0 <= i < |old(books)| && old(books)[i].key == draft.key) ==>
                r == Failure("ConstraintError") && books == old(books) && nextBookId == old(nextBookId)
      ensures (forall i :: 0 <= i < |old(books)| ==> old(books)[i].key != draft.key) ==>
                r == Success(old(nextBookId)) && nextBookId == old(nextBookId) + 1 &&
                books == old(books) + [Book(old(nextBookId), draft.key, draft.title, draft.author, draft.kind, draft.pageCount, draft.addedAt)]
    {
      if exists i :: 0 <= i < |books| && books[i].key == draft.key {
        r := Failure("ConstraintError");
      } else {
        var id := nextBookId;
        Seqs.AppendAscending(books, Book(id, draft.key, draft.title, draft.author, draft.kind, draft.pageCount, draft.addedAt), BookId);
        books := books + [Book(id, draft.key, draft.title, draft.author, draft.kind, draft.pageCount, draft.addedAt)];
        nextBookId := nextBookId + 1;
        r := Success(id);
      }
    }

    /** `books.delete(id)`. */
    method DeleteBookRow(id: int)
      requires Valid()
      modifies this`books
      ensures Valid()
      ensures books == BooksWithoutId(old(books), id)
    {
      var keep := (b: Book) => b.id != id;
      Seqs.FilterAscending(books, keep, BookId);
      books := BooksWithoutId(books, id);
    }

    /** `books.update(id, changes)`. */
    method UpdateBookRow(id: int, title: Option<string>, author: Option<string>)
      requires Valid()
      modifies this`books
      ensures Valid()
      ensures books == WithChanges(old(books), id, title, author)
    {
      books := WithChanges(books, id, title, author);
    }

    /** `progress.where('bookId').equals(bookId).delete()`. */
    method DeleteProgressOf(bookId: int)
      requires Valid()
      modifies this`progress
      ensures Valid()
      ensures progress == ProgressWithoutBook(old(progress), bookId)
    {
      Seqs.FilterAscending(progress, (p: Progress) => p.bookId != bookId, ProgressId);
      progress := ProgressWithoutBook(progress, bookId);
    }

    /** `progress.add(...)`. */
    method AddProgress(bookId: int, location: string, percentage: int, now: int) returns (id: nat)
      requires Valid()
      modifies this`progress, this`nextProgressId
      ensures Valid()
      ensures id == old(nextProgressId) && nextProgressId == id + 1
      ensures progress == old(progress) + [Progress(id, bookId, location, percentage, now)]
    {
      id := nextProgressId;
      Seqs.AppendAscending(progress, Progress(id, bookId, location, percentage, now), ProgressId);
      progress := progress + [Progress(id, bookId, location, percentage, now)];
      nextProgressId := nextProgressId + 1;
    }

    /** `bookmarks.where('bookId').equals(bookId).delete()`. */
    method DeleteBookmarksOf(bookId: int)
      requires Valid()
      modifies this`bookmarks
      ensures Valid()
      ensures bookmarks == BookmarksWithoutBook(old(bookmarks), bookId)
    {
      Seqs.FilterAscending(bookmarks, (b: Bookmark) => b.bookId != bookId, BookmarkId);
      bookmarks := BookmarksWithoutBook(bookmarks, bookId);
    }

    /** `bookmarks.add(...)`. */
    method AddBookmark(bookId: int, location: string, caption: string, now: int) returns (id: nat)
      requires Valid()
      modifies this`bookmarks, this`nextBookmarkId
      ensures Valid()
      ensures id == old(nextBookmarkId) && nextBookmarkId == id + 1
      ensures bookmarks == old(bookmarks) + [Bookmark(id, bookId, location, caption, now)]
    {
      id := nextBookmarkId;
      Seqs.AppendAscending(bookmarks, Bookmark(id, bookId, location, caption, now), BookmarkId);
      bookmarks := bookmarks + [Bookmark(id, bookId, location, caption, now)];
      nextBookmarkId := nextBookmarkId + 1;
    }

    /** `bookmarks.delete(id)`. */
    method DeleteBookmark(id: int)
      requires Valid()
      modifies this`bookmarks
      ensures Valid()
      ensures bookmarks == Seqs.Filter(old(bookmarks), (b: Bookmark) => b.id != id)
    {
      Seqs.FilterAscending(bookmarks, (b: Bookmark) => b.id != id, BookmarkId);
      bookmarks := Seqs.Filter(bookmarks, (b: Bookmark) => b.id != id);
    }

    /** `settings.where('key').equals(key).delete()`. */
    method DeleteSettingsWithKey(key: string)
      requires Valid()
      modifies this`settings
      ensures Valid()
      ensures settings == SettingsWithoutKey(old(settings), key)
    {
      Seqs.FilterAscending(settings, (s: Setting) => s.key != key, SettingId);
      settings := SettingsWithoutKey(settings, key);
    }

    /** `settings.add({ key, value })`. */
    method AddSetting(key: string, value: string) returns (id: nat)
      requires Valid()
      modifies this`settings, this`nextSettingId
      ensures Valid()
      ensures id == old(nextSettingId) && nextSettingId == id + 1
      ensures settings == old(settings) + [Setting(id, key, value)]
    {
      id := nextSettingId;
      Seqs.AppendAscending(settings, Setting(id, key, value), SettingId);
      settings := settings + [Setting(id, key, value)];
      nextSettingId := nextSettingId + 1;
    }
  }
}
