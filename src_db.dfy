/**
 * The older application's record store. Books and bookmarks are auto-increment
 * tables; progress is keyed by the book id and settings by their key, so writing
 * either replaces the previous record. Any request can be rejected by the
 * browser's database; `available` says whether requests currently succeed.
 */
module SrcDb {
  import opened Wrappers
  import Seqs
  import opened Bookmarks

  datatype BookType = Epub | Pdf

  /** A book row; the file bytes and cover image are carried along untouched and not modelled. */
  datatype Book = Book(id: nat, title: string, author: string, kind: BookType, pageCount: Option<int>, addedAt: int)

  datatype BookDraft = BookDraft(title: string, author: string, kind: BookType, pageCount: Option<int>)

  datatype Progress = Progress(bookId: int, location: string, percentage: int, updatedAt: int)

  /** A stored setting value: settings are saved untyped, and a stored `null` reads as absent. */
  datatype Value = Null | Text(text: string) | Number(x: real)

  const Unavailable := "database unavailable"

  function BookId(b: Book): int { b.id }

  function BookmarkId(b: Bookmark): int { b.id }

  /** `getAllBooks()` on the rows in id order: `orderBy('addedAt').reverse()`. The older
      schema's `Book` has no `key`, so this is its own function beside `AppDb.NewestFirst`. */
  function NewestFirst(rows: seq<Book>): (r: seq<Book>)
    ensures Seqs.SortedDesc(r, (b: Book) => b.addedAt)
    ensures multiset(r) == multiset(rows)
  {
    Seqs.SortDesc(Seqs.Reverse(rows), (b: Book) => b.addedAt)
  }

  /** `getSetting(key, default)`: the stored value unless it is absent or `null`. */
  function SettingOr(settings: map<string, Value>, key: string, default: Value): (r: Value)
    ensures key in settings && settings[key] != Null ==> r == settings[key]
    ensures key !in settings || settings[key] == Null ==> r == default
  {
    if key in settings && settings[key] != Null then settings[key] else default
  }

  /** The book table after `books.delete(id)`, on this schema's rows (no `key`). */
  function BooksWithoutId(rows: seq<Book>, id: int): (r: seq<Book>)
    ensures forall i :: 0 <= i < |r| ==> r[i].id != id && r[i] in rows
    ensures forall i :: 0 <= i < |rows| && rows[i].id != id ==> rows[i] in r
  {
    Seqs.Filter(rows, (b: Book) => b.id != id)
  }

  /** The tables' invariant: rows in id order below the next ids, progress filed under its own book id. */
  predicate Tables(books: seq<Book>, progress: map<int, Progress>, bookmarks: seq<Bookmark>, nextBookId: int, nextBookmarkId: int) {
    Seqs.Ascending(books, BookId) && (forall i :: 0 <= i < |books| ==> 0 < books[i].id < nextBookId) &&
    Seqs.Ascending(bookmarks, BookmarkId) && (forall i :: 0 <= i < |bookmarks| ==> 0 < bookmarks[i].id < nextBookmarkId) &&
    (forall b :: b in progress ==> progress[b].bookId == b)
  }

  /** Deleting a book, its progress and its bookmarks keeps the tables' invariant. */
  lemma DeleteBookKeepsTables(books: seq<Book>, progress: map<int, Progress>, bookmarks: seq<Bookmark>, id: int, nextBookId: int, nextBookmarkId: int,
                              books': seq<Book>, progress': map<int, Progress>, bookmarks': seq<Bookmark>)
    requires Tables(books, progress, bookmarks, nextBookId, nextBookmarkId)
    requires books' == BooksWithoutId(books, id) && progress' == progress - {id} && bookmarks' == BookmarksWithoutBook(bookmarks, id)
    ensures Tables(books', progress', bookmarks', nextBookId, nextBookmarkId)
  {
    Seqs.FilterAscending(books, (b: Book) => b.id != id, BookId);
    Seqs.FilterAscending(bookmarks, (b: Bookmark) => b.bookId != id, BookmarkId);
  }

  class Database {
    var books: seq<Book>
    var progress: map<int, Progress>
    var bookmarks: seq<Bookmark>
    var settings: map<string, Value>
    var nextBookId: nat
    var nextBookmarkId: nat
    var available: bool

    predicate Valid()
      reads this
    {
      0 < nextBookId && 0 < nextBookmarkId && Tables(books, progress, bookmarks, nextBookId, nextBookmarkId)
    }

    constructor(available: bool)
      ensures Valid()
      ensures books == [] && progress == map[] && bookmarks == [] && settings == map[]
      ensures nextBookId == 1 && nextBookmarkId == 1 && this.available == available
    {
      books, progress, bookmarks, settings := [], map[], [], map[];
      nextBookId, nextBookmarkId := 1, 1;
      this.available := available;
    }

    /** `addBook(data)` at time `now`. */
    method AddBook(draft: BookDraft, now: int) returns (r: Result<nat, string>)
      requires Valid()
      modifies this`books, this`nextBookId
      ensures Valid()
      ensures !available ==> r == Failure(Unavailable) && books == old(books) && nextBookId == old(nextBookId)
      ensures available ==>
        r == Success(old(nextBookId)) && nextBookId == old(nextBookId) + 1 &&
        books == old(books) + [Book(old(nextBookId), draft.title, draft.author, draft.kind, draft.pageCount, now)]
    {
      if !available {
        return Failure(Unavailable);
      }
      var id := nextBookId;
      var row := Book(id, draft.title, draft.author, draft.kind, draft.pageCount, now);
      Seqs.AppendAscending(books, row, BookId);
      books := books + [row];
      nextBookId := nextBookId + 1;
      r := Success(id);
    }

    /** `getBook(id)`. */
    function GetBook(id: int): (r: Result<Option<Book>, string>)
      reads this
      ensures !available <==> r.Failure?
      ensures r.Success? && r.value.Some? ==> r.value.value in books && r.value.value.id == id
      ensures r.Success? && r.value.None? ==> forall i :: 0 <= i < |books| ==> books[i].id != id
    {
      if !available then Failure(Unavailable) else Success(Seqs.First(books, (b: Book) => b.id == id))
    }

    /** `getAllBooks()`. */
    function GetAllBooks(): (r: Result<seq<Book>, string>)
      reads this
      ensures !available <==> r.Failure?
      ensures r.Success? ==> r.value == NewestFirst(books)
    {
      if !available then Failure(Unavailable) else Success(NewestFirst(books))
    }

    /** `deleteBook(id)`: the book, its progress and its bookmarks go together, or nothing does. */
    method DeleteBook(id: int) returns (ok: bool)
      requires Valid()
      modifies this`books, this`progress, this`bookmarks
      ensures Valid()
      ensures ok == old(available)
      ensures !ok ==> books == old(books) && progress == old(progress) && bookmarks == old(bookmarks)
      ensures ok ==>
        books == BooksWithoutId(old(books), id) && progress == old(progress) - {id} &&
        bookmarks == BookmarksWithoutBook(old(bookmarks), id)
    {
      if !available {
        return false;
      }
      ghost var oldBooks, oldProgress, oldBookmarks := books, progress, bookmarks;
      books, progress, bookmarks := BooksWithoutId(books, id), progress - {id}, BookmarksWithoutBook(bookmarks, id);
      DeleteBookKeepsTables(oldBooks, oldProgress, oldBookmarks, id, nextBookId, nextBookmarkId, books, progress, bookmarks);
      ok := true;
    }

    /** `saveProgress(bookId, location, percentage)` at time `now`: a put keyed by the book id. */
    method SaveProgress(bookId: int, location: string, percentage: int, now: int) returns (ok: bool)
      requires Valid()
      modifies this`progress
      ensures Valid()
      ensures ok == available
      ensures !ok ==> progress == old(progress)
      ensures ok ==> progress == old(progress)[bookId := Progress(bookId, location, percentage, now)]
    {
      if !available {
        return false;
      }
      progress := progress[bookId := Progress(bookId, location, percentage, now)];
      ok := true;
    }

    /** `getProgress(bookId)`. */
    function GetProgress(bookId: int): (r: Result<Option<Progress>, string>)
      reads this
      ensures !available <==> r.Failure?
      ensures r.Success? ==> (r.value.Some? <==> bookId in progress)
      ensures r.Success? && r.value.Some? ==> r.value.value == progress[bookId]
    {
      if !available then Failure(Unavailable)
      else if bookId in progress then Success(Some(progress[bookId]))
      else Success(None)
    }

    /** `addBookmark(bookId, location, label)` at time `now`; callers omitting the label pass `""`. */
    method AddBookmark(bookId: int, location: string, caption: string, now: int) returns (r: Result<nat, string>)
      requires Valid()
      modifies this`bookmarks, this`nextBookmarkId
      ensures Valid()
      ensures !available ==> r == Failure(Unavailable) && bookmarks == old(bookmarks) && nextBookmarkId == old(nextBookmarkId)
      ensures available ==>
        r == Success(old(nextBookmarkId)) && nextBookmarkId == old(nextBookmarkId) + 1 &&
        bookmarks == old(bookmarks) + [Bookmark(old(nextBookmarkId), bookId, location, caption, now)]
    {
      if !available {
        return Failure(Unavailable);
      }
      var id := nextBookmarkId;
      var row := Bookmark(id, bookId, location, caption, now);
      Seqs.AppendAscending(bookmarks, row, BookmarkId);
      bookmarks := bookmarks + [row];
      nextBookmarkId := nextBookmarkId + 1;
      r := Success(id);
    }

    /** `getBookmarks(bookId)`, in id order. */
    function GetBookmarks(bookId: int): (r: Result<seq<Bookmark>, string>)
      reads this
      ensures !available <==> r.Failure?
      ensures r.Success? ==> forall i :: 0 <= i < |r.value| ==> r.value[i].bookId == bookId && r.value[i] in bookmarks
      ensures r.Success? ==> forall i :: 0 <= i < |bookmarks| && bookmarks[i].bookId == bookId ==> bookmarks[i] in r.value
    {
      if !available then Failure(Unavailable) else Success(Seqs.Filter(bookmarks, (b: Bookmark) => b.bookId == bookId))
    }

    /** `deleteBookmark(id)`. */
    method DeleteBookmark(id: int) returns (ok: bool)
      requires Valid()
      modifies this`bookmarks
      ensures Valid()
      ensures ok == available
      ensures !ok ==> bookmarks == old(bookmarks)
      ensures ok ==> bookmarks == WithoutId(old(bookmarks), id)
    {
      if !available {
        return false;
      }
      Seqs.FilterAscending(bookmarks, (b: Bookmark) => b.id != id, BookmarkId);
      bookmarks := WithoutId(bookmarks, id);
      ok := true;
    }

    /** `saveSetting(key, value)`: a put keyed by the setting's key. */
    method SaveSetting(key: string, value: Value) returns (ok: bool)
      requires Valid()
      modifies this`settings
      ensures Valid()
      ensures ok == available
      ensures !ok ==> settings == old(settings)
      ensures ok ==> settings == old(settings)[key := value]
    {
      if !available {
        return false;
      }
      settings := settings[key := value];
      ok := true;
    }

    /** `getSetting(key, default)`. */
    function GetSetting(key: string, default: Value): (r: Result<Value, string>)
      reads this
      ensures !available <==> r.Failure?
      ensures r.Success? ==> r.value == SettingOr(settings, key, default)
    {
      if !available then Failure(Unavailable) else Success(SettingOr(settings, key, default))
    }
  }

  /** A put replaces the book's record: reading back gives exactly what was written, and other books keep theirs. */
  lemma SaveProgressReadBack(progress: map<int, Progress>, bookId: int, row: Progress, other: int)
    requires row.bookId == bookId && other != bookId
    ensures var after := progress[bookId := row];
            after[bookId] == row && (other in after <==> other in progress) &&
            (other in progress ==> after[other] == progress[other])
  {
  }
}
