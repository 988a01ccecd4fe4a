/**
 * The edit dialog of the newer library: two text fields that start as the book's
 * title and author, and a submit that saves both trimmed, unless the trimmed title is
 * empty or the book has no id.
 */
module EditBookDialog {
  import opened Wrappers
  import Js
  import AppDb

  /** What a save hands on: the book id and the new title and author. */
  datatype Save = Save(id: nat, title: string, author: string)

  /** `handleSubmit`'s decision for these field contents. */
  function SubmitRequest(id: nat, title: string, author: string): (r: Option<Save>)
    ensures r.Some? <==> Js.Trim(title) != [] && id != 0
    ensures r.Some? ==> r.value == Save(id, Js.Trim(title), Js.Trim(author))
  {
    if Js.Trim(title) == [] || id == 0 then None else Some(Save(id, Js.Trim(title), Js.Trim(author)))
  }

  /**
   * Only the title is checked: a blank author is saved as the empty string, and a
   * title of spaces only is never saved.
   */
  lemma {:induction false} OnlyTitleIsRequired(id: nat, title: string, author: string)
    requires id != 0 && Js.Trim(title) != []
    requires forall i :: 0 <= i < |author| ==> Js.IsWhitespace(author[i])
    ensures SubmitRequest(id, title, author) == Some(Save(id, Js.Trim(title), ""))
    ensures forall blank: string :: (forall i :: 0 <= i < |blank| ==> Js.IsWhitespace(blank[i])) ==>
              SubmitRequest(id, blank, author).None?
  {
  }

  /** Saving what was saved changes nothing: trimmed fields are already trimmed. */
  lemma {:induction false} SubmitIsStable(id: nat, title: string, author: string)
    requires SubmitRequest(id, title, author).Some?
    ensures var s := SubmitRequest(id, title, author).value;
            SubmitRequest(id, s.title, s.author) == Some(s)
  {
    Js.TrimIdempotent(title);
    Js.TrimIdempotent(author);
  }

  class Dialog {
    const bookId: nat
    var title: string
    var author: string

    /** The fields start as the book's title and author. */
    constructor(book: AppDb.Book)
      ensures bookId == book.id && title == book.title && author == book.author
    {
      bookId, title, author := book.id, book.title, book.author;
    }

    /** Typing in the title field. */
    method SetTitle(text: string)
      modifies this`title
      ensures title == text
    {
      title := text;
    }

    /** Typing in the author field. */
    method SetAuthor(text: string)
      modifies this`author
      ensures author == text
    {
      author := text;
    }

    /** Submitting the form. */
    function Submit(): (r: Option<Save>)
      reads this
      ensures r == SubmitRequest(bookId, title, author)
      ensures r.Some? ==> r.value.id == bookId
    {
      SubmitRequest(bookId, title, author)
    }
  }
}
