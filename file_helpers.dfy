/**
 * The newer application's file intake: the book type from the text after the last
 * dot, checked after the bytes are read but before any metadata is extracted, and the
 * draft record built from the extracted metadata with the file-name and author fallbacks.
 */
module FileHelpers {
  import opened Wrappers
  import Js
  import AppDb

  /** `getFileType(name)`: the lower-cased text after the last dot decides. */
  function FileType(name: string): (t: Option<AppDb.BookType>)
    ensures t == Some(AppDb.Epub) <==> Js.AfterLastDot(Js.ToLower(name)) == "epub"
    ensures t == Some(AppDb.Pdf) <==> Js.AfterLastDot(Js.ToLower(name)) == "pdf"
  {
    var ext := Js.AfterLastDot(Js.ToLower(name));
    if ext == "epub" then Some(AppDb.Epub) else if ext == "pdf" then Some(AppDb.Pdf) else None
  }

  /** `name.replace(/\.(epub|pdf)$/i, '')`: one trailing `.epub` or `.pdf`, in any case, is cut. */
  function StripBookExtension(name: string): (r: string)
    ensures Js.EndsWith(Js.ToLower(name), ".epub") ==> r == name[..|name| - 5]
    ensures !Js.EndsWith(Js.ToLower(name), ".epub") && Js.EndsWith(Js.ToLower(name), ".pdf") ==> r == name[..|name| - 4]
    ensures !Js.EndsWith(Js.ToLower(name), ".epub") && !Js.EndsWith(Js.ToLower(name), ".pdf") ==> r == name
  {
    var lower := Js.ToLower(name);
    if Js.EndsWith(lower, ".epub") then name[..|name| - 5]
    else if Js.EndsWith(lower, ".pdf") then name[..|name| - 4]
    else name
  }

  /** Lower-casing a concatenation lower-cases its parts. */
  lemma {:induction false} ToLowerAppend(a: string, b: string)
    ensures Js.ToLower(a + b) == Js.ToLower(a) + Js.ToLower(b)
  {
    var l := Js.ToLower(a + b);
    var r := Js.ToLower(a) + Js.ToLower(b);
    assert |l| == |r|;
    forall i | 0 <= i < |l| ensures l[i] == r[i] {
      if i < |a| {
        assert (a + b)[i] == a[i];
      } else {
        assert (a + b)[i] == b[i - |a|];
      }
    }
  }

  /** The fallback title of `base` + `.epub` (in any case) is `base`. */
  lemma {:induction false} FallbackTitleOfEpub(base: string, ext: string)
    requires Js.ToLower(ext) == ".epub"
    ensures StripBookExtension(base + ext) == base
  {
    ToLowerAppend(base, ext);
    var name := base + ext;
    var lower := Js.ToLower(name);
    assert |ext| == 5;
    assert lower == Js.ToLower(base) + ".epub";
    assert lower[|lower| - 5..] == ".epub";
    assert name[..|name| - 5] == base;
  }

  /** The fallback title of `base` + `.pdf` (in any case) is `base`. */
  lemma {:induction false} FallbackTitleOfPdf(base: string, ext: string)
    requires Js.ToLower(ext) == ".pdf"
    ensures StripBookExtension(base + ext) == base
  {
    ToLowerAppend(base, ext);
    var name := base + ext;
    var lower := Js.ToLower(name);
    assert |ext| == 4;
    assert lower == Js.ToLower(base) + ".pdf";
    assert lower[|lower| - 4..] == ".pdf";
    assert lower[|lower| - 1] == 'f';
    if |lower| >= 5 {
      assert lower[|lower| - 5..][4] == 'f';
    }
    assert name[..|name| - 4] == base;
  }

  /** What the metadata extraction yields; absent fields are `undefined`. */
  datatype Metadata = Metadata(title: Option<string>, author: Option<string>, pageCount: Option<int>)

  /**
   * `processFile`: an unsupported name fails before `extract` is consulted; otherwise the
   * draft takes the metadata, falling back (only when absent: `??`) to the stripped
   * file name and "Unknown Author". `key` and `now` are the generated key and the clock.
   */
  function ProcessFile(name: string, extract: AppDb.BookType -> Metadata, key: string, now: int): (r: Result<AppDb.BookDraft, string>)
    ensures FileType(name).None? <==> r.Failure?
    ensures r.Failure? ==> r.error == "Unsupported file type. Please use EPUB or PDF files."
    ensures r.Success? ==>
      var m := extract(FileType(name).value);
      r.value == AppDb.BookDraft(key, m.title.GetOr(StripBookExtension(name)), m.author.GetOr("Unknown Author"),
                                 FileType(name).value, m.pageCount, now)
  {
    match FileType(name)
    case None => Failure("Unsupported file type. Please use EPUB or PDF files.")
    case Some(kind) =>
      var m := extract(kind);
      Success(AppDb.BookDraft(key, m.title.GetOr(StripBookExtension(name)), m.author.GetOr("Unknown Author"),
                              kind, m.pageCount, now))
  }

  /** A present but empty title or author is kept: `??` only replaces a missing one. */
  lemma {:induction false} EmptyMetadataIsKept(name: string, key: string, now: int)
    requires FileType(name).Some?
    ensures var r := ProcessFile(name, (k: AppDb.BookType) => Metadata(Some(""), Some(""), None), key, now);
            r.Success? && r.value.title == "" && r.value.author == ""
  {
  }
}
