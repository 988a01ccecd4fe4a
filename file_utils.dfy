/**
 * The older application's file intake: the book type from a case-insensitive suffix,
 * and the defaults for metadata that is missing or empty (`||`).
 */
module FileUtils {
  import opened Wrappers
  import Js
  import SrcDb
  import AppDb
  import FileHelpers

  /** `getFileType(file)`: the lower-cased name ends with `.epub` or `.pdf`. */
  function FileType(name: string): (t: Option<SrcDb.BookType>)
    ensures t == Some(SrcDb.Epub) <==> Js.EndsWith(Js.ToLower(name), ".epub")
    ensures t == Some(SrcDb.Pdf) <==> !Js.EndsWith(Js.ToLower(name), ".epub") && Js.EndsWith(Js.ToLower(name), ".pdf")
  {
    var lower := Js.ToLower(name);
    if Js.EndsWith(lower, ".epub") then Some(SrcDb.Epub)
    else if Js.EndsWith(lower, ".pdf") then Some(SrcDb.Pdf)
    else None
  }

  /** `value || fallback` for a string that may be missing. */
  function OrDefault(value: Option<string>, fallback: string): (r: string)
    ensures value.Some? && value.value != "" ==> r == value.value
    ensures value.None? || value.value == "" ==> r == fallback
  {
    if value.Some? && value.value != "" then value.value else fallback
  }

  datatype EpubMetadata = EpubMetadata(title: string, author: string)
  datatype PdfMetadata = PdfMetadata(title: string, author: string, pageCount: int)

  /** The EPUB metadata record from the package's title and creator. */
  function EpubMetadataOf(title: Option<string>, creator: Option<string>): (m: EpubMetadata)
    ensures m.title == OrDefault(title, "Untitled") && m.author == OrDefault(creator, "Unknown Author")
    ensures m.title != "" && m.author != ""
  {
    EpubMetadata(OrDefault(title, "Untitled"), OrDefault(creator, "Unknown Author"))
  }

  /** The PDF metadata record from the document's info dictionary (missing counts as empty) and page count. */
  function PdfMetadataOf(info: Option<map<string, string>>, numPages: int): (m: PdfMetadata)
    ensures var d := info.GetOr(map[]);
            m.title == OrDefault(if "Title" in d then Some(d["Title"]) else None, "Untitled PDF") &&
            m.author == OrDefault(if "Author" in d then Some(d["Author"]) else None, "Unknown Author")
    ensures info.None? ==> m == PdfMetadata("Untitled PDF", "Unknown Author", numPages)
    ensures m.pageCount == numPages && m.title != "" && m.author != ""
  {
    var d := info.GetOr(map[]);
    PdfMetadata(OrDefault(if "Title" in d then Some(d["Title"]) else None, "Untitled PDF"),
                OrDefault(if "Author" in d then Some(d["Author"]) else None, "Unknown Author"),
                numPages)
  }

  /** Every name the suffix test accepts, the newer application accepts as the same type. */
  lemma SuffixTypeImpliesExtensionType(name: string)
    ensures FileType(name) == Some(SrcDb.Epub) ==> FileHelpers.FileType(name) == Some(AppDb.Epub)
    ensures FileType(name) == Some(SrcDb.Pdf) ==> FileHelpers.FileType(name) == Some(AppDb.Pdf)
  {
    var lower := Js.ToLower(name);
    if Js.EndsWith(lower, ".epub") {
      AfterDotOfSuffix(lower, "epub");
    } else if Js.EndsWith(lower, ".pdf") {
      AfterDotOfSuffix(lower, "pdf");
    }
  }

  /** The converse fails: a bare "epub", with no dot, is an EPUB to the newer application only. */
  lemma BareExtensionIsAcceptedOnlyByNewer()
    ensures FileHelpers.FileType("epub") == Some(AppDb.Epub) && FileType("epub").None?
  {
    assert Js.ToLower("epub") == "epub";
    assert Js.AfterLastDot("epub") == "epub";
  }

  /** A string ending with `.` + `ext`, where `ext` has no dot, has `ext` after its last dot. */
  lemma AfterDotOfSuffix(s: string, ext: string)
    requires '.' !in ext && Js.EndsWith(s, "." + ext)
    ensures Js.AfterLastDot(s) == ext
  {
    var r := Js.AfterLastDot(s);
    var n := |s|;
    assert s[n - |ext| - 1] == '.' by {
      assert s[n - |ext| - 1..] == "." + ext;
    }
    assert s[n - |ext|..] == ext by {
      assert s[n - |ext| - 1..] == "." + ext;
    }
  }
}
