/**
 * The ONLYOFFICE file utility: four package-level tables from lowercase file
 * extension to document type, the membership predicates and type lookup
 * built on them, filename escaping and splitting, and the accept/reject
 * rule of the content-length check.
 *
 * The Go utility is an empty struct behind an interface; it carries no
 * state, so every operation here is a function.
 */
module OnlyofficeFile {
  import opened Wrappers
  import opened GoStrings
  import opened GoFilepath
  import opened ExtensionTables

  /** The errors the utility returns. */
  datatype FileError =
    | ExtensionNotSupported           // "file extension is not supported"
    | InvalidContentLength            // "could not perform api actions due to exceeding content-length"
    | RequestFailed(reason: string)   // the error `http.Head` returned, passed through

  /** Go's `int64`. */
  newtype Int64 = x: int | -0x8000_0000_0000_0000 <= x < 0x8000_0000_0000_0000

  // ---------------------------------------------------------------------
  // Membership predicates and type lookup
  // ---------------------------------------------------------------------

  /** Whether the lowercased extension is a key of the editable table. */
  function IsExtensionEditable(fileExt: string): (b: bool)
    ensures b <==> exists k :: k in EditableExtensions && ToLower(k) == ToLower(fileExt)
  {
    TableKeysLowercase();
    MatchesKeyUpToCase(EditableExtensions, fileExt);
    ToLower(fileExt) in EditableExtensions
  }

  /** Whether the lowercased extension is a key of the view-only table. */
  function IsExtensionViewOnly(fileExt: string): (b: bool)
    ensures b <==> exists k :: k in ViewOnlyExtensions && ToLower(k) == ToLower(fileExt)
  {
    TableKeysLowercase();
    MatchesKeyUpToCase(ViewOnlyExtensions, fileExt);
    ToLower(fileExt) in ViewOnlyExtensions
  }

  /** Whether the lowercased extension is a key of the data-loss-editable table. */
  function IsExtensionLossEditable(fileExt: string): (b: bool)
    ensures b <==> exists k :: k in DataLossEditableExtensions && ToLower(k) == ToLower(fileExt)
  {
    TableKeysLowercase();
    MatchesKeyUpToCase(DataLossEditableExtensions, fileExt);
    ToLower(fileExt) in DataLossEditableExtensions
  }

  /** Whether the lowercased extension is a key of the OOXML-convertible table. */
  function IsExtensionOOXMLConvertable(fileExt: string): (b: bool)
    ensures b <==> exists k :: k in OOXMLEditableExtensions && ToLower(k) == ToLower(fileExt)
  {
    TableKeysLowercase();
    MatchesKeyUpToCase(OOXMLEditableExtensions, fileExt);
    ToLower(fileExt) in OOXMLEditableExtensions
  }

  /**
   * A lookup of the lowercased input in a table whose keys are lowercase
   * finds exactly the keys that equal the input up to ASCII case.
   */
  lemma MatchesKeyUpToCase(m: map<string, DocType>, fileExt: string)
    requires forall k :: k in m ==> IsLower(k)
    ensures ToLower(fileExt) in m <==> exists k :: k in m && ToLower(k) == ToLower(fileExt)
  {
    var ext := ToLower(fileExt);
    if ext in m {
      ToLowerOfLower(ext);
      assert ToLower(ext) == ext;
    } else {
      forall k | k in m ensures ToLower(k) != ext {
        ToLowerOfLower(k);
      }
    }
  }

  /**
   * Whether any table knows the extension, checked in the utility's own
   * order (data-loss, editable, OOXML, view-only); it is exactly the
   * disjunction of the four membership predicates.
   */
  function IsExtensionSupported(fileExt: string): (b: bool)
    ensures b <==> IsExtensionEditable(fileExt) || IsExtensionViewOnly(fileExt)
                   || IsExtensionLossEditable(fileExt) || IsExtensionOOXMLConvertable(fileExt)
  {
    var ext := ToLower(fileExt);
    if ext in DataLossEditableExtensions then true
    else if ext in EditableExtensions then true
    else if ext in OOXMLEditableExtensions then true
    else if ext in ViewOnlyExtensions then true
    else false
  }

  /**
   * The document type of an extension, looked up in the order editable,
   * data-loss, OOXML, view-only; `("", ExtensionNotSupported)` when no
   * table has it. Like the Go function, it returns a type name and an error.
   */
  function GetFileType(fileExt: string): (r: (string, Option<FileError>))
    ensures r.1 == None <==> IsExtensionSupported(fileExt)
    ensures r.1 == None ==> r.0 in {"word", "cell", "slide"}
    ensures r.1 != None ==> r == ("", Some(ExtensionNotSupported))
  {
    var ext := ToLower(fileExt);
    if ext in EditableExtensions then (EditableExtensions[ext].Name(), None)
    else if ext in DataLossEditableExtensions then (DataLossEditableExtensions[ext].Name(), None)
    else if ext in OOXMLEditableExtensions then (OOXMLEditableExtensions[ext].Name(), None)
    else if ext in ViewOnlyExtensions then (ViewOnlyExtensions[ext].Name(), None)
    else ("", Some(ExtensionNotSupported))
  }

  // ---------------------------------------------------------------------
  // Filename helpers
  // ---------------------------------------------------------------------

  /** Replace every `\` and then every `/` of a filename by `:`. */
  function EscapeFilename(filename: string): (r: string)
    ensures |r| == |filename|
    ensures '\\' !in r && '/' !in r
    ensures forall i :: 0 <= i < |filename| ==>
      r[i] == (if filename[i] == '\\' || filename[i] == '/' then ':' else filename[i])
  {
    var f := ReplaceAll(filename, '\\', ":");
    ReplaceAll(f, '/', ":")
  }

  /** The extension of a filename without its dot; empty when there is none. */
  function GetFileExt(filename: string): (r: string)
    ensures '.' !in r && '/' !in r
  {
    ReplaceAll(Ext(filename), '.', "")
  }

  /**
   * The extension is what follows the last dot of the last path element,
   * so it is a suffix of the filename.
   */
  lemma {:induction false} GetFileExtIsExtWithoutDot(filename: string)
    ensures Ext(filename) == [] ==> GetFileExt(filename) == []
    ensures Ext(filename) != [] ==> Ext(filename) == "." + GetFileExt(filename)
    ensures |GetFileExt(filename)| <= |filename|
    ensures filename[|filename| - |GetFileExt(filename)|..] == GetFileExt(filename)
  {
    var e := Ext(filename);
    if e != [] {
      var rest := e[1..];
      assert e == ['.'] + rest;
      ReplaceAllLeading('.', "", rest);
      assert GetFileExt(filename) == rest;
      assert filename[|filename| - |rest|..] == e[1..];
    }
  }

  /** A filename with its extension (dot included) removed from the end. */
  function GetFilenameWithoutExtension(filename: string): (r: string)
    ensures r + Ext(filename) == filename
  {
    TrimSuffix(filename, Ext(filename))
  }

  // ---------------------------------------------------------------------
  // Content-length check
  // ---------------------------------------------------------------------

  /** What the HEAD request of the size check produced. */
  datatype HeadResponse =
    | HeadFailed(reason: string)
    | HeadOk(contentLength: string)   // the raw Content-Length header value

  /**
   * The decision of `ValidateFileSize`: `None` accepts the file. A failed
   * request passes its error through; otherwise the header value, parsed by
   * `parseInt` (Go's `strconv.ParseInt(_, 10, 0)`, `None` on error), must
   * parse and must not exceed `limit`.
   */
  function ValidateFileSize(limit: Int64, head: HeadResponse, parseInt: string -> Option<Int64>): (r: Option<FileError>)
    ensures head.HeadFailed? ==> r == Some(RequestFailed(head.reason))
    ensures head.HeadOk? ==> r == None || r == Some(InvalidContentLength)
    ensures head.HeadOk? ==>
      (r == None <==> parseInt(head.contentLength).Some? && parseInt(head.contentLength).value <= limit)
  {
    match head
    case HeadFailed(reason) => Some(RequestFailed(reason))
    case HeadOk(header) =>
      var parsed := parseInt(header);
      if parsed.None? || parsed.value > limit then Some(InvalidContentLength) else None
  }

  // ---------------------------------------------------------------------
  // Properties of the tables and the classifier
  // ---------------------------------------------------------------------

  /** Every classifier gives the same answer for an extension and its lowercase form. */
  lemma ClassifiersCaseInsensitive(fileExt: string)
    ensures IsExtensionSupported(fileExt) == IsExtensionSupported(ToLower(fileExt))
    ensures IsExtensionEditable(fileExt) == IsExtensionEditable(ToLower(fileExt))
    ensures IsExtensionViewOnly(fileExt) == IsExtensionViewOnly(ToLower(fileExt))
    ensures IsExtensionLossEditable(fileExt) == IsExtensionLossEditable(ToLower(fileExt))
    ensures IsExtensionOOXMLConvertable(fileExt) == IsExtensionOOXMLConvertable(ToLower(fileExt))
    ensures GetFileType(fileExt) == GetFileType(ToLower(fileExt))
  {
    ToLowerIdempotent(fileExt);
  }

  /**
   * An extension is supported exactly when its lowercase form is a key of
   * some table; in particular every key, in any mix of cases, is supported.
   */
  lemma SupportedIffSomeTableKey(fileExt: string)
    ensures IsExtensionSupported(fileExt) <==>
      exists k :: k in AllExtensions() && ToLower(fileExt) == ToLower(k)
  {
    var ext := ToLower(fileExt);
    TableKeysLowercase();
    if IsExtensionSupported(fileExt) {
      ToLowerOfLower(ext);
      assert ext in AllExtensions() && ToLower(fileExt) == ToLower(ext);
    } else {
      forall k | k in AllExtensions() ensures ext != ToLower(k) {
        ToLowerOfLower(k);
      }
    }
  }

  /**
   * All four tables merged into one. Map union keeps the right-hand value on
   * a shared key; because the tables are disjoint, the merged map does not
   * depend on the order of the union, which `GetFileTypeIsMergedLookup` uses.
   */
  function AllExtensions(): (m: map<string, DocType>)
    ensures m.Keys == EditableExtensions.Keys + OOXMLEditableExtensions.Keys
                      + DataLossEditableExtensions.Keys + ViewOnlyExtensions.Keys
  {
    EditableExtensions + OOXMLEditableExtensions + DataLossEditableExtensions + ViewOnlyExtensions
  }

  /**
   * The lookup order of `GetFileType` does not matter: whichever table holds
   * the lowercased extension, the result is that table's type.
   */
  lemma GetFileTypeAgreesWithEveryTable(fileExt: string)
    ensures ToLower(fileExt) in EditableExtensions ==>
      GetFileType(fileExt) == (EditableExtensions[ToLower(fileExt)].Name(), None)
    ensures ToLower(fileExt) in OOXMLEditableExtensions ==>
      GetFileType(fileExt) == (OOXMLEditableExtensions[ToLower(fileExt)].Name(), None)
    ensures ToLower(fileExt) in DataLossEditableExtensions ==>
      GetFileType(fileExt) == (DataLossEditableExtensions[ToLower(fileExt)].Name(), None)
    ensures ToLower(fileExt) in ViewOnlyExtensions ==>
      GetFileType(fileExt) == (ViewOnlyExtensions[ToLower(fileExt)].Name(), None)
  {
    TablesDisjoint();
  }

  /** `GetFileType` is a single lookup in the merged table. */
  lemma GetFileTypeIsMergedLookup(fileExt: string)
    ensures GetFileType(fileExt) ==
      if ToLower(fileExt) in AllExtensions() then (AllExtensions()[ToLower(fileExt)].Name(), None)
      else ("", Some(ExtensionNotSupported))
  {
    GetFileTypeAgreesWithEveryTable(fileExt);
  }

  /** Every view-only extension is a word document. */
  lemma ViewOnlyIsWord(fileExt: string)
    ensures forall k :: k in ViewOnlyExtensions ==> ViewOnlyExtensions[k] == Word
    ensures IsExtensionViewOnly(fileExt) ==> GetFileType(fileExt) == ("word", None)
  {
    GetFileTypeAgreesWithEveryTable(fileExt);
  }

  // ---------------------------------------------------------------------
  // Properties of the filename helpers
  // ---------------------------------------------------------------------

  /** Escaping an escaped filename changes nothing. */
  lemma EscapeFilenameIdempotent(filename: string)
    ensures EscapeFilename(EscapeFilename(filename)) == EscapeFilename(filename)
  {
    var once := EscapeFilename(filename);
    assert forall i :: 0 <= i < |once| ==> EscapeFilename(once)[i] == once[i];
  }

  /**
   * Splitting a filename and joining the parts with a dot gives it back when
   * its last path element has a dot; otherwise nothing is split off.
   */
  lemma {:induction false} FilenameSplitRejoin(filename: string)
    ensures !NoDotInLastElement(filename) ==>
      GetFilenameWithoutExtension(filename) + "." + GetFileExt(filename) == filename
    ensures NoDotInLastElement(filename) ==>
      GetFilenameWithoutExtension(filename) == filename && GetFileExt(filename) == ""
  {
    SplitRejoinByExt(filename);
  }

  lemma {:induction false} SplitRejoinByExt(filename: string)
    ensures Ext(filename) != [] ==>
      GetFilenameWithoutExtension(filename) + "." + GetFileExt(filename) == filename
    ensures Ext(filename) == [] ==>
      GetFilenameWithoutExtension(filename) == filename && GetFileExt(filename) == ""
  {
    GetFileExtIsExtWithoutDot(filename);
    var stem, e, ext := GetFilenameWithoutExtension(filename), Ext(filename), GetFileExt(filename);
    assert stem + e == filename;
    if e != [] {
      ConcatAssociative(stem, ".", ext);
    } else {
      assert stem + [] == stem;
    }
  }

  lemma ConcatAssociative(a: string, b: string, c: string)
    ensures a + b + c == a + (b + c)
  {
  }

  // ---------------------------------------------------------------------
  // Properties of the content-length check
  // ---------------------------------------------------------------------

  /** A content length equal to the limit is accepted. */
  lemma ValidateFileSizeAcceptsLimit(limit: Int64, header: string, parseInt: string -> Option<Int64>)
    requires parseInt(header) == Some(limit)
    ensures ValidateFileSize(limit, HeadOk(header), parseInt) == None
  {
  }

  /** Raising the limit never turns an accepted file into a rejected one. */
  lemma ValidateFileSizeMonotone(limit: Int64, larger: Int64, head: HeadResponse, parseInt: string -> Option<Int64>)
    requires limit <= larger
    requires ValidateFileSize(limit, head, parseInt) == None
    ensures ValidateFileSize(larger, head, parseInt) == None
  {
  }
}
