/**
 * The four package-level tables of the ONLYOFFICE file utility, at their
 * initial contents. Each maps a lowercase file extension to the document
 * type the document server opens it as. The lemmas state the facts the
 * classifier relies on: every key is lowercase and no extension appears in
 * two tables.
 */
module ExtensionTables {
  import opened GoStrings

  /** The three document types the document server edits. */
  datatype DocType = Word | Cell | Slide
  {
    /** The type's name as the document server spells it. */
    function Name(): (r: string)
      ensures r in {"word", "cell", "slide"}
    {
      match this
      case Word => "word"
      case Cell => "cell"
      case Slide => "slide"
    }
  }

  /** Distinct document types have distinct names. */
  lemma NamesDistinct(d: DocType, e: DocType)
    ensures d.Name() == e.Name() <==> d == e
  {
  }

  // ---------------------------------------------------------------------
  // The extension tables
  // ---------------------------------------------------------------------

  /** Extensions the document server edits natively. */
  const EditableExtensions: map<string, DocType> := map[
    "docm" := Word, "docx" := Word, "docxf" := Word, "oform" := Word,
    "dotm" := Word, "dotx" := Word,
    "xlsm" := Cell, "xlsx" := Cell, "xltm" := Cell, "xltx" := Cell,
    "potm" := Slide, "potx" := Slide, "ppsm" := Slide, "ppsx" := Slide,
    "pptm" := Slide, "pptx" := Slide
  ]

  /** Extensions the document server edits after converting them to OOXML. */
  const OOXMLEditableExtensions: map<string, DocType> := map[
    "doc" := Word, "dot" := Word, "fodt" := Word, "mht" := Word,
    "xml" := Word, "sxw" := Word, "stw" := Word, "htm" := Word,
    "mhtml" := Word, "wps" := Word, "wpt" := Word,
    "fods" := Cell, "xls" := Cell, "xlt" := Cell, "sxc" := Cell,
    "et" := Cell, "ett" := Cell, "xlsb" := Cell,
    "fodp" := Slide, "pot" := Slide, "pps" := Slide, "ppt" := Slide,
    "sxi" := Slide, "dps" := Slide, "dpt" := Slide
  ]

  /** Extensions that can be edited only with some loss of formatting. */
  const DataLossEditableExtensions: map<string, DocType> := map[
    "epub" := Word, "fb2" := Word, "html" := Word, "odt" := Word,
    "ott" := Word, "rtf" := Word, "txt" := Word,
    "csv" := Cell, "ods" := Cell, "ots" := Cell,
    "odp" := Slide, "otp" := Slide
  ]

  /** Extensions the document server can only display. */
  const ViewOnlyExtensions: map<string, DocType> := map[
    "djvu" := Word, "oxps" := Word, "pdf" := Word, "xps" := Word
  ]

  // ---------------------------------------------------------------------
  // Facts about the tables
  // ---------------------------------------------------------------------

  // The key sets of the tables, written out. The solver compares set
  // displays of string literals far more cheaply than map displays, so the
  // facts below are proved about these sets and then carried over to the
  // tables.

  const EditableKeys: set<string> := {
    "docm", "docx", "docxf", "oform", "dotm", "dotx", "xlsm", "xlsx",
    "xltm", "xltx", "potm", "potx", "ppsm", "ppsx", "pptm", "pptx"}

  const OOXMLEditableKeys: set<string> := {
    "doc", "dot", "fodt", "mht", "xml", "sxw", "stw", "htm", "mhtml",
    "wps", "wpt", "fods", "xls", "xlt", "sxc", "et", "ett", "xlsb",
    "fodp", "pot", "pps", "ppt", "sxi", "dps", "dpt"}

  const DataLossEditableKeys: set<string> := {
    "epub", "fb2", "html", "odt", "ott", "rtf", "txt", "csv", "ods",
    "ots", "odp", "otp"}

  const ViewOnlyKeys: set<string> := {"djvu", "oxps", "pdf", "xps"}

  lemma KeySets()
    ensures EditableExtensions.Keys == EditableKeys
    ensures OOXMLEditableExtensions.Keys == OOXMLEditableKeys
    ensures DataLossEditableExtensions.Keys == DataLossEditableKeys
    ensures ViewOnlyExtensions.Keys == ViewOnlyKeys
  {
    EditableKeySet();
    OOXMLEditableKeySet();
    DataLossEditableKeySet();
    ViewOnlyKeySet();
  }

  lemma EditableKeySet()
    ensures EditableExtensions.Keys == EditableKeys
  {
  }

  lemma OOXMLEditableKeySet()
    ensures OOXMLEditableExtensions.Keys == OOXMLEditableKeys
  {
  }

  lemma DataLossEditableKeySet()
    ensures DataLossEditableExtensions.Keys == DataLossEditableKeys
  {
  }

  lemma ViewOnlyKeySet()
    ensures ViewOnlyExtensions.Keys == ViewOnlyKeys
  {
  }

  /** Every table key is already lowercase, so a lowercased lookup can find it. */
  lemma TableKeysLowercase()
    ensures forall k :: k in EditableExtensions ==> IsLower(k)
    ensures forall k :: k in OOXMLEditableExtensions ==> IsLower(k)
    ensures forall k :: k in DataLossEditableExtensions ==> IsLower(k)
    ensures forall k :: k in ViewOnlyExtensions ==> IsLower(k)
  {
    KeySets();
    EditableKeysLowercase();
    OOXMLEditableKeysLowercase();
    DataLossEditableKeysLowercase();
    ViewOnlyKeysLowercase();
  }

  lemma EditableKeysLowercase()
    ensures forall k :: k in EditableKeys ==> IsLower(k)
  {
  }

  lemma OOXMLEditableKeysLowercase()
    ensures forall k :: k in OOXMLEditableKeys ==> IsLower(k)
  {
  }

  lemma DataLossEditableKeysLowercase()
    ensures forall k :: k in DataLossEditableKeys ==> IsLower(k)
  {
  }

  lemma ViewOnlyKeysLowercase()
    ensures forall k :: k in ViewOnlyKeys ==> IsLower(k)
  {
  }

  /** No extension is in two tables. */
  lemma TablesDisjoint()
    ensures EditableExtensions.Keys !! OOXMLEditableExtensions.Keys
    ensures EditableExtensions.Keys !! DataLossEditableExtensions.Keys
    ensures EditableExtensions.Keys !! ViewOnlyExtensions.Keys
    ensures OOXMLEditableExtensions.Keys !! DataLossEditableExtensions.Keys
    ensures OOXMLEditableExtensions.Keys !! ViewOnlyExtensions.Keys
    ensures DataLossEditableExtensions.Keys !! ViewOnlyExtensions.Keys
  {
    KeySets();
    EditableOOXMLKeysDisjoint();
    EditableDataLossKeysDisjoint();
    EditableViewOnlyKeysDisjoint();
    OOXMLDataLossKeysDisjoint();
    OOXMLViewOnlyKeysDisjoint();
    DataLossViewOnlyKeysDisjoint();
    var e, o, d, v := EditableExtensions.Keys, OOXMLEditableExtensions.Keys,
      DataLossEditableExtensions.Keys, ViewOnlyExtensions.Keys;
    DisjointBySubstitution(e, o, EditableKeys, OOXMLEditableKeys);
    DisjointBySubstitution(e, d, EditableKeys, DataLossEditableKeys);
    DisjointBySubstitution(e, v, EditableKeys, ViewOnlyKeys);
    DisjointBySubstitution(o, d, OOXMLEditableKeys, DataLossEditableKeys);
    DisjointBySubstitution(o, v, OOXMLEditableKeys, ViewOnlyKeys);
    DisjointBySubstitution(d, v, DataLossEditableKeys, ViewOnlyKeys);
  }

  lemma EditableOOXMLKeysDisjoint()
    ensures EditableKeys !! OOXMLEditableKeys
  {
  }

  lemma EditableDataLossKeysDisjoint()
    ensures EditableKeys !! DataLossEditableKeys
  {
  }

  lemma EditableViewOnlyKeysDisjoint()
    ensures EditableKeys !! ViewOnlyKeys
  {
  }

  lemma OOXMLDataLossKeysDisjoint()
    ensures OOXMLEditableKeys !! DataLossEditableKeys
  {
  }

  lemma OOXMLViewOnlyKeysDisjoint()
    ensures OOXMLEditableKeys !! ViewOnlyKeys
  {
  }

  lemma DataLossViewOnlyKeysDisjoint()
    ensures DataLossEditableKeys !! ViewOnlyKeys
  {
  }

  lemma DisjointBySubstitution(a: set<string>, b: set<string>, a': set<string>, b': set<string>)
    requires a == a' && b == b' && a' !! b'
    ensures a !! b
  {
  }
}
