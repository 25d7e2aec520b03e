# ONLYOFFICE file utility, modelled in Dafny

This project models the file utility of the ONLYOFFICE integration adapters
(`onlyoffice/file.go`). The utility classifies a file extension against four
package-level tables: editable, OOXML-convertible, data-loss-editable and
view-only. Each table maps a lowercase extension to a document type, "word",
"cell" or "slide". On top of the tables sit five membership predicates and
`GetFileType`. The utility also escapes path separators in a filename, splits
a filename into its stem and its extension, and decides whether a reported
Content-Length is within a size limit.

The Go type `fileUtility` is an empty struct behind an interface and holds no
state. So every operation is modelled as a Dafny function, with lemmas for
the properties that relate several of them.

Modules:

- `ExtensionTables` (`extension_tables.dfy`): `DocType`, the four tables as
  `map<string, DocType>`, and the facts that every key is lowercase and that
  no extension is in two tables.
- `GoStrings` (`go_strings.dfy`): the calls into Go's `strings` package that
  the utility makes. These are `ToLower` (ASCII case mapping), `ReplaceAll`
  (always with a one-character pattern) and `TrimSuffix`.
- `GoFilepath` (`go_filepath.dfy`): `filepath.Ext` with `/` as the only
  separator. It is written as a recursion from the end of the path, and its
  contract characterises the result completely.
- `OnlyofficeFile` (`onlyoffice_file.dfy`): the utility's own operations and
  the lemmas about them.
- `Wrappers` (`wrappers.dfy`): `Option`.

Go returns `(string, error)` from `GetFileType`. The model returns the pair
`(string, Option<FileError>)`, so the `""` that comes with the error is part
of the result. `ValidateFileSize` gets the outcome of its HEAD request as a
`HeadResponse` value. `strconv.ParseInt` is a parameter of type
`string -> Option<Int64>`, with `None` standing for a parse error. The result
is `None` when the file is accepted and the error otherwise.

## Model

| member | source | states |
|---|---|---|
| `ExtensionTables.TableKeysLowercase` | onlyoffice/file.go:46-119 | every key of each of the four tables is lowercase, so a lookup of the lowercased input can find it |
| `ExtensionTables.TablesDisjoint` | onlyoffice/file.go:46-119 | the four tables are pairwise disjoint: no extension is in two of them |
| `GoStrings.ToLower` | onlyoffice/file.go:194 | the result has the input's length, each character is the ASCII lowercase of the input's character, and the result is lowercase |
| `GoStrings.ToLowerIdempotent` | onlyoffice/file.go:239 | lowercasing a lowercased extension changes nothing; every classifier relies on this to be case-insensitive |
| `GoStrings.ReplaceAll` | onlyoffice/file.go:188-189 | for a one-character replacement, as at these lines: length is preserved and each position holds the replacement where the input had the pattern character and the input's character elsewhere. For any replacement, the pattern is absent from the result when it is absent from the replacement, and an input without the pattern is returned unchanged. For the deletion at line 260 the value is pinned by `OnlyofficeFile.GetFileExtIsExtWithoutDot` |
| `GoStrings.TrimSuffix` | onlyoffice/file.go:235 | when the suffix is present the result followed by the suffix is the input; otherwise the input is returned unchanged |
| `GoFilepath.Ext` | onlyoffice/file.go:235 | the result is a suffix of the path. It is empty exactly when the last path element has no dot. Otherwise it starts with a dot and holds no further dot and no slash |
| `GoFilepath.ExtUnique` | onlyoffice/file.go:260 | the contract of `Ext` determines its result: any string meeting it equals `Ext(p)` |
| `ExtensionTables.DocType.Name` | onlyoffice/file.go:39-41 | the name of a document type is "word", "cell" or "slide" (the three type constants); `ExtensionTables.NamesDistinct` shows distinct types get distinct names |
| `ExtensionTables.NamesDistinct` | onlyoffice/file.go:39-41 | two document types have the same name exactly when they are the same type |
| `OnlyofficeFile.IsExtensionEditable` | onlyoffice/file.go:214-217 | tests whether the lowercased extension is in the editable table; true exactly when the extension equals an editable key up to ASCII case. `ClassifiersCaseInsensitive` proves it case-insensitive and `IsExtensionSupported`'s ensures joins it with the other three |
| `OnlyofficeFile.IsExtensionViewOnly` | onlyoffice/file.go:219-222 | tests whether the lowercased extension is in the view-only table; true exactly when the extension equals a view-only key up to ASCII case. `ClassifiersCaseInsensitive` proves it case-insensitive and `IsExtensionSupported`'s ensures joins it with the other three |
| `OnlyofficeFile.IsExtensionLossEditable` | onlyoffice/file.go:224-227 | tests whether the lowercased extension is in the data-loss-editable table; true exactly when the extension equals a data-loss-editable key up to ASCII case. `ClassifiersCaseInsensitive` proves it case-insensitive and `IsExtensionSupported`'s ensures joins it with the other three |
| `OnlyofficeFile.IsExtensionOOXMLConvertable` | onlyoffice/file.go:229-232 | tests whether the lowercased extension is in the OOXML-convertible table; true exactly when the extension equals an OOXML-convertible key up to ASCII case. `ClassifiersCaseInsensitive` proves it case-insensitive and `IsExtensionSupported`'s ensures joins it with the other three |
| `OnlyofficeFile.MatchesKeyUpToCase` | onlyoffice/file.go:214-232 | in a table whose keys are lowercase, looking up the lowercased input finds exactly the keys that equal the input up to ASCII case |
| `OnlyofficeFile.IsExtensionSupported` | onlyoffice/file.go:193-212 | an extension is supported exactly when it is editable, view-only, loss-editable or OOXML-convertible |
| `OnlyofficeFile.GetFileType` | onlyoffice/file.go:238-257 | no error exactly when the extension is supported, and then the type is "word", "cell" or "slide"; otherwise the result is `("", ExtensionNotSupported)` |
| `OnlyofficeFile.EscapeFilename` | onlyoffice/file.go:187-191 | length is preserved, no `\` or `/` remains, each `\` or `/` becomes `:` and every other character is unchanged |
| `OnlyofficeFile.GetFileExt` | onlyoffice/file.go:259-261 | the extension contains no `.` and no `/` |
| `OnlyofficeFile.GetFileExtIsExtWithoutDot` | onlyoffice/file.go:259-261 | the extension is `filepath.Ext` without its leading dot, or empty when there is none, and it is a suffix of the filename |
| `OnlyofficeFile.GetFilenameWithoutExtension` | onlyoffice/file.go:234-236 | the stem followed by `filepath.Ext` of the filename is the filename |
| `OnlyofficeFile.FilenameSplitRejoin` | onlyoffice/file.go:234-236 | if the last path element has a dot, then stem + "." + extension is the filename; otherwise the stem is the filename and the extension is empty |
| `OnlyofficeFile.ValidateFileSize` | onlyoffice/file.go:173-185 | a failed request passes its error through. Otherwise the file is accepted exactly when the Content-Length parses and is at most the limit, and rejected with `InvalidContentLength` when it is not |
| `OnlyofficeFile.ValidateFileSizeAcceptsLimit` | onlyoffice/file.go:180-184 | a Content-Length equal to the limit is accepted |
| `OnlyofficeFile.ValidateFileSizeMonotone` | onlyoffice/file.go:180-184 | raising the limit never turns an accepted response into a rejected one |
| `OnlyofficeFile.ClassifiersCaseInsensitive` | onlyoffice/file.go:193-257 | each of the five predicates and `GetFileType` gives the same answer for an extension and for its lowercase form |
| `OnlyofficeFile.SupportedIffSomeTableKey` | onlyoffice/file.go:193-212 | an extension is supported exactly when it equals some table key up to ASCII case |
| `OnlyofficeFile.GetFileTypeAgreesWithEveryTable` | onlyoffice/file.go:240-254 | whichever table holds the lowercased extension, `GetFileType` returns that table's type, so its lookup order does not matter |
| `OnlyofficeFile.GetFileTypeIsMergedLookup` | onlyoffice/file.go:238-257 | `GetFileType` equals one lookup in the union of the four tables |
| `OnlyofficeFile.ViewOnlyIsWord` | onlyoffice/file.go:114-119 | every view-only extension maps to word, and `GetFileType` returns "word" for it |
| `OnlyofficeFile.EscapeFilenameIdempotent` | onlyoffice/file.go:187-191 | escaping an escaped filename changes nothing |

## Left out

- The HEAD request in `ValidateFileSize` (onlyoffice/file.go:174-178) is network I/O. The model takes its outcome as a parameter, and an error from it is passed through unchanged as `RequestFailed`. The unused `context.Context` argument is dropped.
- The internals of `strconv.ParseInt` are not modelled. Parsing is a parameter function that returns `None` on any parse error, which also covers Go's out-of-range error.
- `GoStrings.ToLower` models only the ASCII case mapping. Go's `strings.ToLower` uses full Unicode case mapping. For example, it lowers U+0130 (capital I with dot above) to `i`, so Go reports `"SXİ"` as OOXML-convertible and the model does not.
- `GoFilepath.Ext` treats only `/` as a path separator, as on Unix. On Windows, Go's `filepath.Ext` also stops at `\`.
- Go strings are byte sequences; the model works on characters. The characters the utility matches on (`.`, `/`, `\`, ASCII letters) are single bytes in UTF-8 that never occur inside a multi-byte sequence. So, apart from the case mapping above, the results agree for every valid UTF-8 input. Invalid UTF-8 is not modelled.
- The four tables `OnlyofficeEditableExtensions`, `OnlyofficeOOXMLEditableExtensions`, `OnlyofficeDataLossEditableExtensions` and `OnlyofficeViewOnlyExtensions` (onlyoffice/file.go:46, 67, 97, 114) are exported package-level `var` maps, so any importing package can add, remove or change entries, and the classifiers and `GetFileType` read whatever the maps hold when they are called. The model fixes the tables at their initial contents as Dafny constants; `ExtensionTables.TableKeysLowercase`, `ExtensionTables.TablesDisjoint`, `OnlyofficeFile.SupportedIffSomeTableKey`, `OnlyofficeFile.GetFileTypeAgreesWithEveryTable`, `OnlyofficeFile.GetFileTypeIsMergedLookup` and `OnlyofficeFile.ViewOnlyIsWord` hold for those initial contents only.
- The constructor `NewOnlyofficeFileUtility` and the `OnlyofficeFileUtility` interface (onlyoffice/file.go:123-171) are dependency-injection plumbing around an empty struct, so they are not modelled.
- The interface comment says that a successful `EscapeFilename` returns a non-empty string (onlyoffice/file.go:132). The code does not guarantee this: an empty filename gives an empty result. The model does not state it.
- The error message strings (onlyoffice/file.go:34-35) are represented by the constructors `ExtensionNotSupported` and `InvalidContentLength`, not by their text.
