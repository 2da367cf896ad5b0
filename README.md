# Agile Photo Viewer: a verified model of the model layer

Agile Photo Viewer is a desktop photo browser. The user chooses a photo or a
directory. The viewer then reads the EXIF, IPTC and XMP metadata of every
file in that directory, sorts the photos by file name or by capture date and
filters them by a minimum rating and a keyword expression. The user pages
forward and backward through the visible photos, cyclically, and can delete
the selected photo. Photos with a GPS position can be shown on a
geo-referenced map image. Selected photos can be exported to another
directory, optionally renamed by a numbered template such as
`Scotland2012-005.jpg`. A status line counts the warnings and errors since
it was last shown.

This project models that layer in Dafny and proves what it promises.

| module (file) | source | what it holds |
|---|---|---|
| `Keywords` (keywords.dfy) | model/KeywordExpression.java | the keyword filter: a conjunction of clauses, each a disjunction of possibly negated keywords |
| `Photos` (photos.dfy) | model/PhotoMetadata.java | one photo's metadata record and the two sort orders |
| `Exif` (exif.dfy) | model/ExifDataManager.java | the catalog of one directory: collection, keyword counts, ordering, filtering, cyclic navigation, deletion |
| `Maps` (maps.dfy) | model/MapDataManager.java | the table of geo-referenced maps and the 2- and 3-point transforms from latitude/longitude to image positions |
| `Export` (export.dfy) | model/PhotoExporter.java | template parsing, destination names and the copy loop |
| `PhotoViewer` (pvmodel.dfy) | model/PVModel.java | the facade the controller talks to, with its observer notifications |
| `View` (view_params.dfy) | fx/view/ViewParams.java | the image-to-view transform (offset and scale) of the viewer |
| `Status` (status.dfy) | view/StatusArea.java | the warning/error counters and the text they append to a status line |
| `JavaStrings`, `Files`, `Lists`, `Options` | (Java library behaviour) | `String.compareTo` (over Unicode scalar values), `lastIndexOf`, `Integer.parseInt`/`toString` (ASCII digits), `java.io.File` paths, the stable `Collections.sort`, `List.indexOf`/`remove(Object)` |

Classes stand for the Java objects whose fields change in place:
`KeywordExpression`, `PhotoMetadata` (only its catalog position changes),
`ExifDataManager`, `MapParams`, `MapDataManager`, `PhotoExporter`,
`PVModel`, `ViewParams` and `StatusArea`. `KeywordExpression`,
`ExifDataManager`, `MapDataManager`, `PVModel` and `PhotoExporter` have a
`Valid()` invariant that their methods keep; `MapParams`, `PhotoMetadata`,
`ViewParams` and `StatusArea` need none, since any value of their fields is
consistent. Each method states the new state of the fields it may change.
The loops that build or update the catalog, the map table and the export
stay loops with invariants, proved against specification functions, among
them:

- the do-while scans of `selectNextPhoto`/`selectPreviousPhoto`;
- the metadata collection and keyword hashing of `collectMetadata`;
- the keyword decrements of `deleteSelectedPhoto`;
- the digit scan of `setDestination`;
- the widening and copy loops of `copyFiles`;
- the plane computation of `convertWith3Samples`.

The loops of `KeywordExpression.checkKeywords` and `toString`, which only
read the expression, are recursive functions over its clauses.

The main results are these:

- a new directory's keyword list is strictly sorted, holds exactly the
  keywords some record carries, and counts each one's occurrences;
- re-sorting keeps the visible set, the selection and the counts, and the
  sort is stable;
- the next/previous scan always stops at the unique next/previous visible
  photo, cyclically;
- deleting a photo removes exactly it from the list, the visible set and the
  counts, and selects the first visible photo at or after its position;
- the keyword filter accepts exactly the keyword lists that satisfy the
  conjunction of disjunctions;
- the map table stays sorted by name with one entry per file, and adding
  then dropping an entry restores it;
- the 2- and 3-point transforms reproduce their reference points, and are
  finite exactly when the points are not degenerate;
- the export template round-trips: prefix, digits and suffix parse back;
- export names are distinct, and `d` and `d-009.e` give the names the
  source's comments list;
- the status text's error part is empty exactly when all counters are 0, and
  it can be read back into the counters;
- for a nonzero scale, the view transforms invert each other.

Where the code and its documentation disagree, the model follows the code:

- Two dated photos are ordered by date alone, with no file-name tie-break.
- A failed delete does nothing (no warning).
- `addLiteral` appends to the last clause, although its comment says "first".
- Two reference points with equal latitudes give a non-finite y
  (`NotFinite`, Java's NaN or infinity from a zero division).

Oracles replace what the model cannot see:

- `DirEntry` stands for one file of `dir.listFiles()`: its name, the tags the
  metadata library extracted (or none when reading failed) and whether its
  extension is an image format `ImageIO` reads.
- `fileExists`/`deleteSucceeds` stand for `File.exists`/`File.delete`.
- `ReadOutcome` stands for the result of `ImageIO.read`.
- A `seq<bool>` says which `Files.copy` calls succeeded.
- Warnings and errors that the source sends to the `ErrorHandler` singleton
  are returned as values.
- Observer notifications are recorded in `PVModel.notifications`.

## Model

| member | source | states |
|---|---|---|
| Files.SplitJoin | agile-photo-viewer/src/rl/photoviewer/model/ExifDataManager.java:219-225 | new File(dir, name) for a name without a separator has dir as parent and name as name |
| Files.JoinSplit | agile-photo-viewer/src/rl/photoviewer/model/PVModel.java:51-56 | a file that has a parent is that parent joined with the file's name, so selectPhoto's split loses nothing |
| Files.NameHasNoSeparator | agile-photo-viewer/src/rl/photoviewer/model/PVModel.java:55 | getName never contains a separator |
| JavaStrings.CompareToZero | agile-photo-viewer/src/rl/photoviewer/model/PhotoMetadata.java:166 | String.compareTo is 0 exactly for equal strings |
| JavaStrings.CompareToAntisymmetric | agile-photo-viewer/src/rl/photoviewer/model/PhotoMetadata.java:166 | swapping the operands of String.compareTo negates the result |
| JavaStrings.CompareToNegative | agile-photo-viewer/src/rl/photoviewer/model/PhotoMetadata.java:166 | String.compareTo (over Unicode scalar values) is negative exactly when the first string is lexicographically smaller |
| JavaStrings.CompareToTransitive | agile-photo-viewer/src/rl/photoviewer/model/PhotoMetadata.java:166 | String.compareTo <= 0 is transitive |
| JavaStrings.Decimal | agile-photo-viewer/src/rl/photoviewer/view/StatusArea.java:68 | Integer.toString of a count: at least one digit, only digits, no leading zero for a positive count |
| JavaStrings.ParseDecimal | agile-photo-viewer/src/rl/photoviewer/model/PhotoExporter.java:63-64 | Integer.parseInt reads the decimal rendering of n back as n |
| JavaStrings.Zeros | agile-photo-viewer/src/rl/photoviewer/model/PhotoExporter.java:56-60 | the format string the scan builds: exactly k characters, all '0' |
| JavaStrings.ParseLeadingZeros | agile-photo-viewer/src/rl/photoviewer/model/PhotoExporter.java:63-64 | leading zeros do not change the value Integer.parseInt reads |
| JavaStrings.DigitChar | agile-photo-viewer/src/rl/photoviewer/model/PhotoExporter.java:105 | the character of a digit value is a digit and reads back as that value |
| JavaStrings.LastIndexOf | agile-photo-viewer/src/rl/photoviewer/model/PhotoExporter.java:49 | lastIndexOf is -1 exactly when the character is absent, and otherwise the position of its last occurrence |
| Lists.Insert | agile-photo-viewer/src/rl/photoviewer/model/ExifDataManager.java:97 | one insertion step of the stable sort: a permutation of the list plus the new element, one longer |
| Lists.Sort | agile-photo-viewer/src/rl/photoviewer/model/ExifDataManager.java:97 | Collections.sort returns a permutation of its input, of the same length |
| Lists.SortSorted | agile-photo-viewer/src/rl/photoviewer/model/ExifDataManager.java:97 | for a comparator that is a total preorder, Collections.sort yields a sorted list |
| Lists.SortSortedIn | agile-photo-viewer/src/rl/photoviewer/model/MapDataManager.java:55 | the same for lists drawn from a larger set on which the comparator is a total preorder |
| Lists.InsertSorted | agile-photo-viewer/src/rl/photoviewer/model/ExifDataManager.java:97 | inserting into a sorted list keeps it sorted |
| Lists.SortedIsPairwise | agile-photo-viewer/src/rl/photoviewer/model/MapDataManager.java:55 | a sorted list is in order for every pair of positions, not just neighbours |
| Lists.SortStable | agile-photo-viewer/src/rl/photoviewer/model/ExifDataManager.java:97 | Collections.sort is stable: elements equivalent to a key keep their relative order |
| Lists.SortStableIn | agile-photo-viewer/src/rl/photoviewer/model/ExifDataManager.java:97 | stability for lists drawn from a larger preordered set |
| Lists.SortOfSorted | agile-photo-viewer/src/rl/photoviewer/model/ExifDataManager.java:64 | sorting a list that is already sorted changes nothing |
| Lists.IndexOf | agile-photo-viewer/src/rl/photoviewer/model/ExifDataManager.java:204 | List.indexOf: -1 exactly when absent, otherwise the first position holding the element |
| Lists.RemoveFirstAt | agile-photo-viewer/src/rl/photoviewer/model/MapDataManager.java:76 | List.remove(Object) removes the first occurrence and nothing else; a missing element leaves the list as it is |
| Lists.RemoveFirstMultiset | agile-photo-viewer/src/rl/photoviewer/model/MapDataManager.java:76 | List.remove(Object) takes exactly one copy of the element away |
| Lists.RemoveFirstSorted | agile-photo-viewer/src/rl/photoviewer/model/MapDataManager.java:76 | removing an element keeps a sorted table sorted |
| Lists.RemoveAtSorted | agile-photo-viewer/src/rl/photoviewer/model/ExifDataManager.java:199 | removing a position keeps a sorted list sorted |
| Lists.DistinctPermutation | agile-photo-viewer/src/rl/photoviewer/model/ExifDataManager.java:97 | a permutation of a list without repetitions has none either |
| Lists.DistinctRemoveAt | agile-photo-viewer/src/rl/photoviewer/model/ExifDataManager.java:199 | removing a position keeps a list free of repetitions |
| Lists.RemoveFirstInsert | agile-photo-viewer/src/rl/photoviewer/model/MapDataManager.java:51-70 | inserting one element and removing another commute on a sorted list |
| Lists.SortRemoveFirst | agile-photo-viewer/src/rl/photoviewer/model/MapDataManager.java:51-70 | removing an element from a sorted list and sorting commute |
| Lists.SortAppendRemove | agile-photo-viewer/src/rl/photoviewer/model/MapDataManager.java:51-70 | appending a new element to a sorted list without repetitions, sorting and removing it gives back the list |
| Photos.PhotoMetadata.constructor | agile-photo-viewer/src/rl/photoviewer/model/PhotoMetadata.java:45-50 | the record for an unreadable file: only the file name, coordinates unknown (NaN), no keywords, every other field at its default |
| Photos.PhotoMetadata.FromTags | agile-photo-viewer/src/rl/photoviewer/model/PhotoMetadata.java:52-105 | the record for readable metadata: each field holds its tag when the tag is present and its default otherwise |
| Photos.GetOrientation | agile-photo-viewer/src/rl/photoviewer/model/PhotoMetadata.java:153-159 | 0 for no record, the record's orientation otherwise |
| Photos.FileNameOrderMeaning | agile-photo-viewer/src/rl/photoviewer/model/PhotoMetadata.java:161-168 | the name comparator is negative exactly when the first name is lexicographically smaller, and 0 exactly for equal names |
| Photos.DateOrderMeaning | agile-photo-viewer/src/rl/photoviewer/model/PhotoMetadata.java:170-184 | the date comparator puts dated records before undated ones, orders two dated records by date and two undated ones by name |
| Photos.ComparatorIsPreorder | agile-photo-viewer/src/rl/photoviewer/model/PhotoMetadata.java:161-184 | both comparators are total preorders, as Collections.sort requires |
| Photos.ChangeOrderSorts | agile-photo-viewer/src/rl/photoviewer/model/ExifDataManager.java:94-97 | changeOrder's sort leaves the records in comparator order |
| Photos.ChangeOrderIsStable | agile-photo-viewer/src/rl/photoviewer/model/ExifDataManager.java:94-97 | records the comparator cannot tell apart keep their previous relative order |
| Keywords.ClauseValueMeaning | agile-photo-viewer/src/rl/photoviewer/model/KeywordExpression.java:58-67 | a clause holds exactly when one of its literals holds: a plain symbol the photo has, or a negated one it lacks |
| Keywords.AcceptsMeaning | agile-photo-viewer/src/rl/photoviewer/model/KeywordExpression.java:57-73 | checkKeywords accepts exactly when every non-empty clause holds: a conjunction of disjunctions, with the empty clause meaning true |
| Keywords.AcceptsConcat | agile-photo-viewer/src/rl/photoviewer/model/KeywordExpression.java:57-73 | a concatenation of clause lists accepts exactly when both parts accept |
| Keywords.EmptyExpressionAcceptsAll | agile-photo-viewer/src/rl/photoviewer/model/KeywordExpression.java:23-26 | a new expression (one empty clause) accepts every keyword list |
| Keywords.AddClausePreservesVerdict | agile-photo-viewer/src/rl/photoviewer/model/KeywordExpression.java:33-36 | adding an empty clause changes no verdict |
| Keywords.DeleteLastClauseWidens | agile-photo-viewer/src/rl/photoviewer/model/KeywordExpression.java:38-43 | deleting the last clause only ever lets more photos through |
| Keywords.AddLiteralWidens | agile-photo-viewer/src/rl/photoviewer/model/KeywordExpression.java:28-31 | adding a literal to a non-empty last clause only ever lets more photos through |
| Keywords.StructuralEquality | agile-photo-viewer/src/rl/photoviewer/model/KeywordExpression.java:75-83 | two clause lists are equal exactly when they have the same clauses with the same literals, symbol and negation |
| Keywords.RenderEmptyExpression | agile-photo-viewer/src/rl/photoviewer/model/KeywordExpression.java:85-106 | toString of a new expression is "  true" and a newline |
| Keywords.RenderAppend | agile-photo-viewer/src/rl/photoviewer/model/KeywordExpression.java:85-106 | toString of one more clause is the old text, "and", a newline and the clause's line |
| Keywords.KeywordExpression.constructor | agile-photo-viewer/src/rl/photoviewer/model/KeywordExpression.java:23-26 | a new expression holds one empty clause |
| Keywords.KeywordExpression.AddLiteral | agile-photo-viewer/src/rl/photoviewer/model/KeywordExpression.java:28-31 | the literal is appended to the last clause; the other clauses stay the same |
| Keywords.KeywordExpression.AddClause | agile-photo-viewer/src/rl/photoviewer/model/KeywordExpression.java:33-36 | an empty clause is appended |
| Keywords.KeywordExpression.DeleteLastClause | agile-photo-viewer/src/rl/photoviewer/model/KeywordExpression.java:38-43 | the last clause is removed; removing the only clause leaves one empty clause |
| Keywords.KeywordExpression.Clear | agile-photo-viewer/src/rl/photoviewer/model/KeywordExpression.java:45-52 | the expression is back to one empty clause |
| Keywords.KeywordExpression.CheckKeywords | agile-photo-viewer/src/rl/photoviewer/model/KeywordExpression.java:57-73 | the verdict is true exactly when the keyword list satisfies every clause |
| Keywords.KeywordExpression.Equals | agile-photo-viewer/src/rl/photoviewer/model/KeywordExpression.java:75-83 | equal exactly when the other expression exists and has structurally equal clauses |
| Keywords.KeywordExpression.ToString | agile-photo-viewer/src/rl/photoviewer/model/KeywordExpression.java:85-106 | the text of a new expression is "  true" and a newline |
| Exif.KeptEntries | agile-photo-viewer/src/rl/photoviewer/model/ExifDataManager.java:231-250 | every file collectMetadata keeps comes from the listing and either had readable metadata or has an image format |
| Exif.ReadWarnings | agile-photo-viewer/src/rl/photoviewer/model/ExifDataManager.java:241-248 | the "Could not read metadata" warnings of collectMetadata, at most one per file listed |
| Exif.ReadWarningsMeaning | agile-photo-viewer/src/rl/photoviewer/model/ExifDataManager.java:241-248 | the warnings number exactly the unreadable image files; each warning names such a file, and each such file has its warning |
| Exif.Count | agile-photo-viewer/src/rl/photoviewer/model/ExifDataManager.java:203-206 | the number of times a keyword occurs in a list, positive exactly when it occurs |
| Exif.OccurrencesPositive | agile-photo-viewer/src/rl/photoviewer/model/ExifDataManager.java:236-240 | a keyword is counted exactly when some record carries it |
| Exif.OccurrencesConcat | agile-photo-viewer/src/rl/photoviewer/model/ExifDataManager.java:235-240 | counts over two runs of records add up |
| Exif.OccurrencesPermutation | agile-photo-viewer/src/rl/photoviewer/model/ExifDataManager.java:94-101 | reordering the records does not change any keyword count |
| Exif.OccurrencesRemove | agile-photo-viewer/src/rl/photoviewer/model/ExifDataManager.java:203-206 | removing a record lowers each count by that record's occurrences of the keyword |
| Exif.StrictlySortedDistinct | agile-photo-viewer/src/rl/photoviewer/model/ExifDataManager.java:251-252 | a strictly sorted keyword list has no repetitions |
| Exif.StringOrderIsPreorder | agile-photo-viewer/src/rl/photoviewer/model/ExifDataManager.java:252 | String.compareTo is a total preorder |
| Exif.SortDistinctStrings | agile-photo-viewer/src/rl/photoviewer/model/ExifDataManager.java:251-252 | sorting the distinct keys of the keyword table gives a strictly sorted list |
| Exif.KeywordsCountedPermutation | agile-photo-viewer/src/rl/photoviewer/model/ExifDataManager.java:94-101 | the keyword list and counts stay correct when the records are reordered |
| Exif.KeywordsOccurPermutation | agile-photo-viewer/src/rl/photoviewer/model/ExifDataManager.java:94-101 | every listed keyword is still carried by some record when the records are reordered |
| Exif.DefaultFilter | agile-photo-viewer/src/rl/photoviewer/model/ExifDataManager.java:69-70 | the filter of a new directory (rating 0, empty expression) shows exactly the records rated at least 0 |
| Exif.IndexedDistinct | agile-photo-viewer/src/rl/photoviewer/model/ExifDataManager.java:98-100 | records that know their positions are all different |
| Exif.PathOf | agile-photo-viewer/src/rl/photoviewer/model/ExifDataManager.java:219-225 | the file of a record is its name in the current directory |
| Exif.VisibleInOrderMembers | agile-photo-viewer/src/rl/photoviewer/model/ExifDataManager.java:119-125 | the visible photos listed are records and visible |
| Exif.VisibleInOrderCount | agile-photo-viewer/src/rl/photoviewer/model/ExifDataManager.java:115-125 | getVisiblePhotos lists as many files as getVisiblePhotoCount counts |
| Exif.PathsOf | agile-photo-viewer/src/rl/photoviewer/model/ExifDataManager.java:119-125 | one file per record |
| Exif.PathsOfAt | agile-photo-viewer/src/rl/photoviewer/model/ExifDataManager.java:119-125 | the i-th file is the i-th record's name in the directory |
| Exif.NextVisibleExists | agile-photo-viewer/src/rl/photoviewer/model/ExifDataManager.java:148-163 | with something visible, the forward scan always stops at a position |
| Exif.PreviousVisibleExists | agile-photo-viewer/src/rl/photoviewer/model/ExifDataManager.java:165-181 | with something visible, the backward scan always stops at a position |
| Exif.NavigationIsDeterministic | agile-photo-viewer/src/rl/photoviewer/model/ExifDataManager.java:148-181 | the next and the previous visible position are unique |
| Exif.StaysOnlyWhenAlone | agile-photo-viewer/src/rl/photoviewer/model/ExifDataManager.java:153-156 | the scan comes back to its start only when no other record is visible |
| Exif.FirstPhotoIsFirstVisible | agile-photo-viewer/src/rl/photoviewer/model/ExifDataManager.java:143-146 | scanning forward from no selection finds the first visible record |
| Exif.PreviousFromNoSelection | agile-photo-viewer/src/rl/photoviewer/model/ExifDataManager.java:165-181 | scanning backward from no selection starts at the second-to-last record and wraps to the last one only when nothing before it is visible |
| Exif.ModInRange | agile-photo-viewer/src/rl/photoviewer/model/ExifDataManager.java:154 | the wrap-around step (newIndex + 1) % size and (newIndex - 1 + size) % size stay in range |
| Exif.VisibleSetPermutation | agile-photo-viewer/src/rl/photoviewer/model/ExifDataManager.java:94-101 | reordering the records does not change the visible set |
| Exif.BuiltDescribesKept | agile-photo-viewer/src/rl/photoviewer/model/ExifDataManager.java:227-250 | the collected records are, one by one in order, the records of the kept files |
| Exif.TallyKeywords | agile-photo-viewer/src/rl/photoviewer/model/ExifDataManager.java:236-240 | the keyword table counts each keyword of the new record once more |
| Exif.TallyComplete | agile-photo-viewer/src/rl/photoviewer/model/ExifDataManager.java:251 | every keyword that occurs in the records is among the table's keys |
| Exif.SortedCounts | agile-photo-viewer/src/rl/photoviewer/model/ExifDataManager.java:251-254 | the keyword list is strictly sorted, holds exactly the keywords some record carries, and each count is that keyword's number of occurrences in the records, so at least 1 |
| Exif.ScanForward | agile-photo-viewer/src/rl/photoviewer/model/ExifDataManager.java:151-156 | the do-while loop stops at the next visible position after the selection, cyclically, or at the start |
| Exif.ScanBackward | agile-photo-viewer/src/rl/photoviewer/model/ExifDataManager.java:168-174 | the do-while loop stops at the previous visible position before the selection, cyclically, or at the start |
| Exif.CatalogPermutation | agile-photo-viewer/src/rl/photoviewer/model/ExifDataManager.java:94-101 | reordering keeps the visible set, the selection's membership and the keyword counts |
| Exif.VisibleSetRemove | agile-photo-viewer/src/rl/photoviewer/model/ExifDataManager.java:199-200 | removing a record removes it, and only it, from the visible set |
| Exif.KeywordsCountedRemove | agile-photo-viewer/src/rl/photoviewer/model/ExifDataManager.java:203-206 | after the decrements, the counts match the remaining records |
| Exif.DecrementCounts | agile-photo-viewer/src/rl/photoviewer/model/ExifDataManager.java:203-206 | each keyword count drops by the number of times the deleted record carries it |
| Exif.Renumber | agile-photo-viewer/src/rl/photoviewer/model/ExifDataManager.java:201-202 | every record after the deleted one is told its new position |
| Exif.SortAndNumber | agile-photo-viewer/src/rl/photoviewer/model/ExifDataManager.java:95-100 | the records sorted stably by the chosen comparator, each knowing its position |
| Exif.RemoveRecord | agile-photo-viewer/src/rl/photoviewer/model/ExifDataManager.java:199-206 | the selected record is gone, positions are renumbered and the keyword counts lowered |
| Exif.DeleteSelectsFollowing | agile-photo-viewer/src/rl/photoviewer/model/ExifDataManager.java:207-213 | after a delete the selection is the first visible record from the deleted position on, or else from the start |
| Exif.CollectEntry | agile-photo-viewer/src/rl/photoviewer/model/ExifDataManager.java:232-249 | one file of the listing: its record is appended when kept, its keywords tallied, its warning issued |
| Exif.CollectMetadata | agile-photo-viewer/src/rl/photoviewer/model/ExifDataManager.java:227-255 | the records of the kept files in order, a sorted list of exactly the keywords the records carry with their counts, and the warnings of the unreadable files |
| Exif.ReadEntry | agile-photo-viewer/src/rl/photoviewer/model/ExifDataManager.java:232-249 | a record with the metadata, a bare record with a warning for an unreadable image, or nothing for another file |
| Exif.VisiblePaths | agile-photo-viewer/src/rl/photoviewer/model/ExifDataManager.java:119-125 | the loop lists the files of the visible records in catalog order |
| Exif.ExifDataManager.constructor | agile-photo-viewer/src/rl/photoviewer/model/ExifDataManager.java:38-46 | no directory, no records, no selection, rating filter 0, a new expression, nothing visible, no keywords |
| Exif.ExifDataManager.SelectedIndex | agile-photo-viewer/src/rl/photoviewer/model/ExifDataManager.java:188-191 | -1 exactly without a selection, otherwise the selected record's position |
| Exif.ExifDataManager.GetFile | agile-photo-viewer/src/rl/photoviewer/model/ExifDataManager.java:219-225 | none for -1, otherwise the record's name in the current directory |
| Exif.ExifDataManager.UpdateStoredMetadata | agile-photo-viewer/src/rl/photoviewer/model/ExifDataManager.java:265-272 | the directory, records, keywords and counts are replaced; nothing else changes |
| Exif.ExifDataManager.ChangeOrder | agile-photo-viewer/src/rl/photoviewer/model/ExifDataManager.java:94-101 | the records are sorted stably by date or by name and renumbered; the visible set, selection and keywords stay the same |
| Exif.ExifDataManager.SetVisibility | agile-photo-viewer/src/rl/photoviewer/model/ExifDataManager.java:77-84 | the visible set becomes the records rated at least minRating whose keywords the expression accepts; the filter fields take the new values; records, selection, directory and keywords stay |
| Exif.ExifDataManager.SetCurrDirectory | agile-photo-viewer/src/rl/photoviewer/model/ExifDataManager.java:55-71 | the selection is cleared and the directory recorded; a new directory is read, sorted and filtered by rating 0 and an empty expression, with the read warnings; the same directory is only re-sorted, keeping its filter, visible set and keyword counts, with no warnings |
| Exif.ExifDataManager.LoadDirectory | agile-photo-viewer/src/rl/photoviewer/model/ExifDataManager.java:58-70 | the new directory's records and warnings, sorted by the chosen order, with the default filter; the keyword list holds exactly the keywords the records carry, each counted |
| Exif.ExifDataManager.StoreCatalog | agile-photo-viewer/src/rl/photoviewer/model/ExifDataManager.java:58-68 | the new directory's records and warnings are what its entries yield, stored in the chosen order with nothing selected, its keywords sorted and each carried by some record |
| Exif.ExifDataManager.GetVisiblePhotos | agile-photo-viewer/src/rl/photoviewer/model/ExifDataManager.java:119-125 | the files of the visible records in catalog order, as many as getVisiblePhotoCount |
| Exif.ExifDataManager.IndexInMetadataList | agile-photo-viewer/src/rl/photoviewer/model/ExifDataManager.java:274-279 | the first position of a record with that name, -1 exactly when there is none |
| Exif.ExifDataManager.SelectPhoto | agile-photo-viewer/src/rl/photoviewer/model/ExifDataManager.java:131-141 | null exactly when no record has the name, the selection then unchanged; otherwise the first such record is selected and its file returned |
| Exif.ExifDataManager.SelectNextPhoto | agile-photo-viewer/src/rl/photoviewer/model/ExifDataManager.java:148-163 | with nothing visible the selection is cleared; otherwise the next visible record after the selection, wrapping around |
| Exif.ExifDataManager.SelectPreviousPhoto | agile-photo-viewer/src/rl/photoviewer/model/ExifDataManager.java:165-181 | with nothing visible the selection is cleared; otherwise the previous visible record before the selection, wrapping around |
| Exif.ExifDataManager.DeleteSelectedPhoto | agile-photo-viewer/src/rl/photoviewer/model/ExifDataManager.java:193-217 | only a selected, existing and deletable file is removed, with its record, visibility and keyword counts; the next visible record is then selected |
| Exif.ExifDataManager.SelectFollowing | agile-photo-viewer/src/rl/photoviewer/model/ExifDataManager.java:207-213 | the selection after a delete: the next visible record after the one before the deleted position |
| Exif.ExifDataManager.RemoveSelected | agile-photo-viewer/src/rl/photoviewer/model/ExifDataManager.java:199-207 | the selected record leaves the list and the visible set and its keywords are uncounted |
| Exif.ExifDataManager.SelectFirstPhoto | agile-photo-viewer/src/rl/photoviewer/model/ExifDataManager.java:143-146 | the first visible record, or no selection when nothing is visible |
| Maps.MapParams.constructor | agile-photo-viewer/src/rl/photoviewer/model/MapDataManager.java:270-281 | a new table entry for a map file has no reference points |
| Maps.CompareParamsIsPreorder | agile-photo-viewer/src/rl/photoviewer/model/MapDataManager.java:277-279 | ordering entries by file name is a total preorder |
| Maps.FindParamsMeaning | agile-photo-viewer/src/rl/photoviewer/model/MapDataManager.java:232-237 | lookupMapParams finds null exactly when no entry has the file, otherwise an entry of the table for that file |
| Maps.LookupMapParams | agile-photo-viewer/src/rl/photoviewer/model/MapDataManager.java:232-237 | the loop returns the first entry for the file, or null |
| Maps.AddEntryKeeps | agile-photo-viewer/src/rl/photoviewer/model/MapDataManager.java:51-56 | adding a new entry and sorting keeps the table sorted, one entry per file, and keeps the old entries |
| Maps.UniqueFilesPermutation | agile-photo-viewer/src/rl/photoviewer/model/MapDataManager.java:55 | sorting keeps one entry per file |
| Maps.SortedByName | agile-photo-viewer/src/rl/photoviewer/model/MapDataManager.java:55 | after the sort the table is ordered by file name |
| Maps.RemoveEntryKeeps | agile-photo-viewer/src/rl/photoviewer/model/MapDataManager.java:74-80 | removing an entry keeps the table well formed and leaves no entry for its file |
| Maps.AddRemoveRestores | agile-photo-viewer/src/rl/photoviewer/model/MapDataManager.java:51-70 | an entry added for an image that then turns out unreadable is removed again and the table is as before |
| Maps.InterpolateMeaning | agile-photo-viewer/src/rl/photoviewer/model/MapDataManager.java:157-164 | linear interpolation meets both sample values and is linear in between |
| Maps.ConvertWith2Samples | agile-photo-viewer/src/rl/photoviewer/model/MapDataManager.java:157-164 | x is finite exactly when the longitudes differ, y exactly when the latitudes differ |
| Maps.ConvertWith2SamplesMeaning | agile-photo-viewer/src/rl/photoviewer/model/MapDataManager.java:157-164 | both samples map to their own image positions and points between them to points between |
| Maps.NormalOrthogonal | agile-photo-viewer/src/rl/photoviewer/model/MapDataManager.java:176-186 | the cross product is orthogonal to both edges, so all three samples give the same d |
| Maps.PlaneHeightMeaning | agile-photo-viewer/src/rl/photoviewer/model/MapDataManager.java:166-191 | the result lies on the plane through the three samples and is finite exactly when the plane is not vertical |
| Maps.PlaneThrough | agile-photo-viewer/src/rl/photoviewer/model/MapDataManager.java:166-191 | both coordinates are finite exactly when the three samples are not collinear in latitude/longitude |
| Maps.PlaneThroughSamples | agile-photo-viewer/src/rl/photoviewer/model/MapDataManager.java:166-191 | each of the three samples maps to its own image position |
| Maps.ConvertWith3Samples | agile-photo-viewer/src/rl/photoviewer/model/MapDataManager.java:166-191 | the loops compute the plane through the samples for x and for y |
| Maps.AxisStep | agile-photo-viewer/src/rl/photoviewer/model/MapDataManager.java:169-189 | one pass of the outer loop computes the plane height for that axis |
| Maps.DistanceOrderIsPreorder | agile-photo-viewer/src/rl/photoviewer/model/MapDataManager.java:133-149 | the distance comparator is a total preorder |
| Maps.NearestFirstMeaning | agile-photo-viewer/src/rl/photoviewer/model/MapDataManager.java:131-149 | the sorted copy is a permutation of the points with non-decreasing distance |
| Maps.LatLonToImagePosAtSample | agile-photo-viewer/src/rl/photoviewer/model/MapDataManager.java:121-155 | at a reference point a finite result is the image position of a reference point at the same place; with two or three points, its own |
| Maps.ZeroDistanceAtSelf | agile-photo-viewer/src/rl/photoviewer/model/MapDataManager.java:139-140 | a point is at distance 0 from itself |
| Maps.ZeroDistance | agile-photo-viewer/src/rl/photoviewer/model/MapDataManager.java:139-140 | distance 0 only at the point itself |
| Maps.MapDataManager.constructor | agile-photo-viewer/src/rl/photoviewer/model/MapDataManager.java:40-42 | no current map and an empty table |
| Maps.MapDataManager.SetMap | agile-photo-viewer/src/rl/photoviewer/model/MapDataManager.java:44-72 | null clears the map; a readable file reuses its entry with the entry's reference points and the table unchanged, or adds a fresh entry without points to the sorted table; an unreadable one leaves the map empty and no entry for the file, and a read error is reported |
| Maps.MapDataManager.ClearCurrentMap | agile-photo-viewer/src/rl/photoviewer/model/MapDataManager.java:74-80 | the current entry leaves the table; without one nothing changes |
| Maps.MapDataManager.GetAllMapFiles | agile-photo-viewer/src/rl/photoviewer/model/MapDataManager.java:82-87 | the table's files in table order, sorted by name |
| Maps.MapDataManager.HasData | agile-photo-viewer/src/rl/photoviewer/model/MapDataManager.java:89-91 | true exactly when there is a current map with at least two reference points |
| Maps.MapDataManager.GetFile | agile-photo-viewer/src/rl/photoviewer/model/MapDataManager.java:97-102 | the current map's file, none without a map |
| Maps.MapDataManager.GetRefPoints | agile-photo-viewer/src/rl/photoviewer/model/MapDataManager.java:114-119 | the current map's points, empty without a map |
| Maps.MapDataManager.AddRefPoint | agile-photo-viewer/src/rl/photoviewer/model/MapDataManager.java:104-107 | the point is appended to the current map's points |
| Maps.MapDataManager.RemoveRefPoint | agile-photo-viewer/src/rl/photoviewer/model/MapDataManager.java:109-112 | the point at the index is removed from the current map's points |
| Maps.MapDataManager.LatLonToImagePos | agile-photo-viewer/src/rl/photoviewer/model/MapDataManager.java:121-155 | the transform of the current map's reference points |
| Export.Pow10 | agile-photo-viewer/src/rl/photoviewer/model/PhotoExporter.java:82 | the powers of ten the widening loop compares with are positive |
| Export.DecimalFits | agile-photo-viewer/src/rl/photoviewer/model/PhotoExporter.java:81-83 | a count fits a pattern of w digits exactly when it is below 10^w |
| Export.PaddedMeaning | agile-photo-viewer/src/rl/photoviewer/model/PhotoExporter.java:105 | DecimalFormat's text: only digits, reading back as the number, as long as the pattern or the number |
| Export.DotPos | agile-photo-viewer/src/rl/photoviewer/model/PhotoExporter.java:49-51 | the position of the last dot, or the length when there is none |
| Export.RunStart | agile-photo-viewer/src/rl/photoviewer/model/PhotoExporter.java:55-60 | the loop stops at the start of the run of digits in front of the dot |
| Export.RunStartOf | agile-photo-viewer/src/rl/photoviewer/model/PhotoExporter.java:57-60 | that run is unique: any maximal run of digits ending at the dot is the one found |
| Export.NoDotInDigits | agile-photo-viewer/src/rl/photoviewer/model/PhotoExporter.java:57 | a run of digits contains no dot |
| Export.ParseTemplateMeaning | agile-photo-viewer/src/rl/photoviewer/model/PhotoExporter.java:46-70 | the template is prefix, digits and suffix; the prefix ends in a non-digit; the counter starts one after the digits, or at 1 |
| Export.ParseComposed | agile-photo-viewer/src/rl/photoviewer/model/PhotoExporter.java:46-70 | a template built from a prefix, digits and a suffix parses back into those parts |
| Export.Extension | agile-photo-viewer/src/rl/photoviewer/model/PhotoExporter.java:109-111 | the source's extension starts at its last dot and has no other dot; none without a dot |
| Export.DestNameContinues | agile-photo-viewer/src/rl/photoviewer/model/PhotoExporter.java:100-115 | a renamed file's name, used as a template, continues numbering after it |
| Export.DestNamesDistinct | agile-photo-viewer/src/rl/photoviewer/model/PhotoExporter.java:100-115 | different counter values give different file names |
| Export.TemplateExampleD | agile-photo-viewer/src/rl/photoviewer/model/PhotoExporter.java:119 | template "d": prefix "d", no digits, no suffix, counter 1 |
| Export.NameExampleD | agile-photo-viewer/src/rl/photoviewer/model/PhotoExporter.java:120-121 | then "x.z" and "xy.z" become "d1.z" and "d2.z" |
| Export.TemplateExampleD009 | agile-photo-viewer/src/rl/photoviewer/model/PhotoExporter.java:122 | template "d-009.e": prefix "d-", three digits, suffix ".e", counter 10 |
| Export.NineValue | agile-photo-viewer/src/rl/photoviewer/model/PhotoExporter.java:63-64 | "009" reads as 9 |
| Export.NameExampleD009 | agile-photo-viewer/src/rl/photoviewer/model/PhotoExporter.java:123-124 | then "x.z" and "xy.z" become "d-010.e" and "d-011.e" |
| Export.WidenedFits | agile-photo-viewer/src/rl/photoviewer/model/PhotoExporter.java:81-83 | after widening, every counter up to the number of files fits the pattern exactly |
| Export.CopyPlan | agile-photo-viewer/src/rl/photoviewer/model/PhotoExporter.java:84-96 | one source/destination pair per file, in order |
| Export.CopyPlanDistinct | agile-photo-viewer/src/rl/photoviewer/model/PhotoExporter.java:84-96 | when renaming, no two files are copied to the same destination |
| Export.CountCopied | agile-photo-viewer/src/rl/photoviewer/model/PhotoExporter.java:88-91 | the count is 0 exactly when no copy succeeded and the number of files exactly when all did |
| Export.CopyWarnings | agile-photo-viewer/src/rl/photoviewer/model/PhotoExporter.java:91-94 | one warning per failed copy: warnings and successes add up to the number of files |
| Export.SplitTemplate | agile-photo-viewer/src/rl/photoviewer/model/PhotoExporter.java:49-66 | the scan finds the parsed prefix, suffix, a pattern of one zero per (ASCII) digit and the start counter |
| Export.PhotoExporter.constructor | agile-photo-viewer/src/rl/photoviewer/model/PhotoExporter.java:25-36 | no destination, no renaming, an empty pattern, counter 0 |
| Export.PhotoExporter.SetDestination | agile-photo-viewer/src/rl/photoviewer/model/PhotoExporter.java:46-70 | the destination is set; a template sets prefix, suffix, pattern and counter; none disables renaming |
| Export.PhotoExporter.GetDestFileName | agile-photo-viewer/src/rl/photoviewer/model/PhotoExporter.java:100-115 | the source name without renaming; otherwise prefix, padded counter and suffix, with the counter moving on by one |
| Export.PhotoExporter.WidenFormat | agile-photo-viewer/src/rl/photoviewer/model/PhotoExporter.java:81-83 | the pattern grows until the number of files fits |
| Export.PhotoExporter.CopyNext | agile-photo-viewer/src/rl/photoviewer/model/PhotoExporter.java:84-96 | one pass of the copy loop extends the count, the copies and the warnings by this file |
| Export.PhotoExporter.CopyFiles | agile-photo-viewer/src/rl/photoviewer/model/PhotoExporter.java:79-98 | the number copied, the copy of each file to its destination name and a warning per failure; the counter moves on by the number of files |
| PhotoViewer.ShownImage | agile-photo-viewer/src/rl/photoviewer/model/PVModel.java:215-232 | the current image is the file's image only when it was read |
| PhotoViewer.ImageErrors | agile-photo-viewer/src/rl/photoviewer/model/PVModel.java:217-224 | an error is reported exactly for a file whose read failed |
| PhotoViewer.SplitSelection | agile-photo-viewer/src/rl/photoviewer/model/PVModel.java:51-56 | a directory stands for itself; another file for its parent directory and its name |
| PhotoViewer.SplitSelectionRejoins | agile-photo-viewer/src/rl/photoviewer/model/PVModel.java:51-56 | the parent directory joined with the selected name is the file again, so selectPhoto loses nothing |
| PhotoViewer.PVModel.constructor | agile-photo-viewer/src/rl/photoviewer/model/PVModel.java:36-39 | fresh catalog and map data, no image |
| PhotoViewer.PVModel.GetSelectedPhotoFile | agile-photo-viewer/src/rl/photoviewer/model/PVModel.java:132-138 | none exactly without a selection, otherwise the selected name in the current directory |
| PhotoViewer.PVModel.LoadImage | agile-photo-viewer/src/rl/photoviewer/model/PVModel.java:215-232 | the read image becomes current, an error is reported for a failed read, observers are notified |
| PhotoViewer.PVModel.SelectPhoto | agile-photo-viewer/src/rl/photoviewer/model/PVModel.java:49-71 | true exactly when the directory changes, which clears the map; a new directory holds exactly the records built from its listing, sorted, unfiltered, with the read warnings; an old one is re-sorted with filter and counts kept; then the first record with the file's name (none if absent), or for a directory the first visible record, is selected and its image shown or its read error reported; observers hear of each change |
| PhotoViewer.PVModel.EnterDirectory | agile-photo-viewer/src/rl/photoviewer/model/PVModel.java:57-61 | a new directory loses the map and is read afresh: records built from the listing, sorted by the chosen order, rating filter 0 and a fresh empty expression, with one warning per unreadable image; for the same directory the records are re-sorted and every filter field and count stays |
| PhotoViewer.PVModel.SelectAndLoad | agile-photo-viewer/src/rl/photoviewer/model/PVModel.java:62-70 | for a name: nothing selected exactly when no record has it, otherwise the first record with it; for a directory: nothing exactly when no record is visible, otherwise the first visible one; that file's image is shown or its read error reported; observers hear of the image and metadata changes; nothing else in the catalog changes |
| PhotoViewer.PVModel.SelectAfterLoad | agile-photo-viewer/src/rl/photoviewer/model/PVModel.java:62-66 | the named photo, or the first visible one for a directory, is selected; nothing else in the catalog changes |
| PhotoViewer.PVModel.SetVisibility | agile-photo-viewer/src/rl/photoviewer/model/PVModel.java:73-77 | the rating, expression and its clauses are stored and the visible set is the records they accept; records, selection, directory, keywords and counts stay; observers are notified |
| PhotoViewer.PVModel.ChangeOrder | agile-photo-viewer/src/rl/photoviewer/model/PVModel.java:116-118 | the catalog is sorted stably in the chosen order; visible set, selection, directory, every filter field, keywords and counts stay |
| PhotoViewer.PVModel.SelectFirstPhoto | agile-photo-viewer/src/rl/photoviewer/model/PVModel.java:84-87 | the first visible photo is selected and loaded |
| PhotoViewer.PVModel.SelectPhotoAt | agile-photo-viewer/src/rl/photoviewer/model/PVModel.java:89-97 | a photo's position selects the first record with that photo's name and loads it, or clears the image when no record has it; other points change nothing |
| PhotoViewer.PVModel.SelectPrevPhoto | agile-photo-viewer/src/rl/photoviewer/model/PVModel.java:102-105 | the previous visible photo is selected and loaded |
| PhotoViewer.PVModel.SelectNextPhoto | agile-photo-viewer/src/rl/photoviewer/model/PVModel.java:110-113 | the next visible photo is selected and loaded |
| PhotoViewer.PVModel.DeleteSelectedPhoto | agile-photo-viewer/src/rl/photoviewer/model/PVModel.java:148-153 | a deletion happens exactly when a photo is selected, exists and can be deleted; then its file is reported, its record leaves the list and the visible set, each of its keywords loses one count, and the next visible record after its position is selected; otherwise the catalog is unchanged; whatever is selected then is loaded |
| PhotoViewer.PVModel.SetMap | agile-photo-viewer/src/rl/photoviewer/model/PVModel.java:182-186 | null clears the map; a readable file takes its table entry, with its reference points and the table unchanged, or a fresh entry without points added to the sorted table; an unreadable one leaves the map empty, drops the file's entry and yields the read error message; observers are notified |
| PhotoViewer.PVModel.ClearCurrentMap | agile-photo-viewer/src/rl/photoviewer/model/PVModel.java:188-192 | the current map leaves the table and its image is dropped, so the model's invariant still holds; without one the table stays; observers are notified |
| PhotoViewer.PVModel.ExportPhotos | agile-photo-viewer/src/rl/photoviewer/model/PVModel.java:206-212 | a fresh exporter copies the photos under the template's names and returns how many were copied |
| Status.Segment | agile-photo-viewer/src/rl/photoviewer/view/StatusArea.java:67-72 | a counter's part of the error information is empty exactly when the counter is 0 |
| Status.ErrorInfoEmpty | agile-photo-viewer/src/rl/photoviewer/view/StatusArea.java:65-77 | the error information is empty exactly when all three counters are 0 |
| Status.ErrorInfoRoundTrip | agile-photo-viewer/src/rl/photoviewer/view/StatusArea.java:65-76 | the error information can be read back into the three counters |
| Status.ErrorInfoInjective | agile-photo-viewer/src/rl/photoviewer/view/StatusArea.java:65-76 | different counters never give the same error information |
| Status.AppendCount | agile-photo-viewer/src/rl/photoviewer/view/StatusArea.java:67-72 | each if-statement appends its counter's part: nothing for 0, otherwise a space, the decimal value and the tag |
| Status.StatusArea.constructor | agile-photo-viewer/src/rl/photoviewer/view/StatusArea.java:30-42 | all counters start at 0 |
| Status.StatusArea.HandleWarning | agile-photo-viewer/src/rl/photoviewer/view/StatusArea.java:98-103 | the warning counter goes up by one, nothing else changes |
| Status.StatusArea.HandleError | agile-photo-viewer/src/rl/photoviewer/view/StatusArea.java:105-110 | the error counter goes up by one, nothing else changes |
| Status.StatusArea.HandleFatalError | agile-photo-viewer/src/rl/photoviewer/view/StatusArea.java:112-116 | the fatal error counter goes up by one, nothing else changes |
| Status.StatusArea.FormatErrorInfo | agile-photo-viewer/src/rl/photoviewer/view/StatusArea.java:65-77 | returns the information for the old counters and resets all three |
| Status.StatusArea.HasUndisplayedErrors | agile-photo-viewer/src/rl/photoviewer/view/StatusArea.java:83-85 | true exactly when the next status text would carry error information |
| Status.StatusArea.SetStatus | agile-photo-viewer/src/rl/photoviewer/view/StatusArea.java:56-59 | the text followed by the error information; the counters restart |
| View.Clamp | agile-photo-viewer/src/rl/photoviewer/fx/view/ViewParams.java:60-65 | the clamped value is the value, min or max |
| View.ClampInRange | agile-photo-viewer/src/rl/photoviewer/fx/view/ViewParams.java:60-79 | with min <= max the result lies in [min, max] and equals the value exactly when the value already did |
| View.ClampIdempotent | agile-photo-viewer/src/rl/photoviewer/fx/view/ViewParams.java:60-79 | with min <= max clamping twice is clamping once |
| View.ClampUnorderedBounds | agile-photo-viewer/src/rl/photoviewer/fx/view/ViewParams.java:60-65 | with min > max a second clamp moves a value from min to max |
| View.Scaled | agile-photo-viewer/src/rl/photoviewer/fx/view/ViewParams.java:92-98 | division by the scale is finite exactly for a nonzero scale and undoes multiplication |
| View.Offset | agile-photo-viewer/src/rl/photoviewer/fx/view/ViewParams.java:92-93 | adding the offset keeps finiteness and is undone by subtracting it |
| View.ViewParams.constructor | agile-photo-viewer/src/rl/photoviewer/fx/view/ViewParams.java:26-31 | the three fields take the given values |
| View.ViewParams.Origin | agile-photo-viewer/src/rl/photoviewer/fx/view/ViewParams.java:33-34 | the three fields keep Java's default 0 |
| View.ViewParams.SetImgX | agile-photo-viewer/src/rl/photoviewer/fx/view/ViewParams.java:48-50 | imgX changes, the other fields do not |
| View.ViewParams.SetImgY | agile-photo-viewer/src/rl/photoviewer/fx/view/ViewParams.java:52-54 | imgY changes, the other fields do not |
| View.ViewParams.SetScale | agile-photo-viewer/src/rl/photoviewer/fx/view/ViewParams.java:56-58 | scale changes, the other fields do not |
| View.ViewParams.ClampImgX | agile-photo-viewer/src/rl/photoviewer/fx/view/ViewParams.java:60-65 | imgX is clamped into [min, max], the other fields do not change |
| View.ViewParams.ClampImgY | agile-photo-viewer/src/rl/photoviewer/fx/view/ViewParams.java:67-72 | imgY is clamped into [min, max], the other fields do not change |
| View.ViewParams.ClampScale | agile-photo-viewer/src/rl/photoviewer/fx/view/ViewParams.java:74-79 | scale is clamped into [min, max], the other fields do not change |
| View.ViewParams.ImageToView | agile-photo-viewer/src/rl/photoviewer/fx/view/ViewParams.java:81-85 | dividing the view point by a nonzero scale gives back the offset from (imgX, imgY) |
| View.ViewParams.ImageToViewDistance | agile-photo-viewer/src/rl/photoviewer/fx/view/ViewParams.java:87-89 | dividing by a nonzero scale gives back the image distance |
| View.ViewParams.ViewToImage | agile-photo-viewer/src/rl/photoviewer/fx/view/ViewParams.java:91-95 | finite exactly for a nonzero scale |
| View.ViewParams.ViewToImageDistance | agile-photo-viewer/src/rl/photoviewer/fx/view/ViewParams.java:97-99 | finite exactly for a nonzero scale |
| View.ViewParams.Clone | agile-photo-viewer/src/rl/photoviewer/fx/view/ViewParams.java:101-110 | a new object with equal fields |
| View.ViewOfImageRoundTrip | agile-photo-viewer/src/rl/photoviewer/fx/view/ViewParams.java:81-95 | for a nonzero scale viewToImage undoes imageToView |
| View.ImageOfViewRoundTrip | agile-photo-viewer/src/rl/photoviewer/fx/view/ViewParams.java:81-95 | for a nonzero scale imageToView undoes viewToImage |
| View.DistanceRoundTrip | agile-photo-viewer/src/rl/photoviewer/fx/view/ViewParams.java:87-99 | for a nonzero scale the distance conversions undo each other |

## Left out

- File system, image decoding and metadata reading (`listFiles`, `ImageMetadataReader`, `ImageIO.read`, `Files.copy`, `File.delete`): replaced by the oracles described above, because they are I/O.
- `isImageFormatSupported` (model/ExifDataManager.java:257-263): the `isImageFormat` flag of a `DirEntry` stands for it, because the format list comes from the imaging library.
- `enableDebugMode` and `printMetadataForDebugging`: console output only.
- The `PhotoMetadata(File, Metadata)` tag extraction, including the UTF-8 repair of the caption: the `Tags` value holds what the library returned, because the library is not part of this model.
- `saveMapParamLookup`/`loadMapParamLookup` (model/MapDataManager.java:203-230): serialization to a file is I/O. A loaded table is taken to be well formed.
- The map `Image` and `Image.flush` in `loadImage`: only whether an image was read is modelled.
- Plain getters (`getCurrDirectory`, `getAllKeywords`, `getKeywordCounts`, `getVisiblePhotoCount`, `getRatingFilter`, `getVisibilityExpression`, `getVisiblePhotoPositions`, `getMapData`, `getSelectedPhotoImage`, `getImage`, `getScale`, …): they read a field, which the model exposes directly.
- The `synchronized` modifiers: concurrency is not modelled.
- The log-file output of `StatusArea.SPErrorHandler.print` (view/StatusArea.java:118-135), the `super.handleX` calls into `SimpleErrorHandler` and the Swing set-up of `StatusArea`: they are display and logging. `HandleWarning`, `HandleError` and `HandleFatalError` are methods of `StatusArea` itself, updating the counters the inner class updates. `setStatus` stores its text in a `text` field, standing for `setText`.
- Doubles are modelled as reals, with `NotFinite` for NaN and infinities. Rounding is not modelled.
- View.ViewOfImageRoundTrip, View.ImageOfViewRoundTrip, View.DistanceRoundTrip: they hold over reals, not over IEEE doubles, where the round trip may be off by rounding.
- Maps.MapDataManager.LatLonToImagePos: requires `hasData()`. The Java method throws on fewer than two points, and the map views call it only when `hasData()` holds.
- Maps.MapDataManager.RemoveRefPoint: requires a valid index when there is a map. The Java list throws `IndexOutOfBoundsException` otherwise.
- Export.PhotoExporter.SetDestination: requires `TemplateAccepted`, which is narrower than what the Java method takes without failing. Any template whose part before the last dot is empty or made only of digits (`""`, `".jpg"`, `"007.jpg"`, `"123"`) makes the scan read `charAt(-1)` and throw; a digit run above `Integer.MAX_VALUE` makes `parseInt` throw. A run of exactly 2147483647 parses, and `+ 1` then wraps `currIndex` to `Integer.MIN_VALUE`; `TemplateAccepted` excludes that run too, so the wrapped counter is not modelled. The exception paths are not modelled either.
- JavaStrings.CompareTo, JavaStrings.CompareToNegative: Dafny strings are sequences of Unicode scalar values, so `CompareTo` orders by scalar value. Java's `String.compareTo` compares UTF-16 code units, which gives a different order when a character outside the Basic Multilingual Plane (a surrogate pair) meets a character in U+E000..U+FFFF. The keyword and file-name orders are therefore faithful only for text inside the Basic Multilingual Plane.
- CompareToNegative: its equivalence with lexicographic order is about scalar-value order, not UTF-16 code-unit order (see the line above).
- Export.RunStart, Export.SplitTemplate: the digit scan stops at the ASCII digits `'0'..'9'`. Java's `Character.isDigit` and `Integer.parseInt` also accept the other Unicode decimal digits (Arabic-Indic, Devanagari, fullwidth, …), so a template with such digits before the dot is split differently here.
- SplitTemplate: its contract describes the split with ASCII digits only (see the line above).
- Export.PhotoExporter.WidenFormat: the source's test `Math.log10(size) + 1e-5 > length` is modelled as `size >= 10^length`. The two agree except for counts just below a power of ten of at least 10^5 (for instance 99999), where the floating-point test already widens.
- Integer widths: the Java `int` counters (status counters, `currIndex`, the keyword counts) are unbounded here, so 32-bit overflow is not modelled.
- Export.PhotoExporter.CopyFiles: `getAbsolutePath` resolution against the working directory is not modelled. Paths are used as given.
- Exif.ExifDataManager.SetCurrDirectory, Exif.ExifDataManager.StoreCatalog: the directory listing is always a successful listing. In Java, `dir.listFiles()` returns `null` for a missing or unreadable directory and the loop of `collectMetadata` (model/ExifDataManager.java:229-231) then throws a `NullPointerException`, after `selectedPhotoData` was cleared and, from `selectPhoto`, after the map was dropped; that failure path is not modelled.
- PhotoViewer.PVModel.SelectPhoto: requires the argument to be a directory or to have a parent. A relative file name without a parent makes `getParentFile()` return `null` (model/PVModel.java:54) and `dir.equals` throw; that path is not modelled.
- Files: paths are normalized strings; `ParentOf("/x")` is `Some("")`, where `""` stands for the file-system root (Java's `getParent` gives `"/"`). `Join("", n)` is `"/" + n`, so the root behaves as in Java.
- Maps.MapDataManager.GetRefPoints: returns the current reference points as a value. Java returns a live unmodifiable view of the list, which later changes show through; aliasing is not modelled.
- PhotoViewer.PVModel.SetVisibility: model/PVModel.java:73-77 passes one `VisibilityExpression` to a one-argument `ExifDataManager.setVisibility`, neither of which exists in model/ExifDataManager.java. The facade is modelled after the two-argument `ExifDataManager.setVisibility(int, KeywordExpression)` (model/ExifDataManager.java:76-83) that the source does define.
