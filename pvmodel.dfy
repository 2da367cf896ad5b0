/** PVModel: the facade of the viewer. It owns the photo catalog and the map
    data, keeps the image of the selected photo and tells its observers
    after each change. */
module PhotoViewer {
  import opened Options
  import opened Files
  import opened Photos
  import opened Keywords
  import opened Lists
  import opened Exif
  import opened Maps
  import opened Export

  /** What observers are told: notifyObservers() or
      notifyObservers(METADATA_CHANGED). */
  datatype Notification = Changed | MetadataChanged

  /** A position on the map: a photo's metadata or some other geo point. */
  datatype GeoPoint = PhotoPosition(data: PhotoMetadata) | OtherPosition

  /** The error loadImage reports for an image it cannot read. */
  function ImageReadError(file: Path): string
  {
    "Could not read image from file " + file + "."
  }

  /** The image loadImage leaves current, named by its file: the file's
      image when it was read, none for no file or no image. */
  function ShownImage(file: Option<Path>, outcome: ReadOutcome): (r: Option<Path>)
    ensures r.Some? <==> file.Some? && outcome == Loaded
    ensures r.Some? ==> r == file
  {
    if file.Some? && outcome == Loaded then file else None
  }

  /** The errors loadImage reports: one for a file whose read failed. */
  function ImageErrors(file: Option<Path>, outcome: ReadOutcome): (r: seq<string>)
    ensures |r| <= 1
    ensures r != [] <==> file.Some? && outcome == ReadError
    ensures r != [] ==> r[0] == ImageReadError(file.value)
  {
    if file.Some? && outcome == ReadError then [ImageReadError(file.value)] else []
  }

  /** The directory and the file name selectPhoto(File) works with: a
      directory stands for itself with no name, another file for its parent
      directory and its name. */
  function SplitSelection(file: Path, isDirectory: bool): (r: (Path, Option<string>))
    requires isDirectory || ParentOf(file).Some?
    ensures isDirectory ==> r == (file, None)
    ensures !isDirectory ==> r.1 == Some(NameOf(file))
  {
    if isDirectory then (file, None)
    else (ParentOf(file).value, Some(NameOf(file)))
  }

  /** A file that is not a directory is its parent directory joined with
      its name. */
  lemma SplitSelectionRejoins(file: Path)
    requires ParentOf(file).Some?
    ensures Join(SplitSelection(file, false).0, NameOf(file)) == file
  {
    JoinSplit(file);
  }

  /** The settings exportPhotos hands to its exporter, as the exporter
      holds them once copyFiles has widened the number pattern: prefix,
      pattern width, first number and suffix (all unused without a
      template). */
  function ExportSettings(template: Option<string>, count: nat): (Option<string>, nat, nat, Option<string>)
    requires template.Some? ==> TemplateShape(template.value)
  {
    if template.None? then (None, 0, 0, None)
    else
      var tp := ParseTemplate(template.value);
      (Some(tp.prefix), Widened(tp.width, count), tp.start, tp.suffix)
  }

  class PVModel {
    /** The current image, named by the file it was read from. */
    var currImage: Option<Path>
    const exifDataManager: ExifDataManager
    const mapDataManager: MapDataManager
    /** The notifications sent to observers, oldest first. */
    var notifications: seq<Notification>

    ghost predicate Valid()
      reads exifDataManager, exifDataManager.photoDataList, mapDataManager
    {
      exifDataManager.Valid() && mapDataManager.Valid()
    }

    constructor ()
      ensures Valid() && fresh(exifDataManager) && fresh(mapDataManager)
      ensures currImage == None && notifications == []
      ensures exifDataManager.currDirectory == None && exifDataManager.selectedPhotoData == null
      ensures mapDataManager.params == null && mapDataManager.mapParamLookup == []
    {
      exifDataManager := new ExifDataManager();
      mapDataManager := new MapDataManager();
      currImage := None;
      notifications := [];
    }

    /** getSelectedPhotoFile: none without a selection; otherwise the
        selected photo's name in the current directory. */
    function GetSelectedPhotoFile(): (r: Option<Path>)
      reads exifDataManager
      ensures r.None? <==> exifDataManager.selectedPhotoData == null
      ensures r.Some? && exifDataManager.currDirectory.Some?
              && Separator !in exifDataManager.selectedPhotoData.fileName ==>
        ParentOf(r.value) == exifDataManager.currDirectory
        && NameOf(r.value) == exifDataManager.selectedPhotoData.fileName
    {
      var data := exifDataManager.selectedPhotoData;
      if data != null then Some(PathOf(exifDataManager.currDirectory, data.fileName)) else None
    }

    /** loadImage: reads the file's image (outcome stands for ImageIO.read),
        makes it current, none for no file or a failed read, and notifies. */
    method LoadImage(file: Option<Path>, outcome: ReadOutcome) returns (errors: seq<string>)
      modifies this`currImage, this`notifications
      ensures currImage == ShownImage(file, outcome)
      ensures errors == ImageErrors(file, outcome)
      ensures notifications == old(notifications) + [Changed]
    {
      var image: Option<Path> := None;
      errors := [];
      if file.Some? {
        if outcome == Loaded {
          image := file;
        } else if outcome == ReadError {
          errors := [ImageReadError(file.value)];
        }
      }
      currImage := image;
      notifications := notifications + [Changed];
    }

    /** selectPhoto(File, boolean). Reports whether the directory changed;
        a new directory first loses its map. The catalog moves to the
        directory; then the named photo is selected, or with a directory
        the first visible one, and its image is loaded. */
    method SelectPhoto(file: Path, isDirectory: bool, sortByDate: bool, entries: seq<DirEntry>, outcome: ReadOutcome)
      returns (result: bool, warnings: seq<string>, errors: seq<string>, ghost collected: seq<PhotoMetadata>)
      requires Valid()
      requires isDirectory || ParentOf(file).Some?
      modifies this, exifDataManager, exifDataManager.photoDataList, mapDataManager
      ensures Valid()
      ensures var dir := SplitSelection(file, isDirectory).0;
        && (result <==> old(exifDataManager.currDirectory) != Some(dir))
        && exifDataManager.currDirectory == Some(dir)
      ensures EnteredCatalog(old(exifDataManager.State()), exifDataManager.State(), sortByDate, entries, collected, result)
      ensures result ==> fresh(collected) && fresh(exifDataManager.keywordExpression)
      ensures warnings == if result then ReadWarnings(entries) else []
      ensures mapDataManager.mapParamLookup == old(mapDataManager.mapParamLookup)
      ensures mapDataManager.params == if result then null else old(mapDataManager.params)
      ensures SelectedAfterLoad(SplitSelection(file, isDirectory).1)
      ensures currImage == ShownImage(GetSelectedPhotoFile(), outcome)
      ensures errors == ImageErrors(GetSelectedPhotoFile(), outcome)
      ensures notifications == old(notifications) + (if result then [Changed] else []) + [Changed, MetadataChanged]
    {
      var split := SplitSelection(file, isDirectory);
      var dir, fileName := split.0, split.1;
      result, warnings, collected := EnterDirectory(dir, sortByDate, entries);
      errors := SelectAndLoad(fileName, outcome);
    }

    /** The selection step of selectPhoto(File, boolean): select, load the
        selected photo's image, and tell observers the metadata changed. */
    method SelectAndLoad(fileName: Option<string>, outcome: ReadOutcome) returns (errors: seq<string>)
      requires exifDataManager.Valid() && exifDataManager.selectedPhotoData == null
      modifies this`currImage, this`notifications, exifDataManager`selectedPhotoData
      ensures exifDataManager.Valid()
      ensures exifDataManager.State().(selected := null, selectedIndex := -1) == old(exifDataManager.State())
      ensures SelectedAfterLoad(fileName)
      ensures currImage == ShownImage(GetSelectedPhotoFile(), outcome)
      ensures errors == ImageErrors(GetSelectedPhotoFile(), outcome)
      ensures notifications == old(notifications) + [Changed, MetadataChanged]
    {
      var f := SelectAfterLoad(fileName);
      errors := LoadImage(f, outcome);
      notifications := notifications + [MetadataChanged];
    }

    /** The directory step of selectPhoto(File, boolean): a directory other
        than the current one loses the map (with its notification); then
        the catalog moves to the directory, with nothing selected. */
    method EnterDirectory(dir: Path, sortByDate: bool, entries: seq<DirEntry>)
      returns (result: bool, warnings: seq<string>, ghost collected: seq<PhotoMetadata>)
      requires exifDataManager.Valid() && mapDataManager.Valid()
      modifies this`notifications, exifDataManager, exifDataManager.photoDataList, mapDataManager
      ensures exifDataManager.Valid() && mapDataManager.Valid()
      ensures result <==> old(exifDataManager.currDirectory) != Some(dir)
      ensures exifDataManager.currDirectory == Some(dir) && exifDataManager.selectedPhotoData == null
      ensures EnteredCatalog(old(exifDataManager.State()), exifDataManager.State(), sortByDate, entries, collected, result)
      ensures result ==> fresh(collected) && fresh(exifDataManager.keywordExpression)
      ensures warnings == if result then ReadWarnings(entries) else []
      ensures mapDataManager.mapParamLookup == old(mapDataManager.mapParamLookup)
      ensures mapDataManager.params == if result then null else old(mapDataManager.params)
      ensures notifications == old(notifications) + if result then [Changed] else []
    {
      result := false;
      if Some(dir) != exifDataManager.currDirectory {
        var _ := SetMap(None, NoImage);
        result := true;
      }
      assert exifDataManager.State() == old(exifDataManager.State());
      warnings, collected := exifDataManager.SetCurrDirectory(dir, sortByDate, entries);
    }

    /** The selection selectPhoto leaves: with a file name, the photo of
        that name, or none when the catalog holds no such photo; without
        one, the first visible photo, or none when nothing is visible. */
    ghost predicate SelectedAfterLoad(fileName: Option<string>)
      reads exifDataManager, exifDataManager.photoDataList, exifDataManager.selectedPhotoData
    {
      var sel := exifDataManager.selectedPhotoData;
      var records := exifDataManager.photoDataList;
      && (fileName.Some? ==>
            && (sel == null <==> forall j :: 0 <= j < |records| ==> records[j].fileName != fileName.value)
            && (sel != null ==> sel.fileName == fileName.value
                                && forall j :: 0 <= j < sel.index && j < |records| ==> records[j].fileName != fileName.value))
      && (fileName.None? ==>
            && (sel == null <==> exifDataManager.visiblePhotoData == {})
            && (sel != null ==> FirstVisibleFrom(records, exifDataManager.visiblePhotoData, 0, sel.index)))
    }

    /** The selection step of selectPhoto(File, boolean), from a catalog
        with nothing selected. */
    method SelectAfterLoad(fileName: Option<string>) returns (f: Option<Path>)
      requires exifDataManager.Valid() && exifDataManager.selectedPhotoData == null
      modifies exifDataManager`selectedPhotoData
      ensures exifDataManager.Valid()
      ensures exifDataManager.State().(selected := null, selectedIndex := -1) == old(exifDataManager.State())
      ensures f == GetSelectedPhotoFile()
      ensures SelectedAfterLoad(fileName)
    {
      f := None;
      if fileName.Some? {
        f := exifDataManager.SelectPhoto(fileName.value);
      } else if |exifDataManager.visiblePhotoData| > 0 {
        f := exifDataManager.SelectFirstPhoto();
      }
    }

    /** setVisibility: the catalog shows the photos rated at least
        minRating whose keywords the expression accepts; observers are
        notified. */
    method SetVisibility(minRating: int, expression: KeywordExpression)
      requires Valid()
      modifies this`notifications, exifDataManager
      ensures Valid()
      ensures exifDataManager.minRating == minRating && exifDataManager.keywordExpression == expression
      ensures exifDataManager.filterClauses == expression.clauses
      ensures exifDataManager.visiblePhotoData == VisibleSet(exifDataManager.photoDataList, minRating, expression.clauses)
      ensures exifDataManager.photoDataList == old(exifDataManager.photoDataList)
      ensures exifDataManager.selectedPhotoData == old(exifDataManager.selectedPhotoData)
      ensures exifDataManager.currDirectory == old(exifDataManager.currDirectory)
      ensures exifDataManager.allKeywords == old(exifDataManager.allKeywords)
      ensures exifDataManager.keywordCounts == old(exifDataManager.keywordCounts)
      ensures notifications == old(notifications) + [Changed]
    {
      exifDataManager.SetVisibility(minRating, expression);
      notifications := notifications + [Changed];
    }

    /** changeOrder: the catalog sorted stably by date or by name; what is
        visible and what is selected stay the same. */
    method ChangeOrder(sortByDate: bool)
      requires Valid()
      modifies exifDataManager, exifDataManager.photoDataList
      ensures Valid()
      ensures exifDataManager.photoDataList == Sort(old(exifDataManager.photoDataList), Comparator(sortByDate))
      ensures Sorted(exifDataManager.photoDataList, Comparator(sortByDate))
      ensures exifDataManager.visiblePhotoData == old(exifDataManager.visiblePhotoData)
      ensures exifDataManager.selectedPhotoData == old(exifDataManager.selectedPhotoData)
      ensures exifDataManager.currDirectory == old(exifDataManager.currDirectory)
      ensures exifDataManager.minRating == old(exifDataManager.minRating)
      ensures exifDataManager.keywordExpression == old(exifDataManager.keywordExpression)
      ensures exifDataManager.filterClauses == old(exifDataManager.filterClauses)
      ensures exifDataManager.allKeywords == old(exifDataManager.allKeywords)
      ensures exifDataManager.keywordCounts == old(exifDataManager.keywordCounts)
    {
      ghost var before := exifDataManager.photoDataList;
      exifDataManager.ChangeOrder(sortByDate);
      CatalogPermutation(before, exifDataManager.photoDataList, exifDataManager.minRating,
                         exifDataManager.filterClauses, exifDataManager.selectedPhotoData,
                         exifDataManager.allKeywords, exifDataManager.keywordCounts);
    }

    /** selectFirstPhoto: selects the first visible photo and loads it. */
    method SelectFirstPhoto(outcome: ReadOutcome) returns (errors: seq<string>)
      requires Valid()
      modifies this`currImage, this`notifications, exifDataManager`selectedPhotoData
      ensures Valid()
      ensures var sel := exifDataManager.selectedPhotoData;
        && (sel == null <==> exifDataManager.visiblePhotoData == {})
        && (sel != null ==> FirstVisibleFrom(exifDataManager.photoDataList, exifDataManager.visiblePhotoData, 0, sel.index))
      ensures currImage == ShownImage(GetSelectedPhotoFile(), outcome)
      ensures errors == ImageErrors(GetSelectedPhotoFile(), outcome)
      ensures notifications == old(notifications) + [Changed]
    {
      var file := exifDataManager.SelectFirstPhoto();
      errors := LoadImage(file, outcome);
    }

    /** selectPhoto(IndexedGeoPoint): for a photo's position, selects the
        first photo of that name and loads it (no image when there is none
        of that name, the selection then staying as it was) and notifies;
        any other point is ignored. */
    method SelectPhotoAt(pos: GeoPoint, outcome: ReadOutcome) returns (errors: seq<string>)
      requires Valid()
      modifies this`currImage, this`notifications, exifDataManager`selectedPhotoData
      ensures Valid()
      ensures pos.OtherPosition? ==>
        && exifDataManager.selectedPhotoData == old(exifDataManager.selectedPhotoData)
        && currImage == old(currImage) && notifications == old(notifications) && errors == []
      ensures pos.PhotoPosition? ==>
        var records := exifDataManager.photoDataList;
        var found := exists j :: 0 <= j < |records| && records[j].fileName == pos.data.fileName;
        && (found ==> exifDataManager.selectedPhotoData != null
                      && exifDataManager.selectedPhotoData.fileName == pos.data.fileName
                      && (forall j :: 0 <= j < exifDataManager.selectedPhotoData.index ==>
                            records[j].fileName != pos.data.fileName)
                      && currImage == ShownImage(GetSelectedPhotoFile(), outcome)
                      && errors == ImageErrors(GetSelectedPhotoFile(), outcome))
        && (!found ==> exifDataManager.selectedPhotoData == old(exifDataManager.selectedPhotoData)
                       && currImage == None && errors == [])
        && notifications == old(notifications) + [Changed, Changed]
    {
      errors := [];
      if pos.PhotoPosition? {
        var f := exifDataManager.SelectPhoto(pos.data.fileName);
        errors := LoadImage(f, outcome);
        notifications := notifications + [Changed];
      }
    }

    /** selectPrevPhoto: the previous visible photo, wrapping around. */
    method SelectPrevPhoto(outcome: ReadOutcome) returns (errors: seq<string>)
      requires Valid()
      modifies this`currImage, this`notifications, exifDataManager`selectedPhotoData
      ensures Valid()
      ensures var sel := exifDataManager.selectedPhotoData;
        var records := exifDataManager.photoDataList;
        && (sel == null <==> exifDataManager.visiblePhotoData == {})
        && (sel != null ==> IsPreviousVisible(records, exifDataManager.visiblePhotoData,
                                              Start(old(exifDataManager.SelectedIndex()), |records|), sel.index))
      ensures currImage == ShownImage(GetSelectedPhotoFile(), outcome)
      ensures errors == ImageErrors(GetSelectedPhotoFile(), outcome)
      ensures notifications == old(notifications) + [Changed]
    {
      var file := exifDataManager.SelectPreviousPhoto();
      errors := LoadImage(file, outcome);
    }

    /** selectNextPhoto: the next visible photo, wrapping around. */
    method SelectNextPhoto(outcome: ReadOutcome) returns (errors: seq<string>)
      requires Valid()
      modifies this`currImage, this`notifications, exifDataManager`selectedPhotoData
      ensures Valid()
      ensures var sel := exifDataManager.selectedPhotoData;
        var records := exifDataManager.photoDataList;
        && (sel == null <==> exifDataManager.visiblePhotoData == {})
        && (sel != null ==> IsNextVisible(records, exifDataManager.visiblePhotoData,
                                          Start(old(exifDataManager.SelectedIndex()), |records|), sel.index))
      ensures currImage == ShownImage(GetSelectedPhotoFile(), outcome)
      ensures errors == ImageErrors(GetSelectedPhotoFile(), outcome)
      ensures notifications == old(notifications) + [Changed]
    {
      var file := exifDataManager.SelectNextPhoto();
      errors := LoadImage(file, outcome);
    }

    /** deleteSelectedPhoto: deletes the selected photo through the catalog
        (fileExists and deleteSucceeds stand for File.exists and
        File.delete), loads the image of whatever is selected afterwards
        and notifies. */
    method DeleteSelectedPhoto(fileExists: bool, deleteSucceeds: bool, outcome: ReadOutcome)
      returns (deleted: Option<Path>, errors: seq<string>)
      requires Valid()
      modifies this, exifDataManager, exifDataManager.photoDataList
      ensures Valid()
      ensures deleted.Some? <==> old(exifDataManager.selectedPhotoData) != null && fileExists && deleteSucceeds
      ensures deleted.None? ==> unchanged(exifDataManager) && unchanged(exifDataManager.photoDataList)
      ensures DeletedFromCatalog(old(exifDataManager.State()), exifDataManager.State(), deleted)
      ensures currImage == ShownImage(GetSelectedPhotoFile(), outcome)
      ensures errors == ImageErrors(GetSelectedPhotoFile(), outcome)
      ensures notifications == old(notifications) + [Changed] + [Changed]
    {
      deleted := exifDataManager.DeleteSelectedPhoto(fileExists, deleteSucceeds);
      errors := LoadImage(GetSelectedPhotoFile(), outcome);
      notifications := notifications + [Changed];
    }

    /** setMap: passes the file to the map data (outcome stands for
        ImageIO.read) and notifies. */
    method SetMap(mapFile: Option<Path>, outcome: ReadOutcome) returns (error: Option<string>)
      requires mapDataManager.Valid()
      modifies this`notifications, mapDataManager
      ensures mapDataManager.Valid()
      ensures mapFile.None? ==>
        mapDataManager.params == null
        && mapDataManager.mapParamLookup == old(mapDataManager.mapParamLookup) && error.None?
      ensures error.Some? <==> mapFile.Some? && outcome == ReadError
      ensures error.Some? ==> error.value == ReadErrorMessage(mapFile.value)
      ensures mapFile.Some? && outcome == Loaded ==>
        var known := old(FindParams(mapDataManager.mapParamLookup, mapFile.value));
        && mapDataManager.params != null && mapDataManager.params.file == mapFile.value
        && (known != null ==> mapDataManager.params == known && known.refPoints == old(known.refPoints)
                              && mapDataManager.mapParamLookup == old(mapDataManager.mapParamLookup))
        && (known == null ==> fresh(mapDataManager.params) && mapDataManager.params.refPoints == []
                              && mapDataManager.mapParamLookup
                                 == Sort<MapParams>(old(mapDataManager.mapParamLookup) + [mapDataManager.params], CompareParams))
      ensures mapFile.Some? && outcome != Loaded ==>
        var known := old(FindParams(mapDataManager.mapParamLookup, mapFile.value));
        && mapDataManager.params == null
        && (forall q | q in mapDataManager.mapParamLookup :: q.file != mapFile.value)
        && mapDataManager.mapParamLookup
           == (if known == null then old(mapDataManager.mapParamLookup)
               else RemoveFirst<MapParams>(old(mapDataManager.mapParamLookup), known))
      ensures notifications == old(notifications) + [Changed]
    {
      error := mapDataManager.SetMap(mapFile, outcome);
      notifications := notifications + [Changed];
    }

    /** clearCurrentMap: drops the current map and its table entry and
        notifies. */
    method ClearCurrentMap()
      requires Valid()
      modifies this`notifications, mapDataManager
      ensures Valid()
      ensures mapDataManager.params == null && !mapDataManager.hasImage
      ensures old(mapDataManager.params) != null ==>
        mapDataManager.mapParamLookup
          == RemoveFirst<MapParams>(old(mapDataManager.mapParamLookup), old(mapDataManager.params))
      ensures old(mapDataManager.params) == null ==>
        mapDataManager.mapParamLookup == old(mapDataManager.mapParamLookup)
      ensures notifications == old(notifications) + [Changed]
    {
      mapDataManager.ClearCurrentMap();
      notifications := notifications + [Changed];
    }

    /** exportPhotos: a fresh exporter set to the directory and template
        copies the photos; `copied` tells which copies succeed. Returns the
        number copied, the copy calls and the warnings. */
    method ExportPhotos(photos: seq<Path>, destDir: Path, template: Option<string>, copied: seq<bool>)
      returns (count: int, copies: seq<(Path, Path)>, warnings: seq<string>)
      requires |copied| == |photos|
      requires template.Some? ==> TemplateAccepted(template.value)
      ensures count == CountCopied(copied)
      ensures var (prefix, width, start, suffix) := ExportSettings(template, |photos|);
        copies == CopyPlan(Some(destDir), prefix, width, start, suffix, photos)
      ensures warnings == CopyWarnings(photos, copied)
    {
      var exporter := new PhotoExporter();
      exporter.SetDestination(destDir, template);
      count, copies, warnings := exporter.CopyFiles(photos, copied);
    }
  }

}
