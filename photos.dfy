/** PhotoMetadata: the record the catalog keeps for each photo file, and the
    two orders in which the catalog can list the records. */
module Photos {
  import opened Options
  import opened JavaStrings
  import opened Lists

  /** An EXIF date as milliseconds since the epoch, as java.util.Date keeps it. */
  type Date = int

  datatype GeoLocation = GeoLocation(latitude: real, longitude: real)

  /** The values the metadata library extracted from one file: the original
      date, the camera model, the orientation tag, the GPS location, the IPTC
      caption and keywords, and the XMP rating. Reading them is not part of
      this model; None stands for a missing directory or tag. */
  datatype Tags = Tags(
    date: Option<Date>,
    model: Option<string>,
    orientation: int,
    location: Option<GeoLocation>,
    caption: Option<string>,
    keywords: Option<seq<string>>,
    rating: int)

  class PhotoMetadata {
    /** Position in the catalog's current order; the catalog rewrites it. */
    var index: int
    const fileName: string
    const caption: Option<string>
    const rating: int
    const date: Option<Date>
    const model: Option<string>
    const orientation: int
    /** None where the source keeps NaN: no latitude known. */
    const lat: Option<real>
    /** None where the source keeps NaN: no longitude known. */
    const lon: Option<real>
    const keywords: seq<string>

    /** The record for a file whose metadata could not be read: only the file
        name is known; everything else has its default. */
    constructor (fileName: string)
      ensures IsBare(this, fileName) && index == 0
    {
      this.fileName := fileName;
      caption := None;
      rating := 0;
      date := None;
      model := None;
      orientation := 0;
      lat := None;
      lon := None;
      keywords := [];
      index := 0;
    }

    /** The record the metadata-reading constructor builds from the
        extracted tags: missing keywords stay empty, a missing location
        leaves both coordinates unknown. */
    constructor FromTags(fileName: string, tags: Tags)
      ensures HasTags(this, fileName, tags) && index == 0
    {
      this.fileName := fileName;
      caption := tags.caption;
      rating := tags.rating;
      date := tags.date;
      model := tags.model;
      orientation := tags.orientation;
      lat := if tags.location.Some? then Some(tags.location.value.latitude) else None;
      lon := if tags.location.Some? then Some(tags.location.value.longitude) else None;
      keywords := if tags.keywords.Some? then tags.keywords.value else [];
      index := 0;
    }
  }

  /** The field values of a record built from a file name alone. */
  predicate IsBare(r: PhotoMetadata, fileName: string)
  {
    && r.fileName == fileName && r.keywords == [] && r.lat.None? && r.lon.None?
    && r.rating == 0 && r.date.None? && r.caption.None? && r.model.None? && r.orientation == 0
  }

  /** The field values of a record built from extracted tags. */
  predicate HasTags(r: PhotoMetadata, fileName: string, tags: Tags)
  {
    && r.fileName == fileName && r.caption == tags.caption && r.rating == tags.rating
    && r.date == tags.date && r.model == tags.model && r.orientation == tags.orientation
    && r.lat == (if tags.location.Some? then Some(tags.location.value.latitude) else None)
    && r.lon == (if tags.location.Some? then Some(tags.location.value.longitude) else None)
    && r.keywords == (if tags.keywords.Some? then tags.keywords.value else [])
  }

  /** getOrientation(PhotoMetadata): 0 for no record. */
  function GetOrientation(data: PhotoMetadata?): (r: int)
    ensures data == null ==> r == 0
    ensures data != null ==> r == data.orientation
  {
    if data == null then 0 else data.orientation
  }

  /** SortByFileNameComparator. */
  function CompareByFileName(a: PhotoMetadata, b: PhotoMetadata): int
  {
    CompareTo(a.fileName, b.fileName)
  }

  /** Date.compareTo. */
  function CompareDates(d1: Date, d2: Date): int
  {
    if d1 < d2 then -1 else if d1 == d2 then 0 else 1
  }

  /** SortByDateComparator: dated records by date, dated before undated,
      undated ones by file name. */
  function CompareByDate(a: PhotoMetadata, b: PhotoMetadata): int
  {
    if a.date.Some? && b.date.Some? then CompareDates(a.date.value, b.date.value)
    else if a.date.Some? then -1
    else if b.date.Some? then 1
    else CompareTo(a.fileName, b.fileName)
  }

  /** The comparator changeOrder picks. */
  function Comparator(sortByDate: bool): (PhotoMetadata, PhotoMetadata) -> int
  {
    if sortByDate then CompareByDate else CompareByFileName
  }

  /** The file-name order is the lexicographic order of the names, and it
      ties only records with the same name. */
  lemma FileNameOrderMeaning(a: PhotoMetadata, b: PhotoMetadata)
    ensures CompareByFileName(a, b) < 0 <==> LexLess(a.fileName, b.fileName)
    ensures CompareByFileName(a, b) == 0 <==> a.fileName == b.fileName
  {
    CompareToNegative(a.fileName, b.fileName);
    CompareToZero(a.fileName, b.fileName);
  }

  /** The date order: a dated record comes first whichever side it is on,
      two undated records go by name, two dated records go by date alone and
      tie exactly when the dates are equal, whatever their names. */
  lemma DateOrderMeaning(a: PhotoMetadata, b: PhotoMetadata)
    ensures a.date.Some? && b.date.None? ==> CompareByDate(a, b) < 0 && CompareByDate(b, a) > 0
    ensures a.date.None? && b.date.None? ==> CompareByDate(a, b) == CompareByFileName(a, b)
    ensures a.date.Some? && b.date.Some? ==>
      (CompareByDate(a, b) < 0 <==> a.date.value < b.date.value)
      && (CompareByDate(a, b) == 0 <==> a.date == b.date)
  {
  }

  /** Both comparators are total preorders on any list of records, as
      Collections.sort requires. */
  lemma {:induction false} ComparatorIsPreorder(sortByDate: bool, s: seq<PhotoMetadata>)
    ensures TotalPreorder(s, Comparator(sortByDate))
  {
    var cmp := Comparator(sortByDate);
    forall a, b | a in s && b in s ensures cmp(a, b) > 0 <==> cmp(b, a) < 0 {
      CompareToAntisymmetric(a.fileName, b.fileName);
    }
    forall a, b, c | a in s && b in s && c in s && cmp(a, b) <= 0 && cmp(b, c) <= 0
      ensures cmp(a, c) <= 0
    {
      if !sortByDate || (a.date.None? && b.date.None? && c.date.None?) {
        CompareToTransitive(a.fileName, b.fileName, c.fileName);
      }
    }
  }


  /** changeOrder leaves the records in order under the chosen comparator. */
  lemma ChangeOrderSorts(sortByDate: bool, s: seq<PhotoMetadata>)
    ensures Sorted(Sort(s, Comparator(sortByDate)), Comparator(sortByDate))
  {
    ComparatorIsPreorder(sortByDate, s);
    SortSorted(s, Comparator(sortByDate));
  }

  /** changeOrder is stable: records the comparator ties (same name, or
      same date) keep their relative order. */
  lemma ChangeOrderIsStable(sortByDate: bool, s: seq<PhotoMetadata>, k: PhotoMetadata)
    ensures Equivalents(Sort(s, Comparator(sortByDate)), k, Comparator(sortByDate))
         == Equivalents(s, k, Comparator(sortByDate))
  {
    ComparatorIsPreorder(sortByDate, s + [k]);
    SortStable(s, k, Comparator(sortByDate));
  }

}
