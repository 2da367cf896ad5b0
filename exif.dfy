/** ExifDataManager: the catalog of the photos in the current directory, with
    their order, the visibility filter, the selection and the keyword
    statistics. */
module Exif {
  import opened Options
  import opened JavaStrings
  import opened Files
  import opened Lists
  import opened Keywords
  import opened Photos

  /** One file of a directory listing, as the environment reports it: its
      name, the tags the metadata reader extracted (None when the reader
      failed on it), and whether an image reader is registered for its
      extension. */
  datatype DirEntry = DirEntry(name: string, tags: Option<Tags>, isImageFormat: bool)

  /** The files collectMetadata keeps: those whose metadata could be read,
      and, among the others, those with an image format. */
  function KeptEntries(entries: seq<DirEntry>): (r: seq<DirEntry>)
    ensures |r| <= |entries|
    ensures forall e | e in r :: e in entries && (e.tags.Some? || e.isImageFormat)
  {
    if entries == [] then []
    else
      var e := entries[|entries| - 1];
      KeptEntries(entries[..|entries| - 1]) + (if e.tags.Some? || e.isImageFormat then [e] else [])
  }

  /** The warning reported for a photo whose metadata could not be read. */
  function ReadWarning(name: string): string
  {
    "Could not read metadata of file " + name + "."
  }

  /** The warnings collectMetadata reports, in listing order. */
  function ReadWarnings(entries: seq<DirEntry>): (r: seq<string>)
    ensures |r| <= |entries|
  {
    if entries == [] then []
    else
      var e := entries[|entries| - 1];
      ReadWarnings(entries[..|entries| - 1]) + (if UnreadableImage(e) then [ReadWarning(e.name)] else [])
  }

  /** An entry collectMetadata warns about: an image whose metadata could
      not be read. */
  predicate UnreadableImage(e: DirEntry)
  {
    e.tags.None? && e.isImageFormat
  }

  /** The positions of the listing that hold such entries. */
  function UnreadablePositions(entries: seq<DirEntry>): set<int>
  {
    set i | 0 <= i < |entries| && UnreadableImage(entries[i])
  }

  /** There is one warning per unreadable image of the listing, each one
      naming such an entry, and every such entry is warned about. */
  lemma ReadWarningsMeaning(entries: seq<DirEntry>)
    ensures |ReadWarnings(entries)| == |UnreadablePositions(entries)|
    ensures forall w | w in ReadWarnings(entries) :: exists e | e in entries :: UnreadableImage(e) && w == ReadWarning(e.name)
    ensures forall e | e in entries && UnreadableImage(e) :: ReadWarning(e.name) in ReadWarnings(entries)
  {
    ReadWarningsCount(entries);
    ReadWarningsNamed(entries);
    ReadWarningsCover(entries);
  }

  lemma {:induction false} ReadWarningsCount(entries: seq<DirEntry>)
    ensures |ReadWarnings(entries)| == |UnreadablePositions(entries)|
  {
    if entries != [] {
      ReadWarningsCount(entries[..|entries| - 1]);
      PositionsStep(entries);
    }
  }

  lemma PositionsStep(entries: seq<DirEntry>)
    requires entries != []
    ensures var n := |entries| - 1;
      && n !in UnreadablePositions(entries[..n])
      && UnreadablePositions(entries)
         == UnreadablePositions(entries[..n]) + if UnreadableImage(entries[n]) then {n} else {}
  {
    var n := |entries| - 1;
    var init := entries[..n];
    forall i | 0 <= i < n ensures init[i] == entries[i] { }
  }

  lemma {:induction false} ReadWarningsNamed(entries: seq<DirEntry>)
    ensures forall w | w in ReadWarnings(entries) :: exists e | e in entries :: UnreadableImage(e) && w == ReadWarning(e.name)
  {
    if entries != [] {
      var init, last := entries[..|entries| - 1], entries[|entries| - 1];
      ReadWarningsNamed(init);
      forall w | w in ReadWarnings(entries)
        ensures exists e | e in entries :: UnreadableImage(e) && w == ReadWarning(e.name)
      {
        if w in ReadWarnings(init) {
          var e :| e in init && UnreadableImage(e) && w == ReadWarning(e.name);
          assert e in entries;
        } else {
          assert UnreadableImage(last) && w == ReadWarning(last.name);
        }
      }
    }
  }

  lemma {:induction false} ReadWarningsCover(entries: seq<DirEntry>)
    ensures forall e | e in entries && UnreadableImage(e) :: ReadWarning(e.name) in ReadWarnings(entries)
  {
    if entries != [] {
      var init, last := entries[..|entries| - 1], entries[|entries| - 1];
      assert entries == init + [last];
      ReadWarningsCover(init);
    }
  }

  lemma ReadWarningsStep(entries: seq<DirEntry>, i: int)
    requires 0 <= i < |entries|
    ensures ReadWarnings(entries[..i + 1]) == ReadWarnings(entries[..i]) +
      if entries[i].tags.None? && entries[i].isImageFormat then [ReadWarning(entries[i].name)] else []
  {
    assert entries[..i + 1][..i] == entries[..i];
  }

  /** The record built for a kept entry. */
  predicate Describes(r: PhotoMetadata, e: DirEntry)
  {
    if e.tags.Some? then HasTags(r, e.name, e.tags.value) else IsBare(r, e.name)
  }

  /** How often k occurs in one keyword list. */
  function Count(k: string, keywords: seq<string>): (c: nat)
    ensures c <= |keywords|
    ensures c > 0 <==> k in keywords
  {
    if keywords == [] then 0
    else Count(k, keywords[..|keywords| - 1]) + (if keywords[|keywords| - 1] == k then 1 else 0)
  }

  /** How often k occurs over the keyword lists of all records. */
  function Occurrences(k: string, records: seq<PhotoMetadata>): nat
  {
    if records == [] then 0
    else Occurrences(k, records[..|records| - 1]) + Count(k, records[|records| - 1].keywords)
  }

  lemma {:induction false} OccurrencesConcat(k: string, a: seq<PhotoMetadata>, b: seq<PhotoMetadata>)
    ensures Occurrences(k, a + b) == Occurrences(k, a) + Occurrences(k, b)
  {
    if b == [] {
      assert a + b == a;
    } else {
      assert (a + b)[..|a + b| - 1] == a + b[..|b| - 1];
      OccurrencesConcat(k, a, b[..|b| - 1]);
    }
  }

  /** A keyword occurs in the catalog exactly when some record carries it. */
  lemma {:induction false} OccurrencesPositive(k: string, records: seq<PhotoMetadata>)
    ensures Occurrences(k, records) > 0 <==> exists r :: r in records && k in r.keywords
  {
    if records != [] {
      var p := records[..|records| - 1];
      OccurrencesPositive(k, p);
      assert records == p + [records[|records| - 1]];
      if exists r :: r in records && k in r.keywords {
        var r :| r in records && k in r.keywords;
        if r != records[|records| - 1] {
          assert r in p;
        }
      }
    }
  }

  /** Removing the record at position i removes exactly its keywords from
      the statistics. */
  lemma OccurrencesRemove(k: string, s: seq<PhotoMetadata>, i: int)
    requires 0 <= i < |s|
    ensures Occurrences(k, s[..i] + s[i + 1..]) == Occurrences(k, s) - Count(k, s[i].keywords)
  {
    assert s == s[..i] + [s[i]] + s[i + 1..];
    OccurrencesConcat(k, s[..i], s[i + 1..]);
    OccurrencesConcat(k, s[..i] + [s[i]], s[i + 1..]);
    OccurrencesConcat(k, s[..i], [s[i]]);
    assert [s[i]][..0] == [];
  }

  /** The keyword statistics do not depend on the order of the records. */
  lemma {:induction false} OccurrencesPermutation(k: string, a: seq<PhotoMetadata>, b: seq<PhotoMetadata>)
    requires multiset(a) == multiset(b)
    ensures Occurrences(k, a) == Occurrences(k, b)
  {
    if a != [] {
      var x, a' := a[|a| - 1], a[..|a| - 1];
      assert a == a' + [x];
      assert x in multiset(b);
      var i :| 0 <= i < |b| && b[i] == x;
      MultisetRemoveAt(b, i);
      MultisetRemoveAt(a, |a| - 1);
      OccurrencesPermutation(k, a', b[..i] + b[i + 1..]);
      OccurrencesRemove(k, b, i);
    }
  }

  /** Keywords in strictly ascending CompareTo order (String.compareTo). */
  ghost predicate StrictlySorted(keywords: seq<string>)
  {
    forall i, j :: 0 <= i < j < |keywords| ==> CompareTo(keywords[i], keywords[j]) < 0
  }

  lemma StrictlySortedDistinct(keywords: seq<string>)
    requires StrictlySorted(keywords)
    ensures Distinct(keywords)
  {
    forall i, j | 0 <= i < j < |keywords| ensures keywords[i] != keywords[j] {
      CompareToZero(keywords[i], keywords[j]);
    }
  }

  /** CompareTo is a total preorder on any list of strings. */
  lemma StringOrderIsPreorder(u: seq<string>)
    ensures TotalPreorder(u, CompareTo)
  {
    forall a, b | a in u && b in u ensures CompareTo(a, b) > 0 <==> CompareTo(b, a) < 0 {
      CompareToAntisymmetric(a, b);
    }
    forall a, b, c | a in u && b in u && c in u && CompareTo(a, b) <= 0 && CompareTo(b, c) <= 0
      ensures CompareTo(a, c) <= 0
    {
      CompareToTransitive(a, b, c);
    }
  }

  /** Sorting distinct strings gives a strictly ascending list. */
  lemma SortDistinctStrings(keys: seq<string>)
    requires Distinct(keys)
    ensures StrictlySorted(Sort(keys, CompareTo))
  {
    var t := Sort(keys, CompareTo);
    StringOrderIsPreorder(keys);
    SortSorted(keys, CompareTo);
    StringOrderIsPreorder(t);
    SortedIsPairwise(t, CompareTo);
    DistinctPermutation(keys, t);
    forall i, j | 0 <= i < j < |t| ensures CompareTo(t[i], t[j]) < 0 {
      CompareToZero(t[i], t[j]);
    }
  }

  /** The keyword list and the counts describe the records: one count per
      keyword, each the number of occurrences of its keyword, and every
      keyword some record carries is listed. */
  ghost predicate KeywordsCounted(records: seq<PhotoMetadata>, keywords: seq<string>, counts: seq<int>)
  {
    && |counts| == |keywords|
    && (forall i :: 0 <= i < |keywords| ==> counts[i] == Occurrences(keywords[i], records))
    && (forall k :: Occurrences(k, records) > 0 ==> k in keywords)
  }

  /** Every listed keyword is carried by some record, as the keys of
      collectMetadata's table are. */
  ghost predicate KeywordsOccur(records: seq<PhotoMetadata>, keywords: seq<string>)
  {
    forall i :: 0 <= i < |keywords| ==> Occurrences(keywords[i], records) > 0
  }

  lemma KeywordsOccurPermutation(a: seq<PhotoMetadata>, b: seq<PhotoMetadata>, keywords: seq<string>)
    requires multiset(a) == multiset(b) && KeywordsOccur(a, keywords)
    ensures KeywordsOccur(b, keywords)
  {
    forall i | 0 <= i < |keywords| ensures Occurrences(keywords[i], b) > 0 {
      OccurrencesPermutation(keywords[i], a, b);
    }
  }

  lemma KeywordsCountedPermutation(a: seq<PhotoMetadata>, b: seq<PhotoMetadata>, keywords: seq<string>, counts: seq<int>)
    requires multiset(a) == multiset(b) && KeywordsCounted(a, keywords, counts)
    ensures KeywordsCounted(b, keywords, counts)
  {
    forall k ensures Occurrences(k, a) == Occurrences(k, b) {
      OccurrencesPermutation(k, a, b);
    }
  }

  /** The filter of setVisibility: rating at least minRating and keywords
      accepted by the expression. */
  predicate Passes(r: PhotoMetadata, minRating: int, clauses: seq<Clause>)
  {
    r.rating >= minRating && Accepts(clauses, r.keywords)
  }

  /** The records the filter lets through. */
  function VisibleSet(records: seq<PhotoMetadata>, minRating: int, clauses: seq<Clause>): set<PhotoMetadata>
  {
    set r | r in records && Passes(r, minRating, clauses)
  }

  /** The filter of a fresh directory (rating 0, empty expression) hides
      exactly the records rated below 0. */
  lemma DefaultFilter(records: seq<PhotoMetadata>)
    ensures VisibleSet(records, 0, [[]]) == set r | r in records && r.rating >= 0
  {
    forall r | r in records ensures Accepts([[]], r.keywords) {
      EmptyExpressionAcceptsAll(r.keywords);
    }
  }

  /** Every record knows its position. */
  ghost predicate Indexed(records: seq<PhotoMetadata>)
    reads records
  {
    forall i :: 0 <= i < |records| ==> records[i].index == i
  }

  lemma IndexedDistinct(records: seq<PhotoMetadata>)
    requires Indexed(records)
    ensures Distinct(records)
  {
  }

  /** The file the catalog hands out for a record: new File(dir, name),
      which is the bare name when there is no directory. */
  function PathOf(dir: Option<Path>, name: string): (p: Path)
    ensures dir.Some? && Separator !in name ==> ParentOf(p) == dir && NameOf(p) == name
  {
    if dir.None? then name
    else if Separator !in name then
      SplitJoin(dir.value, name);
      Join(dir.value, name)
    else Join(dir.value, name)
  }

  /** The records of the visible set, in catalog order. */
  function VisibleInOrder(records: seq<PhotoMetadata>, visible: set<PhotoMetadata>): seq<PhotoMetadata>
  {
    if records == [] then []
    else
      var x := records[|records| - 1];
      VisibleInOrder(records[..|records| - 1], visible) + (if x in visible then [x] else [])
  }

  /** Only visible records of the list are listed. */
  lemma {:induction false} VisibleInOrderMembers(records: seq<PhotoMetadata>, visible: set<PhotoMetadata>)
    ensures forall x | x in VisibleInOrder(records, visible) :: x in records && x in visible
  {
    if records != [] {
      var p := records[..|records| - 1];
      VisibleInOrderMembers(p, visible);
      forall x | x in p ensures x in records {
        var j :| 0 <= j < |p| && p[j] == x;
        assert records[j] == x;
      }
    }
  }

  lemma VisibleInOrderStep(records: seq<PhotoMetadata>, visible: set<PhotoMetadata>, i: int)
    requires 0 <= i < |records|
    ensures records[i] in visible ==>
      VisibleInOrder(records[..i + 1], visible) == VisibleInOrder(records[..i], visible) + [records[i]]
    ensures records[i] !in visible ==>
      VisibleInOrder(records[..i + 1], visible) == VisibleInOrder(records[..i], visible)
  {
    assert records[..i + 1][..i] == records[..i];
    assert VisibleInOrder(records[..i], visible) + [] == VisibleInOrder(records[..i], visible);
  }

  /** getVisiblePhotos lists each visible record once: their number is the
      visible-photo count. */
  lemma {:induction false} VisibleInOrderCount(records: seq<PhotoMetadata>, visible: set<PhotoMetadata>)
    requires Distinct(records)
    ensures |VisibleInOrder(records, visible)| == |set x | x in records && x in visible|
  {
    if records != [] {
      var p, x := records[..|records| - 1], records[|records| - 1];
      assert Distinct(p);
      VisibleInOrderCount(p, visible);
      var below := set y | y in p && y in visible;
      assert x !in p;
      if x in visible {
        assert (set y | y in records && y in visible) == below + {x};
      } else {
        assert (set y | y in records && y in visible) == below;
      }
    }
  }

  /** The files of a list of records. */
  function PathsOf(dir: Option<Path>, records: seq<PhotoMetadata>): (r: seq<Path>)
    ensures |r| == |records|
  {
    if records == [] then []
    else PathsOf(dir, records[..|records| - 1]) + [PathOf(dir, records[|records| - 1].fileName)]
  }

  /** The i-th file is the file of the i-th record. */
  lemma {:induction false} PathsOfAt(dir: Option<Path>, records: seq<PhotoMetadata>, i: int)
    requires 0 <= i < |records|
    ensures PathsOf(dir, records)[i] == PathOf(dir, records[i].fileName)
  {
    if i < |records| - 1 {
      PathsOfAt(dir, records[..|records| - 1], i);
    }
  }

  lemma PathsOfStep(dir: Option<Path>, records: seq<PhotoMetadata>, x: PhotoMetadata)
    ensures PathsOf(dir, records + [x]) == PathsOf(dir, records) + [PathOf(dir, x.fileName)]
  {
    assert (records + [x])[..|records|] == records;
  }

  // Cyclic navigation. Positions are 0 .. n-1; a scan starts at a position
  // s and steps through the others, wrapping around, and reaches s itself
  // last.

  /** The position a scan starts from: the selected one, or the last one
      when nothing is selected (both scans then behave exactly as if the
      last record were selected). */
  function Start(curr: int, n: nat): int
  {
    if curr == -1 then n - 1 else curr
  }

  /** Steps a forward scan from s needs to reach q (n for q == s). */
  function ForwardDistance(s: int, q: int, n: int): int
  {
    if q > s then q - s else q - s + n
  }

  /** Steps a backward scan from s needs to reach q (n for q == s). */
  function BackwardDistance(s: int, q: int, n: int): int
  {
    if q < s then s - q else s - q + n
  }

  /** p is the first visible position a forward scan from s reaches. */
  ghost predicate IsNextVisible(records: seq<PhotoMetadata>, visible: set<PhotoMetadata>, s: int, p: int)
  {
    && 0 <= p < |records| && records[p] in visible
    && forall q :: 0 <= q < |records| && records[q] in visible ==>
         ForwardDistance(s, p, |records|) <= ForwardDistance(s, q, |records|)
  }

  /** p is the first visible position a backward scan from s reaches. */
  ghost predicate IsPreviousVisible(records: seq<PhotoMetadata>, visible: set<PhotoMetadata>, s: int, p: int)
  {
    && 0 <= p < |records| && records[p] in visible
    && forall q :: 0 <= q < |records| && records[q] in visible ==>
         BackwardDistance(s, p, |records|) <= BackwardDistance(s, q, |records|)
  }

  lemma ModInRange(x: int, n: int)
    requires 0 < n && -n <= x < 2 * n
    ensures x % n == if x < 0 then x + n else if x < n then x else x - n
  {
  }


  /** Some position holds a visible record. */
  ghost predicate HasVisible(records: seq<PhotoMetadata>, visible: set<PhotoMetadata>)
  {
    exists q :: 0 <= q < |records| && records[q] in visible
  }

  /** The state of a forward scan from s after `steps` steps: it stands at
      pos, and no position it passed holds a visible record. */
  ghost predicate ForwardScanned(records: seq<PhotoMetadata>, visible: set<PhotoMetadata>, s: int, pos: int, steps: int)
  {
    && 0 <= s < |records| && 0 <= pos < |records| && 1 <= steps <= |records|
    && ForwardDistance(s, pos, |records|) == steps
    && forall q :: 0 <= q < |records| && ForwardDistance(s, q, |records|) < steps ==> records[q] !in visible
  }

  lemma ForwardScanBegins(records: seq<PhotoMetadata>, visible: set<PhotoMetadata>, s: int)
    requires 0 <= s < |records|
    ensures ForwardScanned(records, visible, s, (s + 1) % |records|, 1)
  {
    ModInRange(s + 1, |records|);
  }

  /** While some record is visible, a scan that stands on an invisible one
      has not gone round yet, and its next step keeps the scan state. */
  lemma ForwardScanStep(records: seq<PhotoMetadata>, visible: set<PhotoMetadata>, s: int, pos: int, steps: int)
    requires ForwardScanned(records, visible, s, pos, steps) && HasVisible(records, visible)
    requires records[pos] !in visible
    ensures steps < |records|
    ensures ForwardScanned(records, visible, s, (pos + 1) % |records|, steps + 1)
  {
    var q0 :| 0 <= q0 < |records| && records[q0] in visible;
    ModInRange(pos + 1, |records|);
  }

  /** A scan that stops on a visible record, or back at its start, has found
      the next visible position. */
  lemma ForwardScanStops(records: seq<PhotoMetadata>, visible: set<PhotoMetadata>, s: int, pos: int, steps: int)
    requires ForwardScanned(records, visible, s, pos, steps) && HasVisible(records, visible)
    requires pos == s || records[pos] in visible
    ensures IsNextVisible(records, visible, s, pos)
  {
    var q0 :| 0 <= q0 < |records| && records[q0] in visible;
  }

  /** The state of a backward scan from s after `steps` steps. */
  ghost predicate BackwardScanned(records: seq<PhotoMetadata>, visible: set<PhotoMetadata>, s: int, pos: int, steps: int)
  {
    && 0 <= s < |records| && 0 <= pos < |records| && 1 <= steps <= |records|
    && BackwardDistance(s, pos, |records|) == steps
    && forall q :: 0 <= q < |records| && BackwardDistance(s, q, |records|) < steps ==> records[q] !in visible
  }

  lemma BackwardScanBegins(records: seq<PhotoMetadata>, visible: set<PhotoMetadata>, s: int)
    requires 0 <= s < |records|
    ensures BackwardScanned(records, visible, s, (s - 1 + |records|) % |records|, 1)
  {
    ModInRange(s - 1 + |records|, |records|);
  }

  lemma BackwardScanStep(records: seq<PhotoMetadata>, visible: set<PhotoMetadata>, s: int, pos: int, steps: int)
    requires BackwardScanned(records, visible, s, pos, steps) && HasVisible(records, visible)
    requires records[pos] !in visible
    ensures steps < |records|
    ensures BackwardScanned(records, visible, s, (pos - 1 + |records|) % |records|, steps + 1)
  {
    var q0 :| 0 <= q0 < |records| && records[q0] in visible;
    ModInRange(pos - 1 + |records|, |records|);
  }

  lemma BackwardScanStops(records: seq<PhotoMetadata>, visible: set<PhotoMetadata>, s: int, pos: int, steps: int)
    requires BackwardScanned(records, visible, s, pos, steps) && HasVisible(records, visible)
    requires pos == s || records[pos] in visible
    ensures IsPreviousVisible(records, visible, s, pos)
  {
    var q0 :| 0 <= q0 < |records| && records[q0] in visible;
  }

  /** Whenever a record is visible, a next visible position exists. */
  lemma {:induction false} NextVisibleExists(records: seq<PhotoMetadata>, visible: set<PhotoMetadata>, s: int)
    requires 0 <= s < |records| && HasVisible(records, visible)
    ensures exists p :: IsNextVisible(records, visible, s, p)
  {
    var n := |records|;
    var pos, steps := (s + 1) % n, 1;
    ForwardScanBegins(records, visible, s);
    while pos != s && records[pos] !in visible
      invariant ForwardScanned(records, visible, s, pos, steps)
      decreases n - steps
    {
      ForwardScanStep(records, visible, s, pos, steps);
      pos, steps := (pos + 1) % n, steps + 1;
    }
    ForwardScanStops(records, visible, s, pos, steps);
  }

  /** Whenever a record is visible, a previous visible position exists. */
  lemma {:induction false} PreviousVisibleExists(records: seq<PhotoMetadata>, visible: set<PhotoMetadata>, s: int)
    requires 0 <= s < |records| && HasVisible(records, visible)
    ensures exists p :: IsPreviousVisible(records, visible, s, p)
  {
    var n := |records|;
    var pos, steps := (s - 1 + n) % n, 1;
    BackwardScanBegins(records, visible, s);
    while pos != s && records[pos] !in visible
      invariant BackwardScanned(records, visible, s, pos, steps)
      decreases n - steps
    {
      BackwardScanStep(records, visible, s, pos, steps);
      pos, steps := (pos - 1 + n) % n, steps + 1;
    }
    BackwardScanStops(records, visible, s, pos, steps);
  }

  /** The next and the previous visible positions are unique. */
  lemma NavigationIsDeterministic(records: seq<PhotoMetadata>, visible: set<PhotoMetadata>, s: int, p1: int, p2: int)
    requires 0 <= s < |records|
    ensures IsNextVisible(records, visible, s, p1) && IsNextVisible(records, visible, s, p2) ==> p1 == p2
    ensures IsPreviousVisible(records, visible, s, p1) && IsPreviousVisible(records, visible, s, p2) ==> p1 == p2
  {
  }

  /** A scan comes back to where it started only when that is the only
      visible record. */
  lemma StaysOnlyWhenAlone(records: seq<PhotoMetadata>, visible: set<PhotoMetadata>, s: int)
    requires 0 <= s < |records|
    ensures IsNextVisible(records, visible, s, s) ==> forall q :: 0 <= q < |records| && records[q] in visible ==> q == s
    ensures IsPreviousVisible(records, visible, s, s) ==> forall q :: 0 <= q < |records| && records[q] in visible ==> q == s
  {
  }

  /** p is the first visible position at or after c. */
  ghost predicate FirstVisibleFrom(records: seq<PhotoMetadata>, visible: set<PhotoMetadata>, c: int, p: int)
  {
    0 <= c <= p < |records| && records[p] in visible && forall q :: c <= q < p ==> records[q] !in visible
  }

  /** selectFirstPhoto: from no selection the forward scan finds the first
      visible record of the list. */
  lemma FirstPhotoIsFirstVisible(records: seq<PhotoMetadata>, visible: set<PhotoMetadata>, p: int)
    requires |records| > 0
    ensures IsNextVisible(records, visible, Start(-1, |records|), p) <==> FirstVisibleFrom(records, visible, 0, p)
  {
  }

  /** selectPreviousPhoto from no selection: the backward scan starts as if
      the last record were selected, so it finds the last visible record
      before the last position, and lands on the last position only when
      no other record is visible. */
  lemma PreviousFromNoSelection(records: seq<PhotoMetadata>, visible: set<PhotoMetadata>, p: int)
    requires |records| > 0 && IsPreviousVisible(records, visible, Start(-1, |records|), p)
    ensures (exists q :: 0 <= q < |records| - 1 && records[q] in visible) ==>
      p < |records| - 1 && forall q :: p < q < |records| - 1 ==> records[q] !in visible
    ensures (forall q :: 0 <= q < |records| - 1 ==> records[q] !in visible) ==> p == |records| - 1
  {
  }


  lemma VisibleSetPermutation(a: seq<PhotoMetadata>, b: seq<PhotoMetadata>, minRating: int, clauses: seq<Clause>)
    requires multiset(a) == multiset(b)
    ensures VisibleSet(a, minRating, clauses) == VisibleSet(b, minRating, clauses)
  {
    forall r ensures r in a <==> r in b {
      assert r in a <==> r in multiset(a);
      assert r in b <==> r in multiset(b);
    }
  }

  /** records are the records collectMetadata builds for entries: one per
      kept entry, in listing order, each describing its entry. */
  ghost predicate Built(records: seq<PhotoMetadata>, entries: seq<DirEntry>)
  {
    if entries == [] then records == []
    else
      var e, rest := entries[|entries| - 1], entries[..|entries| - 1];
      if e.tags.Some? || e.isImageFormat then
        && records != []
        && Describes(records[|records| - 1], e)
        && Built(records[..|records| - 1], rest)
      else Built(records, rest)
  }

  /** Built, position by position: the i-th record describes the i-th
      kept entry. */
  lemma {:induction false} BuiltDescribesKept(records: seq<PhotoMetadata>, entries: seq<DirEntry>)
    requires Built(records, entries)
    ensures |records| == |KeptEntries(entries)|
    ensures forall i :: 0 <= i < |records| ==> Describes(records[i], KeptEntries(entries)[i])
  {
    if entries != [] {
      var e, rest := entries[|entries| - 1], entries[..|entries| - 1];
      if e.tags.Some? || e.isImageFormat {
        BuiltDescribesKept(records[..|records| - 1], rest);
        assert records == records[..|records| - 1] + [records[|records| - 1]];
      } else {
        BuiltDescribesKept(records, rest);
      }
    }
  }

  lemma BuiltStep(records: seq<PhotoMetadata>, entries: seq<DirEntry>, i: int, r: PhotoMetadata)
    requires 0 <= i < |entries| && Built(records, entries[..i])
    requires (entries[i].tags.Some? || entries[i].isImageFormat) && Describes(r, entries[i])
    ensures Built(records + [r], entries[..i + 1])
  {
    assert entries[..i + 1][..i] == entries[..i];
    assert (records + [r])[..|records|] == records;
  }

  lemma BuiltSkip(records: seq<PhotoMetadata>, entries: seq<DirEntry>, i: int)
    requires 0 <= i < |entries| && Built(records, entries[..i])
    requires entries[i].tags.None? && !entries[i].isImageFormat
    ensures Built(records, entries[..i + 1])
  {
    assert entries[..i + 1][..i] == entries[..i];
  }

  /** The keyword table collectMetadata fills: keys lists the keywords of
      the table once each, and the table maps each keyword to its number of
      occurrences in the records plus the pending keywords. */
  ghost predicate Tally(hash: map<string, int>, keys: seq<string>, records: seq<PhotoMetadata>, pending: seq<string>)
  {
    && Distinct(keys) && (forall k :: k in keys <==> k in hash)
    && (forall k :: k in hash <==> Occurrences(k, records) + Count(k, pending) > 0)
    && (forall k | k in hash :: hash[k] == Occurrences(k, records) + Count(k, pending))
  }

  lemma TallyAdd(hash: map<string, int>, keys: seq<string>, records: seq<PhotoMetadata>, pending: seq<string>, keyword: string)
    requires Tally(hash, keys, records, pending)
    ensures Tally(hash[keyword := if keyword in hash then hash[keyword] + 1 else 1],
                  if keyword in hash then keys else keys + [keyword], records, pending + [keyword])
  {
    assert (pending + [keyword])[..|pending|] == pending;
  }

  lemma TallyRecord(hash: map<string, int>, keys: seq<string>, records: seq<PhotoMetadata>, r: PhotoMetadata)
    requires Tally(hash, keys, records, r.keywords)
    ensures Tally(hash, keys, records + [r], [])
  {
    assert (records + [r])[..|records|] == records;
  }

  lemma TallyComplete(hash: map<string, int>, keys: seq<string>, records: seq<PhotoMetadata>, sorted: seq<string>)
    requires Tally(hash, keys, records, []) && multiset(sorted) == multiset(keys)
    ensures forall k :: Occurrences(k, records) > 0 ==> k in sorted
  {
    forall k | Occurrences(k, records) > 0 ensures k in sorted {
      assert k in multiset(keys);
    }
  }

  /** The inner loop of collectMetadata: adds the keywords of one record
      to the table, starting at 1 for a keyword not seen before. */
  method TallyKeywords(hash: map<string, int>, keys: seq<string>, ghost records: seq<PhotoMetadata>, kws: seq<string>)
    returns (hash': map<string, int>, keys': seq<string>)
    requires Tally(hash, keys, records, [])
    ensures Tally(hash', keys', records, kws)
  {
    hash', keys' := hash, keys;
    assert kws[..0] == [];
    var j := 0;
    while j < |kws|
      invariant 0 <= j <= |kws|
      invariant Tally(hash', keys', records, kws[..j])
    {
      var keyword := kws[j];
      assert kws[..j + 1] == kws[..j] + [keyword];
      TallyAdd(hash', keys', records, kws[..j], keyword);
      var i := if keyword in hash' then hash'[keyword] + 1 else 1;
      if keyword !in hash' {
        keys' := keys' + [keyword];
      }
      hash' := hash'[keyword := i];
      j := j + 1;
    }
    assert kws[..|kws|] == kws;
  }

  /** The end of collectMetadata: the keywords of the table sorted, and
      their counts in the same order. */
  method SortedCounts(hash: map<string, int>, keys: seq<string>, ghost records: seq<PhotoMetadata>)
    returns (newKeywords: seq<string>, newKeywordCount: seq<int>)
    requires Tally(hash, keys, records, [])
    ensures StrictlySorted(newKeywords)
    ensures KeywordsCounted(records, newKeywords, newKeywordCount)
    ensures KeywordsOccur(records, newKeywords)
  {
    newKeywords := Sort(keys, CompareTo);
    SortDistinctStrings(keys);
    newKeywordCount := [];
    var j := 0;
    while j < |newKeywords|
      invariant 0 <= j <= |newKeywords|
      invariant |newKeywordCount| == j
      invariant forall t :: 0 <= t < j ==> newKeywordCount[t] == Occurrences(newKeywords[t], records)
    {
      assert newKeywords[j] in multiset(keys);
      newKeywordCount := newKeywordCount + [hash[newKeywords[j]]];
      j := j + 1;
    }
    TallyComplete(hash, keys, records, newKeywords);
    forall i | 0 <= i < |newKeywords| ensures Occurrences(newKeywords[i], records) > 0 {
      assert newKeywords[i] in multiset(keys);
    }
  }

  /** The do-while loop of selectNextPhoto: steps forward from the
      selected position, wrapping around, until it reaches a visible record
      or the selected position again. */
  method ScanForward(records: seq<PhotoMetadata>, visible: set<PhotoMetadata>, currIndex: int) returns (newIndex: int)
    requires -1 <= currIndex < |records| && HasVisible(records, visible)
    ensures IsNextVisible(records, visible, Start(currIndex, |records|), newIndex)
  {
    var n := |records|;
    ghost var s := Start(currIndex, n);
    newIndex := currIndex;
    ModInRange(newIndex + 1, n);
    ModInRange(s + 1, n);
    newIndex := (newIndex + 1) % n;
    ghost var steps := 1;
    ForwardScanBegins(records, visible, s);
    while newIndex != currIndex && records[newIndex] !in visible
      invariant ForwardScanned(records, visible, s, newIndex, steps)
      decreases n - steps
    {
      ForwardScanStep(records, visible, s, newIndex, steps);
      newIndex := (newIndex + 1) % n;
      steps := steps + 1;
    }
    ForwardScanStops(records, visible, s, newIndex, steps);
  }

  /** The do-while loop of selectPreviousPhoto, stepping backwards. */
  method ScanBackward(records: seq<PhotoMetadata>, visible: set<PhotoMetadata>, currIndex: int) returns (newIndex: int)
    requires -1 <= currIndex < |records| && HasVisible(records, visible)
    ensures IsPreviousVisible(records, visible, Start(currIndex, |records|), newIndex)
  {
    var n := |records|;
    ghost var s := Start(currIndex, n);
    newIndex := currIndex;
    newIndex := (newIndex - 1 + n) % n;
    ghost var steps := 1;
    BackwardScanBegins(records, visible, s);
    while newIndex != currIndex && records[newIndex] !in visible
      invariant BackwardScanned(records, visible, s, newIndex, steps)
      decreases n - steps
    {
      BackwardScanStep(records, visible, s, newIndex, steps);
      newIndex := (newIndex - 1 + n) % n;
      steps := steps + 1;
    }
    BackwardScanStops(records, visible, s, newIndex, steps);
  }

  /** Reordering the records keeps everything the catalog invariant says
      about them apart from their positions. */
  lemma CatalogPermutation(a: seq<PhotoMetadata>, b: seq<PhotoMetadata>, minRating: int, clauses: seq<Clause>,
                           selected: PhotoMetadata?, keywords: seq<string>, counts: seq<int>)
    requires multiset(a) == multiset(b)
    requires selected != null ==> selected in a
    requires KeywordsCounted(a, keywords, counts)
    ensures VisibleSet(a, minRating, clauses) == VisibleSet(b, minRating, clauses)
    ensures selected != null ==> selected in b
    ensures KeywordsCounted(b, keywords, counts)
    ensures a == [] <==> b == []
  {
    VisibleSetPermutation(a, b, minRating, clauses);
    KeywordsCountedPermutation(a, b, keywords, counts);
    if selected != null {
      assert selected in multiset(a);
    }
    if a == [] {
      assert |b| == |multiset(b)| == 0;
    }
  }

  /** Removing a record from a list without repetitions removes exactly
      that record from the visible set. */
  lemma VisibleSetRemove(s: seq<PhotoMetadata>, i: int, minRating: int, clauses: seq<Clause>)
    requires Distinct(s) && 0 <= i < |s|
    ensures VisibleSet(s[..i] + s[i + 1..], minRating, clauses) == VisibleSet(s, minRating, clauses) - {s[i]}
  {
    var t := s[..i] + s[i + 1..];
    forall r ensures r in t <==> r in s && r != s[i] {
      if r in t {
        var j :| 0 <= j < |t| && t[j] == r;
        assert r == if j < i then s[j] else s[j + 1];
      }
      if r in s && r != s[i] {
        var j :| 0 <= j < |s| && s[j] == r;
        assert t[if j < i then j else j - 1] == r;
      }
    }
  }

  /** Subtracting the keywords of a removed record from the counts keeps
      the statistics right for the remaining records. */
  lemma KeywordsCountedRemove(s: seq<PhotoMetadata>, i: int, keywords: seq<string>, counts: seq<int>, newCounts: seq<int>)
    requires KeywordsCounted(s, keywords, counts) && 0 <= i < |s|
    requires |newCounts| == |counts|
    requires forall j :: 0 <= j < |keywords| ==> newCounts[j] == counts[j] - Count(keywords[j], s[i].keywords)
    ensures KeywordsCounted(s[..i] + s[i + 1..], keywords, newCounts)
  {
    forall k ensures Occurrences(k, s[..i] + s[i + 1..]) == Occurrences(k, s) - Count(k, s[i].keywords) {
      OccurrencesRemove(k, s, i);
    }
  }

  /** The counting loop of deleteSelectedPhoto: one decrement per
      occurrence in removed, at the position of that keyword. */
  method DecrementCounts(keywords: seq<string>, counts: seq<int>, removed: seq<string>) returns (newCounts: seq<int>)
    requires Distinct(keywords) && |counts| == |keywords|
    requires forall k | k in removed :: k in keywords
    ensures |newCounts| == |counts|
    ensures forall j :: 0 <= j < |keywords| ==> newCounts[j] == counts[j] - Count(keywords[j], removed)
  {
    newCounts := counts;
    var m := 0;
    while m < |removed|
      invariant 0 <= m <= |removed| && |newCounts| == |counts|
      invariant forall j :: 0 <= j < |keywords| ==> newCounts[j] == counts[j] - Count(keywords[j], removed[..m])
    {
      assert removed[..m + 1][..m] == removed[..m];
      var idx := IndexOf(keywords, removed[m]);
      newCounts := newCounts[idx := newCounts[idx] - 1];
      m := m + 1;
    }
    assert removed[..m] == removed;
  }

  /** The renumbering loops of changeOrder and deleteSelectedPhoto: the
      records from position `from` on learn their position (those before
      it already know theirs). */
  method Renumber(records: seq<PhotoMetadata>, from: int)
    requires 0 <= from <= |records| && Distinct(records)
    requires forall j :: 0 <= j < from ==> records[j].index == j
    modifies records
    ensures Indexed(records)
  {
    var i := from;
    while i < |records|
      invariant from <= i <= |records|
      invariant forall j :: 0 <= j < i ==> records[j].index == j
    {
      records[i].index := i;
      i := i + 1;
    }
  }

  /** The sorting and renumbering of changeOrder. */
  method SortAndNumber(records: seq<PhotoMetadata>, sortByDate: bool) returns (sorted: seq<PhotoMetadata>)
    requires Distinct(records)
    modifies records
    ensures sorted == Sort(records, Comparator(sortByDate))
    ensures Sorted(sorted, Comparator(sortByDate))
    ensures Indexed(sorted)
  {
    sorted := Sort(records, Comparator(sortByDate));
    ChangeOrderSorts(sortByDate, records);
    DistinctPermutation(records, sorted);
    forall i | 0 <= i < |sorted| ensures sorted[i] in records {
      assert sorted[i] in multiset(sorted);
    }
    Renumber(sorted, 0);
  }

  /** The list and keyword work of deleteSelectedPhoto: the record at
      position i leaves the list, the records after it are renumbered, and
      its keywords leave the counts. */
  method RemoveRecord(records: seq<PhotoMetadata>, i: int, keywords: seq<string>, counts: seq<int>)
    returns (rest: seq<PhotoMetadata>, newCounts: seq<int>)
    requires 0 <= i < |records| && Indexed(records)
    requires StrictlySorted(keywords) && KeywordsCounted(records, keywords, counts)
    modifies records
    ensures rest == records[..i] + records[i + 1..]
    ensures Indexed(rest)
    ensures KeywordsCounted(rest, keywords, newCounts)
    ensures |newCounts| == |counts|
    ensures forall j :: 0 <= j < |keywords| ==> newCounts[j] == counts[j] - Count(keywords[j], records[i].keywords)
  {
    rest := records[..i] + records[i + 1..];
    forall k | k in records[i].keywords ensures k in keywords {
      OccurrencesPositive(k, records);
    }
    StrictlySortedDistinct(keywords);
    newCounts := DecrementCounts(keywords, counts, records[i].keywords);
    KeywordsCountedRemove(records, i, keywords, counts, newCounts);
    IndexedDistinct(records);
    DistinctRemoveAt(records, i);
    Renumber(rest, i);
  }

  /** After a deletion at position c the catalog selects the first visible
      record at or after c, and the first visible record of the list when
      none follows. */
  lemma DeleteSelectsFollowing(records: seq<PhotoMetadata>, visible: set<PhotoMetadata>, c: int, p: int)
    requires 0 <= c <= |records| && 0 < |records|
    requires IsNextVisible(records, visible, Start(if c > 0 then c - 1 else -1, |records|), p)
    ensures (exists q :: c <= q < |records| && records[q] in visible) ==> FirstVisibleFrom(records, visible, c, p)
    ensures (forall q :: c <= q < |records| ==> records[q] !in visible) ==> FirstVisibleFrom(records, visible, 0, p)
  {
  }

  /** One pass of collectMetadata's loop: reads the i-th entry and, when
      it is kept, appends its fresh record and counts its keywords. */
  method CollectEntry(entries: seq<DirEntry>, i: int, records: seq<PhotoMetadata>, hash: map<string, int>,
                      keys: seq<string>, warnings: seq<string>)
    returns (records': seq<PhotoMetadata>, hash': map<string, int>, keys': seq<string>, warnings': seq<string>)
    requires 0 <= i < |entries|
    requires Built(records, entries[..i]) && Distinct(records) && Tally(hash, keys, records, [])
    requires warnings == ReadWarnings(entries[..i])
    ensures Built(records', entries[..i + 1]) && Distinct(records') && Tally(hash', keys', records', [])
    ensures warnings' == ReadWarnings(entries[..i + 1])
    ensures |records| <= |records'| && records'[..|records|] == records && fresh(records'[|records|..])
  {
    var f := entries[i];
    ReadWarningsStep(entries, i);
    var data, warning := ReadEntry(f);
    warnings' := warnings + warning;
    hash', keys' := hash, keys;
    if data != null {
      if f.tags.Some? {
        hash', keys' := TallyKeywords(hash, keys, records, data.keywords);
      }
      TallyRecord(hash', keys', records, data);
      DistinctAppend(records, data);
      records' := records + [data];
      BuiltStep(records, entries, i, data);
      assert records'[|records|..] == [data];
    } else {
      records' := records;
      BuiltSkip(records, entries, i);
    }
  }

  /** collectMetadata: one record per kept file, in listing order, each
      fresh and built from what the reader reported; the distinct
      keywords in ascending order with their numbers of occurrences; and
      a warning per image whose metadata could not be read. */
  method CollectMetadata(entries: seq<DirEntry>)
    returns (newMetadata: seq<PhotoMetadata>, newKeywords: seq<string>, newKeywordCount: seq<int>, warnings: seq<string>)
    ensures Built(newMetadata, entries)
    ensures Distinct(newMetadata)
    ensures fresh(newMetadata)
    ensures StrictlySorted(newKeywords)
    ensures KeywordsCounted(newMetadata, newKeywords, newKeywordCount)
    ensures KeywordsOccur(newMetadata, newKeywords)
    ensures warnings == ReadWarnings(entries)
  {
    newMetadata, warnings := [], [];
    var keywordHash: map<string, int> := map[];
    var keys: seq<string> := [];
    var i := 0;
    while i < |entries|
      invariant 0 <= i <= |entries|
      invariant Built(newMetadata, entries[..i])
      invariant Distinct(newMetadata)
      invariant fresh(newMetadata)
      invariant warnings == ReadWarnings(entries[..i])
      invariant Tally(keywordHash, keys, newMetadata, [])
    {
      var prev := newMetadata;
      newMetadata, keywordHash, keys, warnings := CollectEntry(entries, i, newMetadata, keywordHash, keys, warnings);
      assert newMetadata == prev + newMetadata[|prev|..];
      i := i + 1;
    }
    assert entries[..|entries|] == entries;
    newKeywords, newKeywordCount := SortedCounts(keywordHash, keys, newMetadata);
  }

  /** The body of collectMetadata's loop for one file: the record built
      from the metadata when it could be read; otherwise, for an image,
      a bare record and a warning; otherwise nothing. */
  method ReadEntry(f: DirEntry) returns (data: PhotoMetadata?, warning: seq<string>)
    ensures data == null <==> f.tags.None? && !f.isImageFormat
    ensures data != null ==> fresh(data) && Describes(data, f)
    ensures warning == if f.tags.None? && f.isImageFormat then [ReadWarning(f.name)] else []
  {
    warning := [];
    if f.tags.Some? {
      data := new PhotoMetadata.FromTags(f.name, f.tags.value);
    } else if f.isImageFormat {
      warning := [ReadWarning(f.name)];
      data := new PhotoMetadata(f.name);
    } else {
      data := null;
    }
  }

  /** The loop of getVisiblePhotos: the file of every visible record, in
      list order. */
  method VisiblePaths(dir: Option<Path>, records: seq<PhotoMetadata>, visible: set<PhotoMetadata>)
    returns (result: seq<Path>)
    ensures result == PathsOf(dir, VisibleInOrder(records, visible))
  {
    result := [];
    var i := 0;
    while i < |records|
      invariant 0 <= i <= |records|
      invariant result == PathsOf(dir, VisibleInOrder(records[..i], visible))
    {
      VisibleInOrderStep(records, visible, i);
      if records[i] in visible {
        PathsOfStep(dir, VisibleInOrder(records[..i], visible), records[i]);
        result := result + [PathOf(dir, records[i].fileName)];
      }
      i := i + 1;
    }
    assert records[..|records|] == records;
  }

  /** The catalog's state as one value: the directory, the records in
      order, the selection and its position (-1 for none), the filter (the
      expression, its clauses and the clauses the visible set was computed
      with), the visible set, and the keywords with their counts. */
  datatype Catalog = Catalog(directory: Option<Path>, records: seq<PhotoMetadata>,
                             selected: PhotoMetadata?, selectedIndex: int,
                             minRating: int, expression: KeywordExpression,
                             expressionClauses: seq<Clause>, filterClauses: seq<Clause>,
                             visible: set<PhotoMetadata>, keywords: seq<string>, counts: seq<int>)

  /** The catalog setCurrDirectory leaves, given the one before. The same
      directory is only re-sorted, keeping its filter and keywords. A new
      directory holds the records collected from its entries, sorted, and is
      filtered by rating 0 and an empty expression. */
  ghost predicate EnteredCatalog(before: Catalog, after: Catalog, sortByDate: bool, entries: seq<DirEntry>,
                                 collected: seq<PhotoMetadata>, changed: bool)
  {
    && Sorted(after.records, Comparator(sortByDate))
    && (!changed ==>
          && after.records == Sort(before.records, Comparator(sortByDate))
          && after.minRating == before.minRating && after.expression == before.expression
          && after.expressionClauses == before.expressionClauses && after.filterClauses == before.filterClauses
          && after.visible == before.visible && after.keywords == before.keywords && after.counts == before.counts)
    && (changed ==>
          && Built(collected, entries)
          && after.records == Sort(collected, Comparator(sortByDate))
          && after.minRating == 0 && after.expressionClauses == [[]] && after.filterClauses == [[]]
          && KeywordsOccur(after.records, after.keywords))
  }

  /** The catalog deleteSelectedPhoto leaves, given the one before. The
      directory, the filter and the keyword list stay. After a deletion the
      file of the old selection is the one deleted; its record leaves the
      list and the visible set; each keyword count drops by that record's
      occurrences; and the next visible record after the deleted position
      is selected, none when nothing is visible. */
  ghost predicate DeletedFromCatalog(before: Catalog, after: Catalog, deleted: Option<Path>)
  {
    && after.directory == before.directory && after.minRating == before.minRating
    && after.expression == before.expression && after.filterClauses == before.filterClauses
    && after.keywords == before.keywords
    && (deleted.Some? ==>
          var c := before.selectedIndex;
          var gone := before.selected;
          && gone != null
          && deleted == Some(PathOf(after.directory, gone.fileName))
          && 0 <= c < |before.records|
          && after.records == before.records[..c] + before.records[c + 1..]
          && after.visible == before.visible - {gone}
          && |after.counts| == |before.counts| == |after.keywords|
          && (forall j :: 0 <= j < |after.keywords| ==>
                after.counts[j] == before.counts[j] - Count(after.keywords[j], gone.keywords))
          && (after.visible == {} ==> after.selected == null)
          && (after.visible != {} ==>
                && after.selected != null
                && IsNextVisible(after.records, after.visible, Start(if c > 0 then c - 1 else -1, |after.records|),
                                 after.selectedIndex)))
  }

  class ExifDataManager {
    var currDirectory: Option<Path>
    var photoDataList: seq<PhotoMetadata>
    /** Metadata of the selected photo; null when nothing is selected. */
    var selectedPhotoData: PhotoMetadata?
    var minRating: int
    var keywordExpression: KeywordExpression
    /** The clauses keywordExpression had when the visible set was last
        computed. The expression object is shared with the view, which
        edits it in place and then asks for the visible set again. */
    ghost var filterClauses: seq<Clause>
    var visiblePhotoData: set<PhotoMetadata>
    var allKeywords: seq<string>
    var keywordCounts: seq<int>

    /** The catalog invariant without the visible set: every record knows
        its position, the selection is one of the records, there are no
        records before a directory is chosen, and the keyword list is
        sorted and counts the keywords of the records. */
    ghost predicate Coherent()
      reads this, photoDataList
    {
      && Indexed(photoDataList)
      && (selectedPhotoData != null ==> selectedPhotoData in photoDataList)
      && (currDirectory.None? ==> photoDataList == [])
      && StrictlySorted(allKeywords)
      && KeywordsCounted(photoDataList, allKeywords, keywordCounts)
    }

    /** The catalog invariant: the visible set is what the filter lets
        through. */
    ghost predicate Valid()
      reads this, photoDataList
    {
      Coherent() && visiblePhotoData == VisibleSet(photoDataList, minRating, filterClauses)
    }

    constructor ()
      ensures Valid()
      ensures currDirectory.None? && photoDataList == [] && selectedPhotoData == null
      ensures minRating == 0 && keywordExpression.clauses == [[]] && visiblePhotoData == {}
      ensures allKeywords == [] && keywordCounts == []
    {
      currDirectory := None;
      photoDataList := [];
      selectedPhotoData := null;
      minRating := 0;
      keywordExpression := new KeywordExpression();
      filterClauses := [[]];
      visiblePhotoData := {};
      allKeywords := [];
      keywordCounts := [];
    }

    /** getSelectedPhotoIndex: the position of the selection, -1 for none. */
    function SelectedIndex(): (i: int)
      reads this, selectedPhotoData, photoDataList
      ensures Valid() ==> -1 <= i < |photoDataList|
      ensures Valid() ==> (i == -1 <==> selectedPhotoData == null)
      ensures Valid() && i != -1 ==> photoDataList[i] == selectedPhotoData
    {
      if selectedPhotoData != null then selectedPhotoData.index else -1
    }

    /** The catalog's fields as one value. */
    ghost function State(): Catalog
      reads this, selectedPhotoData, keywordExpression
    {
      Catalog(currDirectory, photoDataList, selectedPhotoData,
              if selectedPhotoData != null then selectedPhotoData.index else -1,
              minRating, keywordExpression, keywordExpression.clauses, filterClauses,
              visiblePhotoData, allKeywords, keywordCounts)
    }

    /** getFile: the file of the record at a position, none for -1. */
    function GetFile(index: int): (f: Option<Path>)
      requires -1 <= index < |photoDataList|
      reads this
      ensures f.None? <==> index == -1
      ensures index != -1 ==> f == Some(PathOf(currDirectory, photoDataList[index].fileName))
    {
      if index != -1 then Some(PathOf(currDirectory, photoDataList[index].fileName)) else None
    }

    /** updateStoredMetadata. */
    method UpdateStoredMetadata(dir: Path, newPhotoDataList: seq<PhotoMetadata>, newKeywordList: seq<string>, newKeywordCount: seq<int>)
      modifies this
      ensures currDirectory == Some(dir) && photoDataList == newPhotoDataList
      ensures allKeywords == newKeywordList && keywordCounts == newKeywordCount
      ensures selectedPhotoData == old(selectedPhotoData) && minRating == old(minRating)
      ensures keywordExpression == old(keywordExpression) && filterClauses == old(filterClauses)
      ensures visiblePhotoData == old(visiblePhotoData)
    {
      currDirectory := Some(dir);
      photoDataList := newPhotoDataList;
      allKeywords := newKeywordList;
      keywordCounts := newKeywordCount;
    }

    /** changeOrder: the records sorted stably by the chosen comparator, and
        every record told its new position. */
    method ChangeOrder(sortByDate: bool)
      requires Distinct(photoDataList)
      modifies this, photoDataList
      ensures photoDataList == Sort(old(photoDataList), Comparator(sortByDate))
      ensures Sorted(photoDataList, Comparator(sortByDate))
      ensures Indexed(photoDataList)
      ensures currDirectory == old(currDirectory) && selectedPhotoData == old(selectedPhotoData)
      ensures minRating == old(minRating) && keywordExpression == old(keywordExpression)
      ensures filterClauses == old(filterClauses) && visiblePhotoData == old(visiblePhotoData)
      ensures allKeywords == old(allKeywords) && keywordCounts == old(keywordCounts)
    {
      var sorted := SortAndNumber(photoDataList, sortByDate);
      photoDataList := sorted;
    }

    /** setVisibility: the visible set becomes the records with at least
        the given rating whose keywords the expression accepts. */
    method SetVisibility(minRating: int, expression: KeywordExpression)
      modifies this
      ensures this.minRating == minRating && keywordExpression == expression
      ensures filterClauses == expression.clauses
      ensures visiblePhotoData == VisibleSet(photoDataList, minRating, expression.clauses)
      ensures currDirectory == old(currDirectory) && photoDataList == old(photoDataList)
      ensures selectedPhotoData == old(selectedPhotoData)
      ensures allKeywords == old(allKeywords) && keywordCounts == old(keywordCounts)
      ensures old(Coherent()) ==> Valid()
    {
      this.minRating := minRating;
      keywordExpression := expression;
      filterClauses := expression.clauses;
      var visible: set<PhotoMetadata> := {};
      var i := 0;
      while i < |photoDataList|
        invariant 0 <= i <= |photoDataList|
        invariant visible == VisibleSet(photoDataList[..i], minRating, expression.clauses)
      {
        var data := photoDataList[i];
        assert photoDataList[..i + 1] == photoDataList[..i] + [data];
        if data.rating >= minRating && expression.CheckKeywords(data.keywords) {
          visible := visible + {data};
        }
        i := i + 1;
      }
      assert photoDataList[..|photoDataList|] == photoDataList;
      visiblePhotoData := visible;
    }
  
    /** setCurrDirectory: clears the selection; for a new directory, reads
        it, stores the records and keywords and resets the filter; in every
        case puts the records in the chosen order. */
    method SetCurrDirectory(dir: Path, sortByDate: bool, entries: seq<DirEntry>)
      returns (warnings: seq<string>, ghost collected: seq<PhotoMetadata>)
      requires Valid()
      modifies this, photoDataList
      ensures Valid()
      ensures selectedPhotoData == null && currDirectory == Some(dir)
      ensures EnteredCatalog(old(State()), State(), sortByDate, entries, collected, old(currDirectory) != Some(dir))
      ensures old(currDirectory) != Some(dir) ==> fresh(collected) && fresh(keywordExpression)
      ensures warnings == if old(currDirectory) != Some(dir) then ReadWarnings(entries) else []
    {
      selectedPhotoData := null;
      if currDirectory != Some(dir) {
        warnings, collected := LoadDirectory(dir, sortByDate, entries);
      } else {
        warnings, collected := [], [];
        ghost var before := photoDataList;
        ChangeOrder(sortByDate);
        CatalogPermutation(before, photoDataList, minRating, filterClauses, null, allKeywords, keywordCounts);
      }
    }

    /** The new-directory branch of setCurrDirectory: reads the entries,
        stores the catalog, sorts it and shows every record rated at
        least 0. */
    method LoadDirectory(dir: Path, sortByDate: bool, entries: seq<DirEntry>)
      returns (warnings: seq<string>, ghost collected: seq<PhotoMetadata>)
      requires selectedPhotoData == null
      modifies this
      ensures Valid()
      ensures selectedPhotoData == null && currDirectory == Some(dir)
      ensures Built(collected, entries) && fresh(collected)
      ensures photoDataList == Sort(collected, Comparator(sortByDate))
      ensures Sorted(photoDataList, Comparator(sortByDate))
      ensures minRating == 0 && fresh(keywordExpression) && keywordExpression.clauses == [[]]
      ensures filterClauses == [[]]
      ensures KeywordsOccur(photoDataList, allKeywords)
      ensures warnings == ReadWarnings(entries)
    {
      warnings, collected := StoreCatalog(dir, sortByDate, entries);
      var expression := new KeywordExpression();
      SetVisibility(0, expression);
    }

    /** The reading part of LoadDirectory: the records, keywords and
        counts of the new directory, stored and sorted, nothing selected. */
    method StoreCatalog(dir: Path, sortByDate: bool, entries: seq<DirEntry>)
      returns (warnings: seq<string>, ghost collected: seq<PhotoMetadata>)
      requires selectedPhotoData == null
      modifies this
      ensures Coherent()
      ensures selectedPhotoData == null && currDirectory == Some(dir)
      ensures Built(collected, entries) && fresh(collected)
      ensures photoDataList == Sort(collected, Comparator(sortByDate))
      ensures Sorted(photoDataList, Comparator(sortByDate))
      ensures KeywordsOccur(photoDataList, allKeywords)
      ensures warnings == ReadWarnings(entries)
    {
      var newPhotoDataList, newKeywordList, newKeywordCounts, w := CollectMetadata(entries);
      SortOfSorted(newKeywordList, CompareTo);
      newKeywordList := Sort(newKeywordList, CompareTo);
      UpdateStoredMetadata(dir, newPhotoDataList, newKeywordList, newKeywordCounts);
      warnings, collected := w, newPhotoDataList;
      ChangeOrder(sortByDate);
      CatalogPermutation(collected, photoDataList, minRating, filterClauses, null, allKeywords, keywordCounts);
      KeywordsOccurPermutation(collected, photoDataList, allKeywords);
    }

    /** getVisiblePhotos: the files of the visible records, in catalog
        order, one per visible record. */
    method GetVisiblePhotos() returns (result: seq<Path>)
      requires Valid()
      ensures result == PathsOf(currDirectory, VisibleInOrder(photoDataList, visiblePhotoData))
      ensures |result| == |visiblePhotoData|
    {
      result := VisiblePaths(currDirectory, photoDataList, visiblePhotoData);
      IndexedDistinct(photoDataList);
      VisibleInOrderCount(photoDataList, visiblePhotoData);
      assert (set x | x in photoDataList && x in visiblePhotoData) == visiblePhotoData;
    }

    /** getIndexInMetadataList: the first position holding a record with
        the given file name, or -1. */
    method IndexInMetadataList(fileName: string) returns (index: int)
      ensures -1 <= index < |photoDataList|
      ensures index == -1 <==> forall j :: 0 <= j < |photoDataList| ==> photoDataList[j].fileName != fileName
      ensures index != -1 ==> photoDataList[index].fileName == fileName
      ensures forall j :: 0 <= j < index ==> photoDataList[j].fileName != fileName
    {
      var i := 0;
      while i < |photoDataList|
        invariant 0 <= i <= |photoDataList|
        invariant forall j :: 0 <= j < i ==> photoDataList[j].fileName != fileName
      {
        if photoDataList[i].fileName == fileName {
          return i;
        }
        i := i + 1;
      }
      return -1;
    }

    /** selectPhoto(String): selects the first record with that file name
        and returns its file; without such a record nothing changes. */
    method SelectPhoto(fileName: string) returns (result: Option<Path>)
      requires Valid()
      modifies this`selectedPhotoData
      ensures Valid()
      ensures result.None? <==> forall j :: 0 <= j < |photoDataList| ==> photoDataList[j].fileName != fileName
      ensures result.None? ==> selectedPhotoData == old(selectedPhotoData)
      ensures result.Some? ==>
        && selectedPhotoData != null && selectedPhotoData.fileName == fileName
        && (forall j :: 0 <= j < selectedPhotoData.index ==> photoDataList[j].fileName != fileName)
        && result == Some(PathOf(currDirectory, fileName))
    {
      var index := IndexInMetadataList(fileName);
      result := None;
      if index != -1 {
        selectedPhotoData := photoDataList[index];
        result := GetFile(index);
      }
    }

    /** selectNextPhoto: with no visible record the selection is cleared;
        otherwise the next visible record after the selection, wrapping
        around, becomes the selection. */
    method SelectNextPhoto() returns (result: Option<Path>)
      requires Valid()
      modifies this`selectedPhotoData
      ensures Valid()
      ensures visiblePhotoData == {} ==> selectedPhotoData == null && result.None?
      ensures visiblePhotoData != {} ==>
        && selectedPhotoData != null
        && IsNextVisible(photoDataList, visiblePhotoData, Start(old(SelectedIndex()), |photoDataList|), selectedPhotoData.index)
        && result == Some(PathOf(currDirectory, selectedPhotoData.fileName))
    {
      result := None;
      if |visiblePhotoData| > 0 {
        ghost var v :| v in visiblePhotoData;
        ghost var q0 :| 0 <= q0 < |photoDataList| && photoDataList[q0] == v;
        var newIndex := ScanForward(photoDataList, visiblePhotoData, SelectedIndex());
        selectedPhotoData := photoDataList[newIndex];
        result := GetFile(newIndex);
      } else {
        selectedPhotoData := null;
      }
    }

    /** selectPreviousPhoto: as selectNextPhoto, scanning backwards. */
    method SelectPreviousPhoto() returns (result: Option<Path>)
      requires Valid()
      modifies this`selectedPhotoData
      ensures Valid()
      ensures visiblePhotoData == {} ==> selectedPhotoData == null && result.None?
      ensures visiblePhotoData != {} ==>
        && selectedPhotoData != null
        && IsPreviousVisible(photoDataList, visiblePhotoData, Start(old(SelectedIndex()), |photoDataList|), selectedPhotoData.index)
        && result == Some(PathOf(currDirectory, selectedPhotoData.fileName))
    {
      result := None;
      if |visiblePhotoData| > 0 {
        ghost var v :| v in visiblePhotoData;
        ghost var q0 :| 0 <= q0 < |photoDataList| && photoDataList[q0] == v;
        var newIndex := ScanBackward(photoDataList, visiblePhotoData, SelectedIndex());
        selectedPhotoData := photoDataList[newIndex];
        result := GetFile(newIndex);
      } else {
        selectedPhotoData := null;
      }
    }

    /** deleteSelectedPhoto: when a photo is selected and its file exists
        and is deleted (fileExists and deleteSucceeds stand for File.exists
        and File.delete), its record leaves the catalog, the records after
        it move one place forward, its keywords leave the counts (a count
        may drop to 0; the keyword stays listed), and the visible record
        that followed it, wrapping around, becomes the selection. deleted
        is the file removed from disk. */
    method DeleteSelectedPhoto(fileExists: bool, deleteSucceeds: bool) returns (deleted: Option<Path>)
      requires Valid()
      modifies this, photoDataList
      ensures Valid()
      ensures deleted.Some? <==> old(selectedPhotoData) != null && fileExists && deleteSucceeds
      ensures deleted.None? ==> unchanged(this) && unchanged(photoDataList)
      ensures DeletedFromCatalog(old(State()), State(), deleted)
    {
      deleted := None;
      var currIndex := SelectedIndex();
      if currIndex != -1 {
        var file := GetFile(currIndex);
        if fileExists && deleteSucceeds {
          RemoveSelected();
          deleted := file;
          SelectFollowing(currIndex);
        }
      }
    }

    /** The end of deleteSelectedPhoto: with a visible record left, selects
        the record before position c (none when c is 0) and moves to the
        next visible one. */
    method SelectFollowing(c: int)
      requires Valid() && selectedPhotoData == null && 0 <= c <= |photoDataList|
      modifies this`selectedPhotoData
      ensures Valid()
      ensures visiblePhotoData == {} ==> selectedPhotoData == null
      ensures visiblePhotoData != {} ==>
        && selectedPhotoData != null
        && IsNextVisible(photoDataList, visiblePhotoData, Start(if c > 0 then c - 1 else -1, |photoDataList|),
                         selectedPhotoData.index)
    {
      if |visiblePhotoData| > 0 {
        if c > 0 {
          selectedPhotoData := photoDataList[c - 1];
        }
        var _ := SelectNextPhoto();
      }
    }

    /** The bookkeeping of deleteSelectedPhoto once the file is gone: the
        selected record leaves the list and the visible set, the records
        after it are renumbered, its keywords leave the counts, and the
        selection is cleared. */
    method RemoveSelected()
      requires Valid() && selectedPhotoData != null
      modifies this, photoDataList
      ensures Valid() && selectedPhotoData == null
      ensures currDirectory == old(currDirectory) && minRating == old(minRating)
      ensures keywordExpression == old(keywordExpression) && filterClauses == old(filterClauses)
      ensures allKeywords == old(allKeywords)
      ensures
        var c := old(SelectedIndex());
        var gone := old(selectedPhotoData);
        && photoDataList == old(photoDataList[..c] + photoDataList[c + 1..])
        && visiblePhotoData == old(visiblePhotoData) - {gone}
        && forall j :: 0 <= j < |allKeywords| ==>
             keywordCounts[j] == old(keywordCounts[j]) - Count(allKeywords[j], gone.keywords)
    {
      var currIndex := SelectedIndex();
      var gone := selectedPhotoData;
      IndexedDistinct(photoDataList);
      VisibleSetRemove(photoDataList, currIndex, minRating, filterClauses);
      var rest, counts := RemoveRecord(photoDataList, currIndex, allKeywords, keywordCounts);
      photoDataList := rest;
      visiblePhotoData := visiblePhotoData - {gone};
      keywordCounts := counts;
      selectedPhotoData := null;
    }

    /** selectFirstPhoto: the first visible record in catalog order. */
    method SelectFirstPhoto() returns (result: Option<Path>)
      requires Valid()
      modifies this`selectedPhotoData
      ensures Valid()
      ensures visiblePhotoData == {} ==> selectedPhotoData == null && result.None?
      ensures visiblePhotoData != {} ==>
        && selectedPhotoData != null
        && FirstVisibleFrom(photoDataList, visiblePhotoData, 0, selectedPhotoData.index)
        && result == Some(PathOf(currDirectory, selectedPhotoData.fileName))
    {
      selectedPhotoData := null;
      result := SelectNextPhoto();
      if visiblePhotoData != {} {
        FirstPhotoIsFirstVisible(photoDataList, visiblePhotoData, selectedPhotoData.index);
      }
    }
}

}
