/** MapDataManager: the lookup table of map files with their reference
    points, the current map, and the transforms from latitude/longitude to
    image positions. Doubles are modelled as reals; a value that Java would
    compute as NaN or an infinity (a division by zero) is NotFinite. */
module Maps {
  import opened Options
  import opened JavaStrings
  import opened Files
  import opened Lists

  /** GeoRefPoint: an image position and the geographical position it shows. */
  datatype GeoRefPoint = GeoRefPoint(xImage: real, yImage: real, lat: real, lon: real)

  /** A pair of image coordinates, as the double[2] the transforms return. */
  type ImagePos = (Coordinate, Coordinate)

  /** MapParams: a map file (never null) and its reference points. The
      object is shared between the lookup table and the current map, so a
      point added to the current map is seen in the table as well. */
  class MapParams {
    const file: Path
    var refPoints: seq<GeoRefPoint>

    constructor (file: Path)
      ensures this.file == file && refPoints == []
    {
      this.file := file;
      refPoints := [];
    }
  }

  /** MapParams.compareTo: by the name part of the file. */
  function CompareParams(a: MapParams, b: MapParams): int
  {
    CompareTo(NameOf(a.file), NameOf(b.file))
  }

  /** compareTo is a total preorder, so Collections.sort keeps the table in
      name order. */
  lemma {:induction false} CompareParamsIsPreorder(s: seq<MapParams>)
    ensures TotalPreorder(s, CompareParams)
  {
    forall a, b | a in s && b in s ensures CompareParams(a, b) > 0 <==> CompareParams(b, a) < 0 {
      CompareToAntisymmetric(NameOf(a.file), NameOf(b.file));
    }
    forall a, b, c | a in s && b in s && c in s && CompareParams(a, b) <= 0 && CompareParams(b, c) <= 0
      ensures CompareParams(a, c) <= 0
    {
      CompareToTransitive(NameOf(a.file), NameOf(b.file), NameOf(c.file));
    }
  }

  /** No two entries of the table are for the same file. */
  ghost predicate UniqueFiles(s: seq<MapParams>)
  {
    forall a, b | a in s && b in s && a.file == b.file :: a == b
  }

  /** The shape of the lookup table that its operations keep: every entry
      once, one entry per file, sorted by file name. */
  ghost predicate WellFormed(s: seq<MapParams>)
  {
    Distinct(s) && UniqueFiles(s) && SortedPairwise(s, CompareParams)
  }

  /** lookupMapParams: the first entry for the file, or null. */
  function FindParams(s: seq<MapParams>, f: Path): MapParams?
  {
    if s == [] then null
    else if s[0].file == f then s[0]
    else FindParams(s[1..], f)
  }

  /** The entry found is in the table and is for the file; null is found
      exactly when the table has no entry for the file. */
  lemma {:induction false} FindParamsMeaning(s: seq<MapParams>, f: Path)
    ensures FindParams(s, f) == null <==> forall q | q in s :: q.file != f
    ensures FindParams(s, f) != null ==> FindParams(s, f) in s && FindParams(s, f).file == f
  {
    if s != [] {
      assert s == [s[0]] + s[1..];
      FindParamsMeaning(s[1..], f);
    }
  }

  lemma FindParamsStep(s: seq<MapParams>, i: int, f: Path)
    requires 0 <= i < |s| && s[i].file != f
    ensures FindParams(s[i..], f) == FindParams(s[i + 1..], f)
  {
    assert s[i..][1..] == s[i + 1..];
  }

  /** lookupMapParams, as the loop over the table it is. */
  method LookupMapParams(lookup: seq<MapParams>, mapFile: Path) returns (r: MapParams?)
    ensures r == FindParams(lookup, mapFile)
  {
    for i := 0 to |lookup|
      invariant FindParams(lookup[i..], mapFile) == FindParams(lookup, mapFile)
    {
      if lookup[i].file == mapFile {
        return lookup[i];
      }
      FindParamsStep(lookup, i, mapFile);
    }
    return null;
  }

  /** Adding an entry for a file the table does not know, and sorting,
      keeps the table well formed. */
  lemma AddEntryKeeps(s: seq<MapParams>, p: MapParams)
    requires WellFormed(s) && p !in s && forall q | q in s :: q.file != p.file
    ensures WellFormed(Sort(s + [p], CompareParams))
    ensures p in Sort(s + [p], CompareParams)
    ensures forall q | q in s :: q in Sort(s + [p], CompareParams)
  {
    var t := s + [p];
    var r := Sort(t, CompareParams);
    SortedByName(t);
    DistinctAppend(s, p);
    DistinctPermutation(t, r);
    SameMembers(t, r);
    assert p in t by { assert t[|s|] == p; }
    UniqueFilesAppend(s, p);
    UniqueFilesPermutation(t, r);
  }

  lemma UniqueFilesAppend(s: seq<MapParams>, p: MapParams)
    requires UniqueFiles(s) && forall q | q in s :: q.file != p.file
    ensures UniqueFiles(s + [p])
  {
  }

  lemma UniqueFilesPermutation(t: seq<MapParams>, r: seq<MapParams>)
    requires UniqueFiles(t) && multiset(t) == multiset(r)
    ensures UniqueFiles(r)
  {
    SameMembers(t, r);
  }

  /** A sorted table is in name order throughout. */
  lemma SortedByName(t: seq<MapParams>)
    ensures SortedPairwise(Sort(t, CompareParams), CompareParams)
  {
    var r := Sort(t, CompareParams);
    CompareParamsIsPreorder(t);
    SortSorted(t, CompareParams);
    CompareParamsIsPreorder(r);
    SortedIsPairwise(r, CompareParams);
  }

  lemma SameMembers<T>(t: seq<T>, r: seq<T>)
    requires multiset(t) == multiset(r)
    ensures forall q :: q in t <==> q in r
  {
    forall q ensures q in t <==> q in r {
      assert q in t <==> q in multiset(t);
      assert q in r <==> q in multiset(r);
    }
  }

  /** Removing an entry keeps the table well formed and leaves no entry
      for its file. */
  lemma RemoveEntryKeeps(s: seq<MapParams>, p: MapParams)
    requires WellFormed(s) && p in s
    ensures WellFormed(RemoveFirst(s, p))
    ensures forall q | q in RemoveFirst(s, p) :: q.file != p.file
    ensures multiset(RemoveFirst(s, p)) == multiset(s) - multiset{p}
  {
    var r := RemoveFirst(s, p);
    RemoveFirstMultiset(s, p);
    RemoveFirstSorted(s, p, CompareParams);
    DistinctMultiplicity(s);
    DistinctMultiplicity(r);
    forall q | q in r ensures q in s && q != p {
      assert q in multiset(r);
      assert multiset(s)[p] <= 1;
    }
  }

  /** Adding a fresh entry and removing it again restores the table. */
  lemma AddRemoveRestores(s: seq<MapParams>, p: MapParams)
    requires WellFormed(s) && p !in s
    ensures RemoveFirst(Sort(s + [p], CompareParams), p) == s
  {
    CompareParamsIsPreorder(s + [p]);
    SortAppendRemove(s, p, CompareParams);
  }

  /** The outcome of ImageIO.read on the map file: an image, null, or an
      IOException. */
  datatype ReadOutcome = Loaded | NoImage | ReadError

  /** The message of the PersistenceException setMap reports. */
  function ReadErrorMessage(mapFile: Path): string
  {
    "Could not read map image from file " + mapFile + "."
  }

  /** (t - a) / (b - a) * (yb - ya) + ya: the value at t of the line through
      (a, ya) and (b, yb). */
  function Interpolate(t: real, a: real, b: real, ya: real, yb: real): Coordinate
  {
    if b - a == 0.0 then NotFinite else Finite((t - a) / (b - a) * (yb - ya) + ya)
  }

  /** The line meets both samples, and is affine: the point a fraction u of
      the way from a to b maps to the point u of the way from ya to yb. */
  lemma InterpolateMeaning(a: real, b: real, ya: real, yb: real, u: real)
    requires a != b
    ensures Interpolate(a, a, b, ya, yb) == Finite(ya)
    ensures Interpolate(b, a, b, ya, yb) == Finite(yb)
    ensures Interpolate(a + u * (b - a), a, b, ya, yb) == Finite(ya + u * (yb - ya))
  {
    InterpolateAt(a, a, b, ya, yb, 0.0);
    InterpolateAt(b, a, b, ya, yb, 1.0);
    InterpolateAt(a + u * (b - a), a, b, ya, yb, u);
  }

  /** The line's value a fraction u of the way from a to b. */
  lemma InterpolateAt(t: real, a: real, b: real, ya: real, yb: real, u: real)
    requires a != b && t - a == u * (b - a)
    ensures Interpolate(t, a, b, ya, yb) == Finite(ya + u * (yb - ya))
  {
    Quotient(t - a, b - a, u);
  }

  lemma Quotient(x: real, d: real, u: real)
    requires d != 0.0 && x == u * d
    ensures x / d == u
  {
  }

  /** convertWith2Samples: x from longitude and y from latitude, each by the
      line through the two samples. */
  function ConvertWith2Samples(lat: real, lon: real, p1: GeoRefPoint, p2: GeoRefPoint): (r: ImagePos)
    ensures r.0.Finite? <==> p1.lon != p2.lon
    ensures r.1.Finite? <==> p1.lat != p2.lat
  {
    (Interpolate(lon, p1.lon, p2.lon, p1.xImage, p2.xImage),
     Interpolate(lat, p1.lat, p2.lat, p1.yImage, p2.yImage))
  }

  /** convertWith2Samples maps each sample's position onto its image
      position, and is affine in each axis: x depends on longitude alone,
      y on latitude alone. */
  lemma ConvertWith2SamplesMeaning(p1: GeoRefPoint, p2: GeoRefPoint, lat: real, lon: real, u: real)
    requires p1.lon != p2.lon && p1.lat != p2.lat
    ensures ConvertWith2Samples(p1.lat, p1.lon, p1, p2) == (Finite(p1.xImage), Finite(p1.yImage))
    ensures ConvertWith2Samples(p2.lat, p2.lon, p1, p2) == (Finite(p2.xImage), Finite(p2.yImage))
    ensures ConvertWith2Samples(lat, p1.lon + u * (p2.lon - p1.lon), p1, p2).0
         == Finite(p1.xImage + u * (p2.xImage - p1.xImage))
    ensures ConvertWith2Samples(p1.lat + u * (p2.lat - p1.lat), lon, p1, p2).1
         == Finite(p1.yImage + u * (p2.yImage - p1.yImage))
  {
    ConvertAxisX(p1, p2, p1.lat, u);
    ConvertAxisX(p1, p2, p2.lat, u);
    ConvertAxisX(p1, p2, lat, u);
    ConvertAxisY(p1, p2, p1.lon, u);
    ConvertAxisY(p1, p2, p2.lon, u);
    ConvertAxisY(p1, p2, lon, u);
  }

  lemma ConvertAxisX(p1: GeoRefPoint, p2: GeoRefPoint, lat: real, u: real)
    requires p1.lon != p2.lon
    ensures ConvertWith2Samples(lat, p1.lon, p1, p2).0 == Finite(p1.xImage)
    ensures ConvertWith2Samples(lat, p2.lon, p1, p2).0 == Finite(p2.xImage)
    ensures ConvertWith2Samples(lat, p1.lon + u * (p2.lon - p1.lon), p1, p2).0
         == Finite(p1.xImage + u * (p2.xImage - p1.xImage))
  {
    InterpolateMeaning(p1.lon, p2.lon, p1.xImage, p2.xImage, u);
  }

  lemma ConvertAxisY(p1: GeoRefPoint, p2: GeoRefPoint, lon: real, u: real)
    requires p1.lat != p2.lat
    ensures ConvertWith2Samples(p1.lat, lon, p1, p2).1 == Finite(p1.yImage)
    ensures ConvertWith2Samples(p2.lat, lon, p1, p2).1 == Finite(p2.yImage)
    ensures ConvertWith2Samples(p1.lat + u * (p2.lat - p1.lat), lon, p1, p2).1
         == Finite(p1.yImage + u * (p2.yImage - p1.yImage))
  {
    InterpolateMeaning(p1.lat, p2.lat, p1.yImage, p2.yImage, u);
  }

  /** A point of (lat, lon, image coordinate) space. */
  datatype Vec3 = Vec3(x: real, y: real, z: real)

  function Sub(v: Vec3, w: Vec3): Vec3
  {
    Vec3(v.x - w.x, v.y - w.y, v.z - w.z)
  }

  function Cross(a: Vec3, b: Vec3): Vec3
  {
    Vec3(a.y * b.z - a.z * b.y, a.z * b.x - a.x * b.z, a.x * b.y - a.y * b.x)
  }

  function Dot(v: Vec3, w: Vec3): real
  {
    v.x * w.x + v.y * w.y + v.z * w.z
  }

  /** A reference point as a point of space, with its x (axis 0) or y
      (axis 1) image coordinate as height. */
  function Sample(p: GeoRefPoint, axis: int): Vec3
  {
    Vec3(p.lat, p.lon, if axis == 0 then p.xImage else p.yImage)
  }

  /** The normal n of the plane through three points, as convertWith3Samples
      computes it. */
  function Normal(v1: Vec3, v2: Vec3, v3: Vec3): Vec3
  {
    Cross(Sub(v2, v1), Sub(v3, v1))
  }

  /** The height at (lat, lon) of the plane n * x = d through v1, v2, v3. */
  function PlaneHeight(lat: real, lon: real, v1: Vec3, v2: Vec3, v3: Vec3): Coordinate
  {
    var n := Normal(v1, v2, v3);
    var d := Dot(v1, n);
    if n.z == 0.0 then NotFinite else Finite((d - n.x * lat - n.y * lon) / n.z)
  }

  /** The normal is orthogonal to both edges, so all three points lie on
      the plane. */
  lemma NormalOrthogonal(v1: Vec3, v2: Vec3, v3: Vec3)
    ensures Dot(v2, Normal(v1, v2, v3)) == Dot(v1, Normal(v1, v2, v3))
    ensures Dot(v3, Normal(v1, v2, v3)) == Dot(v1, Normal(v1, v2, v3))
  {
    var a, b := Sub(v2, v1), Sub(v3, v1);
    var n := Cross(a, b);
    assert Dot(a, n) == 0.0;
    assert Dot(b, n) == 0.0;
    assert Dot(v2, n) == Dot(v1, n) + Dot(a, n);
    assert Dot(v3, n) == Dot(v1, n) + Dot(b, n);
  }

  /** The height is defined exactly when the normal is not horizontal; the
      point (lat, lon, height) then lies on the plane through the three
      samples, and each sample's own position gives its own height. */
  lemma {:induction false} PlaneHeightMeaning(lat: real, lon: real, v1: Vec3, v2: Vec3, v3: Vec3)
    ensures PlaneHeight(lat, lon, v1, v2, v3).Finite? <==> Normal(v1, v2, v3).z != 0.0
    ensures PlaneHeight(lat, lon, v1, v2, v3).Finite? ==>
      Dot(Vec3(lat, lon, PlaneHeight(lat, lon, v1, v2, v3).value), Normal(v1, v2, v3)) == Dot(v1, Normal(v1, v2, v3))
    ensures Normal(v1, v2, v3).z != 0.0 ==>
      PlaneHeight(v1.x, v1.y, v1, v2, v3) == Finite(v1.z)
      && PlaneHeight(v2.x, v2.y, v1, v2, v3) == Finite(v2.z)
      && PlaneHeight(v3.x, v3.y, v1, v2, v3) == Finite(v3.z)
  {
    var n := Normal(v1, v2, v3);
    var d := Dot(v1, n);
    NormalOrthogonal(v1, v2, v3);
    if n.z != 0.0 {
      var h := (d - n.x * lat - n.y * lon) / n.z;
      assert h * n.z == d - n.x * lat - n.y * lon;
      PlaneHeightAt(v1, n, d);
      PlaneHeightAt(v2, n, d);
      PlaneHeightAt(v3, n, d);
    }
  }

  lemma PlaneHeightAt(v: Vec3, n: Vec3, d: real)
    requires n.z != 0.0 && Dot(v, n) == d
    ensures (d - n.x * v.x - n.y * v.y) / n.z == v.z
  {
    assert d - n.x * v.x - n.y * v.y == v.z * n.z;
  }

  /** The determinant of the three samples' lat/lon positions: zero exactly
      when they are collinear. */
  function Det(p1: GeoRefPoint, p2: GeoRefPoint, p3: GeoRefPoint): real
  {
    (p2.lat - p1.lat) * (p3.lon - p1.lon) - (p2.lon - p1.lon) * (p3.lat - p1.lat)
  }

  /** The result of convertWith3Samples: one plane per image axis. */
  function PlaneThrough(lat: real, lon: real, p1: GeoRefPoint, p2: GeoRefPoint, p3: GeoRefPoint): (r: ImagePos)
    ensures r.0.Finite? <==> Det(p1, p2, p3) != 0.0
    ensures r.1.Finite? <==> Det(p1, p2, p3) != 0.0
  {
    (PlaneHeight(lat, lon, Sample(p1, 0), Sample(p2, 0), Sample(p3, 0)),
     PlaneHeight(lat, lon, Sample(p1, 1), Sample(p2, 1), Sample(p3, 1)))
  }

  /** With samples that are not collinear, the transform reproduces each
      sample's image position at its geographical position. */
  lemma PlaneThroughSamples(p1: GeoRefPoint, p2: GeoRefPoint, p3: GeoRefPoint)
    requires Det(p1, p2, p3) != 0.0
    ensures PlaneThrough(p1.lat, p1.lon, p1, p2, p3) == (Finite(p1.xImage), Finite(p1.yImage))
    ensures PlaneThrough(p2.lat, p2.lon, p1, p2, p3) == (Finite(p2.xImage), Finite(p2.yImage))
    ensures PlaneThrough(p3.lat, p3.lon, p1, p2, p3) == (Finite(p3.xImage), Finite(p3.yImage))
  {
    PlaneHeightMeaning(p1.lat, p1.lon, Sample(p1, 0), Sample(p2, 0), Sample(p3, 0));
    PlaneHeightMeaning(p1.lat, p1.lon, Sample(p1, 1), Sample(p2, 1), Sample(p3, 1));
  }

  /** The sum of v[j] * n[j] for j < k, accumulated left to right. */
  function DotPrefix(v: seq<real>, n: seq<real>, k: nat): real
    requires k <= |v| && k <= |n|
  {
    if k == 0 then 0.0 else DotPrefix(v, n, k - 1) + v[k - 1] * n[k - 1]
  }

  /** convertWith3Samples, with its loops over the two image axes and over
      the three vector components; its local double arrays are sequences. */
  method ConvertWith3Samples(lat: real, lon: real, p1: GeoRefPoint, p2: GeoRefPoint, p3: GeoRefPoint)
    returns (r: ImagePos)
    ensures r == PlaneThrough(lat, lon, p1, p2, p3)
  {
    var result: seq<Coordinate> := [NotFinite, NotFinite];
    for i := 0 to 2
      invariant |result| == 2
      invariant forall k :: 0 <= k < i ==>
        result[k] == PlaneHeight(lat, lon, Sample(p1, k), Sample(p2, k), Sample(p3, k))
    {
      var v1 := [p1.lat, p1.lon, if i == 0 then p1.xImage else p1.yImage];
      var v2 := [p2.lat, p2.lon, if i == 0 then p2.xImage else p2.yImage];
      var v3 := [p3.lat, p3.lon, if i == 0 then p3.xImage else p3.yImage];
      var a := [0.0, 0.0, 0.0];
      for j := 0 to 3
        invariant |a| == 3
        invariant forall k :: 0 <= k < j ==> a[k] == v2[k] - v1[k]
      {
        a := a[j := v2[j] - v1[j]];
      }
      var b := [0.0, 0.0, 0.0];
      for j := 0 to 3
        invariant |b| == 3
        invariant forall k :: 0 <= k < j ==> b[k] == v3[k] - v1[k]
      {
        b := b[j := v3[j] - v1[j]];
      }
      var n := [a[1] * b[2] - a[2] * b[1], a[2] * b[0] - a[0] * b[2], a[0] * b[1] - a[1] * b[0]];
      var d := 0.0;
      for j := 0 to 3
        invariant d == DotPrefix(v1, n, j)
      {
        d := d + v1[j] * n[j];
      }
      AxisStep(lat, lon, Sample(p1, i), Sample(p2, i), Sample(p3, i), v1, v2, v3, a, b, n, d);
      result := result[i := if n[2] == 0.0 then NotFinite else Finite((d - n[0] * lat - n[1] * lon) / n[2])];
    }
    r := (result[0], result[1]);
  }

  /** One pass of convertWith3Samples' outer loop computes the plane's
      height. */
  lemma AxisStep(lat: real, lon: real, s1: Vec3, s2: Vec3, s3: Vec3,
                 v1: seq<real>, v2: seq<real>, v3: seq<real>, a: seq<real>, b: seq<real>, n: seq<real>, d: real)
    requires v1 == [s1.x, s1.y, s1.z] && v2 == [s2.x, s2.y, s2.z] && v3 == [s3.x, s3.y, s3.z]
    requires |a| == 3 && forall k :: 0 <= k < 3 ==> a[k] == v2[k] - v1[k]
    requires |b| == 3 && forall k :: 0 <= k < 3 ==> b[k] == v3[k] - v1[k]
    requires n == [a[1] * b[2] - a[2] * b[1], a[2] * b[0] - a[0] * b[2], a[0] * b[1] - a[1] * b[0]]
    requires d == DotPrefix(v1, n, 3)
    ensures PlaneHeight(lat, lon, s1, s2, s3) == if n[2] == 0.0 then NotFinite else Finite((d - n[0] * lat - n[1] * lon) / n[2])
  {
    Difference(s2, s1, v2, v1, a);
    Difference(s3, s1, v3, v1, b);
    CrossAsSeq(a, b, n);
    DotAsSeq(s1, v1, AsVec3(n), n, d);
  }

  function AsVec3(v: seq<real>): Vec3
    requires |v| == 3
  {
    Vec3(v[0], v[1], v[2])
  }

  lemma Difference(s: Vec3, t: Vec3, vs: seq<real>, vt: seq<real>, a: seq<real>)
    requires vs == [s.x, s.y, s.z] && vt == [t.x, t.y, t.z]
    requires |a| == 3 && forall k :: 0 <= k < 3 ==> a[k] == vs[k] - vt[k]
    ensures AsVec3(a) == Sub(s, t)
  {
    assert a[0] == vs[0] - vt[0] && a[1] == vs[1] - vt[1] && a[2] == vs[2] - vt[2];
  }

  lemma CrossAsSeq(a: seq<real>, b: seq<real>, n: seq<real>)
    requires |a| == 3 && |b| == 3
    requires n == [a[1] * b[2] - a[2] * b[1], a[2] * b[0] - a[0] * b[2], a[0] * b[1] - a[1] * b[0]]
    ensures AsVec3(n) == Cross(AsVec3(a), AsVec3(b))
  {
  }

  lemma DotAsSeq(s: Vec3, v: seq<real>, nv: Vec3, n: seq<real>, d: real)
    requires v == [s.x, s.y, s.z] && |n| == 3 && nv == AsVec3(n)
    requires d == DotPrefix(v, n, 3)
    ensures d == Dot(s, nv)
  {
    assert DotPrefix(v, n, 1) == 0.0 + v[0] * n[0];
  }

  function Square(x: real): real
  {
    x * x
  }

  /** The squared lat/lon distance of a reference point from (lat, lon). */
  function SquaredDistance(p: GeoRefPoint, lat: real, lon: real): real
  {
    Square(p.lat - lat) + Square(p.lon - lon)
  }

  /** The comparator latLonToImagePos sorts the reference points with. */
  function CompareDistance(lat: real, lon: real, a: GeoRefPoint, b: GeoRefPoint): int
  {
    var da, db := SquaredDistance(a, lat, lon), SquaredDistance(b, lat, lon);
    if da < db then -1 else if da > db then 1 else 0
  }

  function DistanceOrder(lat: real, lon: real): (GeoRefPoint, GeoRefPoint) -> int
  {
    (a, b) => CompareDistance(lat, lon, a, b)
  }

  /** The reference points, nearest to (lat, lon) first. */
  function NearestFirst(points: seq<GeoRefPoint>, lat: real, lon: real): seq<GeoRefPoint>
  {
    Sort(points, DistanceOrder(lat, lon))
  }

  lemma DistanceOrderIsPreorder(lat: real, lon: real, s: seq<GeoRefPoint>)
    ensures TotalPreorder(s, DistanceOrder(lat, lon))
  {
  }

  /** The sort keeps every reference point and orders them by distance, so
      its first three are three nearest points. */
  lemma NearestFirstMeaning(points: seq<GeoRefPoint>, lat: real, lon: real)
    ensures multiset(NearestFirst(points, lat, lon)) == multiset(points)
    ensures forall i, j :: 0 <= i < j < |points| ==>
      SquaredDistance(NearestFirst(points, lat, lon)[i], lat, lon)
        <= SquaredDistance(NearestFirst(points, lat, lon)[j], lat, lon)
  {
    var s := NearestFirst(points, lat, lon);
    DistanceOrderIsPreorder(lat, lon, points);
    SortSorted(points, DistanceOrder(lat, lon));
    DistanceOrderIsPreorder(lat, lon, s);
    SortedIsPairwise(s, DistanceOrder(lat, lon));
    forall i, j | 0 <= i < j < |points|
      ensures SquaredDistance(s[i], lat, lon) <= SquaredDistance(s[j], lat, lon)
    {
      assert DistanceOrder(lat, lon)(s[i], s[j]) <= 0;
    }
  }

  /** latLonToImagePos on a list of at least two reference points: two
      points interpolate, three span a plane, more use the nearest three. */
  function LatLonToImagePosOf(points: seq<GeoRefPoint>, lat: real, lon: real): ImagePos
    requires |points| >= 2
  {
    if |points| == 2 then ConvertWith2Samples(lat, lon, points[0], points[1])
    else if |points| == 3 then PlaneThrough(lat, lon, points[0], points[1], points[2])
    else
      var s := NearestFirst(points, lat, lon);
      PlaneThrough(lat, lon, s[0], s[1], s[2])
  }

  /** At the position of a reference point the transform, wherever it is
      defined, gives the image position of a reference point at that same
      position: of that very point with two or three points, of the nearest
      one chosen with more. */
  lemma LatLonToImagePosAtSample(points: seq<GeoRefPoint>, k: int)
    requires |points| >= 2 && 0 <= k < |points|
    ensures var r := LatLonToImagePosOf(points, points[k].lat, points[k].lon);
      r.0.Finite? && r.1.Finite? ==>
        exists j :: 0 <= j < |points| && points[j].lat == points[k].lat && points[j].lon == points[k].lon
          && r == (Finite(points[j].xImage), Finite(points[j].yImage))
    ensures var r := LatLonToImagePosOf(points, points[k].lat, points[k].lon);
      |points| <= 3 && r.0.Finite? && r.1.Finite? ==> r == (Finite(points[k].xImage), Finite(points[k].yImage))
  {
    var p := points[k];
    var r := LatLonToImagePosOf(points, p.lat, p.lon);
    if r.0.Finite? && r.1.Finite? {
      if |points| == 2 {
        ConvertWith2SamplesMeaning(points[0], points[1], p.lat, p.lon, 0.0);
      } else if |points| == 3 {
        PlaneThroughSamples(points[0], points[1], points[2]);
      } else {
        var s := NearestFirst(points, p.lat, p.lon);
        NearestFirstMeaning(points, p.lat, p.lon);
        assert p in multiset(s);
        var m :| 0 <= m < |s| && s[m] == p;
        ZeroDistanceAtSelf(p);
        if m > 0 {
          assert SquaredDistance(s[0], p.lat, p.lon) <= SquaredDistance(s[m], p.lat, p.lon);
        }
        ZeroDistance(s[0], p.lat, p.lon);
        PlaneThroughSamples(s[0], s[1], s[2]);
        assert s[0] in multiset(points);
        var j :| 0 <= j < |points| && points[j] == s[0];
      }
    }
  }

  lemma ZeroDistanceAtSelf(p: GeoRefPoint)
    ensures SquaredDistance(p, p.lat, p.lon) == 0.0
  {
    assert p.lat - p.lat == 0.0 && p.lon - p.lon == 0.0;
  }

  /** Only a reference point at (lat, lon) itself has distance zero. */
  lemma ZeroDistance(p: GeoRefPoint, lat: real, lon: real)
    requires SquaredDistance(p, lat, lon) <= 0.0
    ensures p.lat == lat && p.lon == lon
  {
    SquareSign(p.lat - lat);
    SquareSign(p.lon - lon);
  }

  lemma SquareSign(x: real)
    ensures Square(x) >= 0.0
    ensures x != 0.0 ==> Square(x) > 0.0
  {
    if x > 0.0 {
      ProductPositive(x, x, Square(x));
    } else if x < 0.0 {
      ProductPositive(-x, -x, Square(x));
    }
  }

  /** The product is passed in as `m`: a square compared with zero directly
      is rewritten by the solver into a test of its root. */
  lemma ProductPositive(a: real, b: real, m: real)
    requires a > 0.0 && b > 0.0 && m == a * b
    ensures m > 0.0
  {
  }

  /** MapDataManager. `hasImage` stands for the image field being non-null;
      the image itself is not modelled. */
  class MapDataManager {
    var hasImage: bool
    var params: MapParams?
    var mapParamLookup: seq<MapParams>

    /** The table is well formed and holds the current entry. */
    ghost predicate LookupValid()
      reads this
    {
      WellFormed(mapParamLookup) && (params != null ==> params in mapParamLookup)
    }

    /** An image is loaded exactly when there is a current map. */
    ghost predicate Valid()
      reads this
    {
      LookupValid() && (params != null <==> hasImage)
    }

    constructor ()
      ensures Valid() && params == null && mapParamLookup == []
    {
      hasImage := false;
      params := null;
      mapParamLookup := [];
    }

    /** setMap. With no file there is no current map and the table is kept.
        With a readable image the file's entry becomes current: its known
        entry with its points, or a fresh empty entry sorted into the table.
        With no image, or a read error (reported), there is no current map
        and the table has no entry for the file; a known entry is dropped. */
    method SetMap(mapFile: Option<Path>, outcome: ReadOutcome) returns (error: Option<string>)
      requires Valid()
      modifies this
      ensures Valid()
      ensures mapFile.None? ==> params == null && mapParamLookup == old(mapParamLookup) && error.None?
      ensures mapFile.Some? && outcome == ReadError <==> error.Some?
      ensures error.Some? ==> error.value == ReadErrorMessage(mapFile.value)
      ensures mapFile.Some? && outcome == Loaded ==>
        params != null && params.file == mapFile.value
        && (old(FindParams(mapParamLookup, mapFile.value)) != null ==>
              params == old(FindParams(mapParamLookup, mapFile.value))
              && params.refPoints == old(FindParams(mapParamLookup, mapFile.value).refPoints)
              && mapParamLookup == old(mapParamLookup))
        && (old(FindParams(mapParamLookup, mapFile.value)) == null ==>
              fresh(params) && params.refPoints == []
              && mapParamLookup == Sort<MapParams>(old(mapParamLookup) + [params], CompareParams))
      ensures mapFile.Some? && outcome != Loaded ==>
        params == null
        && (forall q | q in mapParamLookup :: q.file != mapFile.value)
        && mapParamLookup == (if old(FindParams(mapParamLookup, mapFile.value)) == null then old(mapParamLookup)
                              else RemoveFirst<MapParams>(old(mapParamLookup), old(FindParams(mapParamLookup, mapFile.value))))
    {
      hasImage, params := false, null;
      error := None;
      if mapFile.Some? {
        var f := mapFile.value;
        ghost var before := mapParamLookup;
        FindParamsMeaning(before, f);
        params := LookupMapParams(mapParamLookup, f);
        if outcome == ReadError {
          if params != null {
            ClearCurrentMap();
            RemoveEntryKeeps(before, old(FindParams(mapParamLookup, mapFile.value)));
          }
          error := Some(ReadErrorMessage(f));
        } else {
          hasImage := outcome == Loaded;
          if params == null {
            var p := new MapParams(f);
            AddEntryKeeps(mapParamLookup, p);
            mapParamLookup := Sort(mapParamLookup + [p], CompareParams);
            params := p;
            if !hasImage {
              AddRemoveRestores(before, p);
            }
          } else if !hasImage {
            RemoveEntryKeeps(before, params);
          }
        }
        if params != null && !hasImage {
          mapParamLookup := RemoveFirst<MapParams>(mapParamLookup, params);
          params := null;
        }
      }
    }

    /** clearCurrentMap: drops the current entry from the table and leaves
        no current map; nothing changes when there is none. */
    method ClearCurrentMap()
      requires LookupValid()
      modifies this
      ensures LookupValid() && params == null
      ensures old(params) == null ==> unchanged(this)
      ensures old(params) != null ==>
        !hasImage && mapParamLookup == RemoveFirst<MapParams>(old(mapParamLookup), old(params))
    {
      if params != null {
        RemoveEntryKeeps(mapParamLookup, params);
        mapParamLookup := RemoveFirst<MapParams>(mapParamLookup, params);
        params := null;
        hasImage := false;
      }
    }

    /** getAllMapFiles: the files of the table, in table order, which is
        file-name order. */
    method GetAllMapFiles() returns (result: seq<Path>)
      requires Valid()
      ensures |result| == |mapParamLookup|
      ensures forall i :: 0 <= i < |result| ==> result[i] == mapParamLookup[i].file
      ensures forall i, j :: 0 <= i < j < |result| ==> CompareTo(NameOf(result[i]), NameOf(result[j])) <= 0
    {
      result := [];
      for i := 0 to |mapParamLookup|
        invariant |result| == i
        invariant forall k :: 0 <= k < i ==> result[k] == mapParamLookup[k].file
      {
        result := result + [mapParamLookup[i].file];
      }
      forall i, j | 0 <= i < j < |result| ensures CompareTo(NameOf(result[i]), NameOf(result[j])) <= 0 {
        assert CompareParams(mapParamLookup[i], mapParamLookup[j]) <= 0;
      }
    }

    /** hasData: a current map with at least two reference points. */
    function HasData(): (r: bool)
      reads this, params
      ensures r <==> params != null && |params.refPoints| >= 2
    {
      params != null && |params.refPoints| >= 2
    }

    /** getFile: the current map's file, or null. */
    function GetFile(): (r: Option<Path>)
      reads this
      ensures r.Some? <==> params != null
      ensures r.Some? ==> r.value == params.file
    {
      if params != null then Some(params.file) else None
    }

    /** getRefPoints: the current map's points, or the empty list. */
    function GetRefPoints(): (r: seq<GeoRefPoint>)
      reads this, params
      ensures params == null ==> r == []
      ensures params != null ==> r == params.refPoints
    {
      if params != null then params.refPoints else []
    }

    /** addRefPoint: appends to the current map's points (seen through the
        table as well); nothing changes without a current map. */
    method AddRefPoint(refPoint: GeoRefPoint)
      modifies params
      ensures params != null ==> params.refPoints == old(params.refPoints) + [refPoint]
    {
      if params != null {
        params.refPoints := params.refPoints + [refPoint];
      }
    }

    /** removeRefPoint: removes the point at the index from the current
        map's points; nothing changes without a current map. The index must
        be in range, as ArrayList.remove demands. */
    method RemoveRefPoint(index: int)
      requires params != null ==> 0 <= index < |params.refPoints|
      modifies params
      ensures params != null ==>
        params.refPoints == old(params.refPoints)[..index] + old(params.refPoints)[index + 1..]
    {
      if params != null {
        params.refPoints := params.refPoints[..index] + params.refPoints[index + 1..];
      }
    }

    /** latLonToImagePos: defined for a current map with at least two
        reference points, as hasData reports. */
    method LatLonToImagePos(lat: real, lon: real) returns (r: ImagePos)
      requires HasData()
      ensures r == LatLonToImagePosOf(params.refPoints, lat, lon)
    {
      var points := params.refPoints;
      var p1, p2 := points[0], points[1];
      if |points| == 2 {
        r := ConvertWith2Samples(lat, lon, p1, p2);
      } else if |points| == 3 {
        r := ConvertWith3Samples(lat, lon, p1, p2, points[2]);
      } else {
        var sorted := Sort(points, DistanceOrder(lat, lon));
        r := ConvertWith3Samples(lat, lon, sorted[0], sorted[1], sorted[2]);
      }
    }
  }
}
