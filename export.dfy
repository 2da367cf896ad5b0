/** PhotoExporter: copies photos into a destination directory and, when a
    file-name template is given, renames them after it with a running,
    zero-padded number. */
module Export {
  import opened Options
  import opened JavaStrings
  import opened Files

  /** Integer.MAX_VALUE. */
  const IntMax: int := 0x7fff_ffff

  function Pow10(k: nat): (r: nat)
    ensures r >= 1
  {
    if k == 0 then 1 else 10 * Pow10(k - 1)
  }

  lemma {:induction false} Pow10Exceeds(k: nat)
    ensures Pow10(k) > k
  {
    if k > 0 {
      Pow10Exceeds(k - 1);
    }
  }

  /** A positive number has at most w decimal digits exactly when it is below
      10^w. */
  lemma {:induction false} DecimalFits(n: nat, w: nat)
    requires n >= 1
    ensures |Decimal(n)| <= w <==> n < Pow10(w)
  {
    if w > 0 {
      if n >= 10 {
        DecimalFits(n / 10, w - 1);
      } else {
        assert Pow10(w) >= 10;
      }
    }
  }

  /** DecimalFormat with a pattern of `width` zeros applied to a
      non-negative number. */
  function Padded(n: nat, width: nat): string
  {
    var d := Decimal(n);
    if |d| >= width then d else Zeros(width - |d|) + d
  }

  /** The formatted number is a run of digits that reads back as the number,
      zero-padded to the pattern width and never truncated. */
  lemma PaddedMeaning(n: nat, width: nat)
    ensures AllDigits(Padded(n, width)) && ParseDigits(Padded(n, width)) == n
    ensures |Padded(n, width)| == if |Decimal(n)| >= width then |Decimal(n)| else width
    ensures n >= 1 ==> (|Padded(n, width)| == width <==> n < Pow10(width))
  {
    ParseDecimal(n);
    var d := Decimal(n);
    if |d| < width {
      ParseLeadingZeros(width - |d|, d);
    }
    if n >= 1 {
      DecimalFits(n, width);
    }
  }

  // ---------------------------------------------------------------------
  // The file-name template

  /** Position of the template's last '.', or its length when it has none. */
  function DotPos(t: string): (d: nat)
    ensures d <= |t|
  {
    var i := LastIndexOf(t, '.');
    if i == -1 then |t| else i
  }

  /** Where the run of digits that ends at position k starts. */
  function RunStart(t: string, k: nat): (r: nat)
    requires k <= |t|
    ensures r <= k && AllDigits(t[r..k])
    ensures r > 0 ==> !IsDigit(t[r - 1])
  {
    if k > 0 && IsDigit(t[k - 1]) then
      var r := RunStart(t, k - 1);
      assert forall i | r <= i < k - 1 :: t[r..k - 1][i - r] == t[i];
      r
    else k
  }

  /** A maximal digit run is the one RunStart finds. */
  lemma {:induction false} RunStartOf(t: string, r: nat, k: nat)
    requires r <= k <= |t| && AllDigits(t[r..k])
    requires r == 0 || !IsDigit(t[r - 1])
    ensures RunStart(t, k) == r
    decreases k
  {
    if k > r {
      assert t[r..k][k - 1 - r] == t[k - 1];
      assert IsDigit(t[k - 1]);
      assert t[r..k - 1] == t[r..k][..k - 1 - r];
      AllDigitsPrefix(t[r..k], k - 1 - r);
      RunStartOf(t, r, k - 1);
      assert RunStart(t, k) == RunStart(t, k - 1);
    } else {
      assert r == 0 || !IsDigit(t[k - 1]);
    }
  }

  lemma AllDigitsPrefix(s: string, m: nat)
    requires AllDigits(s) && m <= |s|
    ensures AllDigits(s[..m])
  {
  }

  /** setDestination can split the template: the digit run before the dot
      does not reach the start. With a run at the start, the scan reads the
      character at index -1 and fails. */
  predicate TemplateShape(t: string)
  {
    RunStart(t, DotPos(t)) > 0
  }

  /** setDestination accepts the template: it can split it, and the number
      in it plus one fits a Java int (Integer.parseInt fails beyond
      Integer.MAX_VALUE). */
  predicate TemplateAccepted(t: string)
  {
    TemplateShape(t) &&
    var d := DotPos(t);
    var r := RunStart(t, d);
    r == d || ParseDigits(t[r..d]) < IntMax
  }

  /** A template split into the part before the number, the number's width,
      the suffix from the last '.' on, and the first number to hand out. */
  datatype Template = Template(prefix: string, width: nat, suffix: Option<string>, start: nat)

  function ParseTemplate(t: string): (tp: Template)
    requires TemplateShape(t)
    ensures |tp.prefix| + tp.width <= |t|
  {
    var d := DotPos(t);
    var r := RunStart(t, d);
    Template(t[..r], d - r, if d == |t| then None else Some(t[d..]),
             if r < d then ParseDigits(t[r..d]) + 1 else 1)
  }

  function SuffixText(s: Option<string>): string
  {
    if s.Some? then s.value else ""
  }

  /** A prefix is not empty and does not end in a digit. */
  predicate PrefixShape(p: string)
  {
    p != [] && !IsDigit(p[|p| - 1])
  }

  /** A suffix starts with the last '.' of the name. */
  predicate SuffixShape(s: string)
  {
    s != [] && s[0] == '.' && '.' !in s[1..]
  }

  /** The shape of a (prefix, suffix) pair that setDestination produces. */
  predicate RenameShape(prefix: string, suffix: Option<string>)
  {
    PrefixShape(prefix) &&
    (suffix.Some? ==> SuffixShape(suffix.value)) &&
    (suffix.None? ==> '.' !in prefix)
  }

  lemma NoDotInDigits(s: string)
    requires AllDigits(s)
    ensures '.' !in s
  {
  }

  /** Splitting a template: it is the prefix, then `width` digits that give
      the start number less one, then the suffix; the parts have the shape a
      renamed file name needs. */
  lemma ParseTemplateMeaning(t: string)
    requires TemplateShape(t)
    ensures var tp := ParseTemplate(t);
      var digits := t[|tp.prefix|..|tp.prefix| + tp.width];
      && t == tp.prefix + digits + SuffixText(tp.suffix)
      && AllDigits(digits)
      && RenameShape(tp.prefix, tp.suffix)
      && (tp.suffix.None? ==> '.' !in t)
      && tp.start == if tp.width == 0 then 1 else ParseDigits(digits) + 1
  {
    var d := DotPos(t);
    var r := RunStart(t, d);
    var tp := ParseTemplate(t);
    assert t == t[..r] + t[r..d] + t[d..];
    if d < |t| {
      assert t[d..][1..] == t[d + 1..];
    }
  }

  /** The converse: a prefix, a digit run and a suffix of the right shape
      split back into exactly those parts. */
  lemma ParseComposed(p: string, ds: string, e: Option<string>)
    requires RenameShape(p, e) && AllDigits(ds)
    ensures TemplateShape(p + ds + SuffixText(e))
    ensures ParseTemplate(p + ds + SuffixText(e))
      == Template(p, |ds|, e, if ds == [] then 1 else ParseDigits(ds) + 1)
  {
    DotPosComposed(p, ds, e);
    RunStartComposed(p, ds, SuffixText(e));
    ParseTemplateParts(p + ds + SuffixText(e), p, ds, e);
  }

  lemma ParseTemplateParts(t: string, p: string, ds: string, e: Option<string>)
    requires t == p + ds + SuffixText(e) && AllDigits(ds) && |p| > 0
    requires e.Some? ==> e.value != []
    requires DotPos(t) == |p| + |ds| && RunStart(t, |p| + |ds|) == |p|
    ensures TemplateShape(t)
    ensures ParseTemplate(t) == Template(p, |ds|, e, if ds == [] then 1 else ParseDigits(ds) + 1)
  {
    SlicesOfComposed(p, ds, SuffixText(e));
    SuffixOfComposed(p, ds, e);
    ParseTemplateAt(t, |p| + |ds|, |p|);
  }

  lemma SuffixOfComposed(p: string, ds: string, e: Option<string>)
    requires e.Some? ==> e.value != []
    ensures var t := p + ds + SuffixText(e);
      (if |p| + |ds| == |t| then None else Some(t[|p| + |ds|..])) == e
  {
    var t := p + ds + SuffixText(e);
    if e.Some? {
      assert t[|p| + |ds|..] == e.value;
    }
  }

  lemma SlicesOfComposed(p: string, ds: string, e: string)
    ensures (p + ds + e)[..|p|] == p
    ensures (p + ds + e)[|p|..|p| + |ds|] == ds
    ensures (p + ds + e)[|p| + |ds|..] == e
  {
  }

  lemma ParseTemplateAt(t: string, d: nat, r: nat)
    requires d <= |t| && DotPos(t) == d && RunStart(t, d) == r && r > 0
    ensures TemplateShape(t)
    ensures ParseTemplate(t) == Template(t[..r], d - r, if d == |t| then None else Some(t[d..]),
                                         if r < d then ParseDigits(t[r..d]) + 1 else 1)
  {
  }

  lemma DotPosComposed(p: string, ds: string, e: Option<string>)
    requires RenameShape(p, e) && AllDigits(ds)
    ensures DotPos(p + ds + SuffixText(e)) == |p| + |ds|
  {
    var t := p + ds + SuffixText(e);
    var k := |p| + |ds|;
    NoDotInDigits(ds);
    if e.Some? {
      assert t[k] == '.';
      assert t[k + 1..] == e.value[1..];
    } else {
      assert t == p + ds;
    }
  }

  lemma RunStartComposed(p: string, ds: string, e: string)
    requires PrefixShape(p) && AllDigits(ds)
    ensures RunStart(p + ds + e, |p| + |ds|) == |p|
  {
    var t := p + ds + e;
    assert t[|p|..|p| + |ds|] == ds;
    assert t[|p| - 1] == p[|p| - 1];
    RunStartOf(t, |p|, |p| + |ds|);
  }

  // ---------------------------------------------------------------------
  // Destination names

  /** The extension of a file name from its last '.', if it has one. */
  function Extension(name: string): (r: Option<string>)
    ensures r.Some? ==> SuffixShape(r.value)
    ensures r.None? <==> '.' !in name
  {
    var i := LastIndexOf(name, '.');
    if i == -1 then None else Some(name[i..])
  }

  /** The suffix a renamed file gets: the template's, or else the source's
      own extension. */
  function NameSuffix(suffix: Option<string>, source: string): Option<string>
  {
    if suffix.Some? then suffix else Extension(source)
  }

  /** getDestFileName while renaming, for the counter value `index`. */
  function DestFileName(prefix: string, width: nat, index: nat, suffix: Option<string>, source: string): string
  {
    prefix + Padded(index, width) + SuffixText(NameSuffix(suffix, source))
  }

  /** A renamed file name read as a template splits into the prefix, the
      padded number and the suffix, and continues the numbering after it. */
  lemma DestNameContinues(prefix: string, width: nat, index: nat, suffix: Option<string>, source: string)
    requires RenameShape(prefix, suffix)
    ensures var n := DestFileName(prefix, width, index, suffix, source);
      TemplateShape(n) &&
      ParseTemplate(n) == Template(prefix, |Padded(index, width)|, NameSuffix(suffix, source), index + 1)
  {
    PaddedMeaning(index, width);
    ParseComposed(prefix, Padded(index, width), NameSuffix(suffix, source));
  }

  /** Two renamed names with different counter values differ, whatever the
      widths and the source names. */
  lemma DestNamesDistinct(prefix: string, suffix: Option<string>, w1: nat, w2: nat,
                          i: nat, j: nat, s1: string, s2: string)
    requires RenameShape(prefix, suffix) && i != j
    ensures DestFileName(prefix, w1, i, suffix, s1) != DestFileName(prefix, w2, j, suffix, s2)
  {
    DestNameContinues(prefix, w1, i, suffix, s1);
    DestNameContinues(prefix, w2, j, suffix, s2);
  }

  /** The two sample runs in the source's commented-out harness: template
      "d" numbers from 1 and keeps the source extension; "d-009.e" numbers
      from 10 with three digits and its own suffix. */
  lemma TemplateExampleD()
    ensures TemplateShape("d") && ParseTemplate("d") == Template("d", 0, None, 1)
  {
    ParseComposed("d", "", None);
    assert "d" + "" + "" == "d";
  }

  lemma NameExampleD()
    ensures DestFileName("d", 0, 1, None, "x.z") == "d1.z"
    ensures DestFileName("d", 0, 2, None, "xy.z") == "d2.z"
  {
    assert LastIndexOf("x.z", '.') == 1;
    assert LastIndexOf("xy.z", '.') == 2;
  }

  lemma TemplateExampleD009()
    ensures TemplateShape("d-009.e") && ParseTemplate("d-009.e") == Template("d-", 3, Some(".e"), 10)
  {
    NineValue();
    ParseComposed("d-", "009", Some(".e"));
    assert "d-" + "009" + ".e" == "d-009.e";
  }

  lemma NineValue()
    ensures AllDigits("009") && ParseDigits("009") == 9
  {
    assert "009" == Zeros(2) + "9";
    assert "9"[..0] == "";
    ParseLeadingZeros(2, "9");
  }

  lemma NameExampleD009()
    ensures DestFileName("d-", 3, 10, Some(".e"), "x.z") == "d-010.e"
    ensures DestFileName("d-", 3, 11, Some(".e"), "xy.z") == "d-011.e"
  {
    assert Decimal(10) == "10";
    assert Decimal(11) == "11";
  }

  // ---------------------------------------------------------------------
  // A batch of copies

  /** The number-format width copyFiles uses for a batch of n files: the
      current width, widened to the digit count of n. */
  function Widened(width: nat, n: nat): nat
  {
    if n == 0 || |Decimal(n)| <= width then width else |Decimal(n)|
  }

  /** After widening for a batch of n files, each counter value from 1 to n
      is formatted to exactly the widened width. */
  lemma {:induction false} WidenedFits(width: nat, n: nat, k: nat)
    requires 1 <= k <= n
    ensures |Padded(k, Widened(width, n))| == Widened(width, n)
  {
    var w := Widened(width, n);
    DecimalFits(n, w);
    PaddedMeaning(k, w);
  }

  /** The destination name of a batch member. */
  function DestName(prefix: Option<string>, width: nat, index: nat, suffix: Option<string>, source: string): string
  {
    if prefix.None? then source else DestFileName(prefix.value, width, index, suffix, source)
  }

  /** new File(destDir, name): a null directory leaves the bare name. */
  function DestPath(dir: Option<Path>, name: string): Path
  {
    if dir.None? then name else Join(dir.value, name)
  }

  /** The Files.copy calls copyFiles makes: each file, in order, to its
      destination under the counter value `start` plus its position. */
  function CopyPlan(dir: Option<Path>, prefix: Option<string>, width: nat, start: nat,
                    suffix: Option<string>, files: seq<Path>): (r: seq<(Path, Path)>)
    ensures |r| == |files|
  {
    Enumerate(EntryOf(dir, prefix, width, suffix), start, files)
  }

  /** The copy call for one file: from the file to its destination. */
  function PlanEntry(dir: Option<Path>, prefix: Option<string>, width: nat, index: nat,
                     suffix: Option<string>, file: Path): (Path, Path)
  {
    (file, DestPath(dir, DestName(prefix, width, index, suffix, NameOf(file))))
  }

  function EntryOf(dir: Option<Path>, prefix: Option<string>, width: nat,
                   suffix: Option<string>): (nat, Path) -> (Path, Path)
  {
    (index: nat, file: Path) => PlanEntry(dir, prefix, width, index, suffix, file)
  }

  /** f applied to each element of s together with its counter value,
      counting from start. */
  function Enumerate<T, U>(f: (nat, T) -> U, start: nat, s: seq<T>): (r: seq<U>)
    ensures |r| == |s|
  {
    if s == [] then [] else Enumerate(f, start, s[..|s| - 1]) + [f(start + |s| - 1, s[|s| - 1])]
  }

  lemma EnumerateStep<T, U>(f: (nat, T) -> U, start: nat, s: seq<T>, i: nat)
    requires i < |s|
    ensures Enumerate(f, start, s[..i + 1]) == Enumerate(f, start, s[..i]) + [f(start + i, s[i])]
  {
    assert s[..i + 1][..i] == s[..i];
  }

  lemma {:induction false} EnumerateAt<T, U>(f: (nat, T) -> U, start: nat, s: seq<T>, k: nat)
    requires k < |s|
    ensures Enumerate(f, start, s)[k] == f(start + k, s[k])
    decreases |s|
  {
    if k < |s| - 1 {
      EnumerateAt(f, start, s[..|s| - 1], k);
    }
  }

  lemma CopyPlanStep(dir: Option<Path>, prefix: Option<string>, width: nat, start: nat,
                     suffix: Option<string>, files: seq<Path>, i: nat)
    requires i < |files|
    ensures CopyPlan(dir, prefix, width, start, suffix, files[..i + 1])
      == CopyPlan(dir, prefix, width, start, suffix, files[..i])
         + [PlanEntry(dir, prefix, width, start + i, suffix, files[i])]
  {
    EnumerateStep(EntryOf(dir, prefix, width, suffix), start, files, i);
  }

  lemma CopyPlanAt(dir: Option<Path>, prefix: Option<string>, width: nat, start: nat,
                   suffix: Option<string>, files: seq<Path>, k: nat)
    requires k < |files|
    ensures CopyPlan(dir, prefix, width, start, suffix, files)[k]
      == EntryOf(dir, prefix, width, suffix)(start + k, files[k])
  {
    EnumerateAt(EntryOf(dir, prefix, width, suffix), start, files, k);
  }

  /** While renaming into a directory, no two files of a batch are copied to
      the same destination. */
  lemma CopyPlanDistinct(dir: Path, prefix: string, width: nat, start: nat,
                         suffix: Option<string>, files: seq<Path>, i: int, j: int)
    requires RenameShape(prefix, suffix)
    requires 0 <= i < j < |files|
    ensures CopyPlan(Some(dir), Some(prefix), width, start, suffix, files)[i].1
         != CopyPlan(Some(dir), Some(prefix), width, start, suffix, files)[j].1
  {
    CopyPlanAt(Some(dir), Some(prefix), width, start, suffix, files, i);
    CopyPlanAt(Some(dir), Some(prefix), width, start, suffix, files, j);
    PlanEntriesDistinct(dir, prefix, width, start + i, start + j, suffix, files[i], files[j]);
  }

  lemma PlanEntriesDistinct(dir: Path, prefix: string, width: nat, i: nat, j: nat,
                            suffix: Option<string>, f1: Path, f2: Path)
    requires RenameShape(prefix, suffix) && i != j
    ensures PlanEntry(Some(dir), Some(prefix), width, i, suffix, f1).1
         != PlanEntry(Some(dir), Some(prefix), width, j, suffix, f2).1
  {
    var a := DestFileName(prefix, width, i, suffix, NameOf(f1));
    var b := DestFileName(prefix, width, j, suffix, NameOf(f2));
    DestNamesDistinct(prefix, suffix, width, width, i, j, NameOf(f1), NameOf(f2));
    JoinInjective(dir, a, b);
  }

  lemma JoinInjective(dir: Path, a: string, b: string)
    ensures Join(dir, a) == Join(dir, b) ==> a == b
  {
    assert a == Join(dir, a)[|dir| + 1..];
    assert b == Join(dir, b)[|dir| + 1..];
  }

  /** The number of copies that succeeded. */
  function CountCopied(ok: seq<bool>): (r: nat)
    ensures r <= |ok|
    ensures r == 0 <==> forall i :: 0 <= i < |ok| ==> !ok[i]
    ensures r == |ok| <==> forall i :: 0 <= i < |ok| ==> ok[i]
  {
    if ok == [] then 0
    else
      var r := CountCopied(ok[..|ok| - 1]);
      assert forall i | 0 <= i < |ok| - 1 :: ok[..|ok| - 1][i] == ok[i];
      r + (if ok[|ok| - 1] then 1 else 0)
  }

  lemma CountCopiedStep(copied: seq<bool>, i: nat)
    requires i < |copied|
    ensures CountCopied(copied[..i + 1]) == CountCopied(copied[..i]) + if copied[i] then 1 else 0
  {
    assert copied[..i + 1][..i] == copied[..i];
  }

  /** The warning copyFiles reports for a file it could not copy. */
  function CopyWarning(file: Path): string
  {
    "Could not copy file " + NameOf(file) + "."
  }

  /** The warnings of a batch, in file order. */
  function CopyWarnings(files: seq<Path>, ok: seq<bool>): (r: seq<string>)
    requires |ok| == |files|
    ensures |r| + CountCopied(ok) == |files|
  {
    if files == [] then []
    else
      CopyWarnings(files[..|files| - 1], ok[..|ok| - 1])
        + (if ok[|ok| - 1] then [] else [CopyWarning(files[|files| - 1])])
  }

  /** The template scan of setDestination: the suffix from the last '.',
      then the digits before it counted off one by one into a pattern of
      zeros, the prefix before them and the start number. */
  method SplitTemplate(t: string) returns (prefix: string, suffix: Option<string>, format: string, index: nat)
    requires TemplateAccepted(t)
    ensures var tp := ParseTemplate(t);
      prefix == tp.prefix && suffix == tp.suffix && format == Zeros(tp.width) && index == tp.start
  {
    var dotPos := LastIndexOf(t, '.');
    if dotPos == -1 {
      dotPos := |t|;
      suffix := None;
    } else {
      suffix := Some(t[dotPos..]);
    }
    assert dotPos == DotPos(t);
    var numPos := dotPos;
    format := "";
    while IsDigit(t[numPos - 1])
      invariant RunStart(t, dotPos) <= numPos <= dotPos
      invariant RunStart(t, numPos) == RunStart(t, dotPos)
      invariant format == Zeros(dotPos - numPos)
      decreases numPos
    {
      numPos := numPos - 1;
      format := format + "0";
    }
    prefix := t[..numPos];
    if numPos < dotPos {
      index := ParseDigits(t[numPos..dotPos]) + 1;
    } else {
      index := 1;
    }
  }

  lemma CopyWarningsStep(files: seq<Path>, copied: seq<bool>, i: nat)
    requires |copied| == |files| && i < |files|
    ensures CopyWarnings(files[..i + 1], copied[..i + 1])
      == CopyWarnings(files[..i], copied[..i]) + if copied[i] then [] else [CopyWarning(files[i])]
  {
    assert copied[..i + 1][..i] == copied[..i];
    assert files[..i + 1][..i] == files[..i];
  }

  class PhotoExporter {
    var destDir: Option<Path>
    /** None: renaming is disabled. */
    var namePrefix: Option<string>
    var nameSuffix: Option<string>
    /** A run of zeros: the pattern the counter is formatted with. */
    var numFormatString: string
    var currIndex: nat

    predicate Valid()
      reads this
    {
      numFormatString == Zeros(|numFormatString|) &&
      (namePrefix.Some? ==> RenameShape(namePrefix.value, nameSuffix))
    }

    constructor()
      ensures Valid()
      ensures destDir == None && namePrefix == None && nameSuffix == None
      ensures numFormatString == "" && currIndex == 0
    {
      destDir := None;
      namePrefix := None;
      nameSuffix := None;
      numFormatString := "";
      currIndex := 0;
    }

    /** setDestination: a template is split into prefix, number pattern,
        suffix and start number; no template turns renaming off and leaves
        the rest as it was. */
    method SetDestination(dir: Path, template: Option<string>)
      requires Valid()
      requires template.Some? ==> TemplateAccepted(template.value)
      modifies this
      ensures Valid()
      ensures destDir == Some(dir)
      ensures template.None? ==>
        namePrefix == None && nameSuffix == old(nameSuffix) &&
        numFormatString == old(numFormatString) && currIndex == old(currIndex)
      ensures template.Some? ==>
        var tp := ParseTemplate(template.value);
        namePrefix == Some(tp.prefix) && nameSuffix == tp.suffix &&
        numFormatString == Zeros(tp.width) && currIndex == tp.start
    {
      destDir := Some(dir);
      if template.Some? {
        var prefix, suffix, format, index := SplitTemplate(template.value);
        ParseTemplateMeaning(template.value);
        nameSuffix := suffix;
        numFormatString := format;
        namePrefix := Some(prefix);
        currIndex := index;
      } else {
        namePrefix := None;
      }
    }

    /** getDestFileName: the source name while not renaming; otherwise the
        renamed name for the current counter, which then moves on by one. */
    method GetDestFileName(sourceFileName: string) returns (name: string)
      requires Valid()
      modifies this
      ensures Valid()
      ensures destDir == old(destDir) && namePrefix == old(namePrefix)
      ensures nameSuffix == old(nameSuffix) && numFormatString == old(numFormatString)
      ensures name == DestName(namePrefix, |numFormatString|, old(currIndex), nameSuffix, sourceFileName)
      ensures currIndex == if namePrefix.None? then old(currIndex) else old(currIndex) + 1
    {
      if namePrefix.None? {
        name := sourceFileName;
      } else {
        name := namePrefix.value;
        name := name + Padded(currIndex, |numFormatString|);
        currIndex := currIndex + 1;
        if nameSuffix.Some? {
          name := name + nameSuffix.value;
        } else {
          var dotPos := LastIndexOf(sourceFileName, '.');
          if dotPos != -1 {
            name := name + sourceFileName[dotPos..];
          }
        }
      }
    }

    /** Widens the number pattern to the digit count of n. */
    method WidenFormat(n: nat)
      requires Valid()
      modifies this
      ensures Valid()
      ensures destDir == old(destDir) && namePrefix == old(namePrefix)
      ensures nameSuffix == old(nameSuffix) && currIndex == old(currIndex)
      ensures numFormatString == Zeros(Widened(|old(numFormatString)|, n))
    {
      while n >= Pow10(|numFormatString|)
        invariant Valid()
        invariant destDir == old(destDir) && namePrefix == old(namePrefix)
        invariant nameSuffix == old(nameSuffix) && currIndex == old(currIndex)
        invariant |old(numFormatString)| <= |numFormatString|
        invariant |numFormatString| > |old(numFormatString)| ==> n >= Pow10(|numFormatString| - 1)
        decreases n - |numFormatString|
      {
        Pow10Exceeds(|numFormatString|);
        numFormatString := numFormatString + "0";
      }
      if n >= 1 {
        DecimalFits(n, |numFormatString|);
        if |numFormatString| > |old(numFormatString)| {
          DecimalFits(n, |numFormatString| - 1);
        }
      }
    }

    /** After the first i files of a batch whose counter started at
        `start`: the count, the copy calls and the warnings so far. */
    predicate CopiedUpTo(files: seq<Path>, copied: seq<bool>, i: nat, start: nat,
                         result: int, copies: seq<(Path, Path)>, warnings: seq<string>)
      requires |copied| == |files| && i <= |files|
      reads this
    {
      Valid() &&
      currIndex == (if namePrefix.None? then start else start + i) &&
      result == CountCopied(copied[..i]) &&
      copies == CopyPlan(destDir, namePrefix, |numFormatString|, start, nameSuffix, files[..i]) &&
      warnings == CopyWarnings(files[..i], copied[..i])
    }

    /** One pass of copyFiles' loop: name the file, copy it, count it or
        warn about it. */
    method CopyNext(files: seq<Path>, copied: seq<bool>, i: nat, ghost start: nat,
                    result: int, copies: seq<(Path, Path)>, warnings: seq<string>)
      returns (result': int, copies': seq<(Path, Path)>, warnings': seq<string>)
      requires |copied| == |files| && i < |files|
      requires CopiedUpTo(files, copied, i, start, result, copies, warnings)
      modifies this
      ensures destDir == old(destDir) && namePrefix == old(namePrefix)
      ensures nameSuffix == old(nameSuffix) && numFormatString == old(numFormatString)
      ensures CopiedUpTo(files, copied, i + 1, start, result', copies', warnings')
    {
      var name := GetDestFileName(NameOf(files[i]));
      var dest := DestPath(destDir, name);
      CopyPlanStep(destDir, namePrefix, |numFormatString|, start, nameSuffix, files, i);
      CountCopiedStep(copied, i);
      CopyWarningsStep(files, copied, i);
      copies' := copies + [(files[i], dest)];
      if copied[i] {
        result', warnings' := result + 1, warnings;
      } else {
        result', warnings' := result, warnings + [CopyWarning(files[i])];
      }
    }

    /** copyFiles: `copied` tells, file by file, whether Files.copy
        succeeded. Returns the number of copies, the copy calls made and the
        warnings reported. */
    method CopyFiles(files: seq<Path>, copied: seq<bool>)
      returns (result: int, copies: seq<(Path, Path)>, warnings: seq<string>)
      requires Valid() && |copied| == |files|
      modifies this
      ensures Valid()
      ensures destDir == old(destDir) && namePrefix == old(namePrefix) && nameSuffix == old(nameSuffix)
      ensures numFormatString == if namePrefix.None? then old(numFormatString)
                                 else Zeros(Widened(|old(numFormatString)|, |files|))
      ensures currIndex == if namePrefix.None? then old(currIndex) else old(currIndex) + |files|
      ensures result == CountCopied(copied)
      ensures copies == CopyPlan(destDir, namePrefix, |numFormatString|, old(currIndex), nameSuffix, files)
      ensures warnings == CopyWarnings(files, copied)
    {
      result := 0;
      if namePrefix.Some? {
        WidenFormat(|files|);
      }
      copies, warnings := [], [];
      for i := 0 to |files|
        invariant destDir == old(destDir) && namePrefix == old(namePrefix) && nameSuffix == old(nameSuffix)
        invariant numFormatString == if namePrefix.None? then old(numFormatString)
                                     else Zeros(Widened(|old(numFormatString)|, |files|))
        invariant CopiedUpTo(files, copied, i, old(currIndex), result, copies, warnings)
      {
        result, copies, warnings := CopyNext(files, copied, i, old(currIndex), result, copies, warnings);
      }
      assert files[..|files|] == files;
      assert copied[..|copied|] == copied;
    }
  }

}
