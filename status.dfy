/** StatusArea: the status line of the viewer. Its error handler counts
    warnings, errors and fatal errors; setting the status text appends the
    counts not yet shown and starts counting afresh. */
module Status {
  import opened JavaStrings

  /** One part of the error information: a space, the count and its tag,
      or nothing for a count of 0. */
  function Segment(n: nat, tag: string): (r: string)
    ensures n == 0 <==> r == []
  {
    if n == 0 then "" else " " + Decimal(n) + tag
  }

  /** What formatErrorInfo shows for the counters: the fatal errors (tag
      "fe"), then the errors ("e"), then the warnings ("w"), each only when
      its count is not 0. */
  function ErrorInfo(fatalErrors: nat, errors: nat, warnings: nat): string
  {
    Segment(fatalErrors, "fe") + Segment(errors, "e") + Segment(warnings, "w")
  }

  /** The error information is empty exactly when every counter is 0. */
  lemma ErrorInfoEmpty(fatalErrors: nat, errors: nat, warnings: nat)
    ensures ErrorInfo(fatalErrors, errors, warnings) == "" <==> fatalErrors == 0 && errors == 0 && warnings == 0
  {
    var s := ErrorInfo(fatalErrors, errors, warnings);
    assert |s| == |Segment(fatalErrors, "fe")| + |Segment(errors, "e")| + |Segment(warnings, "w")|;
  }

  /** The length of the run of digits that starts s. */
  function DigitPrefix(s: string): (k: nat)
    ensures k <= |s| && AllDigits(s[..k])
    ensures k < |s| ==> !IsDigit(s[k])
  {
    if s == [] || !IsDigit(s[0]) then 0
    else
      var k := DigitPrefix(s[1..]);
      assert s[..k + 1] == [s[0]] + s[1..][..k];
      k + 1
  }

  /** A run of digits followed by a non-digit is the digit prefix. */
  lemma {:induction false} DigitPrefixOf(d: string, u: string)
    requires AllDigits(d) && 0 < |u| && !IsDigit(u[0])
    ensures DigitPrefix(d + u) == |d|
  {
    if d != [] {
      assert (d + u)[1..] == d[1..] + u;
      DigitPrefixOf(d[1..], u);
    }
  }

  /** Reads one part of the error information with the given tag from the
      front of s: its count and what follows it, or 0 and s unchanged when
      s does not start with such a part. */
  function ReadSegment(s: string, tag: string): (r: (nat, string))
    ensures r.0 == 0 ==> r.1 == s
  {
    if |s| < 2 || s[0] != ' ' then (0, s)
    else
      var t := s[1..];
      var k := DigitPrefix(t);
      if 0 < k && k + |tag| <= |t| && t[k..k + |tag|] == tag && ParseDigits(t[..k]) > 0
      then (ParseDigits(t[..k]), t[k + |tag|..])
      else (0, s)
  }

  /** Reads the three counters back from the error information. */
  function ReadErrorInfo(s: string): (nat, nat, nat)
  {
    var fatal := ReadSegment(s, "fe");
    var errors := ReadSegment(fatal.1, "e");
    var warnings := ReadSegment(errors.1, "w");
    (fatal.0, errors.0, warnings.0)
  }

  /** A part with a nonzero count reads back as that count. */
  lemma SegmentRead(n: nat, tag: string, rest: string)
    requires n > 0 && 0 < |tag| && !IsDigit(tag[0])
    ensures ReadSegment(Segment(n, tag) + rest, tag) == (n, rest)
  {
    var d := Decimal(n);
    var s := Segment(n, tag) + rest;
    var t := s[1..];
    assert t == d + (tag + rest);
    DigitPrefixOf(d, tag + rest);
    assert t[..|d|] == d;
    assert t[|d|..|d| + |tag|] == tag;
    assert t[|d| + |tag|..] == rest;
    ParseDecimal(n);
  }

  /** A part reads back as its count, provided that what follows does not
      start with a part of the same tag. */
  lemma ReadPart(n: nat, tag: string, rest: string)
    requires 0 < |tag| && !IsDigit(tag[0])
    requires ReadSegment(rest, tag) == (0, rest)
    ensures ReadSegment(Segment(n, tag) + rest, tag) == (n, rest)
  {
    if n > 0 {
      SegmentRead(n, tag, rest);
    } else {
      assert Segment(n, tag) + rest == rest;
    }
  }

  /** A part with another tag is not read as this one. */
  lemma ForeignSegment(m: nat, other: string, rest: string, tag: string)
    requires m > 0 && 0 < |other| && !IsDigit(other[0]) && 0 < |tag| && tag[0] != other[0]
    ensures ReadSegment(Segment(m, other) + rest, tag) == (0, Segment(m, other) + rest)
  {
    var d := Decimal(m);
    var s := Segment(m, other) + rest;
    var t := s[1..];
    assert t == d + (other + rest);
    DigitPrefixOf(d, other + rest);
    assert t[|d|] == other[0];
  }

  /** The tail after the fatal-error part reads as no fatal errors. */
  lemma NoFatalPart(errors: nat, warnings: nat)
    ensures var s := Segment(errors, "e") + Segment(warnings, "w");
      ReadSegment(s, "fe") == (0, s)
  {
    if errors > 0 {
      ForeignSegment(errors, "e", Segment(warnings, "w"), "fe");
    } else if warnings > 0 {
      assert Segment(errors, "e") + Segment(warnings, "w") == Segment(warnings, "w") + "";
      ForeignSegment(warnings, "w", "", "fe");
    }
  }

  /** The tail after the error part reads as no errors. */
  lemma NoErrorPart(warnings: nat)
    ensures ReadSegment(Segment(warnings, "w"), "e") == (0, Segment(warnings, "w"))
  {
    if warnings > 0 {
      assert Segment(warnings, "w") == Segment(warnings, "w") + "";
      ForeignSegment(warnings, "w", "", "e");
    }
  }

  /** The error information can be read back: it names each count. */
  lemma ErrorInfoRoundTrip(fatalErrors: nat, errors: nat, warnings: nat)
    ensures ReadErrorInfo(ErrorInfo(fatalErrors, errors, warnings)) == (fatalErrors, errors, warnings)
  {
    FatalRead(fatalErrors, errors, warnings);
    ErrorsRead(errors, warnings);
    WarningsRead(warnings);
  }

  /** The fatal-error part is read first, leaving the other two parts. */
  lemma FatalRead(fatalErrors: nat, errors: nat, warnings: nat)
    ensures ReadSegment(ErrorInfo(fatalErrors, errors, warnings), "fe")
            == (fatalErrors, Segment(errors, "e") + Segment(warnings, "w"))
  {
    var tail := Segment(errors, "e") + Segment(warnings, "w");
    assert ErrorInfo(fatalErrors, errors, warnings) == Segment(fatalErrors, "fe") + tail;
    NoFatalPart(errors, warnings);
    ReadPart(fatalErrors, "fe", tail);
  }

  /** The error part is read next, leaving the warning part. */
  lemma ErrorsRead(errors: nat, warnings: nat)
    ensures ReadSegment(Segment(errors, "e") + Segment(warnings, "w"), "e") == (errors, Segment(warnings, "w"))
  {
    NoErrorPart(warnings);
    ReadPart(errors, "e", Segment(warnings, "w"));
  }

  /** The warning part is read last. */
  lemma WarningsRead(warnings: nat)
    ensures ReadSegment(Segment(warnings, "w"), "w").0 == warnings
  {
    ReadPart(warnings, "w", "");
    assert Segment(warnings, "w") + "" == Segment(warnings, "w");
  }

  /** Different counters give different error information. */
  lemma ErrorInfoInjective(f1: nat, e1: nat, w1: nat, f2: nat, e2: nat, w2: nat)
    requires ErrorInfo(f1, e1, w1) == ErrorInfo(f2, e2, w2)
    ensures f1 == f2 && e1 == e2 && w1 == w2
  {
    ErrorInfoRoundTrip(f1, e1, w1);
    ErrorInfoRoundTrip(f2, e2, w2);
  }

  /** One if-statement of formatErrorInfo: a positive counter appends a
      space, its value and its tag. */
  method AppendCount(result: string, n: nat, tag: string) returns (r: string)
    ensures r == result + Segment(n, tag)
  {
    r := result;
    if n > 0 {
      r := r + " " + Decimal(n) + tag;
    }
  }

  class StatusArea {
    var warningCount: nat
    var errorCount: nat
    var fatalErrorCount: nat
    /** The text the area shows. */
    var text: string

    constructor ()
      ensures warningCount == 0 && errorCount == 0 && fatalErrorCount == 0 && text == ""
    {
      warningCount, errorCount, fatalErrorCount := 0, 0, 0;
      text := "";
    }

    /** The status error handler's handleWarning: one more warning. */
    method HandleWarning()
      modifies this`warningCount
      ensures warningCount == old(warningCount) + 1
      ensures errorCount == old(errorCount) && fatalErrorCount == old(fatalErrorCount) && text == old(text)
    {
      warningCount := warningCount + 1;
    }

    /** The status error handler's handleError: one more error. */
    method HandleError()
      modifies this`errorCount
      ensures errorCount == old(errorCount) + 1
      ensures warningCount == old(warningCount) && fatalErrorCount == old(fatalErrorCount) && text == old(text)
    {
      errorCount := errorCount + 1;
    }

    /** The status error handler's handleFatalError: one more fatal error. */
    method HandleFatalError()
      modifies this`fatalErrorCount
      ensures fatalErrorCount == old(fatalErrorCount) + 1
      ensures warningCount == old(warningCount) && errorCount == old(errorCount) && text == old(text)
    {
      fatalErrorCount := fatalErrorCount + 1;
    }

    /** formatErrorInfo: the counts not yet shown; all counters restart at 0. */
    method FormatErrorInfo() returns (info: string)
      modifies this`warningCount, this`errorCount, this`fatalErrorCount
      ensures info == ErrorInfo(old(fatalErrorCount), old(errorCount), old(warningCount))
      ensures warningCount == 0 && errorCount == 0 && fatalErrorCount == 0
      ensures !HasUndisplayedErrors()
    {
      var result := "";
      result := AppendCount(result, fatalErrorCount, "fe");
      result := AppendCount(result, errorCount, "e");
      result := AppendCount(result, warningCount, "w");
      fatalErrorCount := 0;
      errorCount := 0;
      warningCount := 0;
      info := result;
    }

    /** hasUndisplayedErrors: whether the next status text would carry
        error information. */
    function HasUndisplayedErrors(): (r: bool)
      reads this
      ensures r <==> ErrorInfo(fatalErrorCount, errorCount, warningCount) != ""
    {
      ErrorInfoEmpty(fatalErrorCount, errorCount, warningCount);
      fatalErrorCount > 0 || errorCount > 0 || warningCount > 0
    }

    /** setStatus: shows the text followed by the error information, which
        restarts the counters. */
    method SetStatus(t: string)
      modifies this
      ensures text == t + ErrorInfo(old(fatalErrorCount), old(errorCount), old(warningCount))
      ensures warningCount == 0 && errorCount == 0 && fatalErrorCount == 0
      ensures !HasUndisplayedErrors()
    {
      var info := FormatErrorInfo();
      text := t + info;
    }
  }

}
