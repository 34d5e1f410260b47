/**
  The parser for /proc/self/mountinfo, whose line format is section 3.5 of the Linux kernel's
  Documentation/filesystems/proc.txt: six fields, any number of optional fields, a dash, three
  fields. The code first splits a line at " - ", then each half at " ".
 */
module MountInfo {
  import opened Words
  import opened Text

  datatype Record = Record(mountId: int, parentId: int, stDev: string, root: string, mountPoint: string,
                           mountOptions: string, optionalFields: seq<string>,
                           filesystemType: string, mountSource: string, superOptions: string)

  datatype Error = BadSeparator | BadEntry | BadNumber

  datatype Result<+T> = Ok(value: T) | Err(error: Error)

  /** What the loop body does with one line. */
  function ParseLine(line: string): Result<Record> {
    var halves := Split(line, " - ");
    if |halves| != 2 then Err(BadSeparator)
    else ParseHalves(Split(halves[0], " "), Split(halves[1], " "))
  }

  function ParseHalves(left: seq<string>, right: seq<string>): Result<Record> {
    if |left| < 6 || |right| != 3 then Err(BadEntry)
    else
      match (ParseInt(left[0]), ParseInt(left[1]))
      case (Some(mountId), Some(parentId)) =>
        Ok(Record(mountId, parentId, left[2], left[3], left[4], left[5], left[6..], right[0], right[1], right[2]))
      case _ => Err(BadNumber)
  }

  method ParseOne(line: string) returns (r: Result<Record>)
    ensures r == ParseLine(line)
  {
    var separated := Split(line, " - ");
    if |separated| != 2 {
      return Err(BadSeparator);
    }
    var left := Split(separated[0], " ");
    var right := Split(separated[1], " ");
    if |left| < 6 {
      return Err(BadEntry);
    }
    if |right| != 3 {
      return Err(BadEntry);
    }
    var mountId := ParseInt(left[0]);
    if mountId.None? {
      return Err(BadNumber);
    }
    var parentId := ParseInt(left[1]);
    if parentId.None? {
      return Err(BadNumber);
    }
    var optionalFields := [];
    for i := 6 to |left|
      invariant optionalFields == left[6..i]
    {
      optionalFields := optionalFields + [left[i]];
    }
    assert left[6..|left|] == left[6..];
    return Ok(Record(mountId.value, parentId.value, left[2], left[3], left[4], left[5], optionalFields,
                     right[0], right[1], right[2]));
  }

  // ---------------------------------------------------------------------------
  // Printing, the inverse.

  function LeftFields(r: Record): seq<string> {
    [FormatInt(r.mountId), FormatInt(r.parentId), r.stDev, r.root, r.mountPoint, r.mountOptions] + r.optionalFields
  }

  function RightFields(r: Record): seq<string> {
    [r.filesystemType, r.mountSource, r.superOptions]
  }

  function PrintLine(r: Record): string {
    Join(LeftFields(r), " ") + " - " + Join(RightFields(r), " ")
  }

  // ---------------------------------------------------------------------------
  // Splitting at " - ", seen from the fields: a separator is a field that is a lone dash and
  // has a field on either side.

  function FirstDash(fields: seq<string>): (r: Option<nat>)
    ensures r.Some? ==> 1 <= r.value < |fields| - 1 && fields[r.value] == "-"
  {
    if |fields| < 3 then None
    else if fields[1] == "-" then Some(1)
    else
      match FirstDash(fields[1..])
      case None => None
      case Some(i) => Some(i + 1)
  }

  lemma {:induction false} FirstDashIsFirst(fields: seq<string>, i: nat)
    requires 1 <= i < |fields| - 1 && fields[i] == "-"
    ensures FirstDash(fields).Some? && FirstDash(fields).value <= i
  {
    if fields[1] != "-" {
      FirstDashIsFirst(fields[1..], i - 1);
    }
  }

  function Shift(at: Option<nat>, n: nat): Option<nat> {
    match at case None => None case Some(i) => Some(n + i)
  }

  lemma {:induction false} IndexSkipsFree(a: string, s: string, sep: string)
    requires sep != "" && Free(a, sep[0])
    ensures Index(a + s, sep) == Shift(Index(s, sep), |a|)
  {
    if a == "" {
      assert a + s == s;
    } else {
      assert (a + s)[0] == a[0] != sep[0];
      assert (a + s)[1..] == a[1..] + s;
      IndexSkipsFree(a[1..], s, sep);
    }
  }

  lemma NoDashInField(f: string)
    requires Free(f, ' ')
    ensures Index(f, " - ") == None
  {
    IndexSkipsFree(f, "", " - ");
    assert f + "" == f;
  }

  /** A field list starts with "- " exactly when its first field is a lone dash and another follows. */
  lemma DashFirst(fields: seq<string>)
    requires fields != [] && AllFree(fields, ' ')
    ensures "- " <= Join(fields, " ") <==> |fields| >= 2 && fields[0] == "-"
  {
    var s, n := Join(fields, " "), |fields[0]|;
    assert Free(fields[0], ' ');
    assert "- " <= s <==> |s| >= 2 && s[0] == '-' && s[1] == ' ';
    if |fields| == 1 {
      assert forall i :: 0 <= i < |s| ==> s[i] == fields[0][i];
    } else {
      assert s == fields[0] + " " + Join(fields[1..], " ");
      assert s[n] == ' ' && forall i :: 0 <= i < n ==> s[i] == fields[0][i];
      assert n == 1 ==> fields[0] == [s[0]];
    }
  }

  /** Where " - " first occurs in a joined list of space-free fields. */
  lemma {:induction false} IndexOfDash(fields: seq<string>)
    requires fields != [] && AllFree(fields, ' ')
    ensures Index(Join(fields, " "), " - ") ==
            match FirstDash(fields) case None => None case Some(i) => Some(|Join(fields[..i], " ")|)
  {
    if |fields| == 1 {
      NoDashInField(fields[0]);
    } else {
      var rest := fields[1..];
      var tail := Join(rest, " ");
      assert Free(fields[0], ' ') && AllFree(rest, ' ');
      assert Join(fields, " ") == fields[0] + (" " + tail);
      IndexAtSpace(tail);
      IndexAfterField(fields[0], " " + tail, tail, " - ", "- " <= tail);
      DashFirst(rest);
      if "- " <= tail {
        assert fields[..1] == [fields[0]];
      } else {
        IndexOfDash(rest);
        if FirstDash(rest).Some? { JoinPrefix(fields, FirstDash(rest).value + 1); }
      }
    }
  }

  lemma IndexAfterField(f: string, s: string, tail: string, sep: string, hit: bool)
    requires sep != "" && Free(f, sep[0])
    requires Index(s, sep) == if hit then Some(0) else Shift(Index(tail, sep), 1)
    ensures Index(f + s, sep) == if hit then Some(|f|) else Shift(Index(tail, sep), |f| + 1)
  {
    IndexSkipsFree(f, s, sep);
  }

  lemma IndexAtSpace(tail: string)
    ensures Index(" " + tail, " - ") == if "- " <= tail then Some(0) else Shift(Index(tail, " - "), 1)
  {
    var s := " " + tail;
    assert s[1..] == tail;
    assert " - " <= s <==> |s| >= 3 && s[0] == ' ' && s[1] == '-' && s[2] == ' ';
    assert "- " <= tail <==> |tail| >= 2 && tail[0] == '-' && tail[1] == ' ';
  }

  lemma JoinPrefix(fields: seq<string>, i: nat)
    requires 2 <= i <= |fields|
    ensures Join(fields[..i], " ") == fields[0] + " " + Join(fields[1..][..i - 1], " ")
  {
    assert fields[..i][1..] == fields[1..][..i - 1];
  }

  lemma {:induction false} JoinConcat(a: seq<string>, b: seq<string>)
    requires a != [] && b != []
    ensures Join(a + b, " ") == Join(a, " ") + " " + Join(b, " ")
  {
    assert (a + b)[1..] == a[1..] + b;
    if |a| == 1 {
      assert a[1..] + b == b;
    } else {
      JoinConcat(a[1..], b);
    }
  }

  lemma JoinAroundDash(a: seq<string>, b: seq<string>)
    requires a != [] && b != []
    ensures Join(a + ["-"] + b, " ") == Join(a, " ") + " - " + Join(b, " ")
  {
    JoinConcat(a, ["-"] + b);
    JoinConcat(["-"], b);
    assert a + ["-"] + b == a + (["-"] + b);
    assert " " + ("-" + " " + Join(b, " ")) == " - " + Join(b, " ");
  }

  lemma SplitAtDash(fields: seq<string>)
    requires fields != [] && AllFree(fields, ' ')
    ensures Split(Join(fields, " "), " - ") ==
            match FirstDash(fields)
            case None => [Join(fields, " ")]
            case Some(i) => [Join(fields[..i], " ")] + Split(Join(fields[i + 1..], " "), " - ")
  {
    IndexOfDash(fields);
    if FirstDash(fields).Some? {
      var i := FirstDash(fields).value;
      var a, b := fields[..i], fields[i + 1..];
      assert fields == a + ["-"] + b;
      JoinAroundDash(a, b);
      var s := Join(fields, " ");
      assert s[..|Join(a, " ")|] == Join(a, " ") && s[|Join(a, " ")| + 3..] == Join(b, " ");
    }
  }

  /** The parser, seen from the fields of the line. */
  function ParseFields(fields: seq<string>): Result<Record> {
    match FirstDash(fields)
    case None => Err(BadSeparator)
    case Some(i) =>
      var right := fields[i + 1..];
      if FirstDash(right).Some? then Err(BadSeparator) else ParseHalves(fields[..i], right)
  }

  lemma ParseLineIsParseFields(fields: seq<string>)
    requires fields != [] && AllFree(fields, ' ')
    ensures ParseLine(Join(fields, " ")) == ParseFields(fields)
  {
    SplitAtDash(fields);
    match FirstDash(fields)
    case None => ParseUnsplit(Join(fields, " "));
    case Some(i) =>
      FreeSlices(fields, i);
      ParseAroundDash(Join(fields, " "), fields[..i], fields[i + 1..]);
  }

  lemma FreeSlices(fields: seq<string>, i: nat)
    requires i < |fields| && AllFree(fields, ' ')
    ensures AllFree(fields[..i], ' ') && AllFree(fields[i + 1..], ' ')
  {
  }

  lemma ParseUnsplit(line: string)
    requires Split(line, " - ") == [line]
    ensures ParseLine(line) == Err(BadSeparator)
  {
  }

  lemma ParseAroundDash(line: string, left: seq<string>, right: seq<string>)
    requires left != [] && right != [] && AllFree(left, ' ') && AllFree(right, ' ')
    requires Split(line, " - ") == [Join(left, " ")] + Split(Join(right, " "), " - ")
    ensures ParseLine(line) == if FirstDash(right).Some? then Err(BadSeparator) else ParseHalves(left, right)
  {
    SplitAtDash(right);
    if FirstDash(right).None? {
      SplitJoin(left, ' ');
      SplitJoin(right, ' ');
    }
  }

  // ---------------------------------------------------------------------------
  // The round trip, exactly.

  /**
    The records a line can carry: 64-bit ids, no space in a field, no lone dash among the fields
    before the separator, and no lone dash as mount source. A lone dash as file system type or as
    super options is harmless.
   */
  predicate Printable(r: Record) {
    && MIN_INT64 <= r.mountId <= MAX_INT64 && MIN_INT64 <= r.parentId <= MAX_INT64
    && AllFree(LeftFields(r), ' ') && AllFree(RightFields(r), ' ')
    && (forall i :: 2 <= i < |LeftFields(r)| ==> LeftFields(r)[i] != "-")
    && r.mountSource != "-"
  }

  lemma OnlyDash(left: seq<string>, right: seq<string>)
    requires |left| >= 1 && |right| == 3
    requires forall i :: 1 <= i < |left| ==> left[i] != "-"
    ensures FirstDash(left + ["-"] + right) == Some(|left|)
    ensures FirstDash(right).Some? <==> right[1] == "-"
  {
    var fields := left + ["-"] + right;
    assert forall i :: 0 <= i < |left| ==> fields[i] == left[i];
    FirstDashIsFirst(fields, |left|);
  }

  lemma HalvesOfRecord(r: Record)
    requires MIN_INT64 <= r.mountId <= MAX_INT64 && MIN_INT64 <= r.parentId <= MAX_INT64
    ensures ParseHalves(LeftFields(r), RightFields(r)) == Ok(r)
  {
    ParseFormat(r.mountId);
    ParseFormat(r.parentId);
    var left := LeftFields(r);
    assert left[0] == FormatInt(r.mountId) && left[1] == FormatInt(r.parentId) && left[6..] == r.optionalFields;
    HalvesSpell(left, RightFields(r), r);
  }

  lemma HalvesSpell(left: seq<string>, right: seq<string>, r: Record)
    requires |left| >= 6 && ParseInt(left[0]) == Some(r.mountId) && ParseInt(left[1]) == Some(r.parentId)
    requires left[2] == r.stDev && left[3] == r.root && left[4] == r.mountPoint && left[5] == r.mountOptions
    requires left[6..] == r.optionalFields && right == RightFields(r)
    ensures ParseHalves(left, right) == Ok(r)
  {
  }

  lemma PrintedFields(r: Record)
    ensures PrintLine(r) == Join(LeftFields(r) + ["-"] + RightFields(r), " ")
  {
    JoinAroundDash(LeftFields(r), RightFields(r));
  }

  /** Fields, each after a space. */
  function Spaced(fields: seq<string>): string {
    if fields == [] then "" else " " + fields[0] + Spaced(fields[1..])
  }

  lemma {:induction false} JoinIsSpaced(fields: seq<string>)
    requires fields != []
    ensures " " + Join(fields, " ") == Spaced(fields)
  {
    if |fields| > 1 { JoinIsSpaced(fields[1..]); }
  }

  lemma {:induction false} SpacedConcat(a: seq<string>, b: seq<string>)
    ensures Spaced(a + b) == Spaced(a) + Spaced(b)
  {
    if a == [] {
      assert a + b == b;
    } else {
      assert (a + b)[1..] == a[1..] + b;
      SpacedConcat(a[1..], b);
    }
  }

  /** The line of a record, as section 3.5 of Linux Documentation/filesystems/proc.txt lays it out. */
  lemma LineSpelled(r: Record)
    ensures " " + PrintLine(r) ==
            " " + FormatInt(r.mountId) + " " + FormatInt(r.parentId) + " " + r.stDev + " " + r.root +
            " " + r.mountPoint + " " + r.mountOptions + Spaced(r.optionalFields) +
            " -" + " " + r.filesystemType + " " + r.mountSource + " " + r.superOptions
  {
    var six := [FormatInt(r.mountId), FormatInt(r.parentId), r.stDev, r.root, r.mountPoint, r.mountOptions];
    var left, right := LeftFields(r), RightFields(r);
    SpacedSix(six[0], six[1], six[2], six[3], six[4], six[5]);
    SpacedThree(right[0], right[1], right[2]);
    JoinIsSpaced(left);
    JoinIsSpaced(right);
    SpacedConcat(six, r.optionalFields);
    var front, back := Join(left, " "), Join(right, " ");
    assert front + " - " + back == front + " -" + (" " + back);
    assert " " + (front + " -" + (" " + back)) == (" " + front) + " -" + (" " + back);
  }

  lemma SpacedThree(a: string, b: string, c: string)
    ensures Spaced([a, b, c]) == " " + a + " " + b + " " + c
  {
    assert [a, b, c][1..] == [b, c] && [b, c][1..] == [c] && [c][1..] == [];
    assert Spaced([c]) == " " + c && Spaced([b, c]) == " " + b + Spaced([c]);
  }

  lemma SpacedSix(a: string, b: string, c: string, d: string, e: string, f: string)
    ensures Spaced([a, b, c, d, e, f]) == " " + a + " " + b + " " + c + " " + d + " " + e + " " + f
  {
    SpacedConcat([a, b, c], [d, e, f]);
    SpacedThree(a, b, c);
    SpacedThree(d, e, f);
    assert [a, b, c] + [d, e, f] == [a, b, c, d, e, f];
  }

  lemma PrintableParses(r: Record)
    requires Printable(r)
    ensures ParseLine(PrintLine(r)) == Ok(r)
  {
    var left, right := LeftFields(r), RightFields(r);
    var fields := left + ["-"] + right;
    FormatIsField(r.parentId);
    assert forall i :: 1 <= i < |left| ==> left[i] != "-";
    PrintedFields(r);
    assert AllFree(fields, ' ') by {
      forall i | 0 <= i < |fields| ensures Free(fields[i], ' ') {
        if i < |left| { assert fields[i] == left[i]; }
        else if i == |left| { assert fields[i] == "-"; }
        else { assert fields[i] == right[i - |left| - 1]; }
      }
    }
    ParseLineIsParseFields(fields);
    OnlyDash(left, right);
    assert fields[..|left|] == left && fields[|left| + 1..] == right;
    HalvesOfRecord(r);
  }

  /** What an accepted line consists of. */
  lemma AcceptedFields(line: string) returns (left: seq<string>, right: seq<string>)
    requires ParseLine(line).Ok?
    ensures Split(line, " ") == left + ["-"] + right
    ensures ParseHalves(left, right) == ParseLine(line)
    ensures AllFree(left, ' ') && AllFree(right, ' ')
    ensures forall i :: 1 <= i < |left| ==> left[i] != "-"
    ensures |left| >= 6 && |right| == 3 && right[1] != "-"
  {
    var fields := Split(line, " ");
    JoinSplit(line, " ");
    SplitFree(line, ' ');
    ParseLineIsParseFields(fields);
    left, right := AcceptedHalves(fields);
  }

  /** The field lists that are accepted: six or more, a dash, three, and no other dash that could separate. */
  ghost predicate Acceptable(left: seq<string>, right: seq<string>) {
    && |left| >= 6 && |right| == 3
    && ParseInt(left[0]).Some? && ParseInt(left[1]).Some?
    && (forall i :: 1 <= i < |left| ==> left[i] != "-") && right[1] != "-"
  }

  /** A line is accepted exactly when its space-separated fields are acceptable. */
  lemma AcceptedIff(line: string)
    ensures ParseLine(line).Ok? <==>
            exists left, right :: Split(line, " ") == left + ["-"] + right && Acceptable(left, right)
  {
    if ParseLine(line).Ok? {
      var left, right := AcceptedFields(line);
      assert Acceptable(left, right);
    }
    forall left, right | Split(line, " ") == left + ["-"] + right && Acceptable(left, right)
      ensures ParseLine(line).Ok?
    {
      AcceptableParses(line, left, right);
    }
  }

  lemma AcceptableParses(line: string, left: seq<string>, right: seq<string>)
    requires Split(line, " ") == left + ["-"] + right && Acceptable(left, right)
    ensures ParseLine(line).Ok?
  {
    JoinSplit(line, " ");
    SplitFree(line, ' ');
    ParseLineIsParseFields(left + ["-"] + right);
    AcceptableFields(left, right);
  }

  lemma AcceptableFields(left: seq<string>, right: seq<string>)
    requires Acceptable(left, right)
    ensures ParseFields(left + ["-"] + right).Ok?
  {
    var fields := left + ["-"] + right;
    OnlyDash(left, right);
    assert fields[..|left|] == left && fields[|left| + 1..] == right;
    assert ParseFields(fields) == ParseHalves(left, right);
  }

  lemma AcceptedHalves(fields: seq<string>) returns (left: seq<string>, right: seq<string>)
    requires AllFree(fields, ' ') && ParseFields(fields).Ok?
    ensures fields == left + ["-"] + right
    ensures ParseHalves(left, right) == ParseFields(fields)
    ensures AllFree(left, ' ') && AllFree(right, ' ')
    ensures forall i :: 1 <= i < |left| ==> left[i] != "-"
    ensures |left| >= 6 && |right| == 3 && right[1] != "-"
  {
    var i := FirstDash(fields).value;
    left, right := fields[..i], fields[i + 1..];
    assert ParseHalves(left, right).Ok? && FirstDash(right) == None;
    HalvesLengths(left, right);
    FreeSlices(fields, i);
    forall j | 1 <= j < |left| ensures left[j] != "-" { NoEarlierDash(fields, j); }
  }

  lemma HalvesLengths(left: seq<string>, right: seq<string>)
    requires ParseHalves(left, right).Ok? && FirstDash(right) == None
    ensures |left| >= 6 && |right| == 3 && right[1] != "-"
  {
  }

  lemma NoEarlierDash(fields: seq<string>, j: nat)
    requires FirstDash(fields).Some? && 1 <= j < FirstDash(fields).value
    ensures fields[j] != "-"
  {
    if fields[j] == "-" { FirstDashIsFirst(fields, j); }
  }

  /** Every record the parser returns is printable. */
  lemma ParsedIsPrintable(line: string)
    requires ParseLine(line).Ok?
    ensures Printable(ParseLine(line).value)
  {
    var left, right := AcceptedFields(line);
    var r := ParseLine(line).value;
    ParseInRange(left[0]);
    ParseInRange(left[1]);
    FormatIsField(r.mountId);
    FormatIsField(r.parentId);
    RecordOfHalves(left, right, r);
    forall i | 0 <= i < |LeftFields(r)|
      ensures Free(LeftFields(r)[i], ' ') && (i >= 2 ==> LeftFields(r)[i] != "-")
    {
    }
  }

  lemma RecordOfHalves(left: seq<string>, right: seq<string>, r: Record)
    requires ParseHalves(left, right) == Ok(r)
    ensures |LeftFields(r)| == |left| && RightFields(r) == right
    ensures forall i :: 2 <= i < |left| ==> LeftFields(r)[i] == left[i]
  {
  }

  /** Printing and parsing gives the record back exactly when it is printable. */
  lemma RoundTripIff(r: Record)
    ensures ParseLine(PrintLine(r)) == Ok(r) <==> Printable(r)
  {
    if Printable(r) { PrintableParses(r); }
    if ParseLine(PrintLine(r)) == Ok(r) { ParsedIsPrintable(PrintLine(r)); }
  }

  /** Reprinting an accepted line gives the line back exactly when its two numbers are in canonical form. */
  lemma ReprintIff(line: string)
    requires ParseLine(line).Ok?
    ensures var r, fields := ParseLine(line).value, Split(line, " ");
            && |fields| >= 2
            && (PrintLine(r) == line <==> FormatInt(r.mountId) == fields[0] && FormatInt(r.parentId) == fields[1])
  {
    var r, fields := ParseLine(line).value, Split(line, " ");
    var left, right := AcceptedFields(line);
    JoinSplit(line, " ");
    PrintedFields(r);
    assert fields[0] == left[0] && fields[1] == left[1];
    if PrintLine(r) == line { ReprintedNumbers(line, r); }
    if FormatInt(r.mountId) == left[0] && FormatInt(r.parentId) == left[1] { CanonicalFields(left, right, r); }
  }

  lemma ReprintedNumbers(line: string, r: Record)
    requires ParseLine(line) == Ok(r) && PrintLine(r) == line
    ensures var fields := Split(line, " ");
            |fields| >= 2 && FormatInt(r.mountId) == fields[0] && FormatInt(r.parentId) == fields[1]
  {
    PrintableFields(line);
    SplitPrinted(r);
  }

  lemma SplitPrinted(r: Record)
    requires AllFree(LeftFields(r) + ["-"] + RightFields(r), ' ')
    ensures var fields := Split(PrintLine(r), " ");
            |fields| >= 2 && FormatInt(r.mountId) == fields[0] && FormatInt(r.parentId) == fields[1]
  {
    var printed := LeftFields(r) + ["-"] + RightFields(r);
    PrintedFields(r);
    SplitJoin(printed, ' ');
    FirstTwo(r);
  }

  lemma FirstTwo(r: Record)
    ensures var printed := LeftFields(r) + ["-"] + RightFields(r);
            |printed| >= 2 && printed[0] == FormatInt(r.mountId) && printed[1] == FormatInt(r.parentId)
  {
  }

  lemma CanonicalFields(left: seq<string>, right: seq<string>, r: Record)
    requires ParseHalves(left, right) == Ok(r)
    requires |left| >= 2 && FormatInt(r.mountId) == left[0] && FormatInt(r.parentId) == left[1]
    ensures LeftFields(r) == left && RightFields(r) == right
  {
    assert left == left[..6] + left[6..];
  }

  lemma PrintableFields(line: string)
    requires ParseLine(line).Ok?
    ensures var r := ParseLine(line).value; AllFree(LeftFields(r) + ["-"] + RightFields(r), ' ')
  {
    ParsedIsPrintable(line);
    var r := ParseLine(line).value;
    var left, right := LeftFields(r), RightFields(r);
    var fields := left + ["-"] + right;
    forall i | 0 <= i < |fields| ensures Free(fields[i], ' ') {
      if i < |left| { assert fields[i] == left[i]; }
      else if i == |left| { assert fields[i] == "-"; }
      else { assert fields[i] == right[i - |left| - 1]; }
    }
  }
}
