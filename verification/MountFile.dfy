/**
  The whole mount table: cutting it into lines, parsing all of them or none, and printing it
  again.
 */
module MountFile {
  import opened Text
  import opened MountInfo

  // ---------------------------------------------------------------------------
  // All lines or none.

  /** All values, or the first error. */
  function Collect<T>(results: seq<Result<T>>): Result<seq<T>> {
    if results == [] then Ok([])
    else
      match Collect(results[..|results| - 1])
      case Err(e) => Err(e)
      case Ok(values) =>
        match results[|results| - 1]
        case Err(e) => Err(e)
        case Ok(value) => Ok(values + [value])
  }

  lemma CollectMore<T>(results: seq<Result<T>>, k: nat, values: seq<T>)
    requires k < |results| && Collect(results[..k]) == Ok(values)
    ensures Collect(results[..k + 1]) == match results[k] case Err(e) => Err(e) case Ok(value) => Ok(values + [value])
  {
    assert results[..k + 1][..k] == results[..k];
  }

  lemma {:induction false} CollectStop<T>(results: seq<Result<T>>, k: nat)
    requires k <= |results| && Collect(results[..k]).Err?
    ensures Collect(results) == Collect(results[..k])
    decreases |results| - k
  {
    if k == |results| {
      assert results[..k] == results;
    } else {
      assert results[..k + 1][..k] == results[..k];
      CollectStop(results, k + 1);
    }
  }

  lemma {:induction false} CollectOkIff<T>(results: seq<Result<T>>, values: seq<T>)
    ensures Collect(results) == Ok(values) <==>
            |values| == |results| && forall i :: 0 <= i < |results| ==> results[i] == Ok(values[i])
  {
    if results != [] {
      var n := |results| - 1;
      if Collect(results) == Ok(values) {
        CollectOkIff(results[..n], Collect(results[..n]).value);
      } else if |values| == |results| {
        CollectOkIff(results[..n], values[..n]);
        assert values == values[..n] + [values[n]];
      }
    }
  }

  ghost predicate FirstBad<T>(results: seq<Result<T>>, i: nat, e: Error) {
    i < |results| && results[i] == Err(e) && forall j :: 0 <= j < i ==> results[j].Ok?
  }

  lemma {:induction false} CollectErr<T>(results: seq<Result<T>>) returns (i: nat)
    requires Collect(results).Err?
    ensures FirstBad(results, i, Collect(results).error)
  {
    var n := |results| - 1;
    if Collect(results[..n]).Err? {
      i := CollectErr(results[..n]);
    } else {
      i := n;
      CollectOkIff(results[..n], Collect(results[..n]).value);
    }
  }

  function ParseEach(lines: seq<string>): (results: seq<Result<Record>>)
    ensures |results| == |lines| && forall i :: 0 <= i < |lines| ==> results[i] == ParseLine(lines[i])
  {
    seq(|lines|, i requires 0 <= i < |lines| => ParseLine(lines[i]))
  }

  /** All lines, or the error of the first bad one. */
  function ParseLines(lines: seq<string>): Result<seq<Record>> { Collect(ParseEach(lines)) }

  /** One record per line, in order, or the error of the first bad line and no record. */
  lemma AllOrNothing(lines: seq<string>)
    ensures var r := ParseLines(lines);
            && (r.Ok? <==> forall i :: 0 <= i < |lines| ==> ParseLine(lines[i]).Ok?)
            && (r.Ok? ==> |r.value| == |lines| &&
                          forall i :: 0 <= i < |lines| ==> ParseLine(lines[i]) == Ok(r.value[i]))
            && (r.Err? ==> exists i :: 0 <= i < |lines| && ParseLine(lines[i]) == Err(r.error) &&
                                       forall j :: 0 <= j < i ==> ParseLine(lines[j]).Ok?)
  {
    var results := ParseEach(lines);
    match Collect(results)
    case Ok(values) => CollectOkIff(results, values);
    case Err(e) =>
      var i := CollectErr(results);
      assert ParseLine(lines[i]) == Err(e);
  }

  method ParseFile(lines: seq<string>) returns (r: Result<seq<Record>>)
    ensures r == ParseLines(lines)
    ensures r.Ok? <==> forall i :: 0 <= i < |lines| ==> ParseLine(lines[i]).Ok?
    ensures r.Ok? ==> |r.value| == |lines| &&
                      forall i :: 0 <= i < |lines| ==> ParseLine(lines[i]) == Ok(r.value[i])
    ensures r.Err? ==> exists i :: 0 <= i < |lines| && ParseLine(lines[i]) == Err(r.error) &&
                                   forall j :: 0 <= j < i ==> ParseLine(lines[j]).Ok?
  {
    AllOrNothing(lines);
    r := ParseLoop(lines);
  }

  /** The scanner's loop, appending one record a line. */
  method ParseLoop(lines: seq<string>) returns (r: Result<seq<Record>>)
    ensures r == ParseLines(lines)
  {
    var result := [];
    ghost var results := ParseEach(lines);
    for k := 0 to |lines|
      invariant Collect(results[..k]) == Ok(result)
    {
      var one := ParseOne(lines[k]);
      assert one == results[k];
      CollectMore(results, k, result);
      if one.Err? {
        CollectStop(results, k + 1);
        return Err(one.error);
      }
      result := result + [one.value];
    }
    assert results[..|lines|] == results;
    return Ok(result);
  }

  // ---------------------------------------------------------------------------
  // Text and lines.

  function DropCr(line: string): string {
    if line != "" && line[|line| - 1] == '\r' then line[..|line| - 1] else line
  }

  /** The scanner's lines: cut at newlines, one trailing carriage return dropped, no empty last line. */
  function ScanLines(text: string): seq<string>
    decreases |text|
  {
    if text == "" then []
    else
      match Index(text, "\n")
      case None => [DropCr(text)]
      case Some(i) => [DropCr(text[..i])] + ScanLines(text[i + 1..])
  }

  function TextOf(lines: seq<string>): string {
    if lines == [] then "" else lines[0] + "\n" + TextOf(lines[1..])
  }

  lemma LineNewlines(line: string, rest: string)
    ensures multiset(line + "\n" + rest)['\n'] == multiset(line)['\n'] + 1 + multiset(rest)['\n']
    ensures Free(line, '\n') <==> multiset(line)['\n'] == 0
  {
    assert multiset(line + "\n" + rest) == multiset(line) + multiset{'\n'} + multiset(rest);
  }

  /** Each line brings one newline and those in it. */
  lemma {:induction false} TextNewlines(lines: seq<string>, k: nat)
    requires k < |lines|
    ensures multiset(TextOf(lines))['\n'] >= |lines|
    ensures !Free(lines[k], '\n') ==> multiset(TextOf(lines))['\n'] > |lines|
  {
    LineNewlines(lines[0], TextOf(lines[1..]));
    if |lines| > 1 { TextNewlines(lines[1..], if k > 0 then k - 1 else 0); }
  }

  lemma {:induction false} ScanCount(text: string)
    ensures |ScanLines(text)| >= multiset(text)['\n']
    decreases |text|
  {
    if text != "" {
      if Index(text, "\n").Some? {
        var i := Index(text, "\n").value;
        var rest := text[i + 1..];
        IndexFound(text, "\n");
        IndexBeforeFree(text, '\n');
        ScanCount(rest);
        assert text == text[..i] + "\n" + rest by { assert text[i..i + 1] == "\n"; }
        LineNewlines(text[..i], rest);
      } else {
        IndexOfNoChar(text, '\n');
      }
    }
  }

  lemma ScanFirst(line: string, rest: string)
    requires Free(line, '\n')
    ensures ScanLines(line + "\n" + rest) == [DropCr(line)] + ScanLines(rest)
  {
    var text := line + "\n" + rest;
    IndexOfChar(line, '\n', rest);
    assert text[..|line|] == line && text[|line| + 1..] == rest;
  }

  /** The scanner cuts at the first newline and drops one carriage return before it; no empty last line. */
  lemma ScanCuts(line: string, rest: string)
    requires Free(line, '\n') && (line != "" ==> line[|line| - 1] != '\r')
    ensures ScanLines(line + "\n" + rest) == [line] + ScanLines(rest)
    ensures ScanLines(line + "\r" + "\n" + rest) == [line] + ScanLines(rest)
    ensures ScanLines(line) == if line == "" then [] else [line]
  {
    var cr := line + "\r";
    ScanFirst(line, rest);
    ScanFirst(cr, rest);
    assert cr[|cr| - 1] == '\r' && cr[..|cr| - 1] == line;
    IndexOfNoChar(line, '\n');
  }

  lemma {:induction false} ScanText(lines: seq<string>, k: nat)
    requires AllFree(lines, '\n') && k < |lines|
    ensures |ScanLines(TextOf(lines))| == |lines| && ScanLines(TextOf(lines))[k] == DropCr(lines[k])
  {
    ScanFirst(lines[0], TextOf(lines[1..]));
    if |lines| > 1 { ScanText(lines[1..], if k > 0 then k - 1 else 0); }
  }

  /** The scanner finds as many lines as were put together exactly when none had a newline in it. */
  lemma ScanTextIff(lines: seq<string>)
    ensures |ScanLines(TextOf(lines))| == |lines| <==> AllFree(lines, '\n')
  {
    if AllFree(lines, '\n') {
      if lines != [] { ScanText(lines, 0); }
    } else {
      var k :| 0 <= k < |lines| && !Free(lines[k], '\n');
      TextNewlines(lines, k);
      ScanCount(TextOf(lines));
    }
  }

  // ---------------------------------------------------------------------------
  // The round trip of a whole file, exactly.

  function PrintEach(rs: seq<Record>): (lines: seq<string>)
    ensures |lines| == |rs| && forall i :: 0 <= i < |rs| ==> lines[i] == PrintLine(rs[i])
  {
    seq(|rs|, i requires 0 <= i < |rs| => PrintLine(rs[i]))
  }

  function PrintFile(rs: seq<Record>): string { TextOf(PrintEach(rs)) }

  /** No newline in a field, and no carriage return at the end of the last one. */
  predicate LineSafe(r: Record) {
    && AllFree(LeftFields(r), '\n') && AllFree(RightFields(r), '\n')
    && DropCr(r.superOptions) == r.superOptions
  }

  lemma {:induction false} JoinFreeIff(parts: seq<string>, c: char)
    requires c != ' '
    ensures Free(Join(parts, " "), c) <==> AllFree(parts, c)
  {
    if |parts| > 1 {
      var rest := Join(parts[1..], " ");
      JoinFreeIff(parts[1..], c);
      FreeConcat(parts[0], " ", rest, c);
      assert forall i :: 1 <= i < |parts| ==> parts[1..][i - 1] == parts[i];
    }
  }

  lemma FreeConcat(a: string, b: string, d: string, c: char)
    ensures Free(a + b + d, c) <==> Free(a, c) && Free(b, c) && Free(d, c)
  {
    assert multiset(a + b + d) == multiset(a) + multiset(b) + multiset(d);
    assert forall s: string :: c in s <==> multiset(s)[c] > 0;
  }

  /** A printed line has a newline exactly when one of its fields has. */
  lemma NewlinesInFields(r: Record)
    ensures Free(PrintLine(r), '\n') <==> AllFree(LeftFields(r), '\n') && AllFree(RightFields(r), '\n')
  {
    JoinFreeIff(LeftFields(r), '\n');
    JoinFreeIff(RightFields(r), '\n');
    FreeConcat(Join(LeftFields(r), " "), " - ", Join(RightFields(r), " "), '\n');
  }

  /** A line's last field is its end, after a space. */
  lemma LastField(r: Record)
    ensures var front := Join(LeftFields(r), " ") + " - " + r.filesystemType + " " + r.mountSource + " ";
            PrintLine(r) == front + r.superOptions
  {
    var right := RightFields(r);
    assert right[1..] == [r.mountSource, r.superOptions] && right[1..][1..] == [r.superOptions];
    assert Join(right[1..], " ") == r.mountSource + " " + r.superOptions;
    assert Join(right, " ") == r.filesystemType + " " + (r.mountSource + " " + r.superOptions);
  }

  /** Dropping a carriage return from a line that ends in `last`, after a space, drops it from `last`. */
  lemma DropAtEnd(front: string, last: string)
    requires front != "" && front[|front| - 1] == ' '
    ensures DropCr(front + last) == front + DropCr(last)
  {
    var line := front + last;
    if last != "" {
      assert line[|line| - 1] == last[|last| - 1] && line[..|line| - 1] == front + last[..|last| - 1];
    } else {
      assert line == front && DropCr(last) == "";
    }
  }

  function Short(r: Record): Record { r.(superOptions := DropCr(r.superOptions)) }

  lemma ShortLine(r: Record)
    ensures DropCr(PrintLine(r)) == PrintLine(Short(r))
  {
    var front := Join(LeftFields(r), " ") + " - " + r.filesystemType + " " + r.mountSource + " ";
    LastField(r);
    LastField(Short(r));
    assert LeftFields(Short(r)) == LeftFields(r);
    DropAtEnd(front, r.superOptions);
  }

  lemma ShortIsPrintable(r: Record)
    requires Printable(r)
    ensures Printable(Short(r))
  {
    var right := RightFields(r);
    assert LeftFields(Short(r)) == LeftFields(r);
    assert Free(right[0], ' ') && Free(right[1], ' ') && Free(right[2], ' ');
    assert Free(DropCr(r.superOptions), ' ');
    assert RightFields(Short(r)) == [right[0], right[1], DropCr(r.superOptions)];
  }

  /** A printed line is read back, as the scanner hands it over, exactly when it has no carriage return to lose. */
  lemma ScannedLineIff(r: Record)
    ensures ParseLine(DropCr(PrintLine(r))) == Ok(r) <==> Printable(r) && DropCr(r.superOptions) == r.superOptions
  {
    ShortLine(r);
    if ParseLine(PrintLine(Short(r))) == Ok(r) {
      ParsedIsPrintable(PrintLine(Short(r)));
      ShortIsPrintable(r);
      PrintableParses(Short(r));
    } else if Printable(r) && DropCr(r.superOptions) == r.superOptions {
      PrintableParses(r);
    }
  }

  /** A list of records survives printing, scanning and parsing of the whole file exactly when lines can carry each. */
  lemma FileRoundTripIff(rs: seq<Record>)
    ensures ParseLines(ScanLines(PrintFile(rs))) == Ok(rs) <==>
            forall i :: 0 <= i < |rs| ==> Printable(rs[i]) && LineSafe(rs[i])
  {
    var lines, scanned := PrintEach(rs), ScanLines(PrintFile(rs));
    CollectOkIff(ParseEach(scanned), rs);
    ScanTextIff(lines);
    SafeLinesAreFree(rs);
    if AllFree(lines, '\n') {
      forall i | 0 <= i < |rs|
        ensures ParseEach(scanned)[i] == Ok(rs[i]) <==> Printable(rs[i]) && LineSafe(rs[i])
      {
        ScannedRecordIff(rs, i);
      }
    }
  }

  lemma SafeLinesAreFree(rs: seq<Record>)
    ensures (forall i :: 0 <= i < |rs| ==> LineSafe(rs[i])) ==> AllFree(PrintEach(rs), '\n')
  {
    if forall i :: 0 <= i < |rs| ==> LineSafe(rs[i]) {
      forall i | 0 <= i < |rs| ensures Free(PrintEach(rs)[i], '\n') { NewlinesInFields(rs[i]); }
    }
  }

  lemma ScannedRecordIff(rs: seq<Record>, i: nat)
    requires AllFree(PrintEach(rs), '\n') && i < |rs|
    ensures var scanned := ScanLines(PrintFile(rs));
            |scanned| == |rs| && (ParseLine(scanned[i]) == Ok(rs[i]) <==> Printable(rs[i]) && LineSafe(rs[i]))
  {
    ScanText(PrintEach(rs), i);
    assert Free(PrintEach(rs)[i], '\n');
    NewlinesInFields(rs[i]);
    ScannedLineIff(rs[i]);
  }
}
