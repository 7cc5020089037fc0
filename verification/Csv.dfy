/**
The scorecard's CSV layer: the collector's quoting writer, the renderer's line splitter, and when a
whole file survives the two.
*/
module Csv {
  import opened Text

  // ------------------------------------------------------------------- writer

  /** The collector quotes on a comma, a quote or a newline; not on a carriage return. */
  predicate NeedsQuote(s: string) {
    ',' in s || '"' in s || NEWLINE in s
  }

  function DoubleQuotes(s: string): (r: string) {
    if s == "" then ""
    else (if s[0] == '"' then "\"\"" else [s[0]]) + DoubleQuotes(s[1..])
  }

  function CsvField(s: string): (r: string) {
    if NeedsQuote(s) then "\"" + DoubleQuotes(s) + "\"" else s
  }

  function EncodeFields(fields: seq<string>): (r: seq<string>)
    ensures |r| == |fields|
    ensures forall i :: 0 <= i < |fields| ==> r[i] == CsvField(fields[i])
  {
    seq(|fields|, i requires 0 <= i < |fields| => CsvField(fields[i]))
  }

  function EmitLine(fields: seq<string>): (line: string) {
    JoinWith(EncodeFields(fields), ',')
  }

  function EmitLines(records: seq<seq<string>>): (lines: seq<string>)
    ensures |lines| == |records|
    ensures forall i :: 0 <= i < |records| ==> lines[i] == EmitLine(records[i])
  {
    seq(|records|, i requires 0 <= i < |records| => EmitLine(records[i]))
  }

  /** The file body: every emitted line with its newline. */
  function EmitText(records: seq<seq<string>>): (text: string) {
    Terminated(EmitLines(records), NEWLINE)
  }

  lemma {:induction false} EmitLineUnfold(fields: seq<string>)
    requires fields != []
    ensures |fields| == 1 ==> EmitLine(fields) == CsvField(fields[0])
    ensures |fields| > 1 ==> EmitLine(fields) == CsvField(fields[0]) + [','] + EmitLine(fields[1..])
  {
    if |fields| > 1 {
      assert EncodeFields(fields)[1..] == EncodeFields(fields[1..]);
    }
  }

  lemma {:induction false} EmitTextUnfold(records: seq<seq<string>>)
    requires records != []
    ensures EmitText(records) == EmitLine(records[0]) + [NEWLINE] + EmitText(records[1..])
  {
    assert EmitLines(records)[1..] == EmitLines(records[1..]);
  }

  // -------------------------------------------------------- renderer's splitter

  /** What the renderer's character loop still has to produce from `line` in the given state. */
  function SplitFrom(line: string, field: string, inQuotes: bool): (out: seq<string>)
    decreases |line|
  {
    if line == "" then [field]
    else if inQuotes then
      if line[0] == '"' then
        if |line| > 1 && line[1] == '"' then SplitFrom(line[2..], field + ['"'], true)
        else SplitFrom(line[1..], field, false)
      else SplitFrom(line[1..], field + [line[0]], true)
    else if line[0] == '"' then SplitFrom(line[1..], field, true)
    else if line[0] == ',' then [field] + SplitFrom(line[1..], "", false)
    else SplitFrom(line[1..], field + [line[0]], false)
  }

  function SplitLine(line: string): (out: seq<string>) {
    SplitFrom(line, "", false)
  }

  method SplitCsvLine(line: string) returns (out: seq<string>)
    ensures out == SplitLine(line)
  {
    out := [];
    var field, inQuotes, i := "", false, 0;
    while i < |line|
      invariant 0 <= i <= |line|
      invariant out + SplitFrom(line[i..], field, inQuotes) == SplitLine(line)
    {
      var c, rest := line[i], line[i..];
      assert rest[1..] == line[i + 1..];
      if inQuotes {
        if c == '"' {
          if i + 1 < |line| && line[i + 1] == '"' {
            assert rest[2..] == line[i + 2..];
            field := field + ['"'];
            i := i + 1;
          } else {
            inQuotes := false;
          }
        } else {
          field := field + [c];
        }
      } else if c == '"' {
        inQuotes := true;
      } else if c == ',' {
        out := out + [field];
        field := "";
      } else {
        field := field + [c];
      }
      i := i + 1;
    }
    assert line[i..] == "";
    out := out + [field];
  }

  lemma {:induction false} PlainScan(s: string, rest: string, field: string)
    requires ',' !in s && '"' !in s
    ensures SplitFrom(s + rest, field, false) == SplitFrom(rest, field + s, false)
  {
    if s == "" {
      assert s + rest == rest && field + s == field;
    } else {
      assert (s + rest)[1..] == s[1..] + rest;
      PlainScan(s[1..], rest, field + [s[0]]);
      assert field + [s[0]] + s[1..] == field + s;
    }
  }

  lemma {:induction false} QuotedScan(s: string, rest: string, field: string)
    requires rest == "" || rest[0] != '"'
    ensures SplitFrom(DoubleQuotes(s) + "\"" + rest, field, true) == SplitFrom(rest, field + s, false)
  {
    var line := DoubleQuotes(s) + "\"" + rest;
    if s == "" {
      assert line[1..] == rest && field + s == field;
    } else {
      var tail := DoubleQuotes(s[1..]) + "\"" + rest;
      assert line == (if s[0] == '"' then "\"\"" else [s[0]]) + tail;
      if s[0] == '"' {
        assert line[2..] == tail;
      } else {
        assert line[1..] == tail;
      }
      QuotedScan(s[1..], rest, field + [s[0]]);
      assert field + [s[0]] + s[1..] == field + s;
    }
  }

  lemma {:induction false} FieldScan(s: string, rest: string)
    requires rest == "" || rest[0] == ','
    ensures SplitFrom(CsvField(s) + rest, "", false) == SplitFrom(rest, s, false)
  {
    if NeedsQuote(s) {
      var body := DoubleQuotes(s) + "\"" + rest;
      assert CsvField(s) + rest == ['"'] + body;
      calc {
        SplitFrom(['"'] + body, "", false);
        { assert (['"'] + body)[1..] == body; }
        SplitFrom(body, "", true);
        { QuotedScan(s, rest, ""); assert "" + s == s; }
        SplitFrom(rest, s, false);
      }
    } else {
      PlainScan(s, rest, "");
      assert "" + s == s;
    }
  }

  /** Splitting an emitted line gives back exactly the fields, whatever characters they hold. */
  lemma {:induction false} LineRoundTrip(fields: seq<string>)
    requires fields != []
    ensures SplitLine(EmitLine(fields)) == fields
  {
    EmitLineUnfold(fields);
    if |fields| == 1 {
      FieldScan(fields[0], "");
      assert CsvField(fields[0]) + "" == CsvField(fields[0]);
    } else {
      var tail := [','] + EmitLine(fields[1..]);
      assert EmitLine(fields) == CsvField(fields[0]) + tail;
      FieldScan(fields[0], tail);
      assert tail[1..] == EmitLine(fields[1..]);
      LineRoundTrip(fields[1..]);
    }
  }

  // ---------------------------------------------------------------- file lines

  predicate EndsWithCr(s: string) {
    s != "" && s[|s| - 1] == CR
  }

  function Chomp(s: string): (r: string) {
    if EndsWithCr(s) then s[..|s| - 1] else s
  }

  /** Rust's `str::lines`: newline-terminated lines, each losing one carriage return before its newline. */
  function FileLines(text: string): (lines: seq<string>) {
    var parts := SplitOn(text, NEWLINE);
    var n := |parts| - 1;
    seq(n, i requires 0 <= i < n => Chomp(parts[i])) + (if parts[n] == "" then [] else [parts[n]])
  }

  lemma {:induction false} SplitCount(s: string)
    ensures |SplitOn(s, NEWLINE)| == multiset(s)[NEWLINE] + 1
  {
    if s != "" {
      SplitCount(s[1..]);
      assert s == [s[0]] + s[1..];
    }
  }

  lemma {:induction false} TerminatedCount(lines: seq<string>)
    ensures multiset(Terminated(lines, NEWLINE))[NEWLINE] >= |lines|
    ensures multiset(Terminated(lines, NEWLINE))[NEWLINE] == |lines| ==> Free(lines, NEWLINE)
    ensures Terminated(lines, NEWLINE) == [] || Terminated(lines, NEWLINE)[|Terminated(lines, NEWLINE)| - 1] == NEWLINE
  {
    if lines != [] {
      TerminatedCount(lines[1..]);
      var tail := Terminated(lines[1..], NEWLINE);
      assert multiset(lines[0] + [NEWLINE] + tail)[NEWLINE] == multiset(lines[0])[NEWLINE] + 1
             + multiset(tail)[NEWLINE];
      if multiset(Terminated(lines, NEWLINE))[NEWLINE] == |lines| {
        forall i | 0 <= i < |lines| ensures NEWLINE !in lines[i] {
          if i > 0 { assert lines[i] == lines[1..][i - 1]; }
        }
      }
    }
  }

  lemma {:induction false} SplitLastEmpty(s: string)
    requires s == [] || s[|s| - 1] == NEWLINE
    ensures SplitOn(s, NEWLINE)[|SplitOn(s, NEWLINE)| - 1] == ""
  {
    if s != [] {
      assert s[1..] == [] || s[1..][|s[1..]| - 1] == NEWLINE;
      SplitLastEmpty(s[1..]);
    }
  }

  /** Newline-free lines come back one for one, each chomped. */
  lemma {:induction false} FreeLinesRead(lines: seq<string>)
    requires Free(lines, NEWLINE)
    ensures var read := FileLines(Terminated(lines, NEWLINE));
            |read| == |lines| && forall i :: 0 <= i < |lines| ==> read[i] == Chomp(lines[i])
  {
    SplitTerminated(lines, NEWLINE);
  }

  /** A newline inside a line always yields extra lines. */
  lemma {:induction false} BrokenLinesRead(lines: seq<string>)
    requires !Free(lines, NEWLINE)
    ensures |FileLines(Terminated(lines, NEWLINE))| > |lines|
  {
    TerminatedCount(lines);
    SplitCount(Terminated(lines, NEWLINE));
    SplitLastEmpty(Terminated(lines, NEWLINE));
  }

  /** Written lines read back as themselves exactly when none holds a newline or ends in a carriage return. */
  lemma {:induction false} FileLinesExact(lines: seq<string>)
    ensures FileLines(Terminated(lines, NEWLINE)) == lines <==>
            Free(lines, NEWLINE) && forall i :: 0 <= i < |lines| ==> !EndsWithCr(lines[i])
  {
    if Free(lines, NEWLINE) {
      FreeLinesRead(lines);
      var read := FileLines(Terminated(lines, NEWLINE));
      if i :| 0 <= i < |lines| && EndsWithCr(lines[i]) {
        assert |read[i]| < |lines[i]|;
      } else {
        assert read == lines;
      }
    } else {
      BrokenLinesRead(lines);
    }
  }

  // ------------------------------------------------------- whole-file round trip

  lemma {:induction false} DoubledContents(s: string)
    ensures NEWLINE in DoubleQuotes(s) <==> NEWLINE in s
  {
    if s != "" {
      DoubledContents(s[1..]);
      assert s == [s[0]] + s[1..];
    }
  }

  ghost predicate NewlineFree(fields: seq<string>) {
    forall i :: 0 <= i < |fields| ==> NEWLINE !in fields[i]
  }

  /** The only way an emitted line ends in a carriage return: its last field does, unquoted. */
  predicate BareTrailingCr(fields: seq<string>) {
    fields != [] && EndsWithCr(fields[|fields| - 1]) && !NeedsQuote(fields[|fields| - 1])
  }

  lemma {:induction false} NewlineFreeUnfold(fields: seq<string>)
    requires fields != []
    ensures NewlineFree(fields) <==> NEWLINE !in fields[0] && NewlineFree(fields[1..])
  {
    assert forall i :: 0 < i < |fields| ==> fields[i] == fields[1..][i - 1];
    assert forall i :: 0 <= i < |fields| - 1 ==> fields[1..][i] == fields[i + 1];
  }

  lemma {:induction false} FieldShape(s: string)
    ensures NEWLINE in CsvField(s) <==> NEWLINE in s
    ensures EndsWithCr(CsvField(s)) <==> EndsWithCr(s) && !NeedsQuote(s)
  {
    if NeedsQuote(s) {
      DoubledContents(s);
      assert CsvField(s)[|CsvField(s)| - 1] == '"';
    }
  }

  lemma {:induction false} ConcatShape(head: string, tail: string)
    ensures NEWLINE in head + [','] + tail <==> NEWLINE in head || NEWLINE in tail
    ensures EndsWithCr(head + [','] + tail) <==> EndsWithCr(tail)
  {
    var line := head + [','] + tail;
    if tail == "" {
      assert line[|line| - 1] == ',';
    } else {
      assert line[|line| - 1] == tail[|tail| - 1];
    }
  }

  lemma {:induction false} EmitLineShape(fields: seq<string>)
    requires fields != []
    ensures NEWLINE !in EmitLine(fields) <==> NewlineFree(fields)
    ensures EndsWithCr(EmitLine(fields)) <==> BareTrailingCr(fields)
  {
    EmitLineUnfold(fields);
    FieldShape(fields[0]);
    NewlineFreeUnfold(fields);
    if |fields| > 1 {
      EmitLineShape(fields[1..]);
      ConcatShape(CsvField(fields[0]), EmitLine(fields[1..]));
    }
  }

  function SplitLines(lines: seq<string>): (records: seq<seq<string>>)
    ensures |records| == |lines|
    ensures forall i :: 0 <= i < |lines| ==> records[i] == SplitLine(lines[i])
  {
    seq(|lines|, i requires 0 <= i < |lines| => SplitLine(lines[i]))
  }

  lemma {:induction false} ChompedLine(fields: seq<string>)
    requires fields != [] && BareTrailingCr(fields)
    ensures SplitLine(Chomp(EmitLine(fields))) != fields
  {
    var n := |fields| - 1;
    var last := fields[n];
    var shorter := fields[..n] + [Chomp(last)];
    ChompedEmit(fields);
    LineRoundTrip(shorter);
    assert shorter[n] != fields[n];
  }

  lemma {:induction false} ChompedEmit(fields: seq<string>)
    requires fields != [] && BareTrailingCr(fields)
    ensures Chomp(EmitLine(fields)) == EmitLine(fields[..|fields| - 1] + [Chomp(fields[|fields| - 1])])
  {
    var n := |fields| - 1;
    var shorter := fields[..n] + [Chomp(fields[n])];
    EmitLineUnfold(fields);
    EmitLineUnfold(shorter);
    if n > 0 {
      var head, tail := CsvField(fields[0]) + [','], EmitLine(fields[1..]);
      calc {
        Chomp(EmitLine(fields));
        { EmitLineShape(fields[1..]); assert EmitLine(fields) == head + tail; ChompAppend(head, tail); }
        head + Chomp(tail);
        { ChompedEmit(fields[1..]);
          assert shorter[1..] == fields[1..][..n - 1] + [Chomp(fields[1..][n - 1])]; }
        head + EmitLine(shorter[1..]);
        EmitLine(shorter);
      }
    }
  }

  lemma {:induction false} ChompAppend(head: string, tail: string)
    requires EndsWithCr(tail)
    ensures Chomp(head + tail) == head + Chomp(tail)
  {
  }

  /** The renderer reads back a whole emitted file exactly when no field holds a newline and
      no record ends in an unquoted carriage return. */
  lemma {:induction false} RendererFileExact(records: seq<seq<string>>)
    requires forall i :: 0 <= i < |records| ==> records[i] != []
    ensures SplitLines(FileLines(EmitText(records))) == records <==>
            forall i :: 0 <= i < |records| ==> NewlineFree(records[i]) && !BareTrailingCr(records[i])
  {
    var lines := EmitLines(records);
    FileLinesExact(lines);
    forall i | 0 <= i < |records|
      ensures NEWLINE !in lines[i] <==> NewlineFree(records[i])
      ensures EndsWithCr(lines[i]) <==> BareTrailingCr(records[i])
      ensures SplitLine(lines[i]) == records[i]
    {
      EmitLineShape(records[i]);
      LineRoundTrip(records[i]);
    }
    var read := FileLines(EmitText(records));
    if Free(lines, NEWLINE) {
      FreeLinesRead(lines);
      if i :| 0 <= i < |records| && BareTrailingCr(records[i]) {
        ChompedLine(records[i]);
        assert SplitLines(read)[i] != records[i];
      } else {
        assert SplitLines(read) == records;
      }
    } else {
      BrokenLinesRead(lines);
    }
  }
}
