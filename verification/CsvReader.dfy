/**
Python's `csv.reader` in its default dialect over a file opened without newline
translation, which is how the provenance checker reads the scorecard.  Unlike the
renderer it reads records, not lines, so a quoted newline is ordinary content.
*/
module CsvReader {
  import opened Text
  import opened Csv

  datatype State = StartRecord | StartField | InField | InQuoted | QuoteInQuoted

  predicate IsBreak(c: char) {
    c == NEWLINE || c == CR
  }

  /** The text after a line break; a carriage return takes a following newline with it. */
  function AfterBreak(text: string): (rest: string)
    requires text != ""
    ensures |rest| < |text|
  {
    if text[0] == CR && |text| > 1 && text[1] == NEWLINE then text[2..] else text[1..]
  }

  /** The nonempty records still to be read (the dictionary reader skips empty ones). */
  function Read(text: string, st: State, field: string, fields: seq<string>): (records: seq<seq<string>>)
    decreases |text|
  {
    if text == "" then (if st.StartRecord? then [] else [fields + [field]])
    else if st.InQuoted? then
      if text[0] == '"' then Read(text[1..], QuoteInQuoted, field, fields)
      else Read(text[1..], InQuoted, field + [text[0]], fields)
    else if IsBreak(text[0]) then
      (if st.StartRecord? then [] else [fields + [field]]) + Read(AfterBreak(text), StartRecord, "", [])
    else if text[0] == ',' then Read(text[1..], StartField, "", fields + [field])
    else if text[0] == '"' && (st.StartRecord? || st.StartField?) then Read(text[1..], InQuoted, field, fields)
    else if text[0] == '"' && st.QuoteInQuoted? then Read(text[1..], InQuoted, field + ['"'], fields)
    else Read(text[1..], InField, field + [text[0]], fields)
  }

  function ReadRecords(text: string): (records: seq<seq<string>>) {
    Read(text, StartRecord, "", [])
  }

  // ------------------------------------------------------------ scanning fields

  /** A field the writer leaves unquoted although the reader will break on it. */
  predicate Fragile(s: string) {
    CR in s && !NeedsQuote(s)
  }

  ghost predicate Sturdy(fields: seq<string>) {
    forall i :: 0 <= i < |fields| ==> !Fragile(fields[i])
  }

  lemma {:induction false} PlainRead(s: string, rest: string, field: string, fields: seq<string>)
    requires !NeedsQuote(s) && CR !in s
    ensures Read(s + rest, InField, field, fields) == Read(rest, InField, field + s, fields)
  {
    if s == "" {
      assert s + rest == rest && field + s == field;
    } else {
      assert (s + rest)[1..] == s[1..] + rest;
      PlainRead(s[1..], rest, field + [s[0]], fields);
      assert field + [s[0]] + s[1..] == field + s;
    }
  }

  lemma {:induction false} QuotedStep(c: char, tail: string, field: string, fields: seq<string>)
    ensures Read((if c == '"' then "\"\"" else [c]) + tail, InQuoted, field, fields)
            == Read(tail, InQuoted, field + [c], fields)
  {
    if c == '"' {
      assert ("\"\"" + tail)[1..] == "\"" + tail && ("\"" + tail)[1..] == tail;
    } else {
      assert ([c] + tail)[1..] == tail;
    }
  }

  lemma {:induction false} DoubledHead(s: string, rest: string)
    requires s != ""
    ensures DoubleQuotes(s) + "\"" + rest
            == (if s[0] == '"' then "\"\"" else [s[0]]) + (DoubleQuotes(s[1..]) + "\"" + rest)
  {
  }

  lemma {:induction false} ClosingQuote(rest: string, field: string, fields: seq<string>)
    requires rest != "" && rest[0] != '"'
    ensures Read("\"" + rest, InQuoted, field, fields) == Read(rest, QuoteInQuoted, field, fields)
  {
    assert ("\"" + rest)[1..] == rest;
  }

  lemma {:induction false} QuotedRead(s: string, rest: string, field: string, fields: seq<string>)
    requires rest != "" && rest[0] != '"'
    ensures Read(DoubleQuotes(s) + "\"" + rest, InQuoted, field, fields) == Read(rest, QuoteInQuoted, field + s, fields)
  {
    if s == "" {
      assert "" + "\"" + rest == "\"" + rest && field + s == field;
      ClosingQuote(rest, field, fields);
    } else {
      var tail := DoubleQuotes(s[1..]) + "\"" + rest;
      calc {
        Read(DoubleQuotes(s) + "\"" + rest, InQuoted, field, fields);
        { DoubledHead(s, rest); QuotedStep(s[0], tail, field, fields); }
        Read(tail, InQuoted, field + [s[0]], fields);
        { QuotedRead(s[1..], rest, field + [s[0]], fields); }
        Read(rest, QuoteInQuoted, field + [s[0]] + s[1..], fields);
        { assert field + [s[0]] + s[1..] == field + s; }
        Read(rest, QuoteInQuoted, field + s, fields);
      }
    }
  }

  lemma {:induction false} QuotedFieldRead(s: string, rest: string, fields: seq<string>)
    requires NeedsQuote(s)
    requires rest != "" && (rest[0] == ',' || rest[0] == NEWLINE)
    ensures Read(CsvField(s) + rest, StartField, "", fields) == Read(rest, InField, s, fields)
  {
    var body := DoubleQuotes(s) + "\"" + rest;
    assert CsvField(s) + rest == ['"'] + body && (['"'] + body)[1..] == body;
    assert Read(['"'] + body, StartField, "", fields) == Read(body, InQuoted, "", fields);
    QuotedRead(s, rest, "", fields);
    assert "" + s == s;
    QuoteClosed(rest, s, fields);
  }

  lemma {:induction false} QuoteClosed(rest: string, field: string, fields: seq<string>)
    requires rest != "" && (rest[0] == ',' || rest[0] == NEWLINE)
    ensures Read(rest, QuoteInQuoted, field, fields) == Read(rest, InField, field, fields)
  {
  }

  lemma {:induction false} PlainFieldRead(s: string, rest: string, fields: seq<string>)
    requires !Fragile(s) && !NeedsQuote(s) && s != ""
    requires rest != "" && (rest[0] == ',' || rest[0] == NEWLINE)
    ensures Read(s + rest, StartField, "", fields) == Read(rest, InField, s, fields)
  {
    assert (s + rest)[1..] == s[1..] + rest && "" + [s[0]] == [s[0]];
    assert Read(s + rest, StartField, "", fields) == Read(s[1..] + rest, InField, [s[0]], fields);
    PlainRead(s[1..], rest, [s[0]], fields);
    assert [s[0]] + s[1..] == s;
  }

  /** Reading one sturdy field leaves the reader just before its delimiter, holding the field. */
  lemma {:induction false} FieldRead(s: string, rest: string, fields: seq<string>)
    requires !Fragile(s)
    requires rest != "" && (rest[0] == ',' || rest[0] == NEWLINE)
    ensures Read(CsvField(s) + rest, StartField, "", fields) == Read(rest, InField, s, fields)
  {
    if NeedsQuote(s) {
      QuotedFieldRead(s, rest, fields);
    } else if s == "" {
      assert CsvField(s) + rest == rest;
    } else {
      PlainFieldRead(s, rest, fields);
    }
  }

  lemma {:induction false} LineRead(fields: seq<string>, rest: string, before: seq<string>)
    requires fields != [] && Sturdy(fields)
    ensures Read(EmitLine(fields) + [NEWLINE] + rest, StartField, "", before) == [before + fields] + ReadRecords(rest)
  {
    EmitLineUnfold(fields);
    if |fields| == 1 {
      var tail := [NEWLINE] + rest;
      assert EmitLine(fields) + [NEWLINE] + rest == CsvField(fields[0]) + tail;
      FieldRead(fields[0], tail, before);
      assert tail[1..] == rest && before + [fields[0]] == before + fields;
    } else {
      LineReadStep(fields, rest, before);
      LineRead(fields[1..], rest, before + [fields[0]]);
      assert before + [fields[0]] + fields[1..] == before + fields;
    }
  }

  lemma {:induction false} LineStart(fields: seq<string>)
    requires fields != [] && fields != [""]
    ensures EmitLine(fields) != ""
    ensures !Fragile(fields[0]) ==> !IsBreak(EmitLine(fields)[0])
  {
    EmitLineUnfold(fields);
    var first := CsvField(fields[0]);
    if first == "" {
      assert |fields| > 1;
      assert EmitLine(fields)[0] == ',';
    } else {
      assert EmitLine(fields)[0] == first[0];
    }
  }

  /** A record that is written as an empty line, which the reader skips. */
  predicate BlankRecord(record: seq<string>) {
    record == [] || record == [""]
  }

  /** The records that leave something on their line. */
  function Solid(records: seq<seq<string>>): (r: seq<seq<string>>)
    ensures |r| <= |records|
    ensures r == records <==> forall i :: 0 <= i < |records| ==> !BlankRecord(records[i])
  {
    if records == [] then []
    else
      assert records == [records[0]] + records[1..];
      (if BlankRecord(records[0]) then [] else [records[0]]) + Solid(records[1..])
  }

  lemma {:induction false} BlankRecordRead(record: seq<string>, rest: string)
    requires BlankRecord(record)
    ensures ReadRecords(EmitLine(record) + [NEWLINE] + rest) == ReadRecords(rest)
  {
    assert EmitLine(record) == "";
    assert EmitLine(record) + [NEWLINE] + rest == [NEWLINE] + rest;
    assert ([NEWLINE] + rest)[1..] == rest;
  }

  lemma {:induction false} RecordsRead(records: seq<seq<string>>)
    requires forall i :: 0 <= i < |records| ==> Sturdy(records[i])
    ensures ReadRecords(EmitText(records)) == Solid(records)
  {
    if records != [] {
      EmitTextUnfold(records);
      var rest := EmitText(records[1..]);
      RecordsRead(records[1..]);
      if BlankRecord(records[0]) {
        BlankRecordRead(records[0], rest);
      } else {
        SturdyRecordRead(records[0], rest);
      }
    }
  }

  // --------------------------------------- carriage returns are never multiplied

  ghost function Crs(s: string): nat {
    multiset(s)[CR]
  }

  ghost function FieldsCrs(fields: seq<string>): nat {
    if fields == [] then 0 else FieldsCrs(fields[..|fields| - 1]) + Crs(fields[|fields| - 1])
  }

  ghost function RecordsCrs(records: seq<seq<string>>): nat {
    if records == [] then 0 else FieldsCrs(records[0]) + RecordsCrs(records[1..])
  }

  lemma {:induction false} FieldsCrsAppend(fields: seq<string>, s: string)
    ensures FieldsCrs(fields + [s]) == FieldsCrs(fields) + Crs(s)
  {
    assert (fields + [s])[..|fields|] == fields;
  }

  lemma {:induction false} FieldsCrsConcat(a: seq<string>, b: seq<string>)
    ensures FieldsCrs(a + b) == FieldsCrs(a) + FieldsCrs(b)
  {
    if b == [] {
      assert a + b == a;
    } else {
      FieldsCrsConcat(a, b[..|b| - 1]);
      assert (a + b)[..|a + b| - 1] == a + b[..|b| - 1];
    }
  }

  lemma {:induction false} FieldsCrsHead(fields: seq<string>)
    requires fields != []
    ensures FieldsCrs(fields) == Crs(fields[0]) + FieldsCrs(fields[1..])
  {
    FieldsCrsAppend([], fields[0]);
    assert [] + [fields[0]] == [fields[0]];
    FieldsCrsConcat([fields[0]], fields[1..]);
    assert fields == [fields[0]] + fields[1..];
  }

  lemma {:induction false} CrsText(text: string)
    requires text != ""
    ensures Crs(text) == (if text[0] == CR then 1 else 0) + Crs(text[1..])
  {
    assert text == [text[0]] + text[1..];
  }

  lemma {:induction false} CrsAfterBreak(text: string)
    requires text != "" && IsBreak(text[0])
    ensures Crs(AfterBreak(text)) == Crs(text) - (if text[0] == CR then 1 else 0)
  {
    CrsText(text);
    if text[0] == CR && |text| > 1 && text[1] == NEWLINE {
      CrsText(text[1..]);
      assert text[1..][1..] == text[2..];
    }
  }

  lemma {:induction false} RecordsCrsCons(record: seq<string>, records: seq<seq<string>>)
    ensures RecordsCrs([record] + records) == FieldsCrs(record) + RecordsCrs(records)
  {
    assert ([record] + records)[1..] == records;
  }

  lemma {:induction false} ReadCrs(text: string, st: State, field: string, fields: seq<string>)
    ensures RecordsCrs(Read(text, st, field, fields)) <= Crs(text) + Crs(field) + FieldsCrs(fields)
    decreases |text|
  {
    FieldsCrsAppend(fields, field);
    if text == "" {
      RecordsCrsCons(fields + [field], []);
      assert [fields + [field]] + [] == [fields + [field]];
    } else {
      CrsText(text);
      if !st.InQuoted? && IsBreak(text[0]) {
        CrsAfterBreak(text);
        ReadCrs(AfterBreak(text), StartRecord, "", []);
        RecordsCrsCons(fields + [field], Read(AfterBreak(text), StartRecord, "", []));
        assert [] + Read(AfterBreak(text), StartRecord, "", []) == Read(AfterBreak(text), StartRecord, "", []);
      } else {
        ReadCrsStep(text, st, field, fields);
      }
    }
  }

  lemma {:induction false} ReadCrsStep(text: string, st: State, field: string, fields: seq<string>)
    requires text != "" && (st.InQuoted? || !IsBreak(text[0]))
    ensures RecordsCrs(Read(text, st, field, fields)) <= Crs(text) + Crs(field) + FieldsCrs(fields)
    decreases |text|, 0
  {
    var c, rest := text[0], text[1..];
    CrsText(text);
    FieldsCrsAppend(fields, field);
    assert Crs(field + [c]) == Crs(field) + (if c == CR then 1 else 0);
    if !st.InQuoted? && c == ',' {
      ReadCrs(rest, StartField, "", fields + [field]);
    } else {
      ReadCrs(rest, InField, field + [c], fields);
      ReadCrs(rest, InQuoted, field + [c], fields);
      ReadCrs(rest, InQuoted, field, fields);
      ReadCrs(rest, QuoteInQuoted, field, fields);
    }
  }

  /** An unquoted carriage return is swallowed by the reader. */
  lemma {:induction false} FragileRead(s: string, rest: string, st: State, field: string, fields: seq<string>)
    requires Fragile(s) && (st.StartRecord? || st.StartField? || st.InField?)
    ensures RecordsCrs(Read(s + rest, st, field, fields)) < Crs(s + rest) + Crs(field) + FieldsCrs(fields)
    decreases |s|
  {
    var text := s + rest;
    CrsText(text);
    if s[0] == CR {
      CrsAfterBreak(text);
      ReadCrs(AfterBreak(text), StartRecord, "", []);
      FieldsCrsAppend(fields, field);
      RecordsCrsCons(fields + [field], Read(AfterBreak(text), StartRecord, "", []));
      assert [] + Read(AfterBreak(text), StartRecord, "", []) == Read(AfterBreak(text), StartRecord, "", []);
    } else {
      assert text[1..] == s[1..] + rest;
      assert s == [s[0]] + s[1..];
      FragileRead(s[1..], rest, InField, field + [s[0]], fields);
      assert Crs(field + [s[0]]) == Crs(field);
    }
  }

  lemma {:induction false} DoubledCrs(s: string)
    ensures Crs(DoubleQuotes(s)) == Crs(s)
  {
    if s != "" {
      DoubledCrs(s[1..]);
      CrsText(s);
      var head := if s[0] == '"' then "\"\"" else [s[0]];
      assert Crs(head + DoubleQuotes(s[1..])) == Crs(head) + Crs(DoubleQuotes(s[1..]));
    }
  }

  lemma {:induction false} FieldCrs(s: string)
    ensures Crs(CsvField(s)) == Crs(s)
  {
    DoubledCrs(s);
  }

  lemma {:induction false} LineCrs(fields: seq<string>)
    requires fields != []
    ensures Crs(EmitLine(fields)) == FieldsCrs(fields)
  {
    EmitLineUnfold(fields);
    FieldCrs(fields[0]);
    FieldsCrsHead(fields);
    if |fields| > 1 {
      LineCrs(fields[1..]);
    }
  }

  lemma {:induction false} TextCrs(records: seq<seq<string>>)
    ensures Crs(EmitText(records)) == RecordsCrs(records)
  {
    if records != [] {
      EmitTextUnfold(records);
      if records[0] != [] {
        LineCrs(records[0]);
      }
      TextCrs(records[1..]);
    }
  }

  lemma {:induction false} LineTextCrs(fields: seq<string>, rest: string)
    requires fields != []
    ensures Crs(EmitLine(fields) + [NEWLINE] + rest) == FieldsCrs(fields) + Crs(rest)
  {
    LineCrs(fields);
  }

  lemma {:induction false} FragileFirstRead(fields: seq<string>, rest: string, st: State, before: seq<string>)
    requires fields != [] && Fragile(fields[0]) && (st.StartRecord? || st.StartField?)
    ensures RecordsCrs(Read(EmitLine(fields) + [NEWLINE] + rest, st, "", before))
            < FieldsCrs(before) + FieldsCrs(fields) + Crs(rest)
  {
    EmitLineUnfold(fields);
    var tail := (if |fields| == 1 then "" else [','] + EmitLine(fields[1..])) + [NEWLINE] + rest;
    assert EmitLine(fields) + [NEWLINE] + rest == fields[0] + tail;
    FragileRead(fields[0], tail, st, "", before);
    LineTextCrs(fields, rest);
  }

  lemma {:induction false} LineReadStep(fields: seq<string>, rest: string, before: seq<string>)
    requires |fields| > 1 && !Fragile(fields[0])
    ensures Read(EmitLine(fields) + [NEWLINE] + rest, StartField, "", before)
            == Read(EmitLine(fields[1..]) + [NEWLINE] + rest, StartField, "", before + [fields[0]])
  {
    EmitLineUnfold(fields);
    var next := EmitLine(fields[1..]) + [NEWLINE] + rest;
    var tail := [','] + next;
    assert EmitLine(fields) + [NEWLINE] + rest == CsvField(fields[0]) + tail;
    FieldRead(fields[0], tail, before);
    assert tail[1..] == next;
  }

  lemma {:induction false} SturdyTail(fields: seq<string>)
    requires fields != [] && !Sturdy(fields) && !Fragile(fields[0])
    ensures fields[1..] != [] && !Sturdy(fields[1..])
  {
    var i :| 0 <= i < |fields| && Fragile(fields[i]);
    assert fields[1..][i - 1] == fields[i];
  }

  lemma {:induction false} FragileLineRead(fields: seq<string>, rest: string, before: seq<string>)
    requires fields != [] && !Sturdy(fields)
    ensures RecordsCrs(Read(EmitLine(fields) + [NEWLINE] + rest, StartField, "", before))
            < FieldsCrs(before) + FieldsCrs(fields) + Crs(rest)
    decreases |fields|
  {
    if Fragile(fields[0]) {
      FragileFirstRead(fields, rest, StartField, before);
    } else {
      SturdyTail(fields);
      LineReadStep(fields, rest, before);
      FragileLineRead(fields[1..], rest, before + [fields[0]]);
      FieldsCrsAppend(before, fields[0]);
      FieldsCrsHead(fields);
    }
  }

  /** Reading a record from its start, when its first character cannot end a line. */
  lemma {:induction false} RecordStart(fields: seq<string>, rest: string)
    requires fields != [] && fields != [""] && !Fragile(fields[0])
    ensures ReadRecords(EmitLine(fields) + [NEWLINE] + rest)
            == Read(EmitLine(fields) + [NEWLINE] + rest, StartField, "", [])
  {
    LineStart(fields);
    assert (EmitLine(fields) + [NEWLINE] + rest)[0] == EmitLine(fields)[0];
  }

  lemma {:induction false} SturdyRecordRead(fields: seq<string>, rest: string)
    requires fields != [] && fields != [""] && Sturdy(fields)
    ensures ReadRecords(EmitLine(fields) + [NEWLINE] + rest) == [fields] + ReadRecords(rest)
    ensures RecordsCrs([fields] + ReadRecords(rest)) == FieldsCrs(fields) + RecordsCrs(ReadRecords(rest))
  {
    RecordStart(fields, rest);
    LineRead(fields, rest, []);
    assert [] + fields == fields;
    RecordsCrsCons(fields, ReadRecords(rest));
  }

  lemma {:induction false} FragileTail(records: seq<seq<string>>)
    requires records != [] && Sturdy(records[0]) && exists i :: 0 <= i < |records| && !Sturdy(records[i])
    ensures exists i :: 0 <= i < |records[1..]| && !Sturdy(records[1..][i])
  {
    var i :| 0 <= i < |records| && !Sturdy(records[i]);
    assert records[1..][i - 1] == records[i];
  }

  lemma {:induction false} FragileTextRead(records: seq<seq<string>>)
    requires exists i :: 0 <= i < |records| && !Sturdy(records[i])
    ensures RecordsCrs(ReadRecords(EmitText(records))) < RecordsCrs(records)
    decreases |records|
  {
    EmitTextUnfold(records);
    var fields, rest := records[0], EmitText(records[1..]);
    TextCrs(records[1..]);
    assert FieldsCrs([]) == 0;
    if Sturdy(fields) {
      FragileTail(records);
      FragileTextRead(records[1..]);
      if BlankRecord(fields) {
        BlankRecordRead(fields, rest);
      } else {
        SturdyRecordRead(fields, rest);
      }
    } else if Fragile(fields[0]) {
      FragileFirstRead(fields, rest, StartRecord, []);
    } else {
      RecordStart(fields, rest);
      FragileLineRead(fields, rest, []);
    }
  }

  /** The checker reads an emitted file back exactly when every field holding a carriage return is quoted and no
      record is written as an empty line: newlines survive, a bare carriage return and a blank record do not. */
  lemma {:induction false} ReaderFileExact(records: seq<seq<string>>)
    ensures ReadRecords(EmitText(records)) == records <==>
            forall i :: 0 <= i < |records| ==> Sturdy(records[i]) && !BlankRecord(records[i])
  {
    if forall i :: 0 <= i < |records| ==> Sturdy(records[i]) {
      RecordsRead(records);
    } else {
      FragileTextRead(records);
    }
  }
}
