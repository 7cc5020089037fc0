/**
Scorecards as text: the file a sheet is written to and the sheet the Python readers make of a file.
Python's dictionary writer quotes as the collector does, except that it writes a lone empty field as
a pair of quotes, and no tool writes a scorecard of one column.
*/
module SheetText {
  import opened Text
  import opened Sheets
  import opened Csv
  import opened CsvReader

  /** The lines of a file, its header first. */
  function FileRecords(sheet: Sheet): (records: seq<seq<string>>) {
    [sheet.header] + sheet.records
  }

  function SheetWritten(sheet: Sheet): (text: string) {
    EmitText(FileRecords(sheet))
  }

  /** The sheet the dictionary reader makes of a text. */
  function SheetOf(text: string): (sheet: Sheet) {
    var records := ReadRecords(text);
    if records == [] then Sheet([], []) else Sheet(records[0], records[1..])
  }

  ghost predicate ReadsBack(records: seq<seq<string>>) {
    forall i :: 0 <= i < |records| ==> Sturdy(records[i]) && !BlankRecord(records[i])
  }

  /** The reader recovers a whole file exactly when no field leaves a carriage return unquoted and no record is an empty
      line; it then sees the sheet that was written. */
  lemma {:induction false} SheetRead(sheet: Sheet)
    ensures ReadRecords(SheetWritten(sheet)) == FileRecords(sheet) <==> ReadsBack(FileRecords(sheet))
    ensures ReadsBack(FileRecords(sheet)) ==> SheetOf(SheetWritten(sheet)) == sheet
  {
    var records := FileRecords(sheet);
    ReaderFileExact(records);
    assert records[0] == sheet.header && records[1..] == sheet.records;
  }

  lemma {:induction false} EmitTextAppend(a: seq<seq<string>>, b: seq<seq<string>>)
    ensures EmitText(a + b) == EmitText(a) + EmitText(b)
  {
    assert EmitLines(a + b) == EmitLines(a) + EmitLines(b);
    TerminatedAppend(EmitLines(a), EmitLines(b), NEWLINE);
  }

  /** Appending lines to a written sheet writes the longer sheet. */
  lemma {:induction false} SheetAppended(header: seq<string>, earlier: seq<seq<string>>, more: seq<seq<string>>)
    ensures SheetWritten(Sheet(header, earlier)) + EmitText(more) == SheetWritten(Sheet(header, earlier + more))
  {
    var before, after := FileRecords(Sheet(header, earlier)), FileRecords(Sheet(header, earlier + more));
    assert after == before + more;
    EmitTextAppend(before, more);
  }
}
