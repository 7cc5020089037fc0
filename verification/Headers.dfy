/**
How the collector learns the columns of the file it appends to: it splits the first line on
every comma, without regard to quotes, and trims each piece.
*/
module Headers {
  import opened Text
  import opened Csv

  // ------------------------------------------------------------------ trimming

  /** White space to Rust's `trim`: Python's, without the four information separators. */
  predicate RustSpace(c: char) {
    IsSpace(c) && !('\U{1c}' <= c <= '\U{1f}')
  }

  function TrimStart(s: string): (r: string)
    ensures r == "" || !RustSpace(r[0])
    ensures forall c <- r :: c in s
    ensures s != "" && !RustSpace(s[0]) ==> r == s
  {
    if s != "" && RustSpace(s[0]) then TrimStart(s[1..]) else s
  }

  function TrimEnd(s: string): (r: string)
    ensures r <= s
    ensures r == "" || !RustSpace(r[|r| - 1])
    ensures s != "" && !RustSpace(s[|s| - 1]) ==> r == s
  {
    if s != "" && RustSpace(s[|s| - 1]) then TrimEnd(s[..|s| - 1]) else s
  }

  function Trim(s: string): (r: string) {
    TrimEnd(TrimStart(s))
  }

  predicate RustTrimmed(s: string) {
    s == "" || (!RustSpace(s[0]) && !RustSpace(s[|s| - 1]))
  }

  lemma {:induction false} TrimShape(s: string)
    ensures RustTrimmed(Trim(s)) && forall c <- Trim(s) :: c in s
    ensures RustTrimmed(s) ==> Trim(s) == s
  {
  }

  // ------------------------------------------------------------------- reading

  function FirstLine(text: string): (line: string) {
    var lines := FileLines(text);
    if lines == [] then "" else lines[0]
  }

  function Trims(parts: seq<string>): (names: seq<string>)
    ensures |names| == |parts| && forall i :: 0 <= i < |names| ==> names[i] == Trim(parts[i])
  {
    seq(|parts|, i requires 0 <= i < |parts| => Trim(parts[i]))
  }

  /** The columns the collector sees in a file. */
  function HeaderOf(text: string): (names: seq<string>) {
    Trims(SplitOn(FirstLine(text), ','))
  }

  /** A column name the collector and a CSV reader agree on. */
  predicate PlainName(name: string) {
    RustTrimmed(name) && ',' !in name && '"' !in name && NEWLINE !in name
  }

  ghost predicate PlainNames(names: seq<string>) {
    forall i :: 0 <= i < |names| ==> PlainName(names[i])
  }

  lemma {:induction false} FirstLineRead(line: string, rest: string)
    requires NEWLINE !in line
    ensures FirstLine(line + [NEWLINE] + rest) == Chomp(line)
  {
    SplitAfterPart(line, rest, NEWLINE);
  }

  lemma {:induction false} FirstLineFree(text: string)
    ensures NEWLINE !in FirstLine(text)
  {
    var parts := SplitOn(text, NEWLINE);
    assert NEWLINE !in parts[0];
  }

  /** Members of a part are members of the whole. */
  lemma {:induction false} JoinMembers(parts: seq<string>, sep: char, i: nat, c: char)
    requires i < |parts| && c in parts[i]
    ensures c in JoinWith(parts, sep)
  {
    if |parts| > 1 && i > 0 {
      JoinMembers(parts[1..], sep, i - 1, c);
    }
  }

  /** Whatever the file holds, the names read are trimmed and hold no comma and no newline. */
  lemma {:induction false} ReadNames(text: string, i: nat)
    requires i < |HeaderOf(text)|
    ensures RustTrimmed(HeaderOf(text)[i]) && ',' !in HeaderOf(text)[i] && NEWLINE !in HeaderOf(text)[i]
  {
    var parts := SplitOn(FirstLine(text), ',');
    TrimShape(parts[i]);
    FirstLineFree(text);
    if NEWLINE in parts[i] {
      JoinMembers(parts, ',', i, NEWLINE);
    }
  }

  // ------------------------------------------------------------------ counting

  ghost function Occurs(s: string, c: char): nat {
    multiset(s)[c]
  }

  ghost function Total(names: seq<string>, c: char): nat {
    if names == [] then 0 else Occurs(names[0], c) + Total(names[1..], c)
  }

  lemma {:induction false} OccursHead(s: string, c: char)
    requires s != ""
    ensures Occurs(s, c) == (if s[0] == c then 1 else 0) + Occurs(s[1..], c)
  {
    assert s == [s[0]] + s[1..];
  }

  lemma {:induction false} OccursLast(s: string, c: char)
    requires s != ""
    ensures Occurs(s, c) == Occurs(s[..|s| - 1], c) + if s[|s| - 1] == c then 1 else 0
  {
    assert s == s[..|s| - 1] + [s[|s| - 1]];
  }

  lemma {:induction false} TrimStartOccurs(s: string, c: char)
    requires !RustSpace(c)
    ensures Occurs(TrimStart(s), c) == Occurs(s, c)
  {
    if s != "" && RustSpace(s[0]) {
      OccursHead(s, c);
      TrimStartOccurs(s[1..], c);
    }
  }

  lemma {:induction false} TrimEndOccurs(s: string, c: char)
    requires !RustSpace(c)
    ensures Occurs(TrimEnd(s), c) == Occurs(s, c)
  {
    if s != "" && RustSpace(s[|s| - 1]) {
      OccursLast(s, c);
      TrimEndOccurs(s[..|s| - 1], c);
    }
  }

  lemma {:induction false} TrimsTotal(parts: seq<string>, c: char)
    requires !RustSpace(c)
    ensures Total(Trims(parts), c) == Total(parts, c)
  {
    if parts != [] {
      TrimStartOccurs(parts[0], c);
      TrimEndOccurs(TrimStart(parts[0]), c);
      TrimsTotal(parts[1..], c);
      assert Trims(parts)[1..] == Trims(parts[1..]);
    }
  }

  lemma {:induction false} ChompOccurs(s: string, c: char)
    requires c != CR
    ensures Occurs(Chomp(s), c) == Occurs(s, c)
  {
    if EndsWithCr(s) {
      OccursLast(s, c);
    }
  }

  lemma {:induction false} JoinTotal(parts: seq<string>, sep: char, c: char)
    requires parts != []
    ensures Occurs(JoinWith(parts, sep), c) == Total(parts, c) + if c == sep then |parts| - 1 else 0
  {
    if |parts| > 1 {
      JoinTotal(parts[1..], sep, c);
      assert Occurs(parts[0] + [sep] + JoinWith(parts[1..], sep), c)
          == Occurs(parts[0], c) + (if c == sep then 1 else 0) + Occurs(JoinWith(parts[1..], sep), c);
    }
  }

  lemma {:induction false} FreeTotal(parts: seq<string>, c: char)
    requires Free(parts, c)
    ensures Total(parts, c) == 0
  {
    if parts != [] {
      assert c !in parts[0];
      assert Free(parts[1..], c) by {
        forall i | 0 <= i < |parts[1..]| ensures c !in parts[1..][i] {
          assert parts[1..][i] == parts[i + 1];
        }
      }
      FreeTotal(parts[1..], c);
    }
  }

  lemma {:induction false} SomeOccurs(names: seq<string>, c: char)
    requires exists name <- names :: c in name
    ensures Total(names, c) > 0
  {
    assert names == [names[0]] + names[1..];
    if c !in names[0] {
      SomeOccurs(names[1..], c);
    }
  }

  /** What the collector's reading keeps of a line: every quote, and one column more than commas. */
  lemma {:induction false} ReadingCounts(line: string)
    ensures |Trims(SplitOn(line, ','))| == Occurs(line, ',') + 1
    ensures Total(Trims(SplitOn(line, ',')), '"') == Occurs(line, '"')
  {
    var parts := SplitOn(line, ',');
    JoinTotal(parts, ',', ',');
    FreeTotal(parts, ',');
    JoinTotal(parts, ',', '"');
    TrimsTotal(parts, '"');
  }

  lemma {:induction false} DoubledOccurs(s: string, c: char)
    ensures Occurs(DoubleQuotes(s), c) == (if c == '"' then 2 else 1) * Occurs(s, c)
  {
    if s != "" {
      OccursHead(s, c);
      DoubledOccurs(s[1..], c);
    }
  }

  /** Quoting a field keeps its commas, and adds quotes exactly when it quotes. */
  lemma {:induction false} FieldOccurs(s: string)
    ensures Occurs(CsvField(s), ',') == Occurs(s, ',')
    ensures Occurs(CsvField(s), '"') >= Occurs(s, '"')
    ensures Occurs(CsvField(s), '"') == Occurs(s, '"') <==> !NeedsQuote(s)
  {
    if NeedsQuote(s) {
      DoubledOccurs(s, ',');
      DoubledOccurs(s, '"');
      assert Occurs("\"" + DoubleQuotes(s) + "\"", ',') == Occurs(DoubleQuotes(s), ',');
      assert Occurs("\"" + DoubleQuotes(s) + "\"", '"') == Occurs(DoubleQuotes(s), '"') + 2;
    }
  }

  ghost predicate Unquoted(fields: seq<string>) {
    forall i :: 0 <= i < |fields| ==> !NeedsQuote(fields[i])
  }

  lemma {:induction false} UnquotedUnfold(fields: seq<string>)
    requires fields != []
    ensures Unquoted(fields) <==> !NeedsQuote(fields[0]) && Unquoted(fields[1..])
  {
    assert forall i :: 0 < i < |fields| ==> fields[i] == fields[1..][i - 1];
    assert forall i :: 0 <= i < |fields| - 1 ==> fields[1..][i] == fields[i + 1];
  }

  lemma {:induction false} FieldsTotal(fields: seq<string>)
    ensures Total(EncodeFields(fields), ',') == Total(fields, ',')
    ensures Total(EncodeFields(fields), '"') >= Total(fields, '"')
    ensures Total(EncodeFields(fields), '"') == Total(fields, '"') <==> Unquoted(fields)
  {
    if fields != [] {
      FieldOccurs(fields[0]);
      FieldsTotal(fields[1..]);
      assert EncodeFields(fields)[1..] == EncodeFields(fields[1..]);
      UnquotedUnfold(fields);
    }
  }

  lemma {:induction false} LineOccurs(fields: seq<string>)
    requires fields != []
    ensures Occurs(EmitLine(fields), ',') == Total(fields, ',') + |fields| - 1
    ensures Occurs(EmitLine(fields), '"') == Total(fields, '"') <==> Unquoted(fields)
  {
    FieldsTotal(fields);
    JoinTotal(EncodeFields(fields), ',', ',');
    JoinTotal(EncodeFields(fields), ',', '"');
  }

  // --------------------------------------------------------- reading what is written

  lemma {:induction false} HeaderLine(target: seq<string>, rest: seq<seq<string>>)
    requires target != [] && NewlineFree(target)
    ensures FirstLine(EmitText([target] + rest)) == Chomp(EmitLine(target))
  {
    var records := [target] + rest;
    EmitTextUnfold(records);
    EmitLineShape(target);
    FirstLineRead(EmitLine(target), EmitText(records[1..]));
  }

  /** The collector sees one column for every name, and one more for every comma inside a name. */
  lemma {:induction false} ColumnsSeen(target: seq<string>, rest: seq<seq<string>>)
    requires target != [] && NewlineFree(target)
    ensures |HeaderOf(EmitText([target] + rest))| == |target| + Total(target, ',')
  {
    HeaderLine(target, rest);
    ReadingCounts(Chomp(EmitLine(target)));
    ChompOccurs(EmitLine(target), ',');
    LineOccurs(target);
  }

  /** One name with a comma, after plain ones, is seen as several columns. */
  lemma {:induction false} CommaNameSeen(header: seq<string>, name: string, rest: seq<seq<string>>)
    requires PlainNames(header) && ',' in name && NEWLINE !in name
    ensures |HeaderOf(EmitText([header + [name]] + rest))| > |header| + 1
  {
    var target := header + [name];
    forall i | 0 <= i < |target| ensures NEWLINE !in target[i] {
      assert i < |header| ==> PlainName(target[i]);
    }
    assert target[|header|] == name;
    SomeOccurs(target, ',');
    ColumnsSeen(target, rest);
  }

  lemma {:induction false} QuotesSeen(target: seq<string>, rest: seq<seq<string>>)
    requires target != [] && NewlineFree(target) && HeaderOf(EmitText([target] + rest)) == target
    ensures Unquoted(target)
  {
    HeaderLine(target, rest);
    ReadingCounts(Chomp(EmitLine(target)));
    ChompOccurs(EmitLine(target), '"');
    LineOccurs(target);
  }

  lemma {:induction false} PlainLine(target: seq<string>)
    requires target != [] && PlainNames(target)
    ensures EmitLine(target) == JoinWith(target, ',') && Chomp(EmitLine(target)) == EmitLine(target)
    ensures NewlineFree(target)
  {
    assert forall i :: 0 <= i < |target| ==> PlainName(target[i]) && CsvField(target[i]) == target[i];
    assert EncodeFields(target) == target;
    assert PlainName(target[|target| - 1]);
    EmitLineShape(target);
  }

  lemma {:induction false} PlainHeaderRead(target: seq<string>, rest: seq<seq<string>>)
    requires target != [] && PlainNames(target)
    ensures HeaderOf(EmitText([target] + rest)) == target
  {
    PlainLine(target);
    HeaderLine(target, rest);
    assert Free(target, ',') by {
      forall i | 0 <= i < |target| ensures ',' !in target[i] {
        assert PlainName(target[i]);
      }
    }
    SplitJoin(target, ',');
    forall i | 0 <= i < |target| ensures Trim(target[i]) == target[i] {
      assert PlainName(target[i]);
      TrimShape(target[i]);
    }
  }

  lemma {:induction false} ReadHeaderPlain(target: seq<string>, rest: seq<seq<string>>)
    requires HeaderOf(EmitText([target] + rest)) == target
    ensures target != [] && PlainNames(target)
  {
    var text := EmitText([target] + rest);
    assert |HeaderOf(text)| >= 1;
    forall i | 0 <= i < |target| ensures RustTrimmed(target[i]) && ',' !in target[i] && NEWLINE !in target[i] {
      ReadNames(text, i);
    }
    QuotesSeen(target, rest);
    assert forall i :: 0 <= i < |target| ==> !NeedsQuote(target[i]) && PlainName(target[i]);
  }

  /** The collector reads a written header back exactly when it has a column and every name is trimmed and free of
      commas, quotes and newlines. */
  lemma {:induction false} HeaderReadExact(target: seq<string>, rest: seq<seq<string>>)
    ensures HeaderOf(EmitText([target] + rest)) == target <==> target != [] && PlainNames(target)
  {
    if target != [] && PlainNames(target) {
      PlainHeaderRead(target, rest);
    }
    if HeaderOf(EmitText([target] + rest)) == target {
      ReadHeaderPlain(target, rest);
    }
  }
}
