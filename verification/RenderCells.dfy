/**
What the renderer reads of a scorecard, said of the texts under its columns.
*/
module RenderCells {
  import opened Text
  import opened Csv
  import opened Headers
  import opened Reading
  import opened Render
  import opened RenderText
  import Envelope
  import TierEvidence

  // ------------------------------------------------------------------ trimming

  /** `core` stands at `a` in `s` with nothing but white space around it. */
  ghost predicate TrimmedAt(s: string, core: string, a: nat) {
    && a + |core| <= |s| && s[a..a + |core|] == core
    && (forall i :: 0 <= i < a ==> RustSpace(s[i]))
    && (forall i :: a + |core| <= i < |s| ==> RustSpace(s[i]))
  }

  ghost predicate SpacedAround(s: string, core: string) {
    exists a: nat :: TrimmedAt(s, core, a)
  }

  ghost predicate OnlySpace(s: string) {
    forall i :: 0 <= i < |s| ==> RustSpace(s[i])
  }

  lemma {:induction false} TrimStartAt(s: string) returns (a: nat)
    ensures a <= |s| && TrimStart(s) == s[a..] && forall i :: 0 <= i < a ==> RustSpace(s[i])
  {
    if s != "" && RustSpace(s[0]) {
      var b := TrimStartAt(s[1..]);
      a := b + 1;
      assert s[1..][b..] == s[a..];
      forall i | 0 <= i < a ensures RustSpace(s[i]) {
        if i > 0 { assert s[i] == s[1..][i - 1]; }
      }
    } else {
      a := 0;
    }
  }

  lemma {:induction false} TrimEndAt(s: string)
    ensures forall i :: |TrimEnd(s)| <= i < |s| ==> RustSpace(s[i])
  {
    if s != "" && RustSpace(s[|s| - 1]) {
      TrimEndAt(s[..|s| - 1]);
    }
  }

  lemma {:induction false} TrimSpaced(s: string)
    ensures SpacedAround(s, Trim(s))
  {
    var a := TrimStartAt(s);
    var left, core := s[a..], Trim(s);
    TrimEndAt(left);
    forall i | a + |core| <= i < |s| ensures RustSpace(s[i]) {
      assert s[i] == left[i - a];
    }
    assert TrimmedAt(s, core, a);
  }

  lemma {:induction false} Within(s: string, x: string, a: nat, y: string, b: nat)
    requires x != "" && RustTrimmed(x) && TrimmedAt(s, x, a) && TrimmedAt(s, y, b)
    ensures b <= a && a + |x| <= b + |y|
  {
    assert !RustSpace(s[a]) && !RustSpace(s[a + |x| - 1]);
  }

  lemma {:induction false} SameText(s: string, x: string, a: nat, y: string, b: nat)
    requires RustTrimmed(x) && RustTrimmed(y) && TrimmedAt(s, x, a) && TrimmedAt(s, y, b)
    ensures x == y
  {
    if x != "" {
      Within(s, x, a, y, b);
    }
    if y != "" {
      Within(s, y, b, x, a);
    }
  }

  /** Trimming gives the one trimmed text that has only white space around it. */
  lemma {:induction false} TrimExact(s: string, core: string)
    ensures Trim(s) == core <==> RustTrimmed(core) && SpacedAround(s, core)
  {
    TrimSpaced(s);
    TrimShape(s);
    if RustTrimmed(core) && SpacedAround(s, core) {
      var a: nat :| TrimmedAt(s, core, a);
      var b: nat :| TrimmedAt(s, Trim(s), b);
      SameText(s, core, a, Trim(s), b);
    }
  }

  lemma {:induction false} BlankLine(s: string)
    ensures Trim(s) == "" <==> OnlySpace(s)
  {
    TrimExact(s, "");
    if OnlySpace(s) {
      assert TrimmedAt(s, "", 0);
    }
  }

  // --------------------------------------------------------------------- flags

  ghost predicate Says(s: string, words: set<string>) {
    exists w <- words :: SpacedAround(s, w)
  }

  const YES := {"1", "true", "TRUE", "True"}
  const NO := {"0", "false", "FALSE", "False"}

  lemma {:induction false} YesWords(w: string)
    requires w in YES
    ensures RustTrimmed(w) && w !in NO
  {
  }

  lemma {:induction false} NoWords(w: string)
    requires w in NO
    ensures RustTrimmed(w) && w !in YES
  {
  }

  lemma {:induction false} SaysExact(s: string, words: set<string>)
    requires forall w <- words :: RustTrimmed(w)
    ensures Says(s, words) <==> Trim(s) in words
  {
    TrimExact(s, Trim(s));
    if w :| w in words && SpacedAround(s, w) {
      TrimExact(s, w);
    }
  }

  lemma {:induction false} FlagExact(s: string)
    ensures ParseBool(s) == Some(true) <==> Says(s, YES)
    ensures ParseBool(s) == Some(false) <==> Says(s, NO)
  {
    forall w | w in YES ensures RustTrimmed(w) && w !in NO { YesWords(w); }
    forall w | w in NO ensures RustTrimmed(w) && w !in YES { NoWords(w); }
    SaysExact(s, YES);
    SaysExact(s, NO);
  }

  // -------------------------------------------------------------------- fields

  ghost predicate FirstColumn(header: seq<string>, name: string, i: nat) {
    i < |header| && header[i] == name && forall j :: 0 <= j < i ==> header[j] != name
  }

  /** The text a row has under the first column of a name; blank without the column. */
  ghost predicate Under(header: seq<string>, fields: seq<string>, name: string, v: string) {
    if name in header then exists i: nat :: FirstColumn(header, name, i) && i < |fields| && v == fields[i] else v == ""
  }

  lemma {:induction false} UnderExact(header: seq<string>, fields: seq<string>, name: string, v: string)
    requires |fields| >= |header|
    ensures Named(header, fields, name) == v <==> Under(header, fields, name, v)
  {
    var at := Envelope.Position(header, name);
    if at.Some? {
      assert FirstColumn(header, name, at.value);
      forall i: nat | FirstColumn(header, name, i) ensures i == at.value {
      }
    }
  }

  ghost predicate Flagged(header: seq<string>, fields: seq<string>, name: string, words: set<string>) {
    exists v :: Under(header, fields, name, v) && Says(v, words)
  }

  lemma {:induction false} FlaggedExact(header: seq<string>, fields: seq<string>, name: string)
    requires |fields| >= |header|
    ensures ParseBool(Named(header, fields, name)) == Some(true) <==> Flagged(header, fields, name, YES)
    ensures ParseBool(Named(header, fields, name)) == Some(false) <==> Flagged(header, fields, name, NO)
  {
    var text := Named(header, fields, name);
    forall v ensures Under(header, fields, name, v) <==> v == text {
      UnderExact(header, fields, name, v);
    }
    FlagExact(text);
  }

  /** A text under the column that is not only white space. */
  ghost predicate Filled(header: seq<string>, fields: seq<string>, name: string) {
    exists v :: Under(header, fields, name, v) && !OnlySpace(v)
  }

  lemma {:induction false} FilledExact(header: seq<string>, fields: seq<string>, name: string)
    requires |fields| >= |header|
    ensures Trim(Named(header, fields, name)) != "" <==> Filled(header, fields, name)
  {
    var text := Named(header, fields, name);
    forall v ensures Under(header, fields, name, v) <==> v == text {
      UnderExact(header, fields, name, v);
    }
    BlankLine(text);
  }

  ghost predicate TierSaid(header: seq<string>, fields: seq<string>, tier: string) {
    exists v :: Under(header, fields, "comparison_tier", v) && SpacedAround(v, tier) && RustTrimmed(tier)
  }

  lemma {:induction false} TierExact(header: seq<string>, fields: seq<string>, tier: string)
    requires |fields| >= |header|
    ensures Trim(Named(header, fields, "comparison_tier")) == tier <==> TierSaid(header, fields, tier)
  {
    var text := Named(header, fields, "comparison_tier");
    forall v ensures Under(header, fields, "comparison_tier", v) <==> v == text {
      UnderExact(header, fields, "comparison_tier", v);
    }
    TrimExact(text, tier);
  }

  // ---------------------------------------------------------------------- cells

  /** Who a cell is about. */
  ghost predicate Identified(header: seq<string>, fields: seq<string>, c: Cell) {
    && Under(header, fields, "run_id", c.runId) && Under(header, fields, "bucket", c.bucket)
    && Under(header, fields, "test_id", c.testId) && Under(header, fields, "test_mode", c.testMode)
    && Under(header, fields, "backend", c.backend)
  }

  /** What a cell says. */
  ghost predicate Reported(header: seq<string>, parity: string, fields: seq<string>, c: Cell) {
    && Under(header, fields, "outcome", c.outcome) && TierSaid(header, fields, c.tier)
    && (c.deterministic == Some(true) <==> Flagged(header, fields, "deterministic", YES))
    && (c.deterministic == Some(false) <==> Flagged(header, fields, "deterministic", NO))
    && (c.parity == Some(true) <==> Flagged(header, fields, parity, YES))
    && (c.parity == Some(false) <==> Flagged(header, fields, parity, NO))
    && (c.evidenced <==>
        Filled(header, fields, "parity_comparator") || Filled(header, fields, "compared_log_messages"))
  }

  lemma {:induction false} SameFlag(a: Option<bool>, b: Option<bool>)
    requires (a == Some(true) <==> b == Some(true)) && (a == Some(false) <==> b == Some(false))
    ensures a == b
  {
    assert a.Some? ==> a == if a.value then Some(true) else Some(false);
    assert b.Some? ==> b == if b.value then Some(true) else Some(false);
  }

  lemma {:induction false} IdentifiedExact(header: seq<string>, fields: seq<string>, c: Cell)
    requires |fields| >= |header|
    ensures Identified(header, fields, c) <==>
            && c.runId == Named(header, fields, "run_id") && c.bucket == Named(header, fields, "bucket")
            && c.testId == Named(header, fields, "test_id") && c.testMode == Named(header, fields, "test_mode")
            && c.backend == Named(header, fields, "backend")
  {
    UnderExact(header, fields, "run_id", c.runId);
    UnderExact(header, fields, "bucket", c.bucket);
    UnderExact(header, fields, "test_id", c.testId);
    UnderExact(header, fields, "test_mode", c.testMode);
    UnderExact(header, fields, "backend", c.backend);
  }

  lemma {:induction false} ReportedExact(header: seq<string>, parity: string, fields: seq<string>, c: Cell)
    requires |fields| >= |header|
    ensures Reported(header, parity, fields, c) <==>
            && c.outcome == Named(header, fields, "outcome")
            && c.tier == Trim(Named(header, fields, "comparison_tier"))
            && c.deterministic == ParseBool(Named(header, fields, "deterministic"))
            && c.parity == ParseBool(Named(header, fields, parity))
            && (c.evidenced <==> Trim(Named(header, fields, "parity_comparator")) != ""
                                 || Trim(Named(header, fields, "compared_log_messages")) != "")
  {
    UnderExact(header, fields, "outcome", c.outcome);
    TierExact(header, fields, c.tier);
    FlaggedExact(header, fields, "deterministic");
    FlaggedExact(header, fields, parity);
    FilledExact(header, fields, "parity_comparator");
    FilledExact(header, fields, "compared_log_messages");
    if Reported(header, parity, fields, c) {
      SameFlag(c.deterministic, ParseBool(Named(header, fields, "deterministic")));
      SameFlag(c.parity, ParseBool(Named(header, fields, parity)));
    }
  }

  /** The cell of a row, read off the texts under its columns. */
  lemma {:induction false} CellExact(header: seq<string>, parity: string, at: nat, fields: seq<string>, c: Cell)
    requires |fields| >= |header|
    ensures ParsedCell(header, parity, at, fields) == c <==>
            c.at == at && Identified(header, fields, c) && Reported(header, parity, fields, c)
  {
    IdentifiedExact(header, fields, c);
    ReportedExact(header, parity, fields, c);
  }

  // ----------------------------------------------------------------------- rows

  /** A line the renderer passes over: blank, or with fewer fields than the header. */
  ghost predicate PassedOver(header: seq<string>, line: string) {
    OnlySpace(line) || |SplitLine(line)| < |header|
  }

  const TIERS := {
    "full-stdout-info-stack-heap", "stdout-info-stack-heap-spot-check", "legacy-unqualified",
    "unqualified-no-comparison", "unqualified-stdout-only", "unqualified-self-verify-only",
    "unqualified-tool-count-only"
  }

  /** A line that stops the renderer: its tier is none of the seven. */
  ghost predicate Stopped(header: seq<string>, line: string) {
    !PassedOver(header, line) && forall tier :: TierSaid(header, SplitLine(line), tier) ==> tier !in TIERS
  }

  lemma {:induction false} KnownExact(tier: string)
    ensures KnownTier(tier) <==> tier in TIERS
  {
    assert UNQUALIFIED_TIERS[0] == "legacy-unqualified" && UNQUALIFIED_TIERS[1] == "unqualified-no-comparison";
    assert UNQUALIFIED_TIERS[2] == "unqualified-stdout-only" && UNQUALIFIED_TIERS[3] == "unqualified-self-verify-only";
    assert UNQUALIFIED_TIERS[4] == "unqualified-tool-count-only";
  }

  lemma {:induction false} RowExact(header: seq<string>, parity: string, at: nat, line: string)
    ensures ReadRow(header, parity, at, line).Skipped? <==> PassedOver(header, line)
    ensures ReadRow(header, parity, at, line).Refused? <==> Stopped(header, line)
  {
    var fields := SplitLine(line);
    BlankLine(line);
    if |fields| >= |header| {
      var said := Trim(Named(header, fields, "comparison_tier"));
      forall tier ensures TierSaid(header, fields, tier) <==> tier == said {
        TierExact(header, fields, tier);
      }
      KnownExact(said);
    }
  }

  ghost function CellStands(header: seq<string>, parity: string): (string, nat, Cell) -> bool {
    (line: string, at: nat, c: Cell) => CellOf(header, parity, line, at, c)
  }

  ghost function LinePassed(header: seq<string>): string -> bool {
    line => PassedOver(header, line)
  }

  /** The cells are those of the lines at these places, which are all the lines not passed over. */
  ghost predicate CellsAt(header: seq<string>, parity: string, lines: seq<string>, at: seq<nat>, cells: seq<Cell>) {
    Picked(lines, at, cells, CellStands(header, parity), LinePassed(header))
  }

  ghost predicate CellOf(header: seq<string>, parity: string, line: string, at: nat, c: Cell) {
    && !PassedOver(header, line) && !Stopped(header, line)
    && c.at == at && Identified(header, SplitLine(line), c) && Reported(header, parity, SplitLine(line), c)
  }

  lemma {:induction false} ReadCell(header: seq<string>, parity: string, at: nat, line: string)
    ensures ReadRow(header, parity, at, line).Read? ==>
              CellOf(header, parity, line, at, ReadRow(header, parity, at, line).cell)
  {
    RowExact(header, parity, at, line);
    if ReadRow(header, parity, at, line).Read? {
      CellExact(header, parity, at, SplitLine(line), ReadRow(header, parity, at, line).cell);
    }
  }

  lemma {:induction false} FrontReadings(header: seq<string>, parity: string, lines: seq<string>)
    requires lines != []
    ensures Readings(header, parity, lines)[..|lines| - 1] == Readings(header, parity, lines[..|lines| - 1])
  {
  }

  /** One cell for every line that is not passed over, in order, each read off the texts under the columns. */
  lemma {:induction false} CellsMean(header: seq<string>, parity: string, lines: seq<string>) returns (at: seq<nat>)
    requires CellsFrom(header, parity, lines).Some?
    ensures CellsAt(header, parity, lines, at, CellsFrom(header, parity, lines).value)
  {
    if lines == [] {
      at := [];
    } else {
      var n := |lines| - 1;
      FrontReadings(header, parity, lines);
      at := CellsMean(header, parity, lines[..n]);
      var cells, row := CellsFrom(header, parity, lines[..n]).value, ReadRow(header, parity, n, lines[n]);
      RowExact(header, parity, n, lines[n]);
      ReadCell(header, parity, n, lines[n]);
      if row.Read? {
        PickedOne(lines, at, cells, CellStands(header, parity), LinePassed(header), row.cell);
        at := at + [n];
      } else {
        PassedOne(lines, at, cells, CellStands(header, parity), LinePassed(header));
      }
    }
  }

  ghost predicate AnyStopped(header: seq<string>, lines: seq<string>) {
    exists n :: 0 <= n < |lines| && Stopped(header, lines[n])
  }

  lemma {:induction false} AnyStoppedLast(header: seq<string>, lines: seq<string>)
    requires lines != []
    ensures AnyStopped(header, lines) <==>
            AnyStopped(header, lines[..|lines| - 1]) || Stopped(header, lines[|lines| - 1])
  {
    assert forall k :: 0 <= k < |lines| - 1 ==> lines[..|lines| - 1][k] == lines[k];
  }

  /** The file is refused exactly when some line stops the renderer. */
  lemma {:induction false} RefusedExact(header: seq<string>, parity: string, lines: seq<string>)
    ensures CellsFrom(header, parity, lines).None? <==> AnyStopped(header, lines)
  {
    if lines != [] {
      var n := |lines| - 1;
      FrontReadings(header, parity, lines);
      RefusedExact(header, parity, lines[..n]);
      RowExact(header, parity, n, lines[n]);
      AnyStoppedLast(header, lines);
    }
  }

  // ----------------------------------------------------------------- whole files

  ghost predicate Once(header: seq<string>, name: string) {
    multiset(header)[name] == 1
  }

  /**
   The parity column of an observable: its own name or the legacy one, occurring once; not both, and never beside the
   name of the other observable.
   */
  ghost predicate ColumnFor(header: seq<string>, o: Observable, column: string) {
    var (own, foreign) := if o == Stdout then ("stdout_parity", "tool_count_parity")
                          else ("tool_count_parity", "stdout_parity");
    && foreign !in header && Once(header, column)
    && ((column == own && "parity" !in header) || (column == "parity" && own !in header))
  }

  lemma {:induction false} ColumnExact(header: seq<string>, o: Observable, column: string)
    ensures ParityColumn(header, o) == Some(column) <==> ColumnFor(header, o, column)
  {
    assert |"stdout_parity"| == 13 && |"tool_count_parity"| == 17 && |"parity"| == 6;
  }

  /** Everything the renderer goes on with: the header, the column, and one cell per line not passed over. */
  lemma {:induction false} FileMeans(text: string, o: Observable, cells: seq<Cell>)
    returns (header: seq<string>, parity: string, at: seq<nat>)
    requires CellsOf(text, o) == Some(cells)
    ensures FileLines(text) != [] && header == SplitLine(FileLines(text)[0]) && ColumnFor(header, o, parity)
    ensures CellsAt(header, parity, FileLines(text)[1..], at, cells) && cells != []
  {
    header := SplitLine(FileLines(text)[0]);
    parity := ParityColumn(header, o).value;
    ColumnExact(header, o, parity);
    at := CellsMean(header, parity, FileLines(text)[1..]);
  }
}
