/**
The renderer's reading of a scorecard: from the text of the file to the cells it aggregates.
*/
module RenderText {
  import opened Text
  import opened Csv
  import opened Headers
  import opened Render
  import opened SheetText
  import Agreement
  import Envelope
  import Sheets
  import TierEvidence

  // ------------------------------------------------------------------ the header

  const REQUIRED: seq<string> := [
    "run_id", "run_utc", "hermit_sha", "reverie_sha", "dirty", "run_mode", "lane", "bucket", "test_id", "test_mode",
    "backend", "cell_state", "outcome", "deterministic", "output_hash", "duration_ms", "max_rss_kb", "reason",
    "comparison_tier"
  ]

  const UNQUALIFIED_TIERS: seq<string> := [
    "legacy-unqualified", "unqualified-no-comparison", "unqualified-stdout-only", "unqualified-self-verify-only",
    "unqualified-tool-count-only"
  ]

  predicate KnownTier(tier: string) {
    TierEvidence.Qualifying(tier) || tier in UNQUALIFIED_TIERS
  }

  datatype Observable = Stdout | ToolCount

  function Modern(o: Observable): (name: string) {
    if o.Stdout? then "stdout_parity" else "tool_count_parity"
  }

  function Other(o: Observable): (name: string) {
    if o.Stdout? then "tool_count_parity" else "stdout_parity"
  }

  /** The parity column: the modern or the legacy name, exactly one of them, once, and not the other observable's. */
  function ParityColumn(header: seq<string>, o: Observable): (r: Option<string>)
    ensures r.Some? ==> r.value in header
  {
    var selected, legacy := multiset(header)[Modern(o)], multiset(header)["parity"];
    if selected > 1 || legacy > 1 || Other(o) in header then None
    else if selected == 1 && legacy == 1 then None
    else if selected == 1 then Some(Modern(o))
    else if legacy == 1 then Some("parity")
    else None
  }

  // -------------------------------------------------------------------- one row

  function ParseBool(s: string): (r: Option<bool>) {
    var t := Trim(s);
    if t in {"1", "true", "TRUE", "True"} then Some(true)
    else if t in {"0", "false", "FALSE", "False"} then Some(false)
    else None
  }

  /** The field under the first column of that name, blank where there is none. */
  function Named(header: seq<string>, fields: seq<string>, name: string): (v: string) {
    var at := Envelope.Position(header, name);
    if at.Some? && at.value < |fields| then fields[at.value] else ""
  }

  function ParsedCell(header: seq<string>, parity: string, at: nat, fields: seq<string>): (c: Cell) {
    Cell(at, Named(header, fields, "run_id"), Named(header, fields, "bucket"), Named(header, fields, "test_id"),
         Named(header, fields, "test_mode"), Named(header, fields, "backend"), Named(header, fields, "outcome"),
         ParseBool(Named(header, fields, "deterministic")), ParseBool(Named(header, fields, parity)),
         Trim(Named(header, fields, "comparison_tier")),
         Trim(Named(header, fields, "parity_comparator")) != ""
         || Trim(Named(header, fields, "compared_log_messages")) != "")
  }

  datatype Reading = Skipped | Refused | Read(cell: Cell)

  /** One data line: blank and short ones are passed over, an unknown tier refuses the whole file. */
  function ReadRow(header: seq<string>, parity: string, at: nat, line: string): (r: Reading) {
    var fields := SplitLine(line);
    if Trim(line) == "" || |fields| < |header| then Skipped
    else if !KnownTier(Trim(Named(header, fields, "comparison_tier"))) then Refused
    else Read(ParsedCell(header, parity, at, fields))
  }

  /** The cells of the lines read so far; one refused line leaves none. */
  function Gathered(readings: seq<Reading>): (r: Option<seq<Cell>>) {
    if readings == [] then Some([])
    else
      var front, last := Gathered(readings[..|readings| - 1]), readings[|readings| - 1];
      if front.None? || last.Refused? then None
      else if last.Read? then Some(front.value + [last.cell])
      else front
  }

  function Readings(header: seq<string>, parity: string, lines: seq<string>): (r: seq<Reading>)
    ensures |r| == |lines| && forall i :: 0 <= i < |r| ==> r[i] == ReadRow(header, parity, i, lines[i])
  {
    seq(|lines|, i requires 0 <= i < |lines| => ReadRow(header, parity, i, lines[i]))
  }

  function CellsFrom(header: seq<string>, parity: string, lines: seq<string>): (r: Option<seq<Cell>>) {
    Gathered(Readings(header, parity, lines))
  }

  lemma {:induction false} RefusedRefuses(readings: seq<Reading>, i: nat)
    requires i < |readings| && readings[i].Refused?
    ensures Gathered(readings).None?
  {
    if i < |readings| - 1 {
      RefusedRefuses(readings[..|readings| - 1], i);
    }
  }

  lemma {:induction false} GatheredGrows(before: seq<Reading>, last: Reading)
    requires Gathered(before).Some? && !last.Refused?
    ensures Gathered(before + [last])
            == Some(Gathered(before).value + if last.Read? then [last.cell] else [])
  {
    assert (before + [last])[..|before|] == before;
    assert Gathered(before).value + [] == Gathered(before).value;
  }

  method ReadRows(header: seq<string>, parity: string, lines: seq<string>) returns (r: Option<seq<Cell>>)
    ensures r == CellsFrom(header, parity, lines)
  {
    var cells := [];
    ghost var readings, before := Readings(header, parity, lines), [];
    for i := 0 to |lines|
      invariant before == readings[..i] && Gathered(before) == Some(cells)
    {
      PrefixGrows(readings, i);
      var row := ReadRow(header, parity, i, lines[i]);
      if row.Refused? {
        RefusedRefuses(readings, i);
        return None;
      }
      GatheredGrows(before, row);
      before := before + [row];
      cells := cells + (if row.Read? then [row.cell] else []);
    }
    assert readings[..|lines|] == readings;
    r := Some(cells);
  }

  /** The cells of a file, or nothing where the renderer stops with an error. */
  function CellsOf(text: string, o: Observable): (r: Option<seq<Cell>>) {
    var lines := FileLines(text);
    if lines == [] then None
    else
      var header := SplitLine(lines[0]);
      var parity := ParityColumn(header, o);
      if (exists c <- REQUIRED :: c !in header) || parity.None? then None
      else
        var cells := CellsFrom(header, parity.value, lines[1..]);
        if cells == Some([]) then None else cells
  }

  // --------------------------------------------------------------- every file

  lemma {:induction false} GatheredInOrder(readings: seq<Reading>)
    requires forall i :: 0 <= i < |readings| && readings[i].Read? ==> readings[i].cell.at == i
    requires Gathered(readings).Some?
    ensures InFileOrder(Gathered(readings).value)
    ensures forall c <- Gathered(readings).value :: c.at < |readings|
  {
    if readings != [] {
      GatheredInOrder(readings[..|readings| - 1]);
    }
  }

  /** Over any file the renderer accepts, if it holds a single run, the default scope and `--all` build the same
      index. */
  lemma {:induction false} TextScopesAgree(text: string, o: Observable, cells: seq<Cell>, values: seq<Cell>,
                                           mode: string)
    requires CellsOf(text, o) == Some(cells) && Enumerates(values, Newest(cells))
    requires forall c <- cells :: c.runId == cells[|cells| - 1].runId
    ensures cells != [] && InFileOrder(cells)
    ensures Index(OfRun(cells, cells[|cells| - 1].runId), mode) == Index(values, mode)
  {
    var lines := FileLines(text);
    var header := SplitLine(lines[0]);
    GatheredInOrder(Readings(header, ParityColumn(header, o).value, lines[1..]));
    ScopesAgree(cells, values, mode);
  }

  // ------------------------------------------------------------- written files

  /** The renderer recovers the records of the file. */
  ghost predicate Recovered(records: seq<seq<string>>) {
    forall i :: 0 <= i < |records| ==> records[i] != [] && NewlineFree(records[i]) && !BareTrailingCr(records[i])
  }

  lemma {:induction false} RecoveredLines(records: seq<seq<string>>)
    requires Recovered(records)
    ensures FileLines(EmitText(records)) == EmitLines(records)
    ensures SplitLines(EmitLines(records)) == records
  {
    RendererFileExact(records);
    var lines := EmitLines(records);
    forall i | 0 <= i < |records|
      ensures NEWLINE !in lines[i] && !EndsWithCr(lines[i]) && SplitLine(lines[i]) == records[i]
    {
      EmitLineShape(records[i]);
      LineRoundTrip(records[i]);
    }
    FileLinesExact(lines);
  }

  lemma {:induction false} CommaStays(s: string)
    requires ',' in s
    ensures Trim(s) != ""
  {
    TrimStartOccurs(s, ',');
    TrimEndOccurs(TrimStart(s), ',');
  }

  lemma {:induction false} WideLineStays(fields: seq<string>)
    requires |fields| >= 2
    ensures Trim(EmitLine(fields)) != ""
  {
    EmitLineUnfold(fields);
    assert EmitLine(fields)[|CsvField(fields[0])|] == ',';
    CommaStays(EmitLine(fields));
  }

  function ParsedCells(header: seq<string>, parity: string, records: seq<seq<string>>): (cells: seq<Cell>)
    ensures |cells| == |records|
    ensures forall i :: 0 <= i < |records| ==> cells[i] == ParsedCell(header, parity, i, records[i])
  {
    seq(|records|, i requires 0 <= i < |records| => ParsedCell(header, parity, i, records[i]))
  }

  /** Full rows under at least two columns, each with a tier the renderer knows. */
  ghost predicate Renderable(header: seq<string>, records: seq<seq<string>>) {
    && |header| >= 2
    && forall i :: 0 <= i < |records| ==>
         |records[i]| >= |header| && KnownTier(Trim(Named(header, records[i], "comparison_tier")))
  }

  lemma {:induction false} WrittenRowRead(header: seq<string>, parity: string, at: nat, fields: seq<string>)
    requires |fields| >= |header| >= 2 && KnownTier(Trim(Named(header, fields, "comparison_tier")))
    ensures ReadRow(header, parity, at, EmitLine(fields)) == Read(ParsedCell(header, parity, at, fields))
  {
    LineRoundTrip(fields);
    WideLineStays(fields);
  }

  lemma {:induction false} EveryLineRead(readings: seq<Reading>, cells: seq<Cell>)
    requires |cells| == |readings| && forall i :: 0 <= i < |readings| ==> readings[i] == Read(cells[i])
    ensures Gathered(readings) == Some(cells)
  {
    if readings != [] {
      var n := |readings| - 1;
      EveryLineRead(readings[..n], cells[..n]);
      assert cells == cells[..n] + [cells[n]];
    }
  }

  lemma {:induction false} WrittenRowsRead(header: seq<string>, parity: string, records: seq<seq<string>>)
    requires Renderable(header, records)
    ensures CellsFrom(header, parity, EmitLines(records)) == Some(ParsedCells(header, parity, records))
  {
    var readings, cells := Readings(header, parity, EmitLines(records)), ParsedCells(header, parity, records);
    forall i | 0 <= i < |readings| ensures readings[i] == Read(cells[i]) {
      WrittenRowRead(header, parity, i, records[i]);
    }
    EveryLineRead(readings, cells);
  }

  lemma {:induction false} CellsOfLines(text: string, o: Observable, lines: seq<string>, header: seq<string>,
                                        parity: string, cells: seq<Cell>)
    requires lines == FileLines(text) && lines != [] && header == SplitLine(lines[0])
    requires (forall c <- REQUIRED :: c in header) && ParityColumn(header, o) == Some(parity)
    requires CellsFrom(header, parity, lines[1..]) == Some(cells) && cells != []
    ensures CellsOf(text, o) == Some(cells)
  {
  }

  lemma {:induction false} WrittenLines(header: seq<string>, records: seq<seq<string>>, lines: seq<string>)
    requires Recovered([header] + records) && lines == FileLines(EmitText([header] + records))
    ensures |lines| == |records| + 1 && SplitLine(lines[0]) == header && lines[1..] == EmitLines(records)
  {
    RecoveredLines([header] + records);
    assert SplitLines(lines)[0] == header;
  }

  /** A written scorecard is rendered from exactly its records, one cell each and in order. */
  lemma {:induction false} WrittenCells(header: seq<string>, records: seq<seq<string>>, o: Observable)
    requires records != [] && Recovered([header] + records) && Renderable(header, records)
    requires (forall c <- REQUIRED :: c in header) && ParityColumn(header, o).Some?
    ensures CellsOf(EmitText([header] + records), o)
            == Some(ParsedCells(header, ParityColumn(header, o).value, records))
  {
    var text, parity := EmitText([header] + records), ParityColumn(header, o).value;
    WrittenLines(header, records, FileLines(text));
    WrittenRowsRead(header, parity, records);
    CellsOfLines(text, o, FileLines(text), header, parity, ParsedCells(header, parity, records));
  }

  // ------------------------------------------------------- the run just appended

  const RUN := "run_id"
  const OWN_TIER := "unqualified-stdout-only"

  lemma {:induction false} OwnTier(setup: Envelope.Setup, world: Envelope.World, population: string, at: nat,
                                   cell: Envelope.PlanCell)
    ensures Envelope.Measure(setup, world, population, at, cell, Envelope.Found(world, cell)).row[35] == OWN_TIER
  {
  }

  lemma {:induction false} FinalTier(setup: Envelope.Setup, world: Envelope.World, plan: seq<Envelope.PlanCell>, i: nat)
    requires i < |Envelope.Order(plan)|
    ensures Envelope.FinalRow(setup, world, plan, i)[35] == OWN_TIER
  {
    OwnTier(setup, world, Envelope.PlanId(setup, world, plan), i, Envelope.Order(plan)[i]);
  }

  lemma {:induction false} NamedProjection(row: seq<string>, target: seq<string>, i: nat)
    requires |row| == Envelope.COLUMNS && i < Envelope.COLUMNS && Agreement.Name(i) in target
    ensures Named(target, Envelope.Project(row, target), Agreement.Name(i)) == row[i]
  {
    Envelope.ValueAt(row, i);
  }

  lemma {:induction false} OwnTierKnown()
    ensures KnownTier(Trim(OWN_TIER))
  {
    assert UNQUALIFIED_TIERS[2] == OWN_TIER;
    TrimShape(OWN_TIER);
  }

  lemma {:induction false} LastName()
    ensures Agreement.Name(0) == RUN && Agreement.Name(35) == "comparison_tier"
  {
    Envelope.HeaderWidth();
  }

  lemma {:induction false} CollectedRow(setup: Envelope.Setup, world: Envelope.World, plan: seq<Envelope.PlanCell>,
                                        target: seq<string>, i: nat, fields: seq<string>)
    requires i < |Envelope.Order(plan)| && fields == Envelope.Collected(setup, world, plan, target)[i]
    requires RUN in target && "comparison_tier" in target
    ensures |fields| == |target| && Named(target, fields, RUN) == setup.meta.runId
    ensures KnownTier(Trim(Named(target, fields, "comparison_tier")))
  {
    var row := Envelope.FinalRow(setup, world, plan, i);
    LastName();
    Agreement.FinalFacts(setup, world, plan, i);
    FinalTier(setup, world, plan, i);
    NamedProjection(row, target, 0);
    NamedProjection(row, target, 35);
    OwnTierKnown();
  }

  lemma {:induction false} OfRunNone(cells: seq<Cell>, id: string)
    requires forall i :: 0 <= i < |cells| ==> cells[i].runId != id
    ensures OfRun(cells, id) == []
  {
    if cells != [] {
      OfRunNone(cells[..|cells| - 1], id);
    }
  }

  lemma {:induction false} OfRunLast(cells: seq<Cell>, id: string)
    requires cells != [] && cells[|cells| - 1].runId == id
    ensures OfRun(cells, id) == OfRun(cells[..|cells| - 1], id) + [cells[|cells| - 1]]
  {
  }

  lemma {:induction false} SliceLast<T>(xs: seq<T>, k: nat)
    requires k < |xs|
    ensures xs[k..] == xs[..|xs| - 1][k..] + [xs[|xs| - 1]]
  {
  }

  /** When exactly the cells from `k` on are of a run, scoping to it keeps exactly those. */
  lemma {:induction false} OfRunFrom(cells: seq<Cell>, k: nat, id: string)
    requires k <= |cells| && forall i :: 0 <= i < |cells| ==> (cells[i].runId == id <==> k <= i)
    ensures OfRun(cells, id) == cells[k..]
  {
    if k == |cells| {
      OfRunNone(cells, id);
    } else {
      var n := |cells| - 1;
      OfRunFrom(cells[..n], k, id);
      OfRunLast(cells, id);
      SliceLast(cells, k);
    }
  }

  /** What the renderer asks of the file before the run. */
  ghost predicate Ready(setup: Envelope.Setup, target: seq<string>, earlier: seq<seq<string>>, o: Observable) {
    && PlainNames(target) && !Envelope.Refuses(setup, target) && Renderable(target, earlier)
    && (forall c <- REQUIRED :: c in target) && ParityColumn(target, o).Some?
    && forall r <- earlier :: Named(target, r, RUN) != setup.meta.runId
  }

  lemma {:induction false} ReadyNames(target: seq<string>)
    requires forall c <- REQUIRED :: c in target
    ensures RUN in target && "comparison_tier" in target
  {
    assert REQUIRED[0] == RUN && REQUIRED[18] == "comparison_tier";
    assert REQUIRED[0] in REQUIRED && REQUIRED[18] in REQUIRED;
  }

  lemma {:induction false} AppendedRenderable(setup: Envelope.Setup, world: Envelope.World,
                                              plan: seq<Envelope.PlanCell>, target: seq<string>,
                                              earlier: seq<seq<string>>, o: Observable, records: seq<seq<string>>)
    requires Ready(setup, target, earlier, o)
    requires records == earlier + Envelope.Collected(setup, world, plan, target)
    ensures Renderable(target, records)
    ensures forall i :: 0 <= i < |records| ==> (Named(target, records[i], RUN) == setup.meta.runId <==> |earlier| <= i)
  {
    ReadyNames(target);
    forall i | 0 <= i < |records|
      ensures |records[i]| >= |target| && KnownTier(Trim(Named(target, records[i], "comparison_tier")))
      ensures Named(target, records[i], RUN) == setup.meta.runId <==> |earlier| <= i
    {
      if i < |earlier| {
        assert records[i] == earlier[i] && earlier[i] in earlier;
      } else {
        CollectedRow(setup, world, plan, target, i - |earlier|, records[i]);
      }
    }
  }

  lemma {:induction false} AppendedCells(setup: Envelope.Setup, world: Envelope.World, plan: seq<Envelope.PlanCell>,
                                         target: seq<string>, earlier: seq<seq<string>>, o: Observable,
                                         records: seq<seq<string>>, parity: string)
    requires plan != [] && Ready(setup, target, earlier, o) && ParityColumn(target, o) == Some(parity)
    requires records == earlier + Envelope.Collected(setup, world, plan, target) && Recovered([target] + records)
    requires Renderable(target, records)
    ensures var text := Agreement.AppendedText(setup, world, plan, SheetWritten(Sheets.Sheet(target, earlier)));
            CellsOf(text, o) == Some(ParsedCells(target, parity, records))
  {
    Envelope.OneRowPerCell(plan);
    PlainHeaderRead(target, earlier);
    Agreement.AppendedTextIs(setup, world, plan, target, earlier, target);
    WrittenCells(target, records, o);
  }

  /**
   From one run to its rendering: of the file the collector leaves, the renderer's default scope takes exactly the rows
   of the run just appended, one cell each and in the order they were appended.
   */
  lemma {:induction false} LatestIsAppended(setup: Envelope.Setup, world: Envelope.World, plan: seq<Envelope.PlanCell>,
                                            target: seq<string>, earlier: seq<seq<string>>, o: Observable,
                                            records: seq<seq<string>>, cells: seq<Cell>)
    requires plan != [] && Ready(setup, target, earlier, o)
    requires records == earlier + Envelope.Collected(setup, world, plan, target) && Recovered([target] + records)
    requires cells == ParsedCells(target, ParityColumn(target, o).value, records)
    ensures var text := Agreement.AppendedText(setup, world, plan, SheetWritten(Sheets.Sheet(target, earlier)));
            CellsOf(text, o) == Some(cells)
    ensures |cells| == |earlier| + |plan| && cells[|cells| - 1].runId == setup.meta.runId
    ensures OfRun(cells, cells[|cells| - 1].runId) == cells[|earlier|..]
  {
    Envelope.OneRowPerCell(plan);
    AppendedRenderable(setup, world, plan, target, earlier, o, records);
    AppendedCells(setup, world, plan, target, earlier, o, records, ParityColumn(target, o).value);
    forall i | 0 <= i < |cells| ensures cells[i].runId == setup.meta.runId <==> |earlier| <= i {
      assert cells[i].runId == Named(target, records[i], RUN);
    }
    OfRunFrom(cells, |earlier|, setup.meta.runId);
  }
}
