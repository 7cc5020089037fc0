/**
Producer and checker against each other: what the collector appends is exactly what
the provenance checker demands of it.
*/
module Agreement {
  import opened Text
  import opened Sheets
  import opened Csv
  import opened CsvReader
  import opened Headers
  import opened SheetText
  import opened Population
  import opened Envelope
  import opened Revisions
  import opened Provenance

  // ------------------------------------------------------- rows as dictionaries

  /** The header positions the checker reads, besides the parity verdict at 14: run_id to cell_state (0-11),
      output_hash and ref_output_hash (18-19), parity_comparator to evidence_count (28-34). */
  predicate Checked(i: nat) {
    i <= 11 || 18 <= i <= 19 || 28 <= i <= 34
  }

  predicate StdoutColumn(column: string) {
    column == "stdout_parity" || column == "parity"
  }

  ghost predicate Readable(target: seq<string>, column: string) {
    && (forall i :: 0 <= i < COLUMNS && Checked(i) ==> Name(i) in target)
    && column in target && StdoutColumn(column)
  }

  function Name(i: nat): (name: string)
    requires i < COLUMNS
  {
    HeaderWidth();
    HEADER[i]
  }

  /** `fields` gives every named column of `row` under its own name. */
  ghost predicate Carries(target: seq<string>, fields: seq<string>, row: seq<string>)
    requires |row| == COLUMNS
  {
    && |fields| == |target|
    && (forall i, k :: 0 <= i < COLUMNS && 0 <= k < |target| && target[k] == Name(i) ==> fields[k] == row[i])
    && (forall k :: 0 <= k < |target| && StdoutColumn(target[k]) ==> fields[k] == row[14])
  }

  lemma {:induction false} ProjectCarries(row: seq<string>, target: seq<string>)
    requires |row| == COLUMNS
    ensures Carries(target, Project(row, target), row)
  {
    var fields := Project(row, target);
    forall i, k | 0 <= i < COLUMNS && 0 <= k < |target| && target[k] == Name(i) ensures fields[k] == row[i] {
      ValueAt(row, i);
    }
    forall k | 0 <= k < |target| && StdoutColumn(target[k]) ensures fields[k] == row[14] {
      ParityValue(row, target[k]);
    }
  }

  lemma {:induction false} ParityValue(row: seq<string>, column: string)
    requires |row| == COLUMNS && StdoutColumn(column)
    ensures Value(row, column) == row[14]
  {
    LegacyParityValue(row);
    ValueAt(row, 14);
    StdoutParityColumn();
  }

  lemma {:induction false} DictLookup(header: seq<string>, record: seq<string>, col: string, v: string)
    requires |record| == |header| && col in header
    requires forall k :: 0 <= k < |header| && header[k] == col ==> record[k] == v
    ensures Get(DictRow(header, record), col) == v
  {
    if col in header[1..] {
      DictLookup(header[1..], record[1..], col, v);
    } else {
      DictKeys(header[1..], record[1..], col);
      assert header == [header[0]] + header[1..];
    }
  }

  lemma {:induction false} Lookup(target: seq<string>, fields: seq<string>, row: seq<string>, i: nat)
    requires |row| == COLUMNS && Carries(target, fields, row)
    requires i < COLUMNS && Name(i) in target
    ensures Get(DictRow(target, fields), Name(i)) == row[i]
  {
    DictLookup(target, fields, Name(i), row[i]);
  }

  /** A finished row as the checker will see it. */
  function VectorFacts(row: seq<string>): (f: Facts)
    requires |row| == COLUMNS
  {
    Facts(row[0], Strip(row[0]), Strip(row[1]), Strip(row[14]), Strip(row[2]), Strip(row[3]), Strip(row[4]),
          Strip(row[18]), Strip(row[19]), Strip(row[28]), Strip(row[29]), row[30], Strip(row[31]), Strip(row[32]),
          Strip(row[33]), Strip(row[34]), PositiveInt(row[32]), PositiveInt(row[33]), PositiveInt(row[34]),
          StripKey([row[5], row[6], row[7], row[8], row[9], row[10], row[11]]))
  }

  lemma {:induction false} IdentityNames()
    ensures Name(0) == "run_id" && Name(1) == "run_utc" && Name(2) == "hermit_sha" && Name(3) == "reverie_sha"
    ensures Name(4) == "dirty"
  {
  }

  lemma {:induction false} KeyNames()
    ensures Name(5) == "run_mode" && Name(6) == "lane" && Name(7) == "bucket" && Name(8) == "test_id"
    ensures Name(9) == "test_mode" && Name(10) == "backend" && Name(11) == "cell_state"
  {
  }

  lemma {:induction false} EvidenceNames()
    ensures Name(18) == "output_hash" && Name(19) == "ref_output_hash" && Name(28) == "parity_comparator"
    ensures Name(29) == "parity_tier" && Name(30) == "profile_flags" && Name(31) == "population_id"
  {
  }

  lemma {:induction false} CountNames()
    ensures Name(32) == "selected_count" && Name(33) == "executed_count" && Name(34) == "evidence_count"
  {
  }

  /** Through any header carrying the checker's columns, the checker reads each value from the position the
      collector wrote it to. */
  lemma {:induction false} FactsOfCarried(target: seq<string>, fields: seq<string>, row: seq<string>, column: string)
    requires |row| == COLUMNS && Carries(target, fields, row) && Readable(target, column)
    ensures FactsOf(DictRow(target, fields), column) == VectorFacts(row)
  {
    var d := DictRow(target, fields);
    assert Get(d, column) == row[14] by {
      DictLookup(target, fields, column, row[14]);
    }
    forall i | 0 <= i < COLUMNS && Checked(i) ensures Get(d, Name(i)) == row[i] {
      Lookup(target, fields, row, i);
    }
    NamedFacts(d, row, column);
  }

  lemma {:induction false} NamedFacts(d: Row, row: seq<string>, column: string)
    requires |row| == COLUMNS && Get(d, column) == row[14]
    requires forall i :: 0 <= i < COLUMNS && Checked(i) ==> Get(d, Name(i)) == row[i]
    ensures FactsOf(d, column) == VectorFacts(row)
  {
    assert Get(d, "run_id") == row[0] && Get(d, "run_utc") == row[1] && Get(d, "hermit_sha") == row[2]
        && Get(d, "reverie_sha") == row[3] && Get(d, "dirty") == row[4] by {
      IdentityNames();
    }
    assert RowKey(d) == VectorFacts(row).key by {
      KeyNames();
      assert Get(d, Name(5)) == row[5] && Get(d, Name(6)) == row[6] && Get(d, Name(7)) == row[7]
             && Get(d, Name(8)) == row[8];
      assert Get(d, Name(9)) == row[9] && Get(d, Name(10)) == row[10] && Get(d, Name(11)) == row[11];
    }
    assert Get(d, "output_hash") == row[18] && Get(d, "ref_output_hash") == row[19]
           && Get(d, "parity_comparator") == row[28]
        && Get(d, "parity_tier") == row[29] && Get(d, "profile_flags") == row[30]
            && Get(d, "population_id") == row[31] by {
      EvidenceNames();
    }
    assert Get(d, "selected_count") == row[32] && Get(d, "executed_count") == row[33]
           && Get(d, "evidence_count") == row[34] by {
      CountNames();
    }
  }

  // --------------------------------------------------------- what one row states

  ghost predicate Digests(world: World) {
    && (forall text :: LowerHex(world.sha(text), 64))
    && (forall n, cell :: CaptureDigests(world.capture(n, cell)))
  }

  ghost predicate CaptureDigests(c: Capture) {
    c.Captured? ==>
      && (c.refHash.Some? ==> LowerHex(c.refHash.value, 64))
      && (c.candidate.Some? ==> LowerHex(c.candidate.value.hash, 64))
  }

  function Texts(argv: seq<string>): (items: seq<Item>)
    ensures |items| == |argv|
    ensures forall i :: 0 <= i < |argv| ==> items[i] == TextItem(argv[i])
  {
    seq(|argv|, i requires 0 <= i < |argv| => TextItem(argv[i]))
  }

  /** The checker's JSON reader undoes the producer's JSON writer. */
  ghost predicate JsonRoundTrip(world: World, loads: string -> Loaded) {
    forall p: Profile :: loads(world.dumps(p)) == Object(Some(Texts(p.comparison)), None)
  }

  predicate TrimmedCell(c: PlanCell) {
    Trimmed(c.bucket) && Trimmed(c.test) && Trimmed(c.mode) && Trimmed(c.backend) && Trimmed(c.cellState)
  }

  predicate TrimmedPlan(setup: Setup, plan: seq<PlanCell>) {
    Trimmed(setup.mode) && Trimmed(setup.lane) && forall c <- plan :: TrimmedCell(c)
  }

  function MeasuredParity(setup: Setup, world: World, at: nat, cell: PlanCell): (p: Parity) {
    CaptureParity(if setup.withParity && Observe(world, cell, Found(world, cell)).outcome == "pass"
                  then world.capture(at, cell) else NoGuest)
  }

  /** Where the collector puts what the checker will look for. */
  ghost predicate Written(row: seq<string>, setup: Setup, cell: PlanCell, p: Parity, flags: string, population: string)
    requires |row| == COLUMNS
  {
    && row[0] == setup.meta.runId && row[1] == setup.meta.runUtc && row[2] == setup.meta.hermitSha
    && row[3] == setup.meta.reverieSha && row[4] == (if setup.meta.dirty then "true" else "false")
    && row[5] == setup.mode && row[6] == setup.lane && row[7] == cell.bucket && row[8] == cell.test
    && row[9] == cell.mode && row[10] == cell.backend && row[11] == cell.cellState
    && row[14] == Flag(p.parity) && row[18] == p.output && row[19] == p.reference
    && row[28] == (if p.parity.Some? then STDOUT_COMPARATOR else "")
    && row[29] == (if p.parity.Some? then STDOUT_TIER else "")
    && row[30] == flags && row[31] == population
  }

  lemma {:induction false} VectorWritten(setup: Setup, cell: PlanCell, o: Observed, d: Option<bool>, v: VerifyVerdict,
                                         p: Parity, flags: string, population: string)
    ensures Written(RowVector(setup, cell, o, d, v, p, flags, population), setup, cell, p, flags, population)
  {
  }

  function FlagsText(setup: Setup, world: World, cell: PlanCell): (s: string) {
    world.dumps(ProfileFlags(setup.lane, cell.bucket, cell.backend, setup.mode))
  }

  lemma {:induction false} MeasuredRow(setup: Setup, world: World, population: string, at: nat, cell: PlanCell)
    ensures var m := Measure(setup, world, population, at, cell, Found(world, cell));
            var p := MeasuredParity(setup, world, at, cell);
            && m.evidence == p.parity.Some?
            && Written(m.row, setup, cell, p, FlagsText(setup, world, cell), population)
  {
    var available := world.unavailable(cell.backend).None?;
    var o := Observe(world, cell, Found(world, cell));
    var d := Determinism(available, o.outcome, cell.mode);
    var verdict := if cell.mode == "verify" && available && o.outcome == "pass" then world.verdict(at, cell) else None;
    VectorWritten(setup, cell, o, d, VerifyColumns(d, cell.mode, verdict), MeasuredParity(setup, world, at, cell),
                  FlagsText(setup, world, cell), population);
  }

  /** The checker's facts about one finished row, in the collector's terms: whose row it is. */
  ghost predicate StatedOwner(f: Facts, setup: Setup, cell: PlanCell, population: string) {
    && f.runId == setup.meta.runId && f.run == Strip(setup.meta.runId) && f.runUtc == Strip(setup.meta.runUtc)
    && f.hermit == Strip(setup.meta.hermitSha) && f.reverie == Strip(setup.meta.reverieSha)
    && f.dirty == (if setup.meta.dirty then "true" else "false")
    && f.key == StripKey(KeyOf(setup, cell)) && f.population == Strip(population)
  }

  /** What it says of parity. */
  ghost predicate StatedParity(f: Facts, setup: Setup, world: World, cell: PlanCell, p: Parity) {
    && f.verdict == Flag(p.parity) && f.candidate == Strip(p.output) && f.reference == Strip(p.reference)
    && (p.parity.Some? ==> f.comparator == STDOUT_COMPARATOR && f.tier == STDOUT_TIER)
    && f.profile == FlagsText(setup, world, cell)
  }

  /** The counts it was stamped with. */
  ghost predicate StatedCounts(f: Facts, selected: nat, executed: nat, evidence: nat) {
    && f.selected == Some(selected) && f.executed == Some(executed) && f.evidence == Some(evidence)
    && f.selectedText == Decimal(selected) && f.executedText == Decimal(executed) && f.evidenceText == Decimal(evidence)
  }

  ghost predicate StatedFacts(f: Facts, setup: Setup, world: World, cell: PlanCell, p: Parity, population: string,
                              selected: nat, executed: nat, evidence: nat)
  {
    StatedOwner(f, setup, cell, population) && StatedParity(f, setup, world, cell, p)
    && StatedCounts(f, selected, executed, evidence)
  }

  lemma {:induction false} FlagTrimmed(b: Option<bool>)
    ensures Strip(Flag(b)) == Flag(b)
  {
  }

  lemma {:induction false} PrintedCount(n: nat)
    ensures PositiveInt(Decimal(n)) == Some(n) && Strip(Decimal(n)) == Decimal(n) && Decimal(n) != ""
  {
    ParsePrinted(n);
  }

  lemma {:induction false} StampKeeps(row: seq<string>, selected: nat, executed: nat, evidence: nat)
    requires |row| == COLUMNS
    ensures var r := Stamp(row, selected, executed, evidence);
            && (forall i :: 0 <= i < 32 ==> r[i] == row[i])
            && r[32] == Decimal(selected) && r[33] == Decimal(executed) && r[34] == Decimal(evidence)
  {
  }

  lemma {:induction false} ConstantsTrimmed()
    ensures Strip("true") == "true" && Strip("false") == "false" && Strip("") == ""
    ensures Strip(STDOUT_COMPARATOR) == STDOUT_COMPARATOR && Strip(STDOUT_TIER) == STDOUT_TIER
  {
  }

  lemma {:induction false} RowOwner(row: seq<string>, setup: Setup, cell: PlanCell, p: Parity, flags: string,
                                    population: string)
    requires |row| == COLUMNS && Written(row, setup, cell, p, flags, population)
    ensures StatedOwner(VectorFacts(row), setup, cell, population)
  {
    ConstantsTrimmed();
  }

  lemma {:induction false} RowParity(row: seq<string>, setup: Setup, world: World, cell: PlanCell, p: Parity,
                                     population: string)
    requires |row| == COLUMNS && Written(row, setup, cell, p, FlagsText(setup, world, cell), population)
    ensures StatedParity(VectorFacts(row), setup, world, cell, p)
  {
    FlagTrimmed(p.parity);
    ConstantsTrimmed();
  }

  lemma {:induction false} RowCounts(row: seq<string>, selected: nat, executed: nat, evidence: nat)
    requires |row| == COLUMNS
    requires row[32] == Decimal(selected) && row[33] == Decimal(executed) && row[34] == Decimal(evidence)
    ensures StatedCounts(VectorFacts(row), selected, executed, evidence)
  {
    PrintedCount(selected);
    PrintedCount(executed);
    PrintedCount(evidence);
  }

  lemma {:induction false} StatedStamp(setup: Setup, world: World, cell: PlanCell, row: seq<string>, p: Parity,
                                       population: string, selected: nat, executed: nat, evidence: nat)
    requires |row| == COLUMNS && Written(row, setup, cell, p, FlagsText(setup, world, cell), population)
    ensures StatedFacts(VectorFacts(Stamp(row, selected, executed, evidence)), setup, world, cell, p, population,
                        selected, executed, evidence)
  {
    var stamped := Stamp(row, selected, executed, evidence);
    StampKeeps(row, selected, executed, evidence);
    assert Written(stamped, setup, cell, p, FlagsText(setup, world, cell), population);
    RowOwner(stamped, setup, cell, p, FlagsText(setup, world, cell), population);
    RowParity(stamped, setup, world, cell, p, population);
    RowCounts(stamped, selected, executed, evidence);
  }

  lemma {:induction false} FinalFacts(setup: Setup, world: World, plan: seq<PlanCell>, i: nat)
    requires i < |Order(plan)|
    ensures var rows := Rows(setup, world, PlanId(setup, world, plan), Order(plan));
            var cell := Order(plan)[i];
            var p := MeasuredParity(setup, world, i, cell);
            && rows[i].evidence == p.parity.Some?
            && StatedFacts(VectorFacts(FinalRow(setup, world, plan, i)), setup, world, cell, p,
                           PlanId(setup, world, plan), |plan|, CountExecuted(rows), CountEvidence(rows))
  {
    var population := PlanId(setup, world, plan);
    var rows := Rows(setup, world, population, Order(plan));
    var cell := Order(plan)[i];
    MeasuredRow(setup, world, population, i, cell);
    StatedStamp(setup, world, cell, rows[i].row, MeasuredParity(setup, world, i, cell), population, |plan|,
                CountExecuted(rows), CountEvidence(rows));
  }

  // --------------------------------------------------------- the appended run

  /** The rows of one run as the checker sees them. */
  function RunFacts(setup: Setup, world: World, plan: seq<PlanCell>): (rows: seq<Facts>)
    ensures |rows| == |Order(plan)|
    ensures forall i :: 0 <= i < |rows| ==> rows[i] == VectorFacts(FinalRow(setup, world, plan, i))
  {
    seq(|Order(plan)|, i requires 0 <= i < |Order(plan)| => VectorFacts(FinalRow(setup, world, plan, i)))
  }

  lemma {:induction false} ScopeNone(rows: seq<Facts>, runId: string)
    requires runId != "" && forall f <- rows :: f.runId != runId
    ensures Scope(rows, runId) == []
  {
    if rows != [] {
      ScopeNone(rows[..|rows| - 1], runId);
      assert rows[|rows| - 1] in rows;
    }
  }

  lemma {:induction false} ScopeAll(before: seq<Facts>, rows: seq<Facts>, runId: string)
    requires forall f <- rows :: f.runId == runId
    ensures Scope(before + rows, runId) == Scope(before, runId) + rows
  {
    if rows == [] {
      assert before + rows == before;
    } else {
      var n := |rows| - 1;
      ScopeAll(before, rows[..n], runId);
      assert (before + rows)[..|before + rows| - 1] == before + rows[..n];
      assert rows[n] in rows;
      assert rows == rows[..n] + [rows[n]];
    }
  }

  lemma {:induction false} SheetAppend(header: seq<string>, a: seq<seq<string>>, b: seq<seq<string>>, column: string)
    ensures SheetFacts(Sheet(header, a + b), column) == SheetFacts(Sheet(header, a), column)
            + SheetFacts(Sheet(header, b), column)
  {
  }

  lemma {:induction false} AppendedRow(setup: Setup, world: World, plan: seq<PlanCell>, target: seq<string>,
                                       column: string, i: nat)
    requires Readable(target, column) && i < |Order(plan)|
    ensures FactsOf(DictRow(target, Project(FinalRow(setup, world, plan, i), target)), column)
            == RunFacts(setup, world, plan)[i]
    ensures RunFacts(setup, world, plan)[i].runId == setup.meta.runId
  {
    var row := FinalRow(setup, world, plan, i);
    ProjectCarries(row, target);
    FactsOfCarried(target, Project(row, target), row, column);
    FinalFacts(setup, world, plan, i);
  }

  lemma {:induction false} AppendedRows(setup: Setup, world: World, plan: seq<PlanCell>, target: seq<string>,
                                        column: string)
    requires Readable(target, column)
    ensures SheetFacts(Sheet(target, Collected(setup, world, plan, target)), column) == RunFacts(setup, world, plan)
    ensures forall f <- RunFacts(setup, world, plan) :: f.runId == setup.meta.runId
  {
    var rows := RunFacts(setup, world, plan);
    forall i | 0 <= i < |rows|
      ensures SheetFacts(Sheet(target, Collected(setup, world, plan, target)), column)[i] == rows[i]
      ensures rows[i].runId == setup.meta.runId
    {
      AppendedRow(setup, world, plan, target, column, i);
    }
  }

  /** Appending a run under a fresh run id, the checker scoped to that id sees exactly the run's rows. */
  lemma {:induction false} AppendedScope(setup: Setup, world: World, plan: seq<PlanCell>, target: seq<string>,
                                         earlier: seq<seq<string>>, column: string)
    requires Readable(target, column)
    requires setup.meta.runId != ""
    requires forall r <- earlier :: FactsOf(DictRow(target, r), column).runId != setup.meta.runId
    ensures Scope(SheetFacts(Sheet(target, earlier + Collected(setup, world, plan, target)), column), setup.meta.runId)
            == RunFacts(setup, world, plan)
  {
    var before, rows := SheetFacts(Sheet(target, earlier), column), RunFacts(setup, world, plan);
    AppendedRows(setup, world, plan, target, column);
    SheetAppend(target, earlier, Collected(setup, world, plan, target), column);
    ScopeNone(before, setup.meta.runId);
    ScopeAll(before, rows, setup.meta.runId);
    assert [] + rows == rows;
  }

  lemma {:induction false} SingleRunMembers(rows: seq<Facts>, run: string)
    requires forall f <- rows :: f.run == run
    ensures |Members(rows, run)| == |rows|
    ensures forall i :: 0 <= i < |rows| ==> Members(rows, run)[i].facts == rows[i]
  {
    if rows != [] {
      var n := |rows| - 1;
      assert rows[n] in rows;
      SingleRunMembers(rows[..n], run);
    }
  }

  lemma {:induction false} SingleRunClaims(rows: seq<Facts>, run: string)
    requires forall f <- rows :: f.run == run
    ensures ClaimsIn(Members(rows, run)) == Claims(rows)
  {
    if rows != [] {
      var n := |rows| - 1;
      assert rows[n] in rows;
      SingleRunClaims(rows[..n], run);
      var members := Members(rows, run);
      assert members[..|members| - 1] == Members(rows[..n], run);
    }
  }

  lemma {:induction false} SingleRun(rows: seq<Facts>, run: string)
    requires forall f <- rows :: f.run == run
    ensures RunOrder(rows) == (if rows == [] then [] else [run])
    ensures |Members(rows, run)| == |rows|
    ensures forall i :: 0 <= i < |rows| ==> Members(rows, run)[i].facts == rows[i]
    ensures ClaimsIn(Members(rows, run)) == Claims(rows)
  {
    SingleRunMembers(rows, run);
    SingleRunClaims(rows, run);
    SingleRunOrder(rows, run);
  }

  lemma {:induction false} SingleRunOrder(rows: seq<Facts>, run: string)
    requires forall f <- rows :: f.run == run
    ensures RunOrder(rows) == (if rows == [] then [] else [run])
  {
    if rows != [] {
      var n := |rows| - 1;
      assert rows[n] in rows;
      SingleRunOrder(rows[..n], run);
    }
  }

  lemma {:induction false} EvidenceCounts(rows: seq<Pending>)
    requires forall i :: 0 <= i < |rows| ==> rows[i].evidence ==> rows[i].executed
    ensures CountEvidence(rows) <= CountExecuted(rows)
    ensures CountEvidence(rows) > 0 <==> exists i :: 0 <= i < |rows| && rows[i].evidence
  {
    if rows != [] {
      var n := |rows| - 1;
      EvidenceCounts(rows[..n]);
      if i :| 0 <= i < |rows| && rows[i].evidence {
        assert i < n ==> rows[..n][i].evidence;
      }
    }
  }

  lemma {:induction false} ClaimsAreEvidence(facts: seq<Facts>, rows: seq<Pending>)
    requires |facts| == |rows| && forall i :: 0 <= i < |rows| ==> IsClaim(facts[i]) == rows[i].evidence
    ensures Claims(facts) == CountEvidence(rows)
  {
    if rows != [] {
      ClaimsAreEvidence(facts[..|rows| - 1], rows[..|rows| - 1]);
    }
  }

  lemma {:induction false} KeysPermute(setup: Setup, a: seq<PlanCell>, b: seq<PlanCell>)
    requires multiset(a) == multiset(b)
    ensures Preimage(Map(StripKey, Keys(setup, a))) == Preimage(Map(StripKey, Keys(setup, b)))
  {
    var f := (c: PlanCell) => StripKey(KeyOf(setup, c));
    var left, right := Map(StripKey, Keys(setup, a)), Map(StripKey, Keys(setup, b));
    assert Map(f, a) == left && Map(f, b) == right;
    MapPermutation(f, a, b);
    PreimageIgnoresOrder(left, right);
  }

  lemma {:induction false} TrimmedKeyOf(setup: Setup, cell: PlanCell)
    ensures TrimmedKey(KeyOf(setup, cell)) <==> Trimmed(setup.mode) && Trimmed(setup.lane) && TrimmedCell(cell)
  {
    var key := KeyOf(setup, cell);
    assert key[0] == setup.mode && key[1] == setup.lane && key[2] == cell.bucket && key[3] == cell.test;
    assert key[4] == cell.mode && key[5] == cell.backend && key[6] == cell.cellState;
  }

  lemma {:induction false} TrimmedKeys(setup: Setup, plan: seq<PlanCell>)
    requires plan != []
    ensures TrimmedPlan(setup, plan) <==> forall i :: 0 <= i < |plan| ==> TrimmedKey(Keys(setup, plan)[i])
  {
    forall i | 0 <= i < |plan|
      ensures TrimmedKey(Keys(setup, plan)[i]) <==>
              Trimmed(setup.mode) && Trimmed(setup.lane) && TrimmedCell(plan[i])
    {
      TrimmedKeyOf(setup, plan[i]);
    }
    assert TrimmedKey(Keys(setup, plan)[0]) <==>
           Trimmed(setup.mode) && Trimmed(setup.lane) && TrimmedCell(plan[0]);
  }

  /** The digest tells the population the collector hashed from the one the checker reads back, unless they are the
      same text. */
  ghost predicate NoCollision(setup: Setup, world: World, plan: seq<PlanCell>) {
    var hashed, read := Preimage(Keys(setup, plan)), Preimage(Map(StripKey, Keys(setup, plan)));
    world.sha(hashed) == world.sha(read) ==> hashed == read
  }

  /** The id the checker derives from the stripped fields is the run's own exactly when no field was padded. */
  lemma {:induction false} StrippedPlanId(setup: Setup, world: World, plan: seq<PlanCell>)
    requires plan != [] && NoCollision(setup, world, plan)
    ensures PopulationId(world.sha, Map(StripKey, Keys(setup, plan))) == PlanId(setup, world, plan) <==>
            TrimmedPlan(setup, plan)
  {
    var hashed, read := Keys(setup, plan), Map(StripKey, Keys(setup, plan));
    ProducerCheckerPreimage(hashed);
    TrimmedKeys(setup, plan);
    SameId(world.sha(Preimage(hashed)), world.sha(Preimage(read)));
  }

  lemma {:induction false} SameId(a: string, b: string)
    ensures "sha256:" + a == "sha256:" + b <==> a == b
  {
    assert ("sha256:" + a)[7..] == a && ("sha256:" + b)[7..] == b;
  }

  lemma {:induction false} IdShape(digest: string, id: string)
    requires LowerHex(digest, 64) && id == "sha256:" + digest
    ensures IsPopulationId(id) && Strip(id) == id && id != ""
  {
    assert id[7..] == digest && id[..7] == "sha256:";
    assert id[|id| - 1] == digest[63];
  }

  lemma {:induction false} PlanIdShape(setup: Setup, world: World, plan: seq<PlanCell>)
    requires Digests(world)
    ensures IsPopulationId(PlanId(setup, world, plan))
            && Strip(PlanId(setup, world, plan)) == PlanId(setup, world, plan) != ""
  {
    IdShape(world.sha(Preimage(Keys(setup, plan))), PlanId(setup, world, plan));
  }

  lemma {:induction false} HexTrimmed(s: string, n: nat)
    requires LowerHex(s, n)
    ensures Strip(s) == s
  {
    if n == 0 {
      assert s == "";
    } else {
      assert !IsSpace(s[0]) && !IsSpace(s[n - 1]);
    }
  }

  lemma {:induction false} ShaTrimmed(s: string)
    requires ExactSha(s)
    ensures Strip(s) == s
  {
    assert HexDigit(s[0]) && HexDigit(s[39]);
  }

  /** What the checker will accept of a run's identity. */
  predicate Acceptable(meta: Meta) {
    Strip(meta.runId) != "" && LowerHex(meta.hermitSha, 40) && LowerHex(meta.reverieSha, 40)
  }

  /** A parity run in terms of its metadata, with digests that do not collide on its population and a JSON library that
      reads back what it wrote. */
  ghost predicate Started(setup: Setup, world: World, plan: seq<PlanCell>, loads: string -> Loaded) {
    && setup.withParity && ExactSha(setup.meta.hermitSha) && ExactSha(setup.meta.reverieSha) && !setup.meta.dirty
    && Strip(setup.meta.runUtc) != ""
    && plan != [] && NoCollision(setup, world, plan)
    && Digests(world) && JsonRoundTrip(world, loads)
  }

  /** The same of a host: a run the collector lets start, with the metadata it gathers there. */
  ghost predicate ParityRun(host: Host, setup: Setup, world: World, plan: seq<PlanCell>, loads: string -> Loaded) {
    && setup.meta == MetaOf(host)
    && setup.withParity && ExactSha(setup.meta.hermitSha) && ExactSha(setup.meta.reverieSha) && !setup.meta.dirty
    && plan != [] && NoCollision(setup, world, plan)
    && Digests(world) && JsonRoundTrip(world, loads)
  }

  /** The part of `Acceptable` that the collector does not already guarantee: a nonblank run id, and a revision that
      git prints in lower case. */
  predicate Identified(meta: Meta) {
    Strip(meta.runId) != "" && LowerHex(meta.hermitSha, 40)
  }

  lemma {:induction false} ParityRunStarts(host: Host, setup: Setup, world: World, plan: seq<PlanCell>,
                                           loads: string -> Loaded)
    requires ParityRun(host, setup, world, plan, loads)
    ensures Started(setup, world, plan, loads)
    ensures Acceptable(setup.meta) <==> Identified(setup.meta)
  {
    MetaShape(host);
  }

  function StdoutContract(column: string): (c: Contract) {
    Contract(column, STDOUT_COMPARATOR, STDOUT_TIER, false)
  }

  lemma {:induction false} ProfileAccepted(setup: Setup, world: World, cell: PlanCell, loads: string -> Loaded)
    requires JsonRoundTrip(world, loads)
    ensures var loaded := loads(FlagsText(setup, world, cell));
            TextArgv(loaded) && TextItem("--strict") in loaded.comparison.value
  {
    var p := ProfileFlags(setup.lane, cell.bucket, cell.backend, setup.mode);
    assert loads(world.dumps(p)) == Object(Some(Texts(p.comparison)), None);
    var i :| 0 <= i < |p.comparison| && p.comparison[i] == "--strict";
    assert Texts(p.comparison)[i] == TextItem("--strict");
  }

  /** A claimed verdict is re-derivable: both operands are digests and the verdict is their equality. */
  lemma {:induction false} ClaimRederives(setup: Setup, world: World, i: nat, cell: PlanCell, f: Facts)
    requires Digests(world)
    requires f.verdict == Flag(MeasuredParity(setup, world, i, cell).parity)
    requires f.candidate == Strip(MeasuredParity(setup, world, i, cell).output)
    requires f.reference == Strip(MeasuredParity(setup, world, i, cell).reference)
    ensures IsClaim(f) == MeasuredParity(setup, world, i, cell).parity.Some?
    ensures IsClaim(f) ==> Rederives(f)
  {
    var p := MeasuredParity(setup, world, i, cell);
    if p.parity.Some? {
      assert CaptureDigests(world.capture(i, cell));
      HexTrimmed(p.output, 64);
      HexTrimmed(p.reference, 64);
    }
  }

  lemma {:induction false} FalseIsClean()
    ensures CleanText("false")
  {
  }

  /** A claim whose every other part is in order stands exactly when its run and its revisions are acceptable. */
  lemma {:induction false} ClaimStands(f: Facts, c: Contract, loads: string -> Loaded)
    requires Rederives(f) && CleanText(f.dirty) && f.comparator == c.comparator && f.tier == c.tier && !c.toolCount
    requires TextArgv(loads(f.profile)) && TextItem("--strict") in loads(f.profile).comparison.value
    requires IsPopulationId(f.population) && CountsParse(f) && CountsOrdered(f) && f.runUtc != ""
    ensures RowStands(f, c, loads) <==> f.run != "" && LowerHex(f.hermit, 40) && LowerHex(f.reverie, 40)
  {
  }

  lemma {:induction false} StatedClaimStands(f: Facts, setup: Setup, world: World, cell: PlanCell, p: Parity,
                                             population: string, selected: nat, executed: nat, evidence: nat,
                                             loads: string -> Loaded, column: string)
    requires StatedFacts(f, setup, world, cell, p, population, selected, executed, evidence)
    requires p.parity.Some? && Rederives(f) && 0 < evidence <= executed <= selected
    requires IsPopulationId(Strip(population))
    requires ExactSha(setup.meta.hermitSha) && ExactSha(setup.meta.reverieSha) && !setup.meta.dirty
    requires Strip(setup.meta.runUtc) != "" && JsonRoundTrip(world, loads)
    ensures RowStands(f, StdoutContract(column), loads) <==> Acceptable(setup.meta)
  {
    ProfileAccepted(setup, world, cell, loads);
    ShaTrimmed(setup.meta.hermitSha);
    ShaTrimmed(setup.meta.reverieSha);
    FalseIsClean();
    ClaimStands(f, StdoutContract(column), loads);
  }

  lemma {:induction false} RunCounts(setup: Setup, world: World, plan: seq<PlanCell>)
    ensures var rows := Rows(setup, world, PlanId(setup, world, plan), Order(plan));
            && CountEvidence(rows) <= CountExecuted(rows) <= |plan|
            && (CountEvidence(rows) > 0 <==> exists i :: 0 <= i < |rows| && rows[i].evidence)
  {
    OneRowPerCell(plan);
    EvidenceCounts(Rows(setup, world, PlanId(setup, world, plan), Order(plan)));
  }

  lemma {:induction false} RowAgreement(setup: Setup, world: World, plan: seq<PlanCell>, loads: string -> Loaded,
                                        column: string, i: nat)
    requires Started(setup, world, plan, loads) && i < |Order(plan)|
    ensures var f := RunFacts(setup, world, plan)[i];
            var rows := Rows(setup, world, PlanId(setup, world, plan), Order(plan));
            && IsClaim(f) == rows[i].evidence
            && (IsClaim(f) ==> (RowStands(f, StdoutContract(column), loads) <==> Acceptable(setup.meta)))
  {
    var f := RunFacts(setup, world, plan)[i];
    var population := PlanId(setup, world, plan);
    var rows := Rows(setup, world, population, Order(plan));
    var cell := Order(plan)[i];
    var p := MeasuredParity(setup, world, i, cell);
    FinalFacts(setup, world, plan, i);
    ClaimRederives(setup, world, i, cell, f);
    RunCounts(setup, world, plan);
    PlanIdShape(setup, world, plan);
    if IsClaim(f) {
      StatedClaimStands(f, setup, world, cell, p, population, |plan|, CountExecuted(rows), CountEvidence(rows), loads,
                        column);
    }
  }

  /** The one value a condition has over a whole run. */
  function RunValue(setup: Setup, population: string, selected: nat, executed: nat, evidence: nat,
                    condition: Condition): (v: string) {
    match condition
    case RunUtc => Strip(setup.meta.runUtc)
    case HermitSha => Strip(setup.meta.hermitSha)
    case ReverieSha => Strip(setup.meta.reverieSha)
    case PopulationText => Strip(population)
    case SelectedCount => Decimal(selected)
    case ExecutedCount => Decimal(executed)
    case EvidenceCount => Decimal(evidence)
  }

  lemma {:induction false} StatedValue(f: Facts, setup: Setup, world: World, cell: PlanCell, p: Parity,
                                       population: string, selected: nat, executed: nat, evidence: nat,
                                       condition: Condition)
    requires StatedFacts(f, setup, world, cell, p, population, selected, executed, evidence)
    ensures Valued(f, condition) == RunValue(setup, population, selected, executed, evidence, condition)
  {
  }

  lemma {:induction false} RunValueStated(setup: Setup, population: string, selected: nat, executed: nat, evidence: nat,
                                          condition: Condition)
    requires Strip(setup.meta.runUtc) != "" && Strip(population) != ""
    requires ExactSha(setup.meta.hermitSha) && ExactSha(setup.meta.reverieSha)
    ensures RunValue(setup, population, selected, executed, evidence, condition) != ""
  {
    ShaTrimmed(setup.meta.hermitSha);
    ShaTrimmed(setup.meta.reverieSha);
    PrintedCount(selected);
    PrintedCount(executed);
    PrintedCount(evidence);
  }

  lemma {:induction false} SameValued(members: seq<Member>, condition: Condition, value: string)
    requires members != [] && value != ""
    requires forall i :: 0 <= i < |members| ==> Valued(members[i].facts, condition) == value
    ensures OneValued(members, condition)
  {
  }

  lemma {:induction false} RunConditions(setup: Setup, world: World, plan: seq<PlanCell>, loads: string -> Loaded,
                                         members: seq<Member>, condition: Condition)
    requires Started(setup, world, plan, loads)
    requires |members| == |Order(plan)| > 0
    requires forall i :: 0 <= i < |members| ==> members[i].facts == RunFacts(setup, world, plan)[i]
    ensures OneValued(members, condition)
  {
    var population := PlanId(setup, world, plan);
    var rows := Rows(setup, world, population, Order(plan));
    var value := RunValue(setup, population, |plan|, CountExecuted(rows), CountEvidence(rows), condition);
    PlanIdShape(setup, world, plan);
    RunValueStated(setup, population, |plan|, CountExecuted(rows), CountEvidence(rows), condition);
    forall i | 0 <= i < |members| ensures Valued(members[i].facts, condition) == value {
      var cell := Order(plan)[i];
      FinalFacts(setup, world, plan, i);
      StatedValue(members[i].facts, setup, world, cell, MeasuredParity(setup, world, i, cell), population, |plan|,
                  CountExecuted(rows), CountEvidence(rows), condition);
    }
    SameValued(members, condition, value);
  }

  lemma {:induction false} RunKeys(setup: Setup, world: World, plan: seq<PlanCell>, members: seq<Member>)
    requires |members| == |Order(plan)|
    requires forall i :: 0 <= i < |members| ==> members[i].facts == RunFacts(setup, world, plan)[i]
    ensures MemberKeys(members) == Map(StripKey, Keys(setup, Order(plan)))
  {
    forall i | 0 <= i < |members| ensures MemberKeys(members)[i] == StripKey(KeyOf(setup, Order(plan)[i])) {
      FinalFacts(setup, world, plan, i);
    }
  }

  lemma {:induction false} SamePreimage(sha: string -> string, a: seq<Key>, b: seq<Key>)
    requires Preimage(a) == Preimage(b)
    ensures PopulationId(sha, a) == PopulationId(sha, b)
  {
  }

  lemma {:induction false} RunPopulation(setup: Setup, world: World, plan: seq<PlanCell>, members: seq<Member>)
    requires plan != [] && NoCollision(setup, world, plan) && |members| == |Order(plan)|
    requires forall i :: 0 <= i < |members| ==> members[i].facts == RunFacts(setup, world, plan)[i]
    ensures PopulationId(world.sha, MemberKeys(members)) == PlanId(setup, world, plan) <==> TrimmedPlan(setup, plan)
  {
    RegroupExact(plan);
    RunKeys(setup, world, plan, members);
    KeysPermute(setup, Order(plan), plan);
    SamePreimage(world.sha, MemberKeys(members), Map(StripKey, Keys(setup, plan)));
    StrippedPlanId(setup, world, plan);
  }

  lemma {:induction false} SameRun(setup: Setup, world: World, plan: seq<PlanCell>)
    ensures forall f <- RunFacts(setup, world, plan) :: f.run == Strip(setup.meta.runId)
  {
    forall i | 0 <= i < |Order(plan)| ensures RunFacts(setup, world, plan)[i].run == Strip(setup.meta.runId) {
      FinalFacts(setup, world, plan, i);
    }
  }

  /** A claiming run bound to its own rows stands exactly when its run id, its revisions and its population id are. */
  lemma {:induction false} BoundRunStands(run: string, members: seq<Member>, sha: string -> string, hermit: string,
                                          reverie: string)
    requires members != [] && ClaimsIn(members) > 0
    requires forall condition: Condition :: OneValued(members, condition)
    requires forall m <- members :: m.facts.hermit == hermit && m.facts.reverie == reverie && CleanText(m.facts.dirty)
    requires members[0].facts.selected == Some(|members|) && members[0].facts.evidence == Some(ClaimsIn(members))
    ensures RunStands(run, members, sha) <==>
            && run != "" && LowerHex(hermit, 40) && LowerHex(reverie, 40)
            && members[0].facts.population == PopulationId(sha, MemberKeys(members))
  {
    assert members[0] in members;
  }

  lemma {:induction false} MemberRevisions(setup: Setup, world: World, plan: seq<PlanCell>, members: seq<Member>)
    requires ExactSha(setup.meta.hermitSha) && ExactSha(setup.meta.reverieSha) && !setup.meta.dirty
    requires |members| == |Order(plan)|
    requires forall i :: 0 <= i < |members| ==> members[i].facts == RunFacts(setup, world, plan)[i]
    ensures forall m <- members ::
              m.facts.hermit == setup.meta.hermitSha && m.facts.reverie == setup.meta.reverieSha
                  && CleanText(m.facts.dirty)
  {
    ShaTrimmed(setup.meta.hermitSha);
    ShaTrimmed(setup.meta.reverieSha);
    FalseIsClean();
    forall i | 0 <= i < |members|
      ensures members[i].facts.hermit == setup.meta.hermitSha && members[i].facts.reverie == setup.meta.reverieSha
              && CleanText(members[i].facts.dirty)
    {
      FinalFacts(setup, world, plan, i);
    }
  }

  lemma {:induction false} RunAgreement(setup: Setup, world: World, plan: seq<PlanCell>, loads: string -> Loaded,
                                        members: seq<Member>)
    requires Started(setup, world, plan, loads)
    requires |members| == |Order(plan)| > 0
    requires forall i :: 0 <= i < |members| ==> members[i].facts == RunFacts(setup, world, plan)[i]
    requires ClaimsIn(members) > 0
    requires ClaimsIn(members) == CountEvidence(Rows(setup, world, PlanId(setup, world, plan), Order(plan)))
    ensures RunStands(Strip(setup.meta.runId), members, world.sha) <==>
            Acceptable(setup.meta) && TrimmedPlan(setup, plan)
  {
    forall condition: Condition ensures OneValued(members, condition) {
      RunConditions(setup, world, plan, loads, members, condition);
    }
    MemberRevisions(setup, world, plan, members);
    RunPopulation(setup, world, plan, members);
    PlanIdShape(setup, world, plan);
    OneRowPerCell(plan);
    FinalFacts(setup, world, plan, 0);
    BoundRunStands(Strip(setup.meta.runId), members, world.sha, setup.meta.hermitSha, setup.meta.reverieSha);
  }

  lemma {:induction false} SingleRunDefects(rows: seq<Facts>, run: string, c: Contract, loads: string -> Loaded,
                                            sha: string -> string)
    requires rows != [] && forall f <- rows :: f.run == run
    ensures AllDefects(rows, c, loads, sha) == [] <==>
            && (forall f <- rows :: IsClaim(f) ==> RowStands(f, c, loads))
            && Members(rows, run) != [] && RunStands(run, Members(rows, run), sha)
  {
    SingleRun(rows, run);
    AllDefectsExact(rows, c, loads, sha);
    assert RunOrder(rows)[0] == run;
  }

  lemma {:induction false} ClaimsStand(facts: seq<Facts>, rows: seq<Pending>, c: Contract, loads: string -> Loaded,
                                       ok: bool)
    requires |facts| == |rows|
    requires forall i :: 0 <= i < |rows| ==> IsClaim(facts[i]) == rows[i].evidence
    requires forall i :: 0 <= i < |rows| ==> IsClaim(facts[i]) ==> (RowStands(facts[i], c, loads) <==> ok)
    requires CountEvidence(rows) > 0 <==> exists i :: 0 <= i < |rows| && rows[i].evidence
    ensures Claims(facts) == CountEvidence(rows)
    ensures (forall f <- facts :: IsClaim(f) ==> RowStands(f, c, loads)) <==> CountEvidence(rows) == 0 || ok
  {
    ClaimsAreEvidence(facts, rows);
    if i :| 0 <= i < |rows| && rows[i].evidence {
      assert facts[i] in facts;
    }
  }

  lemma {:induction false} RowsAgreement(setup: Setup, world: World, plan: seq<PlanCell>, loads: string -> Loaded,
                                         column: string)
    requires Started(setup, world, plan, loads)
    ensures var facts := RunFacts(setup, world, plan);
            var rows := Rows(setup, world, PlanId(setup, world, plan), Order(plan));
            && Claims(facts) == CountEvidence(rows)
            && ((forall f <- facts :: IsClaim(f) ==> RowStands(f, StdoutContract(column), loads)) <==>
                CountEvidence(rows) == 0 || Acceptable(setup.meta))
  {
    var facts := RunFacts(setup, world, plan);
    var rows := Rows(setup, world, PlanId(setup, world, plan), Order(plan));
    forall i | 0 <= i < |facts|
      ensures IsClaim(facts[i]) == rows[i].evidence
      ensures IsClaim(facts[i]) ==> (RowStands(facts[i], StdoutContract(column), loads) <==> Acceptable(setup.meta))
    {
      RowAgreement(setup, world, plan, loads, column, i);
    }
    RunCounts(setup, world, plan);
    ClaimsStand(facts, rows, StdoutContract(column), loads, Acceptable(setup.meta));
  }

  /** The parity claims of a run. */
  function Evidence(setup: Setup, world: World, plan: seq<PlanCell>): (n: nat) {
    CountEvidence(Rows(setup, world, PlanId(setup, world, plan), Order(plan)))
  }

  lemma {:induction false} StartedAgreement(setup: Setup, world: World, plan: seq<PlanCell>, loads: string -> Loaded,
                                            column: string)
    requires Started(setup, world, plan, loads)
    ensures AllDefects(RunFacts(setup, world, plan), StdoutContract(column), loads, world.sha) == [] <==>
            Evidence(setup, world, plan) == 0 || (Acceptable(setup.meta) && TrimmedPlan(setup, plan))
  {
    var facts := RunFacts(setup, world, plan);
    var run := Strip(setup.meta.runId);
    OneRowPerCell(plan);
    SameRun(setup, world, plan);
    SingleRun(facts, run);
    SingleRunDefects(facts, run, StdoutContract(column), loads, world.sha);
    RowsAgreement(setup, world, plan, loads, column);
    if ClaimsIn(Members(facts, run)) > 0 {
      RunAgreement(setup, world, plan, loads, Members(facts, run));
    }
  }

  /** Producer/checker agreement.  Of a parity run on any host, the checker finds no defect at all exactly when the
      run made no parity claim, or its run id is nonblank, git printed the revision in lower case, and no field of the
      plan, the lane or the mode is padded with white space. */
  lemma {:induction false} ProducerCheckerAgreement(host: Host, setup: Setup, world: World, plan: seq<PlanCell>,
                                                    loads: string -> Loaded, column: string)
    requires ParityRun(host, setup, world, plan, loads)
    ensures AllDefects(RunFacts(setup, world, plan), StdoutContract(column), loads, world.sha) == [] <==>
            Evidence(setup, world, plan) == 0 || (Identified(setup.meta) && TrimmedPlan(setup, plan))
  {
    ParityRunStarts(host, setup, world, plan, loads);
    StartedAgreement(setup, world, plan, loads, column);
  }

  lemma {:induction false} ProvenanceNames(target: seq<string>, column: string)
    requires Readable(target, column)
    ensures forall c <- PROVENANCE_COLUMNS :: c in target
  {
    EvidenceNames();
    CountNames();
    assert Name(19) in target && Name(28) in target && Name(29) in target && Name(30) in target;
    assert Name(31) in target && Name(32) in target && Name(33) in target && Name(34) in target;
  }

  /** The file the collector has appended to. */
  function Appended(setup: Setup, world: World, plan: seq<PlanCell>, target: seq<string>,
                    earlier: seq<seq<string>>): (sheet: Sheet) {
    Sheet(target, earlier + Collected(setup, world, plan, target))
  }

  /** Everything the checker demands before it looks at single rows. */
  ghost predicate Passable(sheet: Sheet, request: Request, c: Contract, rows: seq<Facts>) {
    && sheet.records != [] && (forall r <- sheet.records :: |r| <= |sheet.header|)
    && ContractFor(sheet.header, request.toolCount) == Some(c)
    && (forall column <- PROVENANCE_COLUMNS :: column in sheet.header)
    && Scope(SheetFacts(sheet, c.column), request.runId) == rows != [] && |RunIds(rows)| == 1
  }

  lemma {:induction false} PassableExit(sheet: Sheet, request: Request, c: Contract, rows: seq<Facts>,
                                        loads: string -> Loaded, sha: string -> string)
    requires Passable(sheet, request, c, rows)
    ensures Precheck(sheet, request) == None && Scoped(sheet, request) == rows
    ensures ExitCode(sheet, request, loads, sha) == 0 <==> AllDefects(rows, c, loads, sha) == []
  {
  }

  lemma {:induction false} AppendedWidths(setup: Setup, world: World, plan: seq<PlanCell>, target: seq<string>,
                                          earlier: seq<seq<string>>)
    requires forall r <- earlier :: |r| <= |target|
    ensures forall r <- Appended(setup, world, plan, target, earlier).records :: |r| <= |target|
  {
    var records := Collected(setup, world, plan, target);
    forall r <- earlier + records ensures |r| <= |target| {
      if r !in earlier {
        assert r in records;
      }
    }
  }

  lemma {:induction false} OneRunId(rows: seq<Facts>, runId: string)
    requires rows != [] && forall f <- rows :: f.runId == runId
    ensures |RunIds(rows)| == 1
  {
    assert rows[0] in rows;
    assert RunIds(rows) == {runId};
  }

  lemma {:induction false} AppendedRunId(setup: Setup, world: World, plan: seq<PlanCell>)
    requires plan != []
    ensures |RunIds(RunFacts(setup, world, plan))| == 1
  {
    OneRowPerCell(plan);
    forall i | 0 <= i < |Order(plan)| ensures RunFacts(setup, world, plan)[i].runId == setup.meta.runId {
      FinalFacts(setup, world, plan, i);
    }
    OneRunId(RunFacts(setup, world, plan), setup.meta.runId);
  }

  /** What is asked of the target file: it carries the checker's columns with one stdout observable, and the run id is
      new to it. */
  ghost predicate Target(setup: Setup, target: seq<string>, earlier: seq<seq<string>>, column: string) {
    && Readable(target, column) && ContractFor(target, false) == Some(StdoutContract(column))
    && setup.meta.runId != ""
    && forall r <- earlier :: |r| <= |target| && FactsOf(DictRow(target, r), column).runId != setup.meta.runId
  }

  lemma {:induction false} PassableFrom(sheet: Sheet, runId: string, aggregate: bool, column: string, rows: seq<Facts>)
    requires sheet.records != [] && forall r <- sheet.records :: |r| <= |sheet.header|
    requires ContractFor(sheet.header, false) == Some(StdoutContract(column))
    requires forall c <- PROVENANCE_COLUMNS :: c in sheet.header
    requires Scope(SheetFacts(sheet, column), runId) == rows != [] && |RunIds(rows)| == 1
    ensures Passable(sheet, Request(runId, false, aggregate), StdoutContract(column), rows)
  {
  }

  lemma {:induction false} AppendedFacts(setup: Setup, world: World, plan: seq<PlanCell>, target: seq<string>,
                                         earlier: seq<seq<string>>, column: string, sheet: Sheet, rows: seq<Facts>)
    requires Target(setup, target, earlier, column)
    requires sheet == Appended(setup, world, plan, target, earlier) && rows == RunFacts(setup, world, plan)
    ensures Scope(SheetFacts(sheet, column), setup.meta.runId) == rows
  {
    AppendedScope(setup, world, plan, target, earlier, column);
  }

  lemma {:induction false} AppendedShape(setup: Setup, world: World, plan: seq<PlanCell>, target: seq<string>,
                                         earlier: seq<seq<string>>, column: string, sheet: Sheet)
    requires plan != [] && Target(setup, target, earlier, column)
    requires sheet == Appended(setup, world, plan, target, earlier)
    ensures sheet.records != [] && sheet.header == target && forall r <- sheet.records :: |r| <= |sheet.header|
  {
    OneRowPerCell(plan);
    AppendedWidths(setup, world, plan, target, earlier);
  }

  lemma {:induction false} TargetNames(setup: Setup, target: seq<string>, earlier: seq<seq<string>>, column: string)
    requires Target(setup, target, earlier, column)
    ensures ContractFor(target, false) == Some(StdoutContract(column))
    ensures forall c <- PROVENANCE_COLUMNS :: c in target
  {
    ProvenanceNames(target, column);
  }

  lemma {:induction false} AppendedPassable(setup: Setup, world: World, plan: seq<PlanCell>, target: seq<string>,
                                            earlier: seq<seq<string>>, column: string, aggregate: bool, sheet: Sheet,
                                            rows: seq<Facts>)
    requires plan != [] && Target(setup, target, earlier, column)
    requires sheet == Appended(setup, world, plan, target, earlier) && rows == RunFacts(setup, world, plan)
    ensures Passable(sheet, Request(setup.meta.runId, false, aggregate), StdoutContract(column), rows)
  {
    OneRowPerCell(plan);
    AppendedRunId(setup, world, plan);
    AppendedFacts(setup, world, plan, target, earlier, column, sheet, rows);
    AppendedShape(setup, world, plan, target, earlier, column, sheet);
    TargetNames(setup, target, earlier, column);
    PassableFrom(sheet, setup.meta.runId, aggregate, column, rows);
  }

  /** The checker, asked about the run just appended under a fresh run id, exits 0 exactly when the run made no
      parity claim, or its run id is nonblank, its revision in lower case and its plan unpadded. */
  lemma {:induction false} AppendedRunAccepted(host: Host, setup: Setup, world: World, plan: seq<PlanCell>,
                                               target: seq<string>, earlier: seq<seq<string>>, column: string,
                                               aggregate: bool, loads: string -> Loaded)
    requires ParityRun(host, setup, world, plan, loads) && Target(setup, target, earlier, column)
    ensures var request := Request(setup.meta.runId, false, aggregate);
            ExitCode(Appended(setup, world, plan, target, earlier), request, loads, world.sha) == 0 <==>
            Evidence(setup, world, plan) == 0 || (Identified(setup.meta) && TrimmedPlan(setup, plan))
  {
    var sheet, rows := Appended(setup, world, plan, target, earlier), RunFacts(setup, world, plan);
    AppendedPassable(setup, world, plan, target, earlier, column, aggregate, sheet, rows);
    PassableExit(sheet, Request(setup.meta.runId, false, aggregate), StdoutContract(column), rows, loads, world.sha);
    ProducerCheckerAgreement(host, setup, world, plan, loads, column);
  }

  // ----------------------------------------------------------------- as text

  /** The file after a run: the collector reads the columns from the first line and, unless it refuses them, appends its
      rows under them. */
  function AppendedText(setup: Setup, world: World, plan: seq<PlanCell>, before: string): (text: string) {
    var seen := HeaderOf(before);
    if Refuses(setup, seen) then before else before + EmitText(Collected(setup, world, plan, seen))
  }

  lemma {:induction false} AppendedTextIs(setup: Setup, world: World, plan: seq<PlanCell>, target: seq<string>,
                                          earlier: seq<seq<string>>, seen: seq<string>)
    requires seen == HeaderOf(SheetWritten(Sheet(target, earlier))) && !Refuses(setup, seen)
    ensures AppendedText(setup, world, plan, SheetWritten(Sheet(target, earlier)))
            == SheetWritten(Sheet(target, earlier + Collected(setup, world, plan, seen)))
  {
    SheetAppended(target, earlier, Collected(setup, world, plan, seen));
  }

  /**
   From the file's bytes to the checker's exit status.  A file with plain column names is written, the collector reads
   its header back and appends a run, and the checker, reading the whole text, exits 0 exactly under the condition of
   the agreement.  The names are plain exactly when the collector reads the header that was written (`HeaderReadExact`).
   */
  lemma {:induction false} AppendedTextAccepted(host: Host, setup: Setup, world: World, plan: seq<PlanCell>,
                                                target: seq<string>, earlier: seq<seq<string>>, column: string,
                                                aggregate: bool, loads: string -> Loaded, text: string)
    requires ParityRun(host, setup, world, plan, loads) && Target(setup, target, earlier, column)
    requires !Refuses(setup, target) && PlainNames(target)
    requires ReadsBack(FileRecords(Appended(setup, world, plan, target, earlier)))
    requires text == AppendedText(setup, world, plan, SheetWritten(Sheet(target, earlier)))
    ensures var request := Request(setup.meta.runId, false, aggregate);
            ExitCode(SheetOf(text), request, loads, world.sha) == 0 <==>
            Evidence(setup, world, plan) == 0 || (Identified(setup.meta) && TrimmedPlan(setup, plan))
  {
    PlainHeaderRead(target, earlier);
    AppendedTextIs(setup, world, plan, target, earlier, target);
    SheetRead(Appended(setup, world, plan, target, earlier));
    AppendedRunAccepted(host, setup, world, plan, target, earlier, column, aggregate, loads);
  }

  lemma {:induction false} OverWideRefused(sheet: Sheet, request: Request, loads: string -> Loaded,
                                           sha: string -> string, i: nat)
    requires i < |sheet.records| && |sheet.records[i]| > |sheet.header|
    ensures ExitCode(sheet, request, loads, sha) == 1
  {
    assert sheet.records[i] in sheet.records;
  }

  /**
   A column name with a comma in it breaks the binding: the collector sees a column too many for every such comma, its
   rows are wider than the header, and the checker refuses the file whatever it is asked.
   */
  lemma {:induction false} CommaNameRefused(setup: Setup, world: World, plan: seq<PlanCell>, target: seq<string>,
                                            earlier: seq<seq<string>>, seen: seq<string>, request: Request,
                                            loads: string -> Loaded, text: string)
    requires plan != [] && target != [] && NewlineFree(target) && exists name <- target :: ',' in name
    requires seen == HeaderOf(SheetWritten(Sheet(target, earlier))) && !Refuses(setup, seen)
    requires ReadsBack(FileRecords(Sheet(target, earlier + Collected(setup, world, plan, seen))))
    requires text == AppendedText(setup, world, plan, SheetWritten(Sheet(target, earlier)))
    ensures |seen| > |target| && ExitCode(SheetOf(text), request, loads, world.sha) == 1
  {
    var sheet := Sheet(target, earlier + Collected(setup, world, plan, seen));
    ColumnsSeen(target, earlier);
    SomeOccurs(target, ',');
    OneRowPerCell(plan);
    AppendedTextIs(setup, world, plan, target, earlier, seen);
    SheetRead(sheet);
    assert sheet.records[|earlier|] == Collected(setup, world, plan, seen)[0];
    OverWideRefused(sheet, request, loads, world.sha, |earlier|);
  }

  // --------------------------------------------------- the collector's own header

  predicate Snake(name: string) {
    forall i :: 0 <= i < |name| ==> 'a' <= name[i] <= 'z' || name[i] == '_'
  }

  lemma {:induction false} SnakePlain(name: string)
    requires Snake(name)
    ensures PlainName(name)
  {
  }

  lemma {:induction false} SnakeFrom0(i: nat)
    requires i < 6
    ensures Snake(HEADER[i])
  {
  }

  lemma {:induction false} SnakeFrom6(i: nat)
    requires 6 <= i < 12
    ensures Snake(HEADER[i])
  {
  }

  lemma {:induction false} SnakeFrom12(i: nat)
    requires 12 <= i < 18
    ensures Snake(HEADER[i])
  {
  }

  lemma {:induction false} SnakeFrom18(i: nat)
    requires 18 <= i < 24
    ensures Snake(HEADER[i])
  {
  }

  lemma {:induction false} SnakeFrom24(i: nat)
    requires 24 <= i < 30
    ensures Snake(HEADER[i])
  {
  }

  lemma {:induction false} SnakeFrom30(i: nat)
    requires 30 <= i < 36
    ensures Snake(HEADER[i])
  {
  }

  /** The columns a fresh file starts with are read back as they were written. */
  lemma {:induction false} OwnHeaderPlain(rest: seq<seq<string>>)
    ensures PlainNames(HEADER) && HeaderOf(EmitText([HEADER] + rest)) == HEADER
  {
    HeaderWidth();
    forall i | 0 <= i < 36 ensures PlainName(HEADER[i]) {
      if i < 6 { SnakeFrom0(i); } else if i < 12 { SnakeFrom6(i); } else if i < 18 { SnakeFrom12(i); }
      else if i < 24 { SnakeFrom18(i); } else if i < 30 { SnakeFrom24(i); } else { SnakeFrom30(i); }
      SnakePlain(HEADER[i]);
    }
    PlainHeaderRead(HEADER, rest);
  }

  /** With a column `a,b` added the collector sees more columns than the thirty-seven of the file. */
  lemma {:induction false} CommaColumnSeen(rest: seq<seq<string>>)
    ensures |HeaderOf(EmitText([HEADER + ["a,b"]] + rest))| > 37
  {
    HeaderWidth();
    OwnHeaderPlain(rest);
    assert "a,b"[1] == ',';
    CommaNameSeen(HEADER, "a,b", rest);
  }

  // ------------------------------------------------------------ a claiming run

  function LineDumps(p: Profile): (text: string) {
    EmitLine([""] + p.comparison)
  }

  function LineLoads(text: string): (l: Loaded) {
    var fields := SplitLine(text);
    Object(Some(Texts(if fields == [] then [] else fields[1..])), None)
  }

  lemma {:induction false} LinesRoundTrip(p: Profile)
    ensures LineLoads(LineDumps(p)) == Object(Some(Texts(p.comparison)), None)
  {
    var fields := [""] + p.comparison;
    LineRoundTrip(fields);
    assert fields[1..] == p.comparison;
  }

  function Repeat(c: char, n: nat): (s: string)
    ensures |s| == n && forall i :: 0 <= i < n ==> s[i] == c
  {
    if n == 0 then "" else Repeat(c, n - 1) + [c]
  }

  const DIGEST: string := Repeat('a', 64)
  const OTHER_DIGEST: string := Repeat('b', 64)

  /** Every test passes, and every capture finds the same output twice; CSV lines stand in for JSON, and the digest
      tells one text from all others. */
  function PassingWorld(cell: PlanCell, marked: string): (w: World) {
    World(backend => None, (bucket, backend) => [HarnessResult(cell.test, cell.mode, "pass", 0, "")],
          (n, c) => Captured(Some(DIGEST), Some(GuestRun(DIGEST, None)), None), (n, c) => None,
          text => if text == marked then DIGEST else OTHER_DIGEST, LineDumps)
  }

  lemma {:induction false} PassingWorldIsReal(cell: PlanCell, marked: string)
    ensures Digests(PassingWorld(cell, marked)) && JsonRoundTrip(PassingWorld(cell, marked), LineLoads)
  {
    forall p: Profile
      ensures LineLoads(PassingWorld(cell, marked).dumps(p)) == Object(Some(Texts(p.comparison)), None)
    {
      LinesRoundTrip(p);
    }
  }

  lemma {:induction false} OrderOfOne(cell: PlanCell)
    ensures Order([cell]) == [cell]
  {
    RegroupExact([cell]);
    OneRowPerCell([cell]);
    assert Order([cell])[0] in multiset(Order([cell]));
  }

  lemma {:induction false} PassingFound(cell: PlanCell, world: World, marked: string)
    requires world == PassingWorld(cell, marked)
    ensures Found(world, cell) == Some(HarnessResult(cell.test, cell.mode, "pass", 0, ""))
  {
  }

  lemma {:induction false} PassingEvidence(setup: Setup, cell: PlanCell, world: World, marked: string,
                                           population: string)
    requires setup.withParity && world == PassingWorld(cell, marked)
    ensures Measure(setup, world, population, 0, cell, Found(world, cell)).evidence
  {
    PassingFound(cell, world, marked);
  }

  lemma {:induction false} CountOfOne(rows: seq<Pending>)
    requires |rows| == 1 && rows[0].evidence
    ensures CountEvidence(rows) == 1
  {
    assert CountEvidence(rows[..0]) == 0;
  }

  lemma {:induction false} RowsOfOne(setup: Setup, cell: PlanCell, world: World, marked: string, population: string,
                                     rows: seq<Pending>)
    requires setup.withParity && world == PassingWorld(cell, marked) && rows == Rows(setup, world, population, [cell])
    ensures |rows| == 1 && rows[0].evidence
  {
    PassingEvidence(setup, cell, world, marked, population);
    assert rows[0] == Measure(setup, world, population, 0, cell, Found(world, cell));
  }

  lemma {:induction false} EvidenceOfOne(setup: Setup, cell: PlanCell, world: World, marked: string)
    requires setup.withParity && world == PassingWorld(cell, marked)
    ensures Evidence(setup, world, [cell]) == 1
  {
    var population := PlanId(setup, world, [cell]);
    var rows := Rows(setup, world, population, [cell]);
    OrderOfOne(cell);
    RowsOfOne(setup, cell, world, marked, population, rows);
    CountOfOne(rows);
  }

  /** A clean checkout whose git prints a forty-fold digit, with Reverie locked at one revision. */
  function DigitHost(digit: char): (h: Host) {
    Host(1, None, Some(Repeat(digit, 40)), Some([LockLine(Repeat('a', 40))]), Some(""))
  }

  lemma {:induction false} DigitMeta(digit: char)
    ensures MetaOf(DigitHost(digit)) == Meta(Decimal(1), "@" + Decimal(1), Repeat(digit, 40), Repeat('a', 40), false)
  {
    var pinned, line := Repeat('a', 40), LockLine(Repeat('a', 40));
    LockLinePins(pinned);
    LockedExact([line], pinned);
    assert line in [line];
  }

  function DigitSetup(digit: char): (s: Setup) {
    Setup("m", "l", true, MetaOf(DigitHost(digit)))
  }

  lemma {:induction false} DigitsExact(digit: char)
    requires HexDigit(digit)
    ensures ExactSha(Repeat(digit, 40)) && (LowerHex(Repeat(digit, 40), 40) <==> !('A' <= digit <= 'F'))
  {
    assert Repeat(digit, 40)[0] == digit;
  }

  /** A run of one passing cell, under a digest that marks its own population. */
  ghost predicate OneCellRun(digit: char, cell: PlanCell, setup: Setup, world: World) {
    && HexDigit(digit) && setup == DigitSetup(digit)
    && world == PassingWorld(cell, Preimage(Keys(setup, [cell])))
  }

  lemma {:induction false} CellTrimmed(setup: Setup, cell: PlanCell)
    requires setup.mode == "m" && setup.lane == "l"
    ensures TrimmedPlan(setup, [cell]) <==> TrimmedCell(cell)
  {
    assert cell in [cell];
  }

  lemma {:induction false} MarkedApart(setup: Setup, cell: PlanCell, world: World)
    requires world == PassingWorld(cell, Preimage(Keys(setup, [cell])))
    ensures NoCollision(setup, world, [cell])
  {
    assert DIGEST[0] != OTHER_DIGEST[0];
  }

  /** The hypotheses of the agreement are met by a run that makes a claim, whatever the cell. */
  lemma {:induction false} ClaimingRun(digit: char, cell: PlanCell, setup: Setup, world: World)
    requires OneCellRun(digit, cell, setup, world)
    ensures ParityRun(DigitHost(digit), setup, world, [cell], LineLoads)
    ensures Evidence(setup, world, [cell]) == 1
  {
    var marked := Preimage(Keys(setup, [cell]));
    DigitMeta(digit);
    DigitsExact(digit);
    DigitsExact('a');
    MarkedApart(setup, cell, world);
    PassingWorldIsReal(cell, marked);
    EvidenceOfOne(setup, cell, world, marked);
  }

  lemma {:induction false} OneObservable(i: nat)
    requires i < COLUMNS
    ensures Name(i) != "parity" && Name(i) != "tool_count_parity"
  {
    HeaderWidth();
    if i < 12 {
      assert forall k :: 0 <= k < 12 ==> HEADER[k] != "parity" && HEADER[k] != "tool_count_parity";
    } else if i < 24 {
      assert forall k :: 12 <= k < 24 ==> HEADER[k] != "parity" && HEADER[k] != "tool_count_parity";
    } else {
      assert forall k :: 24 <= k < 36 ==> HEADER[k] != "parity" && HEADER[k] != "tool_count_parity";
    }
  }

  lemma {:induction false} OwnHeaderReadable()
    ensures Readable(HEADER, "stdout_parity") && ContractFor(HEADER, false) == Some(StdoutContract("stdout_parity"))
  {
    HeaderWidth();
    forall i | 0 <= i < COLUMNS ensures Name(i) in HEADER && HEADER[i] != "parity" && HEADER[i] != "tool_count_parity" {
      OneObservable(i);
    }
    assert HEADER[14] == "stdout_parity";
  }

  lemma {:induction false} FreshFileVerdict(host: Host, setup: Setup, world: World, plan: seq<PlanCell>,
                                            loads: string -> Loaded)
    requires ParityRun(host, setup, world, plan, loads) && setup.meta.runId != "" && Evidence(setup, world, plan) > 0
    ensures ExitCode(Appended(setup, world, plan, HEADER, []), Request(setup.meta.runId, false, false), loads,
                     world.sha) == 0
            <==> Identified(setup.meta) && TrimmedPlan(setup, plan)
  {
    OwnHeaderReadable();
    AppendedRunAccepted(host, setup, world, plan, HEADER, [], "stdout_parity", false, loads);
  }

  lemma {:induction false} DigitIdentified(digit: char)
    requires HexDigit(digit)
    ensures DigitSetup(digit).meta.runId != ""
    ensures Identified(DigitSetup(digit).meta) <==> !('A' <= digit <= 'F')
  {
    DigitMeta(digit);
    DigitsExact(digit);
    MetaShape(DigitHost(digit));
  }

  /**
   One claiming run, appended to a fresh file under the collector's own header: the checker exits 0 exactly when git
   prints the revision in lower case and the cell's names are unpadded.  An upper-case revision and a padded test id
   are both let start by the collector and refused by the checker.
   */
  lemma {:induction false} ClaimingRunVerdict(digit: char, cell: PlanCell, setup: Setup, world: World)
    requires OneCellRun(digit, cell, setup, world)
    ensures ParityRun(DigitHost(digit), setup, world, [cell], LineLoads) && Evidence(setup, world, [cell]) == 1
    ensures ExitCode(Appended(setup, world, [cell], HEADER, []), Request(setup.meta.runId, false, false), LineLoads,
                     world.sha) == 0
            <==> !('A' <= digit <= 'F') && TrimmedCell(cell)
  {
    ClaimingRun(digit, cell, setup, world);
    DigitIdentified(digit);
    CellTrimmed(setup, cell);
    FreshFileVerdict(DigitHost(digit), setup, world, [cell], LineLoads);
  }

  lemma {:induction false} PaddedTest(cell: PlanCell)
    requires cell.test == " t"
    ensures !TrimmedCell(cell)
  {
    assert cell.test[0] == ' ';
  }

  /** The refused run: everything about it is in order but the blank before its test id. */
  lemma {:induction false} PaddedRunRefused(cell: PlanCell, setup: Setup, world: World)
    requires cell == PlanCell("b", " t", "v", "e", "s") && OneCellRun('a', cell, setup, world)
    ensures ParityRun(DigitHost('a'), setup, world, [cell], LineLoads) && Identified(setup.meta)
    ensures ExitCode(Appended(setup, world, [cell], HEADER, []), Request(setup.meta.runId, false, false), LineLoads,
                     world.sha) != 0
  {
    ClaimingRunVerdict('a', cell, setup, world);
    DigitIdentified('a');
    PaddedTest(cell);
  }
}
