/**
What every column of a collected row means, said of the plan, the harness records and the guest runs
alone.
*/
module Measured {
  import opened Text
  import opened Reading
  import opened Population
  import opened Envelope

  // ------------------------------------------------------------ the harness record

  predicate Matches(r: HarnessResult, cell: PlanCell) {
    r.test == cell.test && r.mode == cell.mode
  }

  /** `r` is the last record the harness wrote for the cell's test and mode. */
  ghost predicate LastRecord(results: seq<HarnessResult>, cell: PlanCell, r: HarnessResult) {
    exists k: nat :: k < |results| && results[k] == r && Matches(r, cell)
                     && forall j :: k < j < |results| ==> !Matches(results[j], cell)
  }

  predicate Available(world: World, cell: PlanCell) {
    world.unavailable(cell.backend) == None
  }

  ghost predicate Recorded(world: World, cell: PlanCell, r: HarnessResult) {
    Available(world, cell) && LastRecord(world.results(cell.bucket, cell.backend), cell, r)
  }

  ghost predicate Unrecorded(world: World, cell: PlanCell) {
    Available(world, cell) && forall r <- world.results(cell.bucket, cell.backend) :: !Matches(r, cell)
  }

  ghost predicate Passed(world: World, cell: PlanCell) {
    exists r: HarnessResult :: Recorded(world, cell, r) && r.outcome == "pass"
  }

  lemma {:induction false} LastResultExact(results: seq<HarnessResult>, cell: PlanCell)
    ensures forall r :: LastResult(results, cell.test, cell.mode) == Some(r) <==> LastRecord(results, cell, r)
    ensures LastResult(results, cell.test, cell.mode) == None <==> forall r <- results :: !Matches(r, cell)
  {
    if results != [] {
      var n := |results| - 1;
      var front, last := results[..n], results[n];
      LastResultExact(front, cell);
      assert results == front + [last];
      forall r ensures LastResult(results, cell.test, cell.mode) == Some(r) <==> LastRecord(results, cell, r) {
        if Matches(last, cell) {
          assert LastRecord(results, cell, last);
        } else {
          LastRecordFront(results, cell, r);
        }
      }
    }
  }

  lemma {:induction false} LastRecordFront(results: seq<HarnessResult>, cell: PlanCell, r: HarnessResult)
    requires results != [] && !Matches(results[|results| - 1], cell)
    ensures LastRecord(results, cell, r) <==> LastRecord(results[..|results| - 1], cell, r)
  {
    var n := |results| - 1;
    if k: nat :| k < |results| && results[k] == r && Matches(r, cell)
                 && forall j :: k < j < |results| ==> !Matches(results[j], cell) {
      assert k < n && results[..n][k] == r;
    }
    if k: nat :| k < n && results[..n][k] == r && Matches(r, cell)
                 && forall j :: k < j < n ==> !Matches(results[..n][j], cell) {
      forall j | k < j < |results| ensures !Matches(results[j], cell) {
        if j < n { assert results[..n][j] == results[j]; }
      }
      assert results[k] == r;
    }
  }

  lemma {:induction false} FoundExact(world: World, cell: PlanCell)
    ensures forall r :: Found(world, cell) == Some(r) <==> Recorded(world, cell, r)
    ensures Found(world, cell) == None <==> !Available(world, cell) || Unrecorded(world, cell)
  {
    LastResultExact(if Available(world, cell) then world.results(cell.bucket, cell.backend) else [], cell);
  }

  // ------------------------------------------------------------- the guest runs

  /** The guest runs made for the cell: only those of a passing cell of a parity run count. */
  function Guests(setup: Setup, world: World, at: nat, cell: PlanCell, passed: bool): (c: Capture) {
    if setup.withParity && passed then world.capture(at, cell) else NoGuest
  }

  predicate Compared(c: Capture) {
    c.Captured? && c.refHash.Some? && c.candidate.Some?
  }

  /** The guest wrote the same with and without the tracer. */
  predicate Unexercised(c: Capture) {
    c.Captured? && c.refHash.Some? && c.nativeHash == c.refHash
  }

  /** The backend counted its own work and found none. */
  predicate Idle(c: Capture) {
    c.Captured? && c.candidate.Some? && c.candidate.value.engaged == Some(0)
  }

  // ------------------------------------------------------------------ the columns

  ghost predicate IdentityColumns(row: seq<string>, setup: Setup, cell: PlanCell)
    requires |row| == COLUMNS
  {
    && row[0] == setup.meta.runId && row[1] == setup.meta.runUtc && row[2] == setup.meta.hermitSha
    && row[3] == setup.meta.reverieSha && (row[4] == "true" <==> setup.meta.dirty)
    && (row[4] == "false" <==> !setup.meta.dirty) && row[5] == setup.mode && row[6] == setup.lane
    && row[7] == cell.bucket && row[8] == cell.test && row[9] == cell.mode && row[10] == cell.backend
    && row[11] == cell.cellState
  }

  /** The outcome, its duration and its reason: of the record, unless there is none or nothing was exercised. */
  ghost predicate OutcomeColumns(row: seq<string>, world: World, cell: PlanCell, c: Capture)
    requires |row| == COLUMNS
  {
    && (Unexercised(c) || Idle(c) ==> row[12] == "not-exercised")
    && (!Available(world, cell) ==>
          row[12] == "unavailable" && row[20] == "0" && Some(row[22]) == world.unavailable(cell.backend))
    && (Unrecorded(world, cell) ==> row[12] == "skip" && row[20] == "0" && row[22] == "no harness record")
    && (forall r | Recorded(world, cell, r) ::
          && Denotes(row[20], r.durationMs)
          && (!Unexercised(c) && !Idle(c) ==> row[12] == r.outcome)
          && (!Idle(c) ==> row[22] == r.reason))
  }

  /** A backend that did nothing is named with the counter that says so. */
  ghost predicate IdleColumn(row: seq<string>, cell: PlanCell, c: Capture)
    requires |row| == COLUMNS
  {
    Idle(c) ==>
      var told := cell.backend + " performed no work on this guest (";
      && told <= row[22]
      && (cell.backend == "e9patch" ==> told + "mapped_sites" + "=0)" <= row[22])
      && (cell.backend == "sabre" ==> told + "patched_sites" + "=0)" <= row[22])
      && (cell.backend == "dbi" ==> told + "branches" + "=0)" <= row[22])
      && (cell.backend == "ptrace" ==> told + "scheduler turns" + "=0)" <= row[22])
  }

  /** One for a passing two-run cell, zero for a completed failure, blank for everything that says nothing. */
  ghost predicate DeterminismColumn(row: seq<string>, world: World, cell: PlanCell)
    requires |row| == COLUMNS
  {
    && row[13] in {"", "0", "1"}
    && (row[13] == "1" <==> cell.mode == "verify" && Passed(world, cell))
    && (row[13] == "0" <==>
        exists r: HarnessResult :: Recorded(world, cell, r) && r.outcome != "pass" && r.outcome != "skip")
  }

  ghost predicate ParityColumns(row: seq<string>, c: Capture)
    requires |row| == COLUMNS
  {
    && row[14] in {"", "0", "1"} && row[15] in {"", "0", "1"}
    && (row[14] == "1" <==> Compared(c) && c.candidate.value.hash == c.refHash.value)
    && (row[14] == "0" <==> Compared(c) && c.candidate.value.hash != c.refHash.value)
    && (row[15] == "0" <==> Unexercised(c))
    && (row[15] == "1" <==> c.Captured? && c.refHash.Some? && c.nativeHash.Some? && c.nativeHash != c.refHash)
    && (row[28] != "" <==> Compared(c)) && (row[29] != "" <==> Compared(c))
    && (Compared(c) ==> row[28] == "stdout-sha256-exact-v1" && row[29] == "stdout-exact")
  }

  ghost predicate GuestColumns(row: seq<string>, c: Capture)
    requires |row| == COLUMNS
  {
    && (forall n: int :: c.Captured? && c.candidate.Some? && c.candidate.value.engaged == Some(n) ==>
          Denotes(row[16], n))
    && (row[16] == "" <==> !(c.Captured? && c.candidate.Some? && c.candidate.value.engaged.Some?))
    && row[17] == (if c.Captured? && c.nativeHash.Some? then c.nativeHash.value else "")
    && row[18] == (if c.Captured? && c.candidate.Some? then c.candidate.value.hash else "")
    && row[19] == (if c.Captured? && c.refHash.Some? then c.refHash.value else "")
  }

  /** The comparison behind a passing two-run cell: hermit's own verdict, or the fallback that admits it has none. */
  ghost predicate VerdictColumns(row: seq<string>, world: World, at: nat, cell: PlanCell)
    requires |row| == COLUMNS
  {
    var verified := cell.mode == "verify" && Passed(world, cell);
    && (forall v: VerifyVerdict :: verified && world.verdict(at, cell) == Some(v) ==>
          row[23] == v.verifyCompare && row[24] == v.bitwiseParity && row[25] == v.comparedLogMessages
          && row[26] == v.tier)
    && (verified && world.verdict(at, cell) == None ==>
          row[23] == "stripped" && row[24] == "" && row[25] == "" && row[26] == "stripped-uncounted")
    && (!verified ==> row[23] == "" && row[24] == "" && row[25] == "" && row[26] == "")
  }

  ghost predicate FixedColumns(row: seq<string>)
    requires |row| == COLUMNS
  {
    row[21] == "" && row[27] == "" && row[35] == "unqualified-stdout-only"
  }

  // ------------------------------------------------------------------- the proofs

  lemma {:induction false} IntTextExact(n: int)
    ensures Denotes(IntText(n), n) && IntText(n) != ""
  {
    var m: nat := if n < 0 then -n else n;
    ParseDecimalDigits(m, [], false);
    assert Decimal(m) + [] == Decimal(m);
    DigitsExact(Decimal(m));
    var sign := if n < 0 then "-" else "";
    SignedTrimmed(sign, Decimal(m));
    assert sign + Decimal(m) == IntText(n);
    assert CoreAt(IntText(n), IntText(n), 0);
    assert Padded(IntText(n), sign + Decimal(m)) && Numeral(Decimal(m));
  }

  lemma {:induction false} VectorParts(setup: Setup, cell: PlanCell, o: Observed, d: Option<bool>, v: VerifyVerdict,
                                       p: Parity, flags: string, population: string, row: seq<string>)
    requires row == RowVector(setup, cell, o, d, v, p, flags, population)
    ensures IdentityColumns(row, setup, cell) && FixedColumns(row)
    ensures row[12] == RecordedOutcome(o, p) && row[13] == Flag(d) && row[14] == Flag(p.parity)
    ensures row[15] == Flag(p.exercised) && row[16] == (if p.engaged.Some? then IntText(p.engaged.value) else "")
    ensures row[17] == p.native && row[18] == p.output && row[19] == p.reference && row[20] == IntText(o.durationMs)
    ensures row[22] == RecordedReason(o, p, cell.backend)
    ensures row[23] == v.verifyCompare && row[24] == v.bitwiseParity && row[25] == v.comparedLogMessages
    ensures row[26] == v.tier && row[30] == flags && row[31] == population
    ensures row[28] == (if p.parity.Some? then "stdout-sha256-exact-v1" else "")
    ensures row[29] == (if p.parity.Some? then "stdout-exact" else "")
  {
  }

  lemma {:induction false} ObservedExact(world: World, cell: PlanCell, o: Observed)
    requires o == Observe(world, cell, Found(world, cell))
    ensures o.outcome == "pass" <==> Passed(world, cell)
    ensures o.executed <==> exists r :: Recorded(world, cell, r)
    ensures !Available(world, cell) ==>
              o.outcome == "unavailable" && o.durationMs == 0 && Some(o.reason) == world.unavailable(cell.backend)
    ensures Unrecorded(world, cell) ==> o.outcome == "skip" && o.durationMs == 0 && o.reason == "no harness record"
    ensures forall r :: Recorded(world, cell, r) ==>
              o.outcome == r.outcome && o.durationMs == r.durationMs && o.reason == r.reason
  {
    FoundExact(world, cell);
    assert "unavailable" != "pass" && "skip" != "pass" by {
      assert |"unavailable"| == 11 && |"pass"| == 4 && "skip"[0] == 's' && "pass"[0] == 'p';
    }
  }

  lemma {:induction false} CaptureExact(c: Capture, p: Parity)
    requires p == CaptureParity(c)
    ensures p.parity == (if Compared(c) then Some(c.candidate.value.hash == c.refHash.value) else None)
    ensures p.exercised == Some(false) <==> Unexercised(c)
    ensures p.exercised == Some(true) <==>
            c.Captured? && c.refHash.Some? && c.nativeHash.Some? && c.nativeHash != c.refHash
    ensures p.engaged == (if c.Captured? && c.candidate.Some? then c.candidate.value.engaged else None)
    ensures Vacuous(p) <==> Idle(c)
    ensures p.native == (if c.Captured? && c.nativeHash.Some? then c.nativeHash.value else "")
    ensures p.output == (if c.Captured? && c.candidate.Some? then c.candidate.value.hash else "")
    ensures p.reference == (if c.Captured? && c.refHash.Some? then c.refHash.value else "")
  {
  }

  lemma {:induction false} FlagExact(b: Option<bool>)
    ensures Flag(b) in {"", "0", "1"} && (Flag(b) == "1" <==> b == Some(true)) && (Flag(b) == "0" <==> b == Some(false))
  {
  }

  lemma {:induction false} DeterminismExact(world: World, cell: PlanCell, o: Observed, row: seq<string>)
    requires |row| == COLUMNS && o == Observe(world, cell, Found(world, cell))
    requires row[13] == Flag(Determinism(Available(world, cell), o.outcome, cell.mode))
    ensures DeterminismColumn(row, world, cell)
  {
    ObservedExact(world, cell, o);
    FlagExact(Determinism(Available(world, cell), o.outcome, cell.mode));
    FoundExact(world, cell);
  }

  lemma {:induction false} OutcomeExact(world: World, cell: PlanCell, o: Observed, c: Capture, p: Parity,
                                        row: seq<string>)
    requires |row| == COLUMNS && o == Observe(world, cell, Found(world, cell)) && p == CaptureParity(c)
    requires c.Captured? ==> Passed(world, cell)
    requires row[12] == RecordedOutcome(o, p) && row[20] == IntText(o.durationMs)
    requires row[22] == RecordedReason(o, p, cell.backend)
    ensures OutcomeColumns(row, world, cell, c)
  {
    ObservedExact(world, cell, o);
    CaptureExact(c, p);
    IntTextExact(o.durationMs);
    FoundExact(world, cell);
    assert IntText(0) == "0";
  }

  lemma {:induction false} IdleExact(cell: PlanCell, o: Observed, c: Capture, p: Parity, row: seq<string>)
    requires |row| == COLUMNS && p == CaptureParity(c) && row[22] == RecordedReason(o, p, cell.backend)
    ensures IdleColumn(row, cell, c)
  {
    CaptureExact(c, p);
    if Idle(c) {
      IdleTold(cell.backend, row[22]);
    }
  }

  lemma {:induction false} IdleTold(backend: string, reason: string)
    requires reason == backend + " performed no work on this guest (" + EngagementCounter(backend)
                       + "=0); excluded from parity "
                       + "rather than scored, because a backend that does nothing agrees with the reference perfectly"
    ensures var told := backend + " performed no work on this guest (";
            && told + EngagementCounter(backend) + "=0)" <= reason && told <= reason
  {
    var told := backend + " performed no work on this guest (" + EngagementCounter(backend);
    var rest := "=0); excluded from parity ";
    assert rest[..3] == "=0)";
    assert told + "=0)" == (told + rest)[..|told| + 3];
  }

  lemma {:induction false} ParityExact(c: Capture, p: Parity, row: seq<string>)
    requires |row| == COLUMNS && p == CaptureParity(c)
    requires row[14] == Flag(p.parity) && row[15] == Flag(p.exercised)
    requires row[28] == (if p.parity.Some? then "stdout-sha256-exact-v1" else "")
    requires row[29] == (if p.parity.Some? then "stdout-exact" else "")
    ensures ParityColumns(row, c)
  {
    CaptureExact(c, p);
    FlagExact(p.parity);
    FlagExact(p.exercised);
  }

  lemma {:induction false} GuestExact(c: Capture, p: Parity, row: seq<string>)
    requires |row| == COLUMNS && p == CaptureParity(c)
    requires row[16] == (if p.engaged.Some? then IntText(p.engaged.value) else "")
    requires row[17] == p.native && row[18] == p.output && row[19] == p.reference
    ensures GuestColumns(row, c)
  {
    CaptureExact(c, p);
    if p.engaged.Some? {
      IntTextExact(p.engaged.value);
    }
  }

  lemma {:induction false} VerdictExact(world: World, at: nat, cell: PlanCell, o: Observed, d: Option<bool>,
                                        verdict: Option<VerifyVerdict>, row: seq<string>)
    requires |row| == COLUMNS && o == Observe(world, cell, Found(world, cell))
    requires d == Determinism(Available(world, cell), o.outcome, cell.mode)
    requires verdict == if cell.mode == "verify" && Available(world, cell) && o.outcome == "pass"
                        then world.verdict(at, cell) else None
    requires var v := VerifyColumns(d, cell.mode, verdict);
             row[23] == v.verifyCompare && row[24] == v.bitwiseParity && row[25] == v.comparedLogMessages
             && row[26] == v.tier
    ensures VerdictColumns(row, world, at, cell)
  {
    ObservedExact(world, cell, o);
    FoundExact(world, cell);
  }

  /** The columns that come from the plan, the harness and the guests. */
  ghost predicate CellColumns(row: seq<string>, setup: Setup, world: World, at: nat, cell: PlanCell, c: Capture)
    requires |row| == COLUMNS
  {
    && IdentityColumns(row, setup, cell) && OutcomeColumns(row, world, cell, c) && IdleColumn(row, cell, c)
    && DeterminismColumn(row, world, cell) && ParityColumns(row, c) && GuestColumns(row, c)
    && VerdictColumns(row, world, at, cell) && FixedColumns(row)
  }

  lemma {:induction false} MeasureExact(setup: Setup, world: World, population: string, at: nat, cell: PlanCell,
                                        m: Pending, c: Capture)
    requires m == Measure(setup, world, population, at, cell, Found(world, cell))
    requires Passed(world, cell) && setup.withParity ==> c == world.capture(at, cell)
    requires !(Passed(world, cell) && setup.withParity) ==> c == NoGuest
    ensures CellColumns(m.row, setup, world, at, cell, c)
    ensures m.executed <==> exists r :: Recorded(world, cell, r)
    ensures m.evidence <==> Compared(c)
  {
    var o := Observe(world, cell, Found(world, cell));
    ObservedExact(world, cell, o);
    var d := Determinism(Available(world, cell), o.outcome, cell.mode);
    var verdict := if cell.mode == "verify" && Available(world, cell) && o.outcome == "pass"
                   then world.verdict(at, cell) else None;
    var p := CaptureParity(c);
    var flags := world.dumps(ProfileFlags(setup.lane, cell.bucket, cell.backend, setup.mode));
    VectorParts(setup, cell, o, d, VerifyColumns(d, cell.mode, verdict), p, flags, population, m.row);
    OutcomeExact(world, cell, o, c, p, m.row);
    IdleExact(cell, o, c, p, m.row);
    DeterminismExact(world, cell, o, m.row);
    ParityExact(c, p, m.row);
    GuestExact(c, p, m.row);
    VerdictExact(world, at, cell, o, d, verdict, m.row);
    CaptureExact(c, p);
  }

  // --------------------------------------------------------------- the whole row

  ghost predicate HasRecord(world: World, cell: PlanCell) {
    exists r: HarnessResult :: Recorded(world, cell, r)
  }

  /** The guest runs behind row `i` of a run. */
  ghost function GuestsAt(setup: Setup, world: World, cells: seq<PlanCell>, i: nat): Capture
    requires i < |cells|
  {
    if Passed(world, cells[i]) && setup.withParity then world.capture(i, cells[i]) else NoGuest
  }

  ghost function Executed(world: World, cells: seq<PlanCell>): set<nat> {
    set i: nat | i < |cells| && HasRecord(world, cells[i])
  }

  ghost function Evidenced(setup: Setup, world: World, cells: seq<PlanCell>): set<nat> {
    set i: nat | i < |cells| && Compared(GuestsAt(setup, world, cells, i))
  }

  /** The run-wide columns: the plan's digest, and how many cells were selected, run and compared. */
  ghost predicate RunColumns(row: seq<string>, setup: Setup, world: World, plan: seq<PlanCell>)
    requires |row| == COLUMNS
  {
    && row[31] == "sha256:" + world.sha(Preimage(Keys(setup, plan)))
    && row[32] == Decimal(|plan|) && row[33] == Decimal(|Executed(world, Order(plan))|)
    && row[34] == Decimal(|Evidenced(setup, world, Order(plan))|)
  }

  predicate IsExecuted(r: Pending) {
    r.executed
  }

  predicate IsEvidence(r: Pending) {
    r.evidence
  }

  lemma {:induction false} CountsWhere(rows: seq<Pending>)
    ensures CountExecuted(rows) == |Where(rows, IsExecuted)| && CountEvidence(rows) == |Where(rows, IsEvidence)|
  {
    if rows == [] {
      WhereNone(IsExecuted);
      WhereNone(IsEvidence);
    } else {
      CountsWhere(rows[..|rows| - 1]);
      WhereGrows(rows, IsExecuted);
      WhereGrows(rows, IsEvidence);
    }
  }

  lemma {:induction false} RowsMean(setup: Setup, world: World, population: string, cells: seq<PlanCell>,
                                    rows: seq<Pending>, i: nat)
    requires rows == Rows(setup, world, population, cells) && i < |rows|
    ensures IsExecuted(rows[i]) <==> HasRecord(world, cells[i])
    ensures IsEvidence(rows[i]) <==> Compared(GuestsAt(setup, world, cells, i))
  {
    MeasureExact(setup, world, population, i, cells[i], rows[i], GuestsAt(setup, world, cells, i));
  }

  lemma {:induction false} SetsMean(setup: Setup, world: World, cells: seq<PlanCell>, rows: seq<Pending>)
    requires |rows| == |cells|
    requires forall i: nat :: i < |rows| ==> (IsExecuted(rows[i]) <==> HasRecord(world, cells[i]))
    requires forall i: nat :: i < |rows| ==> (IsEvidence(rows[i]) <==> Compared(GuestsAt(setup, world, cells, i)))
    ensures Where(rows, IsExecuted) == Executed(world, cells)
    ensures Where(rows, IsEvidence) == Evidenced(setup, world, cells)
  {
  }

  lemma {:induction false} CountsMean(setup: Setup, world: World, population: string, cells: seq<PlanCell>,
                                      rows: seq<Pending>)
    requires rows == Rows(setup, world, population, cells)
    ensures CountExecuted(rows) == |Executed(world, cells)|
    ensures CountEvidence(rows) == |Evidenced(setup, world, cells)|
  {
    CountsWhere(rows);
    forall i: nat | i < |rows|
      ensures IsExecuted(rows[i]) <==> HasRecord(world, cells[i])
      ensures IsEvidence(rows[i]) <==> Compared(GuestsAt(setup, world, cells, i))
    {
      RowsMean(setup, world, population, cells, rows, i);
    }
    SetsMean(setup, world, cells, rows);
  }

  lemma {:induction false} StampLeaves(row: seq<string>, stamped: seq<string>, selected: nat, executed: nat,
                                       evidence: nat)
    requires |row| == COLUMNS && stamped == Stamp(row, selected, executed, evidence)
    ensures forall i :: 0 <= i < 32 ==> stamped[i] == row[i]
    ensures stamped[35] == row[35]
    ensures stamped[32] == Decimal(selected) && stamped[33] == Decimal(executed) && stamped[34] == Decimal(evidence)
  {
  }

  lemma {:induction false} SameColumns(a: seq<string>, b: seq<string>, setup: Setup, world: World, at: nat,
                                       cell: PlanCell, c: Capture)
    requires |a| == COLUMNS && |b| == COLUMNS && CellColumns(a, setup, world, at, cell, c)
    requires (forall i :: 0 <= i < 32 ==> b[i] == a[i]) && b[35] == a[35]
    ensures CellColumns(b, setup, world, at, cell, c)
  {
    assert b[..32] == a[..32];
  }

  /** Every column of a finished row, in terms of the plan, the harness records and the guest runs. */
  lemma {:induction false} FinalRowMeans(setup: Setup, world: World, plan: seq<PlanCell>, i: nat, row: seq<string>,
                                         cells: seq<PlanCell>)
    requires cells == Order(plan) && i < |cells| && row == FinalRow(setup, world, plan, i)
    ensures CellColumns(row, setup, world, i, cells[i], GuestsAt(setup, world, cells, i))
    ensures RunColumns(row, setup, world, plan)
    ensures row[30] == world.dumps(ProfileFlags(setup.lane, cells[i].bucket, cells[i].backend, setup.mode))
  {
    var population := PlanId(setup, world, plan);
    var rows := Rows(setup, world, population, cells);
    MeasureExact(setup, world, population, i, cells[i], rows[i], GuestsAt(setup, world, cells, i));
    CountsMean(setup, world, population, cells, rows);
    StampLeaves(rows[i].row, row, |plan|, CountExecuted(rows), CountEvidence(rows));
    SameColumns(rows[i].row, row, setup, world, i, cells[i], GuestsAt(setup, world, cells, i));
    RowTail(setup, world, population, i, cells[i]);
  }

  lemma {:induction false} RowTail(setup: Setup, world: World, population: string, at: nat, cell: PlanCell)
    ensures var row := Measure(setup, world, population, at, cell, Found(world, cell)).row;
            && row[30] == world.dumps(ProfileFlags(setup.lane, cell.bucket, cell.backend, setup.mode))
            && row[31] == population
  {
  }

  // ---------------------------------------------------------------- the profile

  /** The command line recorded with a row: strict, with a fixed environment, and portable only in that lane. */
  lemma {:induction false} ProfileMeans(lane: string, bucket: string, backend: string, mode: string, p: Profile)
    requires p == ProfileFlags(lane, bucket, backend, mode)
    ensures |p.comparison| >= 4 && p.comparison[..4] == ["run", "--backend", backend, "--strict"]
    ensures p.comparison[|p.comparison| - 1] == "--"
    ensures lane == "portable" <==> "--no-virtualize-cpuid" in p.comparison[4..]
    ensures p.harness[..7] == ["run", "--lane", lane, "--category", bucket, "--backend", backend]
    ensures p.harness[7..] == (if mode == "regression" then ["--ci-only"] else ["--include-manual"])
  {
    if lane == "portable" {
      assert p.comparison[4..][7] == "--no-virtualize-cpuid";
    } else {
      ProfilePlain(backend, p.comparison);
    }
  }

  lemma {:induction false} ProfilePlain(backend: string, argv: seq<string>)
    requires argv == ["run", "--backend", backend, "--strict", "--summary", "--base-env", "minimal",
                      "-e", "LC_ALL=C", "-e", "TZ=UTC"] + [] + ["--"]
    ensures "--no-virtualize-cpuid" !in argv[4..]
  {
    var flag := "--no-virtualize-cpuid";
    assert |flag| == 21;
    forall i | 4 <= i < |argv| ensures argv[i] != flag {
      assert |argv[i]| <= 10;
    }
  }

  // ----------------------------------------------------------------- the target

  /** Forty hexadecimal digits, in any mixture of letter cases. */
  ghost predicate ShaText(s: string) {
    exists word: string :: Hex(word, 40) && Spells(s, word)
  }

  lemma {:induction false} ShaExact(s: string)
    ensures ExactSha(s) <==> ShaText(s)
  {
    forall c: char ensures c in "0123456789abcdef" <==> '0' <= c <= '9' || 'a' <= c <= 'f' {
      HexLetter(c);
    }
    if ExactSha(s) {
      LowerExact(s, Lower(s));
      assert Hex(Lower(s), 40);
    }
    if word :| Hex(word, 40) && Spells(s, word) {
      forall i | 0 <= i < |s| ensures HexDigit(s[i]) {
        assert EitherCase(s[i], word[i]);
      }
    }
  }

  /** A run is refused exactly when it compares outputs without two such revisions and a clean tree, or the target
      lacks a column. */
  lemma {:induction false} RefusedMeans(setup: Setup, target: seq<string>)
    ensures Refuses(setup, target) <==>
            || (setup.withParity
                && (!ShaText(setup.meta.hermitSha) || !ShaText(setup.meta.reverieSha) || setup.meta.dirty))
            || exists i :: 0 <= i < |REQUIRED_COLUMNS| && REQUIRED_COLUMNS[i] !in target
  {
    ShaExact(setup.meta.hermitSha);
    ShaExact(setup.meta.reverieSha);
  }
}
