/**
The compat-envelope collector: it regroups a plan by (bucket, backend), turns every
cell into one scorecard row, stamps run-wide counts and the population identity, and
projects the rows onto whatever header the target file has.
*/
module Envelope {
  import opened Text
  import opened Csv
  import opened Population

  // ------------------------------------------------------------------- entities

  datatype PlanCell = PlanCell(bucket: string, test: string, mode: string, backend: string, cellState: string)

  datatype HarnessResult = HarnessResult(test: string, mode: string, outcome: string, durationMs: int, reason: string)

  datatype VerifyVerdict = VerifyVerdict(tier: string, verifyCompare: string, bitwiseParity: string,
                                         comparedLogMessages: string)

  datatype GuestRun = GuestRun(hash: string, engaged: Option<int>)

  /** Guest runs behind one parity capture; a run is absent when it failed. */
  datatype Capture =
    | NoGuest
    | Captured(refHash: Option<string>, candidate: Option<GuestRun>, nativeHash: Option<string>)

  datatype Parity = Parity(parity: Option<bool>, exercised: Option<bool>, native: string, output: string,
                           reference: string, engaged: Option<int>)

  datatype Meta = Meta(runId: string, runUtc: string, hermitSha: string, reverieSha: string, dirty: bool)

  datatype Profile = Profile(comparison: seq<string>, harness: seq<string>)

  datatype Setup = Setup(mode: string, lane: string, withParity: bool, meta: Meta)

  /** Everything the collector learns from the outside; arbitrary in every theorem. */
  datatype World = World(
    unavailable: string -> Option<string>,
    results: (string, string) -> seq<HarnessResult>,
    capture: (nat, PlanCell) -> Capture,
    verdict: (nat, PlanCell) -> Option<VerifyVerdict>,
    sha: string -> string,
    dumps: Profile -> string)

  datatype Pending = Pending(row: seq<string>, executed: bool, evidence: bool)

  // ------------------------------------------------------------------- the header

  const HEADER: seq<string> := [
    "run_id", "run_utc", "hermit_sha", "reverie_sha", "dirty", "run_mode", "lane", "bucket", "test_id", "test_mode",
    "backend", "cell_state", "outcome", "deterministic", "stdout_parity", "parity_exercised", "backend_engaged",
    "native_output_hash", "output_hash", "ref_output_hash", "duration_ms", "max_rss_kb", "reason", "verify_compare",
    "bitwise_parity", "compared_log_messages", "tier", "legacy_parity_unqualified", "parity_comparator",
    "parity_tier", "profile_flags", "population_id", "selected_count", "executed_count", "evidence_count",
    "comparison_tier"
  ]

  const REQUIRED_COLUMNS: seq<string> := [
    "run_id", "run_utc", "hermit_sha", "reverie_sha", "test_id", "backend", "outcome", "deterministic",
    "ref_output_hash", "parity_comparator", "parity_tier", "profile_flags", "population_id", "selected_count",
    "executed_count", "evidence_count", "comparison_tier"
  ]

  const COLUMNS: nat := 36
  const SELECTED: nat := 32
  const EXECUTED: nat := 33
  const EVIDENCE: nat := 34

  lemma {:induction false} HeaderWidth()
    ensures |HEADER| == COLUMNS
  {
  }

  function Position(names: seq<string>, want: string): (r: Option<nat>)
    ensures r.Some? ==> r.value < |names| && names[r.value] == want
    ensures r.Some? ==> forall i :: 0 <= i < r.value ==> names[i] != want
    ensures r.None? <==> want !in names
  {
    if names == [] then None
    else if names[0] == want then Some(0)
    else
      var rest := Position(names[1..], want);
      if rest.None? then None else Some(rest.value + 1)
  }

  lemma {:induction false} HeaderDistinctEarly(i: nat, j: nat)
    requires i < 9 && i < j < COLUMNS
    ensures HEADER[i] != HEADER[j]
  {
  }

  lemma {:induction false} HeaderDistinctMiddle(i: nat, j: nat)
    requires 9 <= i < 19 && i < j < COLUMNS
    ensures HEADER[i] != HEADER[j]
  {
  }

  lemma {:induction false} HeaderDistinctLate(i: nat, j: nat)
    requires 19 <= i < j < COLUMNS
    ensures HEADER[i] != HEADER[j]
  {
  }

  lemma {:induction false} HeaderDistinct(i: nat, j: nat)
    requires i < j < COLUMNS
    ensures HEADER[i] != HEADER[j]
  {
    if i < 9 { HeaderDistinctEarly(i, j); }
    else if i < 19 { HeaderDistinctMiddle(i, j); }
    else { HeaderDistinctLate(i, j); }
  }

  lemma {:induction false} PositionDistinct(names: seq<string>, i: nat)
    requires i < |names| && forall j :: 0 <= j < i ==> names[j] != names[i]
    ensures Position(names, names[i]) == Some(i)
  {
  }

  /** Every column name finds its own position. */
  lemma {:induction false} ColumnPosition(i: nat)
    requires i < COLUMNS
    ensures Position(HEADER, HEADER[i]) == Some(i)
  {
    forall j | 0 <= j < i ensures HEADER[j] != HEADER[i] {
      HeaderDistinct(j, i);
    }
    PositionDistinct(HEADER, i);
  }

  function Alias(col: string): (want: string) {
    if col == "parity" then "stdout_parity" else col
  }

  /** The row's value for a target column: `parity` means `stdout_parity`, an unknown column is blank. */
  function Value(row: seq<string>, col: string): (v: string)
    requires |row| == COLUMNS
  {
    var at := Position(HEADER, Alias(col));
    HeaderWidth();
    if at.Some? then row[at.value] else ""
  }

  lemma {:induction false} NoLegacyColumn(i: nat)
    requires i < COLUMNS
    ensures HEADER[i] != "parity"
  {
  }

  lemma {:induction false} ValueAt(row: seq<string>, i: nat)
    requires |row| == COLUMNS && i < COLUMNS
    ensures Value(row, HEADER[i]) == row[i]
  {
    NoLegacyColumn(i);
    ColumnPosition(i);
  }

  lemma {:induction false} StdoutParityColumn()
    ensures HEADER[14] == Alias("parity")
  {
  }

  /** The legacy `parity` spelling reads the stdout verdict. */
  lemma {:induction false} LegacyParityValue(row: seq<string>)
    requires |row| == COLUMNS
    ensures Value(row, "parity") == row[14]
  {
    StdoutParityColumn();
    ColumnPosition(14);
  }

  function Project(row: seq<string>, target: seq<string>): (fields: seq<string>)
    requires |row| == COLUMNS
    ensures |fields| == |target|
    ensures forall i :: 0 <= i < |target| ==> fields[i] == Value(row, target[i])
  {
    seq(|target|, i requires 0 <= i < |target| => Value(row, target[i]))
  }

  /** Whatever a row holds, the renderer's splitter recovers each target column from the emitted line. */
  lemma {:induction false} ProjectionRoundTrip(row: seq<string>, target: seq<string>)
    requires |row| == COLUMNS && target != []
    ensures var out := SplitLine(EmitLine(Project(row, target)));
            |out| == |target| && forall i :: 0 <= i < |target| ==> out[i] == Value(row, target[i])
  {
    LineRoundTrip(Project(row, target));
  }

  // ------------------------------------------------------------------ one cell

  function EngagementCounter(backend: string): (name: string) {
    if backend == "e9patch" then "mapped_sites"
    else if backend == "sabre" then "patched_sites"
    else if backend == "dbi" then "branches"
    else if backend == "ptrace" then "scheduler turns"
    else "engagement"
  }

  function ProfileFlags(lane: string, bucket: string, backend: string, mode: string): (p: Profile)
    ensures "--strict" in p.comparison
  {
    var base := ["run", "--backend", backend, "--strict", "--summary", "--base-env", "minimal",
                 "-e", "LC_ALL=C", "-e", "TZ=UTC"];
    var portable := if lane == "portable" then ["--no-virtualize-cpuid", "--max-timeslice=disabled"] else [];
    assert base[3] == "--strict";
    assert (base + portable + ["--"])[3] == "--strict";
    Profile(base + portable + ["--"],
            ["run", "--lane", lane, "--category", bucket, "--backend", backend,
             if mode == "regression" then "--ci-only" else "--include-manual"])
  }

  function OrEmpty(s: Option<string>): (r: string) {
    if s.Some? then s.value else ""
  }

  /** A parity verdict exists exactly when both runs produced a hash, and it is their equality. */
  function CaptureParity(c: Capture): (p: Parity)
    ensures p.parity.Some? <==> c.Captured? && c.refHash.Some? && c.candidate.Some?
    ensures p.parity.Some? ==> p.parity.value == (p.output == p.reference)
                               && p.reference == c.refHash.value && p.output == c.candidate.value.hash
  {
    if c.NoGuest? then Parity(None, None, "", "", "", None)
    else
      var parity := if c.refHash.Some? && c.candidate.Some? then Some(c.refHash.value == c.candidate.value.hash)
          else None;
      var exercised := if c.refHash.Some? && c.nativeHash.Some? then Some(c.refHash.value != c.nativeHash.value)
          else None;
      Parity(parity, exercised, OrEmpty(c.nativeHash),
             if c.candidate.Some? then c.candidate.value.hash else "", OrEmpty(c.refHash),
             if c.candidate.Some? then c.candidate.value.engaged else None)
  }

  /** The harness's record for a (test, mode): the last one written. */
  function LastResult(results: seq<HarnessResult>, test: string, mode: string): (r: Option<HarnessResult>)
    ensures r.Some? ==> r.value in results && r.value.test == test && r.value.mode == mode
  {
    if results == [] then None
    else
      var last := results[|results| - 1];
      if last.test == test && last.mode == mode then Some(last) else LastResult(results[..|results| - 1], test, mode)
  }

  function Flag(b: Option<bool>): (s: string) {
    if b.None? then "" else if b.value then "1" else "0"
  }

  function IntText(n: int): (s: string) {
    if n < 0 then "-" + Decimal(-n) else Decimal(n)
  }

  datatype Observed = Observed(outcome: string, durationMs: int, reason: string, executed: bool)

  function Observe(world: World, cell: PlanCell, found: Option<HarnessResult>): (o: Observed)
    ensures o.outcome == "pass" ==> found.Some? && world.unavailable(cell.backend).None?
    ensures o.executed == found.Some?
  {
    var why := world.unavailable(cell.backend);
    if why.Some? then Observed("unavailable", 0, why.value, found.Some?)
    else if found.Some? then Observed(found.value.outcome, found.value.durationMs, found.value.reason, true)
    else Observed("skip", 0, "no harness record", false)
  }

  /** Determinism is earned only by a passing two-run `verify` cell; a skip or an absent backend says nothing. */
  function Determinism(available: bool, outcome: string, mode: string): (d: Option<bool>) {
    if !available || outcome == "skip" then None
    else if outcome != "pass" then Some(false)
    else if mode == "verify" then Some(true)
    else None
  }

  function VerifyColumns(deterministic: Option<bool>, mode: string,
                         verdict: Option<VerifyVerdict>): (v: VerifyVerdict) {
    if verdict.Some? then verdict.value
    else if deterministic == Some(true) && mode == "verify" then VerifyVerdict("stripped-uncounted", "stripped", "", "")
    else VerifyVerdict("", "", "", "")
  }

  function KeyOf(setup: Setup, cell: PlanCell): (key: Key)
    ensures |key| == 7
  {
    [setup.mode, setup.lane, cell.bucket, cell.test, cell.mode, cell.backend, cell.cellState]
  }

  function Keys(setup: Setup, cells: seq<PlanCell>): (keys: seq<Key>)
    ensures |keys| == |cells|
    ensures forall i :: 0 <= i < |cells| ==> keys[i] == KeyOf(setup, cells[i])
  {
    seq(|cells|, i requires 0 <= i < |cells| => KeyOf(setup, cells[i]))
  }

  predicate Vacuous(p: Parity) {
    p.engaged == Some(0)
  }

  /** A guest or a backend that did nothing is neither a pass nor a failure. */
  function RecordedOutcome(o: Observed, p: Parity): (s: string) {
    if p.exercised == Some(false) || Vacuous(p) then "not-exercised" else o.outcome
  }

  function RecordedReason(o: Observed, p: Parity, backend: string): (s: string) {
    if Vacuous(p) then
      backend + " performed no work on this guest (" + EngagementCounter(backend) + "=0); excluded from parity "
      + "rather than scored, because a backend that does nothing agrees with the reference perfectly"
    else o.reason
  }

  function Identity(setup: Setup, cell: PlanCell): (columns: seq<string>)
    ensures |columns| == 12
  {
    [setup.meta.runId, setup.meta.runUtc, setup.meta.hermitSha, setup.meta.reverieSha,
     if setup.meta.dirty then "true" else "false", setup.mode, setup.lane, cell.bucket, cell.test, cell.mode,
     cell.backend, cell.cellState]
  }

  function Results(cell: PlanCell, o: Observed, d: Option<bool>, p: Parity): (columns: seq<string>)
    ensures |columns| == 11
  {
    [RecordedOutcome(o, p), Flag(d), Flag(p.parity), Flag(p.exercised),
     if p.engaged.Some? then IntText(p.engaged.value) else "",
     p.native, p.output, p.reference, IntText(o.durationMs), "",
     RecordedReason(o, p, cell.backend)]
  }

  function Provenances(v: VerifyVerdict, p: Parity, flags: string, population: string): (columns: seq<string>)
    ensures |columns| == 13
  {
    [v.verifyCompare, v.bitwiseParity, v.comparedLogMessages, v.tier, "",
     if p.parity.Some? then "stdout-sha256-exact-v1" else "", if p.parity.Some? then "stdout-exact" else "",
     flags, population, "", "", "", "unqualified-stdout-only"]
  }

  /** The 36-column row of one cell, its count columns still blank. */
  function RowVector(setup: Setup, cell: PlanCell, o: Observed, d: Option<bool>, v: VerifyVerdict, p: Parity,
                     flags: string, population: string): (row: seq<string>)
    ensures |row| == COLUMNS
  {
    Identity(setup, cell) + Results(cell, o, d, p) + Provenances(v, p, flags, population)
  }

  function Measure(setup: Setup, world: World, population: string, at: nat, cell: PlanCell,
                   found: Option<HarnessResult>): (r: Pending)
    ensures |r.row| == COLUMNS
    ensures r.evidence ==> r.executed
  {
    var available := world.unavailable(cell.backend).None?;
    var o := Observe(world, cell, found);
    var pass := o.outcome == "pass";
    var d := Determinism(available, o.outcome, cell.mode);
    var verdict := if cell.mode == "verify" && available && pass then world.verdict(at, cell) else None;
    var p := CaptureParity(if setup.withParity && pass then world.capture(at, cell) else NoGuest);
    var flags := world.dumps(ProfileFlags(setup.lane, cell.bucket, cell.backend, setup.mode));
    Pending(RowVector(setup, cell, o, d, VerifyColumns(d, cell.mode, verdict), p, flags, population),
            o.executed, p.parity.Some?)
  }

  // -------------------------------------------------------------------- grouping

  datatype Group = Group(bucket: string, backend: string, cells: seq<PlanCell>)

  predicate GroupLess(a: Group, b: Group) {
    StrLess(a.bucket, b.bucket) || (a.bucket == b.bucket && StrLess(a.backend, b.backend))
  }

  ghost predicate Ordered(groups: seq<Group>) {
    forall i, j :: 0 <= i < j < |groups| ==> GroupLess(groups[i], groups[j])
  }

  function Flatten(groups: seq<Group>): (cells: seq<PlanCell>) {
    if groups == [] then [] else groups[0].cells + Flatten(groups[1..])
  }

  /** `entry(key).or_default().push(cell)` on the key-ordered map. */
  function AddCell(groups: seq<Group>, cell: PlanCell): (r: seq<Group>)
    ensures multiset(Flatten(r)) == multiset(Flatten(groups)) + multiset{cell}
  {
    var single := Group(cell.bucket, cell.backend, [cell]);
    if groups == [] then
      [single]
    else if groups[0].bucket == cell.bucket && groups[0].backend == cell.backend then
      [groups[0].(cells := groups[0].cells + [cell])] + groups[1..]
    else if GroupLess(single, groups[0]) then
      [single] + groups
    else
      [groups[0]] + AddCell(groups[1..], cell)
  }

  /** The plan after the grouping loop. */
  function Regroup(plan: seq<PlanCell>): (groups: seq<Group>) {
    if plan == [] then [] else AddCell(Regroup(plan[..|plan| - 1]), plan[|plan| - 1])
  }

  function CellsOf(plan: seq<PlanCell>, bucket: string, backend: string): (cells: seq<PlanCell>) {
    if plan == [] then []
    else
      var last := plan[|plan| - 1];
      CellsOf(plan[..|plan| - 1], bucket, backend)
      + (if last.bucket == bucket && last.backend == backend then [last] else [])
  }

  lemma {:induction false} GroupLessTransitive(a: Group, b: Group, c: Group)
    requires GroupLess(a, b) && GroupLess(b, c)
    ensures GroupLess(a, c)
  {
    StrLessTransitive(a.bucket, b.bucket, c.bucket);
    StrLessTransitive(a.backend, b.backend, c.backend);
  }

  lemma {:induction false} StrLessTransitive(a: string, b: string, c: string)
    ensures StrLess(a, b) && StrLess(b, c) ==> StrLess(a, c)
  {
    if StrLess(a, b) && StrLess(b, c) {
      StrLeTransitive(a, b, c);
      if a == c { StrLeAntisymmetric(a, b); }
    }
  }

  lemma {:induction false} GroupLessTotal(a: Group, b: Group)
    ensures GroupLess(a, b) || GroupLess(b, a) || (a.bucket == b.bucket && a.backend == b.backend)
  {
    StrLeTotal(a.bucket, b.bucket);
    StrLeTotal(a.backend, b.backend);
  }

  ghost predicate HasKey(groups: seq<Group>, bucket: string, backend: string) {
    exists i :: 0 <= i < |groups| && groups[i].bucket == bucket && groups[i].backend == backend
  }

  ghost predicate Contents(groups: seq<Group>, plan: seq<PlanCell>) {
    forall i :: 0 <= i < |groups| ==> groups[i].cells == CellsOf(plan, groups[i].bucket, groups[i].backend)
  }

  /** Every cell of the plan sits, in plan order, under its own key, and nothing else does. */
  ghost predicate Grouped(groups: seq<Group>, plan: seq<PlanCell>) {
    Contents(groups, plan) && forall c <- plan :: HasKey(groups, c.bucket, c.backend)
  }

  lemma {:induction false} AddCellKeys(groups: seq<Group>, cell: PlanCell)
    requires Ordered(groups)
    ensures var r := AddCell(groups, cell);
            && Ordered(r)
            && (forall i :: 0 <= i < |r| ==>
                  (r[i].bucket == cell.bucket && r[i].backend == cell.backend)
                  || exists j :: 0 <= j < |groups| && r[i] == groups[j])
  {
    var single := Group(cell.bucket, cell.backend, [cell]);
    var r := AddCell(groups, cell);
    if groups == [] {
    } else if groups[0].bucket == cell.bucket && groups[0].backend == cell.backend {
      assert forall i :: 1 <= i < |r| ==> r[i] == groups[i];
    } else if GroupLess(single, groups[0]) {
      forall j | 0 <= j < |groups| ensures GroupLess(single, groups[j]) {
        if j > 0 { GroupLessTransitive(single, groups[0], groups[j]); }
      }
      assert forall i :: 1 <= i < |r| ==> r[i] == groups[i - 1];
    } else {
      var rest := AddCell(groups[1..], cell);
      AddCellKeys(groups[1..], cell);
      GroupLessTotal(single, groups[0]);
      forall i | 0 <= i < |rest| ensures GroupLess(groups[0], rest[i]) {
        if !(rest[i].bucket == cell.bucket && rest[i].backend == cell.backend) {
          var j :| 0 <= j < |groups[1..]| && rest[i] == groups[1..][j];
          assert groups[1..][j] == groups[j + 1];
        }
      }
      forall i | 0 <= i < |r|
        ensures (r[i].bucket == cell.bucket && r[i].backend == cell.backend) || exists j :: 0 <= j < |groups|
                                                                                  && r[i] == groups[j]
      {
        if i > 0 && !(rest[i - 1].bucket == cell.bucket && rest[i - 1].backend == cell.backend) {
          var j :| 0 <= j < |groups[1..]| && rest[i - 1] == groups[1..][j];
          assert r[i] == groups[j + 1];
        }
      }
    }
  }

  lemma {:induction false} NoCells(plan: seq<PlanCell>, bucket: string, backend: string)
    requires forall c <- plan :: !(c.bucket == bucket && c.backend == backend)
    ensures CellsOf(plan, bucket, backend) == []
  {
    if plan != [] {
      NoCells(plan[..|plan| - 1], bucket, backend);
      assert plan[|plan| - 1] in plan;
    }
  }

  lemma {:induction false} CellsOfAppend(plan: seq<PlanCell>, cell: PlanCell, bucket: string, backend: string)
    ensures CellsOf(plan + [cell], bucket, backend)
            == CellsOf(plan, bucket, backend)
                + (if cell.bucket == bucket && cell.backend == backend then [cell] else [])
  {
    assert (plan + [cell])[..|plan|] == plan;
  }

  lemma {:induction false} ContentsAppend(groups: seq<Group>, plan: seq<PlanCell>, cell: PlanCell)
    requires Contents(groups, plan) && !HasKey(groups, cell.bucket, cell.backend)
    ensures Contents(groups, plan + [cell])
  {
    forall i | 0 <= i < |groups|
      ensures groups[i].cells == CellsOf(plan + [cell], groups[i].bucket, groups[i].backend)
    {
      CellsOfAppend(plan, cell, groups[i].bucket, groups[i].backend);
    }
  }

  lemma {:induction false} OrderedFrom(groups: seq<Group>, cell: PlanCell)
    requires groups != [] && Ordered(groups)
    ensures (groups[0].bucket == cell.bucket && groups[0].backend == cell.backend)
            ==> !HasKey(groups[1..], cell.bucket, cell.backend)
    ensures GroupLess(Group(cell.bucket, cell.backend, [cell]), groups[0])
            ==> !HasKey(groups, cell.bucket, cell.backend)
  {
    var single := Group(cell.bucket, cell.backend, [cell]);
    forall i | 0 <= i < |groups|
      ensures i > 0 && groups[0].bucket == cell.bucket && groups[0].backend == cell.backend
              ==> !(groups[i].bucket == cell.bucket && groups[i].backend == cell.backend)
      ensures GroupLess(single, groups[0]) ==> !(groups[i].bucket == cell.bucket && groups[i].backend == cell.backend)
    {
      if i > 0 && GroupLess(single, groups[0]) {
        GroupLessTransitive(single, groups[0], groups[i]);
      }
    }
  }

  lemma {:induction false} ConsContents(g: Group, rest: seq<Group>, plan: seq<PlanCell>)
    requires g.cells == CellsOf(plan, g.bucket, g.backend) && Contents(rest, plan)
    ensures Contents([g] + rest, plan)
  {
  }

  lemma {:induction false} TailHasKey(groups: seq<Group>, cell: PlanCell)
    requires groups != [] && HasKey(groups, cell.bucket, cell.backend)
    requires !(groups[0].bucket == cell.bucket && groups[0].backend == cell.backend)
    ensures HasKey(groups[1..], cell.bucket, cell.backend)
  {
    var i :| 0 <= i < |groups| && groups[i].bucket == cell.bucket && groups[i].backend == cell.backend;
    assert groups[1..][i - 1] == groups[i];
  }

  lemma {:induction false} AddToHead(head: Group, tail: seq<Group>, plan: seq<PlanCell>, cell: PlanCell)
    requires head.bucket == cell.bucket && head.backend == cell.backend
    requires head.cells == CellsOf(plan, head.bucket, head.backend) && Contents(tail, plan)
             && !HasKey(tail, cell.bucket, cell.backend)
    ensures Contents([head.(cells := head.cells + [cell])] + tail, plan + [cell])
  {
    CellsOfAppend(plan, cell, cell.bucket, cell.backend);
    ContentsAppend(tail, plan, cell);
    ConsContents(head.(cells := head.cells + [cell]), tail, plan + [cell]);
  }

  lemma {:induction false} AddBefore(groups: seq<Group>, plan: seq<PlanCell>, cell: PlanCell)
    requires Contents(groups, plan) && !HasKey(groups, cell.bucket, cell.backend)
             && CellsOf(plan, cell.bucket, cell.backend) == []
    ensures Contents([Group(cell.bucket, cell.backend, [cell])] + groups, plan + [cell])
  {
    CellsOfAppend(plan, cell, cell.bucket, cell.backend);
    ContentsAppend(groups, plan, cell);
    ConsContents(Group(cell.bucket, cell.backend, [cell]), groups, plan + [cell]);
  }

  lemma {:induction false} AddAfter(head: Group, rest: seq<Group>, plan: seq<PlanCell>, cell: PlanCell)
    requires !(head.bucket == cell.bucket && head.backend == cell.backend)
    requires head.cells == CellsOf(plan, head.bucket, head.backend) && Contents(rest, plan + [cell])
    ensures Contents([head] + rest, plan + [cell])
  {
    CellsOfAppend(plan, cell, head.bucket, head.backend);
    ConsContents(head, rest, plan + [cell]);
  }

  lemma {:induction false} ContentsSplit(groups: seq<Group>, plan: seq<PlanCell>)
    requires groups != [] && Contents(groups, plan) && Ordered(groups)
    ensures groups[0].cells == CellsOf(plan, groups[0].bucket, groups[0].backend)
    ensures Contents(groups[1..], plan) && Ordered(groups[1..])
  {
  }

  lemma {:induction false} AddCellContents(groups: seq<Group>, plan: seq<PlanCell>, cell: PlanCell)
    requires Ordered(groups) && Contents(groups, plan)
    requires HasKey(groups, cell.bucket, cell.backend) || CellsOf(plan, cell.bucket, cell.backend) == []
    ensures Contents(AddCell(groups, cell), plan + [cell])
  {
    if groups == [] {
      AddBefore(groups, plan, cell);
    } else {
      OrderedFrom(groups, cell);
      ContentsSplit(groups, plan);
      if groups[0].bucket == cell.bucket && groups[0].backend == cell.backend {
        AddToHead(groups[0], groups[1..], plan, cell);
      } else if GroupLess(Group(cell.bucket, cell.backend, [cell]), groups[0]) {
        AddBefore(groups, plan, cell);
      } else {
        if HasKey(groups, cell.bucket, cell.backend) {
          TailHasKey(groups, cell);
        }
        AddCellContents(groups[1..], plan, cell);
        AddAfter(groups[0], AddCell(groups[1..], cell), plan, cell);
      }
    }
  }

  lemma {:induction false} AddCellHasKeys(groups: seq<Group>, cell: PlanCell, bucket: string, backend: string)
    ensures HasKey(AddCell(groups, cell), cell.bucket, cell.backend)
    ensures HasKey(groups, bucket, backend) ==> HasKey(AddCell(groups, cell), bucket, backend)
  {
    var r := AddCell(groups, cell);
    if groups == [] {
      assert r[0].bucket == cell.bucket;
    } else if groups[0].bucket == cell.bucket && groups[0].backend == cell.backend {
      assert r[0].bucket == cell.bucket;
      if i :| 0 <= i < |groups| && groups[i].bucket == bucket && groups[i].backend == backend {
        assert r[i].bucket == bucket && r[i].backend == backend;
      }
    } else if GroupLess(Group(cell.bucket, cell.backend, [cell]), groups[0]) {
      assert r[0].bucket == cell.bucket;
      if i :| 0 <= i < |groups| && groups[i].bucket == bucket && groups[i].backend == backend {
        assert r[i + 1] == groups[i];
      }
    } else {
      AddCellHasKeys(groups[1..], cell, bucket, backend);
      var rest := AddCell(groups[1..], cell);
      var k :| 0 <= k < |rest| && rest[k].bucket == cell.bucket && rest[k].backend == cell.backend;
      assert r[k + 1] == rest[k];
      if i :| 0 <= i < |groups| && groups[i].bucket == bucket && groups[i].backend == backend {
        if i == 0 {
          assert r[0] == groups[0];
        } else {
          assert groups[1..][i - 1] == groups[i];
          var m :| 0 <= m < |rest| && rest[m].bucket == bucket && rest[m].backend == backend;
          assert r[m + 1] == rest[m];
        }
      }
    }
  }

  /** Grouping orders the plan by key, keeps plan order inside a group, and loses or repeats no cell. */
  lemma {:induction false} RegroupExact(plan: seq<PlanCell>)
    ensures Ordered(Regroup(plan)) && Grouped(Regroup(plan), plan)
    ensures multiset(Flatten(Regroup(plan))) == multiset(plan)
  {
    if plan != [] {
      var front, cell := plan[..|plan| - 1], plan[|plan| - 1];
      assert plan == front + [cell];
      RegroupExact(front);
      var groups := Regroup(front);
      AddCellKeys(groups, cell);
      if !HasKey(groups, cell.bucket, cell.backend) {
        NoCells(front, cell.bucket, cell.backend);
      }
      AddCellContents(groups, front, cell);
      forall c <- plan ensures HasKey(Regroup(plan), c.bucket, c.backend) {
        AddCellHasKeys(groups, cell, c.bucket, c.backend);
      }
    }
  }

  // ----------------------------------------------------------------- the whole run

  predicate HexDigit(c: char) {
    '0' <= c <= '9' || 'a' <= c <= 'f' || 'A' <= c <= 'F'
  }

  /** The producer's idea of an exact SHA admits upper-case digits. */
  predicate ExactSha(s: string) {
    |s| == 40 && forall i :: 0 <= i < |s| ==> HexDigit(s[i])
  }

  predicate Refuses(setup: Setup, target: seq<string>) {
    || (setup.withParity && (!ExactSha(setup.meta.hermitSha) || !ExactSha(setup.meta.reverieSha) || setup.meta.dirty))
    || exists c <- REQUIRED_COLUMNS :: c !in target
  }

  function Found(world: World, cell: PlanCell): (r: Option<HarnessResult>) {
    LastResult(if world.unavailable(cell.backend).None? then world.results(cell.bucket, cell.backend) else [],
               cell.test, cell.mode)
  }

  function Order(plan: seq<PlanCell>): (cells: seq<PlanCell>) {
    Flatten(Regroup(plan))
  }

  function Rows(setup: Setup, world: World, population: string, cells: seq<PlanCell>): (rows: seq<Pending>)
    ensures |rows| == |cells|
    ensures forall i :: 0 <= i < |rows| ==> |rows[i].row| == COLUMNS
    ensures forall i :: 0 <= i < |rows| ==>
              rows[i] == Measure(setup, world, population, i, cells[i], Found(world, cells[i]))
  {
    seq(|cells|, i requires 0 <= i < |cells| => Measure(setup, world, population, i, cells[i], Found(world, cells[i])))
  }

  function CountExecuted(rows: seq<Pending>): (n: nat)
    ensures n <= |rows|
  {
    if rows == [] then 0 else CountExecuted(rows[..|rows| - 1]) + (if rows[|rows| - 1].executed then 1 else 0)
  }

  function CountEvidence(rows: seq<Pending>): (n: nat) {
    if rows == [] then 0 else CountEvidence(rows[..|rows| - 1]) + (if rows[|rows| - 1].evidence then 1 else 0)
  }

  function Stamp(row: seq<string>, selected: nat, executed: nat, evidence: nat): (r: seq<string>)
    requires |row| == COLUMNS
    ensures |r| == COLUMNS
  {
    row[SELECTED := Decimal(selected)][EXECUTED := Decimal(executed)][EVIDENCE := Decimal(evidence)]
  }

  function PlanId(setup: Setup, world: World, plan: seq<PlanCell>): (id: string) {
    PopulationId(world.sha, Keys(setup, plan))
  }

  /** The i-th finished row of a run. */
  function FinalRow(setup: Setup, world: World, plan: seq<PlanCell>, i: nat): (row: seq<string>)
    requires i < |Order(plan)|
    ensures |row| == COLUMNS
  {
    var rows := Rows(setup, world, PlanId(setup, world, plan), Order(plan));
    Stamp(rows[i].row, |plan|, CountExecuted(rows), CountEvidence(rows))
  }

  function Collected(setup: Setup, world: World, plan: seq<PlanCell>, target: seq<string>): (records: seq<seq<string>>)
    ensures |records| == |Order(plan)|
    ensures forall i :: 0 <= i < |records| ==> records[i] == Project(FinalRow(setup, world, plan, i), target)
  {
    seq(|Order(plan)|, i requires 0 <= i < |Order(plan)| => Project(FinalRow(setup, world, plan, i), target))
  }

  /** No plan loses or gains a row, so the collector's "selected population changed" exit never fires. */
  lemma {:induction false} OneRowPerCell(plan: seq<PlanCell>)
    ensures |Order(plan)| == |plan|
  {
    RegroupExact(plan);
    assert |multiset(Order(plan))| == |multiset(plan)|;
  }

  method GroupCells(plan: seq<PlanCell>) returns (groups: seq<Group>)
    ensures groups == Regroup(plan)
  {
    groups := [];
    for i := 0 to |plan|
      invariant groups == Regroup(plan[..i])
    {
      assert plan[..i + 1][..i] == plan[..i];
      groups := AddCell(groups, plan[i]);
    }
    assert plan[..|plan|] == plan;
  }

  /** The harness outcomes indexed by (test, mode), later records replacing earlier ones. */
  method IndexResults(results: seq<HarnessResult>) returns (outcomes: map<(string, string), HarnessResult>)
    ensures forall t, m :: (t, m) in outcomes <==> LastResult(results, t, m).Some?
    ensures forall t, m :: (t, m) in outcomes ==> LastResult(results, t, m) == Some(outcomes[(t, m)])
  {
    outcomes := map[];
    for i := 0 to |results|
      invariant forall t, m :: (t, m) in outcomes <==> LastResult(results[..i], t, m).Some?
      invariant forall t, m :: (t, m) in outcomes ==> LastResult(results[..i], t, m) == Some(outcomes[(t, m)])
    {
      assert results[..i + 1][..i] == results[..i];
      outcomes := outcomes[(results[i].test, results[i].mode) := results[i]];
    }
    assert results[..|results|] == results;
  }

  lemma {:induction false} FlattenPrefix(groups: seq<Group>, g: nat)
    requires g <= |groups|
    ensures Flatten(groups[..g]) <= Flatten(groups)
    ensures g < |groups| ==> Flatten(groups[..g + 1]) == Flatten(groups[..g]) + groups[g].cells
  {
    if g == 0 {
      if groups != [] {
        assert groups[..1][1..] == [];
        assert groups[0].cells + Flatten([]) == groups[0].cells;
      }
    } else {
      FlattenPrefix(groups[1..], g - 1);
      assert groups[..g][1..] == groups[1..][..g - 1];
      if g < |groups| {
        assert groups[..g + 1][1..] == groups[1..][..g];
        assert groups[1..][g - 1] == groups[g];
      }
    }
  }

  lemma {:induction false} RowsAppend(setup: Setup, world: World, population: string, cells: seq<PlanCell>,
                                      cell: PlanCell)
    ensures Rows(setup, world, population, cells + [cell])
            == Rows(setup, world, population, cells)
                + [Measure(setup, world, population, |cells|, cell, Found(world, cell))]
  {
  }

  /** Measures one cell, given the group's indexed results. */
  method MeasureCell(setup: Setup, world: World, population: string, outcomes: map<(string, string), HarnessResult>,
                     cell: PlanCell, ghost done: seq<PlanCell>, pending: seq<Pending>)
    returns (more: seq<Pending>)
    requires pending == Rows(setup, world, population, done)
    requires Looks(world, outcomes, cell)
    ensures more == Rows(setup, world, population, done + [cell])
  {
    var key := (cell.test, cell.mode);
    var found := if key in outcomes then Some(outcomes[key]) else None;
    RowsAppend(setup, world, population, done, cell);
    more := pending + [Measure(setup, world, population, |pending|, cell, found)];
  }

  /** The harness results of a group, indexed as its cells look them up. */
  method GroupOutcomes(world: World, group: Group) returns (outcomes: map<(string, string), HarnessResult>)
    requires forall c <- group.cells :: c.bucket == group.bucket && c.backend == group.backend
    ensures forall c <- group.cells :: Looks(world, outcomes, c)
  {
    var available := world.unavailable(group.backend).None?;
    var results := if available then world.results(group.bucket, group.backend) else [];
    outcomes := IndexResults(results);
  }

  ghost predicate Looks(world: World, outcomes: map<(string, string), HarnessResult>, c: PlanCell) {
    Found(world, c) == if (c.test, c.mode) in outcomes then Some(outcomes[(c.test, c.mode)]) else None
  }

  /** Measures one group after the cells already measured. */
  method MeasureGroup(setup: Setup, world: World, population: string, group: Group, ghost done: seq<PlanCell>,
                      pending: seq<Pending>)
    returns (more: seq<Pending>)
    requires pending == Rows(setup, world, population, done)
    requires forall c <- group.cells :: c.bucket == group.bucket && c.backend == group.backend
    ensures more == Rows(setup, world, population, done + group.cells)
  {
    var outcomes := GroupOutcomes(world, group);
    more := MeasureCells(setup, world, population, group.cells, outcomes, done, pending);
  }

  method MeasureCells(setup: Setup, world: World, population: string, cells: seq<PlanCell>,
                      outcomes: map<(string, string), HarnessResult>, ghost done: seq<PlanCell>, pending: seq<Pending>)
    returns (more: seq<Pending>)
    requires pending == Rows(setup, world, population, done)
    requires forall c <- cells :: Looks(world, outcomes, c)
    ensures more == Rows(setup, world, population, done + cells)
  {
    more := pending;
    assert done + cells[..0] == done;
    for k := 0 to |cells|
      invariant more == Rows(setup, world, population, done + cells[..k])
    {
      assert cells[k] in cells;
      assert done + cells[..k + 1] == done + cells[..k] + [cells[k]];
      more := MeasureCell(setup, world, population, outcomes, cells[k], done + cells[..k], more);
    }
    assert cells[..|cells|] == cells;
  }

  method MeasureGroups(setup: Setup, world: World, population: string, groups: seq<Group>)
    returns (pending: seq<Pending>)
    requires forall i :: 0 <= i < |groups| ==>
               forall c <- groups[i].cells :: c.bucket == groups[i].bucket && c.backend == groups[i].backend
    ensures pending == Rows(setup, world, population, Flatten(groups))
  {
    pending := [];
    for g := 0 to |groups|
      invariant pending == Rows(setup, world, population, Flatten(groups[..g]))
    {
      FlattenPrefix(groups, g);
      pending := MeasureGroup(setup, world, population, groups[g], Flatten(groups[..g]), pending);
    }
    assert groups[..|groups|] == groups;
  }

  method CheckTarget(setup: Setup, target: seq<string>) returns (refused: bool)
    ensures refused == Refuses(setup, target)
  {
    if setup.withParity
       && (!ExactSha(setup.meta.hermitSha) || !ExactSha(setup.meta.reverieSha) || setup.meta.dirty) {
      return true;
    }
    for i := 0 to |REQUIRED_COLUMNS|
      invariant forall k :: 0 <= k < i ==> REQUIRED_COLUMNS[k] in target
    {
      if REQUIRED_COLUMNS[i] !in target {
        assert REQUIRED_COLUMNS[i] in REQUIRED_COLUMNS;
        return true;
      }
    }
    return false;
  }

  method CountRows(pending: seq<Pending>) returns (executed: nat, evidence: nat)
    ensures executed == CountExecuted(pending) && evidence == CountEvidence(pending)
  {
    executed, evidence := 0, 0;
    for i := 0 to |pending|
      invariant executed == CountExecuted(pending[..i]) && evidence == CountEvidence(pending[..i])
    {
      assert pending[..i + 1][..i] == pending[..i];
      if pending[i].executed { executed := executed + 1; }
      if pending[i].evidence { evidence := evidence + 1; }
    }
    assert pending[..|pending|] == pending;
  }

  /** Emits every pending row through the same stamping and projection. */
  method EmitRows(pending: seq<Pending>, emit: Pending --> seq<string>) returns (records: seq<seq<string>>)
    requires forall i :: 0 <= i < |pending| ==> emit.requires(pending[i])
    ensures |records| == |pending| && forall i :: 0 <= i < |pending| ==> records[i] == emit(pending[i])
  {
    records := [];
    for i := 0 to |pending|
      invariant |records| == i && forall k :: 0 <= k < i ==> records[k] == emit(pending[k])
    {
      records := records + [emit(pending[i])];
    }
  }

  /** Stamps the run-wide counts into every row and projects it onto the target header. */
  method StampRows(pending: seq<Pending>, planned: nat, executed: nat, evidence: nat, target: seq<string>)
    returns (records: seq<seq<string>>)
    requires forall i :: 0 <= i < |pending| ==> |pending[i].row| == COLUMNS
    ensures |records| == |pending|
    ensures forall i :: 0 <= i < |pending| ==>
              records[i] == Project(Stamp(pending[i].row, planned, executed, evidence), target)
  {
    var emit := (p: Pending) requires |p.row| == COLUMNS => Project(Stamp(p.row, planned, executed, evidence), target);
    records := EmitRows(pending, emit);
  }

  /** One collector run over a plan; `None` stands for an exit before anything is written. */
  method Collect(setup: Setup, world: World, plan: seq<PlanCell>, target: seq<string>)
    returns (out: Option<seq<seq<string>>>)
    ensures out.None? <==> Refuses(setup, target)
    ensures out.Some? ==> out.value == Collected(setup, world, plan, target) && |out.value| == |plan|
  {
    var refused := CheckTarget(setup, target);
    if refused {
      return None;
    }
    var groups := GroupCells(plan);
    RegroupExact(plan);
    GroupsHomogeneous(groups, plan);
    var pending := MeasureGroups(setup, world, PlanId(setup, world, plan), groups);
    OneRowPerCell(plan);
    var executed, evidence := CountRows(pending);
    var records := StampRows(pending, |plan|, executed, evidence, target);
    assert records == Collected(setup, world, plan, target);
    out := Some(records);
  }

  lemma {:induction false} CellsOfKeyed(plan: seq<PlanCell>, bucket: string, backend: string)
    ensures forall c <- CellsOf(plan, bucket, backend) :: c.bucket == bucket && c.backend == backend
  {
    if plan != [] {
      CellsOfKeyed(plan[..|plan| - 1], bucket, backend);
    }
  }

  lemma {:induction false} GroupsHomogeneous(groups: seq<Group>, plan: seq<PlanCell>)
    requires Contents(groups, plan)
    ensures forall i :: 0 <= i < |groups| ==>
              forall c <- groups[i].cells :: c.bucket == groups[i].bucket && c.backend == groups[i].backend
  {
    forall i | 0 <= i < |groups|
      ensures forall c <- groups[i].cells :: c.bucket == groups[i].bucket && c.backend == groups[i].backend
    {
      CellsOfKeyed(plan, groups[i].bucket, groups[i].backend);
    }
  }
}
