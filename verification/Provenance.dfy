/**
The scorecard provenance checker: it re-derives every parity verdict from its two
operand hashes and binds each run's counts and population identity to the rows present.
*/
module Provenance {
  import opened Text
  import opened Sheets
  import opened Population

  /** What `json.loads` yields for a profile: an item that is neither text nor a number is `OtherItem`. */
  datatype Item = TextItem(text: string) | NumberItem(number: int) | OtherItem

  datatype Loaded = NotObject | Object(comparison: Option<seq<Item>>, collector: Option<seq<Item>>)

  /** The one parity column of a sheet and what a claim in it must say. */
  datatype Contract = Contract(column: string, comparator: string, tier: string, toolCount: bool)

  /** `runId` is empty when no `--run-id` was given; `toolCount` is `--observable tool-count`. */
  datatype Request = Request(runId: string, toolCount: bool, aggregate: bool)

  /** Everything the checker reads of one row: stripped texts, the parsed counts, the raw run id and profile. */
  datatype Facts = Facts(
    runId: string, run: string, runUtc: string, verdict: string, hermit: string, reverie: string, dirty: string,
    candidate: string, reference: string, comparator: string, tier: string, profile: string, population: string,
    selectedText: string, executedText: string, evidenceText: string,
    selected: Option<nat>, executed: Option<nat>, evidence: Option<nat>, key: Key)

  datatype Member = Member(line: nat, facts: Facts)

  /** The conditions that must be one-valued within a run. */
  datatype Condition = RunUtc | HermitSha | ReverieSha | PopulationText | SelectedCount | ExecutedCount | EvidenceCount

  datatype RowDefect =
    | BadHermitSha | BadReverieSha | DirtyState | BadCandidate | BadReference | WrongComparator | WrongTier
    | ProfileShape | ArgvMalformed | ArgvNotStrict | NoRepetitions | BadPopulation | CountsMalformed
    | CountsInvalid | IdentityIncomplete | VerdictMismatch

  datatype RunDefect =
    | BlankRun | Missing(condition: Condition) | Mixed(condition: Condition) | RunHermitSha(line: nat)
    | RunReverieSha(line: nat) | RunDirty(line: nat) | SelectedMismatch | EvidenceMismatch | PopulationMismatch

  datatype Defect = InRow(line: nat, what: RowDefect) | InRun(run: string, why: RunDefect)

  datatype Verdict = Verdict(exit: int, defects: seq<Defect>, claims: nat, rederived: nat)

  // ------------------------------------------------------------------- reading rows

  function Field(row: Row, column: string): (v: string) {
    Strip(Get(row, column))
  }

  function NonNegative(n: Option<int>): (r: Option<nat>) {
    if n.Some? && n.value >= 0 then Some(n.value) else None
  }

  function PositiveInt(raw: string): (r: Option<nat>) {
    NonNegative(ParseInt(raw))
  }

  function RowKey(row: Row): (key: Key)
    ensures |key| == 7
  {
    StripKey([Get(row, "run_mode"), Get(row, "lane"), Get(row, "bucket"), Get(row, "test_id"), Get(row, "test_mode"),
              Get(row, "backend"), Get(row, "cell_state")])
  }

  function FactsOf(row: Row, column: string): (f: Facts) {
    Facts(Get(row, "run_id"), Field(row, "run_id"), Field(row, "run_utc"), Field(row, column), Field(row, "hermit_sha"),
          Field(row, "reverie_sha"), Field(row, "dirty"), Field(row, "output_hash"), Field(row, "ref_output_hash"),
          Field(row, "parity_comparator"), Field(row, "parity_tier"), Get(row, "profile_flags"),
          Field(row, "population_id"), Field(row, "selected_count"), Field(row, "executed_count"),
          Field(row, "evidence_count"), PositiveInt(Get(row, "selected_count")),
          PositiveInt(Get(row, "executed_count")), PositiveInt(Get(row, "evidence_count")), RowKey(row))
  }

  function SheetFacts(sheet: Sheet, column: string): (rows: seq<Facts>)
    ensures |rows| == |sheet.records|
    ensures forall i :: 0 <= i < |rows| ==> rows[i] == FactsOf(DictRow(sheet.header, sheet.records[i]), column)
  {
    seq(|sheet.records|, i requires 0 <= i < |sheet.records| =>
                           FactsOf(DictRow(sheet.header, sheet.records[i]), column))
  }

  // ------------------------------------------------------------------- one row

  predicate IsPopulationId(s: string) {
    |s| == 71 && s[..7] == "sha256:" && LowerHex(s[7..], 64)
  }

  predicate CleanText(s: string) {
    Lower(s) == "false" || s == "0"
  }

  predicate IsClaim(f: Facts) {
    f.verdict == "0" || f.verdict == "1"
  }

  predicate HasOperands(f: Facts) {
    LowerHex(f.candidate, 64) && LowerHex(f.reference, 64)
  }

  predicate Rederives(f: Facts) {
    HasOperands(f) && f.verdict == (if f.candidate == f.reference then "1" else "0")
  }

  function ItemInt(item: Item): (r: Option<nat>) {
    match item
    case TextItem(text) => PositiveInt(text)
    case NumberItem(number) => NonNegative(Some(number))
    case OtherItem => None
  }

  predicate HasArgv(loaded: Loaded) {
    loaded.Object? && loaded.comparison.Some?
  }

  predicate TextArgv(loaded: Loaded) {
    HasArgv(loaded) && loaded.comparison.value != [] && forall i <- loaded.comparison.value :: i.TextItem?
  }

  predicate Repeats(loaded: Loaded) {
    && loaded.Object? && loaded.collector.Some? && |loaded.collector.value| == 2
    && loaded.collector.value[0] == TextItem("--reps")
    && ItemInt(loaded.collector.value[1]).Some? && ItemInt(loaded.collector.value[1]) != Some(0)
  }

  predicate CountsParse(f: Facts) {
    f.selected.Some? && f.executed.Some? && f.evidence.Some?
  }

  predicate CountsOrdered(f: Facts)
    requires CountsParse(f)
  {
    0 < f.evidence.value <= f.executed.value <= f.selected.value
  }

  const ROW_CHECKS: seq<RowDefect> := [
    BadHermitSha, BadReverieSha, DirtyState, BadCandidate, BadReference, WrongComparator, WrongTier, ProfileShape,
    ArgvMalformed, ArgvNotStrict, NoRepetitions, BadPopulation, CountsMalformed, CountsInvalid,
    IdentityIncomplete, VerdictMismatch
  ]

  /** Whether the row loop reports this defect of a claiming row. */
  predicate Reports(d: RowDefect, f: Facts, c: Contract, loads: string -> Loaded) {
    var loaded := loads(f.profile);
    match d
    case BadHermitSha => !LowerHex(f.hermit, 40)
    case BadReverieSha => !LowerHex(f.reverie, 40)
    case DirtyState => !CleanText(f.dirty)
    case BadCandidate => !LowerHex(f.candidate, 64)
    case BadReference => !LowerHex(f.reference, 64)
    case WrongComparator => f.comparator != c.comparator
    case WrongTier => f.tier != c.tier
    case ProfileShape => !HasArgv(loaded)
    case ArgvMalformed => HasArgv(loaded) && !TextArgv(loaded)
    case ArgvNotStrict => TextArgv(loaded) && !c.toolCount && TextItem("--strict") !in loaded.comparison.value
    case NoRepetitions => TextArgv(loaded) && c.toolCount && !Repeats(loaded)
    case BadPopulation => !IsPopulationId(f.population)
    case CountsMalformed => !CountsParse(f)
    case CountsInvalid => CountsParse(f) && !CountsOrdered(f)
    case IdentityIncomplete => f.run == "" || f.runUtc == ""
    case VerdictMismatch => HasOperands(f) && !Rederives(f)
  }

  function Failing(checks: seq<RowDefect>, f: Facts, c: Contract, loads: string -> Loaded): (d: seq<RowDefect>) {
    if checks == [] then []
    else (if Reports(checks[0], f, c, loads) then [checks[0]] else []) + Failing(checks[1..], f, c, loads)
  }

  /** Everything the row loop reports about one row, in its order; nothing unless the row claims. */
  function RowDefects(line: nat, f: Facts, c: Contract, loads: string -> Loaded): (d: seq<Defect>) {
    var found := if IsClaim(f) then Failing(ROW_CHECKS, f, c, loads) else [];
    seq(|found|, i requires 0 <= i < |found| => InRow(line, found[i]))
  }

  // ------------------------------------------------------------------- one run

  function ClaimsIn(members: seq<Member>): (n: nat) {
    if members == [] then 0
    else ClaimsIn(members[..|members| - 1]) + (if IsClaim(members[|members| - 1].facts) then 1 else 0)
  }

  function MemberKeys(members: seq<Member>): (keys: seq<Key>)
    ensures |keys| == |members|
    ensures forall i :: 0 <= i < |members| ==> keys[i] == members[i].facts.key
  {
    seq(|members|, i requires 0 <= i < |members| => members[i].facts.key)
  }

  const CONDITIONS: seq<Condition> :=
    [RunUtc, HermitSha, ReverieSha, PopulationText, SelectedCount, ExecutedCount, EvidenceCount]

  function Valued(f: Facts, condition: Condition): (v: string) {
    match condition
    case RunUtc => f.runUtc
    case HermitSha => f.hermit
    case ReverieSha => f.reverie
    case PopulationText => f.population
    case SelectedCount => f.selectedText
    case ExecutedCount => f.executedText
    case EvidenceCount => f.evidenceText
  }

  function Values(members: seq<Member>, condition: Condition): (values: set<string>) {
    set m <- members :: Valued(m.facts, condition)
  }

  function ConditionDefects(members: seq<Member>, condition: Condition): (d: seq<RunDefect>) {
    var values := Values(members, condition);
    (if "" in values then [Missing(condition)] else []) + (if |values| > 1 then [Mixed(condition)] else [])
  }

  function ConditionsDefects(members: seq<Member>, conditions: seq<Condition>): (d: seq<RunDefect>) {
    if conditions == [] then []
    else ConditionDefects(members, conditions[0]) + ConditionsDefects(members, conditions[1..])
  }

  function MemberDefects(m: Member): (d: seq<RunDefect>) {
    (if LowerHex(m.facts.hermit, 40) then [] else [RunHermitSha(m.line)])
    + (if LowerHex(m.facts.reverie, 40) then [] else [RunReverieSha(m.line)])
    + (if CleanText(m.facts.dirty) then [] else [RunDirty(m.line)])
  }

  function MembersDefects(members: seq<Member>): (d: seq<RunDefect>) {
    if members == [] then [] else MemberDefects(members[0]) + MembersDefects(members[1..])
  }

  function BindingDefects(members: seq<Member>, sha: string -> string): (d: seq<RunDefect>)
    requires members != []
  {
    var first := members[0].facts;
    (if first.selected == Some(|members|) then [] else [SelectedMismatch])
    + (if first.evidence == Some(ClaimsIn(members)) then [] else [EvidenceMismatch])
    + (if first.population == PopulationId(sha, MemberKeys(members)) then [] else [PopulationMismatch])
  }

  function RunDefects(run: string, members: seq<Member>, sha: string -> string): (d: seq<Defect>)
    requires members != []
  {
    var found :=
      if ClaimsIn(members) == 0 then []
      else if run == "" then [BlankRun]
      else ConditionsDefects(members, CONDITIONS) + MembersDefects(members) + BindingDefects(members, sha);
    seq(|found|, i requires 0 <= i < |found| => InRun(run, found[i]))
  }

  // ------------------------------------------------------------------- the loops

  /** The members of a run, in file order, numbered from line 2. */
  function Members(rows: seq<Facts>, run: string): (members: seq<Member>) {
    if rows == [] then []
    else
      var n := |rows| - 1;
      Members(rows[..n], run) + (if rows[n].run == run then [Member(n + 2, rows[n])] else [])
  }

  /** Run identities in order of first appearance. */
  function RunOrder(rows: seq<Facts>): (order: seq<string>) {
    if rows == [] then []
    else
      var order, run := RunOrder(rows[..|rows| - 1]), rows[|rows| - 1].run;
      if run in order then order else order + [run]
  }

  function Claims(rows: seq<Facts>): (n: nat) {
    if rows == [] then 0 else Claims(rows[..|rows| - 1]) + (if IsClaim(rows[|rows| - 1]) then 1 else 0)
  }

  function Rederived(rows: seq<Facts>): (n: nat) {
    if rows == [] then 0
    else
      var f := rows[|rows| - 1];
      Rederived(rows[..|rows| - 1]) + (if IsClaim(f) && Rederives(f) then 1 else 0)
  }

  function AllRowDefects(rows: seq<Facts>, c: Contract, loads: string -> Loaded): (d: seq<Defect>) {
    if rows == [] then []
    else
      var n := |rows| - 1;
      AllRowDefects(rows[..n], c, loads) + RowDefects(n + 2, rows[n], c, loads)
  }

  lemma {:induction false} MembersPresent(rows: seq<Facts>, run: string)
    ensures run in RunOrder(rows) <==> Members(rows, run) != []
  {
    if rows != [] {
      MembersPresent(rows[..|rows| - 1], run);
    }
  }

  function AllRunDefects(rows: seq<Facts>, runs: seq<string>, sha: string -> string): (d: seq<Defect>)
    requires forall r <- runs :: Members(rows, r) != []
  {
    if runs == [] then []
    else
      var n := |runs| - 1;
      AllRunDefects(rows, runs[..n], sha) + RunDefects(runs[n], Members(rows, runs[n]), sha)
  }

  lemma {:induction false} RunsPresent(rows: seq<Facts>)
    ensures forall r <- RunOrder(rows) :: Members(rows, r) != []
  {
    forall r <- RunOrder(rows) ensures Members(rows, r) != [] {
      MembersPresent(rows, r);
    }
  }

  /** Every defect of a scope: the rows' first, then the runs'. */
  function AllDefects(rows: seq<Facts>, c: Contract, loads: string -> Loaded, sha: string -> string): (d: seq<Defect>) {
    RunsPresent(rows);
    AllRowDefects(rows, c, loads) + AllRunDefects(rows, RunOrder(rows), sha)
  }

  // ------------------------------------------------------------------- the command

  const PROVENANCE_COLUMNS: seq<string> := [
    "ref_output_hash", "parity_comparator", "parity_tier", "profile_flags", "population_id", "selected_count",
    "executed_count", "evidence_count"
  ]

  const STDOUT_COMPARATOR := "stdout-sha256-exact-v1"
  const STDOUT_TIER := "stdout-exact"
  const TOOL_COMPARATOR := "tool-count-sha256-exact-v1"
  const TOOL_TIER := "tool-count-exact"

  /** The contract of the sheet's single parity column, or nothing when there is none or more than one. */
  function ContractFor(header: seq<string>, toolCount: bool): (c: Option<Contract>)
    ensures c.Some? ==> c.value.column in header
  {
    var s, t, p := "stdout_parity" in header, "tool_count_parity" in header, "parity" in header;
    if s && !t && !p then Some(Contract("stdout_parity", STDOUT_COMPARATOR, STDOUT_TIER, false))
    else if t && !s && !p then Some(Contract("tool_count_parity", TOOL_COMPARATOR, TOOL_TIER, true))
    else if p && !s && !t then
      Some(if toolCount then Contract("parity", TOOL_COMPARATOR, TOOL_TIER, true)
           else Contract("parity", STDOUT_COMPARATOR, STDOUT_TIER, false))
    else None
  }

  function Scope(rows: seq<Facts>, runId: string): (scoped: seq<Facts>) {
    if rows == [] then []
    else
      var last := rows[|rows| - 1];
      Scope(rows[..|rows| - 1], runId) + (if runId == "" || last.runId == runId then [last] else [])
  }

  function RunIds(rows: seq<Facts>): (ids: set<string>) {
    set f <- rows :: f.runId
  }

  /** The rows a request is about. */
  function Scoped(sheet: Sheet, request: Request): (rows: seq<Facts>)
    requires ContractFor(sheet.header, request.toolCount).Some?
  {
    Scope(SheetFacts(sheet, ContractFor(sheet.header, request.toolCount).value.column), request.runId)
  }

  /** The exit code of a request refused before any row is looked at. */
  function Precheck(sheet: Sheet, request: Request): (exit: Option<int>) {
    if sheet.records == [] then Some(2)
    else if exists r <- sheet.records :: |r| > |sheet.header| then Some(1)
    else if ContractFor(sheet.header, request.toolCount).None? then Some(1)
    else if exists c <- PROVENANCE_COLUMNS :: c !in sheet.header then Some(1)
    else if request.runId != "" && Scoped(sheet, request) == [] then Some(1)
    else if request.aggregate && |RunIds(Scoped(sheet, request))| != 1 then Some(1)
    else None
  }

  /** The run index after some rows: one bucket per run seen, holding that run's members. */
  ghost predicate Indexed(byRun: map<string, seq<Member>>, order: seq<string>, rows: seq<Facts>) {
    && order == RunOrder(rows)
    && (forall r :: r in byRun <==> r in order)
    && (forall r :: r in byRun ==> byRun[r] == Members(rows, r))
  }

  method AddMember(byRun: map<string, seq<Member>>, order: seq<string>, ghost rows: seq<Facts>, i: nat, f: Facts)
    returns (byRun': map<string, seq<Member>>, order': seq<string>)
    requires i < |rows| && rows[i] == f && Indexed(byRun, order, rows[..i])
    ensures Indexed(byRun', order', rows[..i + 1])
  {
    assert rows[..i + 1][..i] == rows[..i];
    MembersPresent(rows[..i], f.run);
    byRun', order' := byRun, order;
    if f.run !in byRun {
      order' := order' + [f.run];
      byRun' := byRun'[f.run := []];
    }
    byRun' := byRun'[f.run := byRun'[f.run] + [Member(i + 2, f)]];
  }

  lemma {:induction false} PrefixStep(rows: seq<Facts>, i: nat, c: Contract, loads: string -> Loaded)
    requires i < |rows|
    ensures AllRowDefects(rows[..i + 1], c, loads) == AllRowDefects(rows[..i], c, loads)
            + RowDefects(i + 2, rows[i], c, loads)
    ensures Claims(rows[..i + 1]) == Claims(rows[..i]) + (if IsClaim(rows[i]) then 1 else 0)
    ensures Rederived(rows[..i + 1]) == Rederived(rows[..i]) + (if IsClaim(rows[i]) && Rederives(rows[i]) then 1 else 0)
  {
    assert rows[..i + 1][..i] == rows[..i];
  }

  method CheckRows(rows: seq<Facts>, c: Contract, loads: string -> Loaded)
    returns (defects: seq<Defect>, byRun: map<string, seq<Member>>, order: seq<string>, claims: nat, rederived: nat)
    ensures defects == AllRowDefects(rows, c, loads)
    ensures Indexed(byRun, order, rows)
    ensures claims == Claims(rows) && rederived == Rederived(rows)
  {
    defects, byRun, order, claims, rederived := [], map[], [], 0, 0;
    for i := 0 to |rows|
      invariant defects == AllRowDefects(rows[..i], c, loads)
      invariant Indexed(byRun, order, rows[..i])
      invariant claims == Claims(rows[..i]) && rederived == Rederived(rows[..i])
    {
      var f := rows[i];
      byRun, order := AddMember(byRun, order, rows, i, f);
      PrefixStep(rows, i, c, loads);
      defects := defects + RowDefects(i + 2, f, c, loads);
      if IsClaim(f) {
        claims := claims + 1;
        if Rederives(f) {
          rederived := rederived + 1;
        }
      }
    }
    assert rows[..|rows|] == rows;
  }

  method CheckRuns(rows: seq<Facts>, byRun: map<string, seq<Member>>, order: seq<string>, sha: string -> string)
    returns (defects: seq<Defect>)
    requires forall r <- order :: r in byRun && byRun[r] == Members(rows, r) && Members(rows, r) != []
    ensures defects == AllRunDefects(rows, order, sha)
  {
    defects := [];
    for i := 0 to |order|
      invariant defects == AllRunDefects(rows, order[..i], sha)
    {
      assert order[..i + 1][..i] == order[..i];
      assert order[i] in order;
      defects := defects + RunDefects(order[i], byRun[order[i]], sha);
    }
    assert order[..|order|] == order;
  }

  /** The checker's exit status as a function of the sheet. */
  function ExitCode(sheet: Sheet, request: Request, loads: string -> Loaded, sha: string -> string): (exit: int) {
    var stop := Precheck(sheet, request);
    if stop.Some? then stop.value
    else if AllDefects(Scoped(sheet, request), ContractFor(sheet.header, request.toolCount).value, loads, sha) == []
        then 0
    else 1
  }

  method CheckScorecard(sheet: Sheet, request: Request, loads: string -> Loaded, sha: string -> string)
    returns (v: Verdict)
    ensures Precheck(sheet, request).Some? ==> v == Verdict(Precheck(sheet, request).value, [], 0, 0)
    ensures Precheck(sheet, request).None? ==>
              var rows := Scoped(sheet, request);
              var defects := AllDefects(rows, ContractFor(sheet.header, request.toolCount).value, loads, sha);
              v == Verdict(ExitCode(sheet, request, loads, sha), defects, Claims(rows), Rederived(rows))
  {
    var stop := Precheck(sheet, request);
    if stop.Some? {
      return Verdict(stop.value, [], 0, 0);
    }
    var rows := Scoped(sheet, request);
    var c := ContractFor(sheet.header, request.toolCount).value;
    var defects, byRun, order, claims, rederived := CheckRows(rows, c, loads);
    RunsPresent(rows);
    var runDefects := CheckRuns(rows, byRun, order, sha);
    defects := defects + runDefects;
    return Verdict(if defects == [] then 0 else 1, defects, claims, rederived);
  }

  // ------------------------------------------------- what an empty defect list means

  /** A claim that stands on its own operands, contract and conditions. */
  ghost predicate RowStands(f: Facts, c: Contract, loads: string -> Loaded) {
    var loaded := loads(f.profile);
    && LowerHex(f.hermit, 40) && LowerHex(f.reverie, 40) && CleanText(f.dirty)
    && Rederives(f)
    && f.comparator == c.comparator && f.tier == c.tier
    && TextArgv(loaded)
    && (if c.toolCount then Repeats(loaded) else TextItem("--strict") in loaded.comparison.value)
    && IsPopulationId(f.population)
    && CountsParse(f) && CountsOrdered(f)
    && f.run != "" && f.runUtc != ""
  }

  ghost predicate OneValued(members: seq<Member>, condition: Condition)
    requires members != []
  {
    forall m <- members :: Valued(m.facts, condition) == Valued(members[0].facts, condition) != ""
  }

  /** A run whose conditions are one-valued and whose counts and population are those of its rows. */
  ghost predicate RunStands(run: string, members: seq<Member>, sha: string -> string)
    requires members != []
  {
    ClaimsIn(members) == 0
    || (&& run != ""
        && (forall condition: Condition :: OneValued(members, condition))
        && (forall m <- members :: LowerHex(m.facts.hermit, 40) && LowerHex(m.facts.reverie, 40)
              && CleanText(m.facts.dirty))
        && members[0].facts.selected == Some(|members|)
        && members[0].facts.evidence == Some(ClaimsIn(members))
        && members[0].facts.population == PopulationId(sha, MemberKeys(members)))
  }

  lemma {:induction false} FailingExact(checks: seq<RowDefect>, f: Facts, c: Contract, loads: string -> Loaded)
    ensures Failing(checks, f, c, loads) == [] <==> forall d <- checks :: !Reports(d, f, c, loads)
  {
    if checks != [] {
      FailingExact(checks[1..], f, c, loads);
      assert checks == [checks[0]] + checks[1..];
    }
  }

  lemma {:induction false} EveryCheckListed(d: RowDefect)
    ensures d in ROW_CHECKS
  {
    match d
    case BadHermitSha => assert ROW_CHECKS[0] == d;
    case BadReverieSha => assert ROW_CHECKS[1] == d;
    case DirtyState => assert ROW_CHECKS[2] == d;
    case BadCandidate => assert ROW_CHECKS[3] == d;
    case BadReference => assert ROW_CHECKS[4] == d;
    case WrongComparator => assert ROW_CHECKS[5] == d;
    case WrongTier => assert ROW_CHECKS[6] == d;
    case ProfileShape => assert ROW_CHECKS[7] == d;
    case ArgvMalformed => assert ROW_CHECKS[8] == d;
    case ArgvNotStrict => assert ROW_CHECKS[9] == d;
    case NoRepetitions => assert ROW_CHECKS[10] == d;
    case BadPopulation => assert ROW_CHECKS[11] == d;
    case CountsMalformed => assert ROW_CHECKS[12] == d;
    case CountsInvalid => assert ROW_CHECKS[13] == d;
    case IdentityIncomplete => assert ROW_CHECKS[14] == d;
    case VerdictMismatch => assert ROW_CHECKS[15] == d;
  }

  lemma {:induction false} EveryConditionListed(condition: Condition)
    ensures condition in CONDITIONS
  {
    match condition
    case RunUtc => assert CONDITIONS[0] == condition;
    case HermitSha => assert CONDITIONS[1] == condition;
    case ReverieSha => assert CONDITIONS[2] == condition;
    case PopulationText => assert CONDITIONS[3] == condition;
    case SelectedCount => assert CONDITIONS[4] == condition;
    case ExecutedCount => assert CONDITIONS[5] == condition;
    case EvidenceCount => assert CONDITIONS[6] == condition;
  }

  lemma {:induction false} StandsUnreported(f: Facts, c: Contract, loads: string -> Loaded, d: RowDefect)
    requires RowStands(f, c, loads)
    ensures !Reports(d, f, c, loads)
  {
  }

  lemma {:induction false} UnreportedEvidence(f: Facts, c: Contract, loads: string -> Loaded)
    requires forall d: RowDefect :: !Reports(d, f, c, loads)
    ensures LowerHex(f.hermit, 40) && LowerHex(f.reverie, 40) && CleanText(f.dirty)
    ensures Rederives(f) && f.comparator == c.comparator && f.tier == c.tier
  {
    assert !Reports(BadHermitSha, f, c, loads) && !Reports(BadReverieSha, f, c, loads)
           && !Reports(DirtyState, f, c, loads);
    assert !Reports(BadCandidate, f, c, loads) && !Reports(BadReference, f, c, loads)
           && !Reports(VerdictMismatch, f, c, loads);
    assert !Reports(WrongComparator, f, c, loads) && !Reports(WrongTier, f, c, loads);
  }

  lemma {:induction false} UnreportedProfile(f: Facts, c: Contract, loads: string -> Loaded, loaded: Loaded)
    requires loaded == loads(f.profile) && forall d: RowDefect :: !Reports(d, f, c, loads)
    ensures TextArgv(loaded)
    ensures if c.toolCount then Repeats(loaded) else TextItem("--strict") in loaded.comparison.value
  {
    assert !Reports(ProfileShape, f, c, loads) && !Reports(ArgvMalformed, f, c, loads);
    assert !Reports(ArgvNotStrict, f, c, loads) && !Reports(NoRepetitions, f, c, loads);
  }

  lemma {:induction false} UnreportedStands(f: Facts, c: Contract, loads: string -> Loaded)
    requires forall d: RowDefect :: !Reports(d, f, c, loads)
    ensures RowStands(f, c, loads)
  {
    UnreportedEvidence(f, c, loads);
    UnreportedProfile(f, c, loads, loads(f.profile));
    assert !Reports(BadPopulation, f, c, loads) && !Reports(IdentityIncomplete, f, c, loads);
    assert !Reports(CountsMalformed, f, c, loads) && !Reports(CountsInvalid, f, c, loads);
  }

  lemma {:induction false} RowDefectsExact(line: nat, f: Facts, c: Contract, loads: string -> Loaded)
    ensures RowDefects(line, f, c, loads) == [] <==> (IsClaim(f) ==> RowStands(f, c, loads))
  {
    FailingExact(ROW_CHECKS, f, c, loads);
    forall d: RowDefect ensures d in ROW_CHECKS {
      EveryCheckListed(d);
    }
    if RowStands(f, c, loads) {
      forall d: RowDefect ensures !Reports(d, f, c, loads) {
        StandsUnreported(f, c, loads, d);
      }
    }
    if forall d: RowDefect :: !Reports(d, f, c, loads) {
      UnreportedStands(f, c, loads);
    }
  }

  lemma {:induction false} ConditionDefectsExact(members: seq<Member>, condition: Condition)
    requires members != []
    ensures ConditionDefects(members, condition) == [] <==> OneValued(members, condition)
  {
    var values := Values(members, condition);
    var first := Valued(members[0].facts, condition);
    assert members[0] in members;
    assert first in values;
    if |values| <= 1 {
      assert values == {first} by {
        if v :| v in values && v != first {
          SubsetSize({first, v}, values);
        }
      }
      forall m <- members ensures Valued(m.facts, condition) == first {
        assert Valued(m.facts, condition) in values;
      }
    } else {
      assert exists v :: v in values && v != first by {
        if forall v :: v in values ==> v == first {
          SubsetSize(values, {first});
        }
      }
    }
  }

  lemma {:induction false} ConditionsDefectsExact(members: seq<Member>, conditions: seq<Condition>)
    requires members != []
    ensures ConditionsDefects(members, conditions) == []
            <==> forall condition <- conditions :: OneValued(members, condition)
  {
    if conditions != [] {
      ConditionDefectsExact(members, conditions[0]);
      ConditionsDefectsExact(members, conditions[1..]);
      assert conditions == [conditions[0]] + conditions[1..];
    }
  }

  lemma {:induction false} MembersDefectsExact(members: seq<Member>)
    ensures MembersDefects(members) == [] <==>
            forall m <- members :: LowerHex(m.facts.hermit, 40) && LowerHex(m.facts.reverie, 40)
                && CleanText(m.facts.dirty)
  {
    if members != [] {
      MembersDefectsExact(members[1..]);
      assert members == [members[0]] + members[1..];
    }
  }

  lemma {:induction false} RunDefectsExact(run: string, members: seq<Member>, sha: string -> string)
    requires members != []
    ensures RunDefects(run, members, sha) == [] <==> RunStands(run, members, sha)
  {
    ConditionsDefectsExact(members, CONDITIONS);
    forall condition: Condition ensures condition in CONDITIONS {
      EveryConditionListed(condition);
    }
    MembersDefectsExact(members);
  }

  lemma {:induction false} AllRowDefectsExact(rows: seq<Facts>, c: Contract, loads: string -> Loaded)
    ensures AllRowDefects(rows, c, loads) == [] <==> forall f <- rows :: IsClaim(f) ==> RowStands(f, c, loads)
  {
    if rows != [] {
      var n := |rows| - 1;
      AllRowDefectsExact(rows[..n], c, loads);
      RowDefectsExact(n + 2, rows[n], c, loads);
      assert rows == rows[..n] + [rows[n]];
    }
  }

  lemma {:induction false} AllRunDefectsExact(rows: seq<Facts>, runs: seq<string>, sha: string -> string)
    requires forall r <- runs :: Members(rows, r) != []
    ensures AllRunDefects(rows, runs, sha) == [] <==> forall r <- runs :: RunStands(r, Members(rows, r), sha)
  {
    if runs != [] {
      var n := |runs| - 1;
      AllRunDefectsExact(rows, runs[..n], sha);
      RunDefectsExact(runs[n], Members(rows, runs[n]), sha);
      assert runs == runs[..n] + [runs[n]];
    }
  }

  /** Passing the row and run checks means exactly: every claim stands, and every run stands. */
  lemma {:induction false} AllDefectsExact(rows: seq<Facts>, c: Contract, loads: string -> Loaded,
                                           sha: string -> string)
    ensures AllDefects(rows, c, loads, sha) == [] <==>
            && (forall f <- rows :: IsClaim(f) ==> RowStands(f, c, loads))
            && (forall run <- RunOrder(rows) :: Members(rows, run) != [] && RunStands(run, Members(rows, run), sha))
  {
    RunsPresent(rows);
    AllRowDefectsExact(rows, c, loads);
    AllRunDefectsExact(rows, RunOrder(rows), sha);
  }

  lemma {:induction false} AllRederived(rows: seq<Facts>)
    requires forall f <- rows :: IsClaim(f) ==> Rederives(f)
    ensures Rederived(rows) == Claims(rows)
  {
    if rows != [] {
      AllRederived(rows[..|rows| - 1]);
      assert rows[|rows| - 1] in rows;
    }
  }

  lemma {:induction false} RunSound(rows: seq<Facts>, run: string, sha: string -> string)
    requires Members(rows, run) != [] && RunStands(run, Members(rows, run), sha) && ClaimsIn(Members(rows, run)) > 0
    ensures Members(rows, run)[0].facts.selected == Some(|Members(rows, run)|)
    ensures Members(rows, run)[0].facts.evidence == Some(ClaimsIn(Members(rows, run)))
    ensures forall m <- Members(rows, run) :: m.facts.population == PopulationId(sha, MemberKeys(Members(rows, run)))
  {
    assert OneValued(Members(rows, run), PopulationText);
  }

  /** Each claiming run states the counts and the population of the rows present. */
  ghost predicate RunBound(rows: seq<Facts>, run: string, sha: string -> string) {
    var members := Members(rows, run);
    ClaimsIn(members) > 0 ==>
      && members != []
      && members[0].facts.selected == Some(|members|)
      && members[0].facts.evidence == Some(ClaimsIn(members))
      && forall m <- members :: m.facts.population == PopulationId(sha, MemberKeys(members))
  }

  lemma {:induction false} DefectFreeSound(rows: seq<Facts>, c: Contract, loads: string -> Loaded,
                                           sha: string -> string)
    requires AllDefects(rows, c, loads, sha) == []
    ensures forall f <- rows :: IsClaim(f) ==> (f.verdict == "1" <==> f.candidate == f.reference)
    ensures Rederived(rows) == Claims(rows)
    ensures forall run <- RunOrder(rows) :: RunBound(rows, run, sha)
  {
    AllDefectsExact(rows, c, loads, sha);
    AllRederived(rows);
    forall run <- RunOrder(rows) ensures RunBound(rows, run, sha) {
      if ClaimsIn(Members(rows, run)) > 0 {
        RunSound(rows, run, sha);
      }
    }
  }

  /** What exit 0 guarantees a reader: each 0/1 verdict is the equality of its two recorded hashes, all claims
      were re-derived, and in each claiming run the counts and the population are those of the rows present. */
  lemma {:induction false} CheckerSound(sheet: Sheet, request: Request, loads: string -> Loaded, sha: string -> string,
                                        rows: seq<Facts>)
    requires ExitCode(sheet, request, loads, sha) == 0
    requires ContractFor(sheet.header, request.toolCount).Some? ==> rows == Scoped(sheet, request)
    ensures ContractFor(sheet.header, request.toolCount).Some?
    ensures forall f <- rows :: IsClaim(f) ==> (f.verdict == "1" <==> f.candidate == f.reference)
    ensures Rederived(rows) == Claims(rows)
    ensures forall run <- RunOrder(rows) :: RunBound(rows, run, sha)
  {
    DefectFreeSound(rows, ContractFor(sheet.header, request.toolCount).value, loads, sha);
  }
}
