/**
Evidence behind a comparison-tier claim, the spot-check cadence, and the debt register that may
only shrink.
*/
module TierEvidence {
  import opened Text
  import opened Sheets

  const TIER := "comparison_tier"
  const FULL := "full-stdout-info-stack-heap"
  const SPOT_CHECK := "stdout-info-stack-heap-spot-check"

  predicate Qualifying(tier: string) {
    tier == FULL || tier == SPOT_CHECK
  }

  datatype Component = Stdout | InfoLog | Stack | Heap

  const COMPONENTS := [Stdout, InfoLog, Stack, Heap]

  /** A row's evidence cell: its column may be missing from the header altogether. */
  datatype Cell = NoColumn | Cell(text: string)

  datatype LedgerKey = LedgerKey(testId: string, testMode: string, backend: string)

  /** What the check reads of one row. */
  datatype Claim = Claim(tier: string, stdout: Cell, infoLog: Cell, stack: Cell, heap: Cell, key: LedgerKey) {
    function Evidence(c: Component): (cell: Cell) {
      match c
      case Stdout => stdout
      case InfoLog => infoLog
      case Stack => stack
      case Heap => heap
    }
  }

  datatype Receipt = Receipt(hermitSha: string, spotCheckUtc: string)

  /** The ledger, the cadence, and how a timestamp reads; instants are microseconds. */
  datatype Policy = Policy(ledger: map<LedgerKey, Receipt>, cadenceDays: int, parse: string -> Option<int>)

  function CellOf(header: seq<string>, row: Row, column: string): (c: Cell) {
    if column in header then Cell(Strip(Get(row, column))) else NoColumn
  }

  function ClaimOf(header: seq<string>, row: Row): (c: Claim) {
    Claim(Strip(Get(row, TIER)), CellOf(header, row, "stdout_parity"), CellOf(header, row, "compared_log_messages"),
          CellOf(header, row, "stack_parity"), CellOf(header, row, "heap_parity"),
          LedgerKey(Get(row, "test_id"), Get(row, "test_mode"), Get(row, "backend")))
  }

  // ----------------------------------------------------------------- evidence

  datatype AgeState = Current | Stale | Never

  const MICROS_PER_DAY := 86_400_000_000

  function AgeOf(utc: string, p: Policy, now: int): (s: AgeState) {
    var when := if Strip(utc) == "" then None else p.parse(utc);
    if when.None? then Never
    else if now - when.value <= p.cadenceDays * MICROS_PER_DAY then Current
    else Stale
  }

  predicate DirtySha(sha: string) {
    Strip(sha) == "" || Contains(Lower(Strip(sha)), "dirty")
  }

  predicate BlankCell(text: string) {
    Lower(text) in ["", "-", "n/a", "none", "null"]
  }

  datatype Reason =
    | CannotExpress(component: Component)
    | MissingValue(component: Component)
    | EmptyComparison(component: Component)
    | NoReceipt
    | DirtyReceipt
    | NotCurrent(state: AgeState)

  function RowFault(c: Claim, component: Component): (why: Option<Reason>) {
    match c.Evidence(component)
    case NoColumn => Some(CannotExpress(component))
    case Cell(text) =>
      if BlankCell(text) then Some(MissingValue(component))
      else if component.InfoLog? && text in ["0|0", "0/0", "0"] then Some(EmptyComparison(component))
      else None
  }

  /** Dirtiness is tested before age. */
  function LedgerFault(c: Claim, p: Policy, now: int): (why: Option<Reason>) {
    if c.key !in p.ledger then Some(NoReceipt)
    else if DirtySha(p.ledger[c.key].hermitSha) then Some(DirtyReceipt)
    else
      var state := AgeOf(p.ledger[c.key].spotCheckUtc, p, now);
      if state.Current? then None else Some(NotCurrent(state))
  }

  /** Whether a tier checks this component against the ledger instead of the row. */
  predicate Cadenced(tier: string, component: Component) {
    tier == SPOT_CHECK && (component.Stack? || component.Heap?)
  }

  function Fault(c: Claim, component: Component, p: Policy, now: int): (why: Option<Reason>) {
    if Cadenced(c.tier, component) then LedgerFault(c, p, now) else RowFault(c, component)
  }

  /** The reasons found over a list of components; a repeated ledger reason is listed once. */
  function Reasons(c: Claim, components: seq<Component>, p: Policy, now: int): (r: seq<Reason>) {
    if components == [] then []
    else
      var n := |components| - 1;
      var prior, why := Reasons(c, components[..n], p, now), Fault(c, components[n], p, now);
      if why.None? || (Cadenced(c.tier, components[n]) && why.value in prior) then prior else prior + [why.value]
  }

  /** Only a qualifying claim can lack evidence. */
  function ClaimReasons(c: Claim, p: Policy, now: int): (r: seq<Reason>) {
    if Qualifying(c.tier) then Reasons(c, COMPONENTS, p, now) else []
  }

  method CheckRow(c: Claim, p: Policy, now: int) returns (reasons: seq<Reason>)
    ensures reasons == ClaimReasons(c, p, now)
  {
    reasons := [];
    if !Qualifying(c.tier) {
      return;
    }
    for i := 0 to |COMPONENTS|
      invariant reasons == Reasons(c, COMPONENTS[..i], p, now)
    {
      assert COMPONENTS[..i + 1][..i] == COMPONENTS[..i];
      var component := COMPONENTS[i];
      if Cadenced(c.tier, component) {
        var why := LedgerFault(c, p, now);
        if why.Some? && why.value !in reasons {
          reasons := reasons + [why.value];
        }
      } else {
        var why := RowFault(c, component);
        if why.Some? {
          reasons := reasons + [why.value];
        }
      }
    }
    assert COMPONENTS[..|COMPONENTS|] == COMPONENTS;
  }

  // -------------------------------------------------- what a claim must carry

  /** A nonblank cell that did not compare nothing. */
  ghost predicate Measured(c: Claim, component: Component) {
    var cell := c.Evidence(component);
    cell.Cell? && !BlankCell(cell.text) && (component.InfoLog? ==> cell.text !in ["0|0", "0/0", "0"])
  }

  /** A clean receipt no older than the cadence. */
  ghost predicate Receipted(c: Claim, p: Policy, now: int) {
    && c.key in p.ledger
    && !DirtySha(p.ledger[c.key].hermitSha)
    && AgeOf(p.ledger[c.key].spotCheckUtc, p, now).Current?
  }

  ghost predicate Supported(c: Claim, p: Policy, now: int) {
    && Measured(c, Stdout)
    && Measured(c, InfoLog)
    && (if c.tier == SPOT_CHECK then Receipted(c, p, now) else Measured(c, Stack) && Measured(c, Heap))
  }

  lemma {:induction false} ReasonsIff(c: Claim, components: seq<Component>, p: Policy, now: int)
    ensures Reasons(c, components, p, now) == [] <==> forall x <- components :: Fault(c, x, p, now).None?
  {
    if components != [] {
      var n := |components| - 1;
      ReasonsIff(c, components[..n], p, now);
      assert components == components[..n] + [components[n]];
    }
  }

  lemma {:induction false} TiersDiffer()
    ensures FULL != SPOT_CHECK
  {
    assert FULL[0] == 'f' && SPOT_CHECK[0] == 's';
  }

  /** A qualifying claim draws no reason exactly when every component it names is evidenced. */
  lemma {:induction false} ReasonsExact(c: Claim, p: Policy, now: int)
    requires Qualifying(c.tier)
    ensures Reasons(c, COMPONENTS, p, now) == [] <==> Supported(c, p, now)
  {
    ReasonsIff(c, COMPONENTS, p, now);
    TiersDiffer();
    assert Stdout in COMPONENTS && InfoLog in COMPONENTS && Stack in COMPONENTS && Heap in COMPONENTS by {
      assert COMPONENTS[0] == Stdout && COMPONENTS[1] == InfoLog && COMPONENTS[2] == Stack && COMPONENTS[3] == Heap;
    }
  }

  ghost predicate Unevidenced(c: Claim, p: Policy, now: int) {
    Qualifying(c.tier) && !Supported(c, p, now)
  }

  lemma {:induction false} ClaimReasonsExact(c: Claim, p: Policy, now: int)
    ensures ClaimReasons(c, p, now) != [] <==> Unevidenced(c, p, now)
  {
    if Qualifying(c.tier) {
      ReasonsExact(c, p, now);
    }
  }

  /** As time passes over a fixed ledger, evidence is only lost. */
  lemma {:induction false} EvidenceExpires(c: Claim, p: Policy, earlier: int, later: int)
    requires earlier <= later && Unevidenced(c, p, earlier)
    ensures Unevidenced(c, p, later)
  {
    if c.tier == SPOT_CHECK && c.key in p.ledger {
      var utc := p.ledger[c.key].spotCheckUtc;
      assert AgeOf(utc, p, later).Current? ==> AgeOf(utc, p, earlier).Current?;
    }
  }

  // ---------------------------------------------------------------- the check

  datatype File = File(name: string, sheet: Sheet)

  /** A row as the check meets it: where it is, what its claim is called, what it carries. */
  datatype Entry = Entry(file: string, line: nat, identity: string, claim: Claim)

  function ClaimIdentity(file: string, row: Row): (id: string) {
    JoinWith([file, Strip(Get(row, "test_id")), Strip(Get(row, "test_mode")), Strip(Get(row, "backend")),
              Strip(Get(row, TIER))], '|')
  }

  function EntryOf(file: File, i: nat): (e: Entry)
    requires i < |file.sheet.records|
  {
    var row := DictRow(file.sheet.header, file.sheet.records[i]);
    Entry(file.name, i + 2, ClaimIdentity(file.name, row), ClaimOf(file.sheet.header, row))
  }

  function FileEntries(file: File): (r: seq<Entry>)
    ensures |r| == |file.sheet.records| && forall i :: 0 <= i < |r| ==> r[i] == EntryOf(file, i)
  {
    seq(|file.sheet.records|, i requires 0 <= i < |file.sheet.records| => EntryOf(file, i))
  }

  function Entries(files: seq<File>): (r: seq<Entry>) {
    if files == [] then [] else Entries(files[..|files| - 1]) + FileEntries(files[|files| - 1])
  }

  datatype Violation = Violation(entry: Entry, reasons: seq<Reason>)

  datatype Report = Report(rows: nat, claims: nat, upheld: nat, violations: seq<Violation>, registered: seq<Violation>,
                           seen: set<string>, upheldIds: set<string>)

  const BLANK_REPORT := Report(0, 0, 0, [], [], {}, {})

  function Tally(r: Report, e: Entry, reasons: seq<Reason>, register: Option<map<string, string>>): (t: Report) {
    var counted := r.(rows := r.rows + 1);
    if !Qualifying(e.claim.tier) then counted
    else if reasons == [] then counted.(claims := r.claims + 1, upheld := r.upheld + 1, upheldIds := r.upheldIds
        + {e.identity})
    else if register.Some? && e.identity in register.value then
      counted.(claims := r.claims + 1, registered := r.registered + [Violation(e, reasons)], seen := r.seen
          + {e.identity})
    else counted.(claims := r.claims + 1, violations := r.violations + [Violation(e, reasons)])
  }

  ghost predicate Owes(entries: seq<Entry>, p: Policy, now: int, identity: string) {
    exists e <- entries :: e.identity == identity && Unevidenced(e.claim, p, now)
  }

  ghost predicate InRegister(register: Option<map<string, string>>, identity: string) {
    register.Some? && identity in register.value
  }

  function ClaimCount(entries: seq<Entry>): (n: nat) {
    if entries == [] then 0
    else ClaimCount(entries[..|entries| - 1]) + (if Qualifying(entries[|entries| - 1].claim.tier) then 1 else 0)
  }

  /** How many qualifying claims stand. */
  ghost function StandingCount(entries: seq<Entry>, p: Policy, now: int): (n: nat) {
    if entries == [] then 0
    else
      var claim := entries[|entries| - 1].claim;
      StandingCount(entries[..|entries| - 1], p, now)
          + (if Qualifying(claim.tier) && Supported(claim, p, now) then 1 else 0)
  }

  /** The unevidenced claims in order, with their reasons: those the register accounts for, or the others. */
  ghost function Listed(entries: seq<Entry>, register: Option<map<string, string>>, p: Policy, now: int, entered: bool)
    : (r: seq<Violation>)
  {
    if entries == [] then []
    else
      var e := entries[|entries| - 1];
      Listed(entries[..|entries| - 1], register, p, now, entered)
      + (if Unevidenced(e.claim, p, now) && InRegister(register, e.identity) == entered
         then [Violation(e, ClaimReasons(e.claim, p, now))] else [])
  }

  /** What the report so far says about the entries met so far. */
  ghost predicate Accounts(r: Report, entries: seq<Entry>, register: Option<map<string, string>>, p: Policy, now: int) {
    && r.rows == |entries| && r.claims == ClaimCount(entries) && r.upheld == StandingCount(entries, p, now)
    && r.registered == Listed(entries, register, p, now, true)
    && r.violations == Listed(entries, register, p, now, false)
    && (forall id :: id in r.seen <==> Owes(entries, p, now, id) && InRegister(register, id))
  }

  lemma {:induction false} OwesGrows(entries: seq<Entry>, e: Entry, p: Policy, now: int, id: string)
    ensures Owes(entries + [e], p, now, id) <==> Owes(entries, p, now, id)
                                                   || (e.identity == id && Unevidenced(e.claim, p, now))
  {
    assert forall x :: x in entries + [e] <==> x in entries || x == e;
  }

  lemma {:induction false} CountsGrow(entries: seq<Entry>, e: Entry, p: Policy, now: int)
    ensures ClaimCount(entries + [e]) == ClaimCount(entries) + if Qualifying(e.claim.tier) then 1 else 0
    ensures StandingCount(entries + [e], p, now)
            == StandingCount(entries, p, now) + if Qualifying(e.claim.tier) && Supported(e.claim, p, now) then 1 else 0
  {
    assert (entries + [e])[..|entries|] == entries;
  }

  lemma {:induction false} ListedGrows(entries: seq<Entry>, e: Entry, register: Option<map<string, string>>, p: Policy,
                                       now: int, entered: bool)
    ensures Listed(entries + [e], register, p, now, entered) ==
            Listed(entries, register, p, now, entered)
            + if Unevidenced(e.claim, p, now) && InRegister(register, e.identity) == entered
              then [Violation(e, ClaimReasons(e.claim, p, now))] else []
  {
    assert (entries + [e])[..|entries|] == entries;
  }

  lemma {:induction false} AccountsGrows(r: Report, entries: seq<Entry>, e: Entry, reasons: seq<Reason>,
                                         register: Option<map<string, string>>, p: Policy, now: int)
    requires Accounts(r, entries, register, p, now) && reasons == ClaimReasons(e.claim, p, now)
    ensures Accounts(Tally(r, e, reasons, register), entries + [e], register, p, now)
  {
    ClaimReasonsExact(e.claim, p, now);
    CountsGrow(entries, e, p, now);
    ListedGrows(entries, e, register, p, now, true);
    ListedGrows(entries, e, register, p, now, false);
    forall id ensures Owes(entries + [e], p, now, id)
        <==> Owes(entries, p, now, id) || (e.identity == id && Unevidenced(e.claim, p, now)) {
      OwesGrows(entries, e, p, now, id);
    }
  }

  /** Nothing is listed exactly when no such claim is owed. */
  lemma {:induction false} ListedEmptyIff(entries: seq<Entry>, register: Option<map<string, string>>, p: Policy,
                                          now: int)
    ensures Listed(entries, register, p, now, false) == []
            <==> forall id :: Owes(entries, p, now, id) ==> InRegister(register, id)
  {
    if entries != [] {
      var n := |entries| - 1;
      var e := entries[n];
      ListedEmptyIff(entries[..n], register, p, now);
      assert entries == entries[..n] + [e];
      forall id ensures Owes(entries, p, now, id)
          <==> Owes(entries[..n], p, now, id) || (e.identity == id && Unevidenced(e.claim, p, now)) {
        OwesGrows(entries[..n], e, p, now, id);
      }
      if Unevidenced(e.claim, p, now) {
        assert Owes(entries, p, now, e.identity);
      }
    }
  }

  /** Every qualifying claim is upheld, registered or a violation. */
  lemma {:induction false} ClaimsConserved(entries: seq<Entry>, register: Option<map<string, string>>, p: Policy,
                                           now: int)
    ensures ClaimCount(entries) == StandingCount(entries, p, now)
                                   + |Listed(entries, register, p, now, true)|
                                       + |Listed(entries, register, p, now, false)|
  {
    if entries != [] {
      ClaimsConserved(entries[..|entries| - 1], register, p, now);
    }
  }

  method CheckEntries(rows: seq<Entry>, register: Option<map<string, string>>, p: Policy, now: int, before: Report,
                      ghost earlier: seq<Entry>)
    returns (report: Report)
    requires Accounts(before, earlier, register, p, now)
    ensures Accounts(report, earlier + rows, register, p, now)
  {
    report := before;
    assert earlier + rows[..0] == earlier;
    for i := 0 to |rows|
      invariant Accounts(report, earlier + rows[..i], register, p, now)
    {
      var reasons := CheckRow(rows[i].claim, p, now);
      assert earlier + rows[..i + 1] == earlier + rows[..i] + [rows[i]];
      AccountsGrows(report, earlier + rows[..i], rows[i], reasons, register, p, now);
      report := Tally(report, rows[i], reasons, register);
    }
    assert rows[..|rows|] == rows;
  }

  method Survey(files: seq<File>, register: Option<map<string, string>>, p: Policy, now: int) returns (report: Report)
    ensures Accounts(report, Entries(files), register, p, now)
  {
    report := BLANK_REPORT;
    for i := 0 to |files|
      invariant Accounts(report, Entries(files[..i]), register, p, now)
    {
      assert files[..i + 1][..i] == files[..i];
      report := CheckEntries(FileEntries(files[i]), register, p, now, report, Entries(files[..i]));
    }
    assert files[..|files|] == files;
  }

  /** What exit 0 means for a nonempty set of scorecards. */
  ghost predicate DebtFree(entries: seq<Entry>, register: Option<map<string, string>>, p: Policy, now: int) {
    match register
    case Some(entered) => forall id :: id in entered <==> Owes(entries, p, now, id)
    case None => forall id :: !Owes(entries, p, now, id)
  }

  /** The gate's exit status. */
  ghost function GateExit(files: seq<File>, register: Option<map<string, string>>, p: Policy, now: int): (code: int) {
    if files == [] then 2 else if DebtFree(Entries(files), register, p, now) then 0 else 1
  }

  /**
   The gate. Exit 2 without scorecards; otherwise exit 0 exactly when the register names the
   unevidenced claims and nothing else, or, without a register, when there is none.
   */
  method Check(files: seq<File>, register: Option<map<string, string>>, p: Policy, now: int)
    returns (code: int, report: Report)
    ensures code == GateExit(files, register, p, now)
    ensures report.rows == |Entries(files)| && report.claims == ClaimCount(Entries(files))
    ensures report.upheld == StandingCount(Entries(files), p, now)
    ensures report.registered == Listed(Entries(files), register, p, now, true)
    ensures report.violations == Listed(Entries(files), register, p, now, false)
    ensures report.claims == report.upheld + |report.registered| + |report.violations|
  {
    ClaimsConserved(Entries(files), register, p, now);
    report := Survey(files, register, p, now);
    if files == [] {
      return 2, report;
    }
    var stale: set<string> := if register.Some? then register.value.Keys - report.seen else {};
    RatchetExact(report, Entries(files), register, p, now, stale);
    code := if report.violations != [] || stale != {} then 1 else 0;
  }

  /** No violation and no stale entry: the register is exactly the debt. */
  lemma {:induction false} RatchetExact(report: Report, entries: seq<Entry>, register: Option<map<string, string>>,
                                        p: Policy, now: int, stale: set<string>)
    requires Accounts(report, entries, register, p, now)
    requires stale == if register.Some? then register.value.Keys - report.seen else {}
    ensures report.violations == [] && stale == {} <==> DebtFree(entries, register, p, now)
  {
    ListedEmptyIff(entries, register, p, now);
    if register.Some? {
      StaleMeans(report, register.value, stale);
      forall id ensures id in report.seen <==> Owes(entries, p, now, id) && id in register.value {
        assert InRegister(register, id) <==> id in register.value;
      }
      if report.violations == [] && stale == {} {
        forall id ensures id in register.value <==> Owes(entries, p, now, id) {
          assert Owes(entries, p, now, id) ==> InRegister(register, id);
        }
      }
    }
  }

  lemma {:induction false} StaleMeans(report: Report, entered: map<string, string>, stale: set<string>)
    requires stale == entered.Keys - report.seen
    ensures stale == {} <==> forall id :: id in entered ==> id in report.seen
  {
    assert forall id :: id in stale <==> id in entered && id !in report.seen;
  }
}
