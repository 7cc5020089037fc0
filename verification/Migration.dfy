/**
The scorecard schema migration: columns are added, historical parity values that carry no
provenance are moved aside, and nothing observed is lost.
*/
module Migration {
  import opened Text
  import opened Sheets

  const TIER := "tier"
  const ANCHOR := "verify_compare"
  const LEGACY := "legacy_parity_unqualified"
  const COMPARISON := "comparison_tier"
  const REASON := "reason"
  const TIER_COLUMNS := ["bitwise_parity", "compared_log_messages", TIER]
  const BOUND_COLUMNS := ["ref_output_hash", "parity_comparator", "parity_tier", "profile_flags", "population_id",
                          "selected_count", "executed_count", "evidence_count"]
  const PROVENANCE_COLUMNS := [LEGACY] + BOUND_COLUMNS
  const PARITY_NAMES := ["stdout_parity", "tool_count_parity", "parity"]
  const PRESERVED := ["run_id", "run_utc", "hermit_sha", "reverie_sha", "dirty", "run_mode", "lane", "bucket",
      "test_id",
                      "test_mode", "backend", "cell_state", "outcome", "deterministic", "output_hash", "duration_ms",
                      "max_rss_kb", REASON]

  /** Columns only one file carries. */
  function ExtraColumns(file: string): (columns: seq<string>) {
    if file == "e9patch-scorecard.csv" then ["candidate_sites", "mapped_sites", "reach_state"]
    else if file == "reverie-scorecard.csv" then ["absence_reason"]
    else []
  }

  // ----------------------------------------------------------------- one row

  /** The cells of a row the migration reads or writes; `bound` says all eight provenance cells are nonblank. */
  datatype View = View(deterministic: string, mode: string, tier: string, compare: string, parity: string,
                       legacy: string, comparison: string, bound: bool)

  predicate Nonblank(row: Row, columns: seq<string>) {
    columns == [] || (Strip(Get(row, columns[0])) != "" && Nonblank(row, columns[1..]))
  }

  /** All eight provenance cells are nonblank. */
  predicate Bound(row: Row) {
    Nonblank(row, BOUND_COLUMNS)
  }

  lemma {:induction false} NonblankIff(row: Row, columns: seq<string>)
    ensures Nonblank(row, columns) <==> forall i :: 0 <= i < |columns| ==> Strip(Get(row, columns[i])) != ""
  {
    if columns != [] {
      NonblankIff(row, columns[1..]);
      assert forall i :: 1 <= i < |columns| ==> columns[i] == columns[1..][i - 1];
      assert forall i :: 0 <= i < |columns[1..]| ==> columns[1..][i] == columns[i + 1];
    }
  }

  function ViewOf(row: Row, parity: string): (v: View) {
    View(Get(row, "deterministic"), Strip(Get(row, "test_mode")), Get(row, TIER), Get(row, ANCHOR), Get(row, parity),
         Get(row, LEGACY), Get(row, COMPARISON), Bound(row))
  }

  predicate IsVerdict(s: string) {
    s == "0" || s == "1"
  }

  predicate NeedsComparison(v: View) {
    Strip(v.comparison) == ""
  }

  predicate NeedsLabel(v: View) {
    v.deterministic == "1" && Strip(v.tier) == "" &&
    (v.mode == "counter" || (Strip(v.compare) == "stripped" && v.mode == "verify"))
  }

  /** A 0/1 verdict without complete provenance. */
  predicate NeedsMove(v: View) {
    IsVerdict(Strip(v.parity)) && !v.bound
  }

  function Carried(parity: string, v: View): (s: string) {
    parity + ":" + Strip(v.parity)
  }

  /** A different observation already sits in the legacy field. */
  predicate Conflict(parity: string, v: View) {
    NeedsMove(v) && Strip(v.legacy) != "" && Strip(v.legacy) != Carried(parity, v)
  }

  function WithComparison(v: View): (w: View) {
    if NeedsComparison(v) then v.(comparison := "legacy-unqualified") else v
  }

  function WithLabel(v: View): (w: View) {
    if !NeedsLabel(v) then v
    else if v.mode == "counter" then
      v.(compare := if v.compare != "" then v.compare else "syscall-count-across-reps", tier := "counter")
    else v.(tier := "stripped-uncounted")
  }

  function WithMove(v: View, parity: string): (w: View) {
    if NeedsMove(v) then v.(legacy := Carried(parity, v), parity := "") else v
  }

  function MigratedView(v: View, parity: string): (w: View) {
    WithMove(WithLabel(WithComparison(v)), parity)
  }

  predicate NeedsChange(v: View) {
    NeedsComparison(v) || NeedsLabel(v) || NeedsMove(v)
  }

  lemma {:induction false} Shows(s: string)
    requires s != "" && !IsSpace(s[0])
    ensures Strip(s) != ""
  {
    FirstStays(s);
  }

  lemma {:induction false} FirstStays(s: string)
    requires s != "" && !IsSpace(s[0])
    ensures StripRight(s) != ""
  {
    if |s| > 1 {
      FirstStays(s[..|s| - 1]);
    }
  }

  lemma {:induction false} FixedTexts()
    ensures Strip("counter") != "" && Strip("stripped-uncounted") != "" && Strip("legacy-unqualified") != ""
    ensures Strip("") == "" && !IsVerdict("")
  {
    assert "counter"[0] == 'c' && "stripped-uncounted"[0] == 's' && "legacy-unqualified"[0] == 'l';
    Shows("counter");
    Shows("stripped-uncounted");
    Shows("legacy-unqualified");
  }

  /** A migrated row needs nothing more and is left as it is. */
  lemma {:induction false} ViewSettles(v: View, parity: string)
    ensures !NeedsChange(MigratedView(v, parity))
    ensures !NeedsChange(v) ==> MigratedView(v, parity) == v
  {
    FixedTexts();
    var a := WithComparison(v);
    assert !NeedsComparison(a);
    var b := WithLabel(a);
    assert !NeedsLabel(b) && !NeedsComparison(b);
  }

  /** No 0/1 observation is lost or altered: it stays, fully bound, or stands in the legacy field. */
  lemma {:induction false} ObservationKept(v: View, parity: string)
    ensures var w := MigratedView(v, parity);
            && (IsVerdict(Strip(v.parity)) && v.bound ==> w.parity == v.parity && w.legacy == v.legacy)
            && (IsVerdict(Strip(v.parity)) && !v.bound ==> w.parity == "" && w.legacy == parity + ":" + Strip(v.parity))
            && (!IsVerdict(Strip(v.parity)) ==> w.parity == v.parity && w.legacy == v.legacy)
            && (IsVerdict(Strip(w.parity)) ==> w.bound)
  {
    LabelsElsewhere(v);
    MoveExact(WithLabel(WithComparison(v)), parity);
  }

  lemma {:induction false} LabelsElsewhere(v: View)
    ensures var a := WithLabel(WithComparison(v));
            a.parity == v.parity && a.legacy == v.legacy && a.bound == v.bound
  {
  }

  lemma {:induction false} MoveExact(v: View, parity: string)
    ensures var w := WithMove(v, parity);
            && (NeedsMove(v) ==> w.parity == "" && w.legacy == parity + ":" + Strip(v.parity))
            && (!NeedsMove(v) ==> w == v)
            && w.bound == v.bound && !IsVerdict(Strip(""))
  {
  }

  /** Labels only fill blanks: a tier, a comparison tier or a comparison mode that says something is never replaced. */
  lemma {:induction false} LabelsFillBlanks(v: View, parity: string)
    ensures var w := MigratedView(v, parity);
            && (Strip(v.tier) != "" || v.deterministic != "1" ==> w.tier == v.tier && w.compare == v.compare)
            && (v.compare != "" ==> w.compare == v.compare)
            && (Strip(v.comparison) != "" ==> w.comparison == v.comparison)
            && (w.comparison != v.comparison ==> w.comparison == "legacy-unqualified")
  {
    var a := WithComparison(v);
    var b := WithLabel(a);
    assert WithMove(b, parity).tier == b.tier && WithMove(b, parity).compare == b.compare
           && WithMove(b, parity).comparison == b.comparison;
  }

  /** A legacy observation already recorded is only ever replaced by the same text. */
  lemma {:induction false} LegacyKept(v: View, parity: string)
    requires !Conflict(parity, v) && Strip(v.legacy) != ""
    ensures Strip(MigratedView(v, parity).legacy) == Strip(v.legacy)
            || MigratedView(v, parity).legacy == Strip(v.legacy)
  {
    LabelsElsewhere(v);
  }

  // ------------------------------------------------------------------- header

  function IndexOf(header: seq<string>, c: string): (i: nat)
    requires c in header
    ensures i < |header| && header[i] == c && c !in header[..i]
  {
    if header[0] == c then 0 else 1 + IndexOf(header[1..], c)
  }

  function InsertAfter(header: seq<string>, c: string, columns: seq<string>): (r: seq<string>)
    requires c in header
    ensures forall x :: x in r <==> x in header || x in columns
    ensures |r| == |header| + |columns|
  {
    var at := IndexOf(header, c) + 1;
    assert header == header[..at] + header[at..];
    header[..at] + columns + header[at..]
  }

  function AppendMissing(header: seq<string>, columns: seq<string>): (r: seq<string>)
    ensures forall x :: x in r <==> x in header || x in columns
    ensures (forall x <- columns :: x in header) ==> r == header
    ensures header <= r
    decreases |columns|
  {
    if columns == [] then header
    else if columns[0] in header then AppendMissing(header, columns[1..])
    else AppendMissing(header + [columns[0]], columns[1..])
  }

  predicate AllIn(columns: seq<string>, header: seq<string>) {
    forall i :: 0 <= i < |columns| ==> columns[i] in header
  }

  predicate NoneIn(columns: seq<string>, header: seq<string>) {
    forall i :: 0 <= i < |columns| ==> columns[i] !in header
  }

  predicate Partial(columns: seq<string>, header: seq<string>) {
    !AllIn(columns, header) && !NoneIn(columns, header)
  }

  /** The header once the anchor is there. */
  function Anchored(header: seq<string>): (r: seq<string>)
    requires ANCHOR in header || REASON in header
    ensures forall x :: x in r <==> x in header || x == ANCHOR
  {
    if ANCHOR in header then header else InsertAfter(header, REASON, [ANCHOR])
  }

  function Widened(h: seq<string>, extra: seq<string>): (r: seq<string>)
    requires ANCHOR in h
  {
    var withTier := if AllIn(TIER_COLUMNS, h) then h else InsertAfter(h, ANCHOR, TIER_COLUMNS);
    var withProvenance := if AllIn(PROVENANCE_COLUMNS, h) then withTier else withTier + PROVENANCE_COLUMNS;
    AppendMissing(AppendMissing(withProvenance, [COMPARISON]), extra)
  }

  /** Widening keeps every column, adds only the schema's own, and changes the header exactly when one is missing. */
  lemma {:induction false} WidenedExact(h: seq<string>, extra: seq<string>)
    requires ANCHOR in h && !Partial(TIER_COLUMNS, h) && !Partial(PROVENANCE_COLUMNS, h)
    ensures forall x :: x in Widened(h, extra) <==>
                        x in h || x in TIER_COLUMNS || x in PROVENANCE_COLUMNS || x == COMPARISON || x in extra
    ensures Widened(h, extra) == h <==>
            AllIn(TIER_COLUMNS, h) && AllIn(PROVENANCE_COLUMNS, h) && COMPARISON in h && forall x <- extra :: x in h
  {
    var withTier := if AllIn(TIER_COLUMNS, h) then h else InsertAfter(h, ANCHOR, TIER_COLUMNS);
    assert forall x :: x in withTier <==> x in h || x in TIER_COLUMNS;
    var withProvenance := if AllIn(PROVENANCE_COLUMNS, h) then withTier else withTier + PROVENANCE_COLUMNS;
    assert forall x :: x in withProvenance <==> x in h || x in TIER_COLUMNS || x in PROVENANCE_COLUMNS;
    var all := AppendMissing(withProvenance, [COMPARISON]);
    assert forall x :: x in AppendMissing(all, extra) <==> x in all || x in extra;
  }

  // ------------------------------------------------------------ column names

  /** Told apart, by length and first letter, from every column the migration overwrites. */
  predicate Aloof(c: string) {
    && c != "" && |c| != 25
    && (|c| == 4 ==> c[0] != 't') && (|c| == 14 ==> c[0] != 'v') && (|c| == 15 ==> c[0] != 'c')
    && (|c| == 13 ==> c[0] != 's') && (|c| == 17 ==> c[0] != 't') && (|c| == 6 ==> c[0] != 'p')
  }

  lemma {:induction false} ParityShape(parity: string)
    requires parity in PARITY_NAMES
    ensures (|parity| == 13 && parity[0] == 's')
            || (|parity| == 17 && parity[0] == 't') || (|parity| == 6 && parity[0] == 'p')
  {
    assert PARITY_NAMES[0] == "stdout_parity" && PARITY_NAMES[1] == "tool_count_parity" && PARITY_NAMES[2] == "parity";
  }

  lemma {:induction false} AloofApart(c: string, parity: string)
    requires Aloof(c) && parity in PARITY_NAMES
    ensures c != TIER && c != ANCHOR && c != LEGACY && c != COMPARISON && c != parity
  {
    ParityShape(parity);
    assert |TIER| == 4 && TIER[0] == 't' && |ANCHOR| == 14 && ANCHOR[0] == 'v';
    assert |LEGACY| == 25 && |COMPARISON| == 15 && COMPARISON[0] == 'c';
  }

  lemma {:induction false} OverwrittenApart(parity: string)
    requires parity in PARITY_NAMES
    ensures TIER != ANCHOR && TIER != LEGACY && TIER != COMPARISON && ANCHOR != LEGACY && ANCHOR != COMPARISON
            && LEGACY != COMPARISON
    ensures parity != TIER && parity != ANCHOR && parity != LEGACY && parity != COMPARISON
  {
    ParityShape(parity);
    assert |TIER| == 4 && |ANCHOR| == 14 && |LEGACY| == 25 && |COMPARISON| == 15;
  }

  lemma {:induction false} BoundAloof(i: nat)
    requires i < |BOUND_COLUMNS|
    ensures Aloof(BOUND_COLUMNS[i])
  {
    if i < 4 {
      assert Aloof("ref_output_hash") && Aloof("parity_comparator") && Aloof("parity_tier") && Aloof("profile_flags");
    } else {
      assert Aloof("population_id") && Aloof("selected_count") && Aloof("executed_count") && Aloof("evidence_count");
    }
  }

  lemma {:induction false} PreservedAloof(i: nat)
    requires i < |PRESERVED|
    ensures Aloof(PRESERVED[i])
  {
    if i < 6 {
      assert Aloof("run_id") && Aloof("run_utc") && Aloof("hermit_sha") && Aloof("reverie_sha") && Aloof("dirty")
             && Aloof("run_mode");
    } else if i < 12 {
      assert Aloof("lane") && Aloof("bucket") && Aloof("test_id") && Aloof("test_mode") && Aloof("backend")
             && Aloof("cell_state");
    } else {
      assert Aloof("outcome") && Aloof("deterministic") && Aloof("output_hash") && Aloof("duration_ms")
             && Aloof("max_rss_kb") && Aloof(REASON);
    }
  }

  // ---------------------------------------------------------------- the rewrite

  function Put(row: Row, parity: string, w: View): (r: Row) {
    row[TIER := w.tier][ANCHOR := w.compare][LEGACY := w.legacy][parity := w.parity][COMPARISON := w.comparison]
  }

  lemma {:induction false} PutReads(row: Row, parity: string, w: View)
    requires parity in PARITY_NAMES
    ensures var r := Put(row, parity, w);
            && Get(r, TIER) == w.tier && Get(r, ANCHOR) == w.compare && Get(r, LEGACY) == w.legacy
            && Get(r, parity) == w.parity && Get(r, COMPARISON) == w.comparison
  {
    OverwrittenApart(parity);
  }

  /** Not one of the five columns the migration writes. */
  predicate Unwritten(c: string, parity: string) {
    c != TIER && c != ANCHOR && c != LEGACY && c != parity && c != COMPARISON
  }

  lemma {:induction false} PutElsewhere(row: Row, parity: string, w: View, c: string)
    requires Unwritten(c, parity)
    ensures Get(Put(row, parity, w), c) == Get(row, c)
  {
  }

  function MigratedRow(row: Row, parity: string): (r: Row) {
    Put(row, parity, MigratedView(ViewOf(row, parity), parity))
  }

  function MigratedSheet(sheet: Sheet, parity: string, widened: seq<string>): (r: Sheet)
    ensures r.header == widened && |r.records| == |sheet.records|
    ensures forall i :: 0 <= i < |r.records| ==> r.records[i] == Written(widened, MigratedRow(RowAt(sheet, i), parity))
  {
    Sheet(widened, seq(|sheet.records|, i requires 0 <= i < |sheet.records| =>
                         Written(widened, MigratedRow(RowAt(sheet, i), parity))))
  }

  /** The widened header carries every old column and every column the migration writes. */
  ghost predicate Wide(header: seq<string>, parity: string, widened: seq<string>) {
    && parity in PARITY_NAMES
    && (forall c <- header :: c in widened)
    && TIER in widened && ANCHOR in widened && LEGACY in widened && parity in widened && COMPARISON in widened
  }

  /** Every column but the five written ones reads as before, in every row. */
  lemma {:induction false} ColumnKept(sheet: Sheet, parity: string, widened: seq<string>, i: nat, c: string)
    requires i < |sheet.records| && Wide(sheet.header, parity, widened) && Unwritten(c, parity)
    ensures Get(RowAt(MigratedSheet(sheet, parity, widened), i), c) == Get(RowAt(sheet, i), c)
  {
    var row := RowAt(sheet, i);
    WrittenBack(widened, MigratedRow(row, parity), c);
    PutElsewhere(row, parity, MigratedView(ViewOf(row, parity), parity), c);
    if c !in sheet.header {
      DictKeys(sheet.header, sheet.records[i], c);
    }
  }

  lemma {:induction false} ReadingAloof()
    ensures Aloof("deterministic") && Aloof("test_mode")
  {
  }

  lemma {:induction false} BoundKept(a: Row, b: Row)
    requires forall c :: Aloof(c) ==> Get(a, c) == Get(b, c)
    ensures Bound(a) == Bound(b)
  {
    forall i | 0 <= i < |BOUND_COLUMNS| ensures Get(a, BOUND_COLUMNS[i]) == Get(b, BOUND_COLUMNS[i]) {
      BoundAloof(i);
    }
    NonblankIff(a, BOUND_COLUMNS);
    NonblankIff(b, BOUND_COLUMNS);
  }

  lemma {:induction false} MigrationReadsOnly(v: View, parity: string)
    ensures var w := MigratedView(v, parity);
            w.deterministic == v.deterministic && w.mode == v.mode && w.bound == v.bound
  {
    LabelsElsewhere(v);
    var a := WithLabel(WithComparison(v));
    assert a.deterministic == v.deterministic && a.mode == v.mode;
  }

  /** What a view needs of two rows: the read-only cells of one, the written cells of the other. */
  lemma {:induction false} ViewAssembled(row: Row, after: Row, parity: string, w: View)
    requires forall c :: Aloof(c) ==> Get(after, c) == Get(row, c)
    requires w.deterministic == Get(row, "deterministic") && w.mode == Strip(Get(row, "test_mode"))
             && w.bound == Bound(row)
    requires Get(after, TIER) == w.tier && Get(after, ANCHOR) == w.compare && Get(after, LEGACY) == w.legacy
    requires Get(after, parity) == w.parity && Get(after, COMPARISON) == w.comparison
    ensures ViewOf(after, parity) == w
  {
    BoundKept(after, row);
    ReadingAloof();
  }

  /** Read back, a migrated row shows the migrated view. */
  lemma {:induction false} MigratedReads(sheet: Sheet, parity: string, widened: seq<string>, i: nat)
    requires i < |sheet.records| && Wide(sheet.header, parity, widened)
    ensures ViewOf(RowAt(MigratedSheet(sheet, parity, widened), i), parity)
            == MigratedView(ViewOf(RowAt(sheet, i), parity), parity)
  {
    var row, after := RowAt(sheet, i), RowAt(MigratedSheet(sheet, parity, widened), i);
    forall c | Aloof(c) ensures Get(after, c) == Get(row, c) {
      AloofApart(c, parity);
      ColumnKept(sheet, parity, widened, i, c);
    }
    var v := ViewOf(row, parity);
    MigrationReadsOnly(v, parity);
    WrittenColumns(row, parity, widened, sheet.header);
    ViewAssembled(row, after, parity, MigratedView(v, parity));
  }

  lemma {:induction false} WrittenColumns(row: Row, parity: string, widened: seq<string>, header: seq<string>)
    requires Wide(header, parity, widened)
    ensures var w, after := MigratedView(ViewOf(row, parity), parity),
            DictRow(widened, Written(widened, MigratedRow(row, parity)));
            && Get(after, TIER) == w.tier && Get(after, ANCHOR) == w.compare && Get(after, LEGACY) == w.legacy
            && Get(after, parity) == w.parity && Get(after, COMPARISON) == w.comparison
  {
    var m := MigratedRow(row, parity);
    PutReads(row, parity, MigratedView(ViewOf(row, parity), parity));
    WrittenBack(widened, m, TIER);
    WrittenBack(widened, m, ANCHOR);
    WrittenBack(widened, m, LEGACY);
    WrittenBack(widened, m, parity);
    WrittenBack(widened, m, COMPARISON);
  }

  // -------------------------------------------------------------------- planning

  function Present(names: seq<string>, header: seq<string>): (r: seq<string>)
    ensures forall x :: x in r <==> x in names && x in header
  {
    if names == [] then []
    else (if names[0] in header then [names[0]] else []) + Present(names[1..], header)
  }

  lemma {:induction false} SamePresent(names: seq<string>, a: seq<string>, b: seq<string>)
    requires forall x <- names :: x in a <==> x in b
    ensures Present(names, a) == Present(names, b)
  {
    if names != [] {
      assert names[0] in names;
      SamePresent(names[1..], a, b);
    }
  }

  /** The sheet's parity observable, when it has exactly one. */
  function ParityColumn(header: seq<string>): (c: Option<string>)
    ensures c.Some? ==> c.value in PARITY_NAMES && c.value in header
  {
    var present := Present(PARITY_NAMES, header);
    if |present| == 1 then assert present[0] in present; Some(present[0]) else None
  }

  predicate OverWide(sheet: Sheet) {
    exists i :: 0 <= i < |sheet.records| && |sheet.records[i]| > |sheet.header|
  }

  datatype Plan = Refuse | Proceed(parity: string, anchored: seq<string>, widened: seq<string>)

  /** The header part of the plan. */
  function HeaderPlan(header: seq<string>, extra: seq<string>): (p: Plan)
    ensures p.Proceed? ==> ANCHOR in p.anchored
  {
    var parity := ParityColumn(header);
    if parity.None? || (ANCHOR !in header && REASON !in header) then Refuse
    else
      var h := Anchored(header);
      if Partial(TIER_COLUMNS, h) || Partial(PROVENANCE_COLUMNS, h) then Refuse
      else Proceed(parity.value, h, Widened(h, extra))
  }

  ghost predicate AnyConflict(sheet: Sheet, parity: string) {
    exists i :: 0 <= i < |sheet.records| && Conflict(parity, ViewOf(RowAt(sheet, i), parity))
  }

  ghost predicate AnyChange(sheet: Sheet, parity: string) {
    exists i :: 0 <= i < |sheet.records| && NeedsChange(ViewOf(RowAt(sheet, i), parity))
  }

  ghost function PlanOf(sheet: Sheet, extra: seq<string>): (p: Plan) {
    var p := HeaderPlan(sheet.header, extra);
    if OverWide(sheet) || p == Refuse || AnyConflict(sheet, p.parity) then Refuse else p
  }

  /** Whether a plan that proceeds finds anything to write. */
  ghost predicate Changes(sheet: Sheet, p: Plan)
    requires p.Proceed?
  {
    p.widened != p.anchored || AnyChange(sheet, p.parity)
  }

  // ------------------------------------------------------------------- the tool

  datatype PostCheck = Passed | Failed | Crashed

  datatype Outcome = Refused | AlreadyMigrated | DryRun | Rewritten(sheet: Sheet, check: PostCheck)

  /** What the row loop decides about one row. */
  datatype RowStep = RowStep(conflict: bool, change: bool, row: Row)

  function StepOf(row: Row, parity: string): (s: RowStep) {
    var v := ViewOf(row, parity);
    RowStep(Conflict(parity, v), NeedsChange(v), MigratedRow(row, parity))
  }

  method MigrateRow(row: Row, parity: string) returns (step: RowStep)
    ensures step == StepOf(row, parity)
  {
    var v := ViewOf(row, parity);
    LabelsElsewhere(v);
    LabelNeeds(v);
    var w := WithComparison(v);
    var changed := NeedsComparison(v) || NeedsLabel(w);
    w := WithLabel(w);
    var conflict := false;
    if NeedsMove(w) {
      conflict := Conflict(parity, w);
      changed := true;
      w := WithMove(w, parity);
    }
    return RowStep(conflict, changed, Put(row, parity, w));
  }

  lemma {:induction false} LabelNeeds(v: View)
    ensures NeedsLabel(WithComparison(v)) == NeedsLabel(v)
  {
  }

  function RowsOf(sheet: Sheet): (r: seq<Row>)
    ensures |r| == |sheet.records| && forall i :: 0 <= i < |r| ==> r[i] == RowAt(sheet, i)
  {
    seq(|sheet.records|, i requires 0 <= i < |sheet.records| => RowAt(sheet, i))
  }

  function StepsOf(rows: seq<Row>, parity: string): (r: seq<RowStep>)
    ensures |r| == |rows|
  {
    if rows == [] then [] else StepsOf(rows[..|rows| - 1], parity) + [StepOf(rows[|rows| - 1], parity)]
  }

  lemma {:induction false} StepAt(rows: seq<Row>, parity: string, i: nat)
    requires i < |rows|
    ensures StepsOf(rows, parity)[i] == StepOf(rows[i], parity)
  {
    if i < |rows| - 1 {
      StepAt(rows[..|rows| - 1], parity, i);
    }
  }

  function Steps(sheet: Sheet, parity: string): (r: seq<RowStep>)
    ensures |r| == |sheet.records| && forall i :: 0 <= i < |r| ==> r[i] == StepOf(RowAt(sheet, i), parity)
  {
    var rows := RowsOf(sheet);
    assert forall i :: 0 <= i < |rows| ==> StepsOf(rows, parity)[i] == StepOf(rows[i], parity) by {
      forall i | 0 <= i < |rows| ensures StepsOf(rows, parity)[i] == StepOf(rows[i], parity) {
        StepAt(rows, parity, i);
      }
    }
    StepsOf(rows, parity)
  }

  ghost predicate SomeConflict(steps: seq<RowStep>) {
    exists i :: 0 <= i < |steps| && steps[i].conflict
  }

  ghost predicate SomeChange(steps: seq<RowStep>) {
    exists i :: 0 <= i < |steps| && steps[i].change
  }

  lemma {:induction false} ConflictMeans(sheet: Sheet, parity: string, steps: seq<RowStep>)
    requires steps == Steps(sheet, parity)
    ensures AnyConflict(sheet, parity) <==> SomeConflict(steps)
  {
    if AnyConflict(sheet, parity) {
      var i :| 0 <= i < |sheet.records| && Conflict(parity, ViewOf(RowAt(sheet, i), parity));
      assert steps[i].conflict;
    }
  }

  lemma {:induction false} ChangeMeans(sheet: Sheet, parity: string, steps: seq<RowStep>)
    requires steps == Steps(sheet, parity)
    ensures AnyChange(sheet, parity) <==> SomeChange(steps)
  {
    if AnyChange(sheet, parity) {
      var i :| 0 <= i < |sheet.records| && NeedsChange(ViewOf(RowAt(sheet, i), parity));
      assert steps[i].change;
    }
  }

  lemma {:induction false} OneMoreStep(rows: seq<Row>, row: Row, parity: string)
    ensures StepsOf(rows + [row], parity) == StepsOf(rows, parity) + [StepOf(row, parity)]
  {
    assert (rows + [row])[..|rows|] == rows;
  }

  method MigrateRows(rows: seq<Row>, parity: string) returns (steps: seq<RowStep>)
    ensures steps == StepsOf(rows, parity)
  {
    steps := [];
    ghost var seen := [];
    for i := 0 to |rows|
      invariant seen == rows[..i] && steps == StepsOf(seen, parity)
    {
      PrefixGrows(rows, i);
      OneMoreStep(seen, rows[i], parity);
      seen := seen + [rows[i]];
      var step := MigrateRow(rows[i], parity);
      steps := steps + [step];
    }
    assert rows[..|rows|] == rows;
  }

  /** A conflict anywhere refuses the whole file; otherwise any changed row is a change. */
  method Summarise(steps: seq<RowStep>) returns (conflict: bool, changed: bool, rows: seq<Row>)
    ensures conflict <==> SomeConflict(steps)
    ensures !conflict ==> (changed <==> SomeChange(steps))
    ensures !conflict ==> |rows| == |steps| && forall i :: 0 <= i < |rows| ==> rows[i] == steps[i].row
  {
    conflict, changed, rows := false, false, [];
    for i := 0 to |steps|
      invariant |rows| == i && forall j :: 0 <= j < i ==> rows[j] == steps[j].row
      invariant forall j :: 0 <= j < i ==> !steps[j].conflict
      invariant changed <==> exists j :: 0 <= j < i && steps[j].change
    {
      if steps[i].conflict {
        return true, changed, rows;
      }
      rows := rows + [steps[i].row];
      changed := changed || steps[i].change;
    }
  }

  function WrittenAll(header: seq<string>, rows: seq<Row>): (r: seq<seq<string>>)
    ensures |r| == |rows| && forall i :: 0 <= i < |r| ==> r[i] == Written(header, rows[i])
  {
    seq(|rows|, i requires 0 <= i < |rows| => Written(header, rows[i]))
  }

  lemma {:induction false} StepRow(sheet: Sheet, parity: string, i: nat)
    requires i < |sheet.records|
    ensures Steps(sheet, parity)[i].row == MigratedRow(RowAt(sheet, i), parity)
  {
  }

  lemma {:induction false} RecordsMigrated(sheet: Sheet, parity: string, widened: seq<string>, rows: seq<Row>)
    requires |rows| == |sheet.records| && forall i :: 0 <= i < |rows|
                                            ==> rows[i] == MigratedRow(RowAt(sheet, i), parity)
    ensures Sheet(widened, WrittenAll(widened, rows)) == MigratedSheet(sheet, parity, widened)
  {
    var a, b := WrittenAll(widened, rows), MigratedSheet(sheet, parity, widened).records;
    forall i | 0 <= i < |rows| ensures a[i] == b[i] {
      assert rows[i] == MigratedRow(RowAt(sheet, i), parity);
    }
  }

  method MigrateRecords(sheet: Sheet, parity: string, widened: seq<string>)
    returns (conflict: bool, changed: bool, after: Sheet)
    ensures conflict <==> AnyConflict(sheet, parity)
    ensures !conflict ==> (changed <==> AnyChange(sheet, parity)) && after == MigratedSheet(sheet, parity, widened)
  {
    var rows: seq<Row>;
    conflict, changed, rows := MigrateAll(sheet, parity);
    after := Sheet(widened, WrittenAll(widened, rows));
    if !conflict {
      RecordsMigrated(sheet, parity, widened, rows);
    }
  }

  method MigrateAll(sheet: Sheet, parity: string) returns (conflict: bool, changed: bool, rows: seq<Row>)
    ensures conflict <==> AnyConflict(sheet, parity)
    ensures !conflict ==> (changed <==> AnyChange(sheet, parity))
    ensures !conflict ==> |rows| == |sheet.records| && forall i :: 0 <= i < |rows|
                                                         ==> rows[i] == MigratedRow(RowAt(sheet, i), parity)
  {
    var steps := MigrateRows(RowsOf(sheet), parity);
    conflict, changed, rows := Summarise(steps);
    ConflictMeans(sheet, parity, steps);
    ChangeMeans(sheet, parity, steps);
    if !conflict {
      forall i | 0 <= i < |rows| ensures rows[i] == MigratedRow(RowAt(sheet, i), parity) {
        StepRow(sheet, parity, i);
      }
    }
  }

  method Migrate(sheet: Sheet, file: string, apply: bool) returns (o: Outcome)
    ensures var p := PlanOf(sheet, ExtraColumns(file));
            && (o == Refused <==> p == Refuse)
            && (o == AlreadyMigrated <==> p.Proceed? && !Changes(sheet, p))
            && (o == DryRun <==> p.Proceed? && Changes(sheet, p) && !apply)
            && (o.Rewritten? ==> o.sheet == MigratedSheet(sheet, p.parity, p.widened)
                                   && Checked(sheet, o.sheet, p.parity, o.check))
  {
    if OverWide(sheet) {
      return Refused;
    }
    var p := HeaderPlan(sheet.header, ExtraColumns(file));
    if p == Refuse {
      return Refused;
    }
    var conflict, changed, after := MigrateRecords(sheet, p.parity, p.widened);
    if conflict {
      return Refused;
    }
    if p.widened == p.anchored && !changed {
      return AlreadyMigrated;
    }
    if !apply {
      return DryRun;
    }
    var check := CheckAfterwards(sheet, after, p.parity);
    return Rewritten(after, check);
  }

  // --------------------------------------------------------------- the post-check

  function Lookup(row: Row, c: string): (v: Option<string>) {
    if c in row then Some(row[c]) else None
  }

  predicate PreservedAt(before: Sheet, was: Row, now: Row) {
    forall k :: 0 <= k < |PRESERVED| && PRESERVED[k] in before.header
        ==> Lookup(was, PRESERVED[k]) == Lookup(now, PRESERVED[k])
  }

  predicate LostAt(was: Row, now: Row, parity: string) {
    var verdict := Strip(Get(was, parity));
    IsVerdict(verdict) && Strip(Get(now, parity)) == "" && Lookup(now, LEGACY) != Some(parity + ":" + verdict)
  }

  ghost predicate RowPasses(before: Sheet, after: Sheet, parity: string, i: nat)
    requires i < |before.records| && i < |after.records|
  {
    PreservedAt(before, RowAt(before, i), RowAt(after, i)) && !LostAt(RowAt(before, i), RowAt(after, i), parity)
  }

  ghost predicate Checked(before: Sheet, after: Sheet, parity: string, r: PostCheck) {
    && (r == Crashed <==> |before.records| == |after.records| == 0)
    && (r == Passed <==> |before.records| == |after.records| > 0
                         && forall i: nat :: i < |before.records| ==> RowPasses(before, after, parity, i))
  }

  method CheckAfterwards(before: Sheet, after: Sheet, parity: string) returns (r: PostCheck)
    ensures Checked(before, after, parity, r)
  {
    if |before.records| != |after.records| {
      return Failed;
    }
    if after.records == [] {
      return Crashed;
    }
    for i := 0 to |before.records|
      invariant forall j: nat :: j < i ==> RowPasses(before, after, parity, j)
    {
      if !PreservedAt(before, RowAt(before, i), RowAt(after, i)) || LostAt(RowAt(before, i), RowAt(after, i), parity) {
        assert !RowPasses(before, after, parity, i);
        return Failed;
      }
    }
    return Passed;
  }

  // ------------------------------------------------------------------- theorems

  lemma {:induction false} TierColumnsApart(c: string, parity: string)
    requires parity in PARITY_NAMES && c in TIER_COLUMNS
    ensures c != parity
  {
    ParityShape(parity);
    assert TIER_COLUMNS[0] == "bitwise_parity" && TIER_COLUMNS[1] == "compared_log_messages" && TIER_COLUMNS[2] == TIER;
    assert |c| == 14 || |c| == 21 || |c| == 4;
  }

  lemma {:induction false} ProvenanceColumnsApart(c: string, parity: string)
    requires parity in PARITY_NAMES && c in PROVENANCE_COLUMNS
    ensures c != parity
  {
    OverwrittenApart(parity);
    if c != LEGACY {
      assert c in BOUND_COLUMNS;
      var i :| 0 <= i < |BOUND_COLUMNS| && BOUND_COLUMNS[i] == c;
      BoundAloof(i);
      AloofApart(c, parity);
    }
  }

  lemma {:induction false} ExtraColumnsApart(c: string, file: string, parity: string)
    requires parity in PARITY_NAMES && c in ExtraColumns(file)
    ensures c != parity
  {
    ParityShape(parity);
    assert |"candidate_sites"| == 15 && |"mapped_sites"| == 12 && |"reach_state"| == 11 && |"absence_reason"| == 14;
  }

  lemma {:induction false} SchemaNames()
    ensures TIER in TIER_COLUMNS && LEGACY in PROVENANCE_COLUMNS
  {
    assert TIER_COLUMNS[2] == TIER && PROVENANCE_COLUMNS[0] == LEGACY;
  }

  lemma {:induction false} PlanColumns(header: seq<string>, extra: seq<string>, x: string)
    requires HeaderPlan(header, extra).Proceed?
    ensures x in HeaderPlan(header, extra).widened <==>
            x in header || x == ANCHOR || x in TIER_COLUMNS || x in PROVENANCE_COLUMNS || x == COMPARISON || x in extra
  {
    WidenedExact(HeaderPlan(header, extra).anchored, extra);
  }

  lemma {:induction false} PlanIsWide(header: seq<string>, extra: seq<string>)
    requires HeaderPlan(header, extra).Proceed?
    ensures Wide(header, HeaderPlan(header, extra).parity, HeaderPlan(header, extra).widened)
  {
    var p := HeaderPlan(header, extra);
    SchemaNames();
    forall x ensures x in p.widened <==>
                     x in header || x == ANCHOR || x in TIER_COLUMNS || x in PROVENANCE_COLUMNS || x == COMPARISON
                         || x in extra {
      PlanColumns(header, extra, x);
    }
  }

  lemma {:induction false} PlanHasSchema(header: seq<string>, extra: seq<string>)
    requires HeaderPlan(header, extra).Proceed?
    ensures var w := HeaderPlan(header, extra).widened;
            AllIn(TIER_COLUMNS, w) && AllIn(PROVENANCE_COLUMNS, w) && forall x <- extra :: x in w
  {
    forall x | x in TIER_COLUMNS || x in PROVENANCE_COLUMNS
        || x in extra ensures x in HeaderPlan(header, extra).widened {
      PlanColumns(header, extra, x);
    }
  }

  /** A plan that proceeds widens the header and adds no parity observable. */
  lemma {:induction false} PlanWidens(header: seq<string>, file: string)
    requires HeaderPlan(header, ExtraColumns(file)).Proceed?
    ensures var p := HeaderPlan(header, ExtraColumns(file));
            && Wide(header, p.parity, p.widened)
            && AllIn(TIER_COLUMNS, p.widened) && AllIn(PROVENANCE_COLUMNS, p.widened)
            && (forall x <- ExtraColumns(file) :: x in p.widened)
            && (forall n <- PARITY_NAMES :: n in p.widened <==> n in header)
  {
    PlanIsWide(header, ExtraColumns(file));
    PlanHasSchema(header, ExtraColumns(file));
    forall n | n in PARITY_NAMES ensures n in HeaderPlan(header, ExtraColumns(file)).widened <==> n in header {
      NoParityAdded(header, file, n);
    }
  }

  lemma {:induction false} NoParityAdded(header: seq<string>, file: string, n: string)
    requires HeaderPlan(header, ExtraColumns(file)).Proceed? && n in PARITY_NAMES
    ensures n in HeaderPlan(header, ExtraColumns(file)).widened <==> n in header
  {
    OverwrittenApart(n);
    NotAdded(n, file);
    PlanColumns(header, ExtraColumns(file), n);
  }

  lemma {:induction false} NotAdded(n: string, file: string)
    requires n in PARITY_NAMES
    ensures n !in TIER_COLUMNS && n !in PROVENANCE_COLUMNS && n !in ExtraColumns(file)
  {
    if n in TIER_COLUMNS {
      TierColumnsApart(n, n);
    } else if n in PROVENANCE_COLUMNS {
      ProvenanceColumnsApart(n, n);
    } else if n in ExtraColumns(file) {
      ExtraColumnsApart(n, file, n);
    }
  }

  /** Planning again over the widened header asks for nothing. */
  lemma {:induction false} PlanSettles(header: seq<string>, file: string)
    requires HeaderPlan(header, ExtraColumns(file)).Proceed?
    ensures var p := HeaderPlan(header, ExtraColumns(file));
            HeaderPlan(p.widened, ExtraColumns(file)) == Proceed(p.parity, p.widened, p.widened)
  {
    var p := HeaderPlan(header, ExtraColumns(file));
    PlanWidens(header, file);
    SamePresent(PARITY_NAMES, p.widened, header);
    WidenedExact(p.widened, ExtraColumns(file));
  }

  lemma {:induction false} RowsSettle(sheet: Sheet, parity: string, widened: seq<string>)
    requires Wide(sheet.header, parity, widened)
    ensures var after := MigratedSheet(sheet, parity, widened);
            !AnyChange(after, parity) && !AnyConflict(after, parity) && !OverWide(after)
  {
    var after := MigratedSheet(sheet, parity, widened);
    forall i | 0 <= i < |after.records| ensures !NeedsChange(ViewOf(RowAt(after, i), parity)) {
      MigratedReads(sheet, parity, widened, i);
      ViewSettles(ViewOf(RowAt(sheet, i), parity), parity);
    }
  }

  /** Migrating a migrated scorecard is accepted and finds nothing to change. */
  lemma {:induction false} MigrationIdempotent(sheet: Sheet, file: string)
    requires PlanOf(sheet, ExtraColumns(file)).Proceed?
    ensures var p := PlanOf(sheet, ExtraColumns(file));
            var after := MigratedSheet(sheet, p.parity, p.widened);
            var q := PlanOf(after, ExtraColumns(file));
            q.Proceed? && q.parity == p.parity && !Changes(after, q)
  {
    var p := PlanOf(sheet, ExtraColumns(file));
    PlanIsWide(sheet.header, ExtraColumns(file));
    PlanSettles(sheet.header, file);
    RowsSettle(sheet, p.parity, p.widened);
  }

  lemma {:induction false} ColumnsKept(sheet: Sheet, file: string, i: nat, p: Plan, was: Row, now: Row)
    requires p == PlanOf(sheet, ExtraColumns(file)) && p.Proceed? && i < |sheet.records|
    requires was == RowAt(sheet, i) && now == RowAt(MigratedSheet(sheet, p.parity, p.widened), i)
    ensures forall c :: Unwritten(c, p.parity) ==> Get(now, c) == Get(was, c)
    ensures forall k :: 0 <= k < |PRESERVED| ==> Get(now, PRESERVED[k]) == Get(was, PRESERVED[k])
  {
    PlanWidens(sheet.header, file);
    forall c | Unwritten(c, p.parity) ensures Get(now, c) == Get(was, c) {
      ColumnKept(sheet, p.parity, p.widened, i, c);
    }
    forall k | 0 <= k < |PRESERVED| ensures Get(now, PRESERVED[k]) == Get(was, PRESERVED[k]) {
      PreservedAloof(k);
      AloofApart(PRESERVED[k], p.parity);
    }
  }

  /** Per row of an accepted sheet: preserved columns read as before and no observation is lost. */
  lemma {:induction false} MigrationPreserves(sheet: Sheet, file: string, i: nat)
    requires PlanOf(sheet, ExtraColumns(file)).Proceed? && i < |sheet.records|
    ensures var p := PlanOf(sheet, ExtraColumns(file));
            var was, now := RowAt(sheet, i), RowAt(MigratedSheet(sheet, p.parity, p.widened), i);
            var verdict := Strip(Get(was, p.parity));
            && (forall c :: Unwritten(c, p.parity) ==> Get(now, c) == Get(was, c))
            && (forall k :: 0 <= k < |PRESERVED| ==> Get(now, PRESERVED[k]) == Get(was, PRESERVED[k]))
            && (IsVerdict(verdict) ==>
                  || (Bound(now) && Get(now, p.parity) == Get(was, p.parity))
                  || (Get(now, p.parity) == "" && Get(now, LEGACY) == p.parity + ":" + verdict))
            && (IsVerdict(Strip(Get(now, p.parity))) ==> Bound(now))
  {
    var p := PlanOf(sheet, ExtraColumns(file));
    PlanWidens(sheet.header, file);
    ColumnsKept(sheet, file, i, p, RowAt(sheet, i), RowAt(MigratedSheet(sheet, p.parity, p.widened), i));
    MigratedReads(sheet, p.parity, p.widened, i);
    ObservationKept(ViewOf(RowAt(sheet, i), p.parity), p.parity);
    MigrationReadsOnly(ViewOf(RowAt(sheet, i), p.parity), p.parity);
  }

  /** Every column of an accepted sheet survives, and unless it is one of the five written ones so do its contents. */
  lemma {:induction false} ColumnsSurvive(sheet: Sheet, file: string, c: string)
    requires PlanOf(sheet, ExtraColumns(file)).Proceed? && c in sheet.header
    ensures var p := PlanOf(sheet, ExtraColumns(file));
            && c in p.widened
            && (Unwritten(c, p.parity) ==> forall i :: 0 <= i < |sheet.records| ==>
                  Get(RowAt(MigratedSheet(sheet, p.parity, p.widened), i), c) == Get(RowAt(sheet, i), c))
  {
    var p := PlanOf(sheet, ExtraColumns(file));
    PlanWidens(sheet.header, file);
    if Unwritten(c, p.parity) {
      forall i | 0 <= i < |sheet.records|
        ensures Get(RowAt(MigratedSheet(sheet, p.parity, p.widened), i), c) == Get(RowAt(sheet, i), c)
      {
        ColumnKept(sheet, p.parity, p.widened, i, c);
      }
    }
  }

  /**
   When a sheet counts as already migrated: all schema columns but the anchor are there and no row
   needs anything. A missing anchor column alone is therefore never written.
   */
  lemma {:induction false} AlreadyMigratedIff(sheet: Sheet, file: string)
    requires PlanOf(sheet, ExtraColumns(file)).Proceed?
    ensures var p, h := PlanOf(sheet, ExtraColumns(file)), sheet.header;
            !Changes(sheet, p) <==>
            && AllIn(TIER_COLUMNS, h) && AllIn(PROVENANCE_COLUMNS, h) && COMPARISON in h
            && (forall x <- ExtraColumns(file) :: x in h)
            && !AnyChange(sheet, p.parity)
  {
    var p := PlanOf(sheet, ExtraColumns(file));
    WidenedExact(p.anchored, ExtraColumns(file));
    AnchorApart(file);
  }

  lemma {:induction false} AnchorApart(file: string)
    ensures ANCHOR !in TIER_COLUMNS && ANCHOR !in PROVENANCE_COLUMNS && ANCHOR != COMPARISON
            && ANCHOR !in ExtraColumns(file)
  {
    assert |ANCHOR| == 14 && ANCHOR[0] == 'v' && |COMPARISON| == 15;
    assert |TIER| == 4 && |"compared_log_messages"| == 21 && "bitwise_parity"[0] == 'b';
    forall i | 0 <= i < |BOUND_COLUMNS| ensures BOUND_COLUMNS[i] != ANCHOR {
      BoundAloof(i);
    }
    assert |LEGACY| == 25;
    assert |"candidate_sites"| == 15 && |"mapped_sites"| == 12 && |"reach_state"| == 11 && "absence_reason"[0] == 'a';
  }

  /** A record too short to reach one of the preserved columns its header names. */
  ghost predicate ShortRecord(sheet: Sheet, i: nat)
    requires i < |sheet.records|
  {
    exists k :: 0 <= k < |PRESERVED| && PRESERVED[k] in sheet.header && PRESERVED[k] !in RowAt(sheet, i)
  }

  lemma {:induction false} RowPassesIff(sheet: Sheet, file: string, i: nat)
    requires PlanOf(sheet, ExtraColumns(file)).Proceed? && i < |sheet.records|
    ensures var p := PlanOf(sheet, ExtraColumns(file));
            RowPasses(sheet, MigratedSheet(sheet, p.parity, p.widened), p.parity, i) <==> !ShortRecord(sheet, i)
  {
    var p := PlanOf(sheet, ExtraColumns(file));
    var after := MigratedSheet(sheet, p.parity, p.widened);
    MigrationPreserves(sheet, file, i);
    PlanWidens(sheet.header, file);
    var m := MigratedRow(RowAt(sheet, i), p.parity);
    forall k | 0 <= k < |PRESERVED| && PRESERVED[k] in sheet.header ensures PRESERVED[k] in RowAt(after, i) {
      WrittenBack(p.widened, m, PRESERVED[k]);
    }
    WrittenBack(p.widened, m, LEGACY);
    NotLost(RowAt(sheet, i), RowAt(after, i), p.parity);
  }

  lemma {:induction false} NotLost(was: Row, now: Row, parity: string)
    requires LEGACY in now
    requires IsVerdict(Strip(Get(was, parity))) ==>
               || Get(now, parity) == Get(was, parity)
               || (Get(now, parity) == "" && Get(now, LEGACY) == parity + ":" + Strip(Get(was, parity)))
    ensures !LostAt(was, now, parity)
  {
    FixedTexts();
  }

  /**
   The post-check of a written migration: it crashes exactly on a sheet without rows, and passes
   exactly when no record stops short of a preserved column.
   */
  lemma {:induction false} PostCheckIff(sheet: Sheet, file: string, r: PostCheck)
    requires PlanOf(sheet, ExtraColumns(file)).Proceed?
    requires var p := PlanOf(sheet, ExtraColumns(file));
             Checked(sheet, MigratedSheet(sheet, p.parity, p.widened), p.parity, r)
    ensures r == Crashed <==> sheet.records == []
    ensures r == Passed <==> sheet.records != [] && forall i: nat :: i < |sheet.records| ==> !ShortRecord(sheet, i)
  {
    var p := PlanOf(sheet, ExtraColumns(file));
    var after := MigratedSheet(sheet, p.parity, p.widened);
    forall i: nat | i < |sheet.records| ensures RowPasses(sheet, after, p.parity, i) <==> !ShortRecord(sheet, i) {
      RowPassesIff(sheet, file, i);
    }
  }

  // ------------------------------------------------------- sheets that show it

  const SCORECARD := "scorecard.csv"

  lemma {:induction false} NoExtras()
    ensures ExtraColumns(SCORECARD) == []
  {
    assert |SCORECARD| == 13 && |"e9patch-scorecard.csv"| == 21 && |"reverie-scorecard.csv"| == 21;
  }

  lemma {:induction false} OnlyParity(header: seq<string>)
    requires "parity" in header && "stdout_parity" !in header && "tool_count_parity" !in header
    ensures ParityColumn(header) == Some("parity")
  {
    assert PARITY_NAMES[1..] == ["tool_count_parity", "parity"];
    assert PARITY_NAMES[1..][1..] == ["parity"];
    assert Present(["parity"], header) == ["parity"];
    assert Present(["tool_count_parity", "parity"], header) == ["parity"];
    assert Present(PARITY_NAMES, header) == ["parity"];
  }

  /** A scorecard of two old columns. */
  const OLD_HEADER := ["parity", REASON]

  lemma {:induction false} OldHeaderPlain(x: string)
    requires x in TIER_COLUMNS || x in PROVENANCE_COLUMNS
    ensures x != "parity" && x != REASON
  {
    assert PARITY_NAMES[2] == "parity";
    NotAdded("parity", SCORECARD);
    if x in TIER_COLUMNS {
      assert |"bitwise_parity"| == 14 && |"compared_log_messages"| == 21 && |TIER| == 4 && |REASON| == 6;
    } else if x == LEGACY {
      assert |LEGACY| == 25 && |REASON| == 6;
    } else {
      assert x in BOUND_COLUMNS;
      assert |REASON| == 6;
      assert forall i :: 0 <= i < |BOUND_COLUMNS| ==> |BOUND_COLUMNS[i]| != 6;
    }
  }

  lemma {:induction false} OldHeaderProceeds()
    ensures HeaderPlan(OLD_HEADER, ExtraColumns(SCORECARD)).Proceed?
    ensures HeaderPlan(OLD_HEADER, ExtraColumns(SCORECARD)).parity == "parity"
    ensures HeaderPlan(OLD_HEADER, ExtraColumns(SCORECARD)).widened
            != HeaderPlan(OLD_HEADER, ExtraColumns(SCORECARD)).anchored
  {
    OldParity();
    OldAnchored();
    NoExtras();
    WidenedExact(Anchored(OLD_HEADER), ExtraColumns(SCORECARD));
    SchemaNames();
  }

  lemma {:induction false} OldParity()
    ensures ParityColumn(OLD_HEADER) == Some("parity") && REASON in OLD_HEADER
  {
    assert OLD_HEADER[0] == "parity" && OLD_HEADER[1] == REASON;
    assert |"stdout_parity"| == 13 && |"tool_count_parity"| == 17 && |"parity"| == 6 && |REASON| == 6;
    OnlyParity(OLD_HEADER);
  }

  lemma {:induction false} OldAnchored()
    requires REASON in OLD_HEADER
    ensures NoneIn(TIER_COLUMNS, Anchored(OLD_HEADER)) && NoneIn(PROVENANCE_COLUMNS, Anchored(OLD_HEADER))
    ensures !AllIn(TIER_COLUMNS, Anchored(OLD_HEADER))
  {
    AnchorApart(SCORECARD);
    forall x | x in TIER_COLUMNS || x in PROVENANCE_COLUMNS ensures x !in Anchored(OLD_HEADER) {
      OldHeaderPlain(x);
    }
    assert TIER_COLUMNS[0] in TIER_COLUMNS;
  }

  /** A scorecard with a header and no rows is accepted, written, and then crashes the post-check. */
  lemma {:induction false} HeaderOnlyCrashes(r: PostCheck)
    requires var sheet := Sheet(OLD_HEADER, []);
             var p := PlanOf(sheet, ExtraColumns(SCORECARD));
             p.Proceed? ==> Checked(sheet, MigratedSheet(sheet, p.parity, p.widened), p.parity, r)
    ensures var sheet := Sheet(OLD_HEADER, []);
            var p := PlanOf(sheet, ExtraColumns(SCORECARD));
            p.Proceed? && Changes(sheet, p) && r == Crashed
  {
    OldHeaderProceeds();
    PostCheckIff(Sheet(OLD_HEADER, []), SCORECARD, r);
  }

  /** One record that fills only the first of the two columns. */
  const SHORT_SHEET := Sheet(OLD_HEADER, [["x"]])

  lemma {:induction false} ShortRow()
    ensures RowAt(SHORT_SHEET, 0) == map["parity" := "x"]
  {
    assert OLD_HEADER[0] == "parity";
    assert DictRow(OLD_HEADER[1..], ["x"][1..]) == map[];
  }

  lemma {:induction false} NoVerdictNoConflict(v: View, parity: string)
    requires !IsVerdict(Strip(v.parity))
    ensures !Conflict(parity, v)
  {
  }

  lemma {:induction false} ShortHarmless()
    ensures !AnyConflict(SHORT_SHEET, "parity") && !OverWide(SHORT_SHEET)
  {
    ShortRow();
    StripTrimmed("x");
    NoVerdictNoConflict(ViewOf(RowAt(SHORT_SHEET, 0), "parity"), "parity");
    assert |OLD_HEADER| == 2;
  }

  lemma {:induction false} ShortMisses()
    ensures ShortRecord(SHORT_SHEET, 0)
  {
    ShortRow();
    assert OLD_HEADER[1] == REASON && PRESERVED[17] == REASON;
    assert REASON[0] == 'r' && "parity"[0] == 'p';
    assert PRESERVED[17] in SHORT_SHEET.header && PRESERVED[17] !in RowAt(SHORT_SHEET, 0);
  }

  lemma {:induction false} ShortAccepted()
    ensures PlanOf(SHORT_SHEET, ExtraColumns(SCORECARD)).Proceed? && ShortRecord(SHORT_SHEET, 0)
  {
    OldHeaderProceeds();
    ShortHarmless();
    ShortMisses();
  }

  /** A record that stops short of a preserved column is accepted, written, and then fails the post-check. */
  lemma {:induction false} ShortRecordFails(r: PostCheck)
    requires var p := PlanOf(SHORT_SHEET, ExtraColumns(SCORECARD));
             p.Proceed? ==> Checked(SHORT_SHEET, MigratedSheet(SHORT_SHEET, p.parity, p.widened), p.parity, r)
    ensures PlanOf(SHORT_SHEET, ExtraColumns(SCORECARD)).Proceed? && r == Failed
  {
    ShortAccepted();
    PostCheckIff(SHORT_SHEET, SCORECARD, r);
  }

  /** Every column of the schema but the anchor. */
  const ANCHORLESS := OLD_HEADER + TIER_COLUMNS + PROVENANCE_COLUMNS + [COMPARISON]

  lemma {:induction false} AnchorlessColumns(x: string)
    ensures x in ANCHORLESS <==> x in OLD_HEADER || x in TIER_COLUMNS || x in PROVENANCE_COLUMNS || x == COMPARISON
  {
  }

  lemma {:induction false} AnchorlessParity()
    ensures ParityColumn(ANCHORLESS) == Some("parity") && REASON in ANCHORLESS && ANCHOR !in ANCHORLESS
  {
    OldParity();
    AnchorApart(SCORECARD);
    assert PARITY_NAMES[0] == "stdout_parity" && PARITY_NAMES[1] == "tool_count_parity";
    forall n | n == "stdout_parity" || n == "tool_count_parity" ensures n !in ANCHORLESS {
      NotAdded(n, SCORECARD);
      OverwrittenApart(n);
      AnchorlessColumns(n);
      assert |"stdout_parity"| == 13 && |"tool_count_parity"| == 17 && |"parity"| == 6 && |REASON| == 6;
    }
    AnchorlessColumns("parity");
    AnchorlessColumns(REASON);
    AnchorlessColumns(ANCHOR);
    assert |ANCHOR| == 14 && |"parity"| == 6 && |REASON| == 6;
    OnlyParity(ANCHORLESS);
  }

  /** A scorecard missing only the anchor is accepted and reported as migrated, and the anchor is never written. */
  lemma {:induction false} AnchorNeverWritten()
    ensures var sheet := Sheet(ANCHORLESS, []);
            var p := PlanOf(sheet, ExtraColumns(SCORECARD));
            p.Proceed? && !Changes(sheet, p) && ANCHOR !in sheet.header && ANCHOR in p.widened
  {
    var sheet := Sheet(ANCHORLESS, []);
    AnchorlessParity();
    NoExtras();
    forall x ensures x in ANCHORLESS <==> x in OLD_HEADER || x in TIER_COLUMNS || x in PROVENANCE_COLUMNS
                                            || x == COMPARISON {
      AnchorlessColumns(x);
    }
    assert AllIn(TIER_COLUMNS, Anchored(ANCHORLESS)) && AllIn(PROVENANCE_COLUMNS, Anchored(ANCHORLESS));
    AlreadyMigratedIff(sheet, SCORECARD);
    PlanIsWide(ANCHORLESS, ExtraColumns(SCORECARD));
  }
}
