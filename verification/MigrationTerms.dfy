/**
The schema migration row by row and column by column, said of the texts in the file.
*/
module MigrationTerms {
  import opened Text
  import opened Sheets
  import opened Migration

  function Said(row: Row, column: string): (text: string) {
    Strip(Get(row, column))
  }

  // ------------------------------------------------------------------ one row

  /** A deterministic row whose comparison was never named. */
  ghost predicate Unlabelled(row: Row) {
    Get(row, "deterministic") == "1" && Said(row, "tier") == ""
  }

  ghost predicate CounterRow(row: Row) {
    Unlabelled(row) && Said(row, "test_mode") == "counter"
  }

  ghost predicate StrippedRow(row: Row) {
    Unlabelled(row) && Said(row, "test_mode") == "verify" && Said(row, "verify_compare") == "stripped"
  }

  const EIGHT: set<string> := {"ref_output_hash", "parity_comparator", "parity_tier", "profile_flags", "population_id",
                               "selected_count", "executed_count", "evidence_count"}

  /** A verdict some of whose provenance is missing. */
  ghost predicate UnboundVerdict(row: Row, parity: string) {
    Said(row, parity) in {"0", "1"} && exists c <- EIGHT :: Said(row, c) == ""
  }

  /** What the five written columns say afterwards. */
  ghost predicate RowMigrated(was: Row, now: Row, parity: string) {
    && Get(now, "comparison_tier")
       == (if Said(was, "comparison_tier") == "" then "legacy-unqualified" else Get(was, "comparison_tier"))
    && Get(now, "tier")
       == (if CounterRow(was) then "counter" else if StrippedRow(was) then "stripped-uncounted" else Get(was, "tier"))
    && Get(now, "verify_compare")
       == (if CounterRow(was) && Get(was, "verify_compare") == "" then "syscall-count-across-reps"
           else Get(was, "verify_compare"))
    && Get(now, parity) == (if UnboundVerdict(was, parity) then "" else Get(was, parity))
    && Get(now, "legacy_parity_unqualified")
       == (if UnboundVerdict(was, parity) then parity + ":" + Said(was, parity)
           else Get(was, "legacy_parity_unqualified"))
  }

  lemma {:induction false} EightExact(c: string)
    ensures c in BOUND_COLUMNS <==> c in EIGHT
  {
  }

  lemma {:induction false} NonblankSet(row: Row, columns: seq<string>, s: set<string>)
    requires forall c :: c in columns <==> c in s
    ensures Nonblank(row, columns) <==> forall c <- s :: Said(row, c) != ""
  {
    NonblankIff(row, columns);
    if Nonblank(row, columns) {
      forall c <- s ensures Said(row, c) != "" {
        var i :| 0 <= i < |columns| && columns[i] == c;
      }
    }
    if forall c <- s :: Said(row, c) != "" {
      forall i | 0 <= i < |columns| ensures Strip(Get(row, columns[i])) != "" {
        assert columns[i] in s;
      }
    }
  }

  lemma {:induction false} BoundExact(row: Row)
    ensures Bound(row) <==> forall c <- EIGHT :: Said(row, c) != ""
  {
    forall c ensures c in BOUND_COLUMNS <==> c in EIGHT {
      EightExact(c);
    }
    NonblankSet(row, BOUND_COLUMNS, EIGHT);
  }

  lemma {:induction false} ModesApart()
    ensures "counter" != "verify"
  {
    assert "counter"[0] == 'c' && "verify"[0] == 'v';
  }

  lemma {:induction false} LabelExact(row: Row, parity: string, v: View)
    requires v == ViewOf(row, parity)
    ensures NeedsLabel(v) <==> CounterRow(row) || StrippedRow(row)
    ensures NeedsComparison(v) <==> Said(row, "comparison_tier") == ""
    ensures NeedsMove(v) <==> UnboundVerdict(row, parity)
    ensures !(CounterRow(row) && StrippedRow(row))
  {
    BoundExact(row);
    ModesApart();
  }

  lemma {:induction false} ViewMigrated(v: View, parity: string, w: View)
    requires w == MigratedView(v, parity)
    ensures w.comparison == (if NeedsComparison(v) then "legacy-unqualified" else v.comparison)
    ensures w.tier == (if !NeedsLabel(v) then v.tier else if v.mode == "counter" then "counter"
                       else "stripped-uncounted")
    ensures w.compare == (if NeedsLabel(v) && v.mode == "counter" && v.compare == "" then "syscall-count-across-reps"
                          else v.compare)
    ensures w.parity == (if NeedsMove(v) then "" else v.parity)
    ensures w.legacy == (if NeedsMove(v) then parity + ":" + Strip(v.parity) else v.legacy)
  {
    LabelsElsewhere(v);
  }

  /** Every row of an accepted sheet, as the migrated file shows it. */
  lemma {:induction false} RowsMigrated(sheet: Sheet, file: string, i: nat, p: Plan, was: Row, now: Row)
    requires p == PlanOf(sheet, ExtraColumns(file)) && p.Proceed? && i < |sheet.records|
    requires was == RowAt(sheet, i) && now == RowAt(MigratedSheet(sheet, p.parity, p.widened), i)
    ensures RowMigrated(was, now, p.parity)
  {
    PlanWidens(sheet.header, file);
    MigratedReads(sheet, p.parity, p.widened, i);
    LabelExact(was, p.parity, ViewOf(was, p.parity));
    ViewMigrated(ViewOf(was, p.parity), p.parity, ViewOf(now, p.parity));
  }

  // ------------------------------------------------------------------ refusal

  const OBSERVABLES: set<string> := {"stdout_parity", "tool_count_parity", "parity"}

  ghost predicate OneObservable(header: seq<string>, parity: string) {
    parity in OBSERVABLES && forall name <- OBSERVABLES :: name in header <==> name == parity
  }

  const THREE: set<string> := {"bitwise_parity", "compared_log_messages", "tier"}
  const NINE: set<string> := EIGHT + {"legacy_parity_unqualified"}

  /** Some but not all of the columns. */
  ghost predicate Half(columns: set<string>, header: seq<string>) {
    (exists c <- columns :: c in header) && exists c <- columns :: c !in header
  }

  /** A different observation already stands where the verdict would go. */
  ghost predicate Clash(row: Row, parity: string) {
    && UnboundVerdict(row, parity) && Said(row, "legacy_parity_unqualified") != ""
    && Said(row, "legacy_parity_unqualified") != parity + ":" + Said(row, parity)
  }

  /** A sheet the migration works on: its rows fit, one observable, a place for the anchor, and no half schema. */
  ghost predicate Migratable(sheet: Sheet, parity: string) {
    && (forall r <- sheet.records :: |r| <= |sheet.header|)
    && OneObservable(sheet.header, parity)
    && ("verify_compare" in sheet.header || "reason" in sheet.header)
    && !Half(THREE, sheet.header) && !Half(NINE, sheet.header)
    && forall i: nat :: i < |sheet.records| ==> !Clash(RowAt(sheet, i), parity)
  }

  lemma {:induction false} ObservableNames(c: string)
    ensures c in PARITY_NAMES <==> c in OBSERVABLES
  {
  }

  lemma {:induction false} ThreeNames(c: string)
    ensures c in TIER_COLUMNS <==> c in THREE
  {
  }

  lemma {:induction false} NineNames(c: string)
    ensures c in PROVENANCE_COLUMNS <==> c in NINE
  {
    EightExact(c);
    assert PROVENANCE_COLUMNS == [LEGACY] + BOUND_COLUMNS;
  }

  lemma {:induction false} HalfExact(columns: seq<string>, s: set<string>, header: seq<string>)
    requires forall c :: c in columns <==> c in s
    ensures Partial(columns, header) <==> Half(s, header)
  {
    if !AllIn(columns, header) {
      var i :| 0 <= i < |columns| && columns[i] !in header;
      assert columns[i] in s;
    }
    if !NoneIn(columns, header) {
      var i :| 0 <= i < |columns| && columns[i] in header;
      assert columns[i] in s;
    }
    if c :| c in s && c in header {
      var i :| 0 <= i < |columns| && columns[i] == c;
    }
    if c :| c in s && c !in header {
      var i :| 0 <= i < |columns| && columns[i] == c;
    }
  }

  lemma {:induction false} HalfAnchored(s: set<string>, header: seq<string>, h: seq<string>)
    requires ANCHOR !in s && forall x :: x in h <==> x in header || x == ANCHOR
    ensures Half(s, h) <==> Half(s, header)
  {
    if c :| c in s && c in h { assert c in header; }
    if c :| c in s && c !in header { assert c !in h; }
    if c :| c in s && c in header { assert c in h; }
    if c :| c in s && c !in h { assert c !in header; }
  }

  ghost predicate Distinct(xs: seq<string>) {
    forall i, j :: 0 <= i < j < |xs| ==> xs[i] != xs[j]
  }

  lemma {:induction false} PresentNone(names: seq<string>, header: seq<string>)
    requires forall i :: 0 <= i < |names| ==> names[i] !in header
    ensures Present(names, header) == []
  {
    if names != [] {
      PresentNone(names[1..], header);
    }
  }

  lemma {:induction false} PresentOne(names: seq<string>, header: seq<string>, i: nat)
    requires i < |names| && names[i] in header && forall j :: 0 <= j < |names| && j != i ==> names[j] !in header
    ensures Present(names, header) == [names[i]]
  {
    if i == 0 {
      PresentNone(names[1..], header);
    } else {
      PresentOne(names[1..], header, i - 1);
    }
  }

  lemma {:induction false} OnlyOne(names: seq<string>, header: seq<string>, s: set<string>, parity: string)
    requires (forall c :: c in names <==> c in s) && Distinct(names)
    ensures Present(names, header) == [parity] <==>
            parity in s && forall name <- s :: name in header <==> name == parity
  {
    var present := Present(names, header);
    assert forall x :: x in present <==> x in s && x in header;
    if present == [parity] {
      assert forall x :: x in [parity] <==> x == parity;
    }
    if parity in s && forall name <- s :: name in header <==> name == parity {
      var i :| 0 <= i < |names| && names[i] == parity;
      forall j | 0 <= j < |names| && j != i ensures names[j] !in header {
        assert names[j] in s;
      }
      PresentOne(names, header, i);
    }
  }

  lemma {:induction false} NamesDistinct()
    ensures Distinct(PARITY_NAMES)
  {
    assert |"stdout_parity"| == 13 && |"tool_count_parity"| == 17 && |"parity"| == 6;
    assert PARITY_NAMES[0] == "stdout_parity" && PARITY_NAMES[1] == "tool_count_parity" && PARITY_NAMES[2] == "parity";
  }

  lemma {:induction false} ObservableExact(header: seq<string>, parity: string)
    ensures ParityColumn(header) == Some(parity) <==> OneObservable(header, parity)
  {
    forall c ensures c in PARITY_NAMES <==> c in OBSERVABLES {
      ObservableNames(c);
    }
    NamesDistinct();
    OnlyOne(PARITY_NAMES, header, OBSERVABLES, parity);
    var present := Present(PARITY_NAMES, header);
    if |present| == 1 {
      assert present == [present[0]];
    }
  }

  lemma {:induction false} AnchorOutside()
    ensures ANCHOR !in THREE && ANCHOR !in NINE
  {
    AnchorApart("");
    ThreeNames(ANCHOR);
    NineNames(ANCHOR);
  }

  lemma {:induction false} SchemaHalves(header: seq<string>)
    requires ANCHOR in header || REASON in header
    ensures Partial(TIER_COLUMNS, Anchored(header)) <==> Half(THREE, header)
    ensures Partial(PROVENANCE_COLUMNS, Anchored(header)) <==> Half(NINE, header)
  {
    var h := Anchored(header);
    AnchorOutside();
    forall c ensures c in TIER_COLUMNS <==> c in THREE {
      ThreeNames(c);
    }
    forall c ensures c in PROVENANCE_COLUMNS <==> c in NINE {
      NineNames(c);
    }
    HalfExact(TIER_COLUMNS, THREE, h);
    HalfExact(PROVENANCE_COLUMNS, NINE, h);
    HalfAnchored(THREE, header, h);
    HalfAnchored(NINE, header, h);
  }

  lemma {:induction false} ClashExact(row: Row, parity: string, v: View)
    requires v == ViewOf(row, parity)
    ensures Conflict(parity, v) <==> Clash(row, parity)
  {
    LabelExact(row, parity, v);
  }

  ghost predicate GoodHeader(header: seq<string>, parity: string) {
    && OneObservable(header, parity) && ("verify_compare" in header || "reason" in header)
    && !Half(THREE, header) && !Half(NINE, header)
  }

  lemma {:induction false} HeaderProceeds(header: seq<string>, extra: seq<string>, parity: string, p: Plan)
    requires p == HeaderPlan(header, extra)
    ensures p.Proceed? && p.parity == parity <==> GoodHeader(header, parity)
  {
    ObservableExact(header, parity);
    if ANCHOR in header || REASON in header {
      SchemaHalves(header);
    }
  }

  lemma {:induction false} ClashesExact(sheet: Sheet, parity: string)
    ensures AnyConflict(sheet, parity) <==> exists i: nat :: i < |sheet.records| && Clash(RowAt(sheet, i), parity)
  {
    forall i: nat | i < |sheet.records|
      ensures Conflict(parity, ViewOf(RowAt(sheet, i), parity)) <==> Clash(RowAt(sheet, i), parity)
    {
      ClashExact(RowAt(sheet, i), parity, ViewOf(RowAt(sheet, i), parity));
    }
  }

  /** The migration proceeds, on that observable, exactly with the sheets it can work on, and refuses all others. */
  lemma {:induction false} ProceedsExactly(sheet: Sheet, file: string, parity: string)
    ensures var p := PlanOf(sheet, ExtraColumns(file));
            p.Proceed? && p.parity == parity <==> Migratable(sheet, parity)
  {
    HeaderProceeds(sheet.header, ExtraColumns(file), parity, HeaderPlan(sheet.header, ExtraColumns(file)));
    ClashesExact(sheet, parity);
    FitsExact(sheet);
  }

  lemma {:induction false} FitsExact(sheet: Sheet)
    ensures OverWide(sheet) <==> exists r <- sheet.records :: |r| > |sheet.header|
  {
    if r :| r in sheet.records && |r| > |sheet.header| {
      var i :| 0 <= i < |sheet.records| && sheet.records[i] == r;
    }
    if OverWide(sheet) {
      var i :| 0 <= i < |sheet.records| && |sheet.records[i]| > |sheet.header|;
      assert sheet.records[i] in sheet.records;
    }
  }

  // -------------------------------------------------------------- the new header

  /** `inserted` stands right after the first column of that name. */
  ghost predicate InsertedAfter(was: seq<string>, now: seq<string>, name: string, inserted: seq<string>) {
    exists i: nat :: i < |was| && was[i] == name && name !in was[..i] && now == was[..i + 1] + inserted + was[i + 1..]
  }

  /** The columns the new header starts from: the old ones, with the anchor after the reason if it was missing. */
  ghost predicate AnchorPlaced(header: seq<string>, h: seq<string>) {
    if "verify_compare" in header then h == header else InsertedAfter(header, h, "reason", ["verify_compare"])
  }

  /** The three comparison columns after the anchor, unless they were there. */
  ghost predicate TierPlaced(h: seq<string>, t: seq<string>) {
    if "tier" in h then t == h
    else InsertedAfter(h, t, "verify_compare", ["bitwise_parity", "compared_log_messages", "tier"])
  }

  lemma {:induction false} InsertAfterExact(header: seq<string>, name: string, columns: seq<string>)
    requires name in header
    ensures InsertedAfter(header, InsertAfter(header, name, columns), name, columns)
  {
    var i := IndexOf(header, name);
    assert header[i] == name && name !in header[..i];
  }

  /** The new header: anchor and comparison columns in their place, and the rest appended. */
  lemma {:induction false} HeaderMeans(header: seq<string>, file: string, p: Plan)
    requires p == HeaderPlan(header, ExtraColumns(file)) && p.Proceed?
    ensures AnchorPlaced(header, p.anchored)
    ensures exists t :: TierPlaced(p.anchored, t) && t <= p.widened
                        && ("population_id" !in header ==> t + PROVENANCE_COLUMNS <= p.widened)
  {
    if ANCHOR !in header {
      InsertAfterExact(header, REASON, [ANCHOR]);
    }
    var h := p.anchored;
    var t := if AllIn(TIER_COLUMNS, h) then h else InsertAfter(h, ANCHOR, TIER_COLUMNS);
    assert TIER_COLUMNS[2] == TIER;
    if !AllIn(TIER_COLUMNS, h) {
      InsertAfterExact(h, ANCHOR, TIER_COLUMNS);
    }
    assert TierPlaced(h, t);
    Appended(h, t, ExtraColumns(file), p.widened);
    PopulationNamed(header);
  }

  lemma {:induction false} PopulationNamed(header: seq<string>)
    ensures "population_id" in PROVENANCE_COLUMNS && "population_id" != ANCHOR
  {
    assert PROVENANCE_COLUMNS[5] == "population_id";
    assert |"population_id"| == 13 && |ANCHOR| == 14;
  }

  lemma {:induction false} Appended(h: seq<string>, t: seq<string>, extra: seq<string>, widened: seq<string>)
    requires ANCHOR in h && widened == Widened(h, extra)
    requires t == if AllIn(TIER_COLUMNS, h) then h else InsertAfter(h, ANCHOR, TIER_COLUMNS)
    ensures t <= widened
    ensures !AllIn(PROVENANCE_COLUMNS, h) ==> t + PROVENANCE_COLUMNS <= widened
  {
  }
}
