/**
The provenance checker's verdict, said of the scorecard's own texts: which defect is reported of which
row and of which run, and what exit status 0 tells a reader.  Nothing here goes through the checker's
own predicates; every demand is spelled out over the columns it is about.
*/
module Attested {
  import opened Text
  import opened Reading
  import opened Sheets
  import opened Population
  import opened Provenance

  // ---------------------------------------------------------------- the texts

  function Said(row: Row, column: string): (text: string) {
    Strip(Get(row, column))
  }

  /** A tree state that counts as clean: a zero, or f-a-l-s-e in any letter case. */
  ghost predicate CleanTree(text: string) {
    || text == "0"
    || (&& |text| == 5 && text[0] in {'f', 'F'} && text[1] in {'a', 'A'} && text[2] in {'l', 'L'}
        && text[3] in {'s', 'S'} && text[4] in {'e', 'E'})
  }

  ghost predicate ClaimIn(row: Row, column: string) {
    Said(row, column) in {"0", "1"}
  }

  ghost predicate CountIs(row: Row, column: string, n: nat) {
    Denotes(Get(row, column), n)
  }

  ghost predicate Counted(row: Row, column: string) {
    exists n: nat :: CountIs(row, column, n)
  }

  /** A profile whose comparison is a nonempty list of texts. */
  ghost predicate Argv(l: Loaded) {
    l.Object? && l.comparison.Some? && |l.comparison.value| > 0 && forall x <- l.comparison.value :: x.TextItem?
  }

  ghost predicate Positive(item: Item) {
    (item.NumberItem? && item.number > 0) || (item.TextItem? && exists n: nat :: n > 0 && Denotes(item.text, n))
  }

  ghost predicate Repeated(l: Loaded) {
    && l.Object? && l.collector.Some? && |l.collector.value| == 2
    && l.collector.value[0] == TextItem("--reps") && Positive(l.collector.value[1])
  }

  /** The counts say that something was measured, and not more than was run, nor more run than selected. */
  ghost predicate Coverage(row: Row) {
    exists s: nat, x: nat, e: nat ::
      && CountIs(row, "selected_count", s) && CountIs(row, "executed_count", x) && CountIs(row, "evidence_count", e)
      && 0 < e <= x <= s
  }

  /** The verdict is not the equality of two well-formed hashes. */
  ghost predicate Contradicted(verdict: string, candidate: string, reference: string) {
    Hex(candidate, 64) && Hex(reference, 64) && (verdict == "1" <==> candidate != reference)
  }

  /** What the checker holds against a claiming row. */
  ghost predicate RowFault(d: RowDefect, row: Row, column: string, tool: bool, loads: string -> Loaded) {
    var l := loads(Get(row, "profile_flags"));
    match d
    case BadHermitSha => !Hex(Said(row, "hermit_sha"), 40)
    case BadReverieSha => !Hex(Said(row, "reverie_sha"), 40)
    case DirtyState => !CleanTree(Said(row, "dirty"))
    case BadCandidate => !Hex(Said(row, "output_hash"), 64)
    case BadReference => !Hex(Said(row, "ref_output_hash"), 64)
    case WrongComparator =>
      Said(row, "parity_comparator") != (if tool then "tool-count-sha256-exact-v1" else "stdout-sha256-exact-v1")
    case WrongTier => Said(row, "parity_tier") != (if tool then "tool-count-exact" else "stdout-exact")
    case ProfileShape => l.NotObject? || l.comparison.None?
    case ArgvMalformed => l.Object? && l.comparison.Some? && !Argv(l)
    case ArgvNotStrict => Argv(l) && !tool && TextItem("--strict") !in l.comparison.value
    case NoRepetitions => Argv(l) && tool && !Repeated(l)
    case BadPopulation => !exists hex: string :: Hex(hex, 64) && Said(row, "population_id") == "sha256:" + hex
    case CountsMalformed =>
      !Counted(row, "selected_count") || !Counted(row, "executed_count") || !Counted(row, "evidence_count")
    case CountsInvalid =>
      && Counted(row, "selected_count") && Counted(row, "executed_count") && Counted(row, "evidence_count")
      && !Coverage(row)
    case IdentityIncomplete => Said(row, "run_id") == "" || Said(row, "run_utc") == ""
    case VerdictMismatch => Contradicted(Said(row, column), Said(row, "output_hash"), Said(row, "ref_output_hash"))
  }

  // --------------------------------------------------- one row, against the checker

  lemma {:induction false} FalseSpelled(text: string)
    ensures Spells(text, "false") <==>
            && |text| == 5 && text[0] in {'f', 'F'} && text[1] in {'a', 'A'} && text[2] in {'l', 'L'}
            && text[3] in {'s', 'S'} && text[4] in {'e', 'E'}
  {
    var word := "false";
    assert word[0] == 'f' && word[1] == 'a' && word[2] == 'l' && word[3] == 's' && word[4] == 'e';
    if Spells(text, word) {
      assert EitherCase(text[0], word[0]) && EitherCase(text[1], word[1]) && EitherCase(text[2], word[2]);
      assert EitherCase(text[3], word[3]) && EitherCase(text[4], word[4]);
    }
  }

  lemma {:induction false} CleanExact(text: string)
    ensures CleanText(text) <==> CleanTree(text)
  {
    LowerExact(text, "false");
    FalseSpelled(text);
  }

  lemma {:induction false} CountExact(row: Row, column: string, n: nat)
    ensures PositiveInt(Get(row, column)) == Some(n) <==> CountIs(row, column, n)
  {
    IntExact(Get(row, column), n);
  }

  lemma {:induction false} CountedExact(row: Row, column: string)
    ensures PositiveInt(Get(row, column)).Some? <==> Counted(row, column)
  {
    var read := PositiveInt(Get(row, column));
    if read.Some? {
      CountExact(row, column, read.value);
    }
    if n: nat :| CountIs(row, column, n) {
      CountExact(row, column, n);
    }
  }

  lemma {:induction false} PopulationExact(text: string)
    ensures IsPopulationId(text) <==> exists hex: string :: Hex(hex, 64) && text == "sha256:" + hex
  {
    if IsPopulationId(text) {
      HexExact(text[7..], 64);
      assert text == "sha256:" + text[7..];
    }
    if hex: string :| Hex(hex, 64) && text == "sha256:" + hex {
      HexExact(hex, 64);
      assert text[7..] == hex && text[..7] == "sha256:";
    }
  }

  lemma {:induction false} PositiveExact(item: Item)
    ensures ItemInt(item).Some? && ItemInt(item) != Some(0) <==> Positive(item)
  {
    if item.TextItem? {
      var read := PositiveInt(item.text);
      if read.Some? {
        IntExact(item.text, read.value);
      }
      if n: nat :| n > 0 && Denotes(item.text, n) {
        IntExact(item.text, n);
      }
    }
  }

  lemma {:induction false} ProfileExact(l: Loaded)
    ensures TextArgv(l) <==> Argv(l)
    ensures Repeats(l) <==> Repeated(l)
  {
    if l.Object? && l.collector.Some? && |l.collector.value| == 2 {
      PositiveExact(l.collector.value[1]);
    }
  }

  lemma {:induction false} CoverageExact(row: Row, f: Facts, column: string)
    requires f == FactsOf(row, column)
    ensures CountsParse(f) <==>
            Counted(row, "selected_count") && Counted(row, "executed_count") && Counted(row, "evidence_count")
    ensures CountsParse(f) ==> (CountsOrdered(f) <==> Coverage(row))
  {
    CountedExact(row, "selected_count");
    CountedExact(row, "executed_count");
    CountedExact(row, "evidence_count");
    if CountsParse(f) {
      CountExact(row, "selected_count", f.selected.value);
      CountExact(row, "executed_count", f.executed.value);
      CountExact(row, "evidence_count", f.evidence.value);
      if Coverage(row) {
        CoverageOrders(row, f, column);
      }
    }
  }

  lemma {:induction false} CoverageOrders(row: Row, f: Facts, column: string)
    requires f == FactsOf(row, column) && Coverage(row)
    ensures CountsParse(f) && CountsOrdered(f)
  {
    var s: nat, x: nat, e: nat :|
      && CountIs(row, "selected_count", s) && CountIs(row, "executed_count", x) && CountIs(row, "evidence_count", e)
      && 0 < e <= x <= s;
    CountExact(row, "selected_count", s);
    CountExact(row, "executed_count", x);
    CountExact(row, "evidence_count", e);
  }

  /** The contract of a stdout or a tool-count column. */
  function ContractOf(column: string, tool: bool): (c: Contract) {
    if tool then Contract(column, TOOL_COMPARATOR, TOOL_TIER, true)
    else Contract(column, STDOUT_COMPARATOR, STDOUT_TIER, false)
  }

  lemma {:induction false} ShaReports(f: Facts, c: Contract, loads: string -> Loaded)
    ensures Reports(BadHermitSha, f, c, loads) <==> !Hex(f.hermit, 40)
    ensures Reports(BadReverieSha, f, c, loads) <==> !Hex(f.reverie, 40)
  {
    HexExact(f.hermit, 40);
    HexExact(f.reverie, 40);
  }

  lemma {:induction false} TreeReports(f: Facts, c: Contract, loads: string -> Loaded)
    ensures Reports(DirtyState, f, c, loads) <==> !CleanTree(f.dirty)
  {
    CleanExact(f.dirty);
  }

  lemma {:induction false} PopulationReports(f: Facts, c: Contract, loads: string -> Loaded)
    ensures Reports(BadPopulation, f, c, loads) <==>
            !exists hex: string :: Hex(hex, 64) && f.population == "sha256:" + hex
  {
    PopulationExact(f.population);
  }

  lemma {:induction false} HermitFault(f: Facts, row: Row, column: string, tool: bool, loads: string -> Loaded)
    requires f.hermit == Said(row, "hermit_sha")
    ensures Reports(BadHermitSha, f, ContractOf(column, tool), loads) <==>
            RowFault(BadHermitSha, row, column, tool, loads)
  {
    ShaReports(f, ContractOf(column, tool), loads);
  }

  lemma {:induction false} ReverieFault(f: Facts, row: Row, column: string, tool: bool, loads: string -> Loaded)
    requires f.reverie == Said(row, "reverie_sha")
    ensures Reports(BadReverieSha, f, ContractOf(column, tool), loads) <==>
            RowFault(BadReverieSha, row, column, tool, loads)
  {
    ShaReports(f, ContractOf(column, tool), loads);
  }

  lemma {:induction false} TreeFault(f: Facts, row: Row, column: string, tool: bool, loads: string -> Loaded)
    requires f.dirty == Said(row, "dirty")
    ensures Reports(DirtyState, f, ContractOf(column, tool), loads) <==> RowFault(DirtyState, row, column, tool, loads)
  {
    TreeReports(f, ContractOf(column, tool), loads);
  }

  lemma {:induction false} PopulationFault(f: Facts, row: Row, column: string, tool: bool, loads: string -> Loaded)
    requires f.population == Said(row, "population_id")
    ensures Reports(BadPopulation, f, ContractOf(column, tool), loads) <==>
            RowFault(BadPopulation, row, column, tool, loads)
  {
    PopulationReports(f, ContractOf(column, tool), loads);
  }

  lemma {:induction false} Columns(row: Row, column: string)
    ensures var f := FactsOf(row, column);
            && f.hermit == Said(row, "hermit_sha") && f.reverie == Said(row, "reverie_sha")
            && f.dirty == Said(row, "dirty")
  {
  }

  lemma {:induction false} PopulationSaid(row: Row, column: string)
    ensures FactsOf(row, column).population == Said(row, "population_id")
    ensures FactsOf(row, column).runUtc == Said(row, "run_utc")
  {
  }

  lemma {:induction false} ConditionFault(d: RowDefect, row: Row, column: string, tool: bool, loads: string -> Loaded)
    requires d in {BadHermitSha, BadReverieSha, DirtyState, BadPopulation}
    ensures Reports(d, FactsOf(row, column), ContractOf(column, tool), loads) <==>
            RowFault(d, row, column, tool, loads)
  {
    Columns(row, column);
    PopulationSaid(row, column);
    match d
    case BadHermitSha => HermitFault(FactsOf(row, column), row, column, tool, loads);
    case BadReverieSha => ReverieFault(FactsOf(row, column), row, column, tool, loads);
    case DirtyState => TreeFault(FactsOf(row, column), row, column, tool, loads);
    case BadPopulation => PopulationFault(FactsOf(row, column), row, column, tool, loads);
  }

  lemma {:induction false} MismatchExact(f: Facts)
    requires f.verdict in {"0", "1"}
    ensures HasOperands(f) && !Rederives(f) <==> Contradicted(f.verdict, f.candidate, f.reference)
  {
    HexExact(f.candidate, 64);
    HexExact(f.reference, 64);
  }

  lemma {:induction false} OperandReports(f: Facts, c: Contract, loads: string -> Loaded)
    ensures Reports(BadCandidate, f, c, loads) <==> !Hex(f.candidate, 64)
    ensures Reports(BadReference, f, c, loads) <==> !Hex(f.reference, 64)
  {
    HexExact(f.candidate, 64);
    HexExact(f.reference, 64);
  }

  lemma {:induction false} MismatchReports(f: Facts, c: Contract, loads: string -> Loaded)
    requires f.verdict in {"0", "1"}
    ensures Reports(VerdictMismatch, f, c, loads) <==> Contradicted(f.verdict, f.candidate, f.reference)
  {
    MismatchExact(f);
  }

  lemma {:induction false} CandidateFault(f: Facts, row: Row, column: string, tool: bool, loads: string -> Loaded)
    requires f.candidate == Said(row, "output_hash")
    ensures Reports(BadCandidate, f, ContractOf(column, tool), loads) <==>
            RowFault(BadCandidate, row, column, tool, loads)
  {
    OperandReports(f, ContractOf(column, tool), loads);
  }

  lemma {:induction false} ReferenceFault(f: Facts, row: Row, column: string, tool: bool, loads: string -> Loaded)
    requires f.reference == Said(row, "ref_output_hash")
    ensures Reports(BadReference, f, ContractOf(column, tool), loads) <==>
            RowFault(BadReference, row, column, tool, loads)
  {
    OperandReports(f, ContractOf(column, tool), loads);
  }

  lemma {:induction false} MismatchFault(row: Row, column: string, tool: bool, loads: string -> Loaded,
                                         verdict: string, candidate: string, reference: string)
    requires verdict == Said(row, column)
    requires candidate == Said(row, "output_hash") && reference == Said(row, "ref_output_hash")
    ensures RowFault(VerdictMismatch, row, column, tool, loads) <==> Contradicted(verdict, candidate, reference)
  {
  }

  lemma {:induction false} Operands(row: Row, column: string)
    ensures var f := FactsOf(row, column);
            && f.verdict == Said(row, column)
            && f.candidate == Said(row, "output_hash") && f.reference == Said(row, "ref_output_hash")
  {
  }

  lemma {:induction false} OperandFault(d: RowDefect, row: Row, column: string, tool: bool, loads: string -> Loaded)
    requires d in {BadCandidate, BadReference, VerdictMismatch} && ClaimIn(row, column)
    ensures Reports(d, FactsOf(row, column), ContractOf(column, tool), loads) <==>
            RowFault(d, row, column, tool, loads)
  {
    Operands(row, column);
    match d
    case BadCandidate => CandidateFault(FactsOf(row, column), row, column, tool, loads);
    case BadReference => ReferenceFault(FactsOf(row, column), row, column, tool, loads);
    case VerdictMismatch =>
      var f := FactsOf(row, column);
      MismatchReports(f, ContractOf(column, tool), loads);
      MismatchFault(row, column, tool, loads, f.verdict, f.candidate, f.reference);
  }

  lemma {:induction false} ProfileFault(d: RowDefect, row: Row, column: string, tool: bool, loads: string -> Loaded)
    requires d in {ProfileShape, ArgvMalformed, ArgvNotStrict, NoRepetitions}
    ensures Reports(d, FactsOf(row, column), ContractOf(column, tool), loads) <==>
            RowFault(d, row, column, tool, loads)
  {
    ProfileExact(loads(Get(row, "profile_flags")));
  }

  lemma {:induction false} CountFault(d: RowDefect, row: Row, column: string, tool: bool, loads: string -> Loaded)
    requires d in {CountsMalformed, CountsInvalid}
    ensures Reports(d, FactsOf(row, column), ContractOf(column, tool), loads) <==>
            RowFault(d, row, column, tool, loads)
  {
    CoverageExact(row, FactsOf(row, column), column);
  }

  lemma {:induction false} ComparatorFault(row: Row, column: string, tool: bool, loads: string -> Loaded)
    ensures Reports(WrongComparator, FactsOf(row, column), ContractOf(column, tool), loads) <==>
            RowFault(WrongComparator, row, column, tool, loads)
  {
  }

  lemma {:induction false} TierFault(row: Row, column: string, tool: bool, loads: string -> Loaded)
    ensures Reports(WrongTier, FactsOf(row, column), ContractOf(column, tool), loads) <==>
            RowFault(WrongTier, row, column, tool, loads)
  {
  }

  lemma {:induction false} IdentityFault(row: Row, column: string, tool: bool, loads: string -> Loaded)
    ensures Reports(IdentityIncomplete, FactsOf(row, column), ContractOf(column, tool), loads) <==>
            RowFault(IdentityIncomplete, row, column, tool, loads)
  {
    var f := FactsOf(row, column);
    assert f.run == Said(row, "run_id") && f.runUtc == Said(row, "run_utc");
    assert Reports(IdentityIncomplete, f, ContractOf(column, tool), loads) <==> f.run == "" || f.runUtc == "";
  }

  /** The row loop reports a defect of a claiming row exactly when the row is at fault. */
  lemma {:induction false} FaultExact(d: RowDefect, row: Row, column: string, tool: bool, loads: string -> Loaded)
    requires ClaimIn(row, column)
    ensures Reports(d, FactsOf(row, column), ContractOf(column, tool), loads) <==>
            RowFault(d, row, column, tool, loads)
  {
    if d in {BadHermitSha, BadReverieSha, DirtyState, BadPopulation} {
      ConditionFault(d, row, column, tool, loads);
    } else if d in {BadCandidate, BadReference, VerdictMismatch} {
      OperandFault(d, row, column, tool, loads);
    } else if d in {ProfileShape, ArgvMalformed, ArgvNotStrict, NoRepetitions} {
      ProfileFault(d, row, column, tool, loads);
    } else if d in {CountsMalformed, CountsInvalid} {
      CountFault(d, row, column, tool, loads);
    } else if d == WrongComparator {
      ComparatorFault(row, column, tool, loads);
    } else if d == WrongTier {
      TierFault(row, column, tool, loads);
    } else {
      IdentityFault(row, column, tool, loads);
    }
  }

  // ------------------------------------------------------------ the rows' defects

  function FactsFrom(rows: seq<Row>, column: string): (facts: seq<Facts>)
    ensures |facts| == |rows| && forall k :: 0 <= k < |rows| ==> facts[k] == FactsOf(rows[k], column)
  {
    seq(|rows|, k requires 0 <= k < |rows| => FactsOf(rows[k], column))
  }

  lemma {:induction false} FailingMembers(checks: seq<RowDefect>, f: Facts, c: Contract, loads: string -> Loaded,
                                          d: RowDefect)
    ensures d in Failing(checks, f, c, loads) <==> d in checks && Reports(d, f, c, loads)
  {
    if checks != [] {
      FailingMembers(checks[1..], f, c, loads, d);
      assert checks == [checks[0]] + checks[1..];
    }
  }

  lemma {:induction false} OneRowDefects(line: nat, f: Facts, c: Contract, loads: string -> Loaded, x: Defect)
    ensures x in RowDefects(line, f, c, loads) <==>
            x.InRow? && x.line == line && IsClaim(f) && Reports(x.what, f, c, loads)
  {
    if x.InRow? {
      FailingMembers(ROW_CHECKS, f, c, loads, x.what);
      EveryCheckListed(x.what);
      if x.line == line && IsClaim(f) && Reports(x.what, f, c, loads) {
        var found := Failing(ROW_CHECKS, f, c, loads);
        var i :| 0 <= i < |found| && found[i] == x.what;
        assert RowDefects(line, f, c, loads)[i] == x;
      }
    }
  }

  lemma {:induction false} RowDefectsIn(facts: seq<Facts>, c: Contract, loads: string -> Loaded, x: Defect)
    ensures x in AllRowDefects(facts, c, loads) <==>
            && x.InRow? && 2 <= x.line < |facts| + 2
            && IsClaim(facts[x.line - 2]) && Reports(x.what, facts[x.line - 2], c, loads)
  {
    if facts != [] {
      var n := |facts| - 1;
      RowDefectsIn(facts[..n], c, loads, x);
      OneRowDefects(n + 2, facts[n], c, loads, x);
    }
  }

  // -------------------------------------------------------------- runs as positions

  ghost function OfRun(rows: seq<Row>, run: string): set<nat> {
    set k: nat | k < |rows| && Said(rows[k], "run_id") == run
  }

  ghost function ClaimsOf(rows: seq<Row>, column: string, run: string): set<nat> {
    set k: nat | k < |rows| && Said(rows[k], "run_id") == run && ClaimIn(rows[k], column)
  }

  ghost predicate Increasing(ks: seq<nat>) {
    forall i, j :: 0 <= i < j < |ks| ==> ks[i] < ks[j]
  }

  /** `ks` are the positions of the members of a run, in order. */
  ghost predicate Places(facts: seq<Facts>, run: string, ks: seq<nat>) {
    && Increasing(ks) && |ks| == |Members(facts, run)|
    && (forall i :: 0 <= i < |ks| ==> ks[i] < |facts| && Members(facts, run)[i] == Member(ks[i] + 2, facts[ks[i]]))
    && (forall k: nat :: k in ks <==> k < |facts| && facts[k].run == run)
  }

  lemma {:induction false} MembersPlaced(facts: seq<Facts>, run: string) returns (ks: seq<nat>)
    ensures Places(facts, run, ks)
  {
    if facts == [] {
      ks := [];
    } else {
      var n := |facts| - 1;
      var front := MembersPlaced(facts[..n], run);
      ks := if facts[n].run == run then front + [n] else front;
      PlacesGrow(facts, run, front, ks);
    }
  }

  lemma {:induction false} MembersGrow(facts: seq<Facts>, run: string)
    requires facts != []
    ensures Members(facts, run)
            == Members(facts[..|facts| - 1], run)
               + if facts[|facts| - 1].run == run then [Member(|facts| + 1, facts[|facts| - 1])] else []
  {
  }

  lemma {:induction false} PlacesGrow(facts: seq<Facts>, run: string, front: seq<nat>, ks: seq<nat>)
    requires facts != [] && Places(facts[..|facts| - 1], run, front)
    requires ks == if facts[|facts| - 1].run == run then front + [|facts| - 1] else front
    ensures Places(facts, run, ks)
  {
    var n := |facts| - 1;
    MembersGrow(facts, run);
    assert forall i :: 0 <= i < |front| ==> front[i] in front;
    assert forall k :: 0 <= k < n ==> facts[..n][k] == facts[k];
    PlacesListed(facts, run, front, ks);
  }

  lemma {:induction false} PlacesListed(facts: seq<Facts>, run: string, front: seq<nat>, ks: seq<nat>)
    requires facts != [] && forall k: nat :: k in front <==> k < |facts| - 1 && facts[k].run == run
    requires ks == if facts[|facts| - 1].run == run then front + [|facts| - 1] else front
    ensures forall k: nat :: k in ks <==> k < |facts| && facts[k].run == run
  {
    forall k: nat ensures k in ks <==> k < |facts| && facts[k].run == run {
      assert k in ks <==> k in front || (k == |facts| - 1 && facts[|facts| - 1].run == run);
    }
  }

  lemma {:induction false} PlacesSize(ks: seq<nat>, s: set<nat>)
    requires Increasing(ks) && forall k: nat :: k in ks <==> k in s
    ensures |ks| == |s|
  {
    if ks == [] {
      assert s == {};
    } else {
      var n := |ks| - 1;
      var last, front := ks[n], ks[..n];
      assert ks == front + [last];
      assert forall k: nat :: k in front <==> k in s - {last};
      PlacesSize(front, s - {last});
    }
  }

  ghost predicate ClaimAt(members: seq<Member>, ks: seq<nat>, i: nat, k: nat)
    requires |ks| == |members|
  {
    i < |ks| && ks[i] == k && IsClaim(members[i].facts)
  }

  lemma {:induction false} ClaimsPlaced(members: seq<Member>, ks: seq<nat>) returns (cs: seq<nat>)
    requires |ks| == |members| && Increasing(ks)
    ensures Increasing(cs) && |cs| == ClaimsIn(members)
    ensures forall k: nat :: k in cs <==> exists i: nat :: ClaimAt(members, ks, i, k)
  {
    if members == [] {
      cs := [];
    } else {
      var n := |ks| - 1;
      var front := ClaimsPlaced(members[..n], ks[..n]);
      cs := if IsClaim(members[n].facts) then front + [ks[n]] else front;
      forall k: nat ensures k in front <==> exists i: nat :: i < n && ClaimAt(members, ks, i, k) {
        if i: nat :| ClaimAt(members[..n], ks[..n], i, k) {
          assert ClaimAt(members, ks, i, k);
        }
        if i: nat :| i < n && ClaimAt(members, ks, i, k) {
          assert ClaimAt(members[..n], ks[..n], i, k);
        }
      }
      ClaimsGrow(members, ks, front, cs);
    }
  }

  lemma {:induction false} ClaimsGrow(members: seq<Member>, ks: seq<nat>, front: seq<nat>, cs: seq<nat>)
    requires |ks| == |members| > 0 && Increasing(ks) && Increasing(front)
    requires forall k: nat :: k in front <==> exists i: nat :: i < |ks| - 1 && ClaimAt(members, ks, i, k)
    requires cs == if IsClaim(members[|ks| - 1].facts) then front + [ks[|ks| - 1]] else front
    ensures Increasing(cs)
    ensures forall k: nat :: k in cs <==> exists i: nat :: ClaimAt(members, ks, i, k)
  {
    var n := |ks| - 1;
    forall j | 0 <= j < |front| ensures front[j] < ks[n] {
      assert front[j] in front;
    }
    forall k: nat ensures k in cs <==> exists i: nat :: ClaimAt(members, ks, i, k) {
      if IsClaim(members[n].facts) && k == ks[n] {
        assert ClaimAt(members, ks, n, k);
      }
      if i: nat :| ClaimAt(members, ks, i, k) {
        assert i < n || i == n;
      }
    }
  }

  // ------------------------------------------------------------- the runs' defects

  function ColumnName(condition: Condition): (name: string) {
    match condition
    case RunUtc => "run_utc"
    case HermitSha => "hermit_sha"
    case ReverieSha => "reverie_sha"
    case PopulationText => "population_id"
    case SelectedCount => "selected_count"
    case ExecutedCount => "executed_count"
    case EvidenceCount => "evidence_count"
  }

  function ColumnOf(rows: seq<Row>, name: string): (texts: seq<string>)
    ensures |texts| == |rows| && forall k :: 0 <= k < |rows| ==> texts[k] == Said(rows[k], name)
  {
    seq(|rows|, k requires 0 <= k < |rows| => Said(rows[k], name))
  }

  function KeyAt(row: Row): (key: Key) {
    [Said(row, "run_mode"), Said(row, "lane"), Said(row, "bucket"), Said(row, "test_id"), Said(row, "test_mode"),
     Said(row, "backend"), Said(row, "cell_state")]
  }

  ghost function KeysAt(rows: seq<Row>, order: seq<nat>): (keys: seq<Key>)
    requires forall i :: 0 <= i < |order| ==> order[i] < |rows|
    ensures |keys| == |order| && forall i :: 0 <= i < |order| ==> keys[i] == KeyAt(rows[order[i]])
  {
    seq(|order|, i requires 0 <= i < |order| => KeyAt(rows[order[i]]))
  }

  /** The positions of a run's rows, each once, in any order. */
  ghost predicate ListsRun(rows: seq<Row>, run: string, order: seq<nat>) {
    && (forall i :: 0 <= i < |order| ==> order[i] < |rows|)
    && (forall k: nat :: k in order <==> k in OfRun(rows, run))
    && (forall i, j :: 0 <= i < j < |order| ==> order[i] != order[j])
  }

  ghost predicate FirstOf(rows: seq<Row>, run: string, k: nat) {
    k in OfRun(rows, run) && forall j <- OfRun(rows, run) :: k <= j
  }

  /** The recorded population is not the digest of the rows present. */
  ghost predicate Unbound(rows: seq<Row>, run: string, k: nat, sha: string -> string)
    requires k < |rows|
  {
    exists order: seq<nat> ::
      ListsRun(rows, run, order) && Said(rows[k], "population_id") != PopulationId(sha, KeysAt(rows, order))
  }

  ghost predicate NotSha(text: string) {
    !Hex(text, 40)
  }

  ghost predicate NotClean(text: string) {
    !CleanTree(text)
  }

  /** Some row of the run says something in the column that it must not. */
  ghost predicate SomeSays(rows: seq<Row>, run: string, texts: seq<string>, bad: string -> bool)
    requires |texts| == |rows|
  {
    exists k <- OfRun(rows, run) :: bad(texts[k])
  }

  ghost predicate LineSays(rows: seq<Row>, run: string, texts: seq<string>, bad: string -> bool, line: nat)
    requires |texts| == |rows|
  {
    exists k <- OfRun(rows, run) :: line == k + 2 && bad(texts[k])
  }

  ghost predicate TwoSay(rows: seq<Row>, run: string, texts: seq<string>)
    requires |texts| == |rows|
  {
    exists j <- OfRun(rows, run), k <- OfRun(rows, run) :: texts[j] != texts[k]
  }

  ghost predicate MiscountsAt(rows: seq<Row>, run: string, column: string, n: nat, k: nat) {
    FirstOf(rows, run, k) && !CountIs(rows[k], column, n)
  }

  /** The first row of the run does not state the count. */
  ghost predicate Miscounts(rows: seq<Row>, run: string, column: string, n: nat) {
    exists k: nat :: MiscountsAt(rows, run, column, n, k)
  }

  ghost predicate Misbound(rows: seq<Row>, run: string, sha: string -> string) {
    exists k <- OfRun(rows, run) :: FirstOf(rows, run, k) && Unbound(rows, run, k, sha)
  }

  /** What the checker holds against a run that makes a claim. */
  ghost predicate RunFault(why: RunDefect, rows: seq<Row>, column: string, run: string, sha: string -> string) {
    if run == "" then why == BlankRun
    else
      match why
      case BlankRun => false
      case Missing(condition) => SomeSays(rows, run, ColumnOf(rows, ColumnName(condition)), t => t == "")
      case Mixed(condition) => TwoSay(rows, run, ColumnOf(rows, ColumnName(condition)))
      case RunHermitSha(line) => LineSays(rows, run, ColumnOf(rows, "hermit_sha"), NotSha, line)
      case RunReverieSha(line) => LineSays(rows, run, ColumnOf(rows, "reverie_sha"), NotSha, line)
      case RunDirty(line) => LineSays(rows, run, ColumnOf(rows, "dirty"), NotClean, line)
      case SelectedMismatch => Miscounts(rows, run, "selected_count", |OfRun(rows, run)|)
      case EvidenceMismatch => Miscounts(rows, run, "evidence_count", |ClaimsOf(rows, column, run)|)
      case PopulationMismatch => Misbound(rows, run, sha)
  }

  // the same over the checker's member list

  predicate NotLowerSha(text: string) {
    !LowerHex(text, 40)
  }

  predicate NotCleanText(text: string) {
    !CleanText(text)
  }

  function HermitOf(f: Facts): (text: string) {
    f.hermit
  }

  function ReverieOf(f: Facts): (text: string) {
    f.reverie
  }

  function DirtyOf(f: Facts): (text: string) {
    f.dirty
  }

  ghost predicate SomeMemberSays(ms: seq<Member>, v: Facts -> string, bad: string -> bool) {
    exists m <- ms :: bad(v(m.facts))
  }

  ghost predicate MemberLineSays(ms: seq<Member>, v: Facts -> string, bad: string -> bool, line: nat) {
    exists m <- ms :: m.line == line && bad(v(m.facts))
  }

  ghost predicate TwoMembersSay(ms: seq<Member>, v: Facts -> string) {
    exists a <- ms, b <- ms :: v(a.facts) != v(b.facts)
  }

  ghost predicate Held(why: RunDefect, run: string, ms: seq<Member>, sha: string -> string)
    requires ms != []
  {
    if run == "" then why == BlankRun
    else
      match why
      case BlankRun => false
      case Missing(condition) => SomeMemberSays(ms, f => Valued(f, condition), t => t == "")
      case Mixed(condition) => TwoMembersSay(ms, f => Valued(f, condition))
      case RunHermitSha(line) => MemberLineSays(ms, HermitOf, NotLowerSha, line)
      case RunReverieSha(line) => MemberLineSays(ms, ReverieOf, NotLowerSha, line)
      case RunDirty(line) => MemberLineSays(ms, DirtyOf, NotCleanText, line)
      case SelectedMismatch => ms[0].facts.selected != Some(|ms|)
      case EvidenceMismatch => ms[0].facts.evidence != Some(ClaimsIn(ms))
      case PopulationMismatch => ms[0].facts.population != PopulationId(sha, MemberKeys(ms))
  }

  lemma {:induction false} MixedExact(ms: seq<Member>, c: Condition)
    ensures |Values(ms, c)| > 1 <==> exists a <- ms, b <- ms :: Valued(a.facts, c) != Valued(b.facts, c)
  {
    var values := Values(ms, c);
    if a, b :| a in ms && b in ms && Valued(a.facts, c) != Valued(b.facts, c) {
      SubsetSize({Valued(a.facts, c), Valued(b.facts, c)}, values);
    } else if ms != [] {
      assert values == {Valued(ms[0].facts, c)};
    } else {
      assert values == {};
    }
  }

  lemma {:induction false} ConditionIn(ms: seq<Member>, conditions: seq<Condition>, x: RunDefect)
    ensures x in ConditionsDefects(ms, conditions) <==>
            || (x.Missing? && x.condition in conditions && "" in Values(ms, x.condition))
            || (x.Mixed? && x.condition in conditions && |Values(ms, x.condition)| > 1)
  {
    if conditions != [] {
      ConditionIn(ms, conditions[1..], x);
      assert conditions == [conditions[0]] + conditions[1..];
    }
  }

  lemma {:induction false} MemberIn(ms: seq<Member>, x: RunDefect)
    ensures x in MembersDefects(ms) <==> exists m <- ms :: x in MemberDefects(m)
  {
    if ms != [] {
      MemberIn(ms[1..], x);
      assert ms == [ms[0]] + ms[1..];
    }
  }

  lemma {:induction false} ConditionHeld(ms: seq<Member>, run: string, x: RunDefect, sha: string -> string)
    requires ms != [] && run != "" && (x.Missing? || x.Mixed?)
    ensures x in ConditionsDefects(ms, CONDITIONS) <==> Held(x, run, ms, sha)
  {
    ConditionIn(ms, CONDITIONS, x);
    EveryConditionListed(x.condition);
    MixedExact(ms, x.condition);
  }

  lemma {:induction false} MemberHeld(ms: seq<Member>, run: string, x: RunDefect, sha: string -> string)
    requires ms != [] && run != "" && (x.RunHermitSha? || x.RunReverieSha? || x.RunDirty?)
    ensures x in MembersDefects(ms) <==> Held(x, run, ms, sha)
  {
    MemberIn(ms, x);
  }

  lemma {:induction false} MemberKinds(m: Member, x: RunDefect)
    requires x in MemberDefects(m)
    ensures x.RunHermitSha? || x.RunReverieSha? || x.RunDirty?
  {
  }

  lemma {:induction false} ListKinds(ms: seq<Member>, x: RunDefect)
    ensures x in ConditionsDefects(ms, CONDITIONS) ==> x.Missing? || x.Mixed?
    ensures x in MembersDefects(ms) ==> x.RunHermitSha? || x.RunReverieSha? || x.RunDirty?
  {
    ConditionIn(ms, CONDITIONS, x);
    MemberIn(ms, x);
    if m :| m in ms && x in MemberDefects(m) {
      MemberKinds(m, x);
    }
  }

  lemma {:induction false} BindingHeldAs(run: string, ms: seq<Member>, sha: string -> string)
    requires ms != [] && run != ""
    ensures Held(SelectedMismatch, run, ms, sha) <==> ms[0].facts.selected != Some(|ms|)
    ensures Held(EvidenceMismatch, run, ms, sha) <==> ms[0].facts.evidence != Some(ClaimsIn(ms))
    ensures Held(PopulationMismatch, run, ms, sha) <==>
            ms[0].facts.population != PopulationId(sha, MemberKeys(ms))
  {
  }

  lemma {:induction false} ThreeListed(a: bool, b: bool, c: bool, x: RunDefect)
    ensures x in (if a then [] else [SelectedMismatch]) + (if b then [] else [EvidenceMismatch])
                 + (if c then [] else [PopulationMismatch]) <==>
            (x == SelectedMismatch && !a) || (x == EvidenceMismatch && !b) || (x == PopulationMismatch && !c)
  {
  }

  lemma {:induction false} BindingHeld(ms: seq<Member>, run: string, x: RunDefect, sha: string -> string)
    requires ms != [] && run != ""
    ensures x in BindingDefects(ms, sha) <==>
            && (x.SelectedMismatch? || x.EvidenceMismatch? || x.PopulationMismatch?)
            && Held(x, run, ms, sha)
  {
    var first := ms[0].facts;
    ThreeListed(first.selected == Some(|ms|), first.evidence == Some(ClaimsIn(ms)),
                first.population == PopulationId(sha, MemberKeys(ms)), x);
    BindingHeldAs(run, ms, sha);
  }

  lemma {:induction false} ListedHeld(ms: seq<Member>, run: string, x: RunDefect, sha: string -> string)
    requires ms != [] && run != ""
    ensures x in ConditionsDefects(ms, CONDITIONS) + MembersDefects(ms) + BindingDefects(ms, sha) <==>
            Held(x, run, ms, sha)
  {
    ListKinds(ms, x);
    BindingHeld(ms, run, x, sha);
    if x.Missing? || x.Mixed? {
      ConditionHeld(ms, run, x, sha);
    } else if x.RunHermitSha? || x.RunReverieSha? || x.RunDirty? {
      MemberHeld(ms, run, x, sha);
    }
  }

  lemma {:induction false} OneRunDefects(run: string, ms: seq<Member>, sha: string -> string, x: Defect)
    requires ms != []
    ensures x in RunDefects(run, ms, sha) <==>
            x.InRun? && x.run == run && ClaimsIn(ms) > 0 && Held(x.why, run, ms, sha)
  {
    var found :=
      if ClaimsIn(ms) == 0 then []
      else if run == "" then [BlankRun]
      else ConditionsDefects(ms, CONDITIONS) + MembersDefects(ms) + BindingDefects(ms, sha);
    if x.InRun? && run != "" {
      ListedHeld(ms, run, x.why, sha);
    }
    if x.InRun? && x.run == run && x.why in found {
      var i :| 0 <= i < |found| && found[i] == x.why;
      assert RunDefects(run, ms, sha)[i] == x;
    }
  }

  /** Held against a claiming run of these rows. */
  ghost predicate HeldOf(facts: seq<Facts>, run: string, why: RunDefect, sha: string -> string) {
    var ms := Members(facts, run);
    ms != [] && ClaimsIn(ms) > 0 && Held(why, run, ms, sha)
  }

  lemma {:induction false} OneRunHeld(facts: seq<Facts>, run: string, sha: string -> string, x: Defect)
    requires Members(facts, run) != []
    ensures x in RunDefects(run, Members(facts, run), sha) <==>
            x.InRun? && x.run == run && HeldOf(facts, run, x.why, sha)
  {
    OneRunDefects(run, Members(facts, run), sha, x);
  }

  lemma {:induction false} RunDefectsListed(facts: seq<Facts>, runs: seq<string>, sha: string -> string, x: Defect,
                                            held: string -> bool)
    requires forall r <- runs :: Members(facts, r) != []
    requires forall r <- runs :: x in RunDefects(r, Members(facts, r), sha) <==> x.InRun? && x.run == r && held(r)
    ensures x in AllRunDefects(facts, runs, sha) <==> x.InRun? && x.run in runs && held(x.run)
  {
    if runs != [] {
      var n := |runs| - 1;
      assert runs == runs[..n] + [runs[n]];
      RunDefectsListed(facts, runs[..n], sha, x, held);
    }
  }

  lemma {:induction false} RunDefectsIn(facts: seq<Facts>, runs: seq<string>, sha: string -> string, x: Defect)
    requires forall r <- runs :: Members(facts, r) != []
    ensures x in AllRunDefects(facts, runs, sha) <==> x.InRun? && x.run in runs && HeldOf(facts, x.run, x.why, sha)
  {
    forall r | r in runs
      ensures x in RunDefects(r, Members(facts, r), sha) <==> x.InRun? && x.run == r && HeldOf(facts, r, x.why, sha)
    {
      OneRunHeld(facts, r, sha, x);
    }
    RunDefectsListed(facts, runs, sha, x, r => x.InRun? && HeldOf(facts, r, x.why, sha));
  }

  // ------------------------------------------------- members and positions compared

  /** The checker's member list of a run, with its positions. */
  ghost predicate Aligned(facts: seq<Facts>, here: set<nat>, ms: seq<Member>, ks: seq<nat>) {
    && Increasing(ks) && |ks| == |ms|
    && (forall i :: 0 <= i < |ks| ==> ks[i] < |facts| && ms[i] == Member(ks[i] + 2, facts[ks[i]]))
    && (forall k: nat :: k in ks <==> k in here)
    && (forall k <- here :: k < |facts|)
  }

  lemma {:induction false} RunSaid(row: Row, column: string)
    ensures FactsOf(row, column).run == Said(row, "run_id")
    ensures IsClaim(FactsOf(row, column)) <==> ClaimIn(row, column)
  {
  }

  lemma {:induction false} MembersAligned(rows: seq<Row>, column: string, run: string, facts: seq<Facts>)
    returns (ks: seq<nat>)
    requires facts == FactsFrom(rows, column)
    ensures Aligned(facts, OfRun(rows, run), Members(facts, run), ks)
  {
    ks := MembersPlaced(facts, run);
    forall k: nat ensures k in ks <==> k in OfRun(rows, run) {
      if k < |rows| {
        RunSaid(rows[k], column);
      }
    }
  }

  /** Some member has a property exactly when some row of the run has it. */
  lemma {:induction false} SomeMember(facts: seq<Facts>, here: set<nat>, ms: seq<Member>, ks: seq<nat>,
                                      p: Member -> bool)
    requires Aligned(facts, here, ms, ks)
    ensures (exists m <- ms :: p(m)) <==> exists k <- here :: p(Member(k + 2, facts[k]))
  {
    if m :| m in ms && p(m) {
      var i :| 0 <= i < |ms| && ms[i] == m;
      assert ks[i] in ks;
    }
    if k :| k in here && p(Member(k + 2, facts[k])) {
      assert k in ks;
      var i :| 0 <= i < |ks| && ks[i] == k;
      assert ms[i] in ms;
    }
  }

  lemma {:induction false} FirstMember(rows: seq<Row>, run: string, facts: seq<Facts>, ms: seq<Member>, ks: seq<nat>)
    requires Aligned(facts, OfRun(rows, run), ms, ks) && ms != []
    ensures FirstOf(rows, run, ks[0]) && ms[0].facts == facts[ks[0]]
    ensures forall k: nat :: FirstOf(rows, run, k) ==> k == ks[0]
  {
    assert ks[0] in ks;
    forall j <- OfRun(rows, run) ensures ks[0] <= j {
      assert j in ks;
      var i :| 0 <= i < |ks| && ks[i] == j;
    }
  }

  lemma {:induction false} RunSizes(rows: seq<Row>, column: string, run: string, facts: seq<Facts>, ms: seq<Member>,
                                    ks: seq<nat>)
    requires facts == FactsFrom(rows, column) && Aligned(facts, OfRun(rows, run), ms, ks)
    ensures |ms| == |OfRun(rows, run)| && ClaimsIn(ms) == |ClaimsOf(rows, column, run)|
  {
    PlacesSize(ks, OfRun(rows, run));
    var cs := ClaimsPlaced(ms, ks);
    forall k: nat ensures k in cs <==> k in ClaimsOf(rows, column, run) {
      if k < |rows| {
        RunSaid(rows[k], column);
      }
      if i: nat :| ClaimAt(ms, ks, i, k) {
        assert ks[i] in ks;
      }
      if k in ClaimsOf(rows, column, run) {
        assert k in ks;
        var i: nat :| i < |ks| && ks[i] == k;
        assert ClaimAt(ms, ks, i, k);
      }
    }
    PlacesSize(cs, ClaimsOf(rows, column, run));
  }

  lemma {:induction false} ListedOnce(order: seq<nat>, s: set<nat>)
    requires forall k: nat :: k in order <==> k in s
    requires forall i, j :: 0 <= i < j < |order| ==> order[i] != order[j]
    ensures multiset(order) == multiset(s)
  {
    if order == [] {
      assert s == {};
    } else {
      var n := |order| - 1;
      var front, last := order[..n], order[n];
      assert order == front + [last];
      assert forall k: nat :: k in front <==> k in s - {last};
      ListedOnce(front, s - {last});
      assert s == (s - {last}) + {last};
    }
  }

  /** The population id does not depend on the order in which the rows of the run are listed. */
  lemma {:induction false} AnyListing(rows: seq<Row>, run: string, a: seq<nat>, b: seq<nat>, sha: string -> string)
    requires ListsRun(rows, run, a) && ListsRun(rows, run, b)
    ensures PopulationId(sha, KeysAt(rows, a)) == PopulationId(sha, KeysAt(rows, b))
  {
    ListedOnce(a, OfRun(rows, run));
    ListedOnce(b, OfRun(rows, run));
    var f := (k: nat) => if k < |rows| then KeyAt(rows[k]) else [];
    assert Map(f, a) == KeysAt(rows, a) && Map(f, b) == KeysAt(rows, b);
    MapPermutation(f, a, b);
    PreimageIgnoresOrder(KeysAt(rows, a), KeysAt(rows, b));
  }

  lemma {:induction false} CountTexts(row: Row, column: string)
    ensures var f := FactsOf(row, column);
            && f.selectedText == Said(row, "selected_count") && f.executedText == Said(row, "executed_count")
            && f.evidenceText == Said(row, "evidence_count")
  {
  }

  lemma {:induction false} ValueSaid(row: Row, column: string, c: Condition)
    ensures Valued(FactsOf(row, column), c) == Said(row, ColumnName(c))
  {
    match c
    case RunUtc => PopulationSaid(row, column);
    case HermitSha => Columns(row, column);
    case ReverieSha => Columns(row, column);
    case PopulationText => PopulationSaid(row, column);
    case SelectedCount => CountTexts(row, column);
    case ExecutedCount => CountTexts(row, column);
    case EvidenceCount => CountTexts(row, column);
  }

  lemma {:induction false} SomeText(facts: seq<Facts>, here: set<nat>, ms: seq<Member>, ks: seq<nat>,
                                    v: Facts -> string, texts: seq<string>, bad: string -> bool)
    requires Aligned(facts, here, ms, ks) && |texts| == |facts|
    requires forall k :: 0 <= k < |facts| ==> v(facts[k]) == texts[k]
    ensures SomeMemberSays(ms, v, bad) <==> exists k <- here :: bad(texts[k])
  {
    SomeMember(facts, here, ms, ks, (m: Member) => bad(v(m.facts)));
  }

  lemma {:induction false} TextsDiffer(facts: seq<Facts>, here: set<nat>, ms: seq<Member>, ks: seq<nat>,
                                       v: Facts -> string, texts: seq<string>)
    requires Aligned(facts, here, ms, ks) && |texts| == |facts|
    requires forall k :: 0 <= k < |facts| ==> v(facts[k]) == texts[k]
    ensures TwoMembersSay(ms, v) <==> exists j <- here, k <- here :: texts[j] != texts[k]
  {
    if a, b :| a in ms && b in ms && v(a.facts) != v(b.facts) {
      var i :| 0 <= i < |ms| && ms[i] == a;
      var j :| 0 <= j < |ms| && ms[j] == b;
      assert ks[i] in ks && ks[j] in ks;
    }
    if j, k :| j in here && k in here && texts[j] != texts[k] {
      assert j in ks && k in ks;
      var x :| 0 <= x < |ks| && ks[x] == j;
      var y :| 0 <= y < |ks| && ks[y] == k;
      assert ms[x] in ms && ms[y] in ms;
    }
  }

  lemma {:induction false} LineText(facts: seq<Facts>, here: set<nat>, ms: seq<Member>, ks: seq<nat>,
                                    v: Facts -> string, texts: seq<string>, bad: string -> bool, line: nat)
    requires Aligned(facts, here, ms, ks) && |texts| == |facts|
    requires forall k :: 0 <= k < |facts| ==> v(facts[k]) == texts[k]
    ensures MemberLineSays(ms, v, bad, line) <==> exists k <- here :: line == k + 2 && bad(texts[k])
  {
    SomeMember(facts, here, ms, ks, (m: Member) => m.line == line && bad(v(m.facts)));
  }

  /** A claiming run with the checker's member list and its positions. */
  ghost predicate Seen(rows: seq<Row>, column: string, run: string, facts: seq<Facts>, ms: seq<Member>, ks: seq<nat>) {
    && facts == FactsFrom(rows, column) && ms == Members(facts, run) && ms != []
    && Aligned(facts, OfRun(rows, run), ms, ks)
  }

  lemma {:induction false} ConditionFaults(rows: seq<Row>, column: string, run: string, facts: seq<Facts>,
                                           ms: seq<Member>, ks: seq<nat>, v: Facts -> string, texts: seq<string>)
    requires Seen(rows, column, run, facts, ms, ks) && |texts| == |rows|
    requires forall k :: 0 <= k < |rows| ==> v(facts[k]) == texts[k]
    ensures SomeMemberSays(ms, v, t => t == "") <==> SomeSays(rows, run, texts, t => t == "")
    ensures TwoMembersSay(ms, v) <==> TwoSay(rows, run, texts)
  {
    SomeText(facts, OfRun(rows, run), ms, ks, v, texts, t => t == "");
    TextsDiffer(facts, OfRun(rows, run), ms, ks, v, texts);
  }

  lemma {:induction false} LineFaults(rows: seq<Row>, column: string, run: string, facts: seq<Facts>,
                                      ms: seq<Member>, ks: seq<nat>, v: Facts -> string, texts: seq<string>,
                                      bad: string -> bool, line: nat)
    requires Seen(rows, column, run, facts, ms, ks) && |texts| == |rows|
    requires forall k :: 0 <= k < |rows| ==> v(facts[k]) == texts[k]
    ensures MemberLineSays(ms, v, bad, line) <==> LineSays(rows, run, texts, bad, line)
  {
    LineText(facts, OfRun(rows, run), ms, ks, v, texts, bad, line);
  }

  lemma {:induction false} FirstMiscounts(rows: seq<Row>, run: string, column: string, n: nat, k: nat)
    requires FirstOf(rows, run, k)
    ensures Miscounts(rows, run, column, n) <==> !CountIs(rows[k], column, n)
  {
    if !CountIs(rows[k], column, n) {
      assert MiscountsAt(rows, run, column, n, k);
    }
    if j: nat :| MiscountsAt(rows, run, column, n, j) {
      assert j == k;
    }
  }

  lemma {:induction false} CountRead(row: Row, column: string)
    ensures FactsOf(row, column).selected == PositiveInt(Get(row, "selected_count"))
    ensures FactsOf(row, column).evidence == PositiveInt(Get(row, "evidence_count"))
  {
  }

  /** The first member's count against the row it was read from. */
  lemma {:induction false} CountStated(read: Option<nat>, rows: seq<Row>, run: string, column: string, n: nat, k: nat)
    requires FirstOf(rows, run, k) && read == PositiveInt(Get(rows[k], column))
    ensures read != Some(n) <==> Miscounts(rows, run, column, n)
  {
    FirstMiscounts(rows, run, column, n, k);
    CountExact(rows[k], column, n);
  }

  lemma {:induction false} CountFaults(rows: seq<Row>, column: string, run: string, facts: seq<Facts>,
                                       ms: seq<Member>, ks: seq<nat>)
    requires Seen(rows, column, run, facts, ms, ks)
    ensures ms[0].facts.selected != Some(|ms|) <==> Miscounts(rows, run, "selected_count", |OfRun(rows, run)|)
    ensures ms[0].facts.evidence != Some(ClaimsIn(ms)) <==>
            Miscounts(rows, run, "evidence_count", |ClaimsOf(rows, column, run)|)
  {
    FirstMember(rows, run, facts, ms, ks);
    RunSizes(rows, column, run, facts, ms, ks);
    CountRead(rows[ks[0]], column);
    CountStated(ms[0].facts.selected, rows, run, "selected_count", |ms|, ks[0]);
    CountStated(ms[0].facts.evidence, rows, run, "evidence_count", ClaimsIn(ms), ks[0]);
  }

  lemma {:induction false} SevenMapped(raw: seq<string>, key: seq<string>, f: string -> string)
    requires |raw| == 7 && |key| == 7 && forall i :: 0 <= i < 7 ==> key[i] == f(raw[i])
    ensures key == [f(raw[0]), f(raw[1]), f(raw[2]), f(raw[3]), f(raw[4]), f(raw[5]), f(raw[6])]
  {
  }

  lemma {:induction false} RowKeySaid(row: Row)
    ensures RowKey(row) == KeyAt(row)
  {
    var raw := [Get(row, "run_mode"), Get(row, "lane"), Get(row, "bucket"), Get(row, "test_id"), Get(row, "test_mode"),
                Get(row, "backend"), Get(row, "cell_state")];
    SevenMapped(raw, StripKey(raw), Strip);
  }

  lemma {:induction false} KeySaid(row: Row, column: string)
    ensures FactsOf(row, column).key == KeyAt(row)
  {
    RowKeySaid(row);
  }

  lemma {:induction false} MemberKeysAt(rows: seq<Row>, column: string, run: string, facts: seq<Facts>,
                                        ms: seq<Member>, ks: seq<nat>)
    requires Seen(rows, column, run, facts, ms, ks)
    ensures ListsRun(rows, run, ks) && MemberKeys(ms) == KeysAt(rows, ks)
  {
    forall i | 0 <= i < |ms| ensures MemberKeys(ms)[i] == KeyAt(rows[ks[i]]) {
      KeySaid(rows[ks[i]], column);
    }
  }

  lemma {:induction false} PopulationFaults(rows: seq<Row>, column: string, run: string, facts: seq<Facts>,
                                            ms: seq<Member>, ks: seq<nat>, sha: string -> string)
    requires Seen(rows, column, run, facts, ms, ks)
    ensures ms[0].facts.population != PopulationId(sha, MemberKeys(ms)) <==> Misbound(rows, run, sha)
  {
    FirstMember(rows, run, facts, ms, ks);
    MemberKeysAt(rows, column, run, facts, ms, ks);
    if order :| ListsRun(rows, run, order)
                && Said(rows[ks[0]], "population_id") != PopulationId(sha, KeysAt(rows, order)) {
      AnyListing(rows, run, ks, order, sha);
    }
  }

  lemma {:induction false} SameBad(rows: seq<Row>, run: string, texts: seq<string>, p: string -> bool,
                                   q: string -> bool, line: nat)
    requires |texts| == |rows| && forall t :: p(t) <==> q(t)
    ensures LineSays(rows, run, texts, p, line) <==> LineSays(rows, run, texts, q, line)
  {
  }

  lemma {:induction false} ShaFaults(rows: seq<Row>, column: string, run: string, facts: seq<Facts>, ms: seq<Member>,
                                     ks: seq<nat>, v: Facts -> string, texts: seq<string>, line: nat)
    requires Seen(rows, column, run, facts, ms, ks) && |texts| == |rows|
    requires forall k :: 0 <= k < |rows| ==> v(facts[k]) == texts[k]
    ensures MemberLineSays(ms, v, NotLowerSha, line) <==>
            LineSays(rows, run, texts, NotSha, line)
  {
    LineFaults(rows, column, run, facts, ms, ks, v, texts, NotLowerSha, line);
    forall t ensures LowerHex(t, 40) <==> Hex(t, 40) {
      HexExact(t, 40);
    }
    SameBad(rows, run, texts, NotLowerSha, NotSha, line);
  }

  lemma {:induction false} DirtyFaults(rows: seq<Row>, column: string, run: string, facts: seq<Facts>, ms: seq<Member>,
                                       ks: seq<nat>, v: Facts -> string, texts: seq<string>, line: nat)
    requires Seen(rows, column, run, facts, ms, ks) && |texts| == |rows|
    requires forall k :: 0 <= k < |rows| ==> v(facts[k]) == texts[k]
    ensures MemberLineSays(ms, v, NotCleanText, line) <==> LineSays(rows, run, texts, NotClean, line)
  {
    LineFaults(rows, column, run, facts, ms, ks, v, texts, NotCleanText, line);
    forall t ensures CleanText(t) <==> CleanTree(t) {
      CleanExact(t);
    }
    SameBad(rows, run, texts, NotCleanText, NotClean, line);
  }

  lemma {:induction false} HermitTexts(rows: seq<Row>, column: string, facts: seq<Facts>, texts: seq<string>)
    requires facts == FactsFrom(rows, column) && texts == ColumnOf(rows, "hermit_sha")
    ensures forall k :: 0 <= k < |rows| ==> HermitOf(facts[k]) == texts[k]
  {
    forall k | 0 <= k < |rows| ensures HermitOf(facts[k]) == texts[k] {
      Columns(rows[k], column);
    }
  }

  lemma {:induction false} ReverieTexts(rows: seq<Row>, column: string, facts: seq<Facts>, texts: seq<string>)
    requires facts == FactsFrom(rows, column) && texts == ColumnOf(rows, "reverie_sha")
    ensures forall k :: 0 <= k < |rows| ==> ReverieOf(facts[k]) == texts[k]
  {
    forall k | 0 <= k < |rows| ensures ReverieOf(facts[k]) == texts[k] {
      Columns(rows[k], column);
    }
  }

  lemma {:induction false} DirtyTexts(rows: seq<Row>, column: string, facts: seq<Facts>, texts: seq<string>)
    requires facts == FactsFrom(rows, column) && texts == ColumnOf(rows, "dirty")
    ensures forall k :: 0 <= k < |rows| ==> DirtyOf(facts[k]) == texts[k]
  {
    forall k | 0 <= k < |rows| ensures DirtyOf(facts[k]) == texts[k] {
      Columns(rows[k], column);
    }
  }

  lemma {:induction false} ColumnValues(rows: seq<Row>, column: string, facts: seq<Facts>, c: Condition,
                                        texts: seq<string>)
    requires facts == FactsFrom(rows, column) && texts == ColumnOf(rows, ColumnName(c))
    ensures forall k :: 0 <= k < |rows| ==> Valued(facts[k], c) == texts[k]
  {
    forall k | 0 <= k < |rows| ensures Valued(facts[k], c) == texts[k] {
      ValueSaid(rows[k], column, c);
    }
  }

  lemma {:induction false} MissingGlue(rows: seq<Row>, column: string, run: string, facts: seq<Facts>,
                                       ms: seq<Member>, ks: seq<nat>, c: Condition, sha: string -> string)
    requires Seen(rows, column, run, facts, ms, ks) && run != ""
    ensures Held(Missing(c), run, ms, sha) <==> RunFault(Missing(c), rows, column, run, sha)
  {
    var texts := ColumnOf(rows, ColumnName(c));
    ColumnValues(rows, column, facts, c, texts);
    ConditionFaults(rows, column, run, facts, ms, ks, f => Valued(f, c), texts);
  }

  lemma {:induction false} MixedGlue(rows: seq<Row>, column: string, run: string, facts: seq<Facts>,
                                     ms: seq<Member>, ks: seq<nat>, c: Condition, sha: string -> string)
    requires Seen(rows, column, run, facts, ms, ks) && run != ""
    ensures Held(Mixed(c), run, ms, sha) <==> RunFault(Mixed(c), rows, column, run, sha)
  {
    var texts := ColumnOf(rows, ColumnName(c));
    ColumnValues(rows, column, facts, c, texts);
    ConditionFaults(rows, column, run, facts, ms, ks, f => Valued(f, c), texts);
  }

  lemma {:induction false} HermitLines(rows: seq<Row>, column: string, run: string, facts: seq<Facts>, ms: seq<Member>,
                                       ks: seq<nat>, line: nat)
    requires Seen(rows, column, run, facts, ms, ks)
    ensures MemberLineSays(ms, HermitOf, NotLowerSha, line) <==>
            LineSays(rows, run, ColumnOf(rows, "hermit_sha"), NotSha, line)
  {
    var texts := ColumnOf(rows, "hermit_sha");
    HermitTexts(rows, column, facts, texts);
    ShaFaults(rows, column, run, facts, ms, ks, HermitOf, texts, line);
  }

  lemma {:induction false} ReverieLines(rows: seq<Row>, column: string, run: string, facts: seq<Facts>, ms: seq<Member>,
                                        ks: seq<nat>, line: nat)
    requires Seen(rows, column, run, facts, ms, ks)
    ensures MemberLineSays(ms, ReverieOf, NotLowerSha, line) <==>
            LineSays(rows, run, ColumnOf(rows, "reverie_sha"), NotSha, line)
  {
    var texts := ColumnOf(rows, "reverie_sha");
    ReverieTexts(rows, column, facts, texts);
    ShaFaults(rows, column, run, facts, ms, ks, ReverieOf, texts, line);
  }

  lemma {:induction false} DirtyLines(rows: seq<Row>, column: string, run: string, facts: seq<Facts>, ms: seq<Member>,
                                      ks: seq<nat>, line: nat)
    requires Seen(rows, column, run, facts, ms, ks)
    ensures MemberLineSays(ms, DirtyOf, NotCleanText, line) <==>
            LineSays(rows, run, ColumnOf(rows, "dirty"), NotClean, line)
  {
    var texts := ColumnOf(rows, "dirty");
    DirtyTexts(rows, column, facts, texts);
    DirtyFaults(rows, column, run, facts, ms, ks, DirtyOf, texts, line);
  }

  lemma {:induction false} LineHeld(run: string, ms: seq<Member>, line: nat, sha: string -> string)
    requires ms != [] && run != ""
    ensures Held(RunHermitSha(line), run, ms, sha) <==> MemberLineSays(ms, HermitOf, NotLowerSha, line)
    ensures Held(RunReverieSha(line), run, ms, sha) <==> MemberLineSays(ms, ReverieOf, NotLowerSha, line)
    ensures Held(RunDirty(line), run, ms, sha) <==> MemberLineSays(ms, DirtyOf, NotCleanText, line)
  {
  }

  lemma {:induction false} LineFault(rows: seq<Row>, column: string, run: string, line: nat, sha: string -> string)
    requires run != ""
    ensures RunFault(RunHermitSha(line), rows, column, run, sha) <==>
            LineSays(rows, run, ColumnOf(rows, "hermit_sha"), NotSha, line)
    ensures RunFault(RunReverieSha(line), rows, column, run, sha) <==>
            LineSays(rows, run, ColumnOf(rows, "reverie_sha"), NotSha, line)
    ensures RunFault(RunDirty(line), rows, column, run, sha) <==>
            LineSays(rows, run, ColumnOf(rows, "dirty"), NotClean, line)
  {
  }

  lemma {:induction false} LineGlue(rows: seq<Row>, column: string, run: string, facts: seq<Facts>, ms: seq<Member>,
                                    ks: seq<nat>, why: RunDefect, sha: string -> string)
    requires Seen(rows, column, run, facts, ms, ks) && run != ""
    requires why.RunHermitSha? || why.RunReverieSha? || why.RunDirty?
    ensures Held(why, run, ms, sha) <==> RunFault(why, rows, column, run, sha)
  {
    LineHeld(run, ms, why.line, sha);
    LineFault(rows, column, run, why.line, sha);
    HermitLines(rows, column, run, facts, ms, ks, why.line);
    ReverieLines(rows, column, run, facts, ms, ks, why.line);
    DirtyLines(rows, column, run, facts, ms, ks, why.line);
  }

  lemma {:induction false} SelectedFault(rows: seq<Row>, column: string, run: string, sha: string -> string)
    requires run != ""
    ensures RunFault(SelectedMismatch, rows, column, run, sha) <==>
            Miscounts(rows, run, "selected_count", |OfRun(rows, run)|)
  {
  }

  lemma {:induction false} EvidenceFault(rows: seq<Row>, column: string, run: string, sha: string -> string)
    requires run != ""
    ensures RunFault(EvidenceMismatch, rows, column, run, sha) <==>
            Miscounts(rows, run, "evidence_count", |ClaimsOf(rows, column, run)|)
  {
  }

  lemma {:induction false} UnboundFault(rows: seq<Row>, column: string, run: string, sha: string -> string)
    requires run != ""
    ensures RunFault(PopulationMismatch, rows, column, run, sha) <==> Misbound(rows, run, sha)
  {
  }

  lemma {:induction false} BindingGlue(rows: seq<Row>, column: string, run: string, facts: seq<Facts>,
                                       ms: seq<Member>, ks: seq<nat>, why: RunDefect, sha: string -> string)
    requires Seen(rows, column, run, facts, ms, ks) && run != ""
    requires why.SelectedMismatch? || why.EvidenceMismatch? || why.PopulationMismatch?
    ensures Held(why, run, ms, sha) <==> RunFault(why, rows, column, run, sha)
  {
    BindingHeldAs(run, ms, sha);
    match why {
      case SelectedMismatch =>
        CountFaults(rows, column, run, facts, ms, ks);
        SelectedFault(rows, column, run, sha);
      case EvidenceMismatch =>
        CountFaults(rows, column, run, facts, ms, ks);
        EvidenceFault(rows, column, run, sha);
      case PopulationMismatch =>
        PopulationFaults(rows, column, run, facts, ms, ks, sha);
        UnboundFault(rows, column, run, sha);
    }
  }

  lemma {:induction false} HeldIsFault(rows: seq<Row>, column: string, run: string, facts: seq<Facts>,
                                       ms: seq<Member>, ks: seq<nat>, why: RunDefect, sha: string -> string)
    requires Seen(rows, column, run, facts, ms, ks)
    ensures Held(why, run, ms, sha) <==> RunFault(why, rows, column, run, sha)
  {
    if run != "" {
      match why
      case BlankRun =>
      case Missing(c) => MissingGlue(rows, column, run, facts, ms, ks, c, sha);
      case Mixed(c) => MixedGlue(rows, column, run, facts, ms, ks, c, sha);
      case RunHermitSha(line) => LineGlue(rows, column, run, facts, ms, ks, why, sha);
      case RunReverieSha(line) => LineGlue(rows, column, run, facts, ms, ks, why, sha);
      case RunDirty(line) => LineGlue(rows, column, run, facts, ms, ks, why, sha);
      case SelectedMismatch => BindingGlue(rows, column, run, facts, ms, ks, why, sha);
      case EvidenceMismatch => BindingGlue(rows, column, run, facts, ms, ks, why, sha);
      case PopulationMismatch => BindingGlue(rows, column, run, facts, ms, ks, why, sha);
    }
  }

  /** The run loop reports a defect of a run exactly when the run claims something and is at fault. */
  lemma {:induction false} RunReported(rows: seq<Row>, column: string, run: string, why: RunDefect,
                                       sha: string -> string)
    ensures HeldOf(FactsFrom(rows, column), run, why, sha) <==>
            ClaimsOf(rows, column, run) != {} && RunFault(why, rows, column, run, sha)
  {
    var facts := FactsFrom(rows, column);
    var ms := Members(facts, run);
    var ks := MembersAligned(rows, column, run, facts);
    RunSizes(rows, column, run, facts, ms, ks);
    if ms != [] {
      HeldIsFault(rows, column, run, facts, ms, ks, why, sha);
    }
  }

  // ------------------------------------------------------------ what is reported

  ghost predicate RowAtFault(rows: seq<Row>, column: string, tool: bool, loads: string -> Loaded, line: nat,
                             what: RowDefect) {
    && 2 <= line < |rows| + 2 && ClaimIn(rows[line - 2], column)
    && RowFault(what, rows[line - 2], column, tool, loads)
  }

  ghost predicate RunAtFault(rows: seq<Row>, column: string, sha: string -> string, run: string, why: RunDefect) {
    ClaimsOf(rows, column, run) != {} && RunFault(why, rows, column, run, sha)
  }

  /** Held against the rows: a fault of a claiming row, or of a run with a claim in it. */
  ghost predicate AtFault(x: Defect, rows: seq<Row>, column: string, tool: bool, loads: string -> Loaded,
                          sha: string -> string) {
    match x
    case InRow(line, what) => RowAtFault(rows, column, tool, loads, line, what)
    case InRun(run, why) => RunAtFault(rows, column, sha, run, why)
  }

  lemma {:induction false} ClaimFault(row: Row, f: Facts, column: string, tool: bool, loads: string -> Loaded,
                                      what: RowDefect)
    requires f == FactsOf(row, column)
    ensures IsClaim(f) && Reports(what, f, ContractOf(column, tool), loads) <==>
            ClaimIn(row, column) && RowFault(what, row, column, tool, loads)
  {
    RunSaid(row, column);
    if ClaimIn(row, column) {
      FaultExact(what, row, column, tool, loads);
    }
  }

  ghost predicate RowHeld(facts: seq<Facts>, c: Contract, loads: string -> Loaded, line: nat, what: RowDefect) {
    2 <= line < |facts| + 2 && IsClaim(facts[line - 2]) && Reports(what, facts[line - 2], c, loads)
  }

  lemma {:induction false} RowHeldIsFault(rows: seq<Row>, column: string, tool: bool, loads: string -> Loaded,
                                          line: nat, what: RowDefect, facts: seq<Facts>, c: Contract)
    requires facts == FactsFrom(rows, column) && c == ContractOf(column, tool)
    ensures RowHeld(facts, c, loads, line, what) <==> RowAtFault(rows, column, tool, loads, line, what)
  {
    if 2 <= line < |rows| + 2 {
      ClaimFault(rows[line - 2], facts[line - 2], column, tool, loads, what);
    }
  }

  lemma {:induction false} RowListed(facts: seq<Facts>, c: Contract, loads: string -> Loaded, line: nat,
                                     what: RowDefect)
    ensures InRow(line, what) in AllRowDefects(facts, c, loads) <==> RowHeld(facts, c, loads, line, what)
  {
    RowDefectsIn(facts, c, loads, InRow(line, what));
  }

  lemma {:induction false} RunListed(rows: seq<Row>, column: string, sha: string -> string, run: string,
                                     why: RunDefect, facts: seq<Facts>)
    requires facts == FactsFrom(rows, column) && forall r <- RunOrder(facts) :: Members(facts, r) != []
    ensures InRun(run, why) in AllRunDefects(facts, RunOrder(facts), sha) <==> RunAtFault(rows, column, sha, run, why)
  {
    RunDefectsIn(facts, RunOrder(facts), sha, InRun(run, why));
    MembersPresent(facts, run);
    RunReported(rows, column, run, why, sha);
  }

  lemma {:induction false} ListsApart(facts: seq<Facts>, c: Contract, loads: string -> Loaded, sha: string -> string,
                                      x: Defect)
    requires forall r <- RunOrder(facts) :: Members(facts, r) != []
    ensures x in AllDefects(facts, c, loads, sha) <==>
            if x.InRow? then x in AllRowDefects(facts, c, loads) else x in AllRunDefects(facts, RunOrder(facts), sha)
  {
    RowDefectsIn(facts, c, loads, x);
    RunDefectsIn(facts, RunOrder(facts), sha, x);
  }

  /** The checker reports exactly the faults. */
  lemma {:induction false} DefectsExact(rows: seq<Row>, column: string, tool: bool, loads: string -> Loaded,
                                        sha: string -> string, x: Defect, facts: seq<Facts>)
    requires facts == FactsFrom(rows, column)
    ensures x in AllDefects(facts, ContractOf(column, tool), loads, sha) <==>
            AtFault(x, rows, column, tool, loads, sha)
  {
    RunsPresent(facts);
    ListsApart(facts, ContractOf(column, tool), loads, sha, x);
    match x
    case InRow(line, what) =>
      RowListed(facts, ContractOf(column, tool), loads, line, what);
      RowHeldIsFault(rows, column, tool, loads, line, what, facts, ContractOf(column, tool));
    case InRun(run, why) => RunListed(rows, column, sha, run, why, facts);
  }

  // -------------------------------------------------------------- the whole command

  ghost predicate InScope(sheet: Sheet, request: Request, i: nat) {
    i < |sheet.records| && (request.runId == "" || Get(RowAt(sheet, i), "run_id") == request.runId)
  }

  /** The records the request is about, in file order. */
  ghost predicate Selects(sheet: Sheet, request: Request, at: seq<nat>) {
    && Increasing(at) && (forall k :: 0 <= k < |at| ==> at[k] < |sheet.records|)
    && (forall i: nat :: i in at <==> InScope(sheet, request, i))
  }

  function RowsAt(sheet: Sheet, at: seq<nat>): (rows: seq<Row>)
    requires forall k :: 0 <= k < |at| ==> at[k] < |sheet.records|
    ensures |rows| == |at| && forall k :: 0 <= k < |at| ==> rows[k] == RowAt(sheet, at[k])
  {
    seq(|at|, k requires 0 <= k < |at| => RowAt(sheet, at[k]))
  }

  lemma {:induction false} ScopeFront(sheet: Sheet, request: Request, shorter: Sheet, i: nat)
    requires sheet.records != [] && shorter == Sheet(sheet.header, sheet.records[..|sheet.records| - 1])
    ensures InScope(shorter, request, i) <==> InScope(sheet, request, i) && i < |sheet.records| - 1
  {
  }

  /** Positions below `n + 1` in order: `n` can only come last. */
  lemma {:induction false} LastPlace(at: seq<nat>, n: nat)
    requires Increasing(at) && n in at && forall k :: 0 <= k < |at| ==> at[k] <= n
    ensures at == at[..|at| - 1] + [n]
  {
    var k :| 0 <= k < |at| && at[k] == n;
    assert at[k] <= at[|at| - 1] <= n;
  }

  lemma {:induction false} ShorterScope(sheet: Sheet, request: Request, at: seq<nat>, shorter: Sheet, front: seq<nat>)
    requires sheet.records != [] && shorter == Sheet(sheet.header, sheet.records[..|sheet.records| - 1])
    requires Selects(sheet, request, at)
    requires front == if InScope(sheet, request, |sheet.records| - 1) && at != [] then at[..|at| - 1] else at
    ensures Selects(shorter, request, front)
    ensures InScope(sheet, request, |sheet.records| - 1) ==> at == front + [|sheet.records| - 1]
  {
    var n := |sheet.records| - 1;
    if InScope(sheet, request, n) {
      assert n in at;
      LastPlace(at, n);
    }
    forall i: nat ensures i in front <==> InScope(shorter, request, i) {
      ScopeFront(sheet, request, shorter, i);
      FrontPlaces(at, n, front, i);
    }
    forall k | 0 <= k < |front| ensures front[k] < n {
      assert front[k] in front;
      ScopeFront(sheet, request, shorter, front[k]);
    }
  }

  lemma {:induction false} FrontPlaces(at: seq<nat>, n: nat, front: seq<nat>, i: nat)
    requires Increasing(at) && (if n in at then at == front + [n] else at == front)
    ensures i in front <==> i in at && i != n
  {
    if i in front && n in at {
      var k :| 0 <= k < |front| && front[k] == i;
      assert at[k] < at[|at| - 1];
    }
  }

  lemma {:induction false} ScopedRows(sheet: Sheet, request: Request, at: seq<nat>, column: string)
    requires Selects(sheet, request, at)
    ensures Scope(SheetFacts(sheet, column), request.runId) == FactsFrom(RowsAt(sheet, at), column)
    decreases |sheet.records|
  {
    if sheet.records != [] {
      var n := |sheet.records| - 1;
      var shorter := Sheet(sheet.header, sheet.records[..n]);
      var front := if InScope(sheet, request, n) && at != [] then at[..|at| - 1] else at;
      ShorterScope(sheet, request, at, shorter, front);
      ScopedRows(shorter, request, front, column);
      LastFact(sheet, request, shorter, column);
      RowsGrow(sheet, shorter, at, front, column);
    } else {
      PlacesSize(at, {});
    }
  }

  lemma {:induction false} LastFact(sheet: Sheet, request: Request, shorter: Sheet, column: string)
    requires sheet.records != [] && shorter == Sheet(sheet.header, sheet.records[..|sheet.records| - 1])
    ensures var n := |sheet.records| - 1;
            Scope(SheetFacts(sheet, column), request.runId)
            == Scope(SheetFacts(shorter, column), request.runId)
               + if InScope(sheet, request, n) then [FactsOf(RowAt(sheet, n), column)] else []
  {
    var n, facts := |sheet.records| - 1, SheetFacts(sheet, column);
    assert facts[..n] == SheetFacts(shorter, column);
    assert facts[n].runId == Get(RowAt(sheet, n), "run_id");
  }

  lemma {:induction false} RowsGrow(sheet: Sheet, shorter: Sheet, at: seq<nat>, front: seq<nat>, column: string)
    requires sheet.records != [] && shorter == Sheet(sheet.header, sheet.records[..|sheet.records| - 1])
    requires forall k :: 0 <= k < |front| ==> front[k] < |sheet.records| - 1
    requires at == front || at == front + [|sheet.records| - 1]
    ensures FactsFrom(RowsAt(sheet, at), column)
            == FactsFrom(RowsAt(shorter, front), column)
               + if at == front then [] else [FactsOf(RowAt(sheet, |sheet.records| - 1), column)]
  {
    var last := RowAt(sheet, |sheet.records| - 1);
    assert RowsAt(sheet, at) == RowsAt(shorter, front) + if at == front then [] else [last];
    FactsAppend(RowsAt(shorter, front), last, column);
  }

  lemma {:induction false} MapAppend<T, U>(xs: seq<T>, x: T, f: T -> U, a: seq<U>, b: seq<U>)
    requires |a| == |xs| && forall i :: 0 <= i < |xs| ==> a[i] == f(xs[i])
    requires |b| == |xs| + 1 && forall i :: 0 <= i < |b| ==> b[i] == f((xs + [x])[i])
    ensures b == a + [f(x)]
  {
  }

  lemma {:induction false} FactsAppend(rows: seq<Row>, row: Row, column: string)
    ensures FactsFrom(rows + [row], column) == FactsFrom(rows, column) + [FactsOf(row, column)]
    ensures FactsFrom(rows + [], column) == FactsFrom(rows, column) + []
  {
    MapAppend(rows, row, r => FactsOf(r, column), FactsFrom(rows, column), FactsFrom(rows + [row], column));
    assert rows + [] == rows;
  }

  const COLUMN_NAMES: set<string> := {"stdout_parity", "tool_count_parity", "parity"}

  /** The sheet's one parity column, and whether it is about tool counts. */
  ghost predicate Observable(header: seq<string>, asked: bool, column: string, tool: bool) {
    && column in COLUMN_NAMES && column in header
    && (forall other <- COLUMN_NAMES :: other in header ==> other == column)
    && (tool <==> column == "tool_count_parity" || (column == "parity" && asked))
  }

  lemma {:induction false} ObservableExact(header: seq<string>, asked: bool, column: string, tool: bool)
    ensures Observable(header, asked, column, tool) <==>
            ContractFor(header, asked) == Some(ContractOf(column, tool))
  {
    NamesApart();
    if Observable(header, asked, column, tool) {
      assert "stdout_parity" in COLUMN_NAMES && "tool_count_parity" in COLUMN_NAMES && "parity" in COLUMN_NAMES;
    }
  }

  lemma {:induction false} NamesApart()
    ensures "stdout_parity" != "tool_count_parity" && "stdout_parity" != "parity" && "tool_count_parity" != "parity"
  {
    assert |"stdout_parity"| == 13 && |"tool_count_parity"| == 17 && |"parity"| == 6;
  }

  const DEMANDED: set<string> := {"ref_output_hash", "parity_comparator", "parity_tier", "profile_flags",
                                  "population_id", "selected_count", "executed_count", "evidence_count"}

  lemma {:induction false} DemandedExact(header: seq<string>)
    ensures (forall c <- PROVENANCE_COLUMNS :: c in header) <==> forall c <- DEMANDED :: c in header
  {
    assert forall c :: c in PROVENANCE_COLUMNS <==> c in DEMANDED;
  }

  /** A sheet and a request that are looked at row by row. */
  ghost predicate Answerable(sheet: Sheet, request: Request, rows: seq<Row>) {
    && sheet.records != [] && (forall r <- sheet.records :: |r| <= |sheet.header|)
    && (forall c <- DEMANDED :: c in sheet.header)
    && (request.runId != "" ==> rows != [])
    && (request.aggregate ==> rows != [] && forall a <- rows, b <- rows :: Get(a, "run_id") == Get(b, "run_id"))
  }

  ghost predicate Faultless(rows: seq<Row>, column: string, tool: bool, loads: string -> Loaded,
                            sha: string -> string)
  {
    forall x: Defect :: !AtFault(x, rows, column, tool, loads, sha)
  }

  lemma {:induction false} RawRunId(row: Row, column: string)
    ensures FactsOf(row, column).runId == Get(row, "run_id")
  {
  }

  lemma {:induction false} OneId(ids: set<string>)
    ensures |ids| == 1 <==> ids != {} && forall a <- ids, b <- ids :: a == b
  {
    if ids != {} {
      var a :| a in ids;
      if forall x <- ids, y <- ids :: x == y {
        assert ids == {a};
      }
      if |ids| == 1 {
        SingleId(ids, a);
      }
    }
  }

  lemma {:induction false} SingleId(ids: set<string>, a: string)
    requires |ids| == 1 && a in ids
    ensures ids == {a}
  {
    assert |ids - {a}| == 0;
    assert ids == (ids - {a}) + {a};
  }

  lemma {:induction false} OneRun(rows: seq<Row>, column: string, facts: seq<Facts>)
    requires facts == FactsFrom(rows, column)
    ensures |RunIds(facts)| == 1 <==>
            rows != [] && forall a <- rows, b <- rows :: Get(a, "run_id") == Get(b, "run_id")
  {
    forall k | 0 <= k < |rows| ensures facts[k].runId == Get(rows[k], "run_id") {
      RawRunId(rows[k], column);
    }
    IdsAre(rows, facts);
    OneId(RunIds(facts));
    SameIds(rows, RunIds(facts), "run_id");
  }

  lemma {:induction false} SameIds(rows: seq<Row>, ids: set<string>, name: string)
    requires forall id :: id in ids <==> exists row <- rows :: Get(row, name) == id
    ensures (ids != {} && forall a <- ids, b <- ids :: a == b) <==>
            rows != [] && forall a <- rows, b <- rows :: Get(a, name) == Get(b, name)
  {
    if rows != [] {
      assert rows[0] in rows && Get(rows[0], name) in ids;
    }
    if forall a <- ids, b <- ids :: a == b {
      forall a <- rows, b <- rows ensures Get(a, name) == Get(b, name) {
        assert Get(a, name) in ids && Get(b, name) in ids;
      }
    }
  }

  lemma {:induction false} IdsAre(rows: seq<Row>, facts: seq<Facts>)
    requires |facts| == |rows| && forall k :: 0 <= k < |rows| ==> facts[k].runId == Get(rows[k], "run_id")
    ensures forall id :: id in RunIds(facts) <==> exists row <- rows :: Get(row, "run_id") == id
  {
    forall id ensures id in RunIds(facts) <==> exists row <- rows :: Get(row, "run_id") == id {
      if id in RunIds(facts) {
        var f :| f in facts && f.runId == id;
        var k :| 0 <= k < |facts| && facts[k] == f;
        assert rows[k] in rows;
      }
      if row :| row in rows && Get(row, "run_id") == id {
        var k :| 0 <= k < |rows| && rows[k] == row;
        assert facts[k] in facts;
      }
    }
  }

  lemma {:induction false} NoDefects(rows: seq<Row>, column: string, tool: bool, loads: string -> Loaded,
                                     sha: string -> string, facts: seq<Facts>)
    requires facts == FactsFrom(rows, column)
    ensures AllDefects(facts, ContractOf(column, tool), loads, sha) == [] <==> Faultless(rows, column, tool, loads, sha)
  {
    var defects := AllDefects(facts, ContractOf(column, tool), loads, sha);
    forall x: Defect ensures x in defects <==> AtFault(x, rows, column, tool, loads, sha) {
      DefectsExact(rows, column, tool, loads, sha, x, facts);
    }
    if defects != [] {
      assert defects[0] in defects;
    }
  }

  /** The refusals before any row is looked at, given the rows in scope. */
  ghost function Refusal(sheet: Sheet, request: Request, none: bool, one: bool): Option<int> {
    if sheet.records == [] then Some(2)
    else if && (forall r <- sheet.records :: |r| <= |sheet.header|) && (forall c <- DEMANDED :: c in sheet.header)
            && (request.runId == "" || !none) && (!request.aggregate || one)
    then None else Some(1)
  }

  lemma {:induction false} PrecheckOver(sheet: Sheet, request: Request, facts: seq<Facts>)
    requires ContractFor(sheet.header, request.toolCount).Some? && Scoped(sheet, request) == facts
    ensures Precheck(sheet, request) == Refusal(sheet, request, facts == [], |RunIds(facts)| == 1)
  {
    DemandedExact(sheet.header);
  }

  lemma {:induction false} PrecheckExact(sheet: Sheet, request: Request, c: Contract, rows: seq<Row>, facts: seq<Facts>)
    requires ContractFor(sheet.header, request.toolCount) == Some(c)
    requires facts == FactsFrom(rows, c.column) && Scoped(sheet, request) == facts
    ensures Precheck(sheet, request).None? <==> Answerable(sheet, request, rows)
    ensures Precheck(sheet, request) == Some(2) <==> sheet.records == []
    ensures Precheck(sheet, request) in {None, Some(1), Some(2)}
  {
    PrecheckOver(sheet, request, facts);
    OneRun(rows, c.column, facts);
    RefusalExact(sheet, request, rows, facts == [], |RunIds(facts)| == 1);
  }

  lemma {:induction false} RefusalExact(sheet: Sheet, request: Request, rows: seq<Row>, none: bool, one: bool)
    requires none <==> rows == []
    requires one <==> rows != [] && forall a <- rows, b <- rows :: Get(a, "run_id") == Get(b, "run_id")
    ensures Refusal(sheet, request, none, one).None? <==> Answerable(sheet, request, rows)
    ensures Refusal(sheet, request, none, one) == Some(2) <==> sheet.records == []
    ensures Refusal(sheet, request, none, one) in {None, Some(1), Some(2)}
  {
  }

  lemma {:induction false} NoContract(sheet: Sheet, request: Request, loads: string -> Loaded, sha: string -> string)
    requires ContractFor(sheet.header, request.toolCount) == None
    ensures ExitCode(sheet, request, loads, sha) == if sheet.records == [] then 2 else 1
    ensures forall column, tool :: !Observable(sheet.header, request.toolCount, column, tool)
  {
    forall column, tool ensures !Observable(sheet.header, request.toolCount, column, tool) {
      ObservableExact(sheet.header, request.toolCount, column, tool);
    }
  }

  /** Everything exit status 0 stands for. */
  ghost predicate Attests(sheet: Sheet, request: Request, rows: seq<Row>, loads: string -> Loaded,
                          sha: string -> string) {
    && Answerable(sheet, request, rows)
    && exists column, tool ::
         Observable(sheet.header, request.toolCount, column, tool) && Faultless(rows, column, tool, loads, sha)
  }

  lemma {:induction false} ContractShape(header: seq<string>, asked: bool) returns (column: string, tool: bool)
    requires ContractFor(header, asked).Some?
    ensures ContractFor(header, asked) == Some(ContractOf(column, tool))
    ensures forall c, t :: Observable(header, asked, c, t) <==> c == column && t == tool
  {
    var c := ContractFor(header, asked).value;
    column, tool := c.column, c.toolCount;
    forall x, t ensures Observable(header, asked, x, t) <==> x == column && t == tool {
      ObservableExact(header, asked, x, t);
    }
  }

  lemma {:induction false} ExitUnder(sheet: Sheet, request: Request, at: seq<nat>, loads: string -> Loaded,
                                     sha: string -> string, column: string, tool: bool, rows: seq<Row>)
    requires Selects(sheet, request, at) && rows == RowsAt(sheet, at)
    requires ContractFor(sheet.header, request.toolCount) == Some(ContractOf(column, tool))
    ensures ExitCode(sheet, request, loads, sha) == 0 <==>
            Answerable(sheet, request, rows) && Faultless(rows, column, tool, loads, sha)
    ensures ExitCode(sheet, request, loads, sha) == 2 <==> sheet.records == []
    ensures ExitCode(sheet, request, loads, sha) in {0, 1, 2}
  {
    var facts := FactsFrom(rows, column);
    ScopedRows(sheet, request, at, column);
    PrecheckExact(sheet, request, ContractOf(column, tool), rows, facts);
    NoDefects(rows, column, tool, loads, sha, facts);
  }

  /**
   The checker's exit status: 2 exactly on a sheet without records, 0 exactly when the sheet can be answered for and
   nothing is at fault, and 1 otherwise.
   */
  lemma {:induction false} ExitExact(sheet: Sheet, request: Request, at: seq<nat>, loads: string -> Loaded,
                                     sha: string -> string)
    requires Selects(sheet, request, at)
    ensures ExitCode(sheet, request, loads, sha) == 0 <==> Attests(sheet, request, RowsAt(sheet, at), loads, sha)
    ensures ExitCode(sheet, request, loads, sha) == 2 <==> sheet.records == []
    ensures ExitCode(sheet, request, loads, sha) in {0, 1, 2}
  {
    if ContractFor(sheet.header, request.toolCount).None? {
      NoContract(sheet, request, loads, sha);
    } else {
      var column, tool := ContractShape(sheet.header, request.toolCount);
      ExitUnder(sheet, request, at, loads, sha, column, tool, RowsAt(sheet, at));
    }
  }

  lemma {:induction false} RunFaultless(rows: seq<Row>, column: string, tool: bool, loads: string -> Loaded,
                                        sha: string -> string, k: nat, run: string, why: RunDefect)
    requires Faultless(rows, column, tool, loads, sha) && k < |rows| && ClaimIn(rows[k], column)
    requires run == Said(rows[k], "run_id")
    ensures !RunFault(why, rows, column, run, sha)
  {
    assert k in ClaimsOf(rows, column, run);
    assert !AtFault(InRun(run, why), rows, column, tool, loads, sha);
  }

  lemma {:induction false} BlankFault(rows: seq<Row>, column: string, sha: string -> string)
    ensures RunFault(BlankRun, rows, column, "", sha)
  {
  }

  lemma {:induction false} FaultlessClean(rows: seq<Row>, column: string, tool: bool, loads: string -> Loaded,
                                          sha: string -> string, k: nat, j: nat)
    requires Faultless(rows, column, tool, loads, sha) && k < |rows| && j < |rows| && ClaimIn(rows[k], column)
    requires Said(rows[j], "run_id") == Said(rows[k], "run_id")
    ensures CleanTree(Said(rows[j], "dirty"))
  {
    var run := Said(rows[k], "run_id");
    RunFaultless(rows, column, tool, loads, sha, k, run, BlankRun);
    RunFaultless(rows, column, tool, loads, sha, k, run, RunDirty(j + 2));
    BlankFault(rows, column, sha);
    assert j in OfRun(rows, run);
    DirtyLine(rows, column, run, sha, j);
  }

  lemma {:induction false} DirtyLine(rows: seq<Row>, column: string, run: string, sha: string -> string, j: nat)
    requires run != "" && j in OfRun(rows, run)
    ensures RunFault(RunDirty(j + 2), rows, column, run, sha) <==> !CleanTree(Said(rows[j], "dirty"))
  {
    LineFault(rows, column, run, j + 2, sha);
    assert ColumnOf(rows, "dirty")[j] == Said(rows[j], "dirty");
  }

  /** With exit status 0, every row of a run that claims anything says its tree was clean: `0`, or the word false. */
  lemma {:induction false} CleanTrees(sheet: Sheet, request: Request, at: seq<nat>, loads: string -> Loaded,
                                      sha: string -> string, column: string, k: nat, j: nat)
    requires ExitCode(sheet, request, loads, sha) == 0 && Selects(sheet, request, at)
    requires column in COLUMN_NAMES && column in sheet.header && k in at && j in at && ClaimIn(RowAt(sheet, k), column)
    requires Said(RowAt(sheet, j), "run_id") == Said(RowAt(sheet, k), "run_id")
    ensures CleanTree(Said(RowAt(sheet, j), "dirty"))
  {
    var rows := RowsAt(sheet, at);
    ExitExact(sheet, request, at, loads, sha);
    var c, tool :| Observable(sheet.header, request.toolCount, c, tool) && Faultless(rows, c, tool, loads, sha);
    var x :| 0 <= x < |at| && at[x] == k;
    var y :| 0 <= y < |at| && at[y] == j;
    FaultlessClean(rows, column, tool, loads, sha, x, y);
  }

  lemma {:induction false} DirtyAtFault(rows: seq<Row>, column: string, tool: bool, loads: string -> Loaded,
                                        sha: string -> string, k: nat)
    requires k < |rows| && ClaimIn(rows[k], column) && !CleanTree(Said(rows[k], "dirty"))
    ensures AtFault(InRow(k + 2, DirtyState), rows, column, tool, loads, sha)
  {
  }

  lemma {:induction false} DirtyRunAtFault(rows: seq<Row>, column: string, tool: bool, loads: string -> Loaded,
                                           sha: string -> string, k: nat, run: string)
    requires k < |rows| && ClaimIn(rows[k], column) && !CleanTree(Said(rows[k], "dirty"))
    requires run == Said(rows[k], "run_id")
    ensures AtFault(InRun(run, if run == "" then BlankRun else RunDirty(k + 2)), rows, column, tool, loads, sha)
  {
    assert k in ClaimsOf(rows, column, run) && k in OfRun(rows, run);
    if run != "" {
      DirtyLine(rows, column, run, sha, k);
    }
  }

  /** Any other text in a claiming row draws both defects. */
  lemma {:induction false} DirtyRefused(rows: seq<Row>, column: string, tool: bool, loads: string -> Loaded,
                                        sha: string -> string, k: nat, facts: seq<Facts>, run: string)
    requires k < |rows| && ClaimIn(rows[k], column) && !CleanTree(Said(rows[k], "dirty"))
    requires facts == FactsFrom(rows, column) && run == Said(rows[k], "run_id")
    ensures var defects := AllDefects(facts, ContractOf(column, tool), loads, sha);
            && InRow(k + 2, DirtyState) in defects
            && InRun(run, if run == "" then BlankRun else RunDirty(k + 2)) in defects
  {
    DirtyAtFault(rows, column, tool, loads, sha, k);
    DirtyRunAtFault(rows, column, tool, loads, sha, k, run);
    DefectsExact(rows, column, tool, loads, sha, InRow(k + 2, DirtyState), facts);
    DefectsExact(rows, column, tool, loads, sha, InRun(run, if run == "" then BlankRun else RunDirty(k + 2)), facts);
  }

  // -------------------------------------------------------------------- the counts

  /** The verdict is the equality of two well-formed hashes. */
  ghost predicate Derives(row: Row, column: string) {
    && Hex(Said(row, "output_hash"), 64) && Hex(Said(row, "ref_output_hash"), 64)
    && Said(row, column) == if Said(row, "output_hash") == Said(row, "ref_output_hash") then "1" else "0"
  }

  ghost function AllClaims(rows: seq<Row>, column: string): set<nat> {
    set k: nat | k < |rows| && ClaimIn(rows[k], column)
  }

  ghost function AllDerived(rows: seq<Row>, column: string): set<nat> {
    set k: nat | k < |rows| && ClaimIn(rows[k], column) && Derives(rows[k], column)
  }

  lemma {:induction false} RederivesExact(f: Facts)
    ensures Rederives(f) <==>
            && Hex(f.candidate, 64) && Hex(f.reference, 64)
            && f.verdict == if f.candidate == f.reference then "1" else "0"
  {
    HexExact(f.candidate, 64);
    HexExact(f.reference, 64);
  }

  lemma {:induction false} DerivesExact(row: Row, column: string, f: Facts)
    requires f == FactsOf(row, column)
    ensures IsClaim(f) <==> ClaimIn(row, column)
    ensures Rederives(f) <==> Derives(row, column)
  {
    RunSaid(row, column);
    Operands(row, column);
    RederivesExact(f);
  }

  predicate RederivedClaim(f: Facts) {
    IsClaim(f) && Rederives(f)
  }

  lemma {:induction false} CountSets(facts: seq<Facts>)
    ensures Claims(facts) == |Where(facts, IsClaim)| && Rederived(facts) == |Where(facts, RederivedClaim)|
  {
    if facts == [] {
      WhereNone(IsClaim);
      WhereNone(RederivedClaim);
    } else {
      CountSets(facts[..|facts| - 1]);
      WhereGrows(facts, IsClaim);
      WhereGrows(facts, RederivedClaim);
    }
  }

  lemma {:induction false} ClaimPlaces(rows: seq<Row>, column: string, facts: seq<Facts>)
    requires facts == FactsFrom(rows, column)
    ensures Where(facts, IsClaim) == AllClaims(rows, column)
  {
    forall k: nat | k < |rows| ensures IsClaim(facts[k]) <==> ClaimIn(rows[k], column) {
      DerivesExact(rows[k], column, facts[k]);
    }
    assert forall k: nat :: k in Where(facts, IsClaim) <==> k in AllClaims(rows, column);
  }

  lemma {:induction false} DerivedPlaces(rows: seq<Row>, column: string, facts: seq<Facts>)
    requires facts == FactsFrom(rows, column)
    ensures Where(facts, RederivedClaim) == AllDerived(rows, column)
  {
    forall k: nat | k < |rows|
      ensures RederivedClaim(facts[k]) <==> ClaimIn(rows[k], column) && Derives(rows[k], column)
    {
      DerivesExact(rows[k], column, facts[k]);
    }
    assert forall k: nat :: k in Where(facts, RederivedClaim) <==> k in AllDerived(rows, column);
  }

  /** The counts printed: the claiming rows, and those whose verdict the hashes bear out. */
  lemma {:induction false} CountsExact(rows: seq<Row>, column: string, facts: seq<Facts>)
    requires facts == FactsFrom(rows, column)
    ensures Claims(facts) == |AllClaims(rows, column)| && Rederived(facts) == |AllDerived(rows, column)|
  {
    CountSets(facts);
    ClaimPlaces(rows, column, facts);
    DerivedPlaces(rows, column, facts);
  }
}
