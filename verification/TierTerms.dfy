/**
What the evidence gate asks of a scorecard row, said of the row's texts, the ledger and the clock.
*/
module TierTerms {
  import opened Text
  import opened Reading
  import opened Sheets
  import opened TierEvidence

  // ------------------------------------------------------------------ the texts

  function Said(row: Row, column: string): (text: string) {
    Strip(Get(row, column))
  }

  function ColumnOf(c: Component): (name: string) {
    match c
    case Stdout => "stdout_parity"
    case InfoLog => "compared_log_messages"
    case Stack => "stack_parity"
    case Heap => "heap_parity"
  }

  /** A text that stands for no value. */
  ghost predicate NoValue(text: string) {
    text == "" || text == "-" || Spells(text, "n/a") || Spells(text, "none") || Spells(text, "null")
  }

  ghost predicate NothingCompared(c: Component, text: string) {
    c == InfoLog && (text == "0" || text == "0|0" || text == "0/0")
  }

  ghost predicate FullClaim(row: Row) {
    Said(row, "comparison_tier") == "full-stdout-info-stack-heap"
  }

  ghost predicate SpotClaim(row: Row) {
    Said(row, "comparison_tier") == "stdout-info-stack-heap-spot-check"
  }

  /** The row itself must show the component: always, except stack and heap of a spot-check claim. */
  ghost predicate OnRow(row: Row, c: Component) {
    FullClaim(row) || (SpotClaim(row) && (c == Stdout || c == InfoLog))
  }

  // ----------------------------------------------------------------- the receipt

  function KeyIn(row: Row): (k: LedgerKey) {
    LedgerKey(Get(row, "test_id"), Get(row, "test_mode"), Get(row, "backend"))
  }

  ghost predicate DirtyAt(sha: string, i: nat) {
    i + 5 <= |sha| && Spells(sha[i..i + 5], "dirty")
  }

  /** The word dirty stands somewhere in the text, in any letter case. */
  ghost predicate MentionsDirty(sha: string) {
    exists i: nat :: DirtyAt(sha, i)
  }

  ghost predicate NoTree(sha: string) {
    AllSpace(sha) || MentionsDirty(sha)
  }

  /** The instant a receipt was taken, if its text is a time at all. */
  ghost predicate TakenAt(receipt: Receipt, p: Policy, t: int) {
    !AllSpace(receipt.spotCheckUtc) && p.parse(receipt.spotCheckUtc) == Some(t)
  }

  ghost predicate Fresh(p: Policy, key: LedgerKey, now: int) {
    && key in p.ledger && !NoTree(p.ledger[key].hermitSha)
    && exists t :: TakenAt(p.ledger[key], p, t) && now <= t + p.cadenceDays * (24 * 60 * 60 * 1_000_000)
  }

  // ----------------------------------------------------------------- the reasons

  /** What is held against a row. */
  ghost predicate HeldAgainst(r: Reason, header: seq<string>, row: Row, p: Policy, now: int) {
    var key := KeyIn(row);
    match r
    case CannotExpress(c) => OnRow(row, c) && ColumnOf(c) !in header
    case MissingValue(c) => OnRow(row, c) && ColumnOf(c) in header && NoValue(Said(row, ColumnOf(c)))
    case EmptyComparison(c) => OnRow(row, c) && ColumnOf(c) in header && NothingCompared(c, Said(row, ColumnOf(c)))
    case NoReceipt => SpotClaim(row) && key !in p.ledger
    case DirtyReceipt => SpotClaim(row) && key in p.ledger && NoTree(p.ledger[key].hermitSha)
    case NotCurrent(state) =>
      && SpotClaim(row) && key in p.ledger && !NoTree(p.ledger[key].hermitSha) && !Fresh(p, key, now)
      && (state == Never <==> forall t :: !TakenAt(p.ledger[key], p, t))
      && (state == Stale <==> exists t :: TakenAt(p.ledger[key], p, t))
  }

  lemma {:induction false} NoValueExact(text: string)
    ensures BlankCell(text) <==> NoValue(text)
  {
    LowerExact(text, "");
    LowerExact(text, "-");
    LowerExact(text, "n/a");
    LowerExact(text, "none");
    LowerExact(text, "null");
    DashSpelled(text);
    BlankListed(Lower(text));
  }

  lemma {:induction false} BlankListed(low: string)
    ensures low in ["", "-", "n/a", "none", "null"] <==>
            low == "" || low == "-" || low == "n/a" || low == "none" || low == "null"
  {
  }

  lemma {:induction false} DashSpelled(text: string)
    ensures Spells(text, "-") <==> text == "-"
    ensures Spells(text, "") <==> text == ""
  {
    if Spells(text, "-") {
      assert EitherCase(text[0], "-"[0]);
    }
  }

  lemma {:induction false} DirtyAtExact(sha: string, i: nat)
    ensures OccursAt(Lower(sha), "dirty", i) <==> DirtyAt(sha, i)
  {
    if i + 5 <= |sha| {
      LowerExact(sha[i..i + 5], "dirty");
      assert Lower(sha)[i..i + 5] == Lower(sha[i..i + 5]);
    }
  }

  lemma {:induction false} MentionsExact(sha: string)
    ensures Contains(Lower(sha), "dirty") <==> MentionsDirty(sha)
  {
    ContainsExact(Lower(sha), "dirty");
    forall i: nat ensures OccursAt(Lower(sha), "dirty", i) <==> DirtyAt(sha, i) {
      DirtyAtExact(sha, i);
    }
  }

  lemma {:induction false} DirtyNoSpace(word: string, k: nat)
    requires Spells(word, "dirty") && k < 5
    ensures !IsSpace(word[k])
  {
    assert EitherCase(word[k], "dirty"[k]);
    var d := "dirty";
    assert d[0] == 'd' && d[1] == 'i' && d[2] == 'r' && d[3] == 't' && d[4] == 'y';
  }

  /** Stripping takes nothing of the word away. */
  lemma {:induction false} StripMentions(sha: string)
    ensures MentionsDirty(Strip(sha)) <==> MentionsDirty(sha)
  {
    StripPadded(sha);
    var core := Strip(sha);
    var a: nat :| CoreAt(sha, core, a);
    if i: nat :| DirtyAt(core, i) {
      WordOutside(sha, core, a, i);
    }
    if i: nat :| DirtyAt(sha, i) {
      WordInside(sha, core, a, i);
      assert DirtyAt(core, i - a);
    }
  }

  lemma {:induction false} WordOutside(sha: string, core: string, a: nat, i: nat)
    requires CoreAt(sha, core, a) && DirtyAt(core, i)
    ensures DirtyAt(sha, a + i)
  {
    var word := core[i..i + 5];
    forall j | 0 <= j < 5 ensures sha[a + i + j] == word[j] {
      assert sha[a..a + |core|][i + j] == core[i + j];
    }
    assert sha[a + i..a + i + 5] == word;
  }

  lemma {:induction false} WordInside(sha: string, core: string, a: nat, i: nat)
    requires CoreAt(sha, core, a) && DirtyAt(sha, i)
    ensures a <= i && DirtyAt(core, i - a)
  {
    var word := sha[i..i + 5];
    DirtyNoSpace(word, 0);
    DirtyNoSpace(word, 4);
    assert sha[i] == word[0] && sha[i + 4] == word[4];
    assert a <= i && i + 5 <= a + |core|;
    forall j | 0 <= j < 5 ensures core[i - a + j] == word[j] {
      assert core[i - a + j] == sha[a..a + |core|][i - a + j] == sha[i + j];
    }
    assert core[i - a..i - a + 5] == word;
  }

  lemma {:induction false} NoTreeExact(sha: string)
    ensures DirtySha(sha) <==> NoTree(sha)
  {
    BlankExact(sha);
    MentionsExact(Strip(sha));
    StripMentions(sha);
  }

  lemma {:induction false} AgeExact(receipt: Receipt, p: Policy, now: int)
    ensures var state := AgeOf(receipt.spotCheckUtc, p, now);
            && (state == Never <==> forall t :: !TakenAt(receipt, p, t))
            && (state == Current <==>
                exists t :: TakenAt(receipt, p, t) && now <= t + p.cadenceDays * (24 * 60 * 60 * 1_000_000))
  {
    BlankExact(receipt.spotCheckUtc);
    var parsed := p.parse(receipt.spotCheckUtc);
    if !AllSpace(receipt.spotCheckUtc) && parsed.Some? {
      assert TakenAt(receipt, p, parsed.value);
      assert 24 * 60 * 60 * 1_000_000 == MICROS_PER_DAY;
    }
  }

  lemma {:induction false} LedgerExact(c: Claim, p: Policy, now: int, r: Reason)
    ensures LedgerFault(c, p, now) == Some(r) <==>
            || (r == NoReceipt && c.key !in p.ledger)
            || (r == DirtyReceipt && c.key in p.ledger && NoTree(p.ledger[c.key].hermitSha))
            || (&& r.NotCurrent? && c.key in p.ledger && !NoTree(p.ledger[c.key].hermitSha)
                && !Fresh(p, c.key, now)
                && (r.state == Never <==> forall t :: !TakenAt(p.ledger[c.key], p, t))
                && (r.state == Stale <==> exists t :: TakenAt(p.ledger[c.key], p, t)))
  {
    if c.key in p.ledger {
      NoTreeExact(p.ledger[c.key].hermitSha);
      AgeExact(p.ledger[c.key], p, now);
    }
  }

  lemma {:induction false} RowFaultExact(header: seq<string>, row: Row, component: Component, r: Reason)
    ensures TierEvidence.RowFault(ClaimOf(header, row), component) == Some(r) <==>
            var name := ColumnOf(component);
            || (r == CannotExpress(component) && name !in header)
            || (r == MissingValue(component) && name in header && NoValue(Said(row, name)))
            || (r == EmptyComparison(component) && name in header && NothingCompared(component, Said(row, name)))
  {
    var name := ColumnOf(component);
    EvidenceCell(header, row, component);
    NoValueExact(Said(row, name));
    CountTexts(Said(row, name));
  }

  lemma {:induction false} EvidenceCell(header: seq<string>, row: Row, component: Component)
    ensures ClaimOf(header, row).Evidence(component)
            == if ColumnOf(component) in header then Cell(Said(row, ColumnOf(component))) else NoColumn
  {
  }

  lemma {:induction false} CountTexts(text: string)
    ensures text in ["0|0", "0/0", "0"] <==> text == "0" || text == "0|0" || text == "0/0"
    ensures text in ["0|0", "0/0", "0"] ==> !NoValue(text)
  {
    if text in ["0|0", "0/0", "0"] && NoValue(text) {
      ZeroIsValue(text);
    }
  }

  lemma {:induction false} OtherHead(text: string, word: string)
    requires text != "" && word != "" && !EitherCase(text[0], word[0])
    ensures !Spells(text, word)
  {
  }

  lemma {:induction false} ZeroIsValue(text: string)
    requires text != "" && text[0] == '0'
    ensures !NoValue(text)
  {
    var na, none, nul := "n/a", "none", "null";
    assert na[0] == 'n' && none[0] == 'n' && nul[0] == 'n';
    OtherHead(text, na);
    OtherHead(text, none);
    OtherHead(text, nul);
  }

  lemma {:induction false} ReasonsMembers(c: Claim, components: seq<Component>, p: Policy, now: int, r: Reason)
    ensures r in Reasons(c, components, p, now) <==> exists x <- components :: Fault(c, x, p, now) == Some(r)
  {
    if components != [] {
      var n := |components| - 1;
      ReasonsMembers(c, components[..n], p, now, r);
      assert components == components[..n] + [components[n]];
    }
  }

  lemma {:induction false} AllComponents(x: Component)
    ensures x in COMPONENTS
  {
    assert COMPONENTS[0] == Stdout && COMPONENTS[1] == InfoLog && COMPONENTS[2] == Stack && COMPONENTS[3] == Heap;
  }

  /** What a component is held to. */
  ghost predicate ComponentHeld(x: Component, r: Reason, header: seq<string>, row: Row, p: Policy, now: int) {
    Fault(ClaimOf(header, row), x, p, now) == Some(r)
  }

  lemma {:induction false} TierSaid(header: seq<string>, row: Row, c: Claim)
    requires c == ClaimOf(header, row)
    ensures c.tier == FULL <==> FullClaim(row)
    ensures c.tier == SPOT_CHECK <==> SpotClaim(row)
    ensures !(FullClaim(row) && SpotClaim(row))
    ensures c.key == KeyIn(row)
  {
    TiersDiffer();
  }

  lemma {:induction false} OnRowHeld(x: Component, r: Reason, header: seq<string>, row: Row, p: Policy, now: int)
    requires r.CannotExpress? || r.MissingValue? || r.EmptyComparison?
    requires FullClaim(row) || SpotClaim(row)
    ensures ComponentHeld(x, r, header, row, p, now) <==> x == r.component && HeldAgainst(r, header, row, p, now)
  {
    var c := ClaimOf(header, row);
    TierSaid(header, row, c);
    RowFaultExact(header, row, x, r);
    LedgerExact(c, p, now, r);
  }

  lemma {:induction false} LedgerHeld(x: Component, r: Reason, header: seq<string>, row: Row, p: Policy, now: int)
    requires r.NoReceipt? || r.DirtyReceipt? || r.NotCurrent?
    requires FullClaim(row) || SpotClaim(row)
    ensures ComponentHeld(x, r, header, row, p, now) <==>
            (x == Stack || x == Heap) && HeldAgainst(r, header, row, p, now)
  {
    var c := ClaimOf(header, row);
    TierSaid(header, row, c);
    RowFaultExact(header, row, x, r);
    LedgerExact(c, p, now, r);
  }

  lemma {:induction false} OnRowMeans(header: seq<string>, row: Row, p: Policy, now: int, r: Reason)
    requires r.CannotExpress? || r.MissingValue? || r.EmptyComparison?
    requires FullClaim(row) || SpotClaim(row)
    ensures (exists x <- COMPONENTS :: ComponentHeld(x, r, header, row, p, now)) <==>
            HeldAgainst(r, header, row, p, now)
  {
    AllComponents(r.component);
    OnRowHeld(r.component, r, header, row, p, now);
    if x :| x in COMPONENTS && ComponentHeld(x, r, header, row, p, now) {
      OnRowHeld(x, r, header, row, p, now);
    }
  }

  lemma {:induction false} LedgerMeans(header: seq<string>, row: Row, p: Policy, now: int, r: Reason)
    requires r.NoReceipt? || r.DirtyReceipt? || r.NotCurrent?
    requires FullClaim(row) || SpotClaim(row)
    ensures (exists x <- COMPONENTS :: ComponentHeld(x, r, header, row, p, now)) <==>
            HeldAgainst(r, header, row, p, now)
  {
    AllComponents(Stack);
    LedgerHeld(Stack, r, header, row, p, now);
    if x :| x in COMPONENTS && ComponentHeld(x, r, header, row, p, now) {
      LedgerHeld(x, r, header, row, p, now);
    }
  }

  lemma {:induction false} HeldOfClaim(r: Reason, header: seq<string>, row: Row, p: Policy, now: int)
    requires HeldAgainst(r, header, row, p, now)
    ensures FullClaim(row) || SpotClaim(row)
  {
  }

  lemma {:induction false} ReasonsListed(header: seq<string>, row: Row, p: Policy, now: int, r: Reason, c: Claim)
    requires c == ClaimOf(header, row) && Qualifying(c.tier)
    ensures r in ClaimReasons(c, p, now) <==> exists x <- COMPONENTS :: ComponentHeld(x, r, header, row, p, now)
  {
    ReasonsMembers(c, COMPONENTS, p, now, r);
  }

  /** The reasons the check gives against a row are exactly what is held against it. */
  lemma {:induction false} ReasonsMean(header: seq<string>, row: Row, p: Policy, now: int, r: Reason, c: Claim)
    requires c == ClaimOf(header, row)
    ensures r in ClaimReasons(c, p, now) <==> HeldAgainst(r, header, row, p, now)
  {
    TierSaid(header, row, c);
    if Qualifying(c.tier) {
      ReasonsListed(header, row, p, now, r, c);
      if r.CannotExpress? || r.MissingValue? || r.EmptyComparison? {
        OnRowMeans(header, row, p, now, r);
      } else {
        LedgerMeans(header, row, p, now, r);
      }
    } else if HeldAgainst(r, header, row, p, now) {
      HeldOfClaim(r, header, row, p, now);
    }
  }

  // -------------------------------------------------------------------- the gate

  /** Something is held against the row. */
  ghost predicate InDebt(header: seq<string>, row: Row, p: Policy, now: int) {
    exists r: Reason :: HeldAgainst(r, header, row, p, now)
  }

  lemma {:induction false} InDebtExact(header: seq<string>, row: Row, p: Policy, now: int)
    ensures Unevidenced(ClaimOf(header, row), p, now) <==> InDebt(header, row, p, now)
  {
    var c := ClaimOf(header, row);
    var reasons := ClaimReasons(c, p, now);
    ClaimReasonsExact(c, p, now);
    if reasons != [] {
      assert reasons[0] in reasons;
      ReasonsMean(header, row, p, now, reasons[0], c);
    }
    if r :| HeldAgainst(r, header, row, p, now) {
      ReasonsMean(header, row, p, now, r, c);
    }
  }

  /** The name of a claim in the register. */
  function NameOf(file: string, row: Row): (name: string) {
    file + "|" + Said(row, "test_id") + "|" + Said(row, "test_mode") + "|" + Said(row, "backend") + "|"
    + Said(row, "comparison_tier")
  }

  lemma {:induction false} NameExact(file: string, row: Row)
    ensures ClaimIdentity(file, row) == NameOf(file, row)
  {
    Joined(file, Said(row, "test_id"), Said(row, "test_mode"), Said(row, "backend"), Said(row, TIER));
  }

  lemma {:induction false} Joined(a: string, b: string, c: string, d: string, e: string)
    ensures JoinWith([a, b, c, d, e], '|') == a + "|" + b + "|" + c + "|" + d + "|" + e
  {
    assert [a, b, c, d, e][1..] == [b, c, d, e] && [b, c, d, e][1..] == [c, d, e];
    assert [c, d, e][1..] == [d, e] && [d, e][1..] == [e];
    assert JoinWith([d, e], '|') == d + "|" + e;
    assert JoinWith([c, d, e], '|') == c + "|" + (d + "|" + e) == c + "|" + d + "|" + e;
    assert JoinWith([b, c, d, e], '|') == b + "|" + (c + "|" + d + "|" + e) == b + "|" + c + "|" + d + "|" + e;
    assert a + "|" + (b + "|" + c + "|" + d + "|" + e) == a + "|" + b + "|" + c + "|" + d + "|" + e;
  }

  ghost predicate DebtAt(files: seq<File>, p: Policy, now: int, name: string, k: nat, i: nat) {
    && k < |files| && i < |files[k].sheet.records|
    && NameOf(files[k].name, RowAt(files[k].sheet, i)) == name
    && InDebt(files[k].sheet.header, RowAt(files[k].sheet, i), p, now)
  }

  /** Some row of some scorecard owes evidence under this name. */
  ghost predicate OwedBy(files: seq<File>, p: Policy, now: int, name: string) {
    exists k: nat, i: nat :: DebtAt(files, p, now, name, k, i)
  }

  ghost function Lists(files: seq<File>): (lists: seq<seq<Entry>>)
    ensures |lists| == |files| && forall k :: 0 <= k < |files| ==> lists[k] == FileEntries(files[k])
  {
    seq(|files|, k requires 0 <= k < |files| => FileEntries(files[k]))
  }

  ghost predicate ListedAt(lists: seq<seq<Entry>>, e: Entry, k: nat, i: nat) {
    k < |lists| && i < |lists[k]| && lists[k][i] == e
  }

  lemma {:induction false} EntryIn(files: seq<File>, lists: seq<seq<Entry>>, e: Entry)
    requires lists == Lists(files)
    ensures e in Entries(files) <==> exists k: nat, i: nat :: ListedAt(lists, e, k, i)
  {
    if files != [] {
      var n := |files| - 1;
      assert lists[..n] == Lists(files[..n]);
      EntryIn(files[..n], lists[..n], e);
      ListedLast(lists, lists[..n], e);
    }
  }

  lemma {:induction false} ListedLast(lists: seq<seq<Entry>>, front: seq<seq<Entry>>, e: Entry)
    requires lists != [] && front == lists[..|lists| - 1]
    ensures (exists k: nat, i: nat :: ListedAt(lists, e, k, i)) <==>
            (exists k: nat, i: nat :: ListedAt(front, e, k, i)) || e in lists[|lists| - 1]
  {
    var n := |lists| - 1;
    if e in lists[n] {
      var i :| 0 <= i < |lists[n]| && lists[n][i] == e;
      assert ListedAt(lists, e, n, i);
    }
    if k: nat, i: nat :| ListedAt(front, e, k, i) {
      assert ListedAt(lists, e, k, i);
    }
    if k: nat, i: nat :| ListedAt(lists, e, k, i) {
      if k < n {
        assert ListedAt(front, e, k, i);
      }
    }
  }

  lemma {:induction false} OwedExact(files: seq<File>, p: Policy, now: int, name: string)
    ensures Owes(Entries(files), p, now, name) <==> OwedBy(files, p, now, name)
  {
    var lists := Lists(files);
    if e :| e in Entries(files) && e.identity == name && Unevidenced(e.claim, p, now) {
      EntryIn(files, lists, e);
      var k: nat, i: nat :| ListedAt(lists, e, k, i);
      EntryMeans(files[k], i, p, now);
      assert DebtAt(files, p, now, name, k, i);
    }
    if k: nat, i: nat :| DebtAt(files, p, now, name, k, i) {
      EntryMeans(files[k], i, p, now);
      assert ListedAt(lists, lists[k][i], k, i);
      EntryIn(files, lists, lists[k][i]);
    }
  }

  lemma {:induction false} EntryMeans(file: File, i: nat, p: Policy, now: int)
    requires i < |file.sheet.records|
    ensures var e := EntryOf(file, i);
            && e.file == file.name && e.line == i + 2 && e.identity == NameOf(file.name, RowAt(file.sheet, i))
            && (Unevidenced(e.claim, p, now) <==> InDebt(file.sheet.header, RowAt(file.sheet, i), p, now))
  {
    NameExact(file.name, RowAt(file.sheet, i));
    InDebtExact(file.sheet.header, RowAt(file.sheet, i), p, now);
  }

  /** The gate over the scorecards' own texts: 2 without scorecards, 0 exactly when the register names the rows that owe
      evidence and nothing else (and without one, when none does), else 1. */
  lemma {:induction false} GateMeans(files: seq<File>, register: Option<map<string, string>>, p: Policy, now: int)
    ensures GateExit(files, register, p, now) == 2 <==> files == []
    ensures GateExit(files, register, p, now) == 0 <==>
            files != [] && forall name :: OwedBy(files, p, now, name) <==> register.Some? && name in register.value
    ensures GateExit(files, register, p, now) in {0, 1, 2}
  {
    forall name ensures Owes(Entries(files), p, now, name) <==> OwedBy(files, p, now, name) {
      OwedExact(files, p, now, name);
    }
  }
}
