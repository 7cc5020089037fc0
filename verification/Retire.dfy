/**
Demotion of qualifying tier claims that their own rows cannot evidence: a rewrite of the
scorecard after which the evidence gate has nothing left to refuse.
*/
module Retire {
  import opened Text
  import opened Sheets
  import opened SheetText
  import opened TierEvidence
  import StrictVerdict

  const REASON := "reason"
  const DEMOTED_TIER := "legacy-unqualified"

  function ComponentName(c: Component): (s: string) {
    match c
    case Stdout => "stdout"
    case InfoLog => "info_log"
    case Stack => "stack"
    case Heap => "heap"
  }

  /** The part of a reason that goes into the note. */
  function Tag(r: Reason): (s: string) {
    match r
    case CannotExpress(c) => ComponentName(c)
    case MissingValue(c) => ComponentName(c)
    case EmptyComparison(c) => ComponentName(c)
    case NoReceipt => "NEVER"
    case DirtyReceipt => "dirty-receipt"
    case NotCurrent(state) => if state.Stale? then "STALE" else "NEVER"
  }

  /** The tags of the reasons, each once. */
  function Tags(reasons: seq<Reason>): (r: seq<string>)
    ensures forall t :: t in r <==> exists x <- reasons :: t == Tag(x)
    ensures forall i, j :: 0 <= i < j < |r| ==> r[i] != r[j]
  {
    if reasons == [] then []
    else
      var n := |reasons| - 1;
      assert reasons == reasons[..n] + [reasons[n]];
      var front, tag := Tags(reasons[..n]), Tag(reasons[n]);
      if tag in front then front else front + [tag]
  }

  function CommaJoined(tags: seq<string>): (s: string) {
    if |tags| == 0 then "" else if |tags| == 1 then tags[0] else tags[0] + ", " + CommaJoined(tags[1..])
  }

  /** The same list read from its end. */
  ghost function Listing(tags: seq<string>): (s: string) {
    if tags == [] then ""
    else
      var n := |tags| - 1;
      if n == 0 then tags[0] else Listing(tags[..n]) + ", " + tags[n]
  }

  lemma {:induction false} ListingFront(tags: seq<string>)
    requires |tags| > 1
    ensures Listing(tags) == tags[0] + ", " + Listing(tags[1..])
  {
    var n := |tags| - 1;
    if n > 1 {
      ListingFront(tags[..n]);
      assert tags[1..][..n - 1] == tags[..n][1..];
    }
  }

  lemma {:induction false} CommaListed(tags: seq<string>)
    ensures CommaJoined(tags) == Listing(tags)
  {
    if |tags| > 1 {
      CommaListed(tags[1..]);
      ListingFront(tags);
    }
  }

  function Note(reasons: seq<Reason>): (s: string) {
    "tier demoted to legacy-unqualified: unevidenced (" + CommaJoined(Tags(reasons)) + ")"
  }

  // ------------------------------------------------------------ reasons as text

  /** The characters before the first `c`, all of them if there is none. */
  function UpTo(s: string, c: char): (r: string)
    ensures r <= s && c !in r
  {
    if s == "" || s[0] == c then "" else [s[0]] + UpTo(s[1..], c)
  }

  /** What the tool takes from the text of a reason: its first word, without what stands before a colon. */
  function ComponentPart(text: string): (part: string) {
    var head := UpTo(text, ' ');
    if ':' in head then head[|UpTo(head, ':')| + 1..] else head
  }

  function Place(c: Component): (i: nat)
    ensures i < |StrictVerdict.STRICT_COMPONENTS|
  {
    match c
    case Stdout => 0
    case InfoLog => 1
    case Stack => 2
    case Heap => 3
  }

  /** The kind a reason's text begins with, and what follows it. */
  function Kind(r: Reason): (s: string) {
    match r
    case CannotExpress(_) => "schema-cannot-express"
    case MissingValue(_) => "missing"
    case EmptyComparison(_) => "empty-comparison"
    case NoReceipt => "cadence"
    case DirtyReceipt => "dirty-receipt"
    case NotCurrent(_) => "cadence"
  }

  function Subject(r: Reason): (s: string) {
    match r
    case CannotExpress(c) => StrictVerdict.STRICT_COMPONENTS[Place(c)]
    case MissingValue(c) => StrictVerdict.STRICT_COMPONENTS[Place(c)]
    case EmptyComparison(c) => StrictVerdict.STRICT_COMPONENTS[Place(c)]
    case NoReceipt => "NEVER"
    case DirtyReceipt => ""
    case NotCurrent(state) => if state == Stale then "STALE" else "NEVER"
  }

  /** A reason as the gate words it, with any explanation behind. */
  ghost predicate Worded(r: Reason, text: string) {
    Kind(r) + (if r.DirtyReceipt? then "" else ":" + Subject(r)) + " " <= text
  }

  lemma {:induction false} UpToFirst(word: string, c: char, rest: string)
    requires c !in word
    ensures UpTo(word + [c] + rest, c) == word
  {
    var s := word + [c] + rest;
    if word != "" {
      assert s[1..] == word[1..] + [c] + rest;
      UpToFirst(word[1..], c, rest);
    }
  }

  lemma {:induction false} SubjectTaken(kind: string, subject: string, tail: string)
    requires ' ' !in kind && ':' !in kind && ' ' !in subject
    ensures ComponentPart(kind + ":" + subject + " " + tail) == subject
  {
    var head := kind + ":" + subject;
    assert ' ' !in head;
    UpToFirst(head, ' ', tail);
    UpToFirst(kind, ':', subject);
    assert head[|kind|] == ':' && ':' in head;
    assert head[|kind| + 1..] == subject;
  }

  lemma {:induction false} KindPlain(r: Reason)
    ensures ' ' !in Kind(r) && ':' !in Kind(r)
  {
  }

  lemma {:induction false} SubjectPlain(r: Reason)
    ensures ' ' !in Subject(r)
    ensures !r.DirtyReceipt? ==> Subject(r) == Tag(r)
  {
    assert StrictVerdict.STRICT_COMPONENTS[0] == "stdout" && StrictVerdict.STRICT_COMPONENTS[1] == "info_log";
    assert StrictVerdict.STRICT_COMPONENTS[2] == "stack" && StrictVerdict.STRICT_COMPONENTS[3] == "heap";
  }

  /** Whatever explanation a reason carries, its part of the note is its tag. */
  lemma {:induction false} TagTaken(r: Reason, text: string)
    requires Worded(r, text)
    ensures ComponentPart(text) == Tag(r)
  {
    KindPlain(r);
    SubjectPlain(r);
    if r.DirtyReceipt? {
      var tail := text[|Kind(r)| + 1..];
      UpToFirst(Kind(r), ' ', tail);
      assert text == Kind(r) + " " + tail;
    } else {
      var tail := text[|Kind(r)| + |Subject(r)| + 2..];
      assert text == Kind(r) + ":" + Subject(r) + " " + tail;
      SubjectTaken(Kind(r), Subject(r), tail);
    }
  }

  method Components(texts: seq<string>, ghost reasons: seq<Reason>) returns (s: string)
    requires |texts| == |reasons| && forall i :: 0 <= i < |texts| ==> Worded(reasons[i], texts[i])
    ensures s == Listing(Tags(reasons))
  {
    var seen: seq<string> := [];
    for i := 0 to |texts|
      invariant seen == Tags(reasons[..i])
    {
      TagTaken(reasons[i], texts[i]);
      assert reasons[..i + 1][..i] == reasons[..i];
      var component := ComponentPart(texts[i]);
      if component !in seen {
        seen := seen + [component];
      }
    }
    assert reasons[..|texts|] == reasons;
    CommaListed(seen);
    s := CommaJoined(seen);
  }

  function Demote(row: Row, reasons: seq<Reason>): (r: Row) {
    var existing := Strip(Get(row, REASON));
    row[TIER := DEMOTED_TIER][REASON := if existing != "" then existing + "; " + Note(reasons) else Note(reasons)]
  }

  /** What becomes of one row, given the reasons against its claim. */
  function RetiredRow(row: Row, reasons: seq<Reason>): (r: Row) {
    if reasons != [] then Demote(row, reasons) else row
  }

  function SheetClaims(sheet: Sheet): (r: seq<Claim>)
    ensures |r| == |sheet.records| && forall i :: 0 <= i < |r| ==> r[i] == ClaimOf(sheet.header, RowAt(sheet, i))
  {
    seq(|sheet.records|, i requires 0 <= i < |sheet.records| => ClaimOf(sheet.header, RowAt(sheet, i)))
  }

  function ReasonsOf(claims: seq<Claim>, p: Policy, now: int): (r: seq<seq<Reason>>)
    ensures |r| == |claims| && forall i :: 0 <= i < |r| ==> r[i] == ClaimReasons(claims[i], p, now)
  {
    seq(|claims|, i requires 0 <= i < |claims| => ClaimReasons(claims[i], p, now))
  }

  /** The reasons against each row, in order. */
  function SheetReasons(sheet: Sheet, p: Policy, now: int): (r: seq<seq<Reason>>)
    ensures |r| == |sheet.records|
    ensures forall i :: 0 <= i < |r| ==> r[i] == ClaimReasons(ClaimOf(sheet.header, RowAt(sheet, i)), p, now)
  {
    ReasonsOf(SheetClaims(sheet), p, now)
  }

  function RetiredRecords(sheet: Sheet, all: seq<seq<Reason>>): (r: seq<seq<string>>)
    requires |all| == |sheet.records|
    ensures |r| == |sheet.records|
    ensures forall i :: 0 <= i < |r| ==> r[i] == Written(sheet.header, RetiredRow(RowAt(sheet, i), all[i]))
  {
    seq(|sheet.records|, i requires 0 <= i < |sheet.records| =>
                           Written(sheet.header, RetiredRow(RowAt(sheet, i), all[i])))
  }

  function RetiredSheet(sheet: Sheet, p: Policy, now: int): (r: Sheet) {
    Sheet(sheet.header, RetiredRecords(sheet, SheetReasons(sheet, p, now)))
  }

  predicate DemotableAt(sheet: Sheet, i: nat, p: Policy, now: int)
    requires i < |sheet.records|
  {
    SheetReasons(sheet, p, now)[i] != []
  }

  // ---------------------------------------------------------------- the tool

  datatype Target = Target(index: nat, reasons: seq<Reason>)

  datatype Outcome = Untouched | WouldDemote(count: nat) | Demoted(sheet: Sheet, count: nat) | Raised

  /** The targets are exactly the rows with reasons, in order. */
  ghost predicate Targeted(all: seq<seq<Reason>>, targets: seq<Target>) {
    && (forall i :: 0 <= i < |targets| ==>
          targets[i].index < |all| && targets[i].reasons == all[targets[i].index] && targets[i].reasons != [])
    && (forall k :: 0 <= k < |all| && all[k] != [] ==> exists i :: 0 <= i < |targets| && targets[i].index == k)
    && (forall i, j :: 0 <= i < j < |targets| ==> targets[i].index < targets[j].index)
  }

  function RowsAgainst(all: seq<seq<Reason>>): (n: nat) {
    if all == [] then 0 else RowsAgainst(all[..|all| - 1]) + (if all[|all| - 1] != [] then 1 else 0)
  }

  lemma {:induction false} RowsAgainstGrows(all: seq<seq<Reason>>, reasons: seq<Reason>)
    ensures RowsAgainst(all + [reasons]) == RowsAgainst(all) + if reasons != [] then 1 else 0
  {
    assert (all + [reasons])[..|all|] == all;
  }

  lemma {:induction false} TargetedGrows(all: seq<seq<Reason>>, targets: seq<Target>, reasons: seq<Reason>)
    requires Targeted(all, targets)
    ensures reasons == [] ==> Targeted(all + [reasons], targets)
    ensures reasons != [] ==> Targeted(all + [reasons], targets + [Target(|all|, reasons)])
  {
    var grown := targets + [Target(|all|, reasons)];
    assert forall i :: 0 <= i < |targets| ==> grown[i] == targets[i];
    assert grown[|targets|].index == |all|;
  }

  method CheckClaims(claims: seq<Claim>, p: Policy, now: int) returns (all: seq<seq<Reason>>)
    ensures all == ReasonsOf(claims, p, now)
  {
    all := [];
    for i := 0 to |claims|
      invariant |all| == i && forall j :: 0 <= j < i ==> all[j] == ClaimReasons(claims[j], p, now)
    {
      var reasons := CheckRow(claims[i], p, now);
      all := all + [reasons];
    }
  }

  method RowsToDemote(sheet: Sheet, p: Policy, now: int) returns (targets: seq<Target>)
    ensures Targeted(SheetReasons(sheet, p, now), targets)
    ensures |targets| == RowsAgainst(SheetReasons(sheet, p, now))
  {
    var all := CheckClaims(SheetClaims(sheet), p, now);
    targets := SelectTargets(all);
  }

  method SelectTargets(all: seq<seq<Reason>>) returns (targets: seq<Target>)
    ensures Targeted(all, targets) && |targets| == RowsAgainst(all)
  {
    targets := [];
    ghost var seen := [];
    for i := 0 to |all|
      invariant seen == all[..i] && Targeted(seen, targets) && |targets| == RowsAgainst(seen)
    {
      PrefixGrows(all, i);
      RowsAgainstGrows(seen, all[i]);
      TargetedGrows(seen, targets, all[i]);
      seen := seen + [all[i]];
      if all[i] != [] {
        targets := targets + [Target(i, all[i])];
      }
    }
    assert all[..|all|] == all;
  }

  /** Whether the dictionary writer refuses: a key or a surplus field that the header does not name. */
  predicate WriterRefuses(sheet: Sheet) {
    REASON !in sheet.header || exists i :: 0 <= i < |sheet.records| && |sheet.records[i]| > |sheet.header|
  }

  ghost predicate AnyDemotable(sheet: Sheet, p: Policy, now: int) {
    exists i :: 0 <= i < |sheet.records| && DemotableAt(sheet, i, p, now)
  }

  method Retire(sheet: Sheet, apply: bool, p: Policy, now: int) returns (o: Outcome)
    ensures o == Untouched <==> !AnyDemotable(sheet, p, now)
    ensures o.WouldDemote? <==> AnyDemotable(sheet, p, now) && !apply
    ensures o == Raised <==>
            && AnyDemotable(sheet, p, now) && apply
            && ("reason" !in sheet.header || exists r <- sheet.records :: |r| > |sheet.header|)
    ensures o.Demoted? ==> o.sheet == RetiredSheet(sheet, p, now)
    ensures o.WouldDemote? || o.Demoted? ==> o.count == RowsAgainst(SheetReasons(sheet, p, now))
  {
    var targets := RowsToDemote(sheet, p, now);
    if targets == [] {
      return Untouched;
    }
    assert DemotableAt(sheet, targets[0].index, p, now);
    if !apply {
      return WouldDemote(|targets|);
    }
    if WriterRefuses(sheet) {
      return Raised;
    }
    var records := RewriteRecords(sheet, SheetReasons(sheet, p, now), targets);
    return Demoted(Sheet(sheet.header, records), |targets|);
  }

  method RewriteRecords(sheet: Sheet, ghost all: seq<seq<Reason>>, targets: seq<Target>)
    returns (records: seq<seq<string>>)
    requires |all| == |sheet.records| && Targeted(all, targets)
    ensures records == RetiredRecords(sheet, all)
  {
    var reasons := ReasonsByRow(all, |sheet.records|, targets);
    records := RetiredRecords(sheet, reasons);
  }

  /** The reasons of each row, empty for a row that is no target. */
  method ReasonsByRow(ghost all: seq<seq<Reason>>, count: nat, targets: seq<Target>) returns (r: seq<seq<Reason>>)
    requires count == |all| && Targeted(all, targets)
    ensures r == all
  {
    r := [];
    for i := 0 to count
      invariant r == all[..i]
    {
      var k := FindTarget(targets, i);
      TargetReasons(all, targets, i, k);
      r := r + [if k < |targets| then targets[k].reasons else []];
    }
  }

  method FindTarget(targets: seq<Target>, line: nat) returns (k: nat)
    ensures k <= |targets| && (k < |targets| ==> targets[k].index == line)
    ensures k == |targets| ==> forall j :: 0 <= j < |targets| ==> targets[j].index != line
  {
    k := 0;
    while k < |targets| && targets[k].index != line
      invariant k <= |targets| && forall j :: 0 <= j < k ==> targets[j].index != line
    {
      k := k + 1;
    }
  }

  lemma {:induction false} TargetReasons(all: seq<seq<Reason>>, targets: seq<Target>, i: nat, k: nat)
    requires i < |all| && Targeted(all, targets)
    requires k <= |targets| && (k < |targets| ==> targets[k].index == i)
    requires k == |targets| ==> forall j :: 0 <= j < |targets| ==> targets[j].index != i
    ensures all[i] == if k < |targets| then targets[k].reasons else []
  {
  }

  // -------------------------------------------------------- what is preserved

  /** Every column but the tier and the reason reads after the rewrite as it read before. */
  lemma {:induction false} OtherColumnsKept(sheet: Sheet, p: Policy, now: int, i: nat, c: string)
    requires i < |sheet.records| && c != TIER && c != REASON
    ensures Get(RowAt(RetiredSheet(sheet, p, now), i), c) == Get(RowAt(sheet, i), c)
  {
    var row := RowAt(sheet, i);
    WrittenBack(sheet.header, RetiredRow(row, SheetReasons(sheet, p, now)[i]), c);
    if c !in sheet.header {
      DictKeys(sheet.header, sheet.records[i], c);
    }
  }

  /** A row whose claim stands, or that makes none, reads as before in every column. */
  lemma {:induction false} StandingRowKept(sheet: Sheet, p: Policy, now: int, i: nat, c: string)
    requires i < |sheet.records| && !DemotableAt(sheet, i, p, now)
    ensures Get(RowAt(RetiredSheet(sheet, p, now), i), c) == Get(RowAt(sheet, i), c)
  {
    WrittenBack(sheet.header, RowAt(sheet, i), c);
    if c !in sheet.header {
      DictKeys(sheet.header, sheet.records[i], c);
    }
  }

  lemma {:induction false} QualifyingHasColumn(header: seq<string>, record: seq<string>)
    requires Qualifying(Strip(Get(DictRow(header, record), TIER)))
    ensures TIER in header
  {
    if TIER !in header {
      DictKeys(header, record, TIER);
    }
  }

  /** A demoted row keeps its old reason and gains the note, under the unqualified tier. */
  lemma {:induction false} DemotedRowReads(sheet: Sheet, p: Policy, now: int, i: nat)
    requires i < |sheet.records| && DemotableAt(sheet, i, p, now) && REASON in sheet.header
    ensures var was, after := RowAt(sheet, i), RowAt(RetiredSheet(sheet, p, now), i);
            var existing, tags := Strip(Get(was, "reason")), Tags(SheetReasons(sheet, p, now)[i]);
            var note := "tier demoted to legacy-unqualified: unevidenced (" + Listing(tags) + ")";
            && Get(after, "comparison_tier") == "legacy-unqualified"
            && Get(after, "reason") == if existing != "" then existing + "; " + note else note
  {
    var row := RowAt(sheet, i);
    QualifyingHasColumn(sheet.header, sheet.records[i]);
    var retired := RetiredRow(row, SheetReasons(sheet, p, now)[i]);
    assert TIER != REASON by { assert |TIER| == 15 && |REASON| == 6; }
    CommaListed(Tags(SheetReasons(sheet, p, now)[i]));
    WrittenBack(sheet.header, retired, TIER);
    WrittenBack(sheet.header, retired, REASON);
  }

  // ------------------------------------------------------------ after retiring

  lemma {:induction false} SameClaim(header: seq<string>, a: Row, b: Row)
    requires forall c :: Get(a, c) == Get(b, c)
    ensures ClaimOf(header, a) == ClaimOf(header, b)
  {
  }

  lemma {:induction false} DemotedNotQualifying()
    ensures !Qualifying(Strip(DEMOTED_TIER))
  {
    StripTrimmed(DEMOTED_TIER);
    assert |DEMOTED_TIER| == 18 && |FULL| == 27 && |SPOT_CHECK| == 33;
  }

  /** No row of the rewritten sheet is demotable at the same instant and ledger. */
  lemma {:induction false} NothingLeft(sheet: Sheet, p: Policy, now: int, i: nat)
    requires i < |sheet.records| && REASON in sheet.header
    ensures !DemotableAt(RetiredSheet(sheet, p, now), i, p, now)
  {
    var was, after := RowAt(sheet, i), RowAt(RetiredSheet(sheet, p, now), i);
    if DemotableAt(sheet, i, p, now) {
      DemotedRowReads(sheet, p, now, i);
      DemotedNotQualifying();
    } else {
      forall c ensures Get(after, c) == Get(was, c) {
        StandingRowKept(sheet, p, now, i, c);
      }
      SameClaim(sheet.header, after, was);
    }
  }

  /** A second retire at the same instant finds nothing and touches nothing. */
  lemma {:induction false} RetireIdempotent(sheet: Sheet, p: Policy, now: int)
    requires !WriterRefuses(sheet)
    ensures !AnyDemotable(RetiredSheet(sheet, p, now), p, now)
  {
    forall i | 0 <= i < |sheet.records| ensures !DemotableAt(RetiredSheet(sheet, p, now), i, p, now) {
      NothingLeft(sheet, p, now, i);
    }
  }

  /** The scorecard a successful `--apply` leaves behind. */
  ghost function AfterApply(f: File, p: Policy, now: int): (r: File) {
    if AnyDemotable(f.sheet, p, now) then File(f.name, RetiredSheet(f.sheet, p, now)) else f
  }

  ghost function AllApplied(files: seq<File>, p: Policy, now: int): (r: seq<File>)
    ensures |r| == |files| && forall i :: 0 <= i < |r| ==> r[i] == AfterApply(files[i], p, now)
  {
    seq(|files|, i requires 0 <= i < |files| => AfterApply(files[i], p, now))
  }

  lemma {:induction false} EntryFrom(files: seq<File>, e: Entry)
    requires e in Entries(files)
    ensures exists k, i: nat :: 0 <= k < |files| && i < |files[k].sheet.records| && e == EntryOf(files[k], i)
  {
    var n := |files| - 1;
    if e in FileEntries(files[n]) {
      var i :| 0 <= i < |FileEntries(files[n])| && FileEntries(files[n])[i] == e;
      assert e == EntryOf(files[n], i);
    } else {
      EntryFrom(files[..n], e);
      var k, i: nat :| 0 <= k < n && i < |files[..n][k].sheet.records| && e == EntryOf(files[..n][k], i);
      assert e == EntryOf(files[k], i);
    }
  }

  lemma {:induction false} NothingOwed(files: seq<File>, p: Policy, now: int, id: string)
    requires forall f <- files :: AnyDemotable(f.sheet, p, now) ==> !WriterRefuses(f.sheet)
    ensures !Owes(Entries(AllApplied(files, p, now)), p, now, id)
  {
    var after := AllApplied(files, p, now);
    forall e | e in Entries(after) ensures !Unevidenced(e.claim, p, now) {
      EntryFrom(after, e);
      var k, i: nat :| 0 <= k < |after| && i < |after[k].sheet.records| && e == EntryOf(after[k], i);
      assert files[k] in files;
      AppliedEntryStands(files[k], p, now, i);
    }
  }

  /** After `--apply` over every scorecard the evidence gate exits 0 without a register, and with one exactly when it is
      empty. */
  lemma {:induction false} RetireThenCheck(files: seq<File>, p: Policy, now: int, register: map<string, string>)
    requires files != [] && forall f <- files :: AnyDemotable(f.sheet, p, now) ==> !WriterRefuses(f.sheet)
    ensures GateExit(AllApplied(files, p, now), None, p, now) == 0
    ensures GateExit(AllApplied(files, p, now), Some(register), p, now) == 0 <==> register == map[]
  {
    forall id ensures !Owes(Entries(AllApplied(files, p, now)), p, now, id) {
      NothingOwed(files, p, now, id);
    }
  }

  lemma {:induction false} AppliedEntryStands(f: File, p: Policy, now: int, i: nat)
    requires AnyDemotable(f.sheet, p, now) ==> !WriterRefuses(f.sheet)
    requires i < |AfterApply(f, p, now).sheet.records|
    ensures !Unevidenced(EntryOf(AfterApply(f, p, now), i).claim, p, now)
  {
    var sheet := AfterApply(f, p, now).sheet;
    if AnyDemotable(f.sheet, p, now) {
      RetireIdempotent(f.sheet, p, now);
    }
    assert !DemotableAt(sheet, i, p, now);
    var c := ClaimOf(sheet.header, RowAt(sheet, i));
    ClaimReasonsExact(c, p, now);
  }

  /** For a fixed ledger, the rows that would be demoted only grow as time passes. */
  lemma {:induction false} DemotionsGrow(sheet: Sheet, p: Policy, earlier: int, later: int, i: nat)
    requires i < |sheet.records| && earlier <= later && DemotableAt(sheet, i, p, earlier)
    ensures DemotableAt(sheet, i, p, later)
  {
    var c := ClaimOf(sheet.header, RowAt(sheet, i));
    ClaimReasonsExact(c, p, earlier);
    EvidenceExpires(c, p, earlier, later);
    ClaimReasonsExact(c, p, later);
  }

  // ----------------------------------------------------------------- as text

  datatype TextFile = TextFile(name: string, text: string)

  function ReadFile(f: TextFile): (r: File) {
    File(f.name, SheetOf(f.text))
  }

  function AllRead(files: seq<TextFile>): (r: seq<File>)
    ensures |r| == |files| && forall i :: 0 <= i < |r| ==> r[i] == ReadFile(files[i])
  {
    seq(|files|, i requires 0 <= i < |files| => ReadFile(files[i]))
  }

  /** The bytes a successful `--apply` leaves behind: a file with nothing to demote is not written at all. */
  ghost function TextApplied(f: TextFile, p: Policy, now: int): (r: TextFile) {
    var sheet := SheetOf(f.text);
    if AnyDemotable(sheet, p, now) then TextFile(f.name, SheetWritten(RetiredSheet(sheet, p, now))) else f
  }

  ghost function AllTextApplied(files: seq<TextFile>, p: Policy, now: int): (r: seq<TextFile>)
    ensures |r| == |files| && forall i :: 0 <= i < |r| ==> r[i] == TextApplied(files[i], p, now)
  {
    seq(|files|, i requires 0 <= i < |files| => TextApplied(files[i], p, now))
  }

  /** The file is either left alone, or can be written and holds no carriage return that the writer leaves bare. */
  ghost predicate Rewritable(f: TextFile, p: Policy, now: int) {
    var sheet := SheetOf(f.text);
    AnyDemotable(sheet, p, now) ==> !WriterRefuses(sheet) && ReadsBack(FileRecords(RetiredSheet(sheet, p, now)))
  }

  lemma {:induction false} TextAppliedRead(f: TextFile, p: Policy, now: int)
    requires Rewritable(f, p, now)
    ensures ReadFile(TextApplied(f, p, now)) == AfterApply(ReadFile(f), p, now)
  {
    var sheet := SheetOf(f.text);
    if AnyDemotable(sheet, p, now) {
      SheetRead(RetiredSheet(sheet, p, now));
    }
  }

  /** Over the bytes: the gate, reading the files that `--apply` left, exits 0 without a register, and with one exactly
      when it is empty. */
  lemma {:induction false} RetireTextThenCheck(files: seq<TextFile>, p: Policy, now: int, register: map<string, string>)
    requires files != [] && forall i :: 0 <= i < |files| ==> Rewritable(files[i], p, now)
    ensures var after := AllRead(AllTextApplied(files, p, now));
            && GateExit(after, None, p, now) == 0
            && (GateExit(after, Some(register), p, now) == 0 <==> register == map[])
  {
    var was, after := AllRead(files), AllRead(AllTextApplied(files, p, now));
    forall i | 0 <= i < |files| ensures after[i] == AllApplied(was, p, now)[i] {
      TextAppliedRead(files[i], p, now);
    }
    assert after == AllApplied(was, p, now);
    forall f <- was ensures AnyDemotable(f.sheet, p, now) ==> !WriterRefuses(f.sheet) {
      var i :| 0 <= i < |was| && was[i] == f;
      assert Rewritable(files[i], p, now);
    }
    RetireThenCheck(was, p, now, register);
  }

  // ------------------------------------------------------ a sheet that raises

  /** A full-tier claim in a sheet of one column. */
  const BARE_SHEET := Sheet([TIER], [[FULL]])

  lemma {:induction false} BareClaim()
    ensures ClaimOf(BARE_SHEET.header, RowAt(BARE_SHEET, 0)).tier == FULL
    ensures ClaimOf(BARE_SHEET.header, RowAt(BARE_SHEET, 0)).stdout == NoColumn
  {
    assert DictRow([TIER][1..], [FULL][1..]) == map[];
    assert RowAt(BARE_SHEET, 0) == map[TIER := FULL];
    StripTrimmed(FULL);
    assert |TIER| == 15 && |"stdout_parity"| == 13;
  }

  /** Without a `reason` column the demotion it needs is refused by the writer. */
  lemma {:induction false} BareSheetRaises(p: Policy, now: int)
    ensures AnyDemotable(BARE_SHEET, p, now) && WriterRefuses(BARE_SHEET)
  {
    BareClaim();
    var c := ClaimOf(BARE_SHEET.header, RowAt(BARE_SHEET, 0));
    ClaimReasonsExact(c, p, now);
    assert DemotableAt(BARE_SHEET, 0, p, now);
    assert |TIER| == 15 && |REASON| == 6;
  }
}
