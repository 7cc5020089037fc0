/**
Verdicts over record streams: whole detlog, stack and heap contents and addresses, and the tier
composed from them.
*/
module StrictVerdict {
  import opened Text
  import opened Reading

  const MARKER := "DETLOG"

  // -------------------------------------------------------------- extraction

  predicate At(line: string, i: nat, word: string) {
    i + |word| <= |line| && line[i..i + |word|] == word
  }

  /** The first occurrence of a word. */
  function Find(line: string, word: string, from: nat): (r: Option<nat>)
    requires from <= |line|
    ensures r.Some? ==> from <= r.value && At(line, r.value, word) && forall j :: from <= j < r.value
                                                                        ==> !At(line, j, word)
    ensures r.None? ==> forall j: nat :: from <= j ==> !At(line, j, word)
    decreases |line| - from
  {
    if At(line, from, word) then Some(from) else if from == |line| then None else Find(line, word, from + 1)
  }

  /** Spaces and tabs off the end. */
  function TrimBlanks(s: string): (r: string)
    ensures r <= s && (r != "" ==> r[|r| - 1] != ' ' && r[|r| - 1] != TAB)
    ensures forall i :: |r| <= i < |s| ==> s[i] == ' ' || s[i] == TAB
  {
    if s != "" && (s[|s| - 1] == ' ' || s[|s| - 1] == TAB) then TrimBlanks(s[..|s| - 1]) else s
  }

  function RecordOf(line: string): (r: Option<string>) {
    var at := Find(line, MARKER, 0);
    if at.None? then None else Some(TrimBlanks(line[at.value..]))
  }

  function RecordsOf(lines: seq<string>): (r: seq<string>) {
    if lines == [] then []
    else
      var n := |lines| - 1;
      var record := RecordOf(lines[n]);
      RecordsOf(lines[..n]) + (if record.Some? then [record.value] else [])
  }

  method Records(lines: seq<string>) returns (out: seq<string>)
    ensures out == RecordsOf(lines)
  {
    out := [];
    for i := 0 to |lines|
      invariant out == RecordsOf(lines[..i])
    {
      assert lines[..i + 1][..i] == lines[..i];
      var at := Find(lines[i], MARKER, 0);
      if at.Some? {
        out := out + [TrimBlanks(lines[i][at.value..])];
      }
    }
    assert lines[..|lines|] == lines;
  }

  lemma {:induction false} RecordsFree(lines: seq<string>)
    requires Free(lines, NEWLINE)
    ensures Free(RecordsOf(lines), NEWLINE)
  {
    if lines != [] {
      var n := |lines| - 1;
      RecordsFree(lines[..n]);
      var at := Find(lines[n], MARKER, 0);
      if at.Some? {
        assert TrimBlanks(lines[n][at.value..]) <= lines[n][at.value..];
      }
    }
  }

  datatype Region = StackRegion | HeapRegion

  /** What the memory pattern captures from a record. */
  datatype Memory = Memory(region: Region, range: string, content: string)

  type Pattern = string -> Option<Memory>

  function RegionRecords(records: seq<string>, pattern: Pattern, region: Region): (r: seq<string>) {
    if records == [] then []
    else
      var n := |records| - 1;
      var m := pattern(records[n]);
      RegionRecords(records[..n], pattern, region) + (if m.Some? && m.value.region == region then [records[n]] else [])
  }

  datatype Pair = Pair(range: string, content: string)

  function PairsOf(records: seq<string>, pattern: Pattern): (r: seq<Pair>) {
    if records == [] then []
    else
      var n := |records| - 1;
      var m := pattern(records[n]);
      PairsOf(records[..n], pattern) + (if m.Some? then [Pair(m.value.range, m.value.content)] else [])
  }

  function Contents(pairs: seq<Pair>): (r: seq<string>)
    ensures |r| == |pairs| && forall i :: 0 <= i < |r| ==> r[i] == pairs[i].content
  {
    seq(|pairs|, i requires 0 <= i < |pairs| => pairs[i].content)
  }

  function Ranges(pairs: seq<Pair>): (r: seq<string>)
    ensures |r| == |pairs| && forall i :: 0 <= i < |r| ==> r[i] == pairs[i].range
  {
    seq(|pairs|, i requires 0 <= i < |pairs| => pairs[i].range)
  }

  // -------------------------------------------------------------- comparison

  datatype Verdict = Pass | Fail | NotMeasured

  datatype Comparison = Comparison(verdict: Verdict, denominatorA: nat, denominatorB: nat, differing: Option<nat>,
                                   prefix: nat)

  /** What is hashed: every record followed by a newline. */
  function Encoded(items: seq<string>): (s: string) {
    Terminated(items, NEWLINE)
  }

  method Digest(items: seq<string>, sha: string -> string) returns (d: string)
    ensures d == sha(Encoded(items))
  {
    var text := "";
    for i := 0 to |items|
      invariant text == Encoded(items[..i])
    {
      assert items[..i + 1] == items[..i] + [items[i]];
      TerminatedAppend(items[..i], [items[i]], NEWLINE);
      assert Encoded([items[i]]) == items[i] + [NEWLINE];
      text := text + items[i];
      text := text + [NEWLINE];
    }
    assert items[..|items|] == items;
    d := sha(text);
  }

  function Min(a: nat, b: nat): nat { if a < b then a else b }

  function Max(a: nat, b: nat): nat { if a < b then b else a }

  function Mismatches(a: seq<string>, b: seq<string>, upTo: nat): (n: nat)
    requires upTo <= |a| && upTo <= |b|
    ensures n <= upTo
    ensures n == 0 <==> a[..upTo] == b[..upTo]
  {
    if upTo == 0 then 0
    else
      assert a[..upTo] == a[..upTo - 1] + [a[upTo - 1]] && b[..upTo] == b[..upTo - 1] + [b[upTo - 1]];
      Mismatches(a, b, upTo - 1) + (if a[upTo - 1] != b[upTo - 1] then 1 else 0)
  }

  /** Positional mismatches plus the length difference. */
  function Differing(a: seq<string>, b: seq<string>): (n: nat)
    ensures n == 0 <==> a == b
  {
    var m := Min(|a|, |b|);
    assert a[..|a|] == a && b[..|b|] == b;
    Mismatches(a, b, m) + (Max(|a|, |b|) - m)
  }

  method CountDiffering(a: seq<string>, b: seq<string>) returns (n: nat)
    ensures n == Differing(a, b)
  {
    var m := Min(|a|, |b|);
    n := 0;
    for i := 0 to m
      invariant n == Mismatches(a, b, i)
    {
      if a[i] != b[i] {
        n := n + 1;
      }
    }
    n := n + (Max(|a|, |b|) - m);
  }

  /** The length of the longest common prefix. */
  ghost predicate IsCommonPrefix(a: seq<string>, b: seq<string>, n: nat) {
    n <= |a| && n <= |b| && a[..n] == b[..n] && (n == |a| || n == |b| || a[n] != b[n])
  }

  method CommonPrefix(a: seq<string>, b: seq<string>) returns (n: nat)
    ensures IsCommonPrefix(a, b, n)
  {
    n := 0;
    while n < |a| && n < |b| && a[n] == b[n]
      invariant n <= |a| && n <= |b| && a[..n] == b[..n]
    {
      assert a[..n + 1] == a[..n] + [a[n]] && b[..n + 1] == b[..n] + [b[n]];
      n := n + 1;
    }
  }

  lemma {:induction false} MismatchesAfterPrefix(a: seq<string>, b: seq<string>, n: nat, upTo: nat)
    requires n <= upTo <= |a| && upTo <= |b| && a[..n] == b[..n]
    ensures Mismatches(a, b, upTo) <= upTo - n
  {
    if upTo > n {
      MismatchesAfterPrefix(a, b, n, upTo - 1);
    }
  }

  /** The common prefix and the differing records never overlap. */
  lemma {:induction false} PrefixPlusDiffering(a: seq<string>, b: seq<string>, n: nat)
    requires IsCommonPrefix(a, b, n)
    ensures n + Differing(a, b) <= Max(|a|, |b|)
    ensures Differing(a, b) == 0 <==> n == |a| == |b|
  {
    MismatchesAfterPrefix(a, b, n, Min(|a|, |b|));
    assert a[..|a|] == a && b[..|b|] == b;
  }

  /** The digest tells the two record lists apart, unless they are the same text. */
  ghost predicate NoCollision(sha: string -> string, a: seq<string>, b: seq<string>) {
    sha(Terminated(a, NEWLINE)) == sha(Terminated(b, NEWLINE)) ==> Terminated(a, NEWLINE) == Terminated(b, NEWLINE)
  }

  /** What every comparison promises, for newline-free records and a digest without a collision on them. */
  ghost predicate Decided(a: seq<string>, b: seq<string>, c: Comparison) {
    && (c.verdict == NotMeasured <==> a == [] || b == [])
    && (c.verdict == Pass <==> a != [] && b != [] && a == b)
    && (c.verdict == Pass <==> a != [] && b != [] && c.differing == Some(0))
    && (c.differing.None? <==> c.verdict == NotMeasured)
    && c.denominatorA == |a| && c.denominatorB == |b|
    && (c.differing.Some? ==> c.differing.value == Differing(a, b) && IsCommonPrefix(a, b, c.prefix)
                              && c.prefix + c.differing.value <= Max(|a|, |b|))
  }

  method Compare(a: seq<string>, b: seq<string>, sha: string -> string) returns (c: Comparison)
    requires NoCollision(sha, a, b) && Free(a, NEWLINE) && Free(b, NEWLINE)
    ensures Decided(a, b, c)
  {
    if a == [] || b == [] {
      return Comparison(NotMeasured, |a|, |b|, None, 0);
    }
    var da := Digest(a, sha);
    var db := Digest(b, sha);
    var differing := CountDiffering(a, b);
    var prefix := CommonPrefix(a, b);
    PrefixPlusDiffering(a, b, prefix);
    if da == db {
      TerminatedInjective(a, b, NEWLINE);
    }
    c := Comparison(if da == db then Pass else Fail, |a|, |b|, Some(differing), prefix);
  }

  // ----------------------------------------------------------- whole verdicts

  datatype MemoryVerdict = MemoryVerdict(content: Comparison, address: Comparison)

  /** A captured range or content never spans a line. */
  ghost predicate LineBound(pattern: Pattern) {
    forall r: string :: pattern(r).Some? && NEWLINE !in r
        ==> NEWLINE !in pattern(r).value.range && NEWLINE !in pattern(r).value.content
  }

  function RunPairs(lines: seq<string>, pattern: Pattern, region: Region): (r: seq<Pair>) {
    PairsOf(RegionRecords(RecordsOf(lines), pattern, region), pattern)
  }

  lemma {:induction false} RegionFree(records: seq<string>, pattern: Pattern, region: Region)
    requires Free(records, NEWLINE)
    ensures Free(RegionRecords(records, pattern, region), NEWLINE)
  {
    if records != [] {
      RegionFree(records[..|records| - 1], pattern, region);
    }
  }

  lemma {:induction false} PairsFree(records: seq<string>, pattern: Pattern)
    requires Free(records, NEWLINE) && LineBound(pattern)
    ensures forall i :: 0 <= i < |PairsOf(records, pattern)| ==>
              NEWLINE !in PairsOf(records, pattern)[i].range && NEWLINE !in PairsOf(records, pattern)[i].content
  {
    if records != [] {
      PairsFree(records[..|records| - 1], pattern);
    }
  }

  method DetlogVerdict(runA: seq<string>, runB: seq<string>, sha: string -> string) returns (c: Comparison)
    requires NoCollision(sha, RecordsOf(runA), RecordsOf(runB)) && Free(runA, NEWLINE) && Free(runB, NEWLINE)
    ensures Decided(RecordsOf(runA), RecordsOf(runB), c)
  {
    var a := Records(runA);
    var b := Records(runB);
    RecordsFree(runA);
    RecordsFree(runB);
    c := Compare(a, b, sha);
  }

  method MemoryVerdictOf(runA: seq<string>, runB: seq<string>, region: Region, pattern: Pattern, sha: string -> string)
    returns (v: MemoryVerdict)
    requires NoCollision(sha, Contents(RunPairs(runA, pattern, region)), Contents(RunPairs(runB, pattern, region)))
    requires NoCollision(sha, Ranges(RunPairs(runA, pattern, region)), Ranges(RunPairs(runB, pattern, region)))
    requires LineBound(pattern) && Free(runA, NEWLINE) && Free(runB, NEWLINE)
    ensures Decided(Contents(RunPairs(runA, pattern, region)), Contents(RunPairs(runB, pattern, region)), v.content)
    ensures Decided(Ranges(RunPairs(runA, pattern, region)), Ranges(RunPairs(runB, pattern, region)), v.address)
  {
    var ra := Records(runA);
    var rb := Records(runB);
    RecordsFree(runA);
    RecordsFree(runB);
    RegionFree(ra, pattern, region);
    RegionFree(rb, pattern, region);
    PairsFree(RegionRecords(ra, pattern, region), pattern);
    PairsFree(RegionRecords(rb, pattern, region), pattern);
    var pa, pb := PairsOf(RegionRecords(ra, pattern, region), pattern),
        PairsOf(RegionRecords(rb, pattern, region), pattern);
    var content := Compare(Contents(pa), Contents(pb), sha);
    var address := Compare(Ranges(pa), Ranges(pb), sha);
    v := MemoryVerdict(content, address);
  }

  /** Content and address both pass exactly when the nonempty pair sequences are equal. */
  lemma {:induction false} MemoryPassIff(pa: seq<Pair>, pb: seq<Pair>, v: MemoryVerdict)
    requires Decided(Contents(pa), Contents(pb), v.content) && Decided(Ranges(pa), Ranges(pb), v.address)
    ensures v.content.verdict == Pass && v.address.verdict == Pass <==> pa != [] && pa == pb
  {
    if Contents(pa) == Contents(pb) && Ranges(pa) == Ranges(pb) {
      forall i | 0 <= i < |pa| ensures pa[i] == pb[i] {
        assert Contents(pa)[i] == Contents(pb)[i] && Ranges(pa)[i] == Ranges(pb)[i];
      }
    }
  }

  /** A passing detlog comparison leaves no stack or heap verdict failing. */
  lemma {:induction false} DetlogPassCoversMemory(runA: seq<string>, runB: seq<string>, pattern: Pattern,
                                                  region: Region, c: Comparison, v: MemoryVerdict)
    requires Decided(RecordsOf(runA), RecordsOf(runB), c) && c.verdict == Pass
    requires Decided(Contents(RunPairs(runA, pattern, region)), Contents(RunPairs(runB, pattern, region)), v.content)
    requires Decided(Ranges(RunPairs(runA, pattern, region)), Ranges(RunPairs(runB, pattern, region)), v.address)
    ensures v.content.verdict != Fail && v.address.verdict != Fail
    ensures v.content.verdict == v.address.verdict
  {
    assert RunPairs(runA, pattern, region) == RunPairs(runB, pattern, region);
  }

  // -------------------------------------------------------------------- tiers

  const STRICT_COMPONENTS := ["stdout", "info_log", "stack", "heap"]

  /** One entry of the verdict dictionary; names do not repeat. */
  datatype Scored = Scored(name: string, verdict: Verdict)

  function Passed(verdicts: seq<Scored>): (r: seq<string>)
    ensures forall n :: n in r <==> Scored(n, Pass) in verdicts
  {
    if verdicts == [] then []
    else
      var n := |verdicts| - 1;
      assert verdicts == verdicts[..n] + [verdicts[n]];
      Passed(verdicts[..n]) + (if verdicts[n].verdict == Pass then [verdicts[n].name] else [])
  }

  function ComposeTier(verdicts: seq<Scored>): (tier: string) {
    var passed := Sort(Passed(verdicts));
    if passed == [] then ""
    else if forall i :: 0 <= i < |STRICT_COMPONENTS| ==> STRICT_COMPONENTS[i] in passed then "strict"
    else "partial:" + JoinWith(passed, '+')
  }

  lemma {:induction false} SortMembers(xs: seq<string>, x: string)
    ensures x in Sort(xs) <==> x in xs
  {
    assert x in Sort(xs) <==> x in multiset(Sort(xs));
  }

  /** The tier reads `strict` exactly when all four components passed, and is empty exactly when none did. */
  lemma {:induction false} NonePassed(verdicts: seq<Scored>, passed: seq<string>)
    requires forall n :: n in passed <==> Scored(n, Pass) in verdicts
    ensures passed == [] <==> forall s <- verdicts :: s.verdict != Pass
  {
    if passed != [] {
      assert passed[0] in passed;
    } else {
      forall s | s in verdicts ensures s.verdict != Pass {
        assert s.name !in passed;
      }
    }
  }

  lemma {:induction false} StrictIff(verdicts: seq<Scored>)
    ensures ComposeTier(verdicts) == "strict"
            <==> forall i :: 0 <= i < |STRICT_COMPONENTS| ==> Scored(STRICT_COMPONENTS[i], Pass) in verdicts
    ensures ComposeTier(verdicts) == "" <==> forall s <- verdicts :: s.verdict != Pass
  {
    var passed := Sort(Passed(verdicts));
    forall n ensures n in passed <==> Scored(n, Pass) in verdicts {
      SortMembers(Passed(verdicts), n);
    }
    NonePassed(verdicts, passed);
    assert STRICT_COMPONENTS[0] == "stdout";
    assert "strict"[0] == 's' && forall rest: string :: ("partial:" + rest)[0] == 'p';
  }

  lemma {:induction false} PassedCount(verdicts: seq<Scored>, name: string)
    ensures multiset(Passed(verdicts))[name] == multiset(verdicts)[Scored(name, Pass)]
  {
    if verdicts != [] {
      var n := |verdicts| - 1;
      PassedCount(verdicts[..n], name);
      assert verdicts == verdicts[..n] + [verdicts[n]];
    }
  }

  /** The tier does not depend on the order of the dictionary. */
  lemma {:induction false} TierIgnoresOrder(a: seq<Scored>, b: seq<Scored>)
    requires multiset(a) == multiset(b)
    ensures ComposeTier(a) == ComposeTier(b)
  {
    forall name: string ensures multiset(Passed(a))[name] == multiset(Passed(b))[name] {
      PassedCount(a, name);
      PassedCount(b, name);
    }
    assert multiset(Passed(a)) == multiset(Passed(b));
    SortCanonical(Passed(a), Passed(b));
  }

  // ------------------------------------------------------------- a row's tier

  function Scores(name: string, v: Option<MemoryVerdict>): (r: seq<Scored>) {
    if v.Some? then [Scored(name, v.value.content.verdict)] else []
  }

  /** The verdicts a row is tiered on; of a memory region the content counts, and an absent region adds nothing. */
  function RowVerdicts(stdout: Verdict, infoLog: Verdict, stack: Option<MemoryVerdict>, heap: Option<MemoryVerdict>)
    : (r: seq<Scored>)
  {
    [Scored("stdout", stdout), Scored("info_log", infoLog)] + Scores("stack", stack) + Scores("heap", heap)
  }

  lemma {:induction false} ComponentsApart()
    ensures "stdout" != "info_log" && "stdout" != "stack" && "stdout" != "heap"
    ensures "info_log" != "stack" && "info_log" != "heap" && "stack" != "heap"
  {
    assert |"stdout"| == 6 && |"info_log"| == 8 && |"stack"| == 5 && |"heap"| == 4;
  }

  lemma {:induction false} RowPasses(stdout: Verdict, infoLog: Verdict, stack: Option<MemoryVerdict>,
                                     heap: Option<MemoryVerdict>)
    ensures var row := RowVerdicts(stdout, infoLog, stack, heap);
            && (Scored("stdout", Pass) in row <==> stdout == Pass)
            && (Scored("info_log", Pass) in row <==> infoLog == Pass)
            && (Scored("stack", Pass) in row <==> stack.Some? && stack.value.content.verdict == Pass)
            && (Scored("heap", Pass) in row <==> heap.Some? && heap.value.content.verdict == Pass)
  {
    ComponentsApart();
    var base, s, h := [Scored("stdout", stdout), Scored("info_log", infoLog)], Scores("stack", stack),
        Scores("heap", heap);
    assert forall x :: x in base + s + h <==> x in base || x in s || x in h;
  }

  /** Region contents that were compared between two runs, found nonempty and equal. */
  ghost predicate Reproduced(runA: seq<string>, runB: seq<string>, pattern: Pattern, region: Region) {
    var a, b := Contents(RunPairs(runA, pattern, region)), Contents(RunPairs(runB, pattern, region));
    a != [] && a == b
  }

  /** The verdict a region was given is the one two runs decide. */
  ghost predicate Compared(runA: seq<string>, runB: seq<string>, pattern: Pattern, region: Region, v: MemoryVerdict) {
    Decided(Contents(RunPairs(runA, pattern, region)), Contents(RunPairs(runB, pattern, region)), v.content)
  }

  /**
   A row fed from two runs is tiered `strict` exactly when stdout and the info log passed and both stack and heap were
   compared, with nonempty and equal contents.
   */
  lemma {:induction false} StrictRowIff(runA: seq<string>, runB: seq<string>, pattern: Pattern, stdout: Verdict,
                                        infoLog: Verdict, stack: Option<MemoryVerdict>, heap: Option<MemoryVerdict>)
    requires stack.Some? ==> Compared(runA, runB, pattern, StackRegion, stack.value)
    requires heap.Some? ==> Compared(runA, runB, pattern, HeapRegion, heap.value)
    ensures ComposeTier(RowVerdicts(stdout, infoLog, stack, heap)) == "strict" <==>
            && stdout == Pass && infoLog == Pass
            && stack.Some? && Reproduced(runA, runB, pattern, StackRegion)
            && heap.Some? && Reproduced(runA, runB, pattern, HeapRegion)
  {
    var row := RowVerdicts(stdout, infoLog, stack, heap);
    StrictIff(row);
    RowPasses(stdout, infoLog, stack, heap);
    AllFour(row);
  }

  lemma {:induction false} AllFour(row: seq<Scored>)
    ensures (forall i :: 0 <= i < |STRICT_COMPONENTS| ==> Scored(STRICT_COMPONENTS[i], Pass) in row) <==>
            && Scored("stdout", Pass) in row && Scored("info_log", Pass) in row
            && Scored("stack", Pass) in row && Scored("heap", Pass) in row
  {
    assert STRICT_COMPONENTS[0] == "stdout" && STRICT_COMPONENTS[1] == "info_log";
    assert STRICT_COMPONENTS[2] == "stack" && STRICT_COMPONENTS[3] == "heap";
  }

  // ------------------------------------------------------- what the records are

  /** The text without its trailing blanks and tabs. */
  ghost predicate EndTrimmed(s: string, r: string) {
    && r <= s && (r != "" ==> r[|r| - 1] !in {' ', TAB})
    && forall i :: |r| <= i < |s| ==> s[i] in {' ', TAB}
  }

  /** The record in a line: from the first marker on, trailing blanks dropped. */
  ghost predicate RecordIn(line: string, r: string, i: nat) {
    && i <= |line| && OccursAt(line, "DETLOG", i) && (forall j: nat :: j < i ==> !OccursAt(line, "DETLOG", j))
    && EndTrimmed(line[i..], r)
  }

  ghost predicate Holds(line: string, r: string) {
    exists i: nat :: RecordIn(line, r, i)
  }

  ghost predicate Marked(line: string) {
    exists i: nat :: OccursAt(line, "DETLOG", i)
  }

  lemma {:induction false} EndTrimmedOnce(s: string, a: string, b: string)
    requires EndTrimmed(s, a) && EndTrimmed(s, b)
    ensures a == b
  {
  }

  lemma {:induction false} RecordExact(line: string, r: string)
    ensures RecordOf(line) == Some(r) <==> Holds(line, r)
  {
    var at := Find(line, MARKER, 0);
    assert forall j: nat :: At(line, j, MARKER) <==> OccursAt(line, "DETLOG", j);
    if at.Some? {
      assert RecordIn(line, TrimBlanks(line[at.value..]), at.value);
    }
    if i: nat :| RecordIn(line, r, i) {
      assert i == at.value;
      EndTrimmedOnce(line[i..], r, TrimBlanks(line[i..]));
    }
  }

  ghost function RecordStands(): (string, nat, string) -> bool {
    (line: string, n: nat, record: string) => Holds(line, record)
  }

  ghost function Unmarked(): string -> bool {
    (line: string) => !Marked(line)
  }

  /** The records are those of the lines at these places, which are all the lines that have one. */
  ghost predicate RecordsAt(lines: seq<string>, at: seq<nat>, records: seq<string>) {
    Picked(lines, at, records, RecordStands(), Unmarked())
  }

  lemma {:induction false} NoRecord(line: string)
    ensures RecordOf(line) == None <==> !Marked(line)
  {
    var at := Find(line, MARKER, 0);
    assert forall j: nat :: At(line, j, MARKER) <==> OccursAt(line, "DETLOG", j);
  }

  /** Every record of a run comes from its own line, in order, and no line with a marker is passed over. */
  lemma {:induction false} RecordsMean(lines: seq<string>) returns (at: seq<nat>)
    ensures RecordsAt(lines, at, RecordsOf(lines))
  {
    if lines == [] {
      at := [];
    } else {
      var n := |lines| - 1;
      at := RecordsMean(lines[..n]);
      var records, last := RecordsOf(lines[..n]), RecordOf(lines[n]);
      NoRecord(lines[n]);
      if last.Some? {
        RecordExact(lines[n], last.value);
        PickedOne(lines, at, records, RecordStands(), Unmarked(), last.value);
        at := at + [n];
      } else {
        assert records + [] == records;
        PassedOne(lines, at, records, RecordStands(), Unmarked());
      }
    }
  }

  ghost predicate OfRegion(record: string, pattern: Pattern, region: Region) {
    pattern(record).Some? && pattern(record).value.region == region
  }

  ghost function PairStands(pattern: Pattern, region: Region): (string, nat, Pair) -> bool {
    (record: string, n: nat, p: Pair) => pattern(record) == Some(Memory(region, p.range, p.content))
  }

  ghost function Elsewhere(pattern: Pattern, region: Region): string -> bool {
    (record: string) => !OfRegion(record, pattern, region)
  }

  /** The pairs are those captured at these places, which are all the records of the region. */
  ghost predicate PairsAt(records: seq<string>, pattern: Pattern, region: Region, at: seq<nat>, pairs: seq<Pair>) {
    Picked(records, at, pairs, PairStands(pattern, region), Elsewhere(pattern, region))
  }

  /** Of a region exactly its own records are compared, in order, each by its range and its content. */
  lemma {:induction false} PairsMean(records: seq<string>, pattern: Pattern, region: Region) returns (at: seq<nat>)
    ensures PairsAt(records, pattern, region, at, PairsOf(RegionRecords(records, pattern, region), pattern))
  {
    if records == [] {
      at := [];
    } else {
      var n := |records| - 1;
      at := PairsMean(records[..n], pattern, region);
      var kept, m := RegionRecords(records[..n], pattern, region), pattern(records[n]);
      var pairs, stands, elsewhere := PairsOf(kept, pattern), PairStands(pattern, region), Elsewhere(pattern, region);
      if OfRegion(records[n], pattern, region) {
        assert (kept + [records[n]])[..|kept|] == kept;
        PickedOne(records, at, pairs, stands, elsewhere, Pair(m.value.range, m.value.content));
        at := at + [n];
      } else {
        assert kept + [] == kept;
        PassedOne(records, at, pairs, stands, elsewhere);
      }
    }
  }
}
