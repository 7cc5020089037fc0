/**
The scorecard renderer's aggregation: run scoping, the newest-write collapse, the backend index,
and the per-bucket and TOTAL counts.
*/
module Render {
  import opened Text
  import TierEvidence

  /** One parsed row; `at` is its position in the file. */
  datatype Cell = Cell(at: nat, runId: string, bucket: string, testId: string, testMode: string, backend: string,
                       outcome: string, deterministic: Option<bool>, parity: Option<bool>, tier: string,
                       evidenced: bool)

  /** Positions grow down the file. */
  ghost predicate InFileOrder(cells: seq<Cell>) {
    forall i, j :: 0 <= i < j < |cells| ==> cells[i].at < cells[j].at
  }

  // ------------------------------------------------------------------- scope

  datatype Scope = RunId(id: string) | Latest

  function OfRun(cells: seq<Cell>, id: string): (r: seq<Cell>)
    ensures forall c :: c in r <==> c in cells && c.runId == id
    ensures (forall c <- cells :: c.runId == id) ==> r == cells
  {
    if cells == [] then []
    else
      var n := |cells| - 1;
      assert cells == cells[..n] + [cells[n]];
      OfRun(cells[..n], id) + (if cells[n].runId == id then [cells[n]] else [])
  }

  /** The run of the last-appended row, whatever its name. */
  method LatestRun(cells: seq<Cell>) returns (id: string)
    requires cells != [] && InFileOrder(cells)
    ensures id == cells[|cells| - 1].runId
  {
    var best := cells[0];
    for i := 1 to |cells|
      invariant best == cells[i - 1]
    {
      if cells[i].at >= best.at {
        best := cells[i];
      }
    }
    id := best.runId;
  }

  method ScopeCells(cells: seq<Cell>, scope: Scope) returns (r: seq<Cell>)
    requires cells != [] && InFileOrder(cells)
    ensures r == OfRun(cells, if scope.RunId? then scope.id else cells[|cells| - 1].runId)
  {
    if scope.RunId? {
      r := OfRun(cells, scope.id);
    } else {
      var id := LatestRun(cells);
      r := OfRun(cells, id);
    }
  }

  // ---------------------------------------------------------------- collapse

  datatype Key = Key(bucket: string, testId: string, testMode: string, backend: string)

  function KeyOf(c: Cell): (k: Key) {
    Key(c.bucket, c.testId, c.testMode, c.backend)
  }

  /** The newest write of every key. */
  function Newest(cells: seq<Cell>): (m: map<Key, Cell>) {
    if cells == [] then map[]
    else
      var n, front := |cells| - 1, Newest(cells[..|cells| - 1]);
      var c := cells[n];
      if KeyOf(c) in front && front[KeyOf(c)].at >= c.at then front else front[KeyOf(c) := c]
  }

  /** The values of a map, in any order. */
  ghost predicate Enumerates(values: seq<Cell>, m: map<Key, Cell>) {
    && (forall c :: c in values ==> KeyOf(c) in m && m[KeyOf(c)] == c)
    && (forall k :: k in m ==> m[k] in values)
  }

  method CollapseNewest(cells: seq<Cell>) returns (values: seq<Cell>)
    ensures Enumerates(values, Newest(cells))
  {
    var newest: map<Key, Cell> := map[];
    for i := 0 to |cells|
      invariant newest == Newest(cells[..i])
    {
      assert cells[..i + 1][..i] == cells[..i];
      var key := KeyOf(cells[i]);
      if key in newest {
        if cells[i].at > newest[key].at {
          newest := newest[key := cells[i]];
        }
      } else {
        newest := newest[key := cells[i]];
      }
    }
    assert cells[..|cells|] == cells;
    NewestKeys(cells);
    values := [];
    var rest := newest.Keys;
    while rest != {}
      invariant rest <= newest.Keys
      invariant forall c :: c in values ==> KeyOf(c) in newest && newest[KeyOf(c)] == c
      invariant forall k :: k in newest && k !in rest ==> newest[k] in values
      decreases |rest|
    {
      var k :| k in rest;
      values := values + [newest[k]];
      rest := rest - {k};
    }
  }

  lemma {:induction false} NewestKeys(cells: seq<Cell>)
    ensures forall k :: k in Newest(cells) ==> KeyOf(Newest(cells)[k]) == k
  {
    if cells != [] {
      NewestKeys(cells[..|cells| - 1]);
    }
  }

  function LastOf(cells: seq<Cell>, k: Key): (r: Option<Cell>)
    ensures r.Some? ==> r.value in cells && KeyOf(r.value) == k
    ensures r.None? ==> forall c :: c in cells ==> KeyOf(c) != k
  {
    if cells == [] then None
    else
      var n := |cells| - 1;
      assert cells == cells[..n] + [cells[n]];
      if KeyOf(cells[n]) == k then Some(cells[n]) else LastOf(cells[..n], k)
  }

  function Entry(m: map<Key, Cell>, k: Key): (r: Option<Cell>) {
    if k in m then Some(m[k]) else None
  }

  /** In file order the newest write is the last one. */
  lemma {:induction false} NewestIsLast(cells: seq<Cell>, k: Key)
    requires InFileOrder(cells)
    ensures Entry(Newest(cells), k) == LastOf(cells, k)
  {
    if cells != [] {
      var n := |cells| - 1;
      NewestIsLast(cells[..n], k);
      if KeyOf(cells[n]) == k && k in Newest(cells[..n]) {
        var j :| 0 <= j < n && cells[..n][j] == Newest(cells[..n])[k];
        assert cells[j].at < cells[n].at;
      }
    }
  }

  lemma {:induction false} EnumeratedLast(values: seq<Cell>, m: map<Key, Cell>, k: Key)
    requires Enumerates(values, m) && forall x :: x in m ==> KeyOf(m[x]) == x
    ensures LastOf(values, k) == Entry(m, k)
  {
    if k in m {
      assert m[k] in values && KeyOf(m[k]) == k;
    }
  }

  // ------------------------------------------------------------------- index

  /** What is kept of a backend's cell. */
  datatype BCell = BCell(det: bool, detMeasured: bool, par: bool, parMeasured: bool, ran: bool)

  predicate Passes(c: Cell) {
    c.outcome == "pass" && TierEvidence.Qualifying(c.tier)
  }

  function BCellOf(c: Cell): (b: BCell)
    ensures (b.det ==> b.detMeasured) && (b.detMeasured ==> b.ran) && (b.par ==> b.parMeasured)
            && (b.parMeasured ==> b.ran)
  {
    BCell(Passes(c) && c.deterministic == Some(true) && c.evidenced, Passes(c) && c.evidenced,
          Passes(c) && c.parity == Some(true), Passes(c) && c.parity.Some?,
          c.outcome != "unavailable" && c.outcome != "skip")
  }

  datatype Slot = Slot(backend: string, bucket: string, testId: string)

  predicate Compared(backend: string) {
    backend != "ptrace" && backend != "native"
  }

  function Index(cells: seq<Cell>, mode: string): (m: map<Slot, BCell>) {
    if cells == [] then map[]
    else
      var n := |cells| - 1;
      var c, front := cells[n], Index(cells[..n], mode);
      if c.testMode == mode && Compared(c.backend) then front[Slot(c.backend, c.bucket, c.testId) := BCellOf(c)]
      else front
  }

  method BuildIndex(cells: seq<Cell>, mode: string) returns (m: map<Slot, BCell>)
    ensures m == Index(cells, mode)
  {
    m := map[];
    for i := 0 to |cells|
      invariant m == Index(cells[..i], mode)
    {
      assert cells[..i + 1][..i] == cells[..i];
      var c := cells[i];
      if c.testMode != mode || c.backend == "ptrace" || c.backend == "native" {
        continue;
      }
      m := m[Slot(c.backend, c.bucket, c.testId) := BCellOf(c)];
    }
    assert cells[..|cells|] == cells;
  }

  /** The index holds, for every compared slot, the last write of its key. */
  lemma {:induction false} IndexIsLast(cells: seq<Cell>, mode: string, s: Slot)
    ensures var last := LastOf(cells, Key(s.bucket, s.testId, mode, s.backend));
            && (s in Index(cells, mode) <==> Compared(s.backend) && last.Some?)
            && (s in Index(cells, mode) ==> Index(cells, mode)[s] == BCellOf(last.value))
  {
    if cells != [] {
      IndexIsLast(cells[..|cells| - 1], mode, s);
    }
  }

  /** Collapsing to the newest writes first, in whatever order, leaves the backend index as it was. */
  lemma {:induction false} CollapseKeepsIndex(cells: seq<Cell>, values: seq<Cell>, mode: string)
    requires InFileOrder(cells) && Enumerates(values, Newest(cells))
    ensures Index(values, mode) == Index(cells, mode)
  {
    NewestKeys(cells);
    forall s
      ensures s in Index(values, mode) <==> s in Index(cells, mode)
      ensures s in Index(cells, mode) ==> Index(values, mode)[s] == Index(cells, mode)[s]
    {
      var k := Key(s.bucket, s.testId, mode, s.backend);
      NewestIsLast(cells, k);
      EnumeratedLast(values, Newest(cells), k);
      IndexIsLast(values, mode, s);
      IndexIsLast(cells, mode, s);
    }
  }

  /** On a single-run file the default scope and `--all` build the same index. */
  lemma {:induction false} ScopesAgree(cells: seq<Cell>, values: seq<Cell>, mode: string)
    requires cells != [] && InFileOrder(cells) && Enumerates(values, Newest(cells))
    requires forall c <- cells :: c.runId == cells[|cells| - 1].runId
    ensures Index(OfRun(cells, cells[|cells| - 1].runId), mode) == Index(values, mode)
  {
    CollapseKeepsIndex(cells, values, mode);
  }

  // ------------------------------------------------------------------ counts

  datatype Counts = Counts(par: nat, det: nat, parMeasured: nat, ran: nat, detMeasured: nat)

  const ZERO := Counts(0, 0, 0, 0, 0)

  function Add(a: Counts, b: Counts): (r: Counts) {
    Counts(a.par + b.par, a.det + b.det, a.parMeasured + b.parMeasured, a.ran + b.ran, a.detMeasured + b.detMeasured)
  }

  function One(b: BCell): (r: Counts) {
    Counts(if b.par then 1 else 0, if b.det then 1 else 0, if b.parMeasured then 1 else 0, if b.ran then 1
        else 0, if b.detMeasured then 1 else 0)
  }

  predicate Chained(c: Counts, ptrace: nat) {
    c.par <= c.parMeasured <= c.ran <= ptrace && c.det <= c.detMeasured <= c.ran
  }

  /** Which denominator tests a backend's index satisfies a flag on. */
  function Hits(index: map<Slot, BCell>, denom: set<string>, backend: string, bucket: string,
                flag: BCell -> bool): (r: set<string>) {
    set t | t in denom && Slot(backend, bucket, t) in index && flag(index[Slot(backend, bucket, t)])
  }

  const PAR: BCell -> bool := (b: BCell) => b.par
  const DET: BCell -> bool := (b: BCell) => b.det
  const PAR_MEASURED: BCell -> bool := (b: BCell) => b.parMeasured
  const RAN: BCell -> bool := (b: BCell) => b.ran
  const DET_MEASURED: BCell -> bool := (b: BCell) => b.detMeasured

  function CountsOf(index: map<Slot, BCell>, denom: set<string>, backend: string, bucket: string): (c: Counts) {
    Counts(|Hits(index, denom, backend, bucket, PAR)|, |Hits(index, denom, backend, bucket, DET)|,
           |Hits(index, denom, backend, bucket, PAR_MEASURED)|, |Hits(index, denom, backend, bucket, RAN)|,
           |Hits(index, denom, backend, bucket, DET_MEASURED)|)
  }

  lemma {:induction false} HitsGrow(index: map<Slot, BCell>, denom: set<string>, backend: string, bucket: string,
                                    flag: BCell -> bool, t: string)
    requires t !in denom
    ensures |Hits(index, denom + {t}, backend, bucket, flag)| == |Hits(index, denom, backend, bucket, flag)|
              + if Slot(backend, bucket, t) in index && flag(index[Slot(backend, bucket, t)]) then 1 else 0
  {
    var before, after := Hits(index, denom, backend, bucket, flag), Hits(index, denom + {t}, backend, bucket, flag);
    if Slot(backend, bucket, t) in index && flag(index[Slot(backend, bucket, t)]) {
      assert after == before + {t};
    } else {
      assert after == before;
    }
  }

  lemma {:induction false} CountsGrow(index: map<Slot, BCell>, denom: set<string>, backend: string, bucket: string,
                                      t: string)
    requires t !in denom
    ensures CountsOf(index, denom + {t}, backend, bucket) ==
            Add(CountsOf(index, denom, backend, bucket), if Slot(backend, bucket, t) in index
                then One(index[Slot(backend, bucket, t)]) else ZERO)
  {
    HitsGrow(index, denom, backend, bucket, PAR, t);
    HitsGrow(index, denom, backend, bucket, DET, t);
    HitsGrow(index, denom, backend, bucket, PAR_MEASURED, t);
    HitsGrow(index, denom, backend, bucket, RAN, t);
    HitsGrow(index, denom, backend, bucket, DET_MEASURED, t);
  }

  /** The tests of a set, each once, as the denominator is iterated. */
  ghost predicate Lists(tests: seq<string>, denom: set<string>) {
    (forall t :: t in tests <==> t in denom) && forall i, j :: 0 <= i < j < |tests| ==> tests[i] != tests[j]
  }

  method ListTests(denom: set<string>) returns (tests: seq<string>)
    ensures Lists(tests, denom)
  {
    tests := [];
    var rest := denom;
    while rest != {}
      invariant rest <= denom
      invariant forall t :: t in tests <==> t in denom && t !in rest
      invariant forall i, j :: 0 <= i < j < |tests| ==> tests[i] != tests[j]
      decreases |rest|
    {
      var t :| t in rest;
      tests := tests + [t];
      rest := rest - {t};
    }
  }

  function SumHits(index: map<Slot, BCell>, tests: seq<string>, backend: string, bucket: string): (c: Counts) {
    if tests == [] then ZERO
    else
      var n := |tests| - 1;
      var s, front := Slot(backend, bucket, tests[n]), SumHits(index, tests[..n], backend, bucket);
      if s in index then Add(front, One(index[s])) else front
  }

  lemma {:induction false} ListsLess(tests: seq<string>, denom: set<string>) returns (less: set<string>)
    requires Lists(tests, denom) && tests != []
    ensures Lists(tests[..|tests| - 1], less) && tests[|tests| - 1] !in less && less + {tests[|tests| - 1]} == denom
  {
    var t := tests[|tests| - 1];
    less := denom - {t};
    assert tests == tests[..|tests| - 1] + [t];
  }

  lemma {:induction false} SumIsCounts(index: map<Slot, BCell>, tests: seq<string>, denom: set<string>, backend: string,
                                       bucket: string)
    requires Lists(tests, denom)
    ensures SumHits(index, tests, backend, bucket) == CountsOf(index, denom, backend, bucket)
    decreases |tests|
  {
    if tests == [] {
      NoHits(index, backend, bucket);
      assert denom == {};
    } else {
      var less := ListsLess(tests, denom);
      SumIsCounts(index, tests[..|tests| - 1], less, backend, bucket);
      SumStep(index, tests, less, denom, backend, bucket);
    }
  }

  lemma {:induction false} SumStep(index: map<Slot, BCell>, tests: seq<string>, less: set<string>, denom: set<string>,
                                   backend: string, bucket: string)
    requires tests != [] && tests[|tests| - 1] !in less && less + {tests[|tests| - 1]} == denom
    requires SumHits(index, tests[..|tests| - 1], backend, bucket) == CountsOf(index, less, backend, bucket)
    ensures SumHits(index, tests, backend, bucket) == CountsOf(index, denom, backend, bucket)
  {
    var t := tests[|tests| - 1];
    var before, after := CountsOf(index, less, backend, bucket), CountsOf(index, denom, backend, bucket);
    var gain := if Slot(backend, bucket, t) in index then One(index[Slot(backend, bucket, t)]) else ZERO;
    assert after == Add(before, gain) by { CountsGrow(index, less, backend, bucket, t); }
    SumUnfolds(index, tests, backend, bucket, before, gain);
  }

  lemma {:induction false} SumUnfolds(index: map<Slot, BCell>, tests: seq<string>, backend: string, bucket: string,
                                      before: Counts, gain: Counts)
    requires tests != [] && SumHits(index, tests[..|tests| - 1], backend, bucket) == before
    requires var s := Slot(backend, bucket, tests[|tests| - 1]); gain == if s in index then One(index[s]) else ZERO
    ensures SumHits(index, tests, backend, bucket) == Add(before, gain)
  {
    AddZero(before);
  }

  method CountBackend(index: map<Slot, BCell>, denom: set<string>, backend: string, bucket: string) returns (c: Counts)
    ensures c == CountsOf(index, denom, backend, bucket)
  {
    var tests := ListTests(denom);
    c := ZERO;
    for i := 0 to |tests|
      invariant c == SumHits(index, tests[..i], backend, bucket)
    {
      assert tests[..i + 1][..i] == tests[..i];
      var s := Slot(backend, bucket, tests[i]);
      if s in index {
        c := Add(c, One(index[s]));
      }
    }
    assert tests[..|tests|] == tests;
    SumIsCounts(index, tests, denom, backend, bucket);
  }

  lemma {:induction false} NoHits(index: map<Slot, BCell>, backend: string, bucket: string)
    ensures CountsOf(index, {}, backend, bucket) == ZERO
  {
    assert forall flag :: Hits(index, {}, backend, bucket, flag) == {};
  }

  /** Every index entry comes from a cell, so its flags are ordered. */
  ghost predicate Ordered(index: map<Slot, BCell>) {
    forall s :: s in index ==>
      var b := index[s];
      (b.det ==> b.detMeasured) && (b.detMeasured ==> b.ran) && (b.par ==> b.parMeasured) && (b.parMeasured ==> b.ran)
  }

  lemma {:induction false} IndexOrdered(cells: seq<Cell>, mode: string)
    ensures Ordered(Index(cells, mode))
  {
    if cells != [] {
      IndexOrdered(cells[..|cells| - 1], mode);
    }
  }

  /** parity <= parity-measured <= ran <= denominator and determinism <= determinism-measured <= ran. */
  lemma {:induction false} CountsChained(index: map<Slot, BCell>, denom: set<string>, backend: string, bucket: string)
    requires Ordered(index)
    ensures Chained(CountsOf(index, denom, backend, bucket), |denom|)
  {
    SubsetSize(Hits(index, denom, backend, bucket, PAR), Hits(index, denom, backend, bucket, PAR_MEASURED));
    SubsetSize(Hits(index, denom, backend, bucket, PAR_MEASURED), Hits(index, denom, backend, bucket, RAN));
    SubsetSize(Hits(index, denom, backend, bucket, RAN), denom);
    SubsetSize(Hits(index, denom, backend, bucket, DET), Hits(index, denom, backend, bucket, DET_MEASURED));
    SubsetSize(Hits(index, denom, backend, bucket, DET_MEASURED), Hits(index, denom, backend, bucket, RAN));
  }

  // ------------------------------------------------------------ denominator

  predicate InDenominator(c: Cell, mode: string, bucket: string) {
    c.testMode == mode && c.backend == "ptrace" && c.bucket == bucket && Passes(c)
  }

  /** The tests of a bucket that ptrace passed in the requested mode. */
  function Denominator(cells: seq<Cell>, mode: string, bucket: string): (r: set<string>)
    ensures forall t :: t in r <==> exists c <- cells :: InDenominator(c, mode, bucket) && c.testId == t
  {
    if cells == [] then {}
    else
      var n := |cells| - 1;
      assert cells == cells[..n] + [cells[n]];
      Denominator(cells[..n], mode, bucket) + (if InDenominator(cells[n], mode, bucket) then {cells[n].testId} else {})
  }

  function TestsAt(m: map<string, set<string>>, bucket: string): (r: set<string>) {
    if bucket in m then m[bucket] else {}
  }

  method PtracePasses(cells: seq<Cell>, mode: string) returns (m: map<string, set<string>>)
    ensures forall bucket: string :: TestsAt(m, bucket) == Denominator(cells, mode, bucket)
  {
    m := map[];
    for i := 0 to |cells|
      invariant forall bucket: string :: TestsAt(m, bucket) == Denominator(cells[..i], mode, bucket)
    {
      assert cells[..i + 1][..i] == cells[..i];
      var c := cells[i];
      if c.testMode == mode && c.backend == "ptrace" && Passes(c) {
        m := m[c.bucket := TestsAt(m, c.bucket) + {c.testId}];
      }
    }
    assert cells[..|cells|] == cells;
  }

  /** The buckets that appear in the requested mode, each once. */
  function BucketNames(cells: seq<Cell>, mode: string): (r: seq<string>)
    ensures forall b :: b in r <==> exists c <- cells :: c.testMode == mode && c.bucket == b
    ensures forall i, j :: 0 <= i < j < |r| ==> r[i] != r[j]
  {
    if cells == [] then []
    else
      var n := |cells| - 1;
      assert cells == cells[..n] + [cells[n]];
      var front := BucketNames(cells[..n], mode);
      if cells[n].testMode == mode && cells[n].bucket !in front then front + [cells[n].bucket] else front
  }

  // --------------------------------------------------------------------- rows

  datatype Row = Row(ptrace: nat, back: map<string, Counts>)

  function CountAt<K>(m: map<K, Counts>, b: K): (c: Counts) {
    if b in m then m[b] else ZERO
  }

  /** The row of one bucket: its denominator, and for each requested backend the counts over it. */
  ghost predicate IsRow(r: Row, cells: seq<Cell>, mode: string, bucket: string, cols: seq<string>) {
    var denom := Denominator(cells, mode, bucket);
    && r.ptrace == |denom|
    && (forall b :: b in r.back <==> b in cols)
    && (forall b :: b in cols ==> r.back[b] == CountsOf(Index(cells, mode), denom, b, bucket))
  }

  method BuildRow(cells: seq<Cell>, mode: string, index: map<Slot, BCell>, denom: set<string>, bucket: string,
                  cols: seq<string>)
    returns (r: Row)
    requires index == Index(cells, mode) && denom == Denominator(cells, mode, bucket)
    ensures IsRow(r, cells, mode, bucket, cols)
  {
    var back: map<string, Counts> := map[];
    for i := 0 to |cols|
      invariant forall b :: b in back <==> b in cols[..i]
      invariant forall b :: b in back ==> back[b] == CountsOf(index, denom, b, bucket)
    {
      assert cols[..i + 1] == cols[..i] + [cols[i]];
      var c := CountBackend(index, denom, cols[i], bucket);
      back := back[cols[i] := c];
    }
    assert cols[..|cols|] == cols;
    r := Row(|denom|, back);
  }

  /** In every bucket row the counts are ordered and bounded by the denominator. */
  lemma {:induction false} RowChained(r: Row, cells: seq<Cell>, mode: string, bucket: string, cols: seq<string>,
                                      b: string)
    requires IsRow(r, cells, mode, bucket, cols) && b in cols
    ensures Chained(r.back[b], r.ptrace)
  {
    IndexOrdered(cells, mode);
    CountsChained(Index(cells, mode), Denominator(cells, mode, bucket), b, bucket);
  }

  // -------------------------------------------------------------------- total

  function Times(n: nat, c: Counts): (r: Counts) {
    Counts(n * c.par, n * c.det, n * c.parMeasured, n * c.ran, n * c.detMeasured)
  }

  function Multiplicity<K(==)>(cols: seq<K>, b: K): (n: nat)
    ensures n == 0 <==> b !in cols
    ensures n == multiset(cols)[b]
  {
    if cols == [] then 0
    else
      assert cols == cols[..|cols| - 1] + [cols[|cols| - 1]];
      Multiplicity(cols[..|cols| - 1], b) + (if cols[|cols| - 1] == b then 1 else 0)
  }

  function SumPtrace(rows: seq<Row>): (n: nat) {
    if rows == [] then 0 else SumPtrace(rows[..|rows| - 1]) + rows[|rows| - 1].ptrace
  }

  /** The column of one backend, summed over the bucket rows. */
  function SumColumn(rows: seq<Row>, b: string): (c: Counts) {
    if rows == [] then ZERO else Add(SumColumn(rows[..|rows| - 1], b), CountAt(rows[|rows| - 1].back, b))
  }

  /** A backend's counts, once per mention of it. */
  function Mentions<K(==)>(cols: seq<K>, b: K, c: Counts): (r: Counts) {
    if cols == [] then ZERO
    else
      var front := Mentions(cols[..|cols| - 1], b, c);
      if cols[|cols| - 1] == b then Add(front, c) else front
  }

  lemma {:induction false} MentionsAreTimes<K>(cols: seq<K>, b: K, c: Counts)
    ensures Mentions(cols, b, c) == Times(Multiplicity(cols, b), c)
  {
    if cols != [] {
      var front := cols[..|cols| - 1];
      MentionsAreTimes(front, b, c);
      TimesMore(Multiplicity(front, b), c);
    }
  }

  /** What the running total shows for one backend after some of the columns were added. */
  ghost predicate Added<K>(t: map<K, Counts>, total: map<K, Counts>, back: map<K, Counts>, cols: seq<K>, b: K) {
    CountAt(t, b) == Add(CountAt(total, b), Mentions(cols, b, CountAt(back, b)))
  }

  lemma {:induction false} OneMoreMention<K>(cols: seq<K>, x: K, b: K, c: Counts)
    ensures Mentions(cols + [x], b, c) == if x == b then Add(Mentions(cols, b, c), c) else Mentions(cols, b, c)
  {
    assert (cols + [x])[..|cols|] == cols;
  }

  lemma {:induction false} AddAssociative(a: Counts, b: Counts, c: Counts)
    ensures Add(Add(a, b), c) == Add(a, Add(b, c))
  {
  }

  lemma {:induction false} AddedGrows<K>(t: map<K, Counts>, total: map<K, Counts>, back: map<K, Counts>, cols: seq<K>,
                                         x: K, b: K, next: map<K, Counts>)
    requires Added(t, total, back, cols, b) && x in back && next == t[x := Add(CountAt(t, x), back[x])]
    ensures Added(next, total, back, cols + [x], b)
  {
    var c := CountAt(back, b);
    OneMoreMention(cols, x, b, c);
    if b == x {
      AddAssociative(CountAt(total, b), Mentions(cols, b, c), c);
      assert CountAt(next, b) == Add(CountAt(t, b), c);
    } else {
      assert CountAt(next, b) == CountAt(t, b);
    }
  }

  ghost predicate AllAdded<K(!new)>(t: map<K, Counts>, total: map<K, Counts>, back: map<K, Counts>, cols: seq<K>) {
    forall b: K :: Added(t, total, back, cols, b)
  }

  lemma {:induction false} AddZero(c: Counts)
    ensures Add(c, ZERO) == c
  {
  }

  lemma {:induction false} NothingAdded<K(!new)>(total: map<K, Counts>, back: map<K, Counts>)
    ensures AllAdded(total, total, back, [])
  {
    forall b: K ensures Added(total, total, back, [], b) {
      assert Mentions([], b, CountAt(back, b)) == ZERO;
      AddZero(CountAt(total, b));
    }
  }

  lemma {:induction false} AllAddedGrows<K(!new)>(t: map<K, Counts>, total: map<K, Counts>, back: map<K, Counts>,
                                                  cols: seq<K>, x: K, next: map<K, Counts>)
    requires AllAdded(t, total, back, cols) && x in back && next == t[x := Add(CountAt(t, x), back[x])]
    ensures AllAdded(next, total, back, cols + [x])
  {
    forall b: K ensures Added(next, total, back, cols + [x], b) {
      AddedGrows(t, total, back, cols, x, b, next);
    }
  }

  method AddToTotal<K(==, !new)>(total: map<K, Counts>, back: map<K, Counts>, cols: seq<K>) returns (t: map<K, Counts>)
    requires forall b :: b in cols ==> b in back
    ensures AllAdded(t, total, back, cols)
  {
    t := total;
    NothingAdded(total, back);
    for i := 0 to |cols|
      invariant AllAdded(t, total, back, cols[..i])
    {
      assert cols[..i + 1] == cols[..i] + [cols[i]];
      assert cols[i] in cols;
      var next := t[cols[i] := Add(CountAt(t, cols[i]), back[cols[i]])];
      AllAddedGrows(t, total, back, cols[..i], cols[i], next);
      t := next;
    }
    assert cols[..|cols|] == cols;
  }

  lemma {:induction false} Distribute(n: nat, x: nat, y: nat)
    ensures n * (x + y) == n * x + n * y
  {
  }

  lemma {:induction false} TimesAdd(n: nat, a: Counts, b: Counts)
    ensures Times(n, Add(a, b)) == Add(Times(n, a), Times(n, b))
  {
    Distribute(n, a.par, b.par);
    Distribute(n, a.det, b.det);
    Distribute(n, a.parMeasured, b.parMeasured);
    Distribute(n, a.ran, b.ran);
    Distribute(n, a.detMeasured, b.detMeasured);
  }

  lemma {:induction false} TimesMore(n: nat, c: Counts)
    ensures Times(n + 1, c) == Add(Times(n, c), c)
  {
  }

  ghost predicate IsTotal(total: Row, rows: seq<Row>, cols: seq<string>) {
    && total.ptrace == SumPtrace(rows)
    && forall b: string :: CountAt(total.back, b) == Times(Multiplicity(cols, b), SumColumn(rows, b))
  }

  lemma {:induction false} ColumnGrows(total: Counts, sum: Counts, more: Counts, m: nat, mentioned: Counts, now: Counts)
    requires total == Times(m, sum) && mentioned == Times(m, more) && now == Add(total, mentioned)
    ensures now == Times(m, Add(sum, more))
  {
    TimesAdd(m, sum, more);
  }

  lemma {:induction false} TotalGrowsAt(total: Row, rows: seq<Row>, row: Row, cols: seq<string>, t: map<string, Counts>,
                                        b: string)
    requires CountAt(total.back, b) == Times(Multiplicity(cols, b), SumColumn(rows, b))
    requires Added(t, total.back, row.back, cols, b)
    ensures CountAt(t, b) == Times(Multiplicity(cols, b), SumColumn(rows + [row], b))
  {
    assert (rows + [row])[..|rows|] == rows;
    var more := CountAt(row.back, b);
    MentionsAreTimes(cols, b, more);
    ColumnGrows(CountAt(total.back, b), SumColumn(rows, b), more, Multiplicity(cols, b), Mentions(cols, b, more),
                CountAt(t, b));
  }

  lemma {:induction false} PtraceGrows(rows: seq<Row>, row: Row)
    ensures SumPtrace(rows + [row]) == SumPtrace(rows) + row.ptrace
  {
    assert (rows + [row])[..|rows|] == rows;
  }

  lemma {:induction false} TotalGrows(total: Row, rows: seq<Row>, row: Row, cols: seq<string>, t: map<string, Counts>,
                                      now: Row)
    requires IsTotal(total, rows, cols)
    requires AllAdded(t, total.back, row.back, cols)
    requires now.back == t && now.ptrace == total.ptrace + row.ptrace
    ensures IsTotal(now, rows + [row], cols)
  {
    forall b: string ensures CountAt(now.back, b) == Times(Multiplicity(cols, b), SumColumn(rows + [row], b)) {
      assert CountAt(total.back, b) == Times(Multiplicity(cols, b), SumColumn(rows, b));
      assert Added(t, total.back, row.back, cols, b);
      TotalGrowsAt(total, rows, row, cols, t, b);
    }
    PtraceGrows(rows, row);
  }

  /** One row a bucket, and a TOTAL that adds each row once per mention of the backend. */
  method Aggregate(cells: seq<Cell>, mode: string, cols: seq<string>)
    returns (buckets: seq<string>, rows: seq<Row>, total: Row)
    ensures buckets == Sort(BucketNames(cells, mode)) && |rows| == |buckets|
    ensures forall i :: 0 <= i < |rows| ==> IsRow(rows[i], cells, mode, buckets[i], cols)
    ensures IsTotal(total, rows, cols)
  {
    var ptrace := PtracePasses(cells, mode);
    var index := BuildIndex(cells, mode);
    buckets := Sort(BucketNames(cells, mode));
    rows, total := [], Row(0, map[]);
    for i := 0 to |buckets|
      invariant |rows| == i && forall j :: 0 <= j < i ==> IsRow(rows[j], cells, mode, buckets[j], cols)
      invariant IsTotal(total, rows, cols)
    {
      var row := BuildRow(cells, mode, index, TestsAt(ptrace, buckets[i]), buckets[i], cols);
      var back := AddToTotal(total.back, row.back, cols);
      var now := Row(total.ptrace + row.ptrace, back);
      TotalGrows(total, rows, row, cols, back, now);
      total := now;
      rows := rows + [row];
    }
  }

  lemma {:induction false} TimesFixed(m: nat, x: nat)
    requires m >= 1
    ensures m * x == x <==> m == 1 || x == 0
  {
    if m >= 2 {
      Doubles(m, x);
    }
  }

  /** TOTAL is the column sum exactly for a backend named once, or whose column is all zero. */
  lemma {:induction false} TotalIsColumnSumIff(total: Row, rows: seq<Row>, cols: seq<string>, b: string)
    requires IsTotal(total, rows, cols) && b in cols
    ensures CountAt(total.back, b) == SumColumn(rows, b) <==> Multiplicity(cols, b) == 1 || SumColumn(rows, b) == ZERO
  {
    var m, c := Multiplicity(cols, b), SumColumn(rows, b);
    TimesFixed(m, c.par);
    TimesFixed(m, c.det);
    TimesFixed(m, c.parMeasured);
    TimesFixed(m, c.ran);
    TimesFixed(m, c.detMeasured);
  }

  lemma {:induction false} Doubles(m: nat, x: nat)
    requires m >= 2
    ensures m * x >= 2 * x
  {
    assert m * x == 2 * x + (m - 2) * x;
  }

  ghost predicate AllRows(rows: seq<Row>, cells: seq<Cell>, mode: string, buckets: seq<string>, cols: seq<string>) {
    |rows| == |buckets| && forall i :: 0 <= i < |rows| ==> IsRow(rows[i], cells, mode, buckets[i], cols)
  }

  lemma {:induction false} ColumnChained(rows: seq<Row>, cells: seq<Cell>, mode: string, buckets: seq<string>,
                                         cols: seq<string>, b: string)
    requires AllRows(rows, cells, mode, buckets, cols) && b in cols
    ensures Chained(SumColumn(rows, b), SumPtrace(rows))
  {
    if rows != [] {
      var n := |rows| - 1;
      ColumnChained(rows[..n], cells, mode, buckets[..n], cols, b);
      RowChained(rows[n], cells, mode, buckets[n], cols, b);
    }
  }

  lemma {:induction false} TimesMonotone(n: nat, x: nat, y: nat)
    requires x <= y
    ensures n * x <= n * y
  {
    assert n * y == n * x + n * (y - x);
  }

  /** The TOTAL counts are ordered whatever was requested, and bounded by the denominator for a backend named once. */
  lemma {:induction false} TotalChained(total: Row, rows: seq<Row>, cells: seq<Cell>, mode: string,
                                        buckets: seq<string>, cols: seq<string>, b: string)
    requires AllRows(rows, cells, mode, buckets, cols) && IsTotal(total, rows, cols) && b in cols
    ensures var c := CountAt(total.back, b);
            && c.par <= c.parMeasured <= c.ran && c.det <= c.detMeasured <= c.ran
            && (c.ran <= total.ptrace <==> Multiplicity(cols, b) * SumColumn(rows, b).ran <= SumPtrace(rows))
            && (Multiplicity(cols, b) == 1 ==> Chained(c, total.ptrace))
  {
    ColumnChained(rows, cells, mode, buckets, cols, b);
    var m, c := Multiplicity(cols, b), SumColumn(rows, b);
    TimesMonotone(m, c.par, c.parMeasured);
    TimesMonotone(m, c.parMeasured, c.ran);
    TimesMonotone(m, c.det, c.detMeasured);
    TimesMonotone(m, c.detMeasured, c.ran);
  }

  /** Over the rows of any file, a backend that ran every denominator test exceeds the ptrace total exactly when it is
      named at least twice. */
  lemma {:induction false} RepeatedBackendOvercounts(total: Row, rows: seq<Row>, cells: seq<Cell>, mode: string,
                                                     buckets: seq<string>, cols: seq<string>, b: string)
    requires AllRows(rows, cells, mode, buckets, cols) && IsTotal(total, rows, cols) && b in cols
    requires SumColumn(rows, b).ran == SumPtrace(rows) > 0
    ensures CountAt(total.back, b).ran > total.ptrace <==> Multiplicity(cols, b) >= 2
  {
    TotalChained(total, rows, cells, mode, buckets, cols, b);
    if Multiplicity(cols, b) >= 2 {
      Doubles(Multiplicity(cols, b), SumColumn(rows, b).ran);
    }
  }

  // ------------------------------------------------------------ two such cells

  /** One test that ptrace and dbi both passed under a qualifying tier. */
  function PassedOn(at: nat, backend: string): (c: Cell) {
    Cell(at, "r", "b", "t", "verify", backend, "pass", Some(true), Some(true), TierEvidence.FULL, true)
  }

  const TWO_CELLS := [PassedOn(0, "ptrace"), PassedOn(1, "dbi")]
  const TWICE := ["dbi", "dbi"]

  lemma {:induction false} BackendsApart()
    ensures "dbi" != "ptrace" && "dbi" != "native" && "pass" != "unavailable" && "pass" != "skip"
  {
    assert |"dbi"| == 3 && |"ptrace"| == 6 && |"native"| == 6 && |"pass"| == 4 && |"unavailable"| == 11;
    assert "pass"[0] == 'p' && "skip"[0] == 's';
  }

  lemma {:induction false} TwoBuckets()
    ensures Sort(BucketNames(TWO_CELLS, "verify")) == ["b"]
  {
    assert TWO_CELLS[..1] == [PassedOn(0, "ptrace")] && TWO_CELLS[..1][..0] == [];
    assert BucketNames(TWO_CELLS[..1], "verify") == ["b"];
    assert BucketNames(TWO_CELLS, "verify") == ["b"];
  }

  lemma {:induction false} TwoDenominator()
    ensures Denominator(TWO_CELLS, "verify", "b") == {"t"}
  {
    BackendsApart();
    assert TWO_CELLS[..1] == [PassedOn(0, "ptrace")] && TWO_CELLS[..1][..0] == [];
    assert Denominator(TWO_CELLS[..1], "verify", "b") == {"t"};
    assert !InDenominator(PassedOn(1, "dbi"), "verify", "b");
  }

  lemma {:induction false} TwoRan()
    ensures CountsOf(Index(TWO_CELLS, "verify"), {"t"}, "dbi", "b").ran == 1
  {
    BackendsApart();
    var index, s := Index(TWO_CELLS, "verify"), Slot("dbi", "b", "t");
    assert s in index && index[s].ran;
    assert Hits(index, {"t"}, "dbi", "b", RAN) == {"t"};
  }

  lemma {:induction false} OneRowSums(rows: seq<Row>, b: string)
    requires |rows| == 1
    ensures SumPtrace(rows) == rows[0].ptrace && SumColumn(rows, b).ran == CountAt(rows[0].back, b).ran
  {
    assert rows[..0] == [];
  }

  /** Over those two cells with `dbi` named twice, TOTAL shows two runs against one ptrace pass. */
  lemma {:induction false} TwiceNamedTotal(buckets: seq<string>, rows: seq<Row>, total: Row)
    requires buckets == Sort(BucketNames(TWO_CELLS, "verify")) && AllRows(rows, TWO_CELLS, "verify", buckets, TWICE)
    requires IsTotal(total, rows, TWICE)
    ensures total.ptrace == 1 && CountAt(total.back, "dbi").ran == 2
  {
    TwoBuckets();
    TwoDenominator();
    TwoRan();
    assert TWICE[0] == "dbi" && "dbi" in TWICE;
    assert IsRow(rows[0], TWO_CELLS, "verify", "b", TWICE);
    OneRowSums(rows, "dbi");
    assert Multiplicity(TWICE, "dbi") == 2 by {
      assert TWICE[..1] == ["dbi"] && TWICE[..1][..0] == [];
      assert Multiplicity(TWICE[..1], "dbi") == 1;
    }
  }
}
