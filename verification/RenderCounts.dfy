/**
What the rendered numbers count, said of the cells alone.
*/
module RenderCounts {
  import opened Text
  import opened Render

  /** A cell of this test on this backend, in the bucket and mode shown. */
  predicate Sits(c: Cell, mode: string, bucket: string, backend: string, test: string) {
    c.testMode == mode && c.bucket == bucket && c.backend == backend && c.testId == test
  }

  ghost predicate LastAt(cells: seq<Cell>, mode: string, bucket: string, backend: string, test: string, i: nat) {
    && i < |cells| && Sits(cells[i], mode, bucket, backend, test)
    && forall j :: i < j < |cells| ==> !Sits(cells[j], mode, bucket, backend, test)
  }

  /** The outcome counts as green: a pass under one of the two full comparison tiers. */
  predicate Green(c: Cell) {
    c.outcome == "pass" && c.tier in {"full-stdout-info-stack-heap", "stdout-info-stack-heap-spot-check"}
  }

  predicate SameAsPtrace(c: Cell) {
    Green(c) && c.parity == Some(true)
  }

  predicate ParityKnown(c: Cell) {
    Green(c) && c.parity.Some?
  }

  predicate Reproduced(c: Cell) {
    Green(c) && c.evidenced && c.deterministic == Some(true)
  }

  predicate ReproductionKnown(c: Cell) {
    Green(c) && c.evidenced
  }

  predicate Attempted(c: Cell) {
    c.outcome !in {"unavailable", "skip"}
  }

  /** The denominator: the tests with a green ptrace cell. */
  ghost function PtraceGreen(cells: seq<Cell>, mode: string, bucket: string): set<string> {
    set c <- cells | c.testMode == mode && c.bucket == bucket && c.backend == "ptrace" && Green(c) :: c.testId
  }

  /** The denominator tests whose last cell on the backend has a property. */
  ghost function Counted(cells: seq<Cell>, mode: string, bucket: string, backend: string,
                         p: Cell -> bool): set<string>
  {
    set t | t in PtraceGreen(cells, mode, bucket)
            && exists i: nat :: LastAt(cells, mode, bucket, backend, t, i) && p(cells[i])
  }

  lemma {:induction false} GreenExact(c: Cell)
    ensures Passes(c) <==> Green(c)
  {
  }

  lemma {:induction false} DenominatorExact(cells: seq<Cell>, mode: string, bucket: string)
    ensures Denominator(cells, mode, bucket) == PtraceGreen(cells, mode, bucket)
  {
    forall c: Cell ensures Passes(c) <==> Green(c) {
      GreenExact(c);
    }
  }

  lemma {:induction false} LastOfExact(cells: seq<Cell>, mode: string, bucket: string, backend: string, test: string,
                                       i: nat)
    requires LastAt(cells, mode, bucket, backend, test, i)
    ensures LastOf(cells, Key(bucket, test, mode, backend)) == Some(cells[i])
  {
    var n := |cells| - 1;
    if i < n {
      assert LastAt(cells[..n], mode, bucket, backend, test, i);
      LastOfExact(cells[..n], mode, bucket, backend, test, i);
      assert !Sits(cells[n], mode, bucket, backend, test);
    }
  }

  lemma {:induction false} LastExists(cells: seq<Cell>, mode: string, bucket: string, backend: string, test: string)
    returns (i: nat)
    requires LastOf(cells, Key(bucket, test, mode, backend)).Some?
    ensures LastAt(cells, mode, bucket, backend, test, i)
  {
    var n := |cells| - 1;
    if Sits(cells[n], mode, bucket, backend, test) {
      i := n;
    } else {
      i := LastExists(cells[..n], mode, bucket, backend, test);
      assert forall j :: i < j < n ==> !Sits(cells[..n][j], mode, bucket, backend, test);
    }
  }

  /** A flag of the index counts exactly the tests whose last cell has the property behind it. */
  lemma {:induction false} HitsExact(cells: seq<Cell>, mode: string, bucket: string, backend: string,
                                     flag: BCell -> bool, p: Cell -> bool)
    requires Compared(backend) && forall c: Cell :: flag(BCellOf(c)) <==> p(c)
    ensures Hits(Index(cells, mode), Denominator(cells, mode, bucket), backend, bucket, flag)
            == Counted(cells, mode, bucket, backend, p)
  {
    DenominatorExact(cells, mode, bucket);
    var index := Index(cells, mode);
    forall t: string
      ensures Slot(backend, bucket, t) in index && flag(index[Slot(backend, bucket, t)]) <==>
              exists i: nat :: LastAt(cells, mode, bucket, backend, t, i) && p(cells[i])
    {
      HitExact(cells, mode, bucket, backend, flag, p, t);
    }
  }

  lemma {:induction false} HitExact(cells: seq<Cell>, mode: string, bucket: string, backend: string,
                                    flag: BCell -> bool, p: Cell -> bool, t: string)
    requires Compared(backend) && forall c: Cell :: flag(BCellOf(c)) <==> p(c)
    ensures var index, s := Index(cells, mode), Slot(backend, bucket, t);
            s in index && flag(index[s]) <==>
            exists i: nat :: LastAt(cells, mode, bucket, backend, t, i) && p(cells[i])
  {
    var k := Key(bucket, t, mode, backend);
    IndexIsLast(cells, mode, Slot(backend, bucket, t));
    if LastOf(cells, k).Some? {
      var i := LastExists(cells, mode, bucket, backend, t);
      LastOfExact(cells, mode, bucket, backend, t, i);
    }
    if i: nat :| LastAt(cells, mode, bucket, backend, t, i) && p(cells[i]) {
      LastOfExact(cells, mode, bucket, backend, t, i);
    }
  }

  lemma {:induction false} FlagsExact()
    ensures forall c: Cell :: PAR(BCellOf(c)) <==> SameAsPtrace(c)
    ensures forall c: Cell :: PAR_MEASURED(BCellOf(c)) <==> ParityKnown(c)
    ensures forall c: Cell :: DET(BCellOf(c)) <==> Reproduced(c)
    ensures forall c: Cell :: DET_MEASURED(BCellOf(c)) <==> ReproductionKnown(c)
    ensures forall c: Cell :: RAN(BCellOf(c)) <==> Attempted(c)
  {
    forall c: Cell ensures Passes(c) <==> Green(c) {
      GreenExact(c);
    }
  }

  /**
   The numbers of one bucket row: the denominator is the tests ptrace passed, and each column counts those of them whose
   last cell on that backend says so.  Ptrace and native themselves are never counted as backends.
   */
  lemma {:induction false} RowMeans(r: Row, cells: seq<Cell>, mode: string, bucket: string, cols: seq<string>,
                                    b: string)
    requires IsRow(r, cells, mode, bucket, cols) && b in cols
    ensures r.ptrace == |PtraceGreen(cells, mode, bucket)|
    ensures b !in {"ptrace", "native"} ==>
              && r.back[b].par == |Counted(cells, mode, bucket, b, SameAsPtrace)|
              && r.back[b].parMeasured == |Counted(cells, mode, bucket, b, ParityKnown)|
              && r.back[b].det == |Counted(cells, mode, bucket, b, Reproduced)|
              && r.back[b].detMeasured == |Counted(cells, mode, bucket, b, ReproductionKnown)|
              && r.back[b].ran == |Counted(cells, mode, bucket, b, Attempted)|
    ensures b in {"ptrace", "native"} ==> r.back[b] == Counts(0, 0, 0, 0, 0)
  {
    DenominatorExact(cells, mode, bucket);
    if Compared(b) {
      FlagsExact();
      HitsExact(cells, mode, bucket, b, PAR, SameAsPtrace);
      HitsExact(cells, mode, bucket, b, PAR_MEASURED, ParityKnown);
      HitsExact(cells, mode, bucket, b, DET, Reproduced);
      HitsExact(cells, mode, bucket, b, DET_MEASURED, ReproductionKnown);
      HitsExact(cells, mode, bucket, b, RAN, Attempted);
    } else {
      Uncompared(cells, mode, bucket, b);
    }
  }

  lemma {:induction false} Uncompared(cells: seq<Cell>, mode: string, bucket: string, b: string)
    requires !Compared(b)
    ensures CountsOf(Index(cells, mode), Denominator(cells, mode, bucket), b, bucket) == Counts(0, 0, 0, 0, 0)
  {
    var index, denom := Index(cells, mode), Denominator(cells, mode, bucket);
    forall t: string ensures Slot(b, bucket, t) !in index {
      IndexIsLast(cells, mode, Slot(b, bucket, t));
    }
    assert Hits(index, denom, b, bucket, PAR) == {} && Hits(index, denom, b, bucket, DET) == {};
    assert Hits(index, denom, b, bucket, PAR_MEASURED) == {} && Hits(index, denom, b, bucket, RAN) == {};
    assert Hits(index, denom, b, bucket, DET_MEASURED) == {};
  }
}
