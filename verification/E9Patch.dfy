/**
The e9patch compatibility collector: retried guest runs, the level each arm reaches, and the
per-guest classification that decides what counts as a regression.
*/
module E9Patch {
  import opened Text

  datatype Reach = Reach(candidates: nat, mapped: nat)

  /** One invocation; a killed run is `wedged`. `verified` is the determinism line on a verify run. */
  datatype Run = Run(exit: int, wedged: bool, stdout: string, verified: bool, reach: Option<Reach>, duration: nat)

  datatype Arm = Arm(l1: bool, l2: bool, verifyWedged: bool, strictWedged: bool, exit: int, stdout: string,
                     duration: nat, reach: Option<Reach>)

  /** Every run an arm might make, by attempt number. */
  datatype Runs = Runs(strict: nat -> Run, verify: nat -> Run)

  function Attempts(retries: nat): (n: nat)
    ensures n >= 1 && (retries >= 1 ==> n == retries)
  {
    if retries < 1 then 1 else retries
  }

  // ------------------------------------------------------------- one arm

  /** The first run from `k` on that is not wedged, or the last one allowed. */
  function Settled(strict: nat -> Run, n: nat, k: nat): (last: nat)
    requires k < n
    ensures k <= last < n
    ensures forall j :: k <= j < last ==> strict(j).wedged
    ensures !strict(last).wedged || last == n - 1
    decreases n - k
  {
    if !strict(k).wedged || k + 1 == n then k else Settled(strict, n, k + 1)
  }

  predicate Confirms(r: Run) {
    r.verified && r.exit == 0
  }

  /** The first confirming verify run among the allowed ones. */
  function Confirmed(verify: nat -> Run, n: nat, k: nat): (r: Option<nat>)
    requires k <= n
    ensures r.Some? ==> k <= r.value < n && Confirms(verify(r.value)) && forall j :: k <= j < r.value
                                                                           ==> !Confirms(verify(j))
    ensures r.None? ==> forall j :: k <= j < n ==> !Confirms(verify(j))
    decreases n - k
  {
    if k == n then None else if Confirms(verify(k)) then Some(k) else Confirmed(verify, n, k + 1)
  }

  function Durations(runs: nat -> Run, n: nat): (d: nat) {
    if n == 0 then 0 else Durations(runs, n - 1) + runs(n - 1).duration
  }

  function ArmOf(runs: Runs, retries: nat): (a: Arm) {
    var n := Attempts(retries);
    var last := Settled(runs.strict, n, 0);
    var s := runs.strict(last);
    var l1 := !s.wedged && s.exit == 0;
    var confirmed := Confirmed(runs.verify, n, 0);
    var verifies := if !l1 then 0 else if confirmed.Some? then confirmed.value + 1 else n;
    Arm(l1, l1 && confirmed.Some?, l1 && confirmed.None? && runs.verify(n - 1).wedged, s.wedged, s.exit, s.stdout,
        Durations(runs.strict, last + 1) + Durations(runs.verify, verifies), s.reach)
  }

  method StrictLeg(strict: nat -> Run, retries: nat) returns (s: Run, wedged: bool, total: nat)
    ensures var last := Settled(strict, Attempts(retries), 0);
            s == strict(last) && wedged == s.wedged && total == Durations(strict, last + 1)
  {
    var n := Attempts(retries);
    s := strict(0);
    total := s.duration;
    wedged := s.wedged;
    assert Durations(strict, 1) == Durations(strict, 0) + strict(0).duration;
    if s.wedged {
      var k := 1;
      while k < n
        invariant 1 <= k <= n && s == strict(k - 1) && s.wedged && wedged
        invariant total == Durations(strict, k)
        invariant forall j :: 0 <= j < k ==> strict(j).wedged
      {
        var r := strict(k);
        total := total + r.duration;
        s := r;
        k := k + 1;
        if !r.wedged {
          wedged := false;
          SettledIs(strict, n, k - 1);
          return;
        }
      }
      SettledIs(strict, n, n - 1);
    } else {
      SettledIs(strict, n, 0);
    }
  }

  lemma {:induction false} SettledFrom(strict: nat -> Run, n: nat, k: nat, last: nat)
    requires k <= last < n && (forall j :: k <= j < last ==> strict(j).wedged)
             && (!strict(last).wedged || last == n - 1)
    ensures Settled(strict, n, k) == last
    decreases last - k
  {
    if k < last {
      SettledFrom(strict, n, k + 1, last);
    }
  }

  lemma {:induction false} SettledIs(strict: nat -> Run, n: nat, last: nat)
    requires last < n && (forall j :: 0 <= j < last ==> strict(j).wedged) && (!strict(last).wedged || last == n - 1)
    ensures Settled(strict, n, 0) == last
  {
    SettledFrom(strict, n, 0, last);
  }

  method VerifyLeg(verify: nat -> Run, retries: nat) returns (l2: bool, wedged: bool, total: nat)
    ensures var n, confirmed := Attempts(retries), Confirmed(verify, Attempts(retries), 0);
            && (l2 <==> confirmed.Some?)
            && (wedged <==> confirmed.None? && verify(n - 1).wedged)
            && total == Durations(verify, if confirmed.Some? then confirmed.value + 1 else n)
  {
    var n := Attempts(retries);
    l2, wedged, total := false, false, 0;
    var k := 0;
    while k < n
      invariant 0 <= k <= n && !l2 && total == Durations(verify, k)
      invariant wedged <==> k > 0 && verify(k - 1).wedged
      invariant forall j :: 0 <= j < k ==> !Confirms(verify(j))
    {
      var v := verify(k);
      total := total + v.duration;
      if v.verified && v.exit == 0 {
        l2, wedged := true, false;
        return;
      }
      wedged := v.wedged;
      k := k + 1;
    }
  }

  method MeasureArm(runs: Runs, retries: nat) returns (a: Arm)
    ensures a == ArmOf(runs, retries)
  {
    var s, strictWedged, total := StrictLeg(runs.strict, retries);
    var l1 := !s.wedged && s.exit == 0;
    var l2, verifyWedged := false, false;
    if l1 {
      var more: nat;
      l2, verifyWedged, more := VerifyLeg(runs.verify, retries);
      total := total + more;
    }
    a := Arm(l1, l2, verifyWedged, strictWedged, s.exit, s.stdout, total, s.reach);
  }

  /**
   What the retries establish, over every stream of results: a strict leg counts as wedged exactly
   when every allowed attempt wedged, L1 exactly when the first unwedged one exited 0, and L2 exactly
   when L1 held and some allowed verify attempt confirmed.
   */
  lemma {:induction false} ArmExact(runs: Runs, retries: nat)
    ensures var a, n := ArmOf(runs, retries), Attempts(retries);
            && (a.strictWedged <==> forall j :: 0 <= j < n ==> runs.strict(j).wedged)
            && (a.l1 <==> exists j :: FirstUnwedged(runs.strict, n, j) && runs.strict(j).exit == 0)
            && (a.l2 <==> a.l1 && exists j :: 0 <= j < n && Confirms(runs.verify(j)))
            && (a.verifyWedged <==> a.l1 && !a.l2 && runs.verify(n - 1).wedged)
            && (a.l2 ==> a.l1) && !(a.l1 && a.strictWedged) && (a.l1 ==> a.exit == 0)
  {
    var n := Attempts(retries);
    var last := Settled(runs.strict, n, 0);
    if !runs.strict(last).wedged {
      assert FirstUnwedged(runs.strict, n, last);
    }
    forall j | FirstUnwedged(runs.strict, n, j) ensures j == last {
      assert j < last ==> runs.strict(j).wedged;
      assert last < j ==> runs.strict(last).wedged;
    }
  }

  ghost predicate FirstUnwedged(strict: nat -> Run, n: nat, j: int) {
    0 <= j < n && !strict(j).wedged && forall i :: 0 <= i < j ==> strict(i).wedged
  }

  // -------------------------------------------------------------------- cells

  datatype Outcome = PassCell | L1Cell | Diverge | FailCell | Skip | NotExercised | UnknownCell

  function ArmCell(a: Arm, parity: Option<bool>): (r: (Outcome, Option<bool>)) {
    if !a.l1 then (if a.strictWedged then (Skip, None) else (FailCell, Some(false)))
    else
      var diverges := parity == Some(false);
      if a.l2 then (if diverges then Diverge else PassCell, Some(true))
      else (if diverges then Diverge else L1Cell, Some(false))
  }

  /** An arm that rewrote nothing measured nothing. */
  function ReachGate(reach: Option<Reach>, o: Outcome): (r: Outcome) {
    if reach.None? then UnknownCell else if reach.value.mapped > 0 then o else NotExercised
  }

  predicate Parity(golden: Arm, e9: Arm) {
    golden.l1 && e9.l1 && golden.exit == e9.exit && golden.stdout == e9.stdout
  }

  function E9Cell(golden: Arm, e9: Arm): (o: Outcome) {
    ReachGate(e9.reach, ArmCell(e9, Some(Parity(golden, e9))).0)
  }

  predicate Rewrote(reach: Option<Reach>) {
    reach.Some? && reach.value.mapped > 0
  }

  /** An e9patch pass is exactly a confirmed, matching arm that rewrote something. */
  lemma {:induction false} PassIff(golden: Arm, e9: Arm)
    ensures E9Cell(golden, e9) == PassCell <==> e9.l2 && Parity(golden, e9) && Rewrote(e9.reach)
  {
  }

  // ----------------------------------------------------------- classification

  datatype Bucket = CompileFail | L2Parity | L1ParityWedged | L1Parity | ParityDiverge | StrictWedged | RunFail

  function Classify(golden: Arm, e9: Arm): (b: Bucket) {
    var parity := Parity(golden, e9);
    if e9.l2 && parity then L2Parity
    else if e9.l1 && parity && e9.verifyWedged then L1ParityWedged
    else if e9.l1 && parity then L1Parity
    else if golden.l1 && e9.l1 && !parity then ParityDiverge
    else if golden.strictWedged || e9.strictWedged then StrictWedged
    else RunFail
  }

  datatype Guest = Guest(name: string, compiled: bool, golden: Runs, e9: Runs)

  function BucketOf(g: Guest, retries: nat): (b: Bucket) {
    if !g.compiled then CompileFail else Classify(ArmOf(g.golden, retries), ArmOf(g.e9, retries))
  }

  /** Whether an arm's deciding strict run ended by itself with a nonzero status. */
  ghost predicate RanAndFailed(runs: Runs, retries: nat) {
    exists j :: FirstUnwedged(runs.strict, Attempts(retries), j) && runs.strict(j).exit != 0
  }

  ghost predicate AllWedged(runs: Runs, retries: nat) {
    forall j :: 0 <= j < Attempts(retries) ==> runs.strict(j).wedged
  }

  lemma {:induction false} ArmTrichotomy(runs: Runs, retries: nat)
    ensures var a := ArmOf(runs, retries);
            && (a.strictWedged <==> AllWedged(runs, retries))
            && (RanAndFailed(runs, retries) <==> !a.l1 && !a.strictWedged)
  {
    var n := Attempts(retries);
    var last := Settled(runs.strict, n, 0);
    ArmExact(runs, retries);
    if !runs.strict(last).wedged {
      assert FirstUnwedged(runs.strict, n, last);
    }
    forall j | FirstUnwedged(runs.strict, n, j) ensures j == last {
      assert j < last ==> runs.strict(j).wedged;
      assert last < j ==> runs.strict(last).wedged;
    }
  }

  /** A divergence needs two L1 arms with different output; a run failure an unwedged nonzero exit and no wedged arm. */
  lemma {:induction false} RegressionsExact(g: Guest, retries: nat)
    requires g.compiled
    ensures var golden, e9 := ArmOf(g.golden, retries), ArmOf(g.e9, retries);
            && (BucketOf(g, retries) == ParityDiverge <==> golden.l1 && e9.l1 && golden.stdout != e9.stdout)
            && (BucketOf(g, retries) == RunFail <==>
                  && !AllWedged(g.golden, retries) && !AllWedged(g.e9, retries)
                  && (RanAndFailed(g.golden, retries) || RanAndFailed(g.e9, retries)))
            && (BucketOf(g, retries) == StrictWedged <==> AllWedged(g.golden, retries) || AllWedged(g.e9, retries))
  {
    ArmExact(g.golden, retries);
    ArmExact(g.e9, retries);
    ArmTrichotomy(g.golden, retries);
    ArmTrichotomy(g.e9, retries);
  }

  // ---------------------------------------------------------------- collecting

  datatype Row = Row(guest: string, e9: bool, outcome: Outcome, deterministic: Option<bool>, parity: Option<bool>,
                     duration: nat)

  function RowsOf(g: Guest, retries: nat): (r: seq<Row>) {
    if !g.compiled then [Row(g.name, false, FailCell, None, None, 0), Row(g.name, true, FailCell, None, None, 0)]
    else
      var golden, e9 := ArmOf(g.golden, retries), ArmOf(g.e9, retries);
      var parity := Parity(golden, e9);
      [Row(g.name, false, ArmCell(golden, None).0, ArmCell(golden, None).1, None, golden.duration),
       Row(g.name, true, E9Cell(golden, e9), ArmCell(e9, Some(parity)).1, if Rewrote(e9.reach) then Some(parity)
           else None, e9.duration)]
  }

  function AllRows(guests: seq<Guest>, retries: nat): (r: seq<Row>) {
    if guests == [] then [] else AllRows(guests[..|guests| - 1], retries) + RowsOf(guests[|guests| - 1], retries)
  }

  function Buckets(guests: seq<Guest>, retries: nat): (r: seq<Bucket>)
    ensures |r| == |guests| && forall i :: 0 <= i < |r| ==> r[i] == BucketOf(guests[i], retries)
  {
    seq(|guests|, i requires 0 <= i < |guests| => BucketOf(guests[i], retries))
  }

  function CountIn(t: map<Bucket, nat>, b: Bucket): (n: nat) {
    if b in t then t[b] else 0
  }

  ghost predicate Tallies(t: map<Bucket, nat>, buckets: seq<Bucket>) {
    forall b: Bucket :: CountIn(t, b) == multiset(buckets)[b]
  }

  datatype Regression = Regression(guest: string, bucket: Bucket)

  predicate IsRegression(b: Bucket) {
    b == ParityDiverge || b == RunFail
  }

  function Regressions(guests: seq<Guest>, retries: nat): (r: seq<Regression>) {
    if guests == [] then []
    else
      var n := |guests| - 1;
      var b := BucketOf(guests[n], retries);
      Regressions(guests[..n], retries) + (if IsRegression(b) then [Regression(guests[n].name, b)] else [])
  }

  method CollectGuest(g: Guest, retries: nat) returns (rows: seq<Row>, bucket: Bucket)
    ensures rows == RowsOf(g, retries) && bucket == BucketOf(g, retries)
  {
    if !g.compiled {
      return [Row(g.name, false, FailCell, None, None, 0), Row(g.name, true, FailCell, None, None, 0)], CompileFail;
    }
    var golden := MeasureArm(g.golden, retries);
    var e9 := MeasureArm(g.e9, retries);
    var parity := Parity(golden, e9);
    var goldenCell := ArmCell(golden, None);
    var raw := ArmCell(e9, Some(parity));
    var gated := ReachGate(e9.reach, raw.0);
    rows := [Row(g.name, false, goldenCell.0, goldenCell.1, None, golden.duration),
             Row(g.name, true, gated, raw.1, if Rewrote(e9.reach) then Some(parity) else None, e9.duration)];
    bucket := Classify(golden, e9);
  }

  lemma {:induction false} TalliesGrow(t: map<Bucket, nat>, buckets: seq<Bucket>, b: Bucket)
    requires Tallies(t, buckets)
    ensures Tallies(t[b := CountIn(t, b) + 1], buckets + [b])
  {
  }

  /** The whole collection: two rows a guest, each guest in exactly one tally class, exit 1 only for regressions. */
  method Collect(guests: seq<Guest>, retries: nat, assertGreen: bool)
    returns (rows: seq<Row>, tally: map<Bucket, nat>, regressions: seq<Regression>, code: int)
    ensures rows == AllRows(guests, retries)
    ensures Tallies(tally, Buckets(guests, retries))
    ensures regressions == Regressions(guests, retries)
    ensures code == if assertGreen && regressions != [] then 1 else 0
  {
    rows, tally, regressions := [], map[], [];
    ghost var all := Buckets(guests, retries);
    for i := 0 to |guests|
      invariant rows == AllRows(guests[..i], retries)
      invariant Tallies(tally, all[..i])
      invariant regressions == Regressions(guests[..i], retries)
    {
      assert guests[..i + 1][..i] == guests[..i];
      var more, bucket := CollectGuest(guests[i], retries);
      rows := rows + more;
      assert all[..i + 1] == all[..i] + [bucket];
      TalliesGrow(tally, all[..i], bucket);
      tally := tally[bucket := CountIn(tally, bucket) + 1];
      if IsRegression(bucket) {
        regressions := regressions + [Regression(guests[i].name, bucket)];
      }
    }
    assert guests[..|guests|] == guests && all[..|guests|] == all;
    code := if assertGreen && regressions != [] then 1 else 0;
  }

  function Total(t: map<Bucket, nat>): (n: nat) {
    CountIn(t, CompileFail) + CountIn(t, L2Parity) + CountIn(t, L1ParityWedged) + CountIn(t, L1Parity)
    + CountIn(t, ParityDiverge) + CountIn(t, StrictWedged) + CountIn(t, RunFail)
  }

  function CountAll(m: multiset<Bucket>): (n: nat) {
    m[CompileFail] + m[L2Parity] + m[L1ParityWedged] + m[L1Parity] + m[ParityDiverge] + m[StrictWedged] + m[RunFail]
  }

  lemma {:induction false} CountOneMore(m: multiset<Bucket>, b: Bucket)
    ensures CountAll(m + multiset{b}) == CountAll(m) + 1
  {
    match b
    case CompileFail =>
    case L2Parity =>
    case L1ParityWedged =>
    case L1Parity =>
    case ParityDiverge =>
    case StrictWedged =>
    case RunFail =>
  }

  lemma {:induction false} CountAllIsLength(buckets: seq<Bucket>)
    ensures CountAll(multiset(buckets)) == |buckets|
  {
    if buckets != [] {
      var n := |buckets| - 1;
      CountAllIsLength(buckets[..n]);
      assert buckets == buckets[..n] + [buckets[n]];
      CountOneMore(multiset(buckets[..n]), buckets[n]);
      assert multiset(buckets) == multiset(buckets[..n]) + multiset{buckets[n]};
    }
  }

  /** The tally classes add up to the guests. */
  lemma {:induction false} TallyConserved(t: map<Bucket, nat>, guests: seq<Guest>, retries: nat)
    requires Tallies(t, Buckets(guests, retries))
    ensures Total(t) == |guests|
  {
    CountAllIsLength(Buckets(guests, retries));
  }

  // -------------------------------------------- rows and classes from the runs alone

  /** The strict attempts an arm is allowed: as many as asked for, and at least one. */
  ghost predicate Allowed(retries: nat, j: int) {
    0 <= j && (j == 0 || j < retries)
  }

  lemma {:induction false} AllowedExact(retries: nat, j: int)
    ensures Allowed(retries, j) <==> 0 <= j < Attempts(retries)
  {
  }

  /** `j` is the strict run that decides the arm: the first allowed one that was not killed. */
  ghost predicate Decides(runs: Runs, retries: nat, j: nat) {
    Allowed(retries, j) && !runs.strict(j).wedged && forall i: nat :: i < j ==> runs.strict(i).wedged
  }

  ghost predicate Killed(runs: Runs, retries: nat) {
    forall j: nat :: Allowed(retries, j) ==> runs.strict(j).wedged
  }

  ghost predicate Broke(runs: Runs, retries: nat) {
    exists j: nat :: Decides(runs, retries, j) && runs.strict(j).exit != 0
  }

  ghost predicate Ran(runs: Runs, retries: nat) {
    exists j: nat :: Decides(runs, retries, j) && runs.strict(j).exit == 0
  }

  /** The guest ran, and some allowed verify run printed the determinism line and exited 0. */
  ghost predicate Repeated(runs: Runs, retries: nat) {
    Ran(runs, retries) && exists j: nat :: Allowed(retries, j) && runs.verify(j).verified && runs.verify(j).exit == 0
  }

  ghost predicate SameAt(golden: Runs, e9: Runs, retries: nat, i: nat, j: nat) {
    && Decides(golden, retries, i) && golden.strict(i).exit == 0 && Decides(e9, retries, j) && e9.strict(j).exit == 0
    && golden.strict(i).stdout == e9.strict(j).stdout
  }

  /** Both arms ran and wrote the same. */
  ghost predicate Same(golden: Runs, e9: Runs, retries: nat) {
    exists i: nat, j: nat :: SameAt(golden, e9, retries, i, j)
  }

  /** The last allowed verify run was killed. */
  ghost predicate VerifyKilled(runs: Runs, retries: nat) {
    runs.verify(if retries == 0 then 0 else retries - 1).wedged
  }

  lemma {:induction false} DecidesExact(runs: Runs, retries: nat, j: nat)
    ensures Decides(runs, retries, j) <==> FirstUnwedged(runs.strict, Attempts(retries), j)
  {
    AllowedExact(retries, j);
  }

  lemma {:induction false} DecidedBy(runs: Runs, retries: nat, a: Arm, j: nat)
    requires a == ArmOf(runs, retries) && Decides(runs, retries, j)
    ensures a.exit == runs.strict(j).exit && a.stdout == runs.strict(j).stdout && a.reach == runs.strict(j).reach
    ensures !a.strictWedged && (a.l1 <==> runs.strict(j).exit == 0)
  {
    DecidesExact(runs, retries, j);
    SettledIs(runs.strict, Attempts(retries), j);
  }

  lemma {:induction false} SomeDecides(runs: Runs, retries: nat) returns (j: nat)
    requires !Killed(runs, retries)
    ensures Decides(runs, retries, j)
  {
    var n := Attempts(retries);
    var k: nat :| Allowed(retries, k) && !runs.strict(k).wedged;
    AllowedExact(retries, k);
    j := Settled(runs.strict, n, 0);
    DecidesExact(runs, retries, j);
  }

  /** An arm read off its runs. */
  lemma {:induction false} ArmMeans(runs: Runs, retries: nat, a: Arm)
    requires a == ArmOf(runs, retries)
    ensures a.strictWedged <==> Killed(runs, retries)
    ensures a.l1 <==> Ran(runs, retries)
    ensures a.l2 <==> Repeated(runs, retries)
    ensures !a.l1 && !a.strictWedged <==> Broke(runs, retries)
    ensures a.verifyWedged <==> Ran(runs, retries) && !Repeated(runs, retries) && VerifyKilled(runs, retries)
  {
    var n := Attempts(retries);
    forall j: nat ensures Allowed(retries, j) <==> j < n {
      AllowedExact(retries, j);
    }
    forall j: nat ensures Decides(runs, retries, j) <==> FirstUnwedged(runs.strict, n, j) {
      DecidesExact(runs, retries, j);
    }
    ArmExact(runs, retries);
    if !Killed(runs, retries) {
      var j := SomeDecides(runs, retries);
      DecidedBy(runs, retries, a, j);
    }
  }

  lemma {:induction false} SameShows(golden: Runs, e9: Runs, retries: nat, g: Arm, e: Arm, i: nat, j: nat)
    requires g == ArmOf(golden, retries) && e == ArmOf(e9, retries)
    requires Decides(golden, retries, i) && Decides(e9, retries, j)
    ensures Parity(g, e) <==> SameAt(golden, e9, retries, i, j)
  {
    DecidedBy(golden, retries, g, i);
    DecidedBy(e9, retries, e, j);
  }

  lemma {:induction false} SameExact(golden: Runs, e9: Runs, retries: nat, g: Arm, e: Arm)
    requires g == ArmOf(golden, retries) && e == ArmOf(e9, retries)
    ensures Parity(g, e) <==> Same(golden, e9, retries)
  {
    ArmMeans(golden, retries, g);
    ArmMeans(e9, retries, e);
    if g.l1 && e.l1 {
      var i: nat :| Decides(golden, retries, i) && golden.strict(i).exit == 0;
      var j: nat :| Decides(e9, retries, j) && e9.strict(j).exit == 0;
      SameShows(golden, e9, retries, g, e, i, j);
    }
    if i: nat, j: nat :| SameAt(golden, e9, retries, i, j) {
      SameShows(golden, e9, retries, g, e, i, j);
    }
  }

  /** The seven classes of a guest, read off its runs. */
  lemma {:induction false} ClassMeans(g: Guest, retries: nat, b: Bucket)
    requires b == BucketOf(g, retries)
    ensures b == CompileFail <==> !g.compiled
    ensures g.compiled ==>
              var same := Same(g.golden, g.e9, retries);
              && (b == L2Parity <==> same && Repeated(g.e9, retries))
              && (b == L1ParityWedged <==> same && !Repeated(g.e9, retries) && VerifyKilled(g.e9, retries))
              && (b == L1Parity <==> same && !Repeated(g.e9, retries) && !VerifyKilled(g.e9, retries))
              && (b == ParityDiverge <==> Ran(g.golden, retries) && Ran(g.e9, retries) && !same)
              && (b == StrictWedged <==> Killed(g.golden, retries) || Killed(g.e9, retries))
              && (b == RunFail <==>
                  && !Killed(g.golden, retries) && !Killed(g.e9, retries)
                  && (Broke(g.golden, retries) || Broke(g.e9, retries)))
  {
    if g.compiled {
      var golden, e9 := ArmOf(g.golden, retries), ArmOf(g.e9, retries);
      ArmMeans(g.golden, retries, golden);
      ArmMeans(g.e9, retries, e9);
      SameExact(g.golden, g.e9, retries, golden, e9);
    }
  }

  /** What a row says of an arm that is held to nothing else. */
  ghost predicate PlainCell(o: Outcome, deterministic: Option<bool>, runs: Runs, retries: nat) {
    && (o == PassCell <==> Repeated(runs, retries))
    && (o == L1Cell <==> Ran(runs, retries) && !Repeated(runs, retries))
    && (o == FailCell <==> Broke(runs, retries)) && (o == Skip <==> Killed(runs, retries))
    && Deterministic(deterministic, runs, retries)
  }

  ghost predicate Deterministic(d: Option<bool>, runs: Runs, retries: nat) {
    (d == Some(true) <==> Repeated(runs, retries)) && (d == None <==> Killed(runs, retries))
  }

  /** What the rewriting arm's row says: nothing unless it is known to have rewritten something. */
  ghost predicate RewrittenCell(o: Outcome, golden: Runs, e9: Runs, retries: nat, reach: Option<Reach>) {
    && (reach.None? ==> o == UnknownCell)
    && (reach.Some? && reach.value.mapped == 0 ==> o == NotExercised)
    && (reach.Some? && reach.value.mapped > 0 ==>
          && (o == PassCell <==> Repeated(e9, retries) && Same(golden, e9, retries))
          && (o == L1Cell <==> Ran(e9, retries) && !Repeated(e9, retries) && Same(golden, e9, retries))
          && (o == Diverge <==> Ran(e9, retries) && !Same(golden, e9, retries))
          && (o == FailCell <==> Broke(e9, retries)) && (o == Skip <==> Killed(e9, retries)))
  }

  lemma {:induction false} ArmsApart(runs: Runs, retries: nat)
    ensures Ran(runs, retries) ==> !Broke(runs, retries) && !Killed(runs, retries)
    ensures Broke(runs, retries) ==> !Killed(runs, retries)
    ensures Ran(runs, retries) || Broke(runs, retries) || Killed(runs, retries)
  {
    ArmMeans(runs, retries, ArmOf(runs, retries));
    if j: nat :| Decides(runs, retries, j) {
      DecidedBy(runs, retries, ArmOf(runs, retries), j);
    }
  }

  /** The two rows of a compiled guest, read off its runs. */
  lemma {:induction false} RowsMean(g: Guest, retries: nat, rows: seq<Row>, e9: Arm)
    requires g.compiled && rows == RowsOf(g, retries) && e9 == ArmOf(g.e9, retries)
    ensures |rows| == 2 && rows[0].guest == g.name && rows[1].guest == g.name && !rows[0].e9 && rows[1].e9
    ensures PlainCell(rows[0].outcome, rows[0].deterministic, g.golden, retries) && rows[0].parity == None
    ensures RewrittenCell(rows[1].outcome, g.golden, g.e9, retries, e9.reach)
    ensures Deterministic(rows[1].deterministic, g.e9, retries)
    ensures rows[1].parity == (if e9.reach.Some? && e9.reach.value.mapped > 0 then Some(Same(g.golden, g.e9, retries))
                               else None)
    ensures rows[0].duration == ArmOf(g.golden, retries).duration && rows[1].duration == e9.duration
  {
    var golden := ArmOf(g.golden, retries);
    ArmMeans(g.golden, retries, golden);
    ArmMeans(g.e9, retries, e9);
    ArmsApart(g.golden, retries);
    ArmsApart(g.e9, retries);
    SameExact(g.golden, g.e9, retries, golden, e9);
  }

  /** The regressions are the guests that diverged or failed to run, and only they. */
  lemma {:induction false} RegressionsMean(guests: seq<Guest>, retries: nat, r: Regression)
    ensures r in Regressions(guests, retries) <==>
            exists g <- guests :: r == Regression(g.name, BucketOf(g, retries)) && r.bucket in {ParityDiverge, RunFail}
  {
    if guests != [] {
      var n := |guests| - 1;
      RegressionsMean(guests[..n], retries, r);
      assert guests == guests[..n] + [guests[n]];
    }
  }
}
