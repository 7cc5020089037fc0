/**
The ci-timeout reaper: which open pull requests are starved, and the ordered external effects
of cancelling their runs.
*/
module Reaper {
  import opened Text

  datatype PrRow = PrRow(number: nat, branch: string, head: string)

  datatype RunRow = RunRow(id: nat, head: string, status: string, createdAt: string, event: string)

  datatype Job = Job(status: Option<string>, startedAt: Option<string>)

  /** The GitHub queries and the clock: seconds since a timestamp, absent when it does not parse. */
  datatype Queries = Queries(prs: Result<seq<PrRow>, string>,
                             runs: PrRow -> Result<seq<RunRow>, string>,
                             jobs: nat -> Result<seq<Job>, string>,
                             elapsed: string -> Option<int>)

  // ------------------------------------------------------------- threshold

  const I64_MAX := 0x7fff_ffff_ffff_ffff

  /** The cast of an unsigned 64-bit value to a signed one. */
  function AsSigned(m: nat): (r: int) {
    if m <= I64_MAX then m else m - 0x1_0000_0000_0000_0000
  }

  function Saturate(x: int): (r: int) {
    if x > I64_MAX then I64_MAX else if x < -I64_MAX - 1 then -I64_MAX - 1 else x
  }

  function ThresholdSeconds(minutes: nat): (s: int)
    requires minutes < 0x1_0000_0000_0000_0000
  {
    Saturate(AsSigned(minutes) * 60)
  }

  /**
   The threshold is the requested number of minutes, capped, exactly for requests below 2^63;
   every larger request gives a negative threshold.
   */
  lemma {:induction false} ThresholdExact(minutes: nat)
    requires minutes < 0x1_0000_0000_0000_0000
    ensures ThresholdSeconds(minutes) == (if minutes * 60 > I64_MAX then I64_MAX else minutes * 60)
            <==> minutes <= I64_MAX
    ensures ThresholdSeconds(minutes) < 0 <==> minutes > I64_MAX
  {
  }

  /** The smallest request that wraps becomes the most negative threshold. */
  lemma {:induction false} WrappedThreshold()
    ensures ThresholdSeconds(0x8000_0000_0000_0000) == -I64_MAX - 1
  {
  }

  function WaitSeconds(q: Queries, createdAt: string): (s: int)
    ensures s >= 0 && (s == 0 || q.elapsed(createdAt) == Some(s))
    ensures q.elapsed(createdAt).Some? ==> s >= q.elapsed(createdAt).value
  {
    var e := q.elapsed(createdAt);
    if e.Some? && e.value > 0 then e.value else 0
  }

  // --------------------------------------------------------------- qualifying

  predicate Started(j: Job) {
    (j.status.Some? && j.status.value != "queued") || (j.startedAt.Some? && j.startedAt.value != "")
  }

  predicate Matches(run: RunRow, pr: PrRow) {
    run.head == pr.head && run.event == "pull_request"
  }

  /** A run at the exact head of the pull request, triggered by it. */
  ghost predicate AtHead(run: RunRow, pr: PrRow) {
    run.event == "pull_request" && run.head == pr.head
  }

  /** The newest such run; runs arrive newest first. */
  ghost predicate Newest(runs: seq<RunRow>, pr: PrRow, i: int) {
    0 <= i < |runs| && AtHead(runs[i], pr) && forall j :: 0 <= j < i ==> !AtHead(runs[j], pr)
  }

  datatype Starved = Starved(pr: nat, head: string, runId: nat, createdAt: string, wait: int, jobs: nat, started: nat)

  /** A job that says nothing but that it is queued. */
  ghost predicate Waiting(j: Job) {
    (j.status.Some? ==> j.status.value == "queued") && (j.startedAt.Some? ==> j.startedAt.value == "")
  }

  /** No job has begun: with no jobs listed yet, the run itself must still be queued. */
  ghost predicate NotStarted(run: RunRow, jobs: seq<Job>) {
    if jobs == [] then run.status == "queued" else forall i :: 0 <= i < |jobs| ==> Waiting(jobs[i])
  }

  ghost predicate QualifiesAs(q: Queries, pr: PrRow, threshold: int, entry: Starved) {
    && q.runs(pr).Ok?
    && exists i :: Newest(q.runs(pr).value, pr, i) && QualifyingRun(q, pr, threshold, q.runs(pr).value[i], entry)
  }

  ghost predicate QualifyingRun(q: Queries, pr: PrRow, threshold: int, run: RunRow, entry: Starved) {
    && run.status != "completed"
    && q.jobs(run.id).Ok?
    && NotStarted(run, q.jobs(run.id).value)
    && WaitSeconds(q, run.createdAt) > threshold
    && entry == Starved(pr.number, run.head, run.id, run.createdAt, WaitSeconds(q, run.createdAt),
                        |q.jobs(run.id).value|, 0)
  }

  method FindNewest(runs: seq<RunRow>, pr: PrRow) returns (at: Option<nat>)
    ensures at.Some? ==> Newest(runs, pr, at.value)
    ensures at.None? ==> forall i :: 0 <= i < |runs| ==> !AtHead(runs[i], pr)
  {
    for i := 0 to |runs|
      invariant forall j :: 0 <= j < i ==> !AtHead(runs[j], pr)
    {
      if Matches(runs[i], pr) {
        return Some(i);
      }
    }
    return None;
  }

  method CountStarted(jobs: seq<Job>) returns (n: nat)
    ensures n == 0 <==> forall i :: 0 <= i < |jobs| ==> Waiting(jobs[i])
  {
    n := 0;
    for i := 0 to |jobs|
      invariant n == 0 <==> forall j :: 0 <= j < i ==> Waiting(jobs[j])
    {
      if Started(jobs[i]) {
        n := n + 1;
      }
    }
  }

  /** Whether some query about this pull request hard-fails. */
  ghost predicate Unknown(q: Queries, pr: PrRow) {
    || q.runs(pr).Err?
    || exists i :: Newest(q.runs(pr).value, pr, i) && q.runs(pr).value[i].status != "completed"
        && q.jobs(q.runs(pr).value[i].id).Err?
  }

  lemma {:induction false} NewestUnique(runs: seq<RunRow>, pr: PrRow, i: int, j: int)
    requires Newest(runs, pr, i) && Newest(runs, pr, j)
    ensures i == j
  {
  }

  method QualifyOnePr(q: Queries, pr: PrRow, threshold: int) returns (r: Result<Option<Starved>, string>)
    ensures r.Err? <==> Unknown(q, pr)
    ensures forall entry :: r == Ok(Some(entry)) <==> QualifiesAs(q, pr, threshold, entry)
  {
    var listed := q.runs(pr);
    if listed.Err? {
      return Err(listed.error);
    }
    var at := FindNewest(listed.value, pr);
    if at.None? {
      return Ok(None);
    }
    var run := listed.value[at.value];
    OnlyNewest(q, pr, threshold, at.value);
    if run.status == "completed" {
      return Ok(None);
    }
    var jobs := q.jobs(run.id);
    if jobs.Err? {
      return Err(jobs.error);
    }
    var started := CountStarted(jobs.value);
    var notStarted := if jobs.value == [] then run.status == "queued" else started == 0;
    var wait := WaitSeconds(q, run.createdAt);
    if notStarted && wait > threshold {
      return Ok(Some(Starved(pr.number, run.head, run.id, run.createdAt, wait, |jobs.value|, started)));
    }
    return Ok(None);
  }

  /** The newest matching run alone decides. */
  lemma {:induction false} OnlyNewest(q: Queries, pr: PrRow, threshold: int, at: nat)
    requires q.runs(pr).Ok? && Newest(q.runs(pr).value, pr, at)
    ensures forall entry :: QualifiesAs(q, pr, threshold, entry)
              <==> QualifyingRun(q, pr, threshold, q.runs(pr).value[at], entry)
    ensures Unknown(q, pr) <==> q.runs(pr).value[at].status != "completed" && q.jobs(q.runs(pr).value[at].id).Err?
  {
    var runs := q.runs(pr).value;
    forall i | Newest(runs, pr, i) ensures i == at {
      NewestUnique(runs, pr, i, at);
    }
  }

  datatype Qualification = Qualification(starved: seq<Starved>, untouched: seq<nat>)

  /** A threshold request of 2^63 minutes or more starves every run that has not started, however young. */
  lemma {:induction false} HugeThresholdStarves(q: Queries, pr: PrRow, minutes: nat, i: int)
    requires I64_MAX < minutes < 0x1_0000_0000_0000_0000
    requires q.runs(pr).Ok? && Newest(q.runs(pr).value, pr, i) && q.runs(pr).value[i].status != "completed"
    requires q.jobs(q.runs(pr).value[i].id).Ok? && NotStarted(q.runs(pr).value[i], q.jobs(q.runs(pr).value[i].id).value)
    ensures IsStarved(q, pr, ThresholdSeconds(minutes))
  {
    var run := q.runs(pr).value[i];
    ThresholdExact(minutes);
    var wait := WaitSeconds(q, run.createdAt);
    var entry := Starved(pr.number, run.head, run.id, run.createdAt, wait, |q.jobs(run.id).value|, 0);
    assert QualifyingRun(q, pr, ThresholdSeconds(minutes), run, entry);
    assert QualifiesAs(q, pr, ThresholdSeconds(minutes), entry);
  }

  lemma {:induction false} EntryUnique(q: Queries, pr: PrRow, threshold: int, e1: Starved, e2: Starved)
    requires QualifiesAs(q, pr, threshold, e1) && QualifiesAs(q, pr, threshold, e2)
    ensures e1 == e2 && e1.pr == pr.number
  {
    var runs := q.runs(pr).value;
    var i :| Newest(runs, pr, i) && QualifyingRun(q, pr, threshold, runs[i], e1);
    var j :| Newest(runs, pr, j) && QualifyingRun(q, pr, threshold, runs[j], e2);
    NewestUnique(runs, pr, i, j);
  }

  ghost predicate IsStarved(q: Queries, pr: PrRow, threshold: int) {
    exists entry :: QualifiesAs(q, pr, threshold, entry)
  }

  ghost function EntryOf(q: Queries, pr: PrRow, threshold: int): (entry: Starved)
    requires IsStarved(q, pr, threshold)
    ensures QualifiesAs(q, pr, threshold, entry) && entry.pr == pr.number
  {
    var entry :| QualifiesAs(q, pr, threshold, entry);
    EntryUnique(q, pr, threshold, entry, entry);
    entry
  }

  /** The two lists as the classification promises them: the listed order, split by starvation. */
  ghost function Classified(q: Queries, prs: seq<PrRow>, threshold: int): (r: Qualification) {
    if prs == [] then Qualification([], [])
    else
      var pr, front := prs[|prs| - 1], Classified(q, prs[..|prs| - 1], threshold);
      if IsStarved(q, pr, threshold) then front.(starved := front.starved + [EntryOf(q, pr, threshold)])
      else front.(untouched := front.untouched + [pr.number])
  }

  function NumbersOf(prs: seq<PrRow>): (r: seq<nat>)
    ensures |r| == |prs| && forall i :: 0 <= i < |r| ==> r[i] == prs[i].number
  {
    seq(|prs|, i requires 0 <= i < |prs| => prs[i].number)
  }

  function StarvedNumbers(entries: seq<Starved>): (r: seq<nat>)
    ensures |r| == |entries| && forall i :: 0 <= i < |r| ==> r[i] == entries[i].pr
  {
    seq(|entries|, i requires 0 <= i < |entries| => entries[i].pr)
  }

  /** Every listed pull request is classified exactly once. */
  lemma {:induction false} ClassifiedOnce(q: Queries, prs: seq<PrRow>, threshold: int)
    ensures var r := Classified(q, prs, threshold);
            multiset(StarvedNumbers(r.starved)) + multiset(r.untouched) == multiset(NumbersOf(prs))
  {
    if prs == [] {
      assert StarvedNumbers([]) == [] && NumbersOf(prs) == [];
    } else {
      var n := |prs| - 1;
      var pr, front := prs[n], Classified(q, prs[..n], threshold);
      ClassifiedOnce(q, prs[..n], threshold);
      assert NumbersOf(prs) == NumbersOf(prs[..n]) + [pr.number];
      if IsStarved(q, pr, threshold) {
        assert StarvedNumbers(front.starved + [EntryOf(q, pr, threshold)]) == StarvedNumbers(front.starved)
               + [pr.number];
      }
    }
  }

  /** The starved entries are exactly those that qualify. */
  lemma {:induction false} StarvedQualify(q: Queries, prs: seq<PrRow>, threshold: int, entry: Starved)
    ensures entry in Classified(q, prs, threshold).starved <==> exists pr <- prs :: QualifiesAs(q, pr, threshold, entry)
  {
    if prs != [] {
      var n := |prs| - 1;
      var pr := prs[n];
      StarvedQualify(q, prs[..n], threshold, entry);
      assert prs == prs[..n] + [pr];
      if QualifiesAs(q, pr, threshold, entry) {
        EntryUnique(q, pr, threshold, entry, EntryOf(q, pr, threshold));
      }
    }
  }

  /** A failed query leaves the whole qualification unknown; otherwise the classification is complete. */
  ghost predicate Incomplete(q: Queries) {
    q.prs.Err? || exists pr <- q.prs.value :: Unknown(q, pr)
  }

  method QualifyCiTimeout(q: Queries, threshold: int) returns (r: Result<Qualification, string>)
    ensures r.Err? <==> Incomplete(q)
    ensures r.Ok? ==> r.value == Classified(q, q.prs.value, threshold)
  {
    if q.prs.Err? {
      return Err(q.prs.error);
    }
    var prs := q.prs.value;
    var qual := Qualification([], []);
    for i := 0 to |prs|
      invariant qual == Classified(q, prs[..i], threshold)
      invariant forall j :: 0 <= j < i ==> !Unknown(q, prs[j])
    {
      var one := QualifyOnePr(q, prs[i], threshold);
      if one.Err? {
        assert prs[i] in prs;
        return Err(one.error);
      }
      assert prs[..i + 1][..i] == prs[..i];
      if one.value.Some? {
        assert QualifiesAs(q, prs[i], threshold, one.value.value);
        EntryUnique(q, prs[i], threshold, one.value.value, EntryOf(q, prs[i], threshold));
        qual := qual.(starved := qual.starved + [one.value.value]);
      } else {
        qual := qual.(untouched := qual.untouched + [prs[i].number]);
      }
    }
    assert prs[..|prs|] == prs;
    return Ok(qual);
  }

  // ------------------------------------------------------------------ reaping

  datatype Event =
    | EnsureLabel(ok: bool)
    | AddLabel(pr: nat, ok: bool)
    | Cancel(pr: nat, runId: nat, ok: bool)
    | Audit(pr: nat, runId: nat, ok: bool)

  /** The effects for one target, stopping at the first failure; `ok` answers by position in the trace. */
  function Segment(t: Starved, ok: nat -> bool, at: nat): (e: seq<Event>) {
    if !ok(at) then [EnsureLabel(false)]
    else if !ok(at + 1) then [EnsureLabel(true), AddLabel(t.pr, false)]
    else if !ok(at + 2) then [EnsureLabel(true), AddLabel(t.pr, true), Cancel(t.pr, t.runId, false)]
    else [EnsureLabel(true), AddLabel(t.pr, true), Cancel(t.pr, t.runId, true), Audit(t.pr, t.runId, ok(at + 3))]
  }

  function TraceOf(targets: seq<Starved>, ok: nat -> bool): (e: seq<Event>) {
    if targets == [] then []
    else
      var front := TraceOf(targets[..|targets| - 1], ok);
      front + Segment(targets[|targets| - 1], ok, |front|)
  }

  datatype ReapResult = ReapResult(target: Starved, labelled: bool, cancelled: bool, audited: bool, failed: bool)

  /** What a result says about its segment. */
  ghost predicate Reports(r: ReapResult, t: Starved, e: seq<Event>) {
    && r.target == t
    && (r.labelled <==> AddLabel(t.pr, true) in e)
    && (r.cancelled <==> Cancel(t.pr, t.runId, true) in e)
    && (r.audited <==> Audit(t.pr, t.runId, true) in e)
    && (r.failed <==> !r.audited)
  }

  method ReapOne(t: Starved, ok: nat -> bool, at: nat) returns (e: seq<Event>, r: ReapResult)
    ensures e == Segment(t, ok, at)
    ensures Reports(r, t, e)
  {
    r := ReapResult(t, false, false, false, true);
    e := [EnsureLabel(ok(at))];
    if !ok(at) {
      return;
    }
    e := e + [AddLabel(t.pr, ok(at + 1))];
    if !ok(at + 1) {
      return;
    }
    r := r.(labelled := true);
    e := e + [Cancel(t.pr, t.runId, ok(at + 2))];
    if !ok(at + 2) {
      return;
    }
    r := r.(cancelled := true);
    e := e + [Audit(t.pr, t.runId, ok(at + 3))];
    if !ok(at + 3) {
      return;
    }
    r := r.(audited := true, failed := false);
  }

  function Failed(results: seq<ReapResult>): (n: nat) {
    if results == [] then 0 else Failed(results[..|results| - 1]) + (if results[|results| - 1].failed then 1 else 0)
  }

  function Succeeded(results: seq<ReapResult>): (n: nat) {
    if results == [] then 0 else Succeeded(results[..|results| - 1]) + (if results[|results| - 1].failed then 0 else 1)
  }

  lemma {:induction false} FailedPlusSucceeded(results: seq<ReapResult>)
    ensures Failed(results) + Succeeded(results) == |results|
  {
    if results != [] {
      FailedPlusSucceeded(results[..|results| - 1]);
    }
  }

  /** The part of the trace that belongs to target `i`. */
  function SegmentOf(targets: seq<Starved>, ok: nat -> bool, i: nat): (e: seq<Event>)
    requires i < |targets|
  {
    Segment(targets[i], ok, |TraceOf(targets[..i], ok)|)
  }

  ghost predicate Reported(targets: seq<Starved>, ok: nat -> bool, results: seq<ReapResult>, i: nat)
    requires i <= |targets|
  {
    |results| == i && forall j :: 0 <= j < i ==> Reports(results[j], targets[j], SegmentOf(targets, ok, j))
  }

  lemma {:induction false} ReportedGrows(targets: seq<Starved>, ok: nat -> bool, results: seq<ReapResult>,
                                         r: ReapResult)
    requires |results| < |targets| && Reported(targets, ok, results, |results|)
    requires Reports(r, targets[|results|], SegmentOf(targets, ok, |results|))
    ensures Reported(targets, ok, results + [r], |results| + 1)
    ensures Failed(results + [r]) == Failed(results) + if r.failed then 1 else 0
  {
    assert (results + [r])[..|results|] == results;
  }

  /** Executes the reap for every target: successes and failures add up to the targets. */
  method ReapTargets(targets: seq<Starved>, ok: nat -> bool)
    returns (trace: seq<Event>, results: seq<ReapResult>, failures: nat)
    ensures trace == TraceOf(targets, ok)
    ensures Reported(targets, ok, results, |targets|)
    ensures failures == Failed(results) && failures + Succeeded(results) == |targets|
  {
    trace, results, failures := [], [], 0;
    for i := 0 to |targets|
      invariant trace == TraceOf(targets[..i], ok)
      invariant Reported(targets, ok, results, i)
      invariant failures == Failed(results)
    {
      assert targets[..i + 1][..i] == targets[..i];
      var e, r := ReapOne(targets[i], ok, |trace|);
      trace := trace + e;
      ReportedGrows(targets, ok, results, r);
      results := results + [r];
      if r.failed {
        failures := failures + 1;
      }
    }
    assert targets[..|targets|] == targets;
    FailedPlusSucceeded(results);
  }

  lemma {:induction false} ReportedFront(targets: seq<Starved>, ok: nat -> bool, results: seq<ReapResult>)
    requires targets != [] && Reported(targets, ok, results, |targets|)
    ensures Reported(targets[..|targets| - 1], ok, results[..|targets| - 1], |targets| - 1)
  {
    var n := |targets| - 1;
    var front := targets[..n];
    forall j | 0 <= j < n ensures Reports(results[..n][j], front[j], SegmentOf(front, ok, j)) {
      assert targets[..j] == front[..j];
      assert Reports(results[j], targets[j], SegmentOf(targets, ok, j));
    }
  }

  lemma {:induction false} TraceMembers(targets: seq<Starved>, ok: nat -> bool)
    requires targets != []
    ensures forall e :: e in TraceOf(targets, ok) <==>
              e in TraceOf(targets[..|targets| - 1], ok) || e in SegmentOf(targets, ok, |targets| - 1)
  {
  }

  /** A failure is counted exactly when some effect in the trace failed. */
  lemma {:induction false} FailuresShow(targets: seq<Starved>, ok: nat -> bool, results: seq<ReapResult>)
    requires Reported(targets, ok, results, |targets|)
    ensures Failed(results) > 0 <==> exists e <- TraceOf(targets, ok) :: !e.ok
  {
    if targets != [] {
      var n := |targets| - 1;
      ReportedFront(targets, ok, results);
      FailuresShow(targets[..n], ok, results[..n]);
      SegmentFails(targets[n], ok, |TraceOf(targets[..n], ok)|, results[n]);
      TraceMembers(targets, ok);
    }
  }

  lemma {:induction false} SegmentFails(t: Starved, ok: nat -> bool, at: nat, r: ReapResult)
    requires Reports(r, t, Segment(t, ok, at))
    ensures r.failed <==> exists e <- Segment(t, ok, at) :: !e.ok
  {
    var e := Segment(t, ok, at);
    assert !e[|e| - 1].ok || e[|e| - 1] == Audit(t.pr, t.runId, true);
  }

  /** The targets: the starved entries, narrowed to one number if one was asked for. */
  function Targets(starved: seq<Starved>, only: Option<nat>): (r: seq<Starved>)
    ensures forall t :: t in r <==> t in starved && (only.None? || t.pr == only.value)
  {
    if starved == [] then []
    else
      var n := |starved| - 1;
      var front := Targets(starved[..n], only);
      if only.None? || starved[n].pr == only.value then front + [starved[n]] else front
  }

  /** Exit status and trace of one invocation. */
  method RunReap(q: Queries, minutes: nat, execute: bool, only: Option<nat>, ok: nat -> bool)
    returns (code: int, trace: seq<Event>)
    requires minutes < 0x1_0000_0000_0000_0000
    ensures Incomplete(q) || !execute ==> trace == []
    ensures !Incomplete(q) && execute ==>
              trace == TraceOf(Targets(Classified(q, q.prs.value, ThresholdSeconds(minutes)).starved, only), ok)
    ensures code == if Incomplete(q) || exists e <- trace :: !e.ok then 2 else 0
  {
    var qual := QualifyCiTimeout(q, ThresholdSeconds(minutes));
    if qual.Err? {
      return 2, [];
    }
    var targets := Targets(qual.value.starved, only);
    if !execute {
      return 0, [];
    }
    var events, results, failures := ReapTargets(targets, ok);
    FailuresShow(targets, ok, results);
    return if failures > 0 then 2 else 0, events;
  }

  // ------------------------------------------------------------------ safety

  /** A cancel follows a successful label on the same pull request, an audit a successful cancel of the same run. */
  ghost predicate SafeAt(trace: seq<Event>, i: int)
    requires 0 <= i < |trace|
  {
    match trace[i]
    case EnsureLabel(_) => true
    case AddLabel(_, _) => i > 0 && trace[i - 1] == EnsureLabel(true)
    case Cancel(pr, _, _) => i > 0 && trace[i - 1] == AddLabel(pr, true)
    case Audit(pr, runId, _) => i > 0 && trace[i - 1] == Cancel(pr, runId, true)
  }

  ghost predicate Safe(trace: seq<Event>) {
    forall i :: 0 <= i < |trace| ==> SafeAt(trace, i)
  }

  lemma {:induction false} SafeAppend(a: seq<Event>, b: seq<Event>)
    requires Safe(a) && Safe(b)
    ensures Safe(a + b)
  {
    forall i | 0 <= i < |a + b| ensures SafeAt(a + b, i) {
      if i < |a| {
        assert SafeAt(a, i);
      } else {
        assert SafeAt(b, i - |a|);
      }
    }
  }

  /** For every pattern of failures, every step of the trace is safe. */
  lemma {:induction false} TraceSafe(targets: seq<Starved>, ok: nat -> bool)
    ensures Safe(TraceOf(targets, ok))
  {
    if targets != [] {
      var n := |targets| - 1;
      TraceSafe(targets[..n], ok);
      var front := TraceOf(targets[..n], ok);
      SafeAppend(front, Segment(targets[n], ok, |front|));
    }
  }

  lemma {:induction false} Targeted(targets: seq<Starved>, ok: nat -> bool, e: Event) returns (t: Starved)
    requires e in TraceOf(targets, ok) && !e.EnsureLabel?
    ensures t in targets && e.pr == t.pr && (e.Cancel? || e.Audit? ==> e.runId == t.runId)
  {
    var n := |targets| - 1;
    var front := TraceOf(targets[..n], ok);
    if e in front {
      t := Targeted(targets[..n], ok, e);
    } else {
      t := targets[n];
    }
  }

  /** Only starved pull requests, and only the one asked for, are ever touched. */
  lemma {:induction false} OnlyStarvedTouched(q: Queries, prs: seq<PrRow>, threshold: int, only: Option<nat>,
                                              ok: nat -> bool, e: Event)
    returns (pr: PrRow, t: Starved)
    requires e in TraceOf(Targets(Classified(q, prs, threshold).starved, only), ok) && !e.EnsureLabel?
    ensures pr in prs && QualifiesAs(q, pr, threshold, t)
    ensures e.pr == t.pr == pr.number && (only.Some? ==> e.pr == only.value)
    ensures e.Cancel? || e.Audit? ==> e.runId == t.runId
  {
    t := Targeted(Targets(Classified(q, prs, threshold).starved, only), ok, e);
    StarvedQualify(q, prs, threshold, t);
    pr :| pr in prs && QualifiesAs(q, pr, threshold, t);
    EntryUnique(q, pr, threshold, t, t);
  }
}
