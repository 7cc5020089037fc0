/**
The named CI batch: a committed member list whose membership is projected onto pull requests as a
label, one edit at a time, where any edit may fail.
*/
module Batch {
  import opened Text

  datatype BatchPr = BatchPr(repo: string, number: nat)

  /** How one label edit ended; a failed edit may or may not have taken effect. */
  datatype EditResult = Done | FailedApplied | FailedUnapplied

  datatype Attempt = Attempt(pr: BatchPr, add: bool, result: EditResult)

  /** The state file, the labels on GitHub, and the edits attempted so far. */
  datatype State = State(present: bool, name: string, prs: seq<BatchPr>, labels: set<BatchPr>, log: seq<Attempt>)

  datatype Command =
    | Set(name: string, repo: string, numbers: seq<nat>)
    | Add(repo: string, numbers: seq<nat>)
    | Remove(repo: string, numbers: seq<nat>)
    | Clear

  /** What the outside does during one command: the file write, label creation per repository, each edit, the commit. */
  datatype Outside = Outside(writes: bool, labelReady: string -> bool, edits: nat -> EditResult, commits: bool)

  datatype Exit = Code(code: int) | WriteError

  predicate Distinct(xs: seq<BatchPr>) {
    forall i, j :: 0 <= i < j < |xs| ==> xs[i] != xs[j]
  }

  // ----------------------------------------------------------- member lists

  /** The requested members of one repository, each once, in order of first mention. */
  function MembersFrom(repo: string, numbers: seq<nat>): (out: seq<BatchPr>)
    ensures Distinct(out)
    ensures forall pr :: pr in out <==> pr.repo == repo && pr.number in numbers
  {
    if numbers == [] then []
    else
      var n := |numbers| - 1;
      var front := MembersFrom(repo, numbers[..n]);
      var pr := BatchPr(repo, numbers[n]);
      if pr in front then front else front + [pr]
  }

  method CollectMembers(repo: string, numbers: seq<nat>) returns (out: seq<BatchPr>)
    ensures out == MembersFrom(repo, numbers)
  {
    out := [];
    for i := 0 to |numbers|
      invariant out == MembersFrom(repo, numbers[..i])
    {
      assert numbers[..i + 1][..i] == numbers[..i];
      var pr := BatchPr(repo, numbers[i]);
      if pr !in out {
        out := out + [pr];
      }
    }
    assert numbers[..|numbers|] == numbers;
  }

  /** The members of `xs` that are (`keep`) or are not (`!keep`) in `ys`, in order. */
  function Select(xs: seq<BatchPr>, ys: seq<BatchPr>, keep: bool): (r: seq<BatchPr>)
    ensures forall pr :: pr in r <==> pr in xs && (pr in ys <==> keep)
    ensures Distinct(xs) ==> Distinct(r)
  {
    if xs == [] then []
    else
      var n := |xs| - 1;
      var front := Select(xs[..n], ys, keep);
      if (xs[n] in ys) == keep then
        assert Distinct(xs) ==> xs[n] !in xs[..n];
        front + [xs[n]]
      else front
  }

  // ---------------------------------------------------------------- planning

  datatype Plan = Skip(code: int) | Write(name: string, prs: seq<BatchPr>, add: seq<BatchPr>, drop: seq<BatchPr>)

  function PlanFor(s: State, c: Command): (p: Plan) {
    match c
    case Set(name, repo, numbers) =>
      var members := MembersFrom(repo, numbers);
      Write(name, members, Select(members, s.prs, false), Select(s.prs, members, false))
    case Add(repo, numbers) =>
      var add := Select(MembersFrom(repo, numbers), s.prs, false);
      if s.name == "" then Skip(2) else if add == [] then Skip(0) else Write(s.name, s.prs + add, add, [])
    case Remove(repo, numbers) =>
      var drop := Select(MembersFrom(repo, numbers), s.prs, true);
      if !s.present || s.name == "" then Skip(2)
      else if drop == [] then Skip(0)
      else Write(s.name, Select(s.prs, drop, false), [], drop)
    case Clear =>
      if !s.present && s.name == "" then Skip(0) else Write("", [], [], s.prs)
  }

  /** The label deltas of a plan are exactly the change of membership, without repeats. */
  ghost predicate ExactDelta(was: seq<BatchPr>, p: Plan)
    requires p.Write?
  {
    && Distinct(p.prs) && Distinct(p.add) && Distinct(p.drop)
    && (forall pr :: pr in p.add <==> pr in p.prs && pr !in was)
    && (forall pr :: pr in p.drop <==> pr in was && pr !in p.prs)
  }

  lemma {:induction false} PlanIsExactDelta(s: State, c: Command)
    requires Distinct(s.prs) && PlanFor(s, c).Write?
    ensures ExactDelta(s.prs, PlanFor(s, c))
  {
    var p := PlanFor(s, c);
    match c
    case Set(name, repo, numbers) =>
    case Add(repo, numbers) =>
      assert forall i :: 0 <= i < |p.add| ==> p.add[i] in p.add;
      assert Distinct(s.prs + p.add);
    case Remove(repo, numbers) =>
    case Clear =>
  }

  // ------------------------------------------------------------- projection

  function Attempts(prs: seq<BatchPr>, add: bool, edits: nat -> EditResult, from: nat): (a: seq<Attempt>)
    ensures |a| == |prs| && forall i :: 0 <= i < |a| ==> a[i] == Attempt(prs[i], add, edits(from + i))
  {
    seq(|prs|, i requires 0 <= i < |prs| => Attempt(prs[i], add, edits(from + i)))
  }

  function AllAttempts(p: Plan, edits: nat -> EditResult): (a: seq<Attempt>)
    requires p.Write?
  {
    Attempts(p.add, true, edits, 0) + Attempts(p.drop, false, edits, |p.add|)
  }

  function Applied(labels: set<BatchPr>, a: Attempt): (r: set<BatchPr>) {
    if a.result.FailedUnapplied? then labels else if a.add then labels + {a.pr} else labels - {a.pr}
  }

  /** The labels after the edits that took effect. */
  function Effect(labels: set<BatchPr>, log: seq<Attempt>): (r: set<BatchPr>) {
    if log == [] then labels else Applied(Effect(labels, log[..|log| - 1]), log[|log| - 1])
  }

  /** Whether the latest attempt on a pull request, if any, failed. */
  function LatestFailed(log: seq<Attempt>, pr: BatchPr): (b: bool) {
    log != [] &&
    var last := log[|log| - 1];
    if last.pr == pr then !last.result.Done? else LatestFailed(log[..|log| - 1], pr)
  }

  function Failures(log: seq<Attempt>): (n: nat)
    ensures n == 0 <==> forall i :: 0 <= i < |log| ==> log[i].result.Done?
  {
    if log == [] then 0 else Failures(log[..|log| - 1]) + (if log[|log| - 1].result.Done? then 0 else 1)
  }

  ghost predicate EnsureFails(p: Plan, o: Outside)
    requires p.Write?
  {
    exists i :: 0 <= i < |p.add| && !o.labelReady(p.add[i].repo)
  }

  /** One command: nothing changes on a dry run, a skipped plan or a failed write. */
  function Step(s: State, c: Command, dryRun: bool, o: Outside): (r: State) {
    var p := PlanFor(s, c);
    if p.Skip? || dryRun || !o.writes then s
    else
      var attempts := AllAttempts(p, o.edits);
      State(true, p.name, p.prs, Effect(s.labels, attempts), s.log + attempts)
  }

  ghost predicate ExitsWith(s: State, c: Command, dryRun: bool, o: Outside, e: Exit) {
    var p := PlanFor(s, c);
    if p.Skip? then e == Code(p.code)
    else if dryRun then e == Code(0)
    else if !o.writes then e == WriteError
    else
      && e in {Code(0), Code(2)}
      && (e == Code(0) <==> Failures(AllAttempts(p, o.edits)) == 0 && !EnsureFails(p, o) && o.commits)
  }

  lemma {:induction false} OneMoreAttempt(labels: set<BatchPr>, before: seq<Attempt>, last: Attempt)
    ensures Failures(before + [last]) == Failures(before) + if last.result.Done? then 0 else 1
    ensures Effect(labels, before + [last]) == Applied(Effect(labels, before), last)
  {
    assert (before + [last])[..|before|] == before;
  }

  class Hub {
    var present: bool
    var name: string
    var prs: seq<BatchPr>
    var labels: set<BatchPr>
    var log: seq<Attempt>

    function Snapshot(): (s: State)
      reads this
    {
      State(present, name, prs, labels, log)
    }

    method EditLabels(targets: seq<BatchPr>, add: bool, edits: nat -> EditResult, from: nat) returns (failures: nat)
      modifies this`labels, this`log
      ensures labels == Effect(old(labels), Attempts(targets, add, edits, from))
      ensures log == old(log) + Attempts(targets, add, edits, from)
      ensures failures == Failures(Attempts(targets, add, edits, from))
    {
      failures := 0;
      ghost var all, before := Attempts(targets, add, edits, from), [];
      for i := 0 to |targets|
        invariant before == all[..i] && log == old(log) + before
        invariant labels == Effect(old(labels), before) && failures == Failures(before)
      {
        PrefixGrows(all, i);
        OneMoreAttempt(old(labels), before, all[i]);
        before := before + [all[i]];
        var result := edits(from + i);
        log := log + [Attempt(targets[i], add, result)];
        if !result.FailedUnapplied? {
          labels := if add then labels + {targets[i]} else labels - {targets[i]};
        }
        if !result.Done? {
          failures := failures + 1;
        }
      }
      assert all[..|targets|] == all;
    }

    method ProjectLabels(p: Plan, edits: nat -> EditResult) returns (failures: nat)
      requires p.Write?
      modifies this`labels, this`log
      ensures labels == Effect(old(labels), AllAttempts(p, edits)) && log == old(log) + AllAttempts(p, edits)
      ensures failures == Failures(AllAttempts(p, edits))
    {
      var addFailures := EditLabels(p.add, true, edits, 0);
      var dropFailures := EditLabels(p.drop, false, edits, |p.add|);
      ProjectedTogether(p, edits, old(labels), old(log));
      failures := addFailures + dropFailures;
    }

    method Publish(p: Plan, o: Outside) returns (e: Exit)
      requires p.Write?
      modifies this
      ensures !o.writes ==> e == WriteError && Snapshot() == old(Snapshot())
      ensures o.writes ==>
                && Snapshot() == State(true, p.name, p.prs, Effect(old(labels), AllAttempts(p, o.edits)),
                                       old(log) + AllAttempts(p, o.edits))
                && e in {Code(0), Code(2)}
                && (e == Code(0) <==> Failures(AllAttempts(p, o.edits)) == 0 && !EnsureFails(p, o) && o.commits)
    {
      if !o.writes {
        return WriteError;
      }
      present, name, prs := true, p.name, p.prs;
      var ensureFailures := CountEnsureFailures(p, o);
      var editFailures := ProjectLabels(p, o.edits);
      e := Code(if ensureFailures + editFailures == 0 && o.commits then 0 else 2);
    }

    method BatchSet(newName: string, repo: string, numbers: seq<nat>, dryRun: bool, o: Outside) returns (e: Exit)
      modifies this
      ensures Snapshot() == Step(old(Snapshot()), Set(newName, repo, numbers), dryRun, o)
      ensures ExitsWith(old(Snapshot()), Set(newName, repo, numbers), dryRun, o, e)
    {
      var members := CollectMembers(repo, numbers);
      var toDrop := Select(prs, members, false);
      var toAdd := Select(members, prs, false);
      if dryRun {
        return Code(0);
      }
      e := Publish(Write(newName, members, toAdd, toDrop), o);
    }

    method BatchAdd(repo: string, numbers: seq<nat>, dryRun: bool, o: Outside) returns (e: Exit)
      modifies this
      ensures Snapshot() == Step(old(Snapshot()), Add(repo, numbers), dryRun, o)
      ensures ExitsWith(old(Snapshot()), Add(repo, numbers), dryRun, o, e)
    {
      if name == "" {
        return Code(2);
      }
      var requested := CollectMembers(repo, numbers);
      var toAdd := Select(requested, prs, false);
      if toAdd == [] || dryRun {
        return Code(0);
      }
      e := Publish(Write(name, prs + toAdd, toAdd, []), o);
    }

    method BatchRemove(repo: string, numbers: seq<nat>, dryRun: bool, o: Outside) returns (e: Exit)
      modifies this
      ensures Snapshot() == Step(old(Snapshot()), Remove(repo, numbers), dryRun, o)
      ensures ExitsWith(old(Snapshot()), Remove(repo, numbers), dryRun, o, e)
    {
      if !present || name == "" {
        return Code(2);
      }
      var requested := CollectMembers(repo, numbers);
      var toDrop := Select(requested, prs, true);
      if toDrop == [] || dryRun {
        return Code(0);
      }
      e := Publish(Write(name, Select(prs, toDrop, false), [], toDrop), o);
    }

    method BatchClear(dryRun: bool, o: Outside) returns (e: Exit)
      modifies this
      ensures Snapshot() == Step(old(Snapshot()), Clear, dryRun, o)
      ensures ExitsWith(old(Snapshot()), Clear, dryRun, o, e)
    {
      if (!present && name == "") || dryRun {
        return Code(0);
      }
      e := Publish(Write("", [], [], prs), o);
    }
  }

  method CountEnsureFailures(p: Plan, o: Outside) returns (n: nat)
    requires p.Write?
    ensures n > 0 <==> EnsureFails(p, o)
  {
    n := 0;
    var done: set<string> := {};
    for i := 0 to |p.add|
      invariant done == set j | 0 <= j < i :: p.add[j].repo
      invariant n > 0 <==> exists j :: 0 <= j < i && !o.labelReady(p.add[j].repo)
    {
      var repo := p.add[i].repo;
      if repo !in done {
        done := done + {repo};
        if !o.labelReady(repo) {
          n := n + 1;
        }
      }
    }
  }

  // ------------------------------------------------------------------ lemmas

  lemma {:induction false} Concatenated(labels: set<BatchPr>, a: seq<Attempt>, b: seq<Attempt>)
    ensures Effect(labels, a + b) == Effect(Effect(labels, a), b)
    ensures Failures(a + b) == Failures(a) + Failures(b)
  {
    if b == [] {
      assert a + b == a;
    } else {
      Concatenated(labels, a, b[..|b| - 1]);
      assert (a + b)[..|a + b| - 1] == a + b[..|b| - 1];
    }
  }

  lemma {:induction false} ProjectedTogether(p: Plan, edits: nat -> EditResult, labels: set<BatchPr>, log: seq<Attempt>)
    requires p.Write?
    ensures var adds, drops := Attempts(p.add, true, edits, 0), Attempts(p.drop, false, edits, |p.add|);
            && Effect(Effect(labels, adds), drops) == Effect(labels, AllAttempts(p, edits))
            && log + adds + drops == log + AllAttempts(p, edits)
            && Failures(adds) + Failures(drops) == Failures(AllAttempts(p, edits))
  {
    var adds, drops := Attempts(p.add, true, edits, 0), Attempts(p.drop, false, edits, |p.add|);
    Concatenated(labels, adds, drops);
    assert log + adds + drops == log + (adds + drops);
  }

  /** A pull request no edit names keeps its label and its latest result. */
  lemma {:induction false} Untouched(labels: set<BatchPr>, log: seq<Attempt>, more: seq<Attempt>, pr: BatchPr)
    requires forall i :: 0 <= i < |more| ==> more[i].pr != pr
    ensures pr in Effect(labels, more) <==> pr in labels
    ensures LatestFailed(log + more, pr) == LatestFailed(log, pr)
  {
    if more == [] {
      assert log + more == log;
    } else {
      var n := |more| - 1;
      Untouched(labels, log, more[..n], pr);
      assert (log + more)[..|log + more| - 1] == log + more[..n];
    }
  }

  /** A pull request exactly one edit names shows that edit's effect, unless the edit failed. */
  lemma {:induction false} TouchedOnce(labels: set<BatchPr>, log: seq<Attempt>, more: seq<Attempt>, i: nat)
    requires i < |more| && forall j :: 0 <= j < |more| && j != i ==> more[j].pr != more[i].pr
    ensures LatestFailed(log + more, more[i].pr) <==> !more[i].result.Done?
    ensures more[i].result.Done? ==> (more[i].pr in Effect(labels, more) <==> more[i].add)
  {
    var n := |more| - 1;
    assert (log + more)[|log + more| - 1] == more[n];
    if i < n {
      TouchedOnce(labels, log, more[..n], i);
      assert (log + more)[..|log + more| - 1] == log + more[..n];
    }
  }

  /** Labels that disagree with membership are those whose latest edit failed. */
  ghost predicate Agrees(s: State, pr: BatchPr) {
    (pr in s.labels <==> pr in s.prs) || LatestFailed(s.log, pr)
  }

  ghost predicate Sound(s: State) {
    Distinct(s.prs) && forall pr :: Agrees(s, pr)
  }

  lemma {:induction false} PlanAttempts(was: seq<BatchPr>, p: Plan, edits: nat -> EditResult)
    requires p.Write? && ExactDelta(was, p)
    ensures forall i, j :: 0 <= i < j < |AllAttempts(p, edits)|
              ==> AllAttempts(p, edits)[i].pr != AllAttempts(p, edits)[j].pr
    ensures forall i :: 0 <= i < |AllAttempts(p, edits)| ==>
              var a := AllAttempts(p, edits)[i];
              (a.add <==> a.pr in p.prs) && (a.pr in was <==> a.pr !in p.prs)
  {
    var n := |p.add|;
    assert forall i :: 0 <= i < n ==> p.add[i] in p.add;
    assert forall i :: 0 <= i < |p.drop| ==> p.drop[i] in p.drop;
    assert forall i :: 0 <= i < n ==> AllAttempts(p, edits)[i].pr == p.add[i];
    assert forall i :: n <= i < |AllAttempts(p, edits)| ==> AllAttempts(p, edits)[i].pr == p.drop[i - n];
  }

  lemma {:induction false} PlanCovers(was: seq<BatchPr>, p: Plan, edits: nat -> EditResult, pr: BatchPr)
    requires p.Write? && ExactDelta(was, p) && (pr in was <==> pr !in p.prs)
    ensures exists i :: 0 <= i < |AllAttempts(p, edits)| && AllAttempts(p, edits)[i].pr == pr
  {
    var n := |p.add|;
    if pr in p.prs {
      var i :| 0 <= i < n && p.add[i] == pr;
      assert AllAttempts(p, edits)[i].pr == pr;
    } else {
      var i :| 0 <= i < |p.drop| && p.drop[i] == pr;
      assert AllAttempts(p, edits)[n + i].pr == pr;
    }
  }

  /** Exactly the pull requests whose membership changes are edited, each once and in the right direction. */
  lemma {:induction false} AttemptsAreDelta(s: State, c: Command, o: Outside, pr: BatchPr)
    requires Distinct(s.prs) && PlanFor(s, c).Write?
    ensures var p := PlanFor(s, c);
            (exists i :: 0 <= i < |AllAttempts(p, o.edits)| && AllAttempts(p, o.edits)[i].pr == pr)
            <==> (pr in s.prs <==> pr !in p.prs)
  {
    PlanIsExactDelta(s, c);
    var p := PlanFor(s, c);
    PlanAttempts(s.prs, p, o.edits);
    if pr in s.prs <==> pr !in p.prs {
      PlanCovers(s.prs, p, o.edits, pr);
    }
  }

  lemma {:induction false} PublishAgrees(s: State, p: Plan, edits: nat -> EditResult, pr: BatchPr)
    requires p.Write? && ExactDelta(s.prs, p) && Agrees(s, pr)
    ensures var more := AllAttempts(p, edits);
            Agrees(State(true, p.name, p.prs, Effect(s.labels, more), s.log + more), pr)
  {
    var more := AllAttempts(p, edits);
    PlanAttempts(s.prs, p, edits);
    if pr in s.prs <==> pr !in p.prs {
      PlanCovers(s.prs, p, edits, pr);
      var i :| 0 <= i < |more| && more[i].pr == pr;
      TouchedOnce(s.labels, s.log, more, i);
    } else {
      Untouched(s.labels, s.log, more, pr);
    }
  }

  lemma {:induction false} StepKeepsSound(s: State, c: Command, dryRun: bool, o: Outside)
    requires Sound(s)
    ensures Sound(Step(s, c, dryRun, o))
  {
    var p := PlanFor(s, c);
    if p.Write? && !dryRun && o.writes {
      PlanIsExactDelta(s, c);
      forall pr ensures Agrees(Step(s, c, dryRun, o), pr) {
        PublishAgrees(s, p, o.edits, pr);
      }
    }
  }

  datatype Call = Call(command: Command, dryRun: bool, outside: Outside)

  function Run(s: State, calls: seq<Call>): (r: State) {
    if calls == [] then s
    else
      var last := calls[|calls| - 1];
      Step(Run(s, calls[..|calls| - 1]), last.command, last.dryRun, last.outside)
  }

  /**
   Over every run of commands with arbitrary failures: the member list never repeats a pull request,
   and a label that disagrees with membership had its latest edit fail.
   */
  lemma {:induction false} RunKeepsSound(s: State, calls: seq<Call>)
    requires Sound(s)
    ensures Sound(Run(s, calls))
  {
    if calls != [] {
      var n := |calls| - 1;
      RunKeepsSound(s, calls[..n]);
      StepKeepsSound(Run(s, calls[..n]), calls[n].command, calls[n].dryRun, calls[n].outside);
    }
  }

  lemma {:induction false} NoLatestFailure(log: seq<Attempt>, pr: BatchPr)
    requires Failures(log) == 0
    ensures !LatestFailed(log, pr)
  {
    if log != [] {
      NoLatestFailure(log[..|log| - 1], pr);
    }
  }

  ghost predicate EditsSucceed(calls: seq<Call>) {
    forall i, k: nat :: 0 <= i < |calls| ==> calls[i].outside.edits(k).Done?
  }

  lemma {:induction false} RunWithoutFailures(s: State, calls: seq<Call>)
    requires Failures(s.log) == 0 && EditsSucceed(calls)
    ensures Failures(Run(s, calls).log) == 0
  {
    if calls != [] {
      var n := |calls| - 1;
      var front := calls[..n];
      assert forall i :: 0 <= i < n ==> front[i] == calls[i];
      RunWithoutFailures(s, front);
      var before, call := Run(s, front), calls[n];
      var p := PlanFor(before, call.command);
      if p.Write? {
        var more := AllAttempts(p, call.outside.edits);
        assert forall i :: 0 <= i < |more| ==> more[i].result.Done?;
        Concatenated(s.labels, before.log, more);
      }
    }
  }

  /** When no edit fails, the labelled pull requests are exactly the members, after every run. */
  lemma {:induction false} LabelsAreMembers(s: State, calls: seq<Call>)
    requires Sound(s) && Failures(s.log) == 0 && EditsSucceed(calls)
    ensures Run(s, calls).labels == set pr | pr in Run(s, calls).prs
  {
    RunKeepsSound(s, calls);
    RunWithoutFailures(s, calls);
    var end := Run(s, calls);
    forall pr ensures pr in end.labels <==> pr in end.prs {
      NoLatestFailure(end.log, pr);
      assert Agrees(end, pr);
    }
  }

  /**
   A disagreeing label is never repaired by naming the member again: as long as a command leaves
   the membership of a pull request alone, it leaves its label alone.
   */
  lemma {:induction false} StaleLabelStays(s: State, c: Command, dryRun: bool, o: Outside, pr: BatchPr)
    requires Distinct(s.prs)
    requires pr in Step(s, c, dryRun, o).prs <==> pr in s.prs
    ensures pr in Step(s, c, dryRun, o).labels <==> pr in s.labels
    ensures LatestFailed(Step(s, c, dryRun, o).log, pr) == LatestFailed(s.log, pr)
  {
    var p := PlanFor(s, c);
    if p.Write? && !dryRun && o.writes {
      AttemptsAreDelta(s, c, o, pr);
      Untouched(s.labels, s.log, AllAttempts(p, o.edits), pr);
    }
  }

  predicate Right(s: State, pr: BatchPr) {
    pr in s.labels <==> pr in s.prs
  }

  /** Whether some edit of `pr` took effect, reported as failed or not. */
  ghost predicate Took(attempts: seq<Attempt>, pr: BatchPr) {
    exists i :: 0 <= i < |attempts| && attempts[i].pr == pr && !attempts[i].result.FailedUnapplied?
  }

  lemma {:induction false} OneEdit(labels: set<BatchPr>, more: seq<Attempt>, pr: BatchPr, i: nat)
    requires i < |more| && more[i].pr == pr && forall j :: 0 <= j < |more| && j != i ==> more[j].pr != pr
    ensures pr in Effect(labels, more) <==> if more[i].result.FailedUnapplied? then pr in labels else more[i].add
  {
    var n := |more| - 1;
    if i < n {
      OneEdit(labels, more[..n], pr, i);
    } else {
      Untouched(labels, [], more[..n], pr);
    }
  }

  lemma {:induction false} ChangedLabelRight(s: State, p: Plan, edits: nat -> EditResult, pr: BatchPr)
    requires p.Write? && ExactDelta(s.prs, p) && (pr in s.prs <==> pr !in p.prs)
    ensures (pr in Effect(s.labels, AllAttempts(p, edits)) <==> pr in p.prs) <==>
            Took(AllAttempts(p, edits), pr) || !Right(s, pr)
  {
    var more := AllAttempts(p, edits);
    PlanAttempts(s.prs, p, edits);
    PlanCovers(s.prs, p, edits, pr);
    var i :| 0 <= i < |more| && more[i].pr == pr;
    OneEdit(s.labels, more, pr, i);
  }

  /**
   When a label matches its membership after any command.  Where the membership stays, exactly when it matched before;
   where it changes, exactly when the edit took effect (even one reported as failed) or the label was wrong before.
   */
  lemma {:induction false} LabelRightIff(s: State, c: Command, dryRun: bool, o: Outside, pr: BatchPr)
    requires Distinct(s.prs)
    ensures var next := Step(s, c, dryRun, o);
            && |s.log| <= |next.log|
            && (Right(next, pr) <==>
                if pr in next.prs <==> pr in s.prs then Right(s, pr)
                else Took(next.log[|s.log|..], pr) || !Right(s, pr))
  {
    var p, next := PlanFor(s, c), Step(s, c, dryRun, o);
    if pr in next.prs <==> pr in s.prs {
      StaleLabelStays(s, c, dryRun, o, pr);
    } else {
      PlanIsExactDelta(s, c);
      ChangedLabelRight(s, p, o.edits, pr);
      assert next.log[|s.log|..] == AllAttempts(p, o.edits);
    }
  }

  // --------------------------------------------------- what each command is for

  /** The pull requests a command names. */
  predicate Requested(c: Command, pr: BatchPr) {
    match c
    case Set(_, repo, numbers) => pr.repo == repo && pr.number in numbers
    case Add(repo, numbers) => pr.repo == repo && pr.number in numbers
    case Remove(repo, numbers) => pr.repo == repo && pr.number in numbers
    case Clear => false
  }

  /** There is no batch for the command to work on. */
  predicate NoBatch(s: State, c: Command) {
    (c.Add? && s.name == "") || (c.Remove? && (!s.present || s.name == "")) || (c.Clear? && !s.present && s.name == "")
  }

  /** The command asks for what is already so. */
  ghost predicate NothingToDo(s: State, c: Command) {
    || (c.Add? && forall pr :: Requested(c, pr) ==> pr in s.prs)
    || (c.Remove? && forall pr :: Requested(c, pr) ==> pr !in s.prs)
  }

  ghost predicate LeavesAlone(s: State, c: Command, dryRun: bool, o: Outside) {
    NoBatch(s, c) || NothingToDo(s, c) || dryRun || !o.writes
  }

  lemma {:induction false} SkipExact(s: State, c: Command)
    ensures PlanFor(s, c).Skip? <==> NoBatch(s, c) || NothingToDo(s, c)
    ensures PlanFor(s, c).Skip? ==> PlanFor(s, c).code == if NoBatch(s, c) && !c.Clear? then 2 else 0
  {
    match c
    case Set(name, repo, numbers) =>
    case Add(repo, numbers) =>
      var add := Select(MembersFrom(repo, numbers), s.prs, false);
      assert add == [] <==> forall pr :: Requested(c, pr) ==> pr in s.prs by { NoneLeft(add); }
    case Remove(repo, numbers) =>
      var drop := Select(MembersFrom(repo, numbers), s.prs, true);
      assert drop == [] <==> forall pr :: Requested(c, pr) ==> pr !in s.prs by { NoneLeft(drop); }
    case Clear =>
  }

  lemma {:induction false} NoneLeft(xs: seq<BatchPr>)
    ensures xs == [] <==> forall pr :: pr !in xs
  {
    if xs != [] {
      assert xs[0] in xs;
    }
  }

  /** Who belongs to the batch after a command that takes effect. */
  ghost predicate Belongs(s: State, c: Command, pr: BatchPr) {
    match c
    case Set(_, _, _) => Requested(c, pr)
    case Add(_, _) => pr in s.prs || Requested(c, pr)
    case Remove(_, _) => pr in s.prs && !Requested(c, pr)
    case Clear => false
  }

  /**
   What each command is for: it leaves everything alone exactly when there is no batch to work on, nothing to do, a dry
   run or a failed write; otherwise the batch is there with its name and exactly its members, and no others.
   */
  lemma {:induction false} CommandMeans(s: State, c: Command, dryRun: bool, o: Outside)
    ensures var next := Step(s, c, dryRun, o);
            if LeavesAlone(s, c, dryRun, o) then next == s
            else
              && next.present && next.name == (if c.Set? then c.name else if c.Clear? then "" else s.name)
              && (forall pr :: pr in next.prs <==> Belongs(s, c, pr))
              && (c.Add? ==> s.prs <= next.prs)
  {
    SkipExact(s, c);
  }

  /** The label edits of a command: one for every change of membership, with its own result, additions first. */
  ghost predicate EditsOf(s: State, c: Command, edits: nat -> EditResult, more: seq<Attempt>) {
    && (forall i :: 0 <= i < |more| ==> more[i].result == edits(i))
    && (forall a <- more :: if a.add then Belongs(s, c, a.pr) && a.pr !in s.prs
                            else !Belongs(s, c, a.pr) && a.pr in s.prs)
    && (forall i, j :: 0 <= i < j < |more| && more[j].add ==> more[i].add)
  }

  lemma {:induction false} PlanMeans(s: State, c: Command, p: Plan)
    requires p == PlanFor(s, c) && p.Write?
    ensures forall pr :: pr in p.add <==> Belongs(s, c, pr) && pr !in s.prs
    ensures forall pr :: pr in p.drop <==> !Belongs(s, c, pr) && pr in s.prs
  {
  }

  lemma {:induction false} AdditionsFirst(p: Plan, edits: nat -> EditResult, more: seq<Attempt>)
    requires p.Write? && more == AllAttempts(p, edits)
    ensures forall i :: 0 <= i < |more| ==> more[i].result == edits(i)
    ensures forall i, j :: 0 <= i < j < |more| && more[j].add ==> more[i].add
    ensures forall a <- more :: if a.add then a.pr in p.add else a.pr in p.drop
  {
    forall i | 0 <= i < |more|
      ensures more[i].result == edits(i) && (more[i].add <==> i < |p.add|)
      ensures if more[i].add then more[i].pr in p.add else more[i].pr in p.drop
    {
      if i >= |p.add| {
        assert more[i] == Attempts(p.drop, false, edits, |p.add|)[i - |p.add|];
      }
    }
  }

  lemma {:induction false} PlannedEdits(s: State, c: Command, p: Plan, edits: nat -> EditResult, more: seq<Attempt>)
    requires p == PlanFor(s, c) && p.Write? && more == AllAttempts(p, edits)
    ensures EditsOf(s, c, edits, more)
  {
    PlanMeans(s, c, p);
    AdditionsFirst(p, edits, more);
  }

  lemma {:induction false} EditsMean(s: State, c: Command, dryRun: bool, o: Outside)
    requires !LeavesAlone(s, c, dryRun, o)
    ensures var next := Step(s, c, dryRun, o);
            s.log <= next.log && EditsOf(s, c, o.edits, next.log[|s.log|..])
  {
    SkipExact(s, c);
    var p, next := PlanFor(s, c), Step(s, c, dryRun, o);
    assert next.log[|s.log|..] == AllAttempts(p, o.edits);
    PlannedEdits(s, c, p, o.edits, AllAttempts(p, o.edits));
  }

  /** The exit status of a command. */
  lemma {:induction false} ExitMeans(s: State, c: Command, dryRun: bool, o: Outside, e: Exit)
    requires ExitsWith(s, c, dryRun, o, e)
    ensures NoBatch(s, c) ==> e == Code(if c.Clear? then 0 else 2)
    ensures !NoBatch(s, c) && (NothingToDo(s, c) || dryRun) ==> e == Code(0)
    ensures !NoBatch(s, c) && !NothingToDo(s, c) && !dryRun && !o.writes ==> e == WriteError
    ensures !LeavesAlone(s, c, dryRun, o) ==> e in {Code(0), Code(2)} && (e == Code(0) <==> AllDone(s, c, dryRun, o))
  {
    SkipExact(s, c);
    var p := PlanFor(s, c);
    if !LeavesAlone(s, c, dryRun, o) {
      AllDoneExact(s, c, dryRun, o, p);
    }
  }

  /** The commit went through, every edit did, and the label was there in every repository that needed it. */
  ghost predicate AllDone(s: State, c: Command, dryRun: bool, o: Outside) {
    && s.log <= Step(s, c, dryRun, o).log
    && o.commits && (forall a <- Step(s, c, dryRun, o).log[|s.log|..] :: a.result.Done?)
    && (forall pr :: Belongs(s, c, pr) && pr !in s.prs ==> o.labelReady(pr.repo))
  }

  lemma {:induction false} NoFailures(attempts: seq<Attempt>)
    ensures Failures(attempts) == 0 <==> forall a <- attempts :: a.result.Done?
  {
    if forall a <- attempts :: a.result.Done? {
      assert forall i :: 0 <= i < |attempts| ==> attempts[i] in attempts;
    }
  }

  lemma {:induction false} AllDoneExact(s: State, c: Command, dryRun: bool, o: Outside, p: Plan)
    requires p == PlanFor(s, c) && p.Write? && !dryRun && o.writes
    ensures Failures(AllAttempts(p, o.edits)) == 0 && !EnsureFails(p, o) && o.commits <==> AllDone(s, c, dryRun, o)
  {
    var attempts := AllAttempts(p, o.edits);
    assert Step(s, c, dryRun, o).log[|s.log|..] == attempts;
    AddedRepos(s, c, p, o);
    NoFailures(attempts);
  }

  lemma {:induction false} AddedRepos(s: State, c: Command, p: Plan, o: Outside)
    requires p == PlanFor(s, c) && p.Write?
    ensures EnsureFails(p, o) <==> exists pr :: Belongs(s, c, pr) && pr !in s.prs && !o.labelReady(pr.repo)
  {
    PlanMeans(s, c, p);
    if i :| 0 <= i < |p.add| && !o.labelReady(p.add[i].repo) {
      assert p.add[i] in p.add;
    }
    if pr :| Belongs(s, c, pr) && pr !in s.prs && !o.labelReady(pr.repo) {
      assert pr in p.add;
    }
  }

  // ------------------------------------------------------------- such a run

  const START := State(true, "n", [], {}, [])
  const MEMBER := BatchPr("r", 1)

  function Edits(result: EditResult): (o: Outside) {
    Outside(true, repo => true, k => result, true)
  }

  /** Adding a pull request while its edit fails, then adding it again with nothing failing. */
  const ADD_TWICE := [Call(Add("r", [1]), false, Edits(FailedUnapplied)), Call(Add("r", [1]), false, Edits(Done))]

  lemma {:induction false} FirstAdd()
    ensures Run(START, ADD_TWICE[..1]).prs == [MEMBER] && Run(START, ADD_TWICE[..1]).labels == {}
    ensures Run(START, ADD_TWICE[..1]).name == "n"
  {
    var o := Edits(FailedUnapplied);
    assert ADD_TWICE[..1][..0] == [] && MembersFrom("r", [1]) == [MEMBER];
    var p := PlanFor(START, Add("r", [1]));
    assert [MEMBER][..0] == [];
    assert Select([MEMBER], [], false) == [MEMBER];
    assert p == Write("n", [] + [MEMBER], [MEMBER], []);
    var attempts := AllAttempts(p, o.edits);
    assert attempts == [Attempt(MEMBER, true, FailedUnapplied)] && attempts[..0] == [];
    assert Effect({}, attempts) == {};
  }

  /** The member stays in the batch without its label, and the second command reports success without an edit. */
  lemma {:induction false} AddedTwiceUnlabelled(e: Exit)
    requires ExitsWith(Run(START, ADD_TWICE[..1]), Add("r", [1]), false, Edits(Done), e)
    ensures MEMBER in Run(START, ADD_TWICE).prs && MEMBER !in Run(START, ADD_TWICE).labels && e == Code(0)
  {
    FirstAdd();
    var s := Run(START, ADD_TWICE[..1]);
    assert MembersFrom("r", [1]) == [MEMBER];
    assert [MEMBER][..0] == [];
    assert Select([MEMBER], s.prs, false) == [];
    assert PlanFor(s, Add("r", [1])) == Skip(0);
  }
}
