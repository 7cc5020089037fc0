/**
Latest attempt per exact (head, workflow) among Actions runs, and the single newest
run at a head.
*/
module Workflows {
  import opened Text
  import opened Selection

  /** Newness of a run: creation time first, then run id. */
  datatype RunKey = RunKey(created: string, id: int)

  predicate RunKeyLess(a: RunKey, b: RunKey) {
    StrLess(a.created, b.created) || (a.created == b.created && a.id < b.id)
  }

  lemma {:induction false} RunKeyOrder()
    ensures StrictTotal(RunKeyLess)
  {
    StrLessOrder();
    forall a, b, c ensures RunKeyLess(a, b) && RunKeyLess(b, c) ==> RunKeyLess(a, c) {
      assert StrLess(a.created, b.created) && StrLess(b.created, c.created) ==> StrLess(a.created, c.created);
    }
    forall a: RunKey, b: RunKey ensures a != b ==> RunKeyLess(a, b) || RunKeyLess(b, a) {
      assert a.created != b.created ==> StrLess(a.created, b.created) || StrLess(b.created, a.created);
    }
  }

  /** Everything selection reads of a run, with the record itself. */
  datatype WorkflowRun = WorkflowRun(raw: Record, head: string, name: string, event: string, key: RunKey,
                                     verdict: Verdict)

  function KeyOf(r: Record): (k: RunKey) {
    var id := ParseInt(FirstOf(r, ["id", "databaseId", "run_id"]));
    RunKey(Strip(FirstOf(r, ["created_at", "createdAt"])), if id.Some? then id.value else 0)
  }

  function ViewOf(r: Record): (w: WorkflowRun) {
    WorkflowRun(r, Strip(FirstOf(r, ["head_sha", "headSha"])),
                Strip(FirstOf(r, ["workflowName", "workflow_name", "name"])),
                Strip(Get(r, "event")), KeyOf(r), Verdict(Strip(Get(r, "status")), Strip(Get(r, "conclusion"))))
  }

  const ATTEMPT_ERROR := "duplicate workflow attempt has equal identity and contrary verdicts"

  /** The earlier record with its verdict overwritten. */
  function AmbiguousRecord(r: Record): (a: Record) {
    r["status" := "AMBIGUOUS"]["conclusion" := ""]["_selectionError" := ATTEMPT_ERROR]
  }

  function AmbiguousRun(w: WorkflowRun): (a: WorkflowRun) {
    w.(raw := AmbiguousRecord(w.raw), verdict := AMBIGUOUS)
  }

  lemma {:induction false} UntouchedKey(r: Record, k: string)
    requires k !in {"status", "conclusion", "_selectionError"}
    ensures Get(AmbiguousRecord(r), k) == Get(r, k)
  {
  }

  lemma {:induction false} FirstOfSame(a: Record, b: Record, keys: seq<string>)
    requires forall k <- keys :: Get(a, k) == Get(b, k)
    ensures FirstOf(a, keys) == FirstOf(b, keys)
  {
    if keys != [] {
      assert keys[0] in keys;
      FirstOfSame(a, b, keys[1..]);
    }
  }

  lemma {:induction false} AmbiguousKeepsIdentity(r: Record)
    ensures ViewOf(AmbiguousRecord(r)).head == ViewOf(r).head && ViewOf(AmbiguousRecord(r)).name == ViewOf(r).name
  {
    var a := AmbiguousRecord(r);
    assert Get(a, "head_sha") == Get(r, "head_sha") && Get(a, "headSha") == Get(r, "headSha") by {
      UntouchedKey(r, "head_sha"); UntouchedKey(r, "headSha");
    }
    FirstOfSame(a, r, ["head_sha", "headSha"]);
    assert Get(a, "workflowName") == Get(r, "workflowName") && Get(a, "workflow_name") == Get(r, "workflow_name")
        && Get(a, "name") == Get(r, "name") by {
      UntouchedKey(r, "workflowName"); UntouchedKey(r, "workflow_name"); UntouchedKey(r, "name");
    }
    FirstOfSame(a, r, ["workflowName", "workflow_name", "name"]);
  }

  lemma {:induction false} AmbiguousKeepsKey(r: Record)
    ensures KeyOf(AmbiguousRecord(r)) == KeyOf(r)
  {
    var a := AmbiguousRecord(r);
    assert Get(a, "id") == Get(r, "id") && Get(a, "databaseId") == Get(r, "databaseId")
           && Get(a, "run_id") == Get(r, "run_id") by {
      UntouchedKey(r, "id"); UntouchedKey(r, "databaseId"); UntouchedKey(r, "run_id");
    }
    FirstOfSame(a, r, ["id", "databaseId", "run_id"]);
    assert Get(a, "created_at") == Get(r, "created_at") && Get(a, "createdAt") == Get(r, "createdAt") by {
      UntouchedKey(r, "created_at"); UntouchedKey(r, "createdAt");
    }
    FirstOfSame(a, r, ["created_at", "createdAt"]);
  }

  lemma {:induction false} AmbiguousVerdict(r: Record)
    ensures ViewOf(AmbiguousRecord(r)).verdict == AmbiguousRun(ViewOf(r)).verdict
  {
    assert Strip("AMBIGUOUS") == "AMBIGUOUS" && Strip("") == "";
  }

  /** Overwriting the verdict of a run leaves everything selection orders and filters by. */
  lemma {:induction false} AmbiguousViewed(r: Record)
    ensures ViewOf(AmbiguousRecord(r)) == AmbiguousRun(ViewOf(r))
  {
    AmbiguousKeepsIdentity(r);
    AmbiguousKeepsKey(r);
    UntouchedKey(r, "event");
    AmbiguousVerdict(r);
  }

  // ------------------------------------------------------------------ selection

  /** The caller's filters; an empty one admits everything. */
  datatype Filters = Filters(headSha: string, events: seq<string>, workflows: seq<string>)

  predicate Admitted(w: WorkflowRun, f: Filters) {
    && (f.headSha == "" || w.head == f.headSha)
    && (f.events == [] || w.event in f.events)
    && (f.workflows == [] || w.name in f.workflows)
  }

  datatype Authority = Authority(head: string, workflow: string)

  function AuthorityOf(w: WorkflowRun): (a: Authority) {
    Authority(w.head, w.name)
  }

  datatype Table = Table(latest: map<Authority, WorkflowRun>, order: seq<Authority>)

  function Replace(prev: WorkflowRun, w: WorkflowRun): (r: WorkflowRun) {
    if RunKeyLess(prev.key, w.key) then w
    else if prev.key == w.key && prev.verdict != w.verdict then AmbiguousRun(prev)
    else prev
  }

  function Step(t: Table, raw: Option<WorkflowRun>, f: Filters): (r: Table) {
    if raw.None? || !Admitted(raw.value, f) then t
    else
      var slot := AuthorityOf(raw.value);
      if slot in t.latest then t.(latest := t.latest[slot := Replace(t.latest[slot], raw.value)])
      else Table(t.latest[slot := raw.value], t.order + [slot])
  }

  function Run(value: seq<Option<WorkflowRun>>, f: Filters): (t: Table) {
    if value == [] then Table(map[], []) else Step(Run(value[..|value| - 1], f), value[|value| - 1], f)
  }

  predicate Lands(raw: Option<WorkflowRun>, f: Filters, slot: Authority) {
    raw.Some? && Admitted(raw.value, f) && AuthorityOf(raw.value) == slot
  }

  function Attempts(value: seq<Option<WorkflowRun>>, f: Filters, slot: Authority): (a: seq<Attempt<RunKey>>) {
    if value == [] then []
    else
      var n := |value| - 1;
      Attempts(value[..n], f, slot)
      + (if Lands(value[n], f, slot) then [Attempt(value[n].value.key, value[n].value.verdict)] else [])
  }

  ghost predicate Holds(t: Table, value: seq<Option<WorkflowRun>>, f: Filters, s: Authority) {
    && (s in t.latest <==> Attempts(value, f, s) != [])
    && (s in t.latest ==>
          && Admitted(t.latest[s], f) && AuthorityOf(t.latest[s]) == s
          && Attempt(t.latest[s].key, t.latest[s].verdict) == Fold(Attempts(value, f, s), RunKeyLess))
  }

  ghost predicate Consistent(t: Table, value: seq<Option<WorkflowRun>>, f: Filters) {
    Distinct(t.order) && (forall s :: s in t.latest <==> s in t.order) && forall s :: Holds(t, value, f, s)
  }

  lemma {:induction false} HoldsStep(t: Table, value: seq<Option<WorkflowRun>>, f: Filters, s: Authority)
    requires value != [] && Holds(t, value[..|value| - 1], f, s)
    ensures Holds(Step(t, value[|value| - 1], f), value, f, s)
  {
    var n := |value| - 1;
    if Lands(value[n], f, s) {
      FoldStep(Attempts(value[..n], f, s), Attempt(value[n].value.key, value[n].value.verdict), RunKeyLess);
    } else {
      assert Attempts(value, f, s) == Attempts(value[..n], f, s);
    }
  }

  lemma {:induction false} RunConsistent(value: seq<Option<WorkflowRun>>, f: Filters)
    ensures Consistent(Run(value, f), value, f)
  {
    if value != [] {
      var n := |value| - 1;
      RunConsistent(value[..n], f);
      forall s ensures Holds(Run(value, f), value, f, s) {
        HoldsStep(Run(value[..n], f), value, f, s);
      }
    }
  }

  function Output(t: Table): (out: seq<WorkflowRun>)
    requires forall s <- t.order :: s in t.latest
    ensures |out| == |t.order|
    ensures forall i :: 0 <= i < |out| ==> t.order[i] in t.latest && out[i] == t.latest[t.order[i]]
  {
    seq(|t.order|, i requires 0 <= i < |t.order| => assert t.order[i] in t.order; t.latest[t.order[i]])
  }

  function Selected(value: seq<Option<WorkflowRun>>, f: Filters): (out: seq<WorkflowRun>) {
    RunConsistent(value, f);
    Output(Run(value, f))
  }

  method SelectLatestWorkflowAttempts(value: seq<Option<WorkflowRun>>, f: Filters) returns (out: seq<WorkflowRun>)
    ensures out == Selected(value, f)
  {
    var latest: map<Authority, WorkflowRun>, order: seq<Authority> := map[], [];
    for i := 0 to |value|
      invariant Table(latest, order) == Run(value[..i], f)
    {
      assert value[..i + 1][..i] == value[..i];
      if value[i].Some? && Admitted(value[i].value, f) {
        var run := value[i].value;
        var key := AuthorityOf(run);
        if key !in latest {
          order := order + [key];
          latest := latest[key := run];
        } else {
          latest := latest[key := Replace(latest[key], run)];
        }
      }
    }
    assert value[..|value|] == value;
    RunConsistent(value, f);
    out := [];
    for i := 0 to |order|
      invariant out == Selected(value, f)[..i]
    {
      assert order[i] in order;
      out := out + [latest[order[i]]];
    }
  }

  // ------------------------------------------------------------------ theorems

  lemma {:induction false} AttemptMembers(value: seq<Option<WorkflowRun>>, f: Filters, s: Authority, a: Attempt<RunKey>)
    ensures a in Attempts(value, f, s) <==>
            exists w: WorkflowRun :: Some(w) in value && Admitted(w, f) && AuthorityOf(w) == s
                && a == Attempt(w.key, w.verdict)
  {
    if value != [] {
      var n := |value| - 1;
      AttemptMembers(value[..n], f, s, a);
      assert value == value[..n] + [value[n]];
      if Lands(value[n], f, s) && a == Attempt(value[n].value.key, value[n].value.verdict) {
        assert Some(value[n].value) in value;
      }
    }
  }

  ghost function Chosen(value: seq<Option<WorkflowRun>>, f: Filters, s: Authority): (a: Option<Attempt<RunKey>>) {
    var t := Run(value, f);
    if s in t.latest then Some(Attempt(t.latest[s].key, t.latest[s].verdict)) else None
  }

  lemma {:induction false} ChosenIsLatest(value: seq<Option<WorkflowRun>>, f: Filters, s: Authority)
    ensures var attempts := Attempts(value, f, s);
            var c := Chosen(value, f, s);
            (c.None? <==> attempts == []) && (c.Some? ==> IsLatest(c.value, attempts, RunKeyLess))
  {
    RunConsistent(value, f);
    assert Holds(Run(value, f), value, f, s);
    RunKeyOrder();
    if Attempts(value, f, s) != [] {
      FoldIsLatest(Attempts(value, f, s), RunKeyLess);
    }
  }

  lemma {:induction false} SameAttempts(v1: seq<Option<WorkflowRun>>, v2: seq<Option<WorkflowRun>>, f: Filters,
                                        s: Authority)
    requires multiset(v1) == multiset(v2)
    ensures forall a :: a in Attempts(v1, f, s) <==> a in Attempts(v2, f, s)
  {
    assert forall x :: x in v1 <==> x in multiset(v1);
    assert forall x :: x in v2 <==> x in multiset(v2);
    forall a ensures a in Attempts(v1, f, s) <==> a in Attempts(v2, f, s) {
      AttemptMembers(v1, f, s, a);
      AttemptMembers(v2, f, s, a);
    }
  }

  /** No permutation of the run list changes the key or verdict selected for any (head, workflow). */
  lemma {:induction false} SelectionIgnoresOrder(v1: seq<Option<WorkflowRun>>, v2: seq<Option<WorkflowRun>>, f: Filters,
                                                 s: Authority)
    requires multiset(v1) == multiset(v2)
    ensures Chosen(v1, f, s) == Chosen(v2, f, s)
  {
    SameAttempts(v1, v2, f, s);
    ChosenIsLatest(v1, f, s);
    ChosenIsLatest(v2, f, s);
    var a1, a2 := Attempts(v1, f, s), Attempts(v2, f, s);
    assert a1 != [] ==> a1[0] in a2;
    assert a2 != [] ==> a2[0] in a1;
    if a1 != [] {
      RunKeyOrder();
      LatestUnique(Chosen(v1, f, s).value, a1, Chosen(v2, f, s).value, a2, RunKeyLess);
    }
  }

  ghost predicate Settled(runs: seq<WorkflowRun>, f: Filters) {
    && (forall w <- runs :: Admitted(w, f))
    && (forall i, j :: 0 <= i < j < |runs| ==> AuthorityOf(runs[i]) != AuthorityOf(runs[j]))
  }

  ghost predicate Mirrors(t: Table, runs: seq<WorkflowRun>) {
    && |t.order| == |runs|
    && (forall s :: s in t.latest <==> s in t.order)
    && (forall i :: 0 <= i < |runs| ==> t.order[i] == AuthorityOf(runs[i]) && t.order[i] in t.latest
                                          && t.latest[t.order[i]] == runs[i])
  }

  lemma {:induction false} MirrorsStep(t: Table, runs: seq<WorkflowRun>, w: WorkflowRun, f: Filters)
    requires Mirrors(t, runs) && Admitted(w, f)
    requires forall i :: 0 <= i < |runs| ==> AuthorityOf(runs[i]) != AuthorityOf(w)
    ensures Mirrors(Step(t, Some(w), f), runs + [w])
  {
    assert forall i :: 0 <= i < |runs| ==> t.order[i] != AuthorityOf(w);
    var after, all := Step(t, Some(w), f), runs + [w];
    forall i | 0 <= i < |all|
      ensures after.order[i] == AuthorityOf(all[i]) && after.order[i] in after.latest
              && after.latest[after.order[i]] == all[i]
    {
      if i < |runs| {
        assert t.order[i] in t.order && after.order[i] == t.order[i];
      }
    }
  }

  lemma {:induction false} RunAppend(runs: seq<WorkflowRun>, w: WorkflowRun, f: Filters)
    ensures Run(Wrap(runs + [w]), f) == Step(Run(Wrap(runs), f), Some(w), f)
  {
    assert Wrap(runs + [w])[..|runs|] == Wrap(runs);
  }

  lemma {:induction false} SettledRun(runs: seq<WorkflowRun>, f: Filters)
    requires Settled(runs, f)
    ensures Mirrors(Run(Wrap(runs), f), runs)
  {
    if runs != [] {
      var n := |runs| - 1;
      var front, last := runs[..n], runs[n];
      assert last in runs && runs == front + [last];
      SettledRun(front, f);
      MirrorsStep(Run(Wrap(front), f), front, last, f);
      RunAppend(front, last, f);
    }
  }

  lemma {:induction false} ViewsIdempotent(value: seq<Option<WorkflowRun>>, f: Filters)
    ensures Selected(Wrap(Selected(value, f)), f) == Selected(value, f)
  {
    RunConsistent(value, f);
    var t, out := Run(value, f), Selected(value, f);
    forall i | 0 <= i < |out| ensures Admitted(out[i], f) && AuthorityOf(out[i]) == t.order[i] {
      assert Holds(t, value, f, t.order[i]);
    }
    SettledRun(out, f);
    RunConsistent(Wrap(out), f);
  }

  // ------------------------------------------------------------------ records

  function Views(value: seq<Option<Record>>): (r: seq<Option<WorkflowRun>>)
    ensures |r| == |value|
    ensures forall i :: 0 <= i < |value| ==> r[i] == (if value[i].Some? then Some(ViewOf(value[i].value)) else None)
  {
    seq(|value|, i requires 0 <= i < |value| => if value[i].Some? then Some(ViewOf(value[i].value)) else None)
  }

  function Raws(runs: seq<WorkflowRun>): (r: seq<Record>)
    ensures |r| == |runs| && forall i :: 0 <= i < |runs| ==> r[i] == runs[i].raw
  {
    seq(|runs|, i requires 0 <= i < |runs| => runs[i].raw)
  }

  /** The records the selector returns. */
  function Returned(value: seq<Option<Record>>, f: Filters): (out: seq<Record>) {
    Raws(Selected(Views(value), f))
  }

  method SelectAttemptRecords(value: seq<Option<Record>>, f: Filters) returns (out: seq<Record>)
    ensures out == Returned(value, f)
  {
    var runs := SelectLatestWorkflowAttempts(Views(value), f);
    out := Raws(runs);
  }

  /** A run as it reads from its own record. */
  ghost predicate Viewed(w: WorkflowRun) {
    w == ViewOf(w.raw)
  }

  lemma {:induction false} ReplaceViewed(prev: WorkflowRun, w: WorkflowRun)
    requires Viewed(prev) && Viewed(w)
    ensures Viewed(Replace(prev, w))
  {
    AmbiguousViewed(prev.raw);
  }

  /** What every input run has and replacement keeps, every selected run has. */
  lemma {:induction false} RunKeeps(value: seq<Option<WorkflowRun>>, f: Filters, p: WorkflowRun -> bool)
    requires forall i :: 0 <= i < |value| && value[i].Some? ==> p(value[i].value)
    requires forall prev, w :: p(prev) && p(w) ==> p(Replace(prev, w))
    ensures forall s :: s in Run(value, f).latest ==> p(Run(value, f).latest[s])
  {
    if value != [] {
      RunKeeps(value[..|value| - 1], f, p);
    }
  }

  lemma {:induction false} RunViewed(value: seq<Option<WorkflowRun>>, f: Filters)
    requires forall i :: 0 <= i < |value| && value[i].Some? ==> Viewed(value[i].value)
    ensures forall s :: s in Run(value, f).latest ==> Viewed(Run(value, f).latest[s])
  {
    var p := (w: WorkflowRun) => Viewed(w);
    forall prev, w | p(prev) && p(w) ensures p(Replace(prev, w)) {
      ReplaceViewed(prev, w);
    }
    RunKeeps(value, f, p);
    forall s | s in Run(value, f).latest ensures Viewed(Run(value, f).latest[s]) {
      assert p(Run(value, f).latest[s]);
    }
  }

  lemma {:induction false} SelectedViewed(value: seq<Option<Record>>, f: Filters)
    ensures forall i :: 0 <= i < |Selected(Views(value), f)| ==> Viewed(Selected(Views(value), f)[i])
  {
    RunViewed(Views(value), f);
    RunConsistent(Views(value), f);
  }

  lemma {:induction false} ViewsOfRaws(runs: seq<WorkflowRun>)
    requires forall i :: 0 <= i < |runs| ==> Viewed(runs[i])
    ensures Views(Wrap(Raws(runs))) == Wrap(runs)
  {
    forall i | 0 <= i < |runs| ensures Views(Wrap(Raws(runs)))[i] == Some(runs[i]) {
      assert Wrap(Raws(runs))[i] == Some(runs[i].raw);
    }
  }

  /** Selecting again from the records returned, with the same filters, returns them, ambiguous ones included. */
  lemma {:induction false} SelectionIdempotent(value: seq<Option<Record>>, f: Filters)
    ensures Returned(Wrap(Returned(value, f)), f) == Returned(value, f)
  {
    var runs := Selected(Views(value), f);
    SelectedViewed(value, f);
    ViewsOfRaws(runs);
    ViewsIdempotent(Views(value), f);
  }

  /** Every selected run carries the chosen key and verdict of its (head, workflow). */
  lemma {:induction false} SelectedCarriesChosen(value: seq<Option<WorkflowRun>>, f: Filters, w: WorkflowRun)
    requires w in Selected(value, f)
    ensures Chosen(value, f, AuthorityOf(w)) == Some(Attempt(w.key, w.verdict)) && Admitted(w, f)
  {
    RunConsistent(value, f);
    var t, out := Run(value, f), Selected(value, f);
    var i :| 0 <= i < |out| && out[i] == w;
    assert Holds(t, value, f, t.order[i]);
  }

  /** The first run with the greatest key, as Python's `max` picks it. */
  method MaxRun(candidates: seq<WorkflowRun>) returns (best: WorkflowRun)
    requires candidates != []
    ensures best in candidates && forall w <- candidates :: !RunKeyLess(best.key, w.key)
  {
    RunKeyOrder();
    best := candidates[0];
    for i := 1 to |candidates|
      invariant best in candidates
      invariant forall j :: 0 <= j < i ==> !RunKeyLess(best.key, candidates[j].key)
    {
      if RunKeyLess(best.key, candidates[i].key) {
        best := candidates[i];
      }
    }
  }

  /** The newest run at a head: absent only when no run is admitted, one of the selected attempts with its chosen
      verdict, and never older than any admitted run. */
  method SelectLatestWorkflowRun(value: seq<Option<WorkflowRun>>, f: Filters) returns (best: Option<WorkflowRun>)
    ensures best.None? <==> forall w: WorkflowRun :: Some(w) in value ==> !Admitted(w, f)
    ensures best.Some? ==> best.value in Selected(value, f)
                           && Chosen(value, f, AuthorityOf(best.value))
                               == Some(Attempt(best.value.key, best.value.verdict))
    ensures best.Some? ==> Admitted(best.value, f)
                           && forall w: WorkflowRun :: Some(w) in value && Admitted(w, f)
                               ==> !RunKeyLess(best.value.key, w.key)
  {
    var candidates := SelectLatestWorkflowAttempts(value, f);
    if candidates == [] {
      NothingAdmitted(value, f);
      return None;
    }
    var newest := MaxRun(candidates);
    forall w: WorkflowRun | Some(w) in value && Admitted(w, f) ensures !RunKeyLess(newest.key, w.key) {
      var c := Dominated(value, f, w);
      RunKeyOrder();
    }
    SelectedCarriesChosen(value, f, newest);
    best := Some(newest);
    SomeAdmitted(value, f);
  }

  /** Every admitted run is matched by a selected one that is at least as new. */
  lemma {:induction false} Dominated(value: seq<Option<WorkflowRun>>, f: Filters, w: WorkflowRun)
    returns (c: WorkflowRun)
    requires Some(w) in value && Admitted(w, f)
    ensures c in Selected(value, f) && !RunKeyLess(c.key, w.key)
  {
    var s := AuthorityOf(w);
    AttemptMembers(value, f, s, Attempt(w.key, w.verdict));
    RunConsistent(value, f);
    var t := Run(value, f);
    assert Holds(t, value, f, s);
    ChosenIsLatest(value, f, s);
    var i :| 0 <= i < |t.order| && t.order[i] == s;
    c := Selected(value, f)[i];
  }

  lemma {:induction false} NothingAdmitted(value: seq<Option<WorkflowRun>>, f: Filters)
    requires Selected(value, f) == []
    ensures forall w: WorkflowRun :: Some(w) in value ==> !Admitted(w, f)
  {
    forall w: WorkflowRun | Some(w) in value ensures !Admitted(w, f) {
      if Admitted(w, f) {
        var c := Dominated(value, f, w);
        assert false;
      }
    }
  }

  lemma {:induction false} SomeAdmitted(value: seq<Option<WorkflowRun>>, f: Filters)
    requires Selected(value, f) != []
    ensures exists w: WorkflowRun :: Some(w) in value && Admitted(w, f)
  {
    RunConsistent(value, f);
    var t := Run(value, f);
    var s := t.order[0];
    assert s in t.order && Holds(t, value, f, s);
    var a := Attempts(value, f, s)[0];
    AttemptMembers(value, f, s, a);
  }
}
