/**
Actions runs selected per (head, workflow), said of the fields of the records given and returned.
*/
module RunRecords {
  import opened Text
  import opened Reading
  import opened Selection
  import opened CheckRecords
  import Workflows

  const HEAD_KEYS := ["head_sha", "headSha"]
  const WORKFLOW_KEYS := ["workflowName", "workflow_name", "name"]
  const NUMBER_KEYS := ["id", "databaseId", "run_id"]
  const CREATED_KEYS := ["created_at", "createdAt"]

  // --------------------------------------------------------------------- fields

  /** The number of a run: that of the first field with a text, if it is an integer, else zero. */
  ghost predicate NumberIs(r: Record, n: int) {
    if exists v, m :: FirstText(r, NUMBER_KEYS, v) && Denotes(v, m)
    then exists v :: FirstText(r, NUMBER_KEYS, v) && Denotes(v, n) else n == 0
  }

  lemma {:induction false} NumberExact(r: Record, n: int)
    ensures Workflows.KeyOf(r).id == n <==> NumberIs(r, n)
  {
    var text := FirstOf(r, NUMBER_KEYS);
    forall v ensures FirstText(r, NUMBER_KEYS, v) <==> v == text {
      FirstOfExact(r, NUMBER_KEYS, v);
    }
    NoNumber(text);
    IntExact(text, n);
  }

  /** When a run was created, and its number. */
  ghost predicate Stamped(r: Record, key: Workflows.RunKey) {
    Says(r, CREATED_KEYS, key.created) && NumberIs(r, key.id)
  }

  lemma {:induction false} StampedExact(r: Record, key: Workflows.RunKey)
    ensures Workflows.KeyOf(r) == key <==> Stamped(r, key)
  {
    SaysExact(r, CREATED_KEYS, key.created);
    NumberExact(r, key.id);
  }

  /** What selection reads of a run. */
  ghost predicate RunViewing(r: Record, w: Workflows.WorkflowRun) {
    && w.raw == r && Says(r, HEAD_KEYS, w.head) && Says(r, WORKFLOW_KEYS, w.name) && Stamped(r, w.key)
    && Padded(Get(r, "event"), w.event) && Trimmed(w.event) && Told(r, w.verdict)
  }

  /** What a run says of itself. */
  ghost predicate Told(r: Record, v: Verdict) {
    && Padded(Get(r, "status"), v.status) && Trimmed(v.status)
    && Padded(Get(r, "conclusion"), v.conclusion) && Trimmed(v.conclusion)
  }

  lemma {:induction false} ToldExact(r: Record, v: Verdict)
    ensures Workflows.ViewOf(r).verdict == v <==> Told(r, v)
  {
    StripExact(Get(r, "status"), v.status);
    StripExact(Get(r, "conclusion"), v.conclusion);
  }

  lemma {:induction false} RunViewExact(r: Record, w: Workflows.WorkflowRun)
    ensures Workflows.ViewOf(r) == w <==> RunViewing(r, w)
  {
    SaysExact(r, HEAD_KEYS, w.head);
    SaysExact(r, WORKFLOW_KEYS, w.name);
    StampedExact(r, w.key);
    StripExact(Get(r, "event"), w.event);
    ToldExact(r, w.verdict);
  }

  /** Newness of runs: the later creation time in character order, and at the same time the larger number. */
  ghost predicate Older(a: Workflows.RunKey, b: Workflows.RunKey) {
    Before(a.created, b.created) || (a.created == b.created && a.id < b.id)
  }

  lemma {:induction false} OlderExact(a: Workflows.RunKey, b: Workflows.RunKey)
    ensures Workflows.RunKeyLess(a, b) <==> Older(a, b)
  {
    StrLessExact(a.created, b.created);
  }

  // ------------------------------------------------------------------- filters

  /** A run the caller asked about: at the head, of one of the events and of one of the workflows, where given. */
  ghost predicate Asked(r: Record, f: Workflows.Filters) {
    && (f.headSha == "" || Says(r, HEAD_KEYS, f.headSha))
    && (f.events == [] || exists e <- f.events :: Padded(Get(r, "event"), e) && Trimmed(e))
    && (f.workflows == [] || exists w <- f.workflows :: Says(r, WORKFLOW_KEYS, w))
  }

  lemma {:induction false} EventAsked(r: Record, events: seq<string>)
    ensures Strip(Get(r, "event")) in events <==> exists e <- events :: Padded(Get(r, "event"), e) && Trimmed(e)
  {
    forall e ensures Padded(Get(r, "event"), e) && Trimmed(e) <==> e == Strip(Get(r, "event")) {
      StripExact(Get(r, "event"), e);
    }
  }

  lemma {:induction false} WorkflowAsked(r: Record, workflows: seq<string>)
    ensures Strip(FirstOf(r, WORKFLOW_KEYS)) in workflows <==> exists w <- workflows :: Says(r, WORKFLOW_KEYS, w)
  {
    forall w ensures Says(r, WORKFLOW_KEYS, w) <==> w == Strip(FirstOf(r, WORKFLOW_KEYS)) {
      SaysExact(r, WORKFLOW_KEYS, w);
    }
  }

  lemma {:induction false} AskedExact(r: Record, f: Workflows.Filters)
    ensures Workflows.Admitted(Workflows.ViewOf(r), f) <==> Asked(r, f)
  {
    SaysExact(r, HEAD_KEYS, f.headSha);
    EventAsked(r, f.events);
    WorkflowAsked(r, f.workflows);
  }

  // --------------------------------------------------------- from records to records

  /** Record `j` is a run of the workflow at the head that the caller asked about. */
  ghost predicate Runs(value: seq<Option<Record>>, f: Workflows.Filters, at: Workflows.Authority, j: nat) {
    && j < |value| && value[j].Some? && Asked(value[j].value, f)
    && Says(value[j].value, HEAD_KEYS, at.head) && Says(value[j].value, WORKFLOW_KEYS, at.workflow)
  }

  lemma {:induction false} RunsExact(value: seq<Option<Record>>, f: Workflows.Filters, at: Workflows.Authority, j: nat)
    ensures Runs(value, f, at, j) <==> j < |value| && Workflows.Lands(Workflows.Views(value)[j], f, at)
  {
    if j < |value| && value[j].Some? {
      AskedExact(value[j].value, f);
      SaysExact(value[j].value, HEAD_KEYS, at.head);
      SaysExact(value[j].value, WORKFLOW_KEYS, at.workflow);
    }
  }

  /** Record `j`, such a run, tells this attempt. */
  ghost predicate Tells(value: seq<Option<Record>>, f: Workflows.Filters, at: Workflows.Authority,
                        a: Attempt<Workflows.RunKey>, j: nat)
  {
    Runs(value, f, at, j) && Stamped(value[j].value, a.key) && Told(value[j].value, a.verdict)
  }

  lemma {:induction false} TellsExact(value: seq<Option<Record>>, f: Workflows.Filters, at: Workflows.Authority,
                                      a: Attempt<Workflows.RunKey>, j: nat)
    ensures Tells(value, f, at, a, j) <==>
            && j < |value| && Workflows.Lands(Workflows.Views(value)[j], f, at)
            && var w := Workflows.Views(value)[j].value; a == Attempt(w.key, w.verdict)
  {
    RunsExact(value, f, at, j);
    if Runs(value, f, at, j) {
      StampedExact(value[j].value, a.key);
      ToldExact(value[j].value, a.verdict);
    }
  }

  lemma {:induction false} AttemptsTold(value: seq<Option<Record>>, f: Workflows.Filters, at: Workflows.Authority,
                                        a: Attempt<Workflows.RunKey>)
    ensures a in Workflows.Attempts(Workflows.Views(value), f, at) <==> exists j: nat :: Tells(value, f, at, a, j)
  {
    var views := Workflows.Views(value);
    Workflows.AttemptMembers(views, f, at, a);
    if a in Workflows.Attempts(views, f, at) {
      var w: Workflows.WorkflowRun :| Some(w) in views && Workflows.Admitted(w, f) && Workflows.AuthorityOf(w) == at
                                      && a == Attempt(w.key, w.verdict);
      var j :| 0 <= j < |views| && views[j] == Some(w);
      TellsExact(value, f, at, a, j);
    }
    if j: nat :| Tells(value, f, at, a, j) {
      TellsExact(value, f, at, a, j);
      assert views[j] in views;
    }
  }

  /** Record `i` of those returned is about the workflow at the head. */
  ghost predicate ReturnedFor(value: seq<Option<Record>>, f: Workflows.Filters, at: Workflows.Authority, i: nat) {
    && i < |Workflows.Returned(value, f)|
    && Says(Workflows.Returned(value, f)[i], HEAD_KEYS, at.head)
    && Says(Workflows.Returned(value, f)[i], WORKFLOW_KEYS, at.workflow)
  }

  lemma {:induction false} ReturnedForExact(value: seq<Option<Record>>, f: Workflows.Filters,
                                            at: Workflows.Authority, i: nat)
    ensures ReturnedFor(value, f, at, i) <==>
            i < |Workflows.Returned(value, f)| && Workflows.Run(Workflows.Views(value), f).order[i] == at
  {
    var views := Workflows.Views(value);
    var t := Workflows.Run(views, f);
    Workflows.RunConsistent(views, f);
    Workflows.SelectedViewed(value, f);
    if i < |Workflows.Returned(value, f)| {
      assert Workflows.Holds(t, views, f, t.order[i]);
      SaysExact(Workflows.Returned(value, f)[i], HEAD_KEYS, at.head);
      SaysExact(Workflows.Returned(value, f)[i], WORKFLOW_KEYS, at.workflow);
    }
  }

  /** A workflow at a head is returned exactly when a run of it was asked about, and then once. */
  lemma {:induction false} ReturnedRunOnce(value: seq<Option<Record>>, f: Workflows.Filters, at: Workflows.Authority)
    ensures (exists i: nat :: ReturnedFor(value, f, at, i)) <==> exists j: nat :: Runs(value, f, at, j)
    ensures forall i: nat, k: nat :: ReturnedFor(value, f, at, i) && ReturnedFor(value, f, at, k) ==> i == k
  {
    var views := Workflows.Views(value);
    var order := Workflows.Run(views, f).order;
    Workflows.RunConsistent(views, f);
    assert Workflows.Holds(Workflows.Run(views, f), views, f, at);
    ReturnedPlaces(value, f, at, order);
    AnyRun(value, f, at);
    assert at in order <==> exists i :: 0 <= i < |order| && order[i] == at;
  }

  lemma {:induction false} ReturnedPlaces(value: seq<Option<Record>>, f: Workflows.Filters, at: Workflows.Authority,
                                          order: seq<Workflows.Authority>)
    requires order == Workflows.Run(Workflows.Views(value), f).order
    ensures forall i: nat :: ReturnedFor(value, f, at, i) <==> i < |order| && order[i] == at
  {
    Workflows.RunConsistent(Workflows.Views(value), f);
    forall i: nat ensures ReturnedFor(value, f, at, i) <==> i < |order| && order[i] == at {
      ReturnedForExact(value, f, at, i);
    }
  }

  lemma {:induction false} AnyRun(value: seq<Option<Record>>, f: Workflows.Filters, at: Workflows.Authority)
    ensures Workflows.Attempts(Workflows.Views(value), f, at) != [] <==> exists j: nat :: Runs(value, f, at, j)
  {
    var attempts := Workflows.Attempts(Workflows.Views(value), f, at);
    if attempts != [] {
      AttemptsTold(value, f, at, attempts[0]);
    }
    if j: nat :| Runs(value, f, at, j) {
      RunsExact(value, f, at, j);
      var w := Workflows.Views(value)[j].value;
      TellsExact(value, f, at, Attempt(w.key, w.verdict), j);
      AttemptsTold(value, f, at, Attempt(w.key, w.verdict));
    }
  }

  ghost predicate SomeTells(value: seq<Option<Record>>, f: Workflows.Filters, at: Workflows.Authority,
                            a: Attempt<Workflows.RunKey>)
  {
    exists j: nat :: Tells(value, f, at, a, j)
  }

  /**
   The newest attempt told: no run asked about is newer, and either all runs that new say the same, or they disagree
   and the verdict is the ambiguous one.
   */
  ghost predicate NewestTold(value: seq<Option<Record>>, f: Workflows.Filters, at: Workflows.Authority,
                             best: Attempt<Workflows.RunKey>)
  {
    && (exists v :: SomeTells(value, f, at, Attempt(best.key, v)))
    && (forall a :: SomeTells(value, f, at, a) ==> !Older(best.key, a.key))
    && ((forall v :: SomeTells(value, f, at, Attempt(best.key, v)) ==> v == best.verdict)
        || (best.verdict == AMBIGUOUS
            && exists v, u :: v != u && SomeTells(value, f, at, Attempt(best.key, v))
                              && SomeTells(value, f, at, Attempt(best.key, u))))
  }

  /** What is returned for a workflow at a head is the newest attempt told of it. */
  lemma {:induction false} ReturnedRunSpeaks(value: seq<Option<Record>>, f: Workflows.Filters,
                                             at: Workflows.Authority, i: nat, best: Attempt<Workflows.RunKey>)
    requires ReturnedFor(value, f, at, i)
    requires Stamped(Workflows.Returned(value, f)[i], best.key) && Told(Workflows.Returned(value, f)[i], best.verdict)
    ensures NewestTold(value, f, at, best)
  {
    var views := Workflows.Views(value);
    ReturnedCarries(value, f, at, i, best);
    Workflows.ChosenIsLatest(views, f, at);
    AttemptsAllTold(value, f, at);
    LatestTold(value, f, at, best, Workflows.Attempts(views, f, at));
  }

  lemma {:induction false} ReturnedCarries(value: seq<Option<Record>>, f: Workflows.Filters, at: Workflows.Authority,
                                           i: nat, best: Attempt<Workflows.RunKey>)
    requires ReturnedFor(value, f, at, i)
    requires Stamped(Workflows.Returned(value, f)[i], best.key) && Told(Workflows.Returned(value, f)[i], best.verdict)
    ensures Workflows.Chosen(Workflows.Views(value), f, at) == Some(best)
  {
    var views, r := Workflows.Views(value), Workflows.Returned(value, f)[i];
    ReturnedForExact(value, f, at, i);
    Workflows.RunConsistent(views, f);
    Workflows.SelectedViewed(value, f);
    StampedExact(r, best.key);
    ToldExact(r, best.verdict);
  }

  ghost predicate AllTold(value: seq<Option<Record>>, f: Workflows.Filters, at: Workflows.Authority,
                          attempts: seq<Attempt<Workflows.RunKey>>)
  {
    forall a :: a in attempts <==> SomeTells(value, f, at, a)
  }

  lemma {:induction false} AttemptsAllTold(value: seq<Option<Record>>, f: Workflows.Filters, at: Workflows.Authority)
    ensures AllTold(value, f, at, Workflows.Attempts(Workflows.Views(value), f, at))
  {
    forall a ensures a in Workflows.Attempts(Workflows.Views(value), f, at) <==> SomeTells(value, f, at, a) {
      AttemptsTold(value, f, at, a);
    }
  }

  lemma {:induction false} LatestTold(value: seq<Option<Record>>, f: Workflows.Filters, at: Workflows.Authority,
                                      best: Attempt<Workflows.RunKey>, attempts: seq<Attempt<Workflows.RunKey>>)
    requires AllTold(value, f, at, attempts) && IsLatest(best, attempts, Workflows.RunKeyLess)
    ensures NewestTold(value, f, at, best)
  {
    NoneNewer(value, f, at, best, attempts);
    if best.verdict == AMBIGUOUS && Contrary(best.key, attempts) {
      TwoTold(value, f, at, best.key, attempts);
    }
  }

  lemma {:induction false} NoneNewer(value: seq<Option<Record>>, f: Workflows.Filters, at: Workflows.Authority,
                                     best: Attempt<Workflows.RunKey>, attempts: seq<Attempt<Workflows.RunKey>>)
    requires AllTold(value, f, at, attempts) && IsLatest(best, attempts, Workflows.RunKeyLess)
    ensures exists v :: SomeTells(value, f, at, Attempt(best.key, v))
    ensures forall a :: SomeTells(value, f, at, a) ==> !Older(best.key, a.key)
  {
    var a :| a in attempts && a.key == best.key;
    assert SomeTells(value, f, at, Attempt(best.key, a.verdict));
    forall a | SomeTells(value, f, at, a) ensures !Older(best.key, a.key) {
      OlderExact(best.key, a.key);
    }
  }

  lemma {:induction false} TwoTold(value: seq<Option<Record>>, f: Workflows.Filters, at: Workflows.Authority,
                                   key: Workflows.RunKey, attempts: seq<Attempt<Workflows.RunKey>>)
    requires AllTold(value, f, at, attempts) && Contrary(key, attempts)
    ensures exists v, u :: v != u && SomeTells(value, f, at, Attempt(key, v))
                           && SomeTells(value, f, at, Attempt(key, u))
  {
    var x, y :| x in attempts && y in attempts && x.key == key && y.key == key && x.verdict != y.verdict;
    assert SomeTells(value, f, at, Attempt(key, x.verdict)) && SomeTells(value, f, at, Attempt(key, y.verdict));
  }

  // --------------------------------------------------------- which record it is

  type RunViews = seq<Option<Workflows.WorkflowRun>>

  /** Run `j` lands there with this key. */
  ghost predicate Keyed(value: RunViews, f: Workflows.Filters, at: Workflows.Authority, key: Workflows.RunKey, j: nat) {
    j < |value| && Workflows.Lands(value[j], f, at) && value[j].value.key == key
  }

  ghost predicate AllSay(value: RunViews, f: Workflows.Filters, at: Workflows.Authority, key: Workflows.RunKey,
                         v: Verdict)
  {
    forall j: nat :: Keyed(value, f, at, key, j) ==> value[j].value.verdict == v
  }

  ghost predicate FirstKeyed(value: RunViews, f: Workflows.Filters, at: Workflows.Authority, w: Workflows.WorkflowRun,
                             j: nat)
  {
    && Keyed(value, f, at, w.key, j) && value[j].value == w
    && forall i: nat :: i < j ==> !Keyed(value, f, at, w.key, i)
  }

  /** The run held is the first with its key, where those do not disagree. */
  ghost predicate FirstHeld(value: RunViews, f: Workflows.Filters, at: Workflows.Authority, w: Workflows.WorkflowRun,
                            v: Verdict)
  {
    AllSay(value, f, at, w.key, v) ==> exists j: nat :: FirstKeyed(value, f, at, w, j)
  }

  /** Nothing that lands there is newer. */
  ghost predicate Topmost(value: RunViews, f: Workflows.Filters, at: Workflows.Authority, key: Workflows.RunKey) {
    forall j: nat, other :: Keyed(value, f, at, other, j) ==> !Workflows.RunKeyLess(key, other)
  }

  lemma {:induction false} KeyedFront(value: RunViews, f: Workflows.Filters, at: Workflows.Authority,
                                      key: Workflows.RunKey)
    requires value != []
    ensures forall j: nat :: j < |value| - 1 ==>
              (Keyed(value[..|value| - 1], f, at, key, j) <==> Keyed(value, f, at, key, j))
  {
    assert forall j :: 0 <= j < |value| - 1 ==> value[..|value| - 1][j] == value[j];
  }

  lemma {:induction false} FirstLater(value: RunViews, f: Workflows.Filters, at: Workflows.Authority,
                                      w: Workflows.WorkflowRun, v: Verdict)
    requires value != [] && FirstHeld(value[..|value| - 1], f, at, w, v)
    ensures FirstHeld(value, f, at, w, v)
  {
    var n := |value| - 1;
    KeyedFront(value, f, at, w.key);
    if AllSay(value, f, at, w.key, v) {
      assert AllSay(value[..n], f, at, w.key, v);
      var j: nat :| FirstKeyed(value[..n], f, at, w, j);
      assert FirstKeyed(value, f, at, w, j);
    }
  }

  lemma {:induction false} FirstReplaced(value: RunViews, f: Workflows.Filters, at: Workflows.Authority,
                                         prev: Workflows.WorkflowRun, v: Verdict, w: Workflows.WorkflowRun)
    requires value != [] && FirstHeld(value[..|value| - 1], f, at, prev, v)
    requires Topmost(value[..|value| - 1], f, at, prev.key) && Workflows.Lands(value[|value| - 1], f, at)
    requires w == Workflows.Replace(prev, value[|value| - 1].value)
    ensures FirstHeld(value, f, at, w, v)
  {
    var n := |value| - 1;
    var x := value[n].value;
    KeyedFront(value, f, at, w.key);
    if Workflows.RunKeyLess(prev.key, x.key) {
      assert FirstKeyed(value, f, at, w, n);
    } else if prev.key == x.key && prev.verdict != x.verdict {
      NotUnanimous(value, f, at, prev, v);
    } else {
      FirstLater(value, f, at, w, v);
    }
  }

  lemma {:induction false} NotUnanimous(value: RunViews, f: Workflows.Filters, at: Workflows.Authority,
                                        prev: Workflows.WorkflowRun, v: Verdict)
    requires value != [] && FirstHeld(value[..|value| - 1], f, at, prev, v)
    requires Keyed(value, f, at, prev.key, |value| - 1) && value[|value| - 1].value.verdict != prev.verdict
    ensures !AllSay(value, f, at, prev.key, v)
  {
    var n := |value| - 1;
    KeyedFront(value, f, at, prev.key);
    if AllSay(value[..n], f, at, prev.key, v) {
      var j: nat :| FirstKeyed(value[..n], f, at, prev, j);
      assert Keyed(value, f, at, prev.key, j);
    } else {
      var j: nat :| Keyed(value[..n], f, at, prev.key, j) && value[..n][j].value.verdict != v;
      assert Keyed(value, f, at, prev.key, j);
    }
  }

  lemma {:induction false} ChosenTopmost(value: RunViews, f: Workflows.Filters, at: Workflows.Authority)
    requires at in Workflows.Run(value, f).latest
    ensures Topmost(value, f, at, Workflows.Run(value, f).latest[at].key)
  {
    Workflows.ChosenIsLatest(value, f, at);
    var key := Workflows.Run(value, f).latest[at].key;
    forall j: nat, other | Keyed(value, f, at, other, j) ensures !Workflows.RunKeyLess(key, other) {
      var w := value[j].value;
      assert value[j] in value;
      Workflows.AttemptMembers(value, f, at, Attempt(w.key, w.verdict));
    }
  }

  lemma {:induction false} FirstKept(value: RunViews, f: Workflows.Filters, at: Workflows.Authority, v: Verdict)
    requires at in Workflows.Run(value, f).latest
    ensures FirstHeld(value, f, at, Workflows.Run(value, f).latest[at], v)
  {
    var n := |value| - 1;
    var t, w := Workflows.Run(value[..n], f), Workflows.Run(value, f).latest[at];
    if at in t.latest {
      FirstKept(value[..n], f, at, v);
      if Workflows.Lands(value[n], f, at) {
        ChosenTopmost(value[..n], f, at);
        FirstReplaced(value, f, at, t.latest[at], v, w);
      } else {
        FirstLater(value, f, at, w, v);
      }
    } else {
      FirstOfAll(value, f, at);
    }
  }

  lemma {:induction false} FirstOfAll(value: RunViews, f: Workflows.Filters, at: Workflows.Authority)
    requires value != [] && Workflows.Lands(value[|value| - 1], f, at)
    requires at !in Workflows.Run(value[..|value| - 1], f).latest
    ensures FirstKeyed(value, f, at, value[|value| - 1].value, |value| - 1)
  {
    var n := |value| - 1;
    Workflows.ChosenIsLatest(value[..n], f, at);
    forall i: nat | i < n ensures !Workflows.Lands(value[i], f, at) {
      if Workflows.Lands(value[i], f, at) {
        var w := value[i].value;
        assert value[..n][i] in value[..n];
        Workflows.AttemptMembers(value[..n], f, at, Attempt(w.key, w.verdict));
      }
    }
  }

  /** Record `j` is the first of the newest runs asked about, which all tell the same. */
  ghost predicate FirstNewest(value: seq<Option<Record>>, f: Workflows.Filters, at: Workflows.Authority,
                              a: Attempt<Workflows.RunKey>, j: nat)
  {
    && Tells(value, f, at, a, j)
    && forall b, n: nat :: Tells(value, f, at, b, n) ==> !Older(a.key, b.key) && (b.key == a.key ==> b == a && j <= n)
  }

  lemma {:induction false} FirstNewestKeyed(value: seq<Option<Record>>, f: Workflows.Filters,
                                            at: Workflows.Authority, a: Attempt<Workflows.RunKey>, j: nat, n: nat)
    requires FirstNewest(value, f, at, a, j) && Keyed(Workflows.Views(value), f, at, a.key, n)
    ensures Workflows.Views(value)[n].value.verdict == a.verdict && j <= n
  {
    TellsExact(value, f, at, Attempt(a.key, Workflows.Views(value)[n].value.verdict), n);
  }

  /** The key held is that of the newest runs. */
  lemma {:induction false} NewestHeld(value: seq<Option<Record>>, f: Workflows.Filters, at: Workflows.Authority,
                                      a: Attempt<Workflows.RunKey>, j: nat, views: RunViews)
    requires views == Workflows.Views(value) && FirstNewest(value, f, at, a, j)
    requires at in Workflows.Run(views, f).latest
    ensures Workflows.Run(views, f).latest[at].key == a.key
  {
    Workflows.RunKeyOrder();
    Workflows.ChosenIsLatest(views, f, at);
    AttemptsTold(value, f, at, a);
    var key := Workflows.Run(views, f).latest[at].key;
    assert a in Workflows.Attempts(views, f, at) && !Workflows.RunKeyLess(key, a.key);
    var b :| b in Workflows.Attempts(views, f, at) && b.key == key;
    AttemptsTold(value, f, at, b);
    var n: nat :| Tells(value, f, at, b, n);
    OlderExact(a.key, key);
  }

  lemma {:induction false} RunHeldFor(value: seq<Option<Record>>, f: Workflows.Filters, at: Workflows.Authority,
                                      i: nat)
    requires ReturnedFor(value, f, at, i)
    ensures at in Workflows.Run(Workflows.Views(value), f).latest
    ensures Workflows.Returned(value, f)[i] == Workflows.Run(Workflows.Views(value), f).latest[at].raw
  {
    ReturnedForExact(value, f, at, i);
    Workflows.RunConsistent(Workflows.Views(value), f);
  }

  lemma {:induction false} HeldIsFirst(value: RunViews, f: Workflows.Filters, at: Workflows.Authority,
                                       w: Workflows.WorkflowRun, v: Verdict, j: nat)
    requires FirstHeld(value, f, at, w, v) && Keyed(value, f, at, w.key, j)
    requires forall n: nat :: Keyed(value, f, at, w.key, n) ==> value[n].value.verdict == v && j <= n
    ensures w == value[j].value
  {
    assert AllSay(value, f, at, w.key, v);
    var n: nat :| FirstKeyed(value, f, at, w, n);
  }

  lemma {:induction false} FirstNewestViewed(value: seq<Option<Record>>, f: Workflows.Filters,
                                             at: Workflows.Authority, a: Attempt<Workflows.RunKey>, j: nat,
                                             views: RunViews)
    requires views == Workflows.Views(value) && FirstNewest(value, f, at, a, j)
    ensures Keyed(views, f, at, a.key, j) && views[j].value.raw == value[j].value
    ensures forall n: nat :: Keyed(views, f, at, a.key, n) ==> views[n].value.verdict == a.verdict && j <= n
  {
    TellsExact(value, f, at, a, j);
    forall n: nat | Keyed(views, f, at, a.key, n) ensures views[n].value.verdict == a.verdict && j <= n {
      FirstNewestKeyed(value, f, at, a, j, n);
    }
  }

  /** Where the newest runs of a workflow at a head tell the same, the record returned is the first of them. */
  lemma {:induction false} ReturnedRunIsFirst(value: seq<Option<Record>>, f: Workflows.Filters,
                                              at: Workflows.Authority, i: nat, a: Attempt<Workflows.RunKey>, j: nat)
    requires ReturnedFor(value, f, at, i) && FirstNewest(value, f, at, a, j)
    ensures Workflows.Returned(value, f)[i] == value[j].value
  {
    var views := Workflows.Views(value);
    RunHeldFor(value, f, at, i);
    NewestHeld(value, f, at, a, j, views);
    FirstKept(views, f, at, a.verdict);
    FirstNewestViewed(value, f, at, a, j, views);
    HeldIsFirst(views, f, at, Workflows.Run(views, f).latest[at], a.verdict, j);
  }
}
