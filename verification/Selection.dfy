/**
Latest-attempt selection over CI check rollups and workflow runs, and the
three-state classification of what was selected.
*/
module Selection {
  import opened Text
  import opened Reading

  // --------------------------------------------------- the order-free specification

  /** What a check says: its status and its conclusion (or state). */
  datatype Verdict = Verdict(status: string, conclusion: string)

  const AMBIGUOUS := Verdict("AMBIGUOUS", "")

  /** One attempt: how new it is and what it says. */
  datatype Attempt<K> = Attempt(key: K, verdict: Verdict)

  ghost predicate StrictTotal<K(!new)>(less: (K, K) -> bool) {
    && (forall a :: !less(a, a))
    && (forall a, b, c :: less(a, b) && less(b, c) ==> less(a, c))
    && (forall a, b :: a != b ==> less(a, b) || less(b, a))
  }

  /** `best` is the newest key among the attempts, with the common verdict of all attempts at that key,
      or the ambiguous verdict when they disagree.  Nothing here depends on order or repetition. */
  ghost predicate IsLatest<K(!new)>(best: Attempt<K>, attempts: seq<Attempt<K>>, less: (K, K) -> bool) {
    && (exists a <- attempts :: a.key == best.key)
    && (forall a <- attempts :: !less(best.key, a.key))
    && ((forall a <- attempts :: a.key == best.key ==> a.verdict == best.verdict)
        || (best.verdict == AMBIGUOUS && Contrary(best.key, attempts)))
  }

  ghost predicate Contrary<K(!new)>(key: K, attempts: seq<Attempt<K>>) {
    exists a <- attempts, b <- attempts :: a.key == key && b.key == key && a.verdict != b.verdict
  }

  function Merge<K(==)>(best: Attempt<K>, a: Attempt<K>, less: (K, K) -> bool): (r: Attempt<K>) {
    if less(best.key, a.key) then a
    else if best.key == a.key && best.verdict != a.verdict then Attempt(best.key, AMBIGUOUS)
    else best
  }

  function Fold<K(==)>(attempts: seq<Attempt<K>>, less: (K, K) -> bool): (best: Attempt<K>)
    requires attempts != []
  {
    if |attempts| == 1 then attempts[0]
    else Merge(Fold(attempts[..|attempts| - 1], less), attempts[|attempts| - 1], less)
  }

  lemma {:induction false} FoldIsLatest<K(!new)>(attempts: seq<Attempt<K>>, less: (K, K) -> bool)
    requires attempts != [] && StrictTotal(less)
    ensures IsLatest(Fold(attempts, less), attempts, less)
  {
    if |attempts| == 1 {
      assert attempts[0] in attempts;
    } else {
      var n := |attempts| - 1;
      FoldIsLatest(attempts[..n], less);
      assert attempts == attempts[..n] + [attempts[n]];
      MergeIsLatest(Fold(attempts[..n], less), attempts[..n], attempts[n], less);
    }
  }

  lemma {:induction false} MergeIsLatest<K(!new)>(best: Attempt<K>, attempts: seq<Attempt<K>>, a: Attempt<K>,
                                                  less: (K, K) -> bool)
    requires StrictTotal(less) && IsLatest(best, attempts, less)
    ensures IsLatest(Merge(best, a, less), attempts + [a], less)
  {
    var all := attempts + [a];
    assert a in all;
    if less(best.key, a.key) {
      forall x <- all ensures !less(a.key, x.key) && (x.key == a.key ==> x == a) {
        if x in attempts {
          assert !less(best.key, x.key);
        }
      }
    } else {
      var known :| known in attempts && known.key == best.key;
      assert known in all;
      forall x <- all ensures !less(best.key, x.key) {
      }
      if best.key == a.key && best.verdict != a.verdict {
        MergeContrary(best, attempts, a, known);
      } else if best.verdict == AMBIGUOUS && Contrary(best.key, attempts) {
        var x, y :| x in attempts && y in attempts && x.key == best.key && y.key == best.key && x.verdict != y.verdict;
        assert x in all && y in all;
      }
    }
  }

  lemma {:induction false} MergeContrary<K(!new)>(best: Attempt<K>, attempts: seq<Attempt<K>>, a: Attempt<K>,
                                                  known: Attempt<K>)
    requires known in attempts && known.key == best.key == a.key && best.verdict != a.verdict
    requires (forall x <- attempts :: x.key == best.key ==> x.verdict == best.verdict) || Contrary(best.key, attempts)
    ensures Contrary(best.key, attempts + [a])
  {
    var all := attempts + [a];
    assert a in all && known in all;
    if Contrary(best.key, attempts) {
      var x, y :| x in attempts && y in attempts && x.key == best.key && y.key == best.key && x.verdict != y.verdict;
      assert x in all && y in all;
    } else {
      assert known.verdict != a.verdict;
    }
  }

  /** The specification admits only one answer, and only the set of attempts matters. */
  lemma {:induction false} LatestUnique<K(!new)>(b1: Attempt<K>, a1: seq<Attempt<K>>, b2: Attempt<K>,
                                                 a2: seq<Attempt<K>>, less: (K, K) -> bool)
    requires StrictTotal(less) && IsLatest(b1, a1, less) && IsLatest(b2, a2, less)
    requires forall a :: a in a1 <==> a in a2
    ensures b1 == b2
  {
    var x :| x in a1 && x.key == b1.key;
    var y :| y in a2 && y.key == b2.key;
    assert !less(b1.key, y.key) && !less(b2.key, x.key);
    assert b1.key == b2.key;
    if forall a <- a1 :: a.key == b1.key ==> a.verdict == b1.verdict {
      assert !Contrary(b1.key, a2);
    } else {
      assert Contrary(b1.key, a1);
      var p, q :| p in a1 && q in a1 && p.key == b1.key && q.key == b1.key && p.verdict != q.verdict;
      assert p in a2 && q in a2;
    }
  }

  // ------------------------------------------------------------------- records

  /** A JSON object whose scalars are rendered as text; a falsy value is absent or empty. */
  type Record = map<string, string>

  function Get(r: Record, key: string): (v: string) {
    if key in r then r[key] else ""
  }

  /** `r.get(k0) or r.get(k1) or ...`, before stripping. */
  function FirstOf(r: Record, keys: seq<string>): (v: string) {
    if keys == [] then ""
    else if Get(r, keys[0]) != "" then Get(r, keys[0])
    else FirstOf(r, keys[1..])
  }

  function Context(r: Record): (v: string) {
    Strip(FirstOf(r, ["name", "context"]))
  }

  function Head(r: Record): (v: string) {
    Strip(FirstOf(r, ["headSha", "head_sha", "headRefOid"]))
  }

  function TakeDigits(s: string): (n: nat)
    ensures n <= |s| && forall i :: 0 <= i < n ==> IsDigit(s[i])
    ensures n < |s| ==> !IsDigit(s[n])
  {
    if s != "" && IsDigit(s[0]) then 1 + TakeDigits(s[1..]) else 0
  }

  /** The run number after `/actions/runs/` when it ends the text or is followed by a slash. */
  function RunAt(s: string): (r: Option<nat>) {
    var prefix := "/actions/runs/";
    if prefix <= s then
      var rest := s[|prefix|..];
      var n := TakeDigits(rest);
      if n > 0 && (n == |rest| || rest[n] == '/') then ParseDigits(rest[..n], 0, false) else None
    else None
  }

  /** The first run number anywhere in a URL. */
  function FindRun(url: string): (r: Option<nat>) {
    if url == "" then None
    else if RunAt(url).Some? then RunAt(url)
    else FindRun(url[1..])
  }

  function RunId(r: Record): (id: int) {
    if Get(r, "runId") != "" && ParseInt(Get(r, "runId")).Some? then ParseInt(Get(r, "runId")).value
    else if Get(r, "run_id") != "" && ParseInt(Get(r, "run_id")).Some? then ParseInt(Get(r, "run_id")).value
    else
      var found := FindRun(Strip(FirstOf(r, ["detailsUrl", "details_url", "url", "html_url"])));
      if found.Some? then found.value else 0
  }

  function FirstTime(r: Record, keys: seq<string>): (v: string) {
    if keys == [] then ""
    else
      var v := Strip(Get(r, keys[0]));
      if v != "" && !("0001-01-01" <= v) then v else FirstTime(r, keys[1..])
  }

  /** Newness of a check: Actions run id first, then timestamp. */
  datatype Stamp = Stamp(runId: int, time: string)

  predicate StampLess(a: Stamp, b: Stamp) {
    a.runId < b.runId || (a.runId == b.runId && StrLess(a.time, b.time))
  }

  function StampOf(r: Record): (s: Stamp) {
    Stamp(RunId(r), FirstTime(r, ["createdAt", "created_at", "startedAt", "started_at", "completedAt"]))
  }

  /** Everything selection reads of a check, with the record itself. */
  datatype Check = Check(raw: Record, context: string, head: string, stamp: Stamp, verdict: Verdict)

  function ViewOf(r: Record): (c: Check) {
    Check(r, Context(r), Head(r), StampOf(r),
          Verdict(Strip(Get(r, "status")), Strip(FirstOf(r, ["conclusion", "state"]))))
  }

  function Views(value: seq<Option<Record>>): (checks: seq<Option<Check>>)
    ensures |checks| == |value|
    ensures forall i :: 0 <= i < |value| ==> checks[i]
                                               == (if value[i].Some? then Some(ViewOf(value[i].value)) else None)
  {
    seq(|value|, i requires 0 <= i < |value| => if value[i].Some? then Some(ViewOf(value[i].value)) else None)
  }

  const SELECTION_ERROR := "duplicate check context has equal ordering identity and contrary verdicts"

  function AmbiguousCheck(context: string): (r: Record) {
    map["name" := context, "status" := "AMBIGUOUS", "conclusion" := "", "_selectionError" := SELECTION_ERROR]
  }

  function AmbiguousView(context: string): (c: Check) {
    Check(AmbiguousCheck(context), context, "", Stamp(0, ""), AMBIGUOUS)
  }

  lemma {:induction false} MissingAll(r: Record, keys: seq<string>)
    requires forall k <- keys :: Get(r, k) == ""
    ensures FirstOf(r, keys) == "" && FirstTime(r, keys) == ""
  {
    if keys != [] {
      MissingAll(r, keys[1..]);
      assert keys[0] in keys;
    }
  }

  lemma {:induction false} AmbiguousKeys(context: string, k: string)
    requires k !in {"name", "status", "_selectionError"}
    ensures Get(AmbiguousCheck(context), k) == ""
  {
  }

  lemma {:induction false} AmbiguousHead(context: string)
    ensures Head(AmbiguousCheck(context)) == ""
  {
    var r := AmbiguousCheck(context);
    AmbiguousKeys(context, "headSha");
    AmbiguousKeys(context, "head_sha");
    AmbiguousKeys(context, "headRefOid");
    MissingAll(r, ["headSha", "head_sha", "headRefOid"]);
  }

  lemma {:induction false} AmbiguousStamp(context: string)
    ensures StampOf(AmbiguousCheck(context)) == Stamp(0, "")
  {
    var r := AmbiguousCheck(context);
    assert Get(r, "createdAt") == "" && Get(r, "created_at") == "" && Get(r, "startedAt") == "" by {
      AmbiguousKeys(context, "createdAt"); AmbiguousKeys(context, "created_at"); AmbiguousKeys(context, "startedAt");
    }
    assert Get(r, "started_at") == "" && Get(r, "completedAt") == "" by {
      AmbiguousKeys(context, "started_at"); AmbiguousKeys(context, "completedAt");
    }
    MissingAll(r, ["createdAt", "created_at", "startedAt", "started_at", "completedAt"]);
    AmbiguousRunId(context);
  }

  lemma {:induction false} AmbiguousRunId(context: string)
    ensures RunId(AmbiguousCheck(context)) == 0
  {
    var r := AmbiguousCheck(context);
    AmbiguousKeys(context, "runId"); AmbiguousKeys(context, "run_id");
    assert Get(r, "detailsUrl") == "" && Get(r, "details_url") == "" && Get(r, "url") == ""
           && Get(r, "html_url") == "" by {
      AmbiguousKeys(context, "detailsUrl"); AmbiguousKeys(context, "details_url");
      AmbiguousKeys(context, "url"); AmbiguousKeys(context, "html_url");
    }
    MissingAll(r, ["detailsUrl", "details_url", "url", "html_url"]);
    assert FindRun("") == None;
  }

  lemma {:induction false} AmbiguousVerdict(context: string)
    ensures ViewOf(AmbiguousCheck(context)).verdict == AMBIGUOUS
  {
    var r := AmbiguousCheck(context);
    AmbiguousKeys(context, "conclusion");
    AmbiguousKeys(context, "state");
    MissingAll(r, ["conclusion", "state"]);
    assert Get(r, "status") == "AMBIGUOUS";
    assert Strip("AMBIGUOUS") == "AMBIGUOUS";
  }

  /** Reading the ambiguity marker back gives its context, no head, the oldest stamp and the ambiguous verdict. */
  lemma {:induction false} AmbiguousViewed(context: string)
    requires context != "" && Strip(context) == context
    ensures ViewOf(AmbiguousCheck(context)) == AmbiguousView(context)
  {
    AmbiguousHead(context);
    AmbiguousStamp(context);
    AmbiguousVerdict(context);
    assert Get(AmbiguousCheck(context), "name") == context;
  }

  lemma {:induction false} StrLessOrder()
    ensures StrictTotal(StrLess)
  {
    forall a, b, c ensures StrLess(a, b) && StrLess(b, c) ==> StrLess(a, c) {
      if StrLess(a, b) && StrLess(b, c) {
        StrLeTransitive(a, b, c);
        if a == c { StrLeAntisymmetric(a, b); }
      }
    }
    forall a: string, b: string ensures a != b ==> StrLess(a, b) || StrLess(b, a) {
      StrLeTotal(a, b);
    }
  }

  lemma {:induction false} StampOrder()
    ensures StrictTotal(StampLess)
  {
    StrLessOrder();
    forall a, b, c ensures StampLess(a, b) && StampLess(b, c) ==> StampLess(a, c) {
      assert StrLess(a.time, b.time) && StrLess(b.time, c.time) ==> StrLess(a.time, c.time);
    }
    forall a: Stamp, b: Stamp ensures a != b ==> StampLess(a, b) || StampLess(b, a) {
      assert a.time != b.time ==> StrLess(a.time, b.time) || StrLess(b.time, a.time);
    }
  }

  // ---------------------------------------------------------------- check selection

  /** A named context, or the position of a nameless entry, which never collides. */
  datatype Slot = Named(context: string) | Unnamed(index: nat)

  datatype Entry = Entry(stamp: Stamp, index: nat, check: Check)

  datatype State = State(latest: map<Slot, Entry>, order: seq<Slot>)

  predicate Eligible(c: Check, headSha: string) {
    headSha == "" || c.head == "" || c.head == headSha
  }

  function SlotOf(index: nat, c: Check): (s: Slot) {
    if c.context != "" then Named(c.context) else Unnamed(index)
  }

  /** The replacement rule for a slot that already holds an entry. */
  function Replace(prev: Entry, index: nat, c: Check): (e: Entry) {
    if StampLess(prev.stamp, c.stamp) then Entry(c.stamp, index, c)
    else if c.stamp != prev.stamp then prev
    else if prev.check.verdict != c.verdict then
      Entry(c.stamp, if prev.index > index then prev.index else index, AmbiguousView(c.context))
    else if index > prev.index then Entry(c.stamp, index, c)
    else prev
  }

  predicate Lands(raw: Option<Check>, headSha: string, index: nat, slot: Slot) {
    raw.Some? && Eligible(raw.value, headSha) && SlotOf(index, raw.value) == slot
  }

  function Step(st: State, index: nat, raw: Option<Check>, headSha: string): (r: State) {
    if raw.None? || !Eligible(raw.value, headSha) then st
    else
      var slot := SlotOf(index, raw.value);
      if slot in st.latest then st.(latest := st.latest[slot := Replace(st.latest[slot], index, raw.value)])
      else State(st.latest[slot := Entry(raw.value.stamp, index, raw.value)], st.order + [slot])
  }

  function Run(value: seq<Option<Check>>, headSha: string): (st: State) {
    if value == [] then State(map[], [])
    else Step(Run(value[..|value| - 1], headSha), |value| - 1, value[|value| - 1], headSha)
  }

  function Output(st: State): (out: seq<Check>)
    requires forall s <- st.order :: s in st.latest
    ensures |out| == |st.order|
    ensures forall i :: 0 <= i < |out| ==> st.order[i] in st.latest && out[i] == st.latest[st.order[i]].check
  {
    seq(|st.order|, i requires 0 <= i < |st.order| => assert st.order[i] in st.order; st.latest[st.order[i]].check)
  }

  /** The eligible attempts for one slot, in input order. */
  function Attempts(value: seq<Option<Check>>, headSha: string, slot: Slot): (a: seq<Attempt<Stamp>>) {
    if value == [] then []
    else
      var n := |value| - 1;
      Attempts(value[..n], headSha, slot)
      + (if Lands(value[n], headSha, n, slot) then [Attempt(value[n].value.stamp, value[n].value.verdict)] else [])
  }

  function EntryAttempt(e: Entry): (a: Attempt<Stamp>) {
    Attempt(e.stamp, e.check.verdict)
  }

  ghost predicate Distinct<T>(xs: seq<T>) {
    forall i, j :: 0 <= i < j < |xs| ==> xs[i] != xs[j]
  }

  /** The selected check belongs to its slot and to the requested head. */
  ghost predicate Sourced(e: Entry, slot: Slot, headSha: string, n: nat) {
    && e.index < n && Eligible(e.check, headSha)
    && match slot
       case Named(k) => k != "" && e.check.context == k
       case Unnamed(i) => e.check.context == "" && e.index == i
  }

  ghost predicate Holds(st: State, value: seq<Option<Check>>, headSha: string, s: Slot) {
    && (s in st.latest <==> Attempts(value, headSha, s) != [])
    && (s in st.latest ==> Sourced(st.latest[s], s, headSha, |value|)
                           && EntryAttempt(st.latest[s]) == Fold(Attempts(value, headSha, s), StampLess))
  }

  ghost predicate Consistent(st: State, value: seq<Option<Check>>, headSha: string) {
    && Distinct(st.order)
    && (forall s :: s in st.latest <==> s in st.order)
    && (forall s :: Holds(st, value, headSha, s))
  }

  lemma {:induction false} ReplaceMerges(prev: Entry, slot: Slot, index: nat, c: Check, headSha: string)
    requires Sourced(prev, slot, headSha, index) && slot == SlotOf(index, c) && Eligible(c, headSha)
    ensures EntryAttempt(Replace(prev, index, c)) == Merge(EntryAttempt(prev), Attempt(c.stamp, c.verdict), StampLess)
    ensures Sourced(Replace(prev, index, c), slot, headSha, index + 1)
  {
  }

  lemma {:induction false} FoldStep<K(!new)>(attempts: seq<Attempt<K>>, a: Attempt<K>, less: (K, K) -> bool)
    ensures attempts == [] ==> Fold(attempts + [a], less) == a
    ensures attempts != [] ==> Fold(attempts + [a], less) == Merge(Fold(attempts, less), a, less)
  {
    assert (attempts + [a])[..|attempts|] == attempts;
  }

  lemma {:induction false} HoldsStep(st: State, value: seq<Option<Check>>, headSha: string, s: Slot)
    requires value != [] && Holds(st, value[..|value| - 1], headSha, s)
    ensures Holds(Step(st, |value| - 1, value[|value| - 1], headSha), value, headSha, s)
  {
    var n := |value| - 1;
    var raw := value[n];
    if Lands(raw, headSha, n, s) {
      FoldStep(Attempts(value[..n], headSha, s), Attempt(raw.value.stamp, raw.value.verdict), StampLess);
      if s in st.latest {
        ReplaceMerges(st.latest[s], s, n, raw.value, headSha);
      }
    } else {
      assert Attempts(value, headSha, s) == Attempts(value[..n], headSha, s);
    }
  }

  lemma {:induction false} ConsistentStep(st: State, value: seq<Option<Check>>, headSha: string)
    requires value != [] && Consistent(st, value[..|value| - 1], headSha)
    ensures Consistent(Step(st, |value| - 1, value[|value| - 1], headSha), value, headSha)
  {
    var st' := Step(st, |value| - 1, value[|value| - 1], headSha);
    forall s ensures Holds(st', value, headSha, s) {
      HoldsStep(st, value, headSha, s);
    }
  }

  /** The loop's dictionary holds, for every slot, exactly the fold of that slot's attempts. */
  lemma {:induction false} RunConsistent(value: seq<Option<Check>>, headSha: string)
    ensures Consistent(Run(value, headSha), value, headSha)
  {
    if value != [] {
      RunConsistent(value[..|value| - 1], headSha);
      ConsistentStep(Run(value[..|value| - 1], headSha), value, headSha);
    }
  }

  function Selected(value: seq<Option<Check>>, headSha: string): (out: seq<Check>) {
    RunConsistent(value, headSha);
    Output(Run(value, headSha))
  }

  function Raws(checks: seq<Check>): (records: seq<Record>)
    ensures |records| == |checks|
    ensures forall i :: 0 <= i < |checks| ==> records[i] == checks[i].raw
  {
    seq(|checks|, i requires 0 <= i < |checks| => checks[i].raw)
  }

  /** The selection loop over the entries as it reads them. */
  method SelectViews(views: seq<Option<Check>>, headSha: string) returns (out: seq<Check>)
    ensures out == Selected(views, headSha)
  {
    var latest: map<Slot, Entry>, order: seq<Slot> := map[], [];
    for i := 0 to |views|
      invariant State(latest, order) == Run(views[..i], headSha)
    {
      assert views[..i + 1][..i] == views[..i];
      if views[i].Some? {
        var check := views[i].value;
        if !(headSha != "" && check.head != "" && check.head != headSha) {
          var slot := SlotOf(i, check);
          if slot !in latest {
            order := order + [slot];
            latest := latest[slot := Entry(check.stamp, i, check)];
          } else {
            latest := latest[slot := Replace(latest[slot], i, check)];
          }
        }
      }
    }
    assert views[..|views|] == views;
    RunConsistent(views, headSha);
    out := [];
    for i := 0 to |order|
      invariant out == Selected(views, headSha)[..i]
    {
      assert order[i] in order;
      out := out + [latest[order[i]].check];
    }
  }

  method SelectLatestChecks(value: seq<Option<Record>>, headSha: string) returns (out: seq<Record>)
    ensures out == Raws(Selected(Views(value), headSha))
  {
    var checks := SelectViews(Views(value), headSha);
    out := Raws(checks);
  }

  // ------------------------------------------------------- selection theorems

  /** Membership of an attempt depends only on which entries the input holds, not where. */
  lemma {:induction false} NamedAttempts(value: seq<Option<Check>>, headSha: string, k: string, a: Attempt<Stamp>)
    requires k != ""
    ensures a in Attempts(value, headSha, Named(k)) <==>
            exists c: Check :: Some(c) in value && Eligible(c, headSha) && c.context == k
                && a == Attempt(c.stamp, c.verdict)
  {
    if value != [] {
      var n := |value| - 1;
      NamedAttempts(value[..n], headSha, k, a);
      assert value == value[..n] + [value[n]];
      if Lands(value[n], headSha, n, Named(k)) && a == Attempt(value[n].value.stamp, value[n].value.verdict) {
        assert Some(value[n].value) in value;
      }
    }
  }

  /** What is selected for a named context. */
  ghost function Chosen(value: seq<Option<Check>>, headSha: string, k: string): (a: Option<Attempt<Stamp>>) {
    var st := Run(value, headSha);
    if Named(k) in st.latest then Some(EntryAttempt(st.latest[Named(k)])) else None
  }

  /** Selection refines the order-free specification: what is kept for a context is the newest key with the common
      verdict at that key, or the ambiguous one. */
  lemma {:induction false} ChosenIsLatest(value: seq<Option<Check>>, headSha: string, k: string)
    ensures var attempts := Attempts(value, headSha, Named(k));
            var c := Chosen(value, headSha, k);
            && (c.None? <==> attempts == [])
            && (c.Some? ==> IsLatest(c.value, attempts, StampLess))
  {
    RunConsistent(value, headSha);
    assert Holds(Run(value, headSha), value, headSha, Named(k));
    StampOrder();
    if Attempts(value, headSha, Named(k)) != [] {
      FoldIsLatest(Attempts(value, headSha, Named(k)), StampLess);
    }
  }

  lemma {:induction false} SameAttempts(v1: seq<Option<Check>>, v2: seq<Option<Check>>, headSha: string, k: string)
    requires k != "" && forall x :: x in v1 <==> x in v2
    ensures forall a :: a in Attempts(v1, headSha, Named(k)) <==> a in Attempts(v2, headSha, Named(k))
  {
    forall a ensures a in Attempts(v1, headSha, Named(k)) <==> a in Attempts(v2, headSha, Named(k)) {
      NamedAttempts(v1, headSha, k, a);
      NamedAttempts(v2, headSha, k, a);
    }
  }

  /** What is selected for a context depends only on which entries the rollup holds. */
  lemma {:induction false} SameSetSameChoice(v1: seq<Option<Check>>, v2: seq<Option<Check>>, headSha: string, k: string)
    requires k != "" && forall x :: x in v1 <==> x in v2
    ensures Chosen(v1, headSha, k) == Chosen(v2, headSha, k)
  {
    SameAttempts(v1, v2, headSha, k);
    ChosenIsLatest(v1, headSha, k);
    ChosenIsLatest(v2, headSha, k);
    var a1, a2 := Attempts(v1, headSha, Named(k)), Attempts(v2, headSha, Named(k));
    assert a1 != [] ==> a1[0] in a2;
    assert a2 != [] ==> a2[0] in a1;
    if a1 != [] {
      StampOrder();
      LatestUnique(Chosen(v1, headSha, k).value, a1, Chosen(v2, headSha, k).value, a2, StampLess);
    }
  }

  /** No permutation of the rollup changes what is selected for any context. */
  lemma {:induction false} SelectionIgnoresOrder(v1: seq<Option<Check>>, v2: seq<Option<Check>>, headSha: string,
                                                 k: string)
    requires multiset(v1) == multiset(v2) && k != ""
    ensures Chosen(v1, headSha, k) == Chosen(v2, headSha, k)
  {
    assert forall x :: x in v1 <==> x in multiset(v1);
    assert forall x :: x in v2 <==> x in multiset(v2);
    SameSetSameChoice(v1, v2, headSha, k);
  }

  // ------------------------------------------------------------- idempotence

  function Wrap<T>(xs: seq<T>): (r: seq<Option<T>>)
    ensures |r| == |xs| && forall i :: 0 <= i < |xs| ==> r[i] == Some(xs[i])
  {
    seq(|xs|, i requires 0 <= i < |xs| => Some(xs[i]))
  }

  /** A list that selection cannot shrink: every entry eligible, no named context twice. */
  ghost predicate Settled(checks: seq<Check>, headSha: string) {
    && (forall c <- checks :: Eligible(c, headSha))
    && (forall i, j :: 0 <= i < j < |checks| && checks[i].context != "" ==> checks[i].context != checks[j].context)
  }

  ghost predicate Mirrors(st: State, checks: seq<Check>) {
    && |st.order| == |checks|
    && (forall i :: 0 <= i < |checks| ==> st.order[i] == SlotOf(i, checks[i]))
    && (forall s :: s in st.latest <==> s in st.order)
    && (forall i :: 0 <= i < |checks| ==> st.order[i] in st.latest && st.latest[st.order[i]].check == checks[i])
  }

  lemma {:induction false} MirrorsStep(st: State, checks: seq<Check>, c: Check, headSha: string)
    requires Mirrors(st, checks) && Eligible(c, headSha)
    requires forall i :: 0 <= i < |checks| && checks[i].context != "" ==> checks[i].context != c.context
    ensures Mirrors(Step(st, |checks|, Some(c), headSha), checks + [c])
  {
    var slot := SlotOf(|checks|, c);
    assert forall i :: 0 <= i < |checks| ==> st.order[i] != slot;
    var st', all := Step(st, |checks|, Some(c), headSha), checks + [c];
    forall i | 0 <= i < |all|
      ensures st'.order[i] == SlotOf(i, all[i]) && st'.order[i] in st'.latest
              && st'.latest[st'.order[i]].check == all[i]
    {
      if i < |checks| {
        assert st.order[i] in st.order && st'.order[i] == st.order[i];
      }
    }
  }

  lemma {:induction false} RunAppend(checks: seq<Check>, c: Check, headSha: string)
    ensures Run(Wrap(checks + [c]), headSha) == Step(Run(Wrap(checks), headSha), |checks|, Some(c), headSha)
  {
    assert Wrap(checks + [c])[..|checks|] == Wrap(checks);
  }

  lemma {:induction false} SettledRun(checks: seq<Check>, headSha: string)
    requires Settled(checks, headSha)
    ensures Mirrors(Run(Wrap(checks), headSha), checks)
  {
    if checks != [] {
      var n := |checks| - 1;
      var front, last := checks[..n], checks[n];
      assert checks == front + [last];
      SettledRun(front, headSha);
      MirrorsStep(Run(Wrap(front), headSha), front, last, headSha);
      RunAppend(front, last, headSha);
    }
  }

  lemma {:induction false} SettledSelected(checks: seq<Check>, headSha: string)
    requires Settled(checks, headSha)
    ensures Selected(Wrap(checks), headSha) == checks
  {
    SettledRun(checks, headSha);
    RunConsistent(Wrap(checks), headSha);
  }

  lemma {:induction false} SelectionSettles(value: seq<Option<Check>>, headSha: string)
    ensures Settled(Selected(value, headSha), headSha)
  {
    RunConsistent(value, headSha);
    var st, out := Run(value, headSha), Selected(value, headSha);
    forall i | 0 <= i < |out|
      ensures Eligible(out[i], headSha) && (out[i].context != "" ==> st.order[i] == Named(out[i].context))
    {
      assert st.order[i] in st.latest;
      assert Holds(st, value, headSha, st.order[i]);
    }
  }

  /** What holds of every input check, and of the ambiguity markers, holds of everything selected. */
  lemma {:induction false} RunKeeps(value: seq<Option<Check>>, headSha: string, p: Check -> bool)
    requires forall i :: 0 <= i < |value| && value[i].Some? ==> p(value[i].value)
    requires forall i :: 0 <= i < |value| && value[i].Some? && value[i].value.context != ""
               ==> p(AmbiguousView(value[i].value.context))
    ensures forall s :: s in Run(value, headSha).latest ==> p(Run(value, headSha).latest[s].check)
  {
    if value != [] {
      var n := |value| - 1;
      var st := Run(value[..n], headSha);
      RunKeeps(value[..n], headSha, p);
      RunConsistent(value[..n], headSha);
      if value[n].Some? && Eligible(value[n].value, headSha) && SlotOf(n, value[n].value) in st.latest {
        assert Holds(st, value[..n], headSha, SlotOf(n, value[n].value));
      }
    }
  }

  ghost predicate Viewed(c: Check) {
    c == ViewOf(c.raw)
  }

  lemma {:induction false} ViewFacts(r: Record)
    ensures Viewed(ViewOf(r)) && Strip(ViewOf(r).context) == ViewOf(r).context
  {
    StripTrimmed(FirstOf(r, ["name", "context"]));
  }

  lemma {:induction false} SelectedViewed(value: seq<Option<Record>>, headSha: string)
    ensures forall c <- Selected(Views(value), headSha) :: Viewed(c)
  {
    var views := Views(value);
    var p := (c: Check) => Viewed(c);
    forall i | 0 <= i < |views| && views[i].Some?
      ensures p(views[i].value) && (views[i].value.context != "" ==> p(AmbiguousView(views[i].value.context)))
    {
      ViewFacts(value[i].value);
      if views[i].value.context != "" {
        AmbiguousViewed(views[i].value.context);
      }
    }
    RunKeeps(views, headSha, p);
    RunConsistent(views, headSha);
    var st, out := Run(views, headSha), Selected(views, headSha);
    forall i | 0 <= i < |out| ensures Viewed(out[i]) {
      assert st.order[i] in st.latest;
      assert p(st.latest[st.order[i]].check);
    }
  }

  lemma {:induction false} ViewsOfRaws(checks: seq<Check>)
    requires forall c <- checks :: Viewed(c)
    ensures Views(Wrap(Raws(checks))) == Wrap(checks)
  {
    forall i | 0 <= i < |checks| ensures Views(Wrap(Raws(checks)))[i] == Some(checks[i]) {
      assert checks[i] in checks;
    }
  }

  /** Selecting again from what was selected changes nothing, ambiguity markers and nameless entries included. */
  lemma {:induction false} SelectionIdempotent(value: seq<Option<Record>>, headSha: string)
    ensures var out := Raws(Selected(Views(value), headSha));
            Raws(Selected(Views(Wrap(out)), headSha)) == out
  {
    var checks := Selected(Views(value), headSha);
    SelectedViewed(value, headSha);
    ViewsOfRaws(checks);
    SelectionSettles(Views(value), headSha);
    SettledSelected(checks, headSha);
  }

  // ----------------------------------------------------------- classification

  datatype CheckOutcome = PASSED | FAILED | NO_RESULT

  predicate IsFailing(conclusion: string) {
    conclusion == "failure" || conclusion == "timed_out" || conclusion == "error" || conclusion == "startup_failure"
  }

  /** The three-state reading of a check; anything unknown is no result. */
  function Classify(v: Verdict, selfTimeout: bool): (o: CheckOutcome) {
    var status, conclusion := Lower(Strip(v.status)), Lower(Strip(v.conclusion));
    if selfTimeout then FAILED
    else if status != "" && status != "completed" then NO_RESULT
    else if conclusion == "success" then PASSED
    else if IsFailing(conclusion) then FAILED
    else NO_RESULT
  }

  ghost predicate Finished(v: Verdict) {
    AllSpace(v.status) || Reads(v.status, "completed")
  }

  ghost predicate Failing(v: Verdict) {
    || Reads(v.conclusion, "failure") || Reads(v.conclusion, "timed_out") || Reads(v.conclusion, "error")
    || Reads(v.conclusion, "startup_failure")
  }

  /** The three answers: a pass is a finished success, a failure a finished failing conclusion or an own timeout, and
      everything else is no result. */
  lemma {:induction false} ClassifyExact(v: Verdict, timeout: bool)
    ensures Classify(v, timeout) == PASSED <==> !timeout && Finished(v) && Reads(v.conclusion, "success")
    ensures Classify(v, timeout) == FAILED <==> timeout || (Finished(v) && Failing(v))
    ensures Classify(v, timeout) == NO_RESULT <==>
            !timeout && (!Finished(v) || (!Reads(v.conclusion, "success") && !Failing(v)))
  {
    StatusReads(v.status);
    ConclusionReads(v.conclusion);
  }

  lemma {:induction false} StatusReads(status: string)
    ensures Lower(Strip(status)) == "" <==> AllSpace(status)
    ensures Lower(Strip(status)) == "completed" <==> Reads(status, "completed")
  {
    BlankExact(status);
    ReadsExact(status, "completed");
  }

  lemma {:induction false} ConclusionReads(conclusion: string)
    ensures Lower(Strip(conclusion)) == "success" <==> Reads(conclusion, "success")
    ensures IsFailing(Lower(Strip(conclusion))) <==> Failing(Verdict("", conclusion))
  {
    ReadsExact(conclusion, "success");
    FailingReads(conclusion);
  }

  lemma {:induction false} FailingReads(conclusion: string)
    ensures IsFailing(Lower(Strip(conclusion))) <==> Failing(Verdict("", conclusion))
  {
    FailureReads(conclusion);
    ErrorReads(conclusion);
  }

  lemma {:induction false} FailureReads(conclusion: string)
    ensures Lower(Strip(conclusion)) == "failure" <==> Reads(conclusion, "failure")
    ensures Lower(Strip(conclusion)) == "timed_out" <==> Reads(conclusion, "timed_out")
  {
    ReadsExact(conclusion, "failure");
    ReadsExact(conclusion, "timed_out");
  }

  lemma {:induction false} ErrorReads(conclusion: string)
    ensures Lower(Strip(conclusion)) == "error" <==> Reads(conclusion, "error")
    ensures Lower(Strip(conclusion)) == "startup_failure" <==> Reads(conclusion, "startup_failure")
  {
    ReadsExact(conclusion, "error");
    ReadsExact(conclusion, "startup_failure");
  }

  lemma {:induction false} AmbiguousIsNoResult()
    ensures Classify(AMBIGUOUS, false) == NO_RESULT
  {
    assert Strip("AMBIGUOUS") == "AMBIGUOUS";
    assert Lower("AMBIGUOUS")[0] == 'a';
    assert "completed"[0] == 'c';
  }

  /** If the newest attempts for a context disagree, what is selected is never a pass or a failure. */
  lemma {:induction false} DisagreementIsNoResult(value: seq<Option<Check>>, headSha: string, k: string)
    requires Chosen(value, headSha, k).Some?
    requires Contrary(Chosen(value, headSha, k).value.key, Attempts(value, headSha, Named(k)))
    ensures Classify(Chosen(value, headSha, k).value.verdict, false) == NO_RESULT
  {
    ChosenIsLatest(value, headSha, k);
    AmbiguousIsNoResult();
  }

  /** A selected pass means every newest attempt for the context finished with that success. */
  lemma {:induction false} PassedIsUnanimous(value: seq<Option<Check>>, headSha: string, k: string, a: Attempt<Stamp>)
    requires Chosen(value, headSha, k).Some? && Classify(Chosen(value, headSha, k).value.verdict, false) == PASSED
    requires a in Attempts(value, headSha, Named(k)) && !StampLess(a.key, Chosen(value, headSha, k).value.key)
    ensures a == Chosen(value, headSha, k).value && Finished(a.verdict) && Reads(a.verdict.conclusion, "success")
  {
    NewestSpeaks(value, headSha, k, a);
    AmbiguousIsNoResult();
    ClassifyExact(a.verdict, false);
  }

  lemma {:induction false} NewestSpeaks(value: seq<Option<Check>>, headSha: string, k: string, a: Attempt<Stamp>)
    requires Chosen(value, headSha, k).Some?
    requires a in Attempts(value, headSha, Named(k)) && !StampLess(a.key, Chosen(value, headSha, k).value.key)
    ensures a == Chosen(value, headSha, k).value || Chosen(value, headSha, k).value.verdict == AMBIGUOUS
  {
    ChosenIsLatest(value, headSha, k);
    StampOrder();
    var best := Chosen(value, headSha, k).value;
    assert !StampLess(best.key, a.key);
    assert a.key == best.key;
  }

  /** A selected failure means every newest attempt for the context finished with that failure. */
  lemma {:induction false} FailureIsUnanimous(value: seq<Option<Check>>, headSha: string, k: string, a: Attempt<Stamp>)
    requires Chosen(value, headSha, k).Some? && Classify(Chosen(value, headSha, k).value.verdict, false) == FAILED
    requires a in Attempts(value, headSha, Named(k)) && !StampLess(a.key, Chosen(value, headSha, k).value.key)
    ensures a == Chosen(value, headSha, k).value && Finished(a.verdict) && Failing(a.verdict)
  {
    NewestSpeaks(value, headSha, k, a);
    AmbiguousIsNoResult();
    ClassifyExact(a.verdict, false);
  }

  // ---------------------------------------------------------- returned records

  lemma {:induction false} SelectedAt(value: seq<Option<Check>>, headSha: string, k: string, i: nat)
    requires k != "" && i < |Selected(value, headSha)|
    ensures Selected(value, headSha)[i].context == k <==> Run(value, headSha).order[i] == Named(k)
    ensures Selected(value, headSha)[i].context == k ==>
              Chosen(value, headSha, k).Some?
                  && Selected(value, headSha)[i].verdict == Chosen(value, headSha, k).value.verdict
  {
    RunConsistent(value, headSha);
    var st := Run(value, headSha);
    assert st.order[i] in st.latest;
    assert Holds(st, value, headSha, st.order[i]);
  }

  /** Of the checks selected, exactly one carries a context that has an eligible attempt, with its chosen verdict. */
  lemma {:induction false} SelectedOnce(value: seq<Option<Check>>, headSha: string, k: string)
    requires k != ""
    ensures var out := Selected(value, headSha);
            && (Attempts(value, headSha, Named(k)) != [] <==> exists i :: 0 <= i < |out| && out[i].context == k)
            && (forall i, j :: 0 <= i < |out| && 0 <= j < |out| && out[i].context == k && out[j].context == k
                  ==> i == j)
            && (forall i :: 0 <= i < |out| && out[i].context == k ==>
                  Chosen(value, headSha, k).Some? && out[i].verdict == Chosen(value, headSha, k).value.verdict)
  {
    RunConsistent(value, headSha);
    var st, out := Run(value, headSha), Selected(value, headSha);
    assert Holds(st, value, headSha, Named(k));
    forall i | 0 <= i < |out|
      ensures out[i].context == k <==> st.order[i] == Named(k)
      ensures out[i].context == k ==> Chosen(value, headSha, k).Some?
                                        && out[i].verdict == Chosen(value, headSha, k).value.verdict
    {
      SelectedAt(value, headSha, k, i);
    }
    if Attempts(value, headSha, Named(k)) != [] {
      var i :| 0 <= i < |st.order| && st.order[i] == Named(k);
      assert out[i].context == k;
    }
  }

  /** What the selector returns. */
  function Returned(value: seq<Option<Record>>, headSha: string): (out: seq<Record>) {
    Raws(Selected(Views(value), headSha))
  }

  lemma {:induction false} ReturnedViews(value: seq<Option<Record>>, headSha: string)
    ensures |Returned(value, headSha)| == |Selected(Views(value), headSha)|
    ensures forall i :: 0 <= i < |Returned(value, headSha)| ==>
              ViewOf(Returned(value, headSha)[i]) == Selected(Views(value), headSha)[i]
  {
    SelectedViewed(value, headSha);
    var checks := Selected(Views(value), headSha);
    forall i | 0 <= i < |checks| ensures ViewOf(checks[i].raw) == checks[i] {
      assert checks[i] in checks;
    }
  }

  /**
   Of the records returned: a context is there exactly when it has an eligible attempt, then exactly once, and its
   record reads as the chosen verdict.
   */
  lemma {:induction false} ReturnedOnce(value: seq<Option<Record>>, headSha: string, k: string)
    requires k != ""
    ensures var out, views := Returned(value, headSha), Views(value);
            && (Attempts(views, headSha, Named(k)) != [] <==> exists i :: 0 <= i < |out| && ViewOf(out[i]).context == k)
            && (forall i, j | 0 <= i < |out| && 0 <= j < |out| ::
                  ViewOf(out[i]).context == k && ViewOf(out[j]).context == k ==> i == j)
            && (forall i :: 0 <= i < |out| && ViewOf(out[i]).context == k ==>
                  Chosen(views, headSha, k).Some? && ViewOf(out[i]).verdict == Chosen(views, headSha, k).value.verdict)
  {
    ReturnedViews(value, headSha);
    SelectedOnce(Views(value), headSha, k);
    SameContexts(Returned(value, headSha), Selected(Views(value), headSha), ViewOf, k);
  }

  /** What is said of the contexts of some checks holds of anything read as them. */
  lemma {:induction false} SameContexts<T>(out: seq<T>, checks: seq<Check>, view: T -> Check, k: string)
    requires |out| == |checks| && forall i :: 0 <= i < |out| ==> view(out[i]) == checks[i]
    ensures (exists i :: 0 <= i < |out| && view(out[i]).context == k) <==>
            exists i :: 0 <= i < |checks| && checks[i].context == k
  {
    if i :| 0 <= i < |checks| && checks[i].context == k {
      assert view(out[i]).context == k;
    }
  }

  lemma {:induction false} ViewsIncluded(v1: seq<Option<Record>>, v2: seq<Option<Record>>, c: Option<Check>)
    requires (forall x :: x in v1 ==> x in v2) && c in Views(v1)
    ensures c in Views(v2)
  {
    var i :| 0 <= i < |Views(v1)| && Views(v1)[i] == c;
    assert v1[i] in v1;
    var j :| 0 <= j < |v2| && v2[j] == v1[i];
    assert Views(v2)[j] == c;
  }

  lemma {:induction false} ViewsPermute(v1: seq<Option<Record>>, v2: seq<Option<Record>>)
    requires multiset(v1) == multiset(v2)
    ensures forall c :: c in Views(v1) <==> c in Views(v2)
  {
    SameMembers(v1, v2);
    forall c ensures c in Views(v1) <==> c in Views(v2) {
      if c in Views(v1) {
        ViewsIncluded(v1, v2, c);
      }
      if c in Views(v2) {
        ViewsIncluded(v2, v1, c);
      }
    }
  }

  lemma {:induction false} SameMembers<T>(a: seq<T>, b: seq<T>)
    requires multiset(a) == multiset(b)
    ensures forall x :: x in a <==> x in b
  {
    assert forall x :: x in a <==> x in multiset(a);
    assert forall x :: x in b <==> x in multiset(b);
  }

  /** However the input is permuted, the records returned for a context read the same verdict. */
  lemma {:induction false} ReturnedIgnoresOrder(v1: seq<Option<Record>>, v2: seq<Option<Record>>, headSha: string,
                                                k: string, i: nat, j: nat)
    requires multiset(v1) == multiset(v2) && k != ""
    requires i < |Returned(v1, headSha)| && ViewOf(Returned(v1, headSha)[i]).context == k
    requires j < |Returned(v2, headSha)| && ViewOf(Returned(v2, headSha)[j]).context == k
    ensures ViewOf(Returned(v1, headSha)[i]).verdict == ViewOf(Returned(v2, headSha)[j]).verdict
  {
    ReturnedOnce(v1, headSha, k);
    ReturnedOnce(v2, headSha, k);
    ViewsPermute(v1, v2);
    SameSetSameChoice(Views(v1), Views(v2), headSha, k);
  }

  /** A record returned for a context whose newest attempts disagree is never a pass or a failure. */
  lemma {:induction false} ReturnedDisagreement(value: seq<Option<Record>>, headSha: string, k: string, i: nat)
    requires k != "" && i < |Returned(value, headSha)| && ViewOf(Returned(value, headSha)[i]).context == k
    requires Chosen(Views(value), headSha, k).Some? ==>
               Contrary(Chosen(Views(value), headSha, k).value.key, Attempts(Views(value), headSha, Named(k)))
    ensures Classify(ViewOf(Returned(value, headSha)[i]).verdict, false) == NO_RESULT
  {
    ReturnedOnce(value, headSha, k);
    DisagreementIsNoResult(Views(value), headSha, k);
  }
}
