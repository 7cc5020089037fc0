/**
What the check selector reads of a record and what it makes of it, said of the record's own fields.
*/
module CheckRecords {
  import opened Text
  import opened Reading
  import opened Selection

  // ------------------------------------------------------------------- fields

  ghost predicate FirstAt(texts: seq<string>, good: string -> bool, v: string, k: nat) {
    k < |texts| && texts[k] == v && good(v) && forall j :: 0 <= j < k ==> !good(texts[j])
  }

  /** The first good text, or nothing. */
  ghost predicate FirstGood(texts: seq<string>, good: string -> bool, v: string) {
    if exists k :: 0 <= k < |texts| && good(texts[k]) then exists k: nat :: FirstAt(texts, good, v, k) else v == ""
  }

  lemma {:induction false} FirstGoodTail(texts: seq<string>, good: string -> bool, v: string)
    requires texts != []
    ensures FirstGood(texts, good, v) <==>
            if good(texts[0]) then v == texts[0] else FirstGood(texts[1..], good, v)
  {
    var tail := texts[1..];
    if good(texts[0]) {
      assert FirstAt(texts, good, texts[0], 0);
      if k: nat :| FirstAt(texts, good, v, k) {
        assert k == 0;
      }
    } else {
      assert forall j :: 0 <= j < |tail| ==> tail[j] == texts[j + 1];
      if k: nat :| FirstAt(texts, good, v, k) {
        LaterFirst(texts, good, v, k - 1);
      }
      if k: nat :| FirstAt(tail, good, v, k) {
        LaterFirst(texts, good, v, k);
      }
      if k :| 0 <= k < |texts| && good(texts[k]) {
        assert good(tail[k - 1]);
      }
    }
  }

  lemma {:induction false} LaterFirst(texts: seq<string>, good: string -> bool, v: string, k: nat)
    requires texts != [] && !good(texts[0])
    ensures FirstAt(texts, good, v, k + 1) <==> FirstAt(texts[1..], good, v, k)
  {
    var tail := texts[1..];
    assert forall j :: 0 < j < |texts| ==> texts[j] == tail[j - 1];
    assert forall j :: 0 <= j < |tail| ==> tail[j] == texts[j + 1];
  }

  function Texts(r: Record, keys: seq<string>): (texts: seq<string>)
    ensures |texts| == |keys| && forall i :: 0 <= i < |keys| ==> texts[i] == Get(r, keys[i])
  {
    seq(|keys|, i requires 0 <= i < |keys| => Get(r, keys[i]))
  }

  function Stripped(texts: seq<string>): (r: seq<string>)
    ensures |r| == |texts| && forall i :: 0 <= i < |texts| ==> r[i] == Strip(texts[i])
  {
    seq(|texts|, i requires 0 <= i < |texts| => Strip(texts[i]))
  }

  predicate Nonempty(text: string) {
    |text| > 0
  }

  /** The text of the first of the keys that has one. */
  ghost predicate FirstText(r: Record, keys: seq<string>, v: string) {
    FirstGood(Texts(r, keys), Nonempty, v)
  }

  lemma {:induction false} FirstOfExact(r: Record, keys: seq<string>, v: string)
    ensures FirstOf(r, keys) == v <==> FirstText(r, keys, v)
  {
    if keys != [] {
      FirstGoodTail(Texts(r, keys), Nonempty, v);
      assert Texts(r, keys)[1..] == Texts(r, keys[1..]);
      FirstOfExact(r, keys[1..], v);
    }
  }

  /** The stripped text of the first of the keys that has one. */
  ghost predicate Says(r: Record, keys: seq<string>, text: string) {
    exists v :: FirstText(r, keys, v) && Strip(v) == text
  }

  lemma {:induction false} SaysExact(r: Record, keys: seq<string>, text: string)
    ensures Strip(FirstOf(r, keys)) == text <==> Says(r, keys, text)
  {
    FirstOfExact(r, keys, FirstOf(r, keys));
    if v :| FirstText(r, keys, v) && Strip(v) == text {
      FirstOfExact(r, keys, v);
    }
  }

  // ---------------------------------------------------------------- run numbers

  const RUN_PATH := "/actions/runs/"

  ghost predicate AllDigits(s: string) {
    forall i :: 0 <= i < |s| ==> IsDigit(s[i])
  }

  /** At `i` stands the path of a run, whose number ends the text or is followed by a slash. */
  ghost predicate RunPathAt(url: string, i: nat, digits: string) {
    && OccursAt(url, RUN_PATH, i) && digits != "" && AllDigits(digits)
    && var from := i + |RUN_PATH|;
       && OccursAt(url, digits, from)
       && (from + |digits| == |url| || url[from + |digits|] == '/')
  }

  ghost predicate NoRunPathBefore(url: string, i: nat) {
    forall j: nat, digits: string :: j < i ==> !RunPathAt(url, j, digits)
  }

  lemma {:induction false} DigitsEnd(rest: string, digits: string)
    requires digits != "" && AllDigits(digits) && OccursAt(rest, digits, 0)
    requires |digits| == |rest| || rest[|digits|] == '/'
    ensures TakeDigits(rest) == |digits|
  {
    forall i | 0 <= i < |digits| ensures IsDigit(rest[i]) {
      assert rest[..|digits|][i] == digits[i];
    }
  }

  lemma {:induction false} RunAtExact(url: string, n: nat)
    ensures RunAt(url) == Some(n) <==> exists digits: string :: RunPathAt(url, 0, digits) && n == Magnitude(digits)
  {
    if digits: string :| RunPathAt(url, 0, digits) && n == Magnitude(digits) {
      var rest := url[|RUN_PATH|..];
      assert url[..|RUN_PATH|] == RUN_PATH;
      assert rest[..|digits|] == digits;
      DigitsEnd(rest, digits);
      DigitsRead(digits);
    }
    if RunAt(url) == Some(n) {
      RunAtPath(url, n);
    }
  }

  lemma {:induction false} DigitsRead(digits: string)
    requires digits != "" && AllDigits(digits)
    ensures ParseDigits(digits, 0, false) == Some(Magnitude(digits))
  {
    DigitsExact(digits);
  }

  lemma {:induction false} RunAtPath(url: string, n: nat)
    requires RunAt(url) == Some(n)
    ensures exists digits: string :: RunPathAt(url, 0, digits) && n == Magnitude(digits)
  {
    var rest := url[|RUN_PATH|..];
    var digits := rest[..TakeDigits(rest)];
    DigitsRead(digits);
    assert url[..|RUN_PATH|] == RUN_PATH;
    assert url[|RUN_PATH|..|RUN_PATH| + |digits|] == digits;
    assert RunPathAt(url, 0, digits);
  }

  lemma {:induction false} PathLater(url: string, i: nat, digits: string)
    requires url != ""
    ensures RunPathAt(url[1..], i, digits) <==> RunPathAt(url, i + 1, digits)
  {
    var tail := url[1..];
    if i + |RUN_PATH| <= |tail| {
      assert tail[i..i + |RUN_PATH|] == url[i + 1..i + 1 + |RUN_PATH|];
      var from := i + |RUN_PATH|;
      if from + |digits| <= |tail| {
        assert tail[from..from + |digits|] == url[from + 1..from + 1 + |digits|];
      }
    }
  }

  /** `i` is the first place a run path stands, with the number `n`. */
  ghost predicate FirstRun(url: string, i: nat, n: nat) {
    NoRunPathBefore(url, i) && exists digits: string :: RunPathAt(url, i, digits) && n == Magnitude(digits)
  }

  lemma {:induction false} FirstRunLater(url: string, i: nat, n: nat)
    requires url != "" && forall digits :: !RunPathAt(url, 0, digits)
    ensures FirstRun(url[1..], i, n) <==> FirstRun(url, i + 1, n)
  {
    forall j: nat, digits ensures RunPathAt(url[1..], j, digits) <==> RunPathAt(url, j + 1, digits) {
      PathLater(url, j, digits);
    }
    if NoRunPathBefore(url[1..], i) {
      forall j: nat, digits | j < i + 1 ensures !RunPathAt(url, j, digits) {
        if j > 0 { assert !RunPathAt(url[1..], j - 1, digits); }
      }
    }
    if NoRunPathBefore(url, i + 1) {
      forall j: nat, digits | j < i ensures !RunPathAt(url[1..], j, digits) {
        assert !RunPathAt(url, j + 1, digits);
      }
    }
  }

  lemma {:induction false} FindRunExact(url: string, n: nat)
    ensures FindRun(url) == Some(n) <==> exists i: nat :: FirstRun(url, i, n)
  {
    if url == "" {
      assert forall i: nat, digits :: !RunPathAt(url, i, digits);
    } else {
      RunAtExact(url, n);
      if exists digits :: RunPathAt(url, 0, digits) {
        var digits :| RunPathAt(url, 0, digits);
        RunAtExact(url, Magnitude(digits));
        assert FirstRun(url, 0, Magnitude(digits));
        forall i: nat | FirstRun(url, i, n) ensures i == 0 {
        }
        if FirstRun(url, 0, n) {
          var other :| RunPathAt(url, 0, other) && n == Magnitude(other);
        }
      } else {
        NoRunHere(url);
        FindRunExact(url[1..], n);
        if i: nat :| FirstRun(url[1..], i, n) {
          FirstRunLater(url, i, n);
        }
        if i: nat :| FirstRun(url, i, n) {
          assert i > 0;
          FirstRunLater(url, i - 1, n);
        }
      }
    }
  }

  lemma {:induction false} NoRunHere(url: string)
    requires forall digits :: !RunPathAt(url, 0, digits)
    ensures RunAt(url) == None
  {
    if RunAt(url).Some? {
      RunAtPath(url, RunAt(url).value);
    }
  }

  /** The first run number in the text; zero when there is none. */
  ghost predicate UrlRun(url: string, n: int) {
    if exists i: nat, m: nat :: FirstRun(url, i, m) then n >= 0 && exists i: nat :: FirstRun(url, i, n) else n == 0
  }

  lemma {:induction false} UrlRunExact(url: string, n: int)
    ensures (if FindRun(url).Some? then FindRun(url).value else 0) == n <==> UrlRun(url, n)
  {
    var found := FindRun(url);
    if found.Some? {
      FindRunExact(url, found.value);
    }
    if i: nat, m: nat :| FirstRun(url, i, m) {
      FindRunExact(url, m);
    }
    if n >= 0 {
      FindRunExact(url, n);
    }
  }

  /** The run number of a record: its own field if that is an integer, else the other, else the one in its address. */
  ghost predicate RunIs(r: Record, n: int) {
    if exists m :: Denotes(Get(r, "runId"), m) then Denotes(Get(r, "runId"), n)
    else if exists m :: Denotes(Get(r, "run_id"), m) then Denotes(Get(r, "run_id"), n)
    else exists url :: Says(r, ["detailsUrl", "details_url", "url", "html_url"], url) && UrlRun(url, n)
  }

  lemma {:induction false} NoNumber(s: string)
    ensures ParseInt(s).Some? <==> exists m :: Denotes(s, m)
  {
    if ParseInt(s).Some? {
      IntExact(s, ParseInt(s).value);
    }
    if m :| Denotes(s, m) {
      IntExact(s, m);
    }
  }

  lemma {:induction false} BlankNumber()
    ensures ParseInt("") == None
  {
  }

  lemma {:induction false} UrlNumber(r: Record, keys: seq<string>, n: int)
    ensures var found := FindRun(Strip(FirstOf(r, keys)));
            (if found.Some? then found.value else 0) == n <==> exists url :: Says(r, keys, url) && UrlRun(url, n)
  {
    var url := Strip(FirstOf(r, keys));
    forall x ensures Says(r, keys, x) <==> x == url {
      SaysExact(r, keys, x);
    }
    UrlRunExact(url, n);
  }

  lemma {:induction false} RunIdExact(r: Record, n: int)
    ensures RunId(r) == n <==> RunIs(r, n)
  {
    BlankNumber();
    NoNumber(Get(r, "runId"));
    NoNumber(Get(r, "run_id"));
    IntExact(Get(r, "runId"), n);
    IntExact(Get(r, "run_id"), n);
    UrlNumber(r, ["detailsUrl", "details_url", "url", "html_url"], n);
  }

  // ---------------------------------------------------------------------- times

  /** A time that says something: not blank, and not the zero date of a queued check. */
  ghost predicate Dated(text: string) {
    text != "" && !OccursAt(text, "0001-01-01", 0)
  }

  /** The first of the keys whose stripped text is a time. */
  ghost predicate TimeIs(r: Record, keys: seq<string>, time: string) {
    FirstGood(Stripped(Texts(r, keys)), Dated, time)
  }

  lemma {:induction false} DatedExact(text: string)
    ensures Dated(text) <==> text != "" && !("0001-01-01" <= text)
  {
    var zero := "0001-01-01";
    if |zero| <= |text| {
      assert text[0..0 + |zero|] == text[..|zero|];
    }
  }

  lemma {:induction false} FirstTimeExact(r: Record, keys: seq<string>, time: string)
    ensures FirstTime(r, keys) == time <==> TimeIs(r, keys, time)
  {
    if keys != [] {
      FirstGoodTail(Stripped(Texts(r, keys)), Dated, time);
      assert Stripped(Texts(r, keys))[1..] == Stripped(Texts(r, keys[1..]));
      DatedExact(Strip(Get(r, keys[0])));
      FirstTimeExact(r, keys[1..], time);
    }
  }

  // ----------------------------------------------------------------- the whole view

  /** What selection reads of a record. */
  ghost predicate Viewing(r: Record, c: Check) {
    && c.raw == r && Says(r, ["name", "context"], c.context) && Says(r, ["headSha", "head_sha", "headRefOid"], c.head)
    && RunIs(r, c.stamp.runId)
    && TimeIs(r, ["createdAt", "created_at", "startedAt", "started_at", "completedAt"], c.stamp.time)
    && c.verdict.status == Strip(Get(r, "status")) && Says(r, ["conclusion", "state"], c.verdict.conclusion)
  }

  lemma {:induction false} ViewExact(r: Record, c: Check)
    ensures ViewOf(r) == c <==> Viewing(r, c)
  {
    SaysExact(r, ["name", "context"], c.context);
    SaysExact(r, ["headSha", "head_sha", "headRefOid"], c.head);
    RunIdExact(r, c.stamp.runId);
    FirstTimeExact(r, ["createdAt", "created_at", "startedAt", "started_at", "completedAt"], c.stamp.time);
    SaysExact(r, ["conclusion", "state"], c.verdict.conclusion);
  }

  /** Newness: the larger run number, and among equals the later time in character order. */
  lemma {:induction false} StampExact(a: Stamp, b: Stamp)
    ensures StampLess(a, b) <==> a.runId < b.runId || (a.runId == b.runId && Before(a.time, b.time))
  {
    StrLessExact(a.time, b.time);
  }

  // --------------------------------------------------------- from records to records

  /** Record `j` is an attempt at the context: an object with that name, at the head asked for if it has one. */
  ghost predicate Competes(value: seq<Option<Record>>, headSha: string, k: string, j: nat) {
    && j < |value| && value[j].Some? && Says(value[j].value, ["name", "context"], k)
    && exists head :: Says(value[j].value, ["headSha", "head_sha", "headRefOid"], head)
                      && (headSha == "" || head == "" || head == headSha)
  }

  lemma {:induction false} HeadAsked(r: Record, headSha: string, said: string)
    requires said == Strip(FirstOf(r, ["headSha", "head_sha", "headRefOid"]))
    ensures (exists head :: Says(r, ["headSha", "head_sha", "headRefOid"], head)
                            && (headSha == "" || head == "" || head == headSha)) <==>
            headSha == "" || said == "" || said == headSha
  {
    SaysExact(r, ["headSha", "head_sha", "headRefOid"], said);
    if head :| Says(r, ["headSha", "head_sha", "headRefOid"], head)
               && (headSha == "" || head == "" || head == headSha) {
      SaysExact(r, ["headSha", "head_sha", "headRefOid"], head);
    }
  }

  lemma {:induction false} CompetesExact(value: seq<Option<Record>>, headSha: string, k: string, j: nat)
    requires k != ""
    ensures Competes(value, headSha, k, j) <==> j < |value| && Lands(Views(value)[j], headSha, j, Named(k))
  {
    if j < |value| && value[j].Some? {
      SaysExact(value[j].value, ["name", "context"], k);
      HeadAsked(value[j].value, headSha, ViewOf(value[j].value).head);
    }
  }

  lemma {:induction false} AttemptsAre(value: seq<Option<Check>>, headSha: string, slot: Slot, a: Attempt<Stamp>)
    ensures a in Attempts(value, headSha, slot) <==>
            exists j: nat :: j < |value| && Lands(value[j], headSha, j, slot)
                             && a == Attempt(value[j].value.stamp, value[j].value.verdict)
  {
    if value != [] {
      var n := |value| - 1;
      AttemptsAre(value[..n], headSha, slot, a);
      if j: nat :| j < n && Lands(value[..n][j], headSha, j, slot)
                   && a == Attempt(value[..n][j].value.stamp, value[..n][j].value.verdict) {
        assert Lands(value[j], headSha, j, slot);
      }
      if j: nat :| j < |value| && Lands(value[j], headSha, j, slot)
                   && a == Attempt(value[j].value.stamp, value[j].value.verdict) {
        if j < n { assert Lands(value[..n][j], headSha, j, slot); }
      }
    }
  }

  /** No attempt at the context is newer than record `j`. */
  ghost predicate Newest(value: seq<Option<Record>>, headSha: string, k: string, j: nat) {
    && Competes(value, headSha, k, j)
    && forall i: nat :: Competes(value, headSha, k, i) ==>
         !StampLess(ViewOf(value[j].value).stamp, ViewOf(value[i].value).stamp)
  }

  lemma {:induction false} NewestAttempt(value: seq<Option<Record>>, headSha: string, k: string, j: nat)
    requires k != "" && Newest(value, headSha, k, j)
    ensures var views, c := Views(value), ViewOf(value[j].value);
            && Chosen(views, headSha, k).Some?
            && Attempt(c.stamp, c.verdict) in Attempts(views, headSha, Named(k))
            && !StampLess(c.stamp, Chosen(views, headSha, k).value.key)
  {
    var views, c := Views(value), ViewOf(value[j].value);
    CompetesExact(value, headSha, k, j);
    AttemptsAre(views, headSha, Named(k), Attempt(c.stamp, c.verdict));
    ChosenIsLatest(views, headSha, k);
    var best := Chosen(views, headSha, k).value;
    var a :| a in Attempts(views, headSha, Named(k)) && a.key == best.key;
    AttemptsAre(views, headSha, Named(k), a);
    var i: nat :| i < |views| && Lands(views[i], headSha, i, Named(k))
                  && a == Attempt(views[i].value.stamp, views[i].value.verdict);
    CompetesExact(value, headSha, k, i);
  }

  /** From the records returned back to the records given: what is returned for a context as a pass or a failure is
      what every newest record of that context says. */
  lemma {:induction false} ReturnedSpeaks(value: seq<Option<Record>>, headSha: string, k: string, i: nat, j: nat,
                                          verdict: Verdict)
    requires k != "" && i < |Returned(value, headSha)| && Says(Returned(value, headSha)[i], ["name", "context"], k)
    requires Newest(value, headSha, k, j) && verdict == ViewOf(Returned(value, headSha)[i]).verdict
    ensures Classify(verdict, false) == PASSED ==>
              var said := ViewOf(value[j].value).verdict;
              said == verdict && Finished(said) && Reads(said.conclusion, "success")
    ensures Classify(verdict, false) == FAILED ==>
              var said := ViewOf(value[j].value).verdict;
              said == verdict && Finished(said) && Failing(said)
  {
    var views, c := Views(value), ViewOf(value[j].value);
    SaysExact(Returned(value, headSha)[i], ["name", "context"], k);
    ReturnedOnce(value, headSha, k);
    NewestAttempt(value, headSha, k, j);
    if Classify(verdict, false) == PASSED {
      PassedIsUnanimous(views, headSha, k, Attempt(c.stamp, c.verdict));
    }
    if Classify(verdict, false) == FAILED {
      FailureIsUnanimous(views, headSha, k, Attempt(c.stamp, c.verdict));
    }
  }

  // --------------------------------------------------------- which record it is

  /** Entry `j` lands in the slot with this stamp. */
  ghost predicate StampedAt(value: seq<Option<Check>>, headSha: string, slot: Slot, stamp: Stamp, j: nat) {
    j < |value| && Lands(value[j], headSha, j, slot) && value[j].value.stamp == stamp
  }

  /** Everything in the slot with this stamp says this verdict. */
  ghost predicate Unanimous(value: seq<Option<Check>>, headSha: string, slot: Slot, stamp: Stamp, v: Verdict) {
    forall j: nat :: StampedAt(value, headSha, slot, stamp, j) ==> value[j].value.verdict == v
  }

  ghost predicate LastStamped(value: seq<Option<Check>>, headSha: string, slot: Slot, stamp: Stamp, j: nat) {
    && StampedAt(value, headSha, slot, stamp, j)
    && forall i: nat :: j < i ==> !StampedAt(value, headSha, slot, stamp, i)
  }

  lemma {:induction false} StampedFront(value: seq<Option<Check>>, headSha: string, slot: Slot, stamp: Stamp)
    requires value != []
    ensures forall j: nat :: j < |value| - 1 ==>
              (StampedAt(value[..|value| - 1], headSha, slot, stamp, j) <==> StampedAt(value, headSha, slot, stamp, j))
  {
    assert forall j :: 0 <= j < |value| - 1 ==> value[..|value| - 1][j] == value[j];
  }

  /** The entry held for a slot is the last of its stamp, where those do not disagree. */
  ghost predicate LastHeld(value: seq<Option<Check>>, headSha: string, slot: Slot, e: Entry, v: Verdict) {
    Unanimous(value, headSha, slot, e.stamp, v) ==>
      LastStamped(value, headSha, slot, e.stamp, e.index) && value[e.index].value == e.check
  }

  lemma {:induction false} LastReplaced(value: seq<Option<Check>>, headSha: string, slot: Slot, prev: Entry,
                                        v: Verdict, e: Entry)
    requires value != [] && LastHeld(value[..|value| - 1], headSha, slot, prev, v)
    requires prev.index < |value| - 1 && Lands(value[|value| - 1], headSha, |value| - 1, slot)
    requires e == Replace(prev, |value| - 1, value[|value| - 1].value)
    ensures LastHeld(value, headSha, slot, e, v)
  {
    var n := |value| - 1;
    StampedFront(value, headSha, slot, e.stamp);
    if Unanimous(value, headSha, slot, e.stamp, v) && e.stamp == prev.stamp {
      assert Unanimous(value[..n], headSha, slot, prev.stamp, v);
      if value[n].value.stamp == prev.stamp {
        assert StampedAt(value, headSha, slot, e.stamp, n) && StampedAt(value, headSha, slot, e.stamp, prev.index);
      }
    }
  }

  lemma {:induction false} LastPassed(value: seq<Option<Check>>, headSha: string, slot: Slot, e: Entry, v: Verdict)
    requires value != [] && LastHeld(value[..|value| - 1], headSha, slot, e, v)
    requires !Lands(value[|value| - 1], headSha, |value| - 1, slot)
    ensures LastHeld(value, headSha, slot, e, v)
  {
    StampedFront(value, headSha, slot, e.stamp);
    if Unanimous(value, headSha, slot, e.stamp, v) {
      assert Unanimous(value[..|value| - 1], headSha, slot, e.stamp, v);
    }
  }

  lemma {:induction false} LastKept(value: seq<Option<Check>>, headSha: string, slot: Slot, v: Verdict)
    requires slot in Run(value, headSha).latest
    ensures LastHeld(value, headSha, slot, Run(value, headSha).latest[slot], v)
  {
    var n := |value| - 1;
    var st, e := Run(value[..n], headSha), Run(value, headSha).latest[slot];
    RunConsistent(value[..n], headSha);
    assert Holds(st, value[..n], headSha, slot);
    if Lands(value[n], headSha, n, slot) {
      if slot in st.latest {
        LastKept(value[..n], headSha, slot, v);
        LastReplaced(value, headSha, slot, st.latest[slot], v, e);
      } else {
        assert StampedAt(value, headSha, slot, e.stamp, n);
      }
    } else {
      LastKept(value[..n], headSha, slot, v);
      LastPassed(value, headSha, slot, e, v);
    }
  }

  /** The newest records of a context are the ones with the chosen stamp. */
  lemma {:induction false} NewestStamped(value: seq<Option<Record>>, headSha: string, k: string, n: nat, stamp: Stamp)
    requires k != "" && Chosen(Views(value), headSha, k).Some? && stamp == Chosen(Views(value), headSha, k).value.key
    ensures Newest(value, headSha, k, n) <==> StampedAt(Views(value), headSha, Named(k), stamp, n)
  {
    var views := Views(value);
    StampOrder();
    ChosenIsLatest(views, headSha, k);
    CompetesExact(value, headSha, k, n);
    if Newest(value, headSha, k, n) {
      var c := ViewOf(value[n].value);
      NewestAttempt(value, headSha, k, n);
      assert !StampLess(stamp, c.stamp) && !StampLess(c.stamp, stamp);
    }
    if StampedAt(views, headSha, Named(k), stamp, n) {
      forall i: nat | Competes(value, headSha, k, i) ensures !StampLess(stamp, ViewOf(value[i].value).stamp) {
        CompetesExact(value, headSha, k, i);
        AttemptsAre(views, headSha, Named(k), Attempt(views[i].value.stamp, views[i].value.verdict));
      }
    }
  }

  lemma {:induction false} HeldFor(value: seq<Option<Record>>, headSha: string, k: string, i: nat)
    requires k != "" && i < |Returned(value, headSha)| && Says(Returned(value, headSha)[i], ["name", "context"], k)
    ensures Named(k) in Run(Views(value), headSha).latest
    ensures Returned(value, headSha)[i] == Run(Views(value), headSha).latest[Named(k)].check.raw
    ensures Run(Views(value), headSha).latest[Named(k)].index < |value|
  {
    var views := Views(value);
    var st := Run(views, headSha);
    SaysExact(Returned(value, headSha)[i], ["name", "context"], k);
    RunConsistent(views, headSha);
    ReturnedViews(value, headSha);
    assert Holds(st, views, headSha, st.order[i]);
  }

  /** Where the newest records of a context agree, the one returned is the last of them. */
  lemma {:induction false} ReturnedIsLast(value: seq<Option<Record>>, headSha: string, k: string, i: nat, j: nat,
                                          v: Verdict)
    requires k != "" && i < |Returned(value, headSha)| && Says(Returned(value, headSha)[i], ["name", "context"], k)
    requires Newest(value, headSha, k, j)
    requires forall n: nat :: Newest(value, headSha, k, n) ==> n <= j && ViewOf(value[n].value).verdict == v
    ensures Returned(value, headSha)[i] == value[j].value
  {
    var views := Views(value);
    HeldFor(value, headSha, k, i);
    NewestAttempt(value, headSha, k, j);
    var e := Run(views, headSha).latest[Named(k)];
    forall n: nat ensures Newest(value, headSha, k, n) <==> StampedAt(views, headSha, Named(k), e.stamp, n) {
      NewestStamped(value, headSha, k, n, e.stamp);
    }
    LastKept(views, headSha, Named(k), v);
    HeldIsLast(views, headSha, Named(k), e, v, j);
  }

  lemma {:induction false} HeldIsLast(value: seq<Option<Check>>, headSha: string, slot: Slot, e: Entry, v: Verdict,
                                      j: nat)
    requires LastHeld(value, headSha, slot, e, v) && StampedAt(value, headSha, slot, e.stamp, j)
    requires forall n: nat :: StampedAt(value, headSha, slot, e.stamp, n) ==> n <= j && value[n].value.verdict == v
    ensures e.check == value[j].value
  {
    assert Unanimous(value, headSha, slot, e.stamp, v);
    assert e.index == j;
  }
}
