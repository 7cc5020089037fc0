/**
Parity of the guest-visible environment block across backends: the raw block as bytes,
the two entry lists, and the exit status over all requested arms.
*/
module EnvBlock {
  import opened Text

  /** Bytes are modelled as characters; an entry is a byte string. */
  type Bytes = string

  const NUL: char := '\0'

  /** The variable name of an entry: everything before the first `=`, or all of it. */
  function KeyOf(entry: Bytes): (k: Bytes)
    ensures '=' !in k && k <= entry && (k == entry || entry[|k|] == '=')
  {
    if entry == [] || entry[0] == '=' then []
    else [entry[0]] + KeyOf(entry[1..])
  }

  predicate Tolerated(entry: Bytes, allowed: seq<string>) {
    KeyOf(entry) in allowed
  }

  // ----------------------------------------------------------- byte stripping

  /** Drops the nonempty tolerated chunks; empty chunks always stay. */
  function Kept(chunks: seq<Bytes>, allowed: seq<string>): (r: seq<Bytes>)
    ensures Free(chunks, NUL) ==> Free(r, NUL)
  {
    if chunks == [] then []
    else
      var n := |chunks| - 1;
      var front := Kept(chunks[..n], allowed);
      if chunks[n] != [] && Tolerated(chunks[n], allowed) then front else front + [chunks[n]]
  }

  function StripBlock(block: Bytes, allowed: seq<string>): (r: Bytes) {
    JoinWith(Kept(SplitOn(block, NUL), allowed), NUL)
  }

  method StripToleratedFromBlock(block: Bytes, allowed: seq<string>) returns (r: Bytes)
    ensures r == StripBlock(block, allowed)
  {
    var chunks := SplitOn(block, NUL);
    var kept: seq<Bytes> := [];
    for i := 0 to |chunks|
      invariant kept == Kept(chunks[..i], allowed)
    {
      assert chunks[..i + 1][..i] == chunks[..i];
      if chunks[i] == [] {
        kept := kept + [chunks[i]];
        continue;
      }
      if KeyOf(chunks[i]) in allowed {
        continue;
      }
      kept := kept + [chunks[i]];
    }
    assert chunks[..|chunks|] == chunks;
    r := JoinWith(kept, NUL);
  }

  lemma {:induction false} KeptAppend(a: seq<Bytes>, b: seq<Bytes>, allowed: seq<string>)
    ensures Kept(a + b, allowed) == Kept(a, allowed) + Kept(b, allowed)
  {
    if b == [] {
      assert a + b == a;
    } else {
      var n := |b| - 1;
      KeptAppend(a, b[..n], allowed);
      assert (a + b)[..|a + b| - 1] == a + b[..n];
    }
  }

  lemma {:induction false} KeptIdempotent(chunks: seq<Bytes>, allowed: seq<string>)
    ensures Kept(Kept(chunks, allowed), allowed) == Kept(chunks, allowed)
  {
    if chunks != [] {
      var n := |chunks| - 1;
      KeptIdempotent(chunks[..n], allowed);
      KeptAppend(Kept(chunks[..n], allowed), [chunks[n]], allowed);
    }
  }

  /** Stripping a stripped block changes nothing, whatever the block. */
  lemma {:induction false} StripIdempotent(block: Bytes, allowed: seq<string>)
    ensures StripBlock(StripBlock(block, allowed), allowed) == StripBlock(block, allowed)
  {
    var kept := Kept(SplitOn(block, NUL), allowed);
    if kept == [] {
      assert Kept([[]], allowed) == [[]];
    } else {
      SplitJoin(kept, NUL);
      KeptIdempotent(SplitOn(block, NUL), allowed);
    }
  }

  /** A kernel block: every entry followed by its NUL. */
  function Encode(entries: seq<Bytes>): (block: Bytes) {
    Terminated(entries, NUL)
  }

  ghost predicate Entries(entries: seq<Bytes>) {
    forall i :: 0 <= i < |entries| ==> entries[i] != [] && NUL !in entries[i]
  }

  /** The entries whose names are not tolerated. */
  function Filter(entries: seq<Bytes>, allowed: seq<string>): (r: seq<Bytes>)
    ensures forall e :: e in r <==> e in entries && !Tolerated(e, allowed)
  {
    if entries == [] then []
    else
      var n := |entries| - 1;
      var front := Filter(entries[..n], allowed);
      if Tolerated(entries[n], allowed) then front else front + [entries[n]]
  }

  lemma {:induction false} KeptIsFilter(entries: seq<Bytes>, allowed: seq<string>)
    requires Entries(entries)
    ensures Kept(entries, allowed) == Filter(entries, allowed)
    ensures Entries(Filter(entries, allowed))
  {
    if entries != [] {
      KeptIsFilter(entries[..|entries| - 1], allowed);
    }
  }

  lemma {:induction false} JoinEnd(parts: seq<Bytes>)
    ensures JoinWith(parts + [[]], NUL) == Terminated(parts, NUL)
  {
    if parts != [] {
      JoinEnd(parts[1..]);
      assert (parts + [[]])[1..] == parts[1..] + [[]];
    }
  }

  /** Stripping the bytes of a well-formed block is encoding the filtered entries. */
  lemma {:induction false} StripCommutes(entries: seq<Bytes>, allowed: seq<string>)
    requires Entries(entries)
    ensures StripBlock(Encode(entries), allowed) == Encode(Filter(entries, allowed))
  {
    SplitTerminated(entries, NUL);
    KeptAppend(entries, [[]], allowed);
    KeptIsFilter(entries, allowed);
    JoinEnd(Filter(entries, allowed));
  }

  // -------------------------------------------------- blanked-in-place blocks

  function Nuls(n: nat): (r: Bytes)
    ensures |r| == n && forall i :: 0 <= i < n ==> r[i] == NUL
  {
    if n == 0 then [] else Nuls(n - 1) + [NUL]
  }

  /** The nonempty chunks, which is what either entry list shows of a block. */
  function Visible(chunks: seq<Bytes>): (r: seq<Bytes>) {
    if chunks == [] then []
    else
      var n := |chunks| - 1;
      Visible(chunks[..n]) + (if chunks[n] == [] then [] else [chunks[n]])
  }

  function EmptyChunks(chunks: seq<Bytes>): (n: nat) {
    if chunks == [] then 0
    else EmptyChunks(chunks[..|chunks| - 1]) + (if chunks[|chunks| - 1] == [] then 1 else 0)
  }

  function TotalLength(chunks: seq<Bytes>): (n: nat) {
    if chunks == [] then 0 else TotalLength(chunks[..|chunks| - 1]) + |chunks[|chunks| - 1]|
  }

  lemma {:induction false} TotalLengthHead(chunks: seq<Bytes>)
    requires chunks != []
    ensures TotalLength(chunks) == |chunks[0]| + TotalLength(chunks[1..])
  {
    if |chunks| > 1 {
      var n := |chunks| - 1;
      TotalLengthHead(chunks[..n]);
      assert chunks[..n][1..] == chunks[1..][..n - 1];
    }
  }

  lemma {:induction false} JoinLength(parts: seq<Bytes>)
    requires parts != []
    ensures |JoinWith(parts, NUL)| == TotalLength(parts) + |parts| - 1
  {
    TotalLengthHead(parts);
    if |parts| > 1 {
      JoinLength(parts[1..]);
    }
  }

  /** What is kept weighs what its visible part weighs, plus the empty chunks. */
  lemma {:induction false} KeptWeight(chunks: seq<Bytes>, allowed: seq<string>)
    ensures |Kept(chunks, allowed)| == |Kept(Visible(chunks), allowed)| + EmptyChunks(chunks)
    ensures TotalLength(Kept(chunks, allowed)) == TotalLength(Kept(Visible(chunks), allowed))
    ensures Visible(Kept(chunks, allowed)) == Kept(Visible(chunks), allowed)
  {
    if chunks != [] {
      var n := |chunks| - 1;
      KeptWeight(chunks[..n], allowed);
      var v := Visible(chunks[..n]);
      if chunks[n] == [] {
        assert v + [] == v;
      } else {
        KeptAppend(v, [chunks[n]], allowed);
      }
      var front := Kept(chunks[..n], allowed);
      assert (front + [chunks[n]])[..|front|] == front;
      var seen := Kept(v, allowed);
      assert (seen + [chunks[n]])[..|seen|] == seen;
      assert seen + [] == seen;
    }
  }

  lemma {:induction false} VisibleEntries(entries: seq<Bytes>)
    requires Entries(entries)
    ensures Visible(entries + [[]]) == entries && EmptyChunks(entries + [[]]) == 1
  {
    NoEmptyEntries(entries);
    assert (entries + [[]])[..|entries|] == entries;
    assert entries + [] == entries;
  }

  lemma {:induction false} NoEmptyEntries(entries: seq<Bytes>)
    requires Entries(entries)
    ensures Visible(entries) == entries && EmptyChunks(entries) == 0
  {
    if entries != [] {
      NoEmptyEntries(entries[..|entries| - 1]);
    }
  }

  /**
   Any block showing the same entries with extra empty chunks differs from the reference after
   stripping, by exactly the number of extra NUL bytes, under every allowlist.
   */
  lemma {:induction false} ExtraNulsAlwaysDiffer(entries: seq<Bytes>, block: Bytes, allowed: seq<string>)
    requires Entries(entries)
    requires Visible(SplitOn(block, NUL)) == entries
    requires EmptyChunks(SplitOn(block, NUL)) > 1
    ensures |StripBlock(block, allowed)| - |StripBlock(Encode(entries), allowed)|
            == EmptyChunks(SplitOn(block, NUL)) - 1
    ensures StripBlock(block, allowed) != StripBlock(Encode(entries), allowed)
  {
    var chunks := SplitOn(block, NUL);
    KeptWeight(chunks, allowed);
    SplitTerminated(entries, NUL);
    VisibleEntries(entries);
    KeptWeight(entries + [[]], allowed);
    JoinLength(Kept(chunks, allowed));
    JoinLength(Kept(entries + [[]], allowed));
  }

  /** Entries before and after a stretch of `n` bytes that were overwritten with NUL. */
  function Blanked(before: seq<Bytes>, n: nat, after: seq<Bytes>): (block: Bytes) {
    Encode(before) + Nuls(n) + Encode(after)
  }

  function Empties(n: nat): (r: seq<Bytes>)
    ensures |r| == n && forall i :: 0 <= i < n ==> r[i] == []
  {
    if n == 0 then [] else Empties(n - 1) + [[]]
  }

  lemma {:induction false} BlankedIsEncoded(before: seq<Bytes>, n: nat, after: seq<Bytes>)
    ensures Blanked(before, n, after) == Encode(before + Empties(n) + after)
  {
    NulsEncoded(n);
    TerminatedAppend(before + Empties(n), after, NUL);
    TerminatedAppend(before, Empties(n), NUL);
  }

  lemma {:induction false} NulsEncoded(n: nat)
    ensures Nuls(n) == Encode(Empties(n))
  {
    if n > 0 {
      NulsEncoded(n - 1);
      TerminatedAppend(Empties(n - 1), [[]], NUL);
    }
  }

  lemma {:induction false} VisibleAppend(a: seq<Bytes>, b: seq<Bytes>)
    ensures Visible(a + b) == Visible(a) + Visible(b)
    ensures EmptyChunks(a + b) == EmptyChunks(a) + EmptyChunks(b)
  {
    if b == [] {
      assert a + b == a;
    } else {
      VisibleAppend(a, b[..|b| - 1]);
      assert (a + b)[..|a + b| - 1] == a + b[..|b| - 1];
    }
  }

  lemma {:induction false} EmptiesCounted(n: nat, allowed: seq<string>)
    ensures Visible(Empties(n)) == [] && EmptyChunks(Empties(n)) == n && Kept(Empties(n), allowed) == Empties(n)
  {
    if n > 0 {
      EmptiesCounted(n - 1, allowed);
      assert Empties(n)[..n - 1] == Empties(n - 1);
    }
  }

  /**
   Blanking bytes in place leaves the visible entries exactly as they were and always makes the
   stripped block longer by the number of blanked bytes.
   */
  lemma {:induction false} BlankingIsCaught(before: seq<Bytes>, n: nat, after: seq<Bytes>, allowed: seq<string>)
    requires n > 0 && Entries(before) && Entries(after)
    ensures Visible(SplitOn(Blanked(before, n, after), NUL)) == before + after
    ensures |StripBlock(Blanked(before, n, after), allowed)| == |StripBlock(Encode(before + after), allowed)| + n
    ensures StripBlock(Blanked(before, n, after), allowed) != StripBlock(Encode(before + after), allowed)
  {
    BlankedShows(before, n, after, allowed);
    ExtraNulsAlwaysDiffer(before + after, Blanked(before, n, after), allowed);
  }

  lemma {:induction false} BlankedShows(before: seq<Bytes>, n: nat, after: seq<Bytes>, allowed: seq<string>)
    requires Entries(before) && Entries(after)
    ensures Visible(SplitOn(Blanked(before, n, after), NUL)) == before + after
    ensures EmptyChunks(SplitOn(Blanked(before, n, after), NUL)) == n + 1
  {
    var parts := before + Empties(n) + after;
    assert SplitOn(Blanked(before, n, after), NUL) == parts + [[]] by {
      BlankedIsEncoded(before, n, after);
      SplitTerminated(parts, NUL);
    }
    EmptiesCounted(n, allowed);
    BlankedChunks(before, Empties(n), after);
    VisibleAppend(parts, [[]]);
    assert Visible([[]]) == [] && EmptyChunks([[]]) == 1;
  }

  lemma {:induction false} BlankedChunks(before: seq<Bytes>, gap: seq<Bytes>, after: seq<Bytes>)
    requires Entries(before) && Entries(after) && Visible(gap) == []
    ensures Visible(before + gap + after) == before + after
    ensures EmptyChunks(before + gap + after) == EmptyChunks(gap)
  {
    VisibleAppend(before + gap, after);
    VisibleAppend(before, gap);
    NoEmptyEntries(before);
    NoEmptyEntries(after);
    assert before + [] == before;
  }

  lemma {:induction false} KeptAround(before: seq<Bytes>, gap: seq<Bytes>, after: seq<Bytes>, allowed: seq<string>)
    requires Entries(before) && Entries(after) && Kept(gap, allowed) == gap
    ensures Kept(before + gap + after + [[]], allowed) == Filter(before, allowed) + gap + Filter(after, allowed) + [[]]
  {
    assert Kept(before + gap, allowed) == Filter(before, allowed) + gap by {
      KeptAppend(before, gap, allowed);
      KeptIsFilter(before, allowed);
    }
    assert Kept(before + gap + after, allowed) == Filter(before, allowed) + gap + Filter(after, allowed) by {
      KeptAppend(before + gap, after, allowed);
      KeptIsFilter(after, allowed);
    }
    KeptAppend(before + gap + after, [[]], allowed);
  }

  /** Stripping commutes with blanking: the blanked stretch survives whole. */
  lemma {:induction false} StripBlanked(before: seq<Bytes>, n: nat, after: seq<Bytes>, allowed: seq<string>)
    requires Entries(before) && Entries(after)
    ensures StripBlock(Blanked(before, n, after), allowed)
            == Blanked(Filter(before, allowed), n, Filter(after, allowed))
  {
    var parts := before + Empties(n) + after;
    assert SplitOn(Blanked(before, n, after), NUL) == parts + [[]] by {
      BlankedIsEncoded(before, n, after);
      SplitTerminated(parts, NUL);
    }
    EmptiesCounted(n, allowed);
    KeptAround(before, Empties(n), after, allowed);
    JoinEnd(Filter(before, allowed) + Empties(n) + Filter(after, allowed));
    BlankedIsEncoded(Filter(before, allowed), n, Filter(after, allowed));
  }

  // --------------------------------------------------------------- NUL runs

  predicate RunAt(block: Bytes, at: int, len: nat) {
    0 <= at && at + len <= |block| && forall i :: at <= i < at + len ==> block[i] == NUL
  }

  ghost predicate HasRun(block: Bytes, len: nat) {
    exists at :: RunAt(block, at, len)
  }

  /** `len` is the greatest run length, and `at` the start of its first occurrence. */
  ghost predicate Longest(block: Bytes, len: nat, at: nat) {
    && RunAt(block, at, len)
    && (forall i, l: nat :: RunAt(block, i, l) ==> l <= len)
    && (forall i :: RunAt(block, i, len) ==> at <= i)
  }

  method LongestNulRun(block: Bytes) returns (bestLen: nat, bestAt: nat)
    ensures Longest(block, bestLen, bestAt)
  {
    var run: nat, start: nat := 0, 0;
    bestLen, bestAt := 0, 0;
    for index := 0 to |block|
      invariant run <= index && RunAt(block[..index], index - run, run)
      invariant run < index ==> block[index - run - 1] != NUL
      invariant run > 0 ==> start == index - run
      invariant run <= bestLen
      invariant Longest(block[..index], bestLen, bestAt)
    {
      RunsGrow(block[..index], block[index], run, bestLen, bestAt);
      assert block[..index + 1] == block[..index] + [block[index]];
      if block[index] == NUL {
        if run == 0 {
          start := index;
        }
        run := run + 1;
        if run > bestLen {
          bestLen, bestAt := run, start;
        }
      } else {
        run := 0;
      }
    }
    assert block[..|block|] == block;
  }

  /** One more byte changes the longest run only when it completes a longer trailing one. */
  lemma {:induction false} RunsGrow(prefix: Bytes, c: char, run: nat, len: nat, at: nat)
    requires run <= |prefix| && RunAt(prefix, |prefix| - run, run) && run <= len
    requires run < |prefix| ==> prefix[|prefix| - run - 1] != NUL
    requires Longest(prefix, len, at)
    ensures c == NUL && run == len ==> Longest(prefix + [c], run + 1, |prefix| - run)
    ensures c != NUL || run < len ==> Longest(prefix + [c], len, at)
  {
    var grown := prefix + [c];
    forall i, l: nat | RunAt(grown, i, l)
      ensures i + l <= |prefix| ==> RunAt(prefix, i, l)
      ensures i + l > |prefix| ==> (l == 0 || (c == NUL && l <= run + 1))
    {
      if i + l <= |prefix| {
        assert forall j :: i <= j < i + l ==> prefix[j] == grown[j];
      } else if l > 0 {
        assert grown[i + l - 1] == NUL;
        assert run < |prefix| ==> grown[|prefix| - run - 1] != NUL;
      }
    }
    assert forall j :: at <= j < at + len ==> grown[j] == prefix[j];
    assert RunAt(grown, at, len);
    assert forall j :: |prefix| - run <= j < |prefix| ==> grown[j] == prefix[j];
  }

  lemma {:induction false} LongestUnique(block: Bytes, len: nat, at: nat, k: nat)
    requires Longest(block, len, at)
    ensures HasRun(block, k) <==> k <= len
  {
    if k <= len {
      assert RunAt(block, at, k);
    }
  }

  /** A well-formed block never holds two NULs in a row and never starts with one. */
  lemma {:induction false} EncodeAdjacent(entries: seq<Bytes>)
    requires Entries(entries)
    ensures var b := Encode(entries);
            (b != [] ==> b[0] != NUL) && forall i :: 0 <= i < |b| - 1 && b[i] == NUL ==> b[i + 1] != NUL
  {
    if entries != [] {
      var rest := Encode(entries[1..]);
      EncodeAdjacent(entries[1..]);
      var b := entries[0] + [NUL] + rest;
      forall i | 0 <= i < |b| - 1 && b[i] == NUL ensures b[i + 1] != NUL {
        assert i >= |entries[0]|;
        assert b[i + 1] == rest[i - |entries[0]|];
        assert i > |entries[0]| ==> b[i] == rest[i - 1 - |entries[0]|];
      }
    }
  }

  // -------------------------------------------------------- raw differences

  datatype Note =
    | BlockLength(arm: nat, reference: nat, delta: int)
    | FirstDifference(at: nat)
    | BlankSignature(run: nat, at: nat, referenceRun: nat)

  /** `at` is where the two blocks part: they agree before it and not at it. */
  ghost predicate PartAt(a: Bytes, b: Bytes, at: nat) {
    && at <= |a| && at <= |b| && a[..at] == b[..at]
    && (at == |a| || at == |b| || a[at] != b[at])
  }

  method FirstDifferingOffset(a: Bytes, b: Bytes) returns (at: nat)
    ensures PartAt(a, b, at)
  {
    at := 0;
    while at < |a| && at < |b| && a[at] == b[at]
      invariant at <= |a| && at <= |b| && a[..at] == b[..at]
    {
      assert a[..at + 1] == a[..at] + [a[at]] && b[..at + 1] == b[..at] + [b[at]];
      at := at + 1;
    }
  }

  method DescribeRawDifference(reference: Bytes, arm: Bytes) returns (notes: seq<Note>)
    ensures notes == [] <==> reference == arm
    ensures notes != [] ==>
              && 2 <= |notes| <= 3
              && notes[0] == BlockLength(|arm|, |reference|, |arm| - |reference|)
              && notes[1].FirstDifference? && PartAt(reference, arm, notes[1].at)
    ensures |notes| == 3 <==> reference != arm && exists k: nat :: HasRun(arm, k) && !HasRun(reference, k)
    ensures |notes| == 3 ==> notes[2].BlankSignature? && Longest(arm, notes[2].run, notes[2].at)
  {
    notes := [];
    if reference == arm {
      return;
    }
    notes := notes + [BlockLength(|arm|, |reference|, |arm| - |reference|)];
    var first := FirstDifferingOffset(reference, arm);
    notes := notes + [FirstDifference(first)];
    var referenceRun, referenceAt := LongestNulRun(reference);
    var armRun, armAt := LongestNulRun(arm);
    forall k: nat ensures (HasRun(arm, k) <==> k <= armRun) && (HasRun(reference, k) <==> k <= referenceRun) {
      LongestUnique(arm, armRun, armAt, k);
      LongestUnique(reference, referenceRun, referenceAt, k);
    }
    if armRun > referenceRun {
      assert HasRun(arm, armRun) && !HasRun(reference, armRun);
      notes := notes + [BlankSignature(armRun, armAt, referenceRun)];
    }
  }

  lemma {:induction false} BlankedRun(before: seq<Bytes>, n: nat, after: seq<Bytes>)
    ensures RunAt(Blanked(before, n, after), |Encode(before)|, n)
  {
    var front, gap, back := Encode(before), Nuls(n), Encode(after);
    assert forall i :: |front| <= i < |front| + n ==> (front + gap + back)[i] == gap[i - |front|];
  }

  /** Two or more blanked bytes always leave a longer NUL run than the reference can hold. */
  lemma {:induction false} BlankSignatureShows(before: seq<Bytes>, n: nat, after: seq<Bytes>, allowed: seq<string>)
    requires n >= 2 && Entries(before) && Entries(after)
    ensures HasRun(StripBlock(Blanked(before, n, after), allowed), n)
    ensures !HasRun(StripBlock(Encode(before + after), allowed), n)
  {
    StripBlanked(before, n, after, allowed);
    BlankedRun(Filter(before, allowed), n, Filter(after, allowed));
    StripCommutes(before + after, allowed);
    KeptIsFilter(before + after, allowed);
    EncodeAdjacent(Filter(before + after, allowed));
    NoLongRun(Encode(Filter(before + after, allowed)), n);
  }

  lemma {:induction false} RunStart(block: Bytes, at: int, n: nat)
    requires n >= 2 && RunAt(block, at, n)
    ensures 0 <= at < |block| - 1 && block[at] == NUL && block[at + 1] == NUL
  {
    assert forall i :: at <= i < at + 2 ==> block[i] == NUL;
  }

  lemma {:induction false} NoLongRun(block: Bytes, n: nat)
    requires n >= 2 && forall i :: 0 <= i < |block| - 1 && block[i] == NUL ==> block[i + 1] != NUL
    ensures !HasRun(block, n)
  {
    if HasRun(block, n) {
      var at :| RunAt(block, at, n);
      RunStart(block, at, n);
      assert false;
    }
  }

  // ----------------------------------------------------------- entry channels

  /** A map built by inserting in order: the last binding of a name wins. */
  function Index(entries: seq<Bytes>): (m: map<Bytes, Bytes>)
    ensures forall k <- m :: KeyOf(m[k]) == k
  {
    if entries == [] then map[]
    else
      var n := |entries| - 1;
      Index(entries[..n])[KeyOf(entries[n]) := entries[n]]
  }

  /** The names of the entries, each once. */
  function Names(entries: seq<Bytes>): (names: seq<Bytes>)
    ensures forall k :: k in names <==> k in Index(entries)
    ensures forall i, j :: 0 <= i < j < |names| ==> names[i] != names[j]
  {
    if entries == [] then []
    else
      var n := |entries| - 1;
      var front := Names(entries[..n]);
      if KeyOf(entries[n]) in front then front else front + [KeyOf(entries[n])]
  }

  /** The names in map order. */
  function MapOrder(entries: seq<Bytes>): (names: seq<Bytes>)
    ensures forall k :: k in names <==> k in Index(entries)
    ensures Sorted(names)
  {
    var names := Sort(Names(entries));
    assert forall k :: k in names <==> k in multiset(names);
    assert forall k :: k in Names(entries) <==> k in multiset(Names(entries));
    names
  }

  datatype Change = Change(was: Bytes, now: Bytes)

  datatype ChannelVerdict = ChannelVerdict(
    onlyInArm: seq<Bytes>, onlyInReference: seq<Bytes>, changed: seq<Change>, orderDiffers: bool, tolerated: seq<Bytes>)
  {
    predicate IsParity() {
      onlyInArm == [] && onlyInReference == [] && changed == [] && !orderDiffers
    }
  }

  ghost predicate Missing(entry: Bytes, mine: map<Bytes, Bytes>, theirs: map<Bytes, Bytes>, allowed: seq<string>) {
    var k := KeyOf(entry);
    k in mine && mine[k] == entry && k !in theirs && k !in allowed
  }

  ghost predicate Altered(c: Change, reference: map<Bytes, Bytes>, arm: map<Bytes, Bytes>, allowed: seq<string>) {
    var k := KeyOf(c.now);
    k in arm && arm[k] == c.now && k in reference && reference[k] == c.was && c.was != c.now && k !in allowed
  }

  /** Names up to `names` that are tolerated and bound on one side only. */
  ghost predicate Excused(k: Bytes, mine: map<Bytes, Bytes>, theirs: map<Bytes, Bytes>, allowed: seq<string>) {
    k in mine && k !in theirs && k in allowed
  }

  method CompareArm(names: seq<Bytes>, reference: map<Bytes, Bytes>, arm: map<Bytes, Bytes>, allowed: seq<string>)
    returns (only: seq<Bytes>, changed: seq<Change>, tolerated: seq<Bytes>)
    requires forall k :: k in names <==> k in arm
    requires forall k <- arm :: KeyOf(arm[k]) == k
    ensures forall e :: e in only <==> Missing(e, arm, reference, allowed)
    ensures forall c :: c in changed <==> Altered(c, reference, arm, allowed)
    ensures forall k :: k in tolerated <==> Excused(k, arm, reference, allowed)
  {
    only, changed, tolerated := [], [], [];
    for i := 0 to |names|
      invariant forall e :: e in only <==> KeyOf(e) in names[..i] && Missing(e, arm, reference, allowed)
      invariant forall c :: c in changed <==> KeyOf(c.now) in names[..i] && Altered(c, reference, arm, allowed)
      invariant forall k :: k in tolerated <==> k in names[..i] && Excused(k, arm, reference, allowed)
    {
      var name := names[i];
      assert names[..i + 1] == names[..i] + [name];
      assert name in arm;
      if name !in reference {
        if name in allowed {
          tolerated := tolerated + [name];
        } else {
          only := only + [arm[name]];
        }
      } else if reference[name] != arm[name] && name !in allowed {
        changed := changed + [Change(reference[name], arm[name])];
      }
    }
    assert names[..|names|] == names;
  }

  method CompareReference(names: seq<Bytes>, reference: map<Bytes, Bytes>, arm: map<Bytes, Bytes>, allowed: seq<string>)
    returns (only: seq<Bytes>, tolerated: seq<Bytes>)
    requires forall k :: k in names <==> k in reference
    requires forall k <- reference :: KeyOf(reference[k]) == k
    ensures forall e :: e in only <==> Missing(e, reference, arm, allowed)
    ensures forall k :: k in tolerated <==> Excused(k, reference, arm, allowed)
  {
    only, tolerated := [], [];
    for i := 0 to |names|
      invariant forall e :: e in only <==> KeyOf(e) in names[..i] && Missing(e, reference, arm, allowed)
      invariant forall k :: k in tolerated <==> k in names[..i] && Excused(k, reference, arm, allowed)
    {
      var name := names[i];
      assert names[..i + 1] == names[..i] + [name];
      assert name in reference;
      if name !in arm {
        if name in allowed {
          tolerated := tolerated + [name];
        } else {
          only := only + [reference[name]];
        }
      }
    }
    assert names[..|names|] == names;
  }

  lemma {:induction false} IndexAppend(front: seq<Bytes>, entry: Bytes)
    ensures Index(front + [entry]) == Index(front)[KeyOf(entry) := entry]
  {
    assert (front + [entry])[..|front|] == front;
  }

  /** Untolerated names are bound alike in the full and the filtered list. */
  lemma {:induction false} IndexFiltered(entries: seq<Bytes>, allowed: seq<string>, k: Bytes)
    requires k !in allowed
    ensures k in Index(entries) <==> k in Index(Filter(entries, allowed))
    ensures k in Index(entries) ==> Index(entries)[k] == Index(Filter(entries, allowed))[k]
  {
    if entries != [] {
      var n := |entries| - 1;
      var front, last := entries[..n], entries[n];
      IndexFiltered(front, allowed, k);
      assert Index(entries) == Index(front)[KeyOf(last) := last];
      if !Tolerated(last, allowed) {
        IndexAppend(Filter(front, allowed), last);
      }
    }
  }

  /** Equal filtered sequences leave nothing for the map comparison to report. */
  lemma {:induction false} MapsAddNothing(reference: seq<Bytes>, arm: seq<Bytes>, allowed: seq<string>)
    requires Filter(reference, allowed) == Filter(arm, allowed)
    ensures forall e :: !Missing(e, Index(arm), Index(reference), allowed)
    ensures forall e :: !Missing(e, Index(reference), Index(arm), allowed)
    ensures forall c :: !Altered(c, Index(reference), Index(arm), allowed)
  {
    forall k | k !in allowed
      ensures k in Index(arm) <==> k in Index(reference)
      ensures k in Index(arm) ==> Index(arm)[k] == Index(reference)[k]
    {
      IndexFiltered(reference, allowed, k);
      IndexFiltered(arm, allowed, k);
    }
  }

  function Dedup(xs: seq<Bytes>): (r: seq<Bytes>)
    ensures forall x :: x in r <==> x in xs
  {
    if xs == [] then []
    else
      var n := |xs| - 1;
      var front := Dedup(xs[..n]);
      if front != [] && front[|front| - 1] == xs[n] then front else front + [xs[n]]
  }

  lemma {:induction false} SomeMember<T>(xs: seq<T>)
    ensures xs != [] ==> exists x :: x in xs
  {
    if xs != [] {
      assert xs[0] in xs;
    }
  }

  /** Sorted, without repeats. */
  function SortDedup(xs: seq<Bytes>): (r: seq<Bytes>)
    ensures forall x :: x in r <==> x in xs
  {
    assert forall k :: k in Sort(xs) <==> k in multiset(Sort(xs));
    assert forall k :: k in xs <==> k in multiset(xs);
    Dedup(Sort(xs))
  }

  method CompareChannel(reference: seq<Bytes>, arm: seq<Bytes>, allowed: seq<string>) returns (v: ChannelVerdict)
    ensures v.IsParity() <==> Filter(reference, allowed) == Filter(arm, allowed)
    ensures v.orderDiffers <==> Filter(reference, allowed) != Filter(arm, allowed)
    ensures forall e :: e in v.onlyInArm <==> Missing(e, Index(arm), Index(reference), allowed)
    ensures forall e :: e in v.onlyInReference <==> Missing(e, Index(reference), Index(arm), allowed)
    ensures forall c :: c in v.changed <==> Altered(c, Index(reference), Index(arm), allowed)
    ensures forall k :: k in v.tolerated <==>
                        Excused(k, Index(arm), Index(reference), allowed)
                            || Excused(k, Index(reference), Index(arm), allowed)
  {
    var referenceIndex, armIndex := Index(reference), Index(arm);
    var onlyInArm, changed, t1 := CompareArm(MapOrder(arm), referenceIndex, armIndex, allowed);
    var onlyInReference, t2 := CompareReference(MapOrder(reference), referenceIndex, armIndex, allowed);
    var orderDiffers := Filter(reference, allowed) != Filter(arm, allowed);
    v := ChannelVerdict(onlyInArm, onlyInReference, changed, orderDiffers, SortDedup(t1 + t2));
    if !orderDiffers {
      MapsAddNothing(reference, arm, allowed);
      SomeMember(onlyInArm);
      SomeMember(onlyInReference);
      SomeMember(changed);
    }
  }

  // ------------------------------------------------------------------ verdict

  datatype Arm = Measured(environ: seq<Bytes>, procenv: seq<Bytes>, raw: Bytes) | Unavailable

  /** One measurement, in the order the arms were requested. */
  datatype Measurement = Measurement(name: string, arm: Arm)

  datatype Options = Options(reference: string, allow: seq<string>, residualsDeclared: bool)

  const DBI_RESIDUALS: seq<string> := ["DYNAMORIO_CONFIGDIR", "DYNAMORIO_TAKEOVER_IN_INIT", "DYNAMORIO_EXE_PATH"]

  /** The backend of an arm: its name up to the first `#`. */
  function BackendOf(arm: string): (b: string) {
    SplitOn(arm, '#')[0]
  }

  /** Residuals declared for `dbi` are tolerated under no other backend. */
  function AllowedFor(arm: string, o: Options): (allowed: seq<string>) {
    o.allow + (if o.residualsDeclared && BackendOf(arm) == "dbi" then DBI_RESIDUALS else [])
  }

  /** What the check means by parity: three sequence equalities modulo the arm's allowlist. */
  ghost predicate AtParity(reference: Arm, arm: Arm, allowed: seq<string>)
    requires reference.Measured? && arm.Measured?
  {
    && Filter(reference.environ, allowed) == Filter(arm.environ, allowed)
    && Filter(reference.procenv, allowed) == Filter(arm.procenv, allowed)
    && StripBlock(reference.raw, allowed) == StripBlock(arm.raw, allowed)
  }

  method ArmParity(reference: Arm, arm: Arm, allowed: seq<string>) returns (parity: bool)
    requires reference.Measured? && arm.Measured?
    ensures parity <==> AtParity(reference, arm, allowed)
  {
    var env := CompareChannel(reference.environ, arm.environ, allowed);
    var procenv := CompareChannel(reference.procenv, arm.procenv, allowed);
    var r := StripToleratedFromBlock(reference.raw, allowed);
    var a := StripToleratedFromBlock(arm.raw, allowed);
    var notes := DescribeRawDifference(r, a);
    parity := env.IsParity() && procenv.IsParity() && notes == [];
  }

  function Arms(runs: seq<Measurement>): (m: map<string, Arm>) {
    if runs == [] then map[]
    else
      var n := |runs| - 1;
      Arms(runs[..n])[runs[n].name := runs[n].arm]
  }

  function ArmNames(runs: seq<Measurement>): (names: seq<string>)
    ensures forall k :: k in names <==> k in Arms(runs)
    ensures forall i, j :: 0 <= i < j < |names| ==> names[i] != names[j]
  {
    if runs == [] then []
    else
      var n := |runs| - 1;
      var front := ArmNames(runs[..n]);
      if runs[n].name in front then front else front + [runs[n].name]
  }

  function ArmOrder(runs: seq<Measurement>): (names: seq<string>)
    ensures forall k :: k in names <==> k in Arms(runs)
  {
    var names := Sort(ArmNames(runs));
    assert forall k :: k in names <==> k in multiset(names);
    assert forall k :: k in ArmNames(runs) <==> k in multiset(ArmNames(runs));
    names
  }

  function VerdictExitCode(diverged: nat, unavailable: nat, identical: nat): (code: int) {
    if diverged > 0 then 1 else if unavailable > 0 || identical == 0 then 2 else 0
  }

  ghost predicate Reached(runs: seq<Measurement>, o: Options) {
    var arms := Arms(runs);
    o.reference in arms && arms[o.reference].Measured?
  }

  ghost predicate Identical(runs: seq<Measurement>, o: Options, name: string) {
    var arms := Arms(runs);
    Reached(runs, o) && name in arms && arms[name].Measured?
        && AtParity(arms[o.reference], arms[name], AllowedFor(name, o))
  }

  ghost predicate Diverges(runs: seq<Measurement>, o: Options, name: string) {
    var arms := Arms(runs);
    Reached(runs, o) && name in arms && arms[name].Measured?
        && !AtParity(arms[o.reference], arms[name], AllowedFor(name, o))
  }

  /**
   Exit 0 exactly when the reference and at least one other arm were measured and every other
   arm is at parity; exit 1 exactly when a measured arm diverges; exit 2 otherwise.
   */
  method CheckArms(runs: seq<Measurement>, o: Options) returns (code: int)
    ensures code in {0, 1, 2}
    ensures code == 0 <==>
            && Reached(runs, o)
            && (exists name :: name in Arms(runs) && name != o.reference)
            && forall name :: name in Arms(runs) && name != o.reference ==> Identical(runs, o, name)
    ensures code == 1 <==> exists name :: name != o.reference && Diverges(runs, o, name)
  {
    var arms := Arms(runs);
    if o.reference !in arms || arms[o.reference].Unavailable? {
      return 2;
    }
    var names := ArmOrder(runs);
    var diverged, unavailable, identical := CompareArms(names, runs, o);
    code := VerdictExitCode(|diverged|, |unavailable|, |identical|);
    if diverged != [] {
      assert diverged[0] in diverged;
    }
    if unavailable != [] {
      assert unavailable[0] in unavailable;
    }
    if identical != [] {
      assert identical[0] in identical;
    }
  }

  method CompareArms(names: seq<string>, runs: seq<Measurement>, o: Options)
    returns (diverged: seq<string>, unavailable: seq<string>, identical: seq<string>)
    requires Reached(runs, o) && forall k :: k in names <==> k in Arms(runs)
    ensures forall k :: k in diverged <==> k != o.reference && Diverges(runs, o, k)
    ensures forall k :: k in unavailable <==> k != o.reference && k in Arms(runs) && Arms(runs)[k].Unavailable?
    ensures forall k :: k in identical <==> k != o.reference && Identical(runs, o, k)
  {
    var arms := Arms(runs);
    diverged, unavailable, identical := [], [], [];
    for i := 0 to |names|
      invariant forall k :: k in diverged <==> k in names[..i] && k != o.reference && Diverges(runs, o, k)
      invariant forall k :: k in unavailable <==> k in names[..i] && k != o.reference && k in arms
                                                    && arms[k].Unavailable?
      invariant forall k :: k in identical <==> k in names[..i] && k != o.reference && Identical(runs, o, k)
    {
      var name := names[i];
      assert names[..i + 1] == names[..i] + [name];
      assert name in names;
      if name == o.reference {
        continue;
      }
      if arms[name].Unavailable? {
        unavailable := unavailable + [name];
      } else {
        var parity := ArmParity(arms[o.reference], arms[name], AllowedFor(name, o));
        if parity {
          identical := identical + [name];
        } else {
          diverged := diverged + [name];
        }
      }
    }
    assert names[..|names|] == names;
  }

  // ------------------------------------------------------------ what is excused

  /** The arm runs under the dbi backend: plain, or as one of its variants. */
  predicate UnderDbi(arm: string) {
    arm == "dbi" || "dbi#" <= arm
  }

  /** A variable may differ on an arm only if it was named on the command line, or is one of the three DynamoRIO leaves
      behind, on a dbi arm, with the declared residuals in force. */
  predicate MayDiffer(arm: string, o: Options, name: string) {
    || name in o.allow
    || (o.residualsDeclared && UnderDbi(arm)
        && name in {"DYNAMORIO_CONFIGDIR", "DYNAMORIO_TAKEOVER_IN_INIT", "DYNAMORIO_EXE_PATH"})
  }

  lemma {:induction false} BackendExact(arm: string)
    ensures BackendOf(arm) == "dbi" <==> UnderDbi(arm)
  {
    var parts := SplitOn(arm, '#');
    if arm == "dbi" {
      SplitLastPart(arm, '#');
    } else if "dbi#" <= arm {
      assert arm == "dbi" + ['#'] + arm[4..];
      SplitAfterPart("dbi", arm[4..], '#');
    }
    if parts[0] == "dbi" && |parts| > 1 {
      assert arm == "dbi" + ['#'] + JoinWith(parts[1..], '#');
      assert arm[..4] == "dbi#";
    }
  }

  /** Which differences an arm is excused, exactly; in particular no residual is excused outside dbi. */
  lemma {:induction false} AllowedExact(arm: string, o: Options, name: string)
    ensures name in AllowedFor(arm, o) <==> MayDiffer(arm, o, name)
  {
    BackendExact(arm);
    assert name in DBI_RESIDUALS <==>
           name in {"DYNAMORIO_CONFIGDIR", "DYNAMORIO_TAKEOVER_IN_INIT", "DYNAMORIO_EXE_PATH"};
  }

  /** An entry only one side has, under a name the arm is not excused, is always a divergence. */
  lemma {:induction false} StrangerDiverges(runs: seq<Measurement>, o: Options, name: string, entry: Bytes)
    requires Reached(runs, o) && name in Arms(runs) && Arms(runs)[name].Measured?
    requires !MayDiffer(name, o, KeyOf(entry))
    requires entry in Arms(runs)[name].environ <==> entry !in Arms(runs)[o.reference].environ
    ensures Diverges(runs, o, name)
  {
    var allowed, reference, arm := AllowedFor(name, o), Arms(runs)[o.reference], Arms(runs)[name];
    AllowedExact(name, o, KeyOf(entry));
    assert !Tolerated(entry, allowed);
    assert entry in Filter(arm.environ, allowed) <==> entry !in Filter(reference.environ, allowed);
  }

  // -------------------------------------------------------- the lists position by position

  /** `at` are the positions of the entries that are kept, in order. */
  ghost predicate KeepsAt(entries: seq<Bytes>, allowed: seq<string>, at: seq<nat>) {
    && (forall i, j :: 0 <= i < j < |at| ==> at[i] < at[j])
    && (forall k: nat :: k in at <==> k < |entries| && KeyOf(entries[k]) !in allowed)
  }

  lemma {:induction false} FilterPlaces(entries: seq<Bytes>, allowed: seq<string>) returns (at: seq<nat>)
    ensures KeepsAt(entries, allowed, at) && |Filter(entries, allowed)| == |at|
    ensures forall i :: 0 <= i < |at| ==> at[i] < |entries| && Filter(entries, allowed)[i] == entries[at[i]]
  {
    if entries == [] {
      at := [];
    } else {
      var n := |entries| - 1;
      var front := FilterPlaces(entries[..n], allowed);
      at := if Tolerated(entries[n], allowed) then front else front + [n];
      assert forall i :: 0 <= i < |front| ==> front[i] in front;
      KeepsGrow(entries, allowed, front, at);
    }
  }

  lemma {:induction false} KeepsGrow(entries: seq<Bytes>, allowed: seq<string>, front: seq<nat>, at: seq<nat>)
    requires entries != [] && KeepsAt(entries[..|entries| - 1], allowed, front)
    requires at == if Tolerated(entries[|entries| - 1], allowed) then front else front + [|entries| - 1]
    ensures KeepsAt(entries, allowed, at)
  {
    var n := |entries| - 1;
    assert forall i :: 0 <= i < |front| ==> front[i] in front;
    forall k: nat ensures k in at <==> k < |entries| && KeyOf(entries[k]) !in allowed {
      assert k in at <==> k in front || (k == n && !Tolerated(entries[n], allowed));
    }
  }

  /** The measurement that stands under a name is the last one made. */
  ghost predicate LastMeasured(runs: seq<Measurement>, name: string, arm: Arm) {
    exists i: nat :: i < |runs| && runs[i] == Measurement(name, arm)
                     && forall j :: i < j < |runs| ==> runs[j].name != name
  }

  lemma {:induction false} ArmsExact(runs: seq<Measurement>, name: string, arm: Arm)
    ensures name in Arms(runs) && Arms(runs)[name] == arm <==> LastMeasured(runs, name, arm)
  {
    if runs != [] {
      var n := |runs| - 1;
      ArmsExact(runs[..n], name, arm);
      if runs[n].name == name {
        if i: nat :| i < |runs| && runs[i] == Measurement(name, arm)
                     && forall j :: i < j < |runs| ==> runs[j].name != name {
          assert i == n;
        }
      } else {
        if i: nat :| i < |runs| && runs[i] == Measurement(name, arm)
                     && forall j :: i < j < |runs| ==> runs[j].name != name {
          assert i < n && runs[..n][i] == Measurement(name, arm);
        }
        if i: nat :| i < n && runs[..n][i] == Measurement(name, arm)
                     && forall j :: i < j < n ==> runs[..n][j].name != name {
          assert runs[i] == Measurement(name, arm);
          assert forall j :: i < j < n ==> runs[j] == runs[..n][j];
        }
      }
    }
  }
}
