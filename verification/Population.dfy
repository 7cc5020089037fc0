/**
The canonical population identity of a scorecard run: the collector hashes the
cells it planned, the checker re-derives the hash from the rows it finds.
*/
module Population {
  import opened Text

  /** The seven population fields of one row, in order: run_mode, lane, bucket, test_id,
      test_mode, backend, cell_state. */
  type Key = seq<string>

  const DOMAIN: string := "scorecard-population-v2\n"

  function KeyText(key: Key): (s: string) {
    JoinWith(key, TAB)
  }

  function ParseKey(s: string): (key: Key) {
    SplitOn(s, TAB)
  }

  function Map<T, U>(f: T -> U, xs: seq<T>): (ys: seq<U>)
    ensures |ys| == |xs|
    ensures forall i :: 0 <= i < |xs| ==> ys[i] == f(xs[i])
  {
    seq(|xs|, i requires 0 <= i < |xs| => f(xs[i]))
  }

  /** The byte string both tools hash. */
  function Preimage(keys: seq<Key>): (s: string) {
    DOMAIN + Terminated(Sort(Map(KeyText, keys)), NEWLINE)
  }

  function PopulationId(sha: string -> string, keys: seq<Key>): (id: string) {
    "sha256:" + sha(Preimage(keys))
  }

  function StripKey(key: Key): (r: Key)
    ensures |r| == |key|
    ensures forall i :: 0 <= i < |key| ==> r[i] == Strip(key[i])
  {
    seq(|key|, i requires 0 <= i < |key| => Strip(key[i]))
  }

  ghost predicate Clean(key: Key) {
    key != [] && Free(key, TAB) && Free(key, NEWLINE)
  }

  ghost predicate AllClean(keys: seq<Key>) {
    forall i :: 0 <= i < |keys| ==> Clean(keys[i])
  }

  ghost predicate TrimmedKey(key: Key) {
    forall i :: 0 <= i < |key| ==> Trimmed(key[i])
  }

  // ------------------------------------------------------ multisets of a mapping

  lemma {:induction false} SplitMultiset<T>(xs: seq<T>, j: nat)
    requires j < |xs|
    ensures multiset(xs) == multiset{xs[j]} + multiset(xs[..j] + xs[j + 1..])
  {
    assert xs == xs[..j] + [xs[j]] + xs[j + 1..];
  }

  lemma {:induction false} MapWithout<T, U>(f: T -> U, xs: seq<T>, j: nat)
    requires j < |xs|
    ensures Map(f, xs[..j] + xs[j + 1..]) == Map(f, xs)[..j] + Map(f, xs)[j + 1..]
  {
    var left, right := Map(f, xs[..j] + xs[j + 1..]), Map(f, xs)[..j] + Map(f, xs)[j + 1..];
    assert |left| == |right|;
    assert forall i :: 0 <= i < |left| ==> left[i] == right[i];
  }

  lemma {:induction false} MapSplit<T, U>(f: T -> U, xs: seq<T>, j: nat)
    requires j < |xs|
    ensures multiset(Map(f, xs)) == multiset{f(xs[j])} + multiset(Map(f, xs[..j] + xs[j + 1..]))
    ensures multiset(xs) == multiset{xs[j]} + multiset(xs[..j] + xs[j + 1..])
  {
    SplitMultiset(xs, j);
    SplitMultiset(Map(f, xs), j);
    MapWithout(f, xs, j);
  }

  lemma {:induction false} MapHead<T, U>(f: T -> U, xs: seq<T>)
    requires xs != []
    ensures multiset(Map(f, xs)) == multiset{f(xs[0])} + multiset(Map(f, xs[1..]))
  {
    assert Map(f, xs) == [f(xs[0])] + Map(f, xs[1..]);
  }

  lemma {:induction false} MapPermutation<T, U>(f: T -> U, a: seq<T>, b: seq<T>)
    requires multiset(a) == multiset(b)
    ensures multiset(Map(f, a)) == multiset(Map(f, b))
  {
    if a == [] {
      assert |multiset(b)| == 0;
    } else {
      assert a[0] in multiset(b);
      var j :| 0 <= j < |b| && b[j] == a[0];
      var rest := b[..j] + b[j + 1..];
      MapSplit(f, b, j);
      MapHead(f, a);
      assert multiset(a[1..]) == multiset(rest) by { MultisetTail(a); }
      MapPermutation(f, a[1..], rest);
    }
  }

  // ------------------------------------------------------------ the encoding

  lemma {:induction false} KeyTextClean(key: Key)
    requires Clean(key)
    ensures ParseKey(KeyText(key)) == key
    ensures NEWLINE !in KeyText(key)
  {
    SplitJoin(key, TAB);
    JoinFree(key);
  }

  lemma {:induction false} JoinFree(key: Key)
    requires Free(key, NEWLINE)
    ensures NEWLINE !in KeyText(key)
  {
    if |key| > 1 {
      JoinFree(key[1..]);
    }
  }

  lemma {:induction false} SortedTextsFree(keys: seq<Key>)
    requires AllClean(keys)
    ensures Free(Sort(Map(KeyText, keys)), NEWLINE)
  {
    var texts := Map(KeyText, keys);
    var sorted := Sort(texts);
    forall i | 0 <= i < |sorted| ensures NEWLINE !in sorted[i] {
      assert sorted[i] in multiset(texts);
      var j :| 0 <= j < |texts| && texts[j] == sorted[i];
      KeyTextClean(keys[j]);
    }
  }

  lemma {:induction false} KeysRecovered(keys: seq<Key>)
    requires AllClean(keys)
    ensures Map(ParseKey, Map(KeyText, keys)) == keys
  {
    forall i | 0 <= i < |keys| ensures Map(ParseKey, Map(KeyText, keys))[i] == keys[i] {
      KeyTextClean(keys[i]);
    }
  }

  /** Row order never matters, for any field contents. */
  lemma {:induction false} PreimageIgnoresOrder(a: seq<Key>, b: seq<Key>)
    requires multiset(a) == multiset(b)
    ensures Preimage(a) == Preimage(b)
  {
    MapPermutation(KeyText, a, b);
    SortCanonical(Map(KeyText, a), Map(KeyText, b));
  }

  /** On tab- and newline-free fields the preimage names exactly the multiset of keys. */
  lemma {:induction false} PreimageCanonical(a: seq<Key>, b: seq<Key>)
    requires AllClean(a) && AllClean(b)
    ensures Preimage(a) == Preimage(b) <==> multiset(a) == multiset(b)
  {
    if multiset(a) == multiset(b) {
      PreimageIgnoresOrder(a, b);
    }
    if Preimage(a) == Preimage(b) {
      var ta, tb := Map(KeyText, a), Map(KeyText, b);
      assert Terminated(Sort(ta), NEWLINE) == Preimage(a)[|DOMAIN|..];
      assert Terminated(Sort(tb), NEWLINE) == Preimage(b)[|DOMAIN|..];
      SortedTextsFree(a);
      SortedTextsFree(b);
      TerminatedInjective(Sort(ta), Sort(tb), NEWLINE);
      SortCanonical(ta, tb);
      MapPermutation(ParseKey, ta, tb);
      KeysRecovered(a);
      KeysRecovered(b);
    }
  }

  // ------------------------------------- producer without and checker with strip

  ghost function Weight(key: Key): nat {
    if key == [] then 0 else |key[0]| + Weight(key[1..])
  }

  ghost function TotalWeight(keys: seq<Key>): nat {
    if keys == [] then 0 else Weight(keys[0]) + TotalWeight(keys[1..])
  }

  lemma {:induction false} StripShrinks(s: string)
    ensures |StripLeft(s)| <= |s| && |Strip(s)| <= |s|
    ensures |Strip(s)| == |s| ==> Trimmed(s)
    ensures forall c :: c in Strip(s) ==> c in s
  {
    StripLeftSuffix(s);
  }

  lemma {:induction false} StripLeftSuffix(s: string)
    ensures |StripLeft(s)| <= |s| && StripLeft(s) == s[|s| - |StripLeft(s)|..]
  {
    if s != "" && IsSpace(s[0]) {
      StripLeftSuffix(s[1..]);
    }
  }

  lemma {:induction false} WeightStrip(key: Key)
    ensures Weight(StripKey(key)) <= Weight(key)
    ensures Weight(StripKey(key)) == Weight(key) ==> TrimmedKey(key)
  {
    if key != [] {
      StripShrinks(key[0]);
      WeightStrip(key[1..]);
      assert StripKey(key)[1..] == StripKey(key[1..]);
      if Weight(StripKey(key)) == Weight(key) {
        forall i | 0 <= i < |key| ensures Trimmed(key[i]) {
          if i > 0 { assert key[i] == key[1..][i - 1]; }
        }
      }
    }
  }

  lemma {:induction false} TotalWeightStrip(keys: seq<Key>)
    ensures TotalWeight(Map(StripKey, keys)) <= TotalWeight(keys)
    ensures TotalWeight(Map(StripKey, keys)) == TotalWeight(keys) ==>
              forall i :: 0 <= i < |keys| ==> TrimmedKey(keys[i])
  {
    if keys != [] {
      WeightStrip(keys[0]);
      TotalWeightStrip(keys[1..]);
      assert Map(StripKey, keys)[1..] == Map(StripKey, keys[1..]);
      if TotalWeight(Map(StripKey, keys)) == TotalWeight(keys) {
        forall i | 0 <= i < |keys| ensures TrimmedKey(keys[i]) {
          if i > 0 { assert keys[i] == keys[1..][i - 1]; }
        }
      }
    }
  }

  ghost function TextLength(texts: seq<string>): nat {
    if texts == [] then 0 else |texts[0]| + 1 + TextLength(texts[1..])
  }

  lemma {:induction false} TerminatedLength(texts: seq<string>)
    ensures |Terminated(texts, NEWLINE)| == TextLength(texts)
  {
    if texts != [] {
      TerminatedLength(texts[1..]);
    }
  }

  lemma {:induction false} ConsLength(x: string, xs: seq<string>)
    ensures TextLength([x] + xs) == |x| + 1 + TextLength(xs)
  {
    assert ([x] + xs)[1..] == xs;
  }

  lemma {:induction false} InsertLength(x: string, xs: seq<string>)
    requires Sorted(xs)
    ensures TextLength(Insert(x, xs)) == |x| + 1 + TextLength(xs)
  {
    ConsLength(x, xs);
    if xs == [] {
      assert [x] + xs == [x];
    } else {
      InsertLength(x, xs[1..]);
      ConsLength(xs[0], Insert(x, xs[1..]));
    }
  }

  lemma {:induction false} SortLength(xs: seq<string>)
    ensures TextLength(Sort(xs)) == TextLength(xs)
  {
    if xs != [] {
      SortLength(xs[1..]);
      InsertLength(xs[0], Sort(xs[1..]));
    }
  }

  lemma {:induction false} KeyTextLength(key: Key)
    ensures |KeyText(key)| == Weight(key) + if key == [] then 0 else |key| - 1
  {
    if |key| > 1 {
      KeyTextLength(key[1..]);
    }
  }

  /** Stripping shortens the texts by exactly the weight it removes. */
  lemma {:induction false} StrippedLength(keys: seq<Key>)
    ensures TextLength(Map(KeyText, Map(StripKey, keys))) + TotalWeight(keys)
            == TextLength(Map(KeyText, keys)) + TotalWeight(Map(StripKey, keys))
  {
    if keys != [] {
      StrippedLength(keys[1..]);
      KeyTextLength(keys[0]);
      KeyTextLength(StripKey(keys[0]));
      var stripped := Map(StripKey, keys);
      assert stripped[1..] == Map(StripKey, keys[1..]);
      assert Map(KeyText, stripped)[1..] == Map(KeyText, stripped[1..]);
      assert Map(KeyText, keys)[1..] == Map(KeyText, keys[1..]);
    }
  }

  lemma {:induction false} PreimageLength(keys: seq<Key>)
    ensures |Preimage(keys)| == |DOMAIN| + TextLength(Map(KeyText, keys))
  {
    SortLength(Map(KeyText, keys));
    TerminatedLength(Sort(Map(KeyText, keys)));
  }

  /** The producer's preimage (raw fields) equals the checker's (stripped fields) exactly when every
      field is already trimmed, whatever the fields hold. */
  lemma {:induction false} ProducerCheckerPreimage(keys: seq<Key>)
    ensures Preimage(keys) == Preimage(Map(StripKey, keys)) <==> forall i :: 0 <= i < |keys| ==> TrimmedKey(keys[i])
  {
    var stripped := Map(StripKey, keys);
    if forall i :: 0 <= i < |keys| ==> TrimmedKey(keys[i]) {
      forall i | 0 <= i < |keys| ensures stripped[i] == keys[i] {
        assert TrimmedKey(keys[i]);
      }
      assert stripped == keys;
    }
    PreimageLength(keys);
    PreimageLength(stripped);
    StrippedLength(keys);
    TotalWeightStrip(keys);
  }
}
