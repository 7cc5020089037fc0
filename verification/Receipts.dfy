/**
Reuse of a published receipt: the verifier names a marker in the issue comments, its artifact is
fetched and compared with the selected row, and a marker for another row is removed from the
comment tree before the verifier is asked again.
*/
module Receipts {
  import opened Text
  import opened Reading

  datatype Json =
    | Null
    | Bool(flag: bool)
    | Number(text: string)
    | Str(text: string)
    | Array(items: Items)
    | Object(fields: Fields)

  datatype Items = NoItems | Item(head: Json, tail: Items)

  /** The fields of an object in map order; names do not repeat. */
  datatype Fields = NoFields | Field(name: string, value: Json, rest: Fields)

  // ------------------------------------------------------------ body lines

  function LinesOf(body: string): (lines: seq<string>) {
    SplitOn(body, NEWLINE)
  }

  function Drop(lines: seq<string>, marker: string): (r: seq<string>)
    ensures |r| + Count(lines, marker) == |lines|
  {
    if lines == [] then []
    else
      var n := |lines| - 1;
      var front := Drop(lines[..n], marker);
      if lines[n] == marker then front else front + [lines[n]]
  }

  lemma {:induction false} DropMembers(lines: seq<string>, marker: string, x: string)
    ensures x in Drop(lines, marker) <==> x in lines && x != marker
  {
    if lines != [] {
      DropMembers(lines[..|lines| - 1], marker, x);
    }
  }

  function Count(lines: seq<string>, marker: string): (n: nat)
    ensures n > 0 <==> marker in lines
  {
    if lines == [] then 0
    else Count(lines[..|lines| - 1], marker) + (if lines[|lines| - 1] == marker then 1 else 0)
  }

  function Edit(body: string, marker: string): (r: string) {
    if Count(LinesOf(body), marker) > 0 then JoinWith(Drop(LinesOf(body), marker), NEWLINE) else body
  }

  function Nonempty(lines: seq<string>): (r: seq<string>) {
    Drop(lines, "")
  }

  lemma {:induction false} DropNone(lines: seq<string>, marker: string)
    requires marker !in lines
    ensures Drop(lines, marker) == lines
  {
    if lines != [] {
      DropNone(lines[..|lines| - 1], marker);
    }
  }

  lemma {:induction false} DropLast(front: seq<string>, x: string, marker: string)
    ensures Drop(front + [x], marker) == if x == marker then Drop(front, marker) else Drop(front, marker) + [x]
    ensures Count(front + [x], marker) == Count(front, marker) + if x == marker then 1 else 0
  {
    assert (front + [x])[..|front|] == front;
  }

  lemma {:induction false} DropAppend(a: seq<string>, b: seq<string>, marker: string)
    ensures Drop(a + b, marker) == Drop(a, marker) + Drop(b, marker)
  {
    if b == [] {
      assert a + b == a;
    } else {
      var front, last := b[..|b| - 1], b[|b| - 1];
      assert b == front + [last] && a + b == (a + front) + [last];
      DropAppend(a, front, marker);
      DropLast(a + front, last, marker);
      DropLast(front, last, marker);
    }
  }

  lemma {:induction false} CountAppend(a: seq<string>, b: seq<string>, marker: string)
    ensures Count(a + b, marker) == Count(a, marker) + Count(b, marker)
  {
    if b == [] {
      assert a + b == a;
    } else {
      CountAppend(a, b[..|b| - 1], marker);
      assert (a + b)[..|a + b| - 1] == a + b[..|b| - 1];
    }
  }

  lemma {:induction false} DropSwap(lines: seq<string>, m1: string, m2: string)
    ensures Drop(Drop(lines, m1), m2) == Drop(Drop(lines, m2), m1)
    ensures m1 != m2 ==> Count(Drop(lines, m2), m1) == Count(lines, m1)
  {
    if lines != [] {
      var front, x := lines[..|lines| - 1], lines[|lines| - 1];
      DropSwap(front, m1, m2);
      DropLast(Drop(front, m1), x, m2);
      DropLast(Drop(front, m2), x, m1);
    }
  }

  /** Exactly the equal lines go; an emptied body reads as one empty line. */
  lemma {:induction false} EditedLines(body: string, marker: string)
    ensures LinesOf(Edit(body, marker)) ==
            if Drop(LinesOf(body), marker) == [] then [""] else Drop(LinesOf(body), marker)
  {
    var lines := LinesOf(body);
    var kept := Drop(lines, marker);
    if marker !in lines {
      DropNone(lines, marker);
    } else if kept != [] {
      forall i | 0 <= i < |kept| ensures NEWLINE !in kept[i] {
        DropMembers(lines, marker, kept[i]);
      }
      SplitJoin(kept, NEWLINE);
    }
  }

  lemma {:induction false} EditedNonempty(body: string, marker: string)
    ensures Nonempty(LinesOf(Edit(body, marker))) == Drop(Nonempty(LinesOf(body)), marker)
  {
    EditedLines(body, marker);
    DropSwap(LinesOf(body), "", marker);
  }

  // ------------------------------------------------------------ comment trees

  /** The tree with every `body` line equal to the marker removed, at every depth. */
  function Without(v: Json, marker: string): (r: Json) {
    match v
    case Array(items) => Array(WithoutItems(items, marker))
    case Object(fields) => Object(WithoutFields(fields, marker))
    case _ => v
  }

  function WithoutItems(items: Items, marker: string): (r: Items) {
    match items
    case NoItems => NoItems
    case Item(head, tail) => Item(Without(head, marker), WithoutItems(tail, marker))
  }

  function WithoutFields(fields: Fields, marker: string): (r: Fields) {
    match fields
    case NoFields => NoFields
    case Field(name, value, rest) =>
      Field(name, if name == "body" && value.Str? then Str(Edit(value.text, marker)) else Without(value, marker),
            WithoutFields(rest, marker))
  }

  /** All lines of all `body` strings, in tree order. */
  function BodyLines(v: Json): (lines: seq<string>) {
    match v
    case Array(items) => ItemLines(items)
    case Object(fields) => FieldLines(fields)
    case _ => []
  }

  function ItemLines(items: Items): (lines: seq<string>) {
    match items
    case NoItems => []
    case Item(head, tail) => BodyLines(head) + ItemLines(tail)
  }

  function FieldLines(fields: Fields): (lines: seq<string>) {
    match fields
    case NoFields => []
    case Field(name, value, rest) =>
      (if name == "body" && value.Str? then LinesOf(value.text) else BodyLines(value)) + FieldLines(rest)
  }

  /** The nonempty lines: what the retry loop consumes. */
  function Content(v: Json): (lines: seq<string>) {
    Nonempty(BodyLines(v))
  }

  /** The tree with the text of its `body` strings forgotten. */
  function Skeleton(v: Json): (r: Json) {
    match v
    case Array(items) => Array(SkeletonItems(items))
    case Object(fields) => Object(SkeletonFields(fields))
    case _ => v
  }

  function SkeletonItems(items: Items): (r: Items) {
    match items
    case NoItems => NoItems
    case Item(head, tail) => Item(Skeleton(head), SkeletonItems(tail))
  }

  function SkeletonFields(fields: Fields): (r: Fields) {
    match fields
    case NoFields => NoFields
    case Field(name, value, rest) =>
      Field(name, if name == "body" && value.Str? then Str("") else Skeleton(value), SkeletonFields(rest))
  }

  method RemoveExactCommentMarker(v: Json, marker: string) returns (r: Json, removed: nat)
    ensures r == Without(v, marker)
    ensures removed == Count(BodyLines(v), marker)
    decreases v
  {
    match v
    case Array(items) =>
      var rs, n := RemoveFromItems(items, marker);
      return Array(rs), n;
    case Object(fields) =>
      var rs, n := RemoveFromFields(fields, marker);
      return Object(rs), n;
    case _ =>
      return v, 0;
  }

  method RemoveFromItems(items: Items, marker: string) returns (r: Items, removed: nat)
    ensures r == WithoutItems(items, marker)
    ensures removed == Count(ItemLines(items), marker)
    decreases items
  {
    match items
    case NoItems =>
      return NoItems, 0;
    case Item(head, tail) =>
      var h, n := RemoveExactCommentMarker(head, marker);
      var t, m := RemoveFromItems(tail, marker);
      CountAppend(BodyLines(head), ItemLines(tail), marker);
      return Item(h, t), n + m;
  }

  method RemoveFromFields(fields: Fields, marker: string) returns (r: Fields, removed: nat)
    ensures r == WithoutFields(fields, marker)
    ensures removed == Count(FieldLines(fields), marker)
    decreases fields
  {
    match fields
    case NoFields =>
      return NoFields, 0;
    case Field(name, value, rest) =>
      var t, m := RemoveFromFields(rest, marker);
      if name == "body" && value.Str? {
        CountAppend(LinesOf(value.text), FieldLines(rest), marker);
        return Field(name, Str(Edit(value.text, marker)), t), Count(LinesOf(value.text), marker) + m;
      }
      var h, n := RemoveExactCommentMarker(value, marker);
      CountAppend(BodyLines(value), FieldLines(rest), marker);
      return Field(name, h, t), n + m;
  }

  /** Removal deletes exactly the lines equal to the marker and keeps every other line in order. */
  lemma {:induction false} RemovalExact(v: Json, marker: string)
    ensures Content(Without(v, marker)) == Drop(Content(v), marker)
    decreases v
  {
    match v
    case Array(items) => RemovalExactItems(items, marker);
    case Object(fields) => RemovalExactFields(fields, marker);
    case _ =>
  }

  lemma {:induction false} Distribute(a: seq<string>, b: seq<string>, a2: seq<string>, b2: seq<string>, marker: string)
    requires Nonempty(a2) == Drop(Nonempty(a), marker) && Nonempty(b2) == Drop(Nonempty(b), marker)
    ensures Nonempty(a2 + b2) == Drop(Nonempty(a + b), marker)
  {
    DropAppend(a, b, "");
    DropAppend(a2, b2, "");
    DropAppend(Nonempty(a), Nonempty(b), marker);
  }

  lemma {:induction false} RemovalExactItems(items: Items, marker: string)
    ensures Nonempty(ItemLines(WithoutItems(items, marker))) == Drop(Nonempty(ItemLines(items)), marker)
    decreases items
  {
    match items
    case NoItems =>
    case Item(head, tail) =>
      RemovalExact(head, marker);
      RemovalExactItems(tail, marker);
      Distribute(BodyLines(head), ItemLines(tail), BodyLines(Without(head, marker)),
                 ItemLines(WithoutItems(tail, marker)), marker);
  }

  lemma {:induction false} RemovalExactFields(fields: Fields, marker: string)
    ensures Nonempty(FieldLines(WithoutFields(fields, marker))) == Drop(Nonempty(FieldLines(fields)), marker)
    decreases fields
  {
    match fields
    case NoFields =>
    case Field(name, value, rest) =>
      RemovalExactFields(rest, marker);
      var others, others2 := FieldLines(rest), FieldLines(WithoutFields(rest, marker));
      if name == "body" && value.Str? {
        EditedNonempty(value.text, marker);
        Distribute(LinesOf(value.text), others, LinesOf(Edit(value.text, marker)), others2, marker);
      } else {
        RemovalExact(value, marker);
        Distribute(BodyLines(value), others, BodyLines(Without(value, marker)), others2, marker);
      }
  }

  /** Nothing outside the `body` strings changes. */
  lemma {:induction false} RemovalKeepsShape(v: Json, marker: string)
    ensures Skeleton(Without(v, marker)) == Skeleton(v)
    decreases v
  {
    match v
    case Array(items) => RemovalKeepsItems(items, marker);
    case Object(fields) => RemovalKeepsFields(fields, marker);
    case _ =>
  }

  lemma {:induction false} RemovalKeepsItems(items: Items, marker: string)
    ensures SkeletonItems(WithoutItems(items, marker)) == SkeletonItems(items)
    decreases items
  {
    match items
    case NoItems =>
    case Item(head, tail) =>
      RemovalKeepsShape(head, marker);
      RemovalKeepsItems(tail, marker);
  }

  lemma {:induction false} RemovalKeepsFields(fields: Fields, marker: string)
    ensures SkeletonFields(WithoutFields(fields, marker)) == SkeletonFields(fields)
    decreases fields
  {
    match fields
    case NoFields =>
    case Field(name, value, rest) =>
      RemovalKeepsFields(rest, marker);
      if !(name == "body" && value.Str?) {
        RemovalKeepsShape(value, marker);
      }
  }

  /** The returned count is the number of nonempty lines lost. */
  lemma {:induction false} RemovalShrinks(v: Json, marker: string)
    requires marker != ""
    ensures |Content(v)| == |Content(Without(v, marker))| + Count(BodyLines(v), marker)
    ensures Count(BodyLines(v), marker) > 0 <==> marker in Content(v)
  {
    RemovalExact(v, marker);
    DropSwap(BodyLines(v), marker, "");
  }

  /** The tree is left as it was exactly when the marker does not occur. */
  lemma {:induction false} RemovalChangesIff(v: Json, marker: string)
    requires marker != ""
    ensures Without(v, marker) == v <==> Count(BodyLines(v), marker) == 0
    decreases v
  {
    if Count(BodyLines(v), marker) == 0 {
      Unmarked(v, marker);
    } else {
      RemovalShrinks(v, marker);
    }
  }

  lemma {:induction false} Unmarked(v: Json, marker: string)
    requires marker !in BodyLines(v)
    ensures Without(v, marker) == v
    decreases v
  {
    match v
    case Array(items) => UnmarkedItems(items, marker);
    case Object(fields) => UnmarkedFields(fields, marker);
    case _ =>
  }

  lemma {:induction false} UnmarkedItems(items: Items, marker: string)
    requires marker !in ItemLines(items)
    ensures WithoutItems(items, marker) == items
    decreases items
  {
    match items
    case NoItems =>
    case Item(head, tail) =>
      Unmarked(head, marker);
      UnmarkedItems(tail, marker);
  }

  lemma {:induction false} UnmarkedFields(fields: Fields, marker: string)
    requires marker !in FieldLines(fields)
    ensures WithoutFields(fields, marker) == fields
    decreases fields
  {
    match fields
    case NoFields =>
    case Field(name, value, rest) =>
      UnmarkedFields(rest, marker);
      if !(name == "body" && value.Str?) {
        Unmarked(value, marker);
      }
  }

  // --------------------------------------------------- verifier references

  datatype Reference = Reference(commit: string, path: string, artifact: string)

  /** Why a reuse attempt ended without an artifact. */
  datatype Rejection = MalformedReference | VerifierFailed(text: string) | FetchFailed(text: string) | MarkerAbsent

  function CanonicalPath(repo: string, sha: string, artifact: string): (path: string) {
    "validation-receipts/" + repo + "/" + sha + "/" + artifact + ".json"
  }

  predicate WellFormed(r: Reference, repo: string, sha: string) {
    LowerHex(r.commit, 40) && LowerHex(r.artifact, 64) && r.path == CanonicalPath(repo, sha, r.artifact)
  }

  datatype Pair = Pair(name: string, value: string)

  function Token(p: Pair): (t: string) {
    p.name + "=" + p.value
  }

  /** Splits a token at its first `=`. */
  function SplitOnce(token: string): (r: Option<Pair>)
    ensures r.Some? <==> '=' in token
    ensures r.Some? ==> '=' !in r.value.name && Token(r.value) == token
  {
    if token == "" then None
    else if token[0] == '=' then Some(Pair("", token[1..]))
    else
      var rest := SplitOnce(token[1..]);
      if rest.None? then None
      else
        assert Token(Pair([token[0]] + rest.value.name, rest.value.value)) == [token[0]] + Token(rest.value);
        Some(Pair([token[0]] + rest.value.name, rest.value.value))
  }

  lemma {:induction false} SplitStep(c: char, rest: string, p: Pair)
    requires c != '=' && SplitOnce(rest) == Some(p)
    ensures SplitOnce([c] + rest) == Some(Pair([c] + p.name, p.value))
  {
    assert ([c] + rest)[1..] == rest;
  }

  lemma {:induction false} SplitNamed(name: string, value: string)
    requires '=' !in name
    ensures SplitOnce(name + "=" + value) == Some(Pair(name, value))
  {
    if name == "" {
      assert ("" + "=" + value)[1..] == value;
    } else {
      var tail := name[1..];
      assert name == [name[0]] + tail;
      SplitNamed(tail, value);
      assert name + "=" + value == [name[0]] + (tail + "=" + value);
      SplitStep(name[0], tail + "=" + value, Pair(tail, value));
    }
  }

  lemma {:induction false} SplitToken(p: Pair)
    requires '=' !in p.name
    ensures SplitOnce(Token(p)) == Some(p)
  {
    SplitNamed(p.name, p.value);
  }

  /** Inserting in order: the last value of a name wins. */
  function Lookup(pairs: seq<Pair>, name: string): (r: Option<string>) {
    if pairs == [] then None
    else
      var last := pairs[|pairs| - 1];
      if last.name == name then Some(last.value) else Lookup(pairs[..|pairs| - 1], name)
  }

  const COMMIT := "receipt_commit"
  const PATH := "receipt_path"
  const DIGEST := "receipt_sha256"

  function ReadReference(a: Pair, b: Pair, c: Pair, repo: string, sha: string): (r: Result<Reference, Rejection>) {
    if a.name == b.name || a.name == c.name || b.name == c.name then Err(MalformedReference)
    else
      var pairs := [a, b, c];
      var commit, digest, path := Lookup(pairs, COMMIT), Lookup(pairs, DIGEST), Lookup(pairs, PATH);
      if commit.None? || digest.None? || path.None? then Err(MalformedReference)
      else
        var reference := Reference(commit.value, path.value, digest.value);
        if WellFormed(reference, repo, sha) then Ok(reference) else Err(MalformedReference)
  }

  function ParseReference(tokens: seq<string>, repo: string, sha: string): (r: Result<Reference, Rejection>)
    ensures r.Ok? ==> WellFormed(r.value, repo, sha)
  {
    if |tokens| != 3 then Err(MalformedReference)
    else
      var a, b, c := SplitOnce(tokens[0]), SplitOnce(tokens[1]), SplitOnce(tokens[2]);
      if a.None? || b.None? || c.None? then Err(MalformedReference)
      else ReadReference(a.value, b.value, c.value, repo, sha)
  }

  lemma {:induction false} LookupThree(a: Pair, b: Pair, c: Pair, name: string)
    ensures Lookup([a, b, c], name) ==
            if c.name == name then Some(c.value)
            else if b.name == name then Some(b.value)
            else if a.name == name then Some(a.value)
            else None
  {
    assert Lookup([a], name) == if a.name == name then Some(a.value) else None;
    assert [a, b][..1] == [a];
    assert Lookup([a, b], name) == if b.name == name then Some(b.value) else Lookup([a], name);
    assert [a, b, c][..2] == [a, b];
  }

  function Printed(r: Reference): (tokens: multiset<string>) {
    multiset{Token(Pair(COMMIT, r.commit)), Token(Pair(PATH, r.path)), Token(Pair(DIGEST, r.artifact))}
  }

  lemma {:induction false} NamesApart()
    ensures COMMIT != PATH && COMMIT != DIGEST && PATH != DIGEST
    ensures '=' !in COMMIT && '=' !in PATH && '=' !in DIGEST
  {
    assert |COMMIT| == 14 && |PATH| == 12 && |DIGEST| == 14;
    assert COMMIT[8] == 'c' && DIGEST[8] == 's';
  }

  lemma {:induction false} ReadIff(a: Pair, b: Pair, c: Pair, r: Reference, repo: string, sha: string)
    requires WellFormed(r, repo, sha)
    ensures ReadReference(a, b, c, repo, sha) == Ok(r) <==>
            var x, y, z := Pair(COMMIT, r.commit), Pair(PATH, r.path), Pair(DIGEST, r.artifact);
            x in [a, b, c] && y in [a, b, c] && z in [a, b, c]
  {
    NamesApart();
    LookupThree(a, b, c, COMMIT);
    LookupThree(a, b, c, PATH);
    LookupThree(a, b, c, DIGEST);
  }

  lemma {:induction false} TokenInjective(p: Pair, q: Pair)
    requires '=' !in p.name && '=' !in q.name
    ensures Token(p) == Token(q) <==> p == q
  {
    SplitToken(p);
    SplitToken(q);
  }

  lemma {:induction false} ThreeAsMultiset<T>(s: seq<T>, x: T, y: T, z: T)
    requires x != y && x != z && y != z
    ensures multiset(s) == multiset{x, y, z} <==> |s| == 3 && x in s && y in s && z in s
  {
    if multiset(s) == multiset{x, y, z} {
      assert |multiset(s)| == |s|;
      assert x in multiset(s) && y in multiset(s) && z in multiset(s);
    } else if |s| == 3 {
      assert s == [s[0], s[1], s[2]];
    }
  }

  ghost predicate Splits(tokens: seq<string>, p: Pair) {
    exists i :: 0 <= i < |tokens| && SplitOnce(tokens[i]) == Some(p)
  }

  lemma {:induction false} TokenIn(tokens: seq<string>, p: Pair)
    requires '=' !in p.name
    ensures Token(p) in tokens <==> Splits(tokens, p)
  {
    SplitToken(p);
    if Token(p) in tokens {
      var i :| 0 <= i < |tokens| && tokens[i] == Token(p);
      assert SplitOnce(tokens[i]) == Some(p);
    }
  }

  lemma {:induction false} SplitsThree(tokens: seq<string>, p: Pair)
    requires |tokens| == 3
    ensures Splits(tokens, p) <==> Some(p) in [SplitOnce(tokens[0]), SplitOnce(tokens[1]), SplitOnce(tokens[2])]
  {
    var options := [SplitOnce(tokens[0]), SplitOnce(tokens[1]), SplitOnce(tokens[2])];
    assert forall i :: 0 <= i < 3 ==> options[i] == SplitOnce(tokens[i]);
  }

  /** All three split options hold a pair as soon as three different pairs are among them. */
  lemma {:induction false} AllSplit(a: Option<Pair>, b: Option<Pair>, c: Option<Pair>, x: Pair, y: Pair, z: Pair)
    requires x != y && x != z && y != z
    requires Some(x) in [a, b, c] && Some(y) in [a, b, c] && Some(z) in [a, b, c]
    ensures a.Some? && b.Some? && c.Some?
  {
  }

  lemma {:induction false} ParsePairs(tokens: seq<string>, r: Reference, repo: string, sha: string, x: Pair, y: Pair,
                                      z: Pair)
    requires WellFormed(r, repo, sha) && |tokens| == 3
    requires x == Pair(COMMIT, r.commit) && y == Pair(PATH, r.path) && z == Pair(DIGEST, r.artifact)
    ensures ParseReference(tokens, repo, sha) == Ok(r) <==> Splits(tokens, x) && Splits(tokens, y) && Splits(tokens, z)
  {
    var a, b, c := SplitOnce(tokens[0]), SplitOnce(tokens[1]), SplitOnce(tokens[2]);
    SplitsThree(tokens, x);
    SplitsThree(tokens, y);
    SplitsThree(tokens, z);
    if a.Some? && b.Some? && c.Some? {
      ReadIff(a.value, b.value, c.value, r, repo, sha);
      SomeIn(a.value, b.value, c.value, x);
      SomeIn(a.value, b.value, c.value, y);
      SomeIn(a.value, b.value, c.value, z);
    } else if Splits(tokens, x) && Splits(tokens, y) && Splits(tokens, z) {
      NamesApart();
      AllSplit(a, b, c, x, y, z);
    }
  }

  lemma {:induction false} SomeIn(a: Pair, b: Pair, c: Pair, p: Pair)
    ensures Some(p) in [Some(a), Some(b), Some(c)] <==> p in [a, b, c]
  {
  }

  /** The verifier output is accepted exactly when it is the three printed fields, in any order. */
  lemma {:induction false} ParseExact(tokens: seq<string>, r: Reference, repo: string, sha: string)
    ensures ParseReference(tokens, repo, sha) == Ok(r) <==> WellFormed(r, repo, sha) && multiset(tokens) == Printed(r)
  {
    if WellFormed(r, repo, sha) {
      var x, y, z := Pair(COMMIT, r.commit), Pair(PATH, r.path), Pair(DIGEST, r.artifact);
      PrintedIff(tokens, x, y, z);
      if |tokens| == 3 {
        ParsePairs(tokens, r, repo, sha, x, y, z);
      }
    }
  }

  lemma {:induction false} PrintedIff(tokens: seq<string>, x: Pair, y: Pair, z: Pair)
    requires x.name == COMMIT && y.name == PATH && z.name == DIGEST
    ensures multiset(tokens) == multiset{Token(x), Token(y), Token(z)} <==>
            |tokens| == 3 && Splits(tokens, x) && Splits(tokens, y) && Splits(tokens, z)
  {
    NamesApart();
    TokenInjective(x, y);
    TokenInjective(x, z);
    TokenInjective(y, z);
    ThreeAsMultiset(tokens, Token(x), Token(y), Token(z));
    TokenIn(tokens, x);
    TokenIn(tokens, y);
    TokenIn(tokens, z);
  }

  // ------------------------------------------------------------ comment markers

  function Marker(r: Reference): (m: string)
    ensures m != ""
  {
    "<!-- locally-validated-receipt commit=" + r.commit + " path=" + r.path + " sha256=" + r.artifact + " -->"
  }

  lemma {:induction false} Cancel(p: string, a: string, b: string, restA: string, restB: string)
    requires |a| == |b| && p + a + restA == p + b + restB
    ensures a == b && restA == restB
  {
    var s := p + a + restA;
    assert a == s[|p|..|p| + |a|] && restA == s[|p| + |a|..];
    var t := p + b + restB;
    assert b == t[|p|..|p| + |b|] && restB == t[|p| + |b|..];
  }

  lemma {:induction false} Framed(open: string, path: string, digest: string, close: string, a: Reference, b: Reference)
    requires |a.commit| == |b.commit| && |a.path| == |b.path| && |a.artifact| == |b.artifact|
    requires open + a.commit + path + a.path + digest + a.artifact + close
          == open + b.commit + path + b.path + digest + b.artifact + close
    ensures a == b
  {
    var tailA, tailB := digest + a.artifact + close, digest + b.artifact + close;
    var midA, midB := path + a.path + tailA, path + b.path + tailB;
    assert open + a.commit + midA == open + a.commit + path + a.path + digest + a.artifact + close;
    assert open + b.commit + midB == open + b.commit + path + b.path + digest + b.artifact + close;
    Cancel(open, a.commit, b.commit, midA, midB);
    Cancel(path, a.path, b.path, tailA, tailB);
    Cancel(digest, a.artifact, b.artifact, close, close);
  }

  /** Markers of well-formed references tell the references apart. */
  lemma {:induction false} MarkerInjective(a: Reference, b: Reference, repo: string, sha: string)
    requires WellFormed(a, repo, sha) && WellFormed(b, repo, sha)
    requires Marker(a) == Marker(b)
    ensures a == b
  {
    Framed("<!-- locally-validated-receipt commit=", " path=", " sha256=", " -->", a, b);
  }

  // ------------------------------------------- the marker as the verifier reads it

  const MARKER_OPEN := "<!-- locally-validated-receipt commit="
  const MARKER_PATH := " path="
  const MARKER_DIGEST := " sha256="
  const MARKER_CLOSE := " -->"

  /** A line of a comment that names a receipt: two digests, and a path without blanks between them. */
  ghost predicate NamesReceipt(line: string, r: Reference) {
    && Hex(r.commit, 40) && Hex(r.artifact, 64) && r.path != "" && ' ' !in r.path
    && line == MARKER_OPEN + r.commit + MARKER_PATH + r.path + MARKER_DIGEST + r.artifact + MARKER_CLOSE
  }

  /** The verifier's pattern: the digests have fixed lengths, so everything between them is the path. */
  function Capture(line: string): (r: Option<Reference>) {
    var from, to := |MARKER_OPEN|, |line| - |MARKER_CLOSE|;
    if to - 64 - |MARKER_DIGEST| < from + 40 + |MARKER_PATH| then None
    else
      var commit, artifact := line[from..from + 40], line[to - 64..to];
      var path := line[from + 40 + |MARKER_PATH|..to - 64 - |MARKER_DIGEST|];
      if && LowerHex(commit, 40) && LowerHex(artifact, 64) && path != "" && ' ' !in path
         && line == MARKER_OPEN + commit + MARKER_PATH + path + MARKER_DIGEST + artifact + MARKER_CLOSE
      then Some(Reference(commit, path, artifact)) else None
  }

  lemma {:induction false} Middle(a: string, b: string, c: string)
    ensures (a + b + c)[|a|..|a| + |b|] == b
  {
    assert a + b + c == a + (b + c);
  }

  /** Where the three captured parts stand in a line of seven. */
  lemma {:induction false} Segments(a: string, b: string, c: string, d: string, e: string, f: string, g: string,
                                    line: string)
    requires line == a + b + c + d + e + f + g
    ensures line[|a|..|a| + |b|] == b && line[|a| + |b| + |c|..|a| + |b| + |c| + |d|] == d
    ensures line[|line| - |g| - |f|..|line| - |g|] == f
  {
    var head := a + b + c;
    Middle(a, b, c);
    Middle(head, d, e);
    Middle(head + d + e, f, g);
    assert line[..|head + d + e|] == head + d + e;
    assert (head + d + e)[..|head|] == head;
  }

  /** The pattern captures a reference exactly from the lines that name it. */
  lemma {:induction false} CaptureExact(line: string, r: Reference)
    ensures Capture(line) == Some(r) <==> NamesReceipt(line, r)
  {
    HexExact(r.commit, 40);
    HexExact(r.artifact, 64);
    if NamesReceipt(line, r) {
      Segments(MARKER_OPEN, r.commit, MARKER_PATH, r.path, MARKER_DIGEST, r.artifact, MARKER_CLOSE, line);
    }
  }

  lemma {:induction false} NoBlanks(a: string, b: string)
    ensures ' ' in a + b <==> ' ' in a || ' ' in b
  {
  }

  lemma {:induction false} PathPlain(repo: string, sha: string, artifact: string)
    requires Hex(artifact, 64)
    ensures ' ' !in CanonicalPath(repo, sha, artifact) <==> ' ' !in repo && ' ' !in sha
    ensures CanonicalPath(repo, sha, artifact) != ""
  {
    HexExact(artifact, 64);
    NoBlanks("validation-receipts/", repo);
    NoBlanks("validation-receipts/" + repo, "/");
    NoBlanks("validation-receipts/" + repo + "/", sha);
    NoBlanks("validation-receipts/" + repo + "/" + sha, "/");
    NoBlanks("validation-receipts/" + repo + "/" + sha + "/", artifact);
    NoBlanks("validation-receipts/" + repo + "/" + sha + "/" + artifact, ".json");
  }

  /** What the hub looks for and removes is what the verifier reads: the marker of a reference is the one line that
      names it, unless the repository or the commit has a blank in its name, and then no line does. */
  lemma {:induction false} MarkerRoundTrip(r: Reference, repo: string, sha: string, line: string)
    requires WellFormed(r, repo, sha)
    ensures Capture(line) == Some(r) <==> line == Marker(r) && ' ' !in repo && ' ' !in sha
  {
    HexExact(r.commit, 40);
    HexExact(r.artifact, 64);
    PathPlain(repo, sha, r.artifact);
    CaptureExact(line, r);
  }

  /** What the verifier must print for a reference to be accepted, field by field. */
  lemma {:induction false} ParseMeans(tokens: seq<string>, r: Reference, repo: string, sha: string)
    ensures ParseReference(tokens, repo, sha) == Ok(r) <==>
            && Hex(r.commit, 40) && Hex(r.artifact, 64)
            && r.path == "validation-receipts/" + repo + "/" + sha + "/" + r.artifact + ".json"
            && multiset(tokens) == multiset{"receipt_commit=" + r.commit, "receipt_path=" + r.path,
                                            "receipt_sha256=" + r.artifact}
  {
    HexExact(r.commit, 40);
    HexExact(r.artifact, 64);
    ParseExact(tokens, r, repo, sha);
    TokenTexts(r);
  }

  lemma {:induction false} TokenTexts(r: Reference)
    ensures Token(Pair(COMMIT, r.commit)) == "receipt_commit=" + r.commit
    ensures Token(Pair(PATH, r.path)) == "receipt_path=" + r.path
    ensures Token(Pair(DIGEST, r.artifact)) == "receipt_sha256=" + r.artifact
  {
    assert COMMIT + "=" == "receipt_commit=" && PATH + "=" == "receipt_path=" && DIGEST + "=" == "receipt_sha256=";
  }

  // ----------------------------------------------------------------- reuse loop

  /** What one verifier call ended with: its output fields, exit 1, or any other failure. */
  datatype VerifierExit = Accepted(tokens: seq<string>) | NoReceipt | Failed(text: string)

  /**
   The outside: every verifier call and every fetch, numbered, so that equal inputs may be answered
   differently. `fetch` succeeds only with an artifact that matches the selected row.
   */
  datatype World = World(repo: string, sha: string,
                         verify: (nat, Json) -> VerifierExit,
                         fetch: (nat, Reference) -> Result<string, string>)

  function RunVerifier(w: World, k: nat, comments: Json): (r: Result<Option<Reference>, Rejection>)
    ensures r.Ok? && r.value.Some? ==> WellFormed(r.value.value, w.repo, w.sha)
  {
    match w.verify(k, comments)
    case NoReceipt => Ok(None)
    case Failed(text) => Err(VerifierFailed(text))
    case Accepted(tokens) =>
      var reference := ParseReference(tokens, w.repo, w.sha);
      if reference.Ok? then Ok(Some(reference.value)) else Err(reference.error)
  }

  datatype Outcome = Reused(artifact: string) | NoMarker | Rejected(reason: Rejection)

  /** The loop from its `k`-th verifier call on. */
  function Reuse(w: World, comments: Json, k: nat, last: Option<Rejection>): (o: Outcome)
    decreases |Content(comments)|
  {
    match RunVerifier(w, k, comments)
    case Err(reason) => Rejected(reason)
    case Ok(None) => if last.Some? then Rejected(last.value) else NoMarker
    case Ok(Some(reference)) =>
      match w.fetch(k, reference)
      case Ok(artifact) => Reused(artifact)
      case Err(text) =>
        if Count(BodyLines(comments), Marker(reference)) == 0 then Rejected(MarkerAbsent)
        else
          RemovalShrinks(comments, Marker(reference));
          Reuse(w, Without(comments, Marker(reference)), k + 1, Some(FetchFailed(text)))
  }

  method ReuseExistingImmutableReceipt(w: World, fetched: Json) returns (o: Outcome)
    ensures o == Reuse(w, fetched, 0, None)
  {
    var comments := fetched;
    var lastRejection: Option<Rejection> := None;
    var k: nat := 0;
    while true
      invariant Reuse(w, comments, k, lastRejection) == Reuse(w, fetched, 0, None)
      decreases |Content(comments)|
    {
      var verified := RunVerifier(w, k, comments);
      if verified.Err? {
        return Rejected(verified.error);
      }
      if verified.value.None? {
        return if lastRejection.Some? then Rejected(lastRejection.value) else NoMarker;
      }
      var reference := verified.value.value;
      var artifact := w.fetch(k, reference);
      if artifact.Ok? {
        return Reused(artifact.value);
      }
      lastRejection := Some(FetchFailed(artifact.error));
      var edited, removed := RemoveExactCommentMarker(comments, Marker(reference));
      if removed == 0 {
        return Rejected(MarkerAbsent);
      }
      RemovalShrinks(comments, Marker(reference));
      comments := edited;
      k := k + 1;
    }
  }

  /** The comments after the markers of `rejected` were removed one after another. */
  function Pruned(comments: Json, rejected: seq<Reference>): (r: Json) {
    if rejected == [] then comments
    else Without(Pruned(comments, rejected[..|rejected| - 1]), Marker(rejected[|rejected| - 1]))
  }

  /** Call `i` named `rejected[i]`, its artifact was refused, and its marker was there to remove. */
  ghost predicate RejectedAt(w: World, comments: Json, rejected: seq<Reference>, i: nat)
    requires i < |rejected|
  {
    var seen := Pruned(comments, rejected[..i]);
    && RunVerifier(w, i, seen) == Ok(Some(rejected[i]))
    && w.fetch(i, rejected[i]).Err?
    && Marker(rejected[i]) in Content(seen)
  }

  ghost predicate History(w: World, comments: Json, rejected: seq<Reference>) {
    forall i :: 0 <= i < |rejected| ==> RejectedAt(w, comments, rejected, i)
  }

  lemma {:induction false} HistoryGrows(w: World, comments: Json, rejected: seq<Reference>, r: Reference)
    requires History(w, comments, rejected)
    requires RunVerifier(w, |rejected|, Pruned(comments, rejected)) == Ok(Some(r))
    requires w.fetch(|rejected|, r).Err? && Marker(r) in Content(Pruned(comments, rejected))
    ensures History(w, comments, rejected + [r])
    ensures Pruned(comments, rejected + [r]) == Without(Pruned(comments, rejected), Marker(r))
  {
    var grown := rejected + [r];
    assert grown[..|rejected|] == rejected;
    forall i | 0 <= i < |grown| ensures RejectedAt(w, comments, grown, i) {
      if i < |rejected| {
        assert RejectedAt(w, comments, rejected, i);
        assert grown[..i] == rejected[..i];
      }
    }
  }

  /** The last call's answers, given the calls already rejected, decide the outcome. */
  ghost predicate Decides(w: World, comments: Json, rejected: seq<Reference>, o: Outcome) {
    var n := |rejected|;
    var answer := RunVerifier(w, n, Pruned(comments, rejected));
    var found := answer.Ok? && answer.value.Some? && w.fetch(n, answer.value.value).Ok?;
    && (o.Reused? <==> found)
    && (o.Reused? ==> w.fetch(n, answer.value.value) == Ok(o.artifact))
    && (o.NoMarker? <==> answer == Ok(None) && rejected == [])
  }

  /** Whether call `k` names a refused reference whose marker is there to remove. */
  predicate Retries(w: World, comments: Json, k: nat) {
    var answer := RunVerifier(w, k, comments);
    && answer.Ok? && answer.value.Some?
    && w.fetch(k, answer.value.value).Err?
    && Count(BodyLines(comments), Marker(answer.value.value)) > 0
  }

  lemma {:induction false} StopsWhenNotRetrying(w: World, comments: Json, sofar: seq<Reference>,
                                                last: Option<Rejection>)
    requires !Retries(w, Pruned(comments, sofar), |sofar|) && (last.Some? <==> sofar != [])
    ensures Decides(w, comments, sofar, Reuse(w, Pruned(comments, sofar), |sofar|, last))
  {
  }

  /** Call `k` rejects `r` and the run goes on without its marker, to the same outcome. */
  ghost predicate Advance(w: World, seen: Json, k: nat, last: Option<Rejection>, r: Reference, after: Json,
                          next: Option<Rejection>) {
    && RunVerifier(w, k, seen) == Ok(Some(r)) && w.fetch(k, r).Err? && Marker(r) in Content(seen)
    && after == Without(seen, Marker(r)) && |Content(after)| < |Content(seen)|
    && next.Some? && Reuse(w, seen, k, last) == Reuse(w, after, k + 1, next)
  }

  lemma {:induction false} RetriesOnce(w: World, seen: Json, k: nat, last: Option<Rejection>)
    returns (r: Reference, after: Json, next: Option<Rejection>)
    requires Retries(w, seen, k)
    ensures Advance(w, seen, k, last, r, after, next)
  {
    r := RunVerifier(w, k, seen).value.value;
    after := Without(seen, Marker(r));
    next := Some(FetchFailed(w.fetch(k, r).error));
    RemovalShrinks(seen, Marker(r));
  }

  /** A run that has rejected `sofar`, sees `seen` and will end with `o`. */
  ghost predicate Stage(w: World, comments: Json, sofar: seq<Reference>, seen: Json, last: Option<Rejection>, size: nat,
                        o: Outcome) {
    && History(w, comments, sofar) && (last.Some? <==> sofar != []) && seen == Pruned(comments, sofar)
    && size == |Content(seen)| && o == Reuse(w, seen, |sofar|, last)
  }

  /** `rejected` is what such a run rejects before the call that decides its outcome. */
  ghost predicate Explains(w: World, comments: Json, sofar: seq<Reference>, size: nat, o: Outcome,
                           rejected: seq<Reference>) {
    History(w, comments, rejected) && |sofar| <= |rejected| <= |sofar| + size && Decides(w, comments, rejected, o)
  }

  lemma {:induction false} TrailGrows(w: World, comments: Json, sofar: seq<Reference>, seen: Json, r: Reference,
                                      after: Json)
    requires History(w, comments, sofar) && seen == Pruned(comments, sofar) && after == Without(seen, Marker(r))
    requires RunVerifier(w, |sofar|, seen) == Ok(Some(r)) && w.fetch(|sofar|, r).Err? && Marker(r) in Content(seen)
    ensures History(w, comments, sofar + [r]) && after == Pruned(comments, sofar + [r])
  {
    HistoryGrows(w, comments, sofar, r);
  }

  lemma {:induction false} StageGrown(w: World, comments: Json, grown: seq<Reference>, after: Json,
                                      next: Option<Rejection>, o: Outcome)
    requires History(w, comments, grown) && next.Some? && grown != [] && after == Pruned(comments, grown)
    requires o == Reuse(w, after, |grown|, next)
    ensures Stage(w, comments, grown, after, next, |Content(after)|, o)
  {
  }

  lemma {:induction false} StageAdvances(w: World, comments: Json, sofar: seq<Reference>, seen: Json,
                                         last: Option<Rejection>, size: nat, o: Outcome, r: Reference, after: Json,
                                         next: Option<Rejection>)
    requires Stage(w, comments, sofar, seen, last, size, o) && Advance(w, seen, |sofar|, last, r, after, next)
    ensures Stage(w, comments, sofar + [r], after, next, |Content(after)|, o) && |Content(after)| < size
  {
    TrailGrows(w, comments, sofar, seen, r, after);
    StageGrown(w, comments, sofar + [r], after, next, o);
  }

  lemma {:induction false} StageStops(w: World, comments: Json, sofar: seq<Reference>, seen: Json,
                                      last: Option<Rejection>, size: nat, o: Outcome)
    requires Stage(w, comments, sofar, seen, last, size, o) && !Retries(w, seen, |sofar|)
    ensures Explains(w, comments, sofar, size, o, sofar)
  {
    StopsWhenNotRetrying(w, comments, sofar, last);
  }

  lemma {:induction false} ExplainsEarlier(w: World, comments: Json, sofar: seq<Reference>, r: Reference, size: nat,
                                           less: nat, o: Outcome, rejected: seq<Reference>)
    requires Explains(w, comments, sofar + [r], less, o, rejected) && less < size
    ensures Explains(w, comments, sofar, size, o, rejected)
  {
  }

  lemma {:induction false} ExplainedFrom(w: World, comments: Json, sofar: seq<Reference>, seen: Json,
                                         last: Option<Rejection>, size: nat, o: Outcome)
    returns (rejected: seq<Reference>)
    requires Stage(w, comments, sofar, seen, last, size, o)
    ensures Explains(w, comments, sofar, size, o, rejected)
    decreases size
  {
    if Retries(w, seen, |sofar|) {
      var r, after, next := RetriesOnce(w, seen, |sofar|, last);
      StageAdvances(w, comments, sofar, seen, last, size, o, r, after, next);
      rejected := ExplainedFrom(w, comments, sofar + [r], after, next, |Content(after)|, o);
      ExplainsEarlier(w, comments, sofar, r, size, |Content(after)|, o, rejected);
    } else {
      rejected := sofar;
      StageStops(w, comments, sofar, seen, last, size, o);
    }
  }

  /**
   Every run is a list of rejected references, no longer than the number of nonempty body lines,
   followed by the one call that decides: an artifact is returned only when that call's reference
   was fetched and matched, and nothing at all was found only when the first call finds nothing.
   */
  lemma {:induction false} ReuseExplained(w: World, comments: Json) returns (rejected: seq<Reference>)
    ensures History(w, comments, rejected) && |rejected| <= |Content(comments)|
    ensures Decides(w, comments, rejected, Reuse(w, comments, 0, None))
  {
    rejected := ExplainedFrom(w, comments, [], comments, None, |Content(comments)|, Reuse(w, comments, 0, None));
  }

  lemma {:induction false} NothingFoundIff(w: World, comments: Json)
    ensures Reuse(w, comments, 0, None) == NoMarker <==> w.verify(0, comments) == NoReceipt
  {
    var rejected := ReuseExplained(w, comments);
  }

  /** The verifier finds some valid marker whenever one remains. */
  ghost predicate Finds(w: World, valid: Reference -> bool) {
    forall k: nat, comments: Json, r: Reference :: valid(r) && Marker(r) in Content(comments)
        ==> FindsIn(w, valid, k, comments)
  }

  ghost predicate FindsIn(w: World, valid: Reference -> bool, k: nat, comments: Json) {
    var answer := RunVerifier(w, k, comments);
    answer.Ok? && answer.value.Some? && valid(answer.value.value) && Marker(answer.value.value) in Content(comments)
  }

  /** A valid marker whose artifact matches the selected row is always found, however many others come first. */
  lemma {:induction false} ReuseComplete(w: World, valid: Reference -> bool, comments: Json, target: Reference, k: nat,
                                         last: Option<Rejection>)
    requires Finds(w, valid) && valid(target) && WellFormed(target, w.repo, w.sha)
    requires Marker(target) in Content(comments)
    requires forall n :: w.fetch(n, target).Ok?
    ensures Reuse(w, comments, k, last).Reused?
    decreases |Content(comments)|
  {
    assert FindsIn(w, valid, k, comments);
    var r := RunVerifier(w, k, comments).value.value;
    if w.fetch(k, r).Err? {
      if Marker(r) == Marker(target) {
        MarkerInjective(r, target, w.repo, w.sha);
      }
      RemovalShrinks(comments, Marker(r));
      RemovalExact(comments, Marker(r));
      DropMembers(Content(comments), Marker(r), Marker(target));
      ReuseComplete(w, valid, Without(comments, Marker(r)), target, k + 1, Some(FetchFailed(w.fetch(k, r).error)));
    }
  }
}
