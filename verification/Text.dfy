/**
Strings and sequences as the tools handle them: separator splitting and joining,
code-point ordering and sorting, Python-style stripping, and decimal integers.
*/
module Text {

  datatype Option<+T> = None | Some(value: T)

  datatype Result<+T, +E> = Ok(value: T) | Err(error: E)

  const NEWLINE: char := '\n'
  const TAB: char := '\t'
  const CR: char := '\r'

  // ---------------------------------------------------------------- splitting

  /** The parts between the occurrences of `sep`: always at least one part, none containing `sep`. */
  function SplitOn<T(==)>(s: seq<T>, sep: T): (parts: seq<seq<T>>)
    ensures |parts| >= 1
    ensures forall i :: 0 <= i < |parts| ==> sep !in parts[i]
    ensures JoinWith(parts, sep) == s
  {
    if s == [] then [[]]
    else
      var rest := SplitOn(s[1..], sep);
      if s[0] == sep then
        assert JoinWith([[]] + rest, sep) == [] + [sep] + JoinWith(rest, sep) by {
          assert ([[]] + rest)[1..] == rest;
        }
        [[]] + rest
      else
        assert JoinWith([[s[0]] + rest[0]] + rest[1..], sep) == [s[0]] + JoinWith(rest, sep) by {
          assert ([[s[0]] + rest[0]] + rest[1..])[1..] == rest[1..];
        }
        [[s[0]] + rest[0]] + rest[1..]
  }

  function JoinWith<T>(parts: seq<seq<T>>, sep: T): (s: seq<T>) {
    if |parts| == 0 then []
    else if |parts| == 1 then parts[0]
    else parts[0] + [sep] + JoinWith(parts[1..], sep)
  }

  /** Each part followed by its own terminator. */
  function Terminated<T>(parts: seq<seq<T>>, sep: T): (s: seq<T>) {
    if |parts| == 0 then [] else parts[0] + [sep] + Terminated(parts[1..], sep)
  }

  ghost predicate Free<T>(parts: seq<seq<T>>, sep: T) {
    forall i :: 0 <= i < |parts| ==> sep !in parts[i]
  }

  lemma {:induction false} SplitAfterPart<T>(part: seq<T>, rest: seq<T>, sep: T)
    requires sep !in part
    ensures SplitOn(part + [sep] + rest, sep) == [part] + SplitOn(rest, sep)
  {
    var s := part + [sep] + rest;
    if part == [] {
      assert s[1..] == rest;
    } else {
      SplitAfterPart(part[1..], rest, sep);
      assert s[1..] == part[1..] + [sep] + rest;
      assert [part[0]] + part[1..] == part;
    }
  }

  lemma {:induction false} SplitLastPart<T>(part: seq<T>, sep: T)
    requires sep !in part
    ensures SplitOn(part, sep) == [part]
  {
    if part != [] {
      SplitLastPart(part[1..], sep);
      assert [part[0]] + part[1..] == part;
    }
  }

  /** Splitting undoes joining on every nonempty list of separator-free parts. */
  lemma {:induction false} SplitJoin<T>(parts: seq<seq<T>>, sep: T)
    requires |parts| >= 1 && Free(parts, sep)
    ensures SplitOn(JoinWith(parts, sep), sep) == parts
  {
    if |parts| == 1 {
      SplitLastPart(parts[0], sep);
    } else {
      SplitJoin(parts[1..], sep);
      SplitAfterPart(parts[0], JoinWith(parts[1..], sep), sep);
      assert [parts[0]] + parts[1..] == parts;
    }
  }

  lemma {:induction false} SplitTerminated<T>(parts: seq<seq<T>>, sep: T)
    requires Free(parts, sep)
    ensures SplitOn(Terminated(parts, sep), sep) == parts + [[]]
  {
    if |parts| == 0 {
    } else {
      SplitTerminated(parts[1..], sep);
      SplitAfterPart(parts[0], Terminated(parts[1..], sep), sep);
      assert [parts[0]] + (parts[1..] + [[]]) == parts + [[]];
    }
  }

  /** The terminated encoding determines the list of separator-free parts. */
  lemma {:induction false} TerminatedInjective<T>(a: seq<seq<T>>, b: seq<seq<T>>, sep: T)
    requires Free(a, sep) && Free(b, sep)
    requires Terminated(a, sep) == Terminated(b, sep)
    ensures a == b
  {
    SplitTerminated(a, sep);
    SplitTerminated(b, sep);
    assert a == (a + [[]])[..|a + [[]]| - 1];
    assert b == (b + [[]])[..|b + [[]]| - 1];
  }

  lemma {:induction false} TerminatedAppend<T>(a: seq<seq<T>>, b: seq<seq<T>>, sep: T)
    ensures Terminated(a + b, sep) == Terminated(a, sep) + Terminated(b, sep)
  {
    if a == [] {
      assert a + b == b;
    } else {
      calc {
        Terminated(a + b, sep);
        { assert (a + b)[0] == a[0] && (a + b)[1..] == a[1..] + b; }
        a[0] + [sep] + Terminated(a[1..] + b, sep);
        { TerminatedAppend(a[1..], b, sep); }
        a[0] + [sep] + (Terminated(a[1..], sep) + Terminated(b, sep));
        Terminated(a, sep) + Terminated(b, sep);
      }
    }
  }

  // ----------------------------------------------------------------- ordering

  /** Code-point order, which UTF-8 byte order agrees with. */
  predicate StrLe(a: string, b: string) {
    a == [] || (b != [] && (a[0] < b[0] || (a[0] == b[0] && StrLe(a[1..], b[1..]))))
  }

  predicate StrLess(a: string, b: string) {
    a != b && StrLe(a, b)
  }

  lemma {:induction false} StrLeTotal(a: string, b: string)
    ensures StrLe(a, b) || StrLe(b, a)
    ensures StrLe(a, a)
  {
    if a != [] {
      if b != [] {
        StrLeTotal(a[1..], b[1..]);
      } else {
        StrLeTotal(a[1..], []);
      }
    }
  }

  lemma {:induction false} StrLeAntisymmetric(a: string, b: string)
    requires StrLe(a, b) && StrLe(b, a)
    ensures a == b
  {
    if a != [] && b != [] {
      StrLeAntisymmetric(a[1..], b[1..]);
      assert a == [a[0]] + a[1..] && b == [b[0]] + b[1..];
    }
  }

  lemma {:induction false} StrLeTransitive(a: string, b: string, c: string)
    requires StrLe(a, b) && StrLe(b, c)
    ensures StrLe(a, c)
  {
    if a != [] && a[0] == b[0] && b[0] == c[0] {
      StrLeTransitive(a[1..], b[1..], c[1..]);
    }
  }

  ghost predicate Sorted(xs: seq<string>) {
    forall i, j :: 0 <= i < j < |xs| ==> StrLe(xs[i], xs[j])
  }

  function Insert(x: string, xs: seq<string>): (r: seq<string>)
    requires Sorted(xs)
    ensures Sorted(r)
    ensures multiset(r) == multiset{x} + multiset(xs)
  {
    if xs == [] then [x]
    else if StrLe(x, xs[0]) then
      assert Sorted([x] + xs) by {
        forall j | 0 <= j < |xs| ensures StrLe(x, xs[j]) {
          if j > 0 { StrLeTransitive(x, xs[0], xs[j]); }
        }
      }
      [x] + xs
    else
      var rest := Insert(x, xs[1..]);
      assert xs == [xs[0]] + xs[1..];
      assert Sorted([xs[0]] + rest) by {
        StrLeTotal(x, xs[0]);
        forall j | 0 <= j < |rest| ensures StrLe(xs[0], rest[j]) {
          assert rest[j] in multiset(rest);
          assert rest[j] == x || rest[j] in multiset(xs[1..]);
        }
      }
      [xs[0]] + rest
  }

  function Sort(xs: seq<string>): (r: seq<string>)
    ensures Sorted(r)
    ensures multiset(r) == multiset(xs)
  {
    if xs == [] then []
    else
      assert xs == [xs[0]] + xs[1..];
      Insert(xs[0], Sort(xs[1..]))
  }

  lemma {:induction false} SortedHeadLeast(a: seq<string>, x: string)
    requires Sorted(a) && x in multiset(a)
    ensures StrLe(a[0], x)
  {
    var i :| 0 <= i < |a| && a[i] == x;
    StrLeTotal(x, x);
  }

  lemma {:induction false} MultisetTail<T>(a: seq<T>)
    requires a != []
    ensures multiset(a[1..]) == multiset(a) - multiset{a[0]}
  {
    assert a == [a[0]] + a[1..];
  }

  lemma {:induction false} SortedUnique(a: seq<string>, b: seq<string>)
    requires Sorted(a) && Sorted(b) && multiset(a) == multiset(b)
    ensures a == b
  {
    assert |a| == |multiset(a)| == |multiset(b)| == |b|;
    if a != [] {
      assert a[0] in multiset(b) && b[0] in multiset(a);
      SortedHeadLeast(a, b[0]);
      SortedHeadLeast(b, a[0]);
      StrLeAntisymmetric(a[0], b[0]);
      MultisetTail(a);
      MultisetTail(b);
      SortedUnique(a[1..], b[1..]);
      assert a == [a[0]] + a[1..] && b == [b[0]] + b[1..];
    }
  }

  /** Sorting forgets exactly the order: equal results if and only if equal multisets. */
  lemma {:induction false} SortCanonical(a: seq<string>, b: seq<string>)
    ensures Sort(a) == Sort(b) <==> multiset(a) == multiset(b)
  {
    if multiset(a) == multiset(b) {
      SortedUnique(Sort(a), Sort(b));
    } else {
      assert multiset(Sort(a)) != multiset(Sort(b));
    }
  }

  // ---------------------------------------------------------------- stripping

  /** The characters Python's `str.strip()` removes. */
  predicate IsSpace(c: char) {
    || '\t' <= c <= '\r'
    || '\U{1c}' <= c <= ' '
    || c == '\U{85}' || c == '\U{a0}' || c == '\U{1680}'
    || '\U{2000}' <= c <= '\U{200a}'
    || c == '\U{2028}' || c == '\U{2029}' || c == '\U{202f}' || c == '\U{205f}' || c == '\U{3000}'
  }

  function StripLeft(s: string): (r: string)
    ensures r == [] || !IsSpace(r[0])
    ensures s != [] && !IsSpace(s[0]) ==> r == s
  {
    if s != [] && IsSpace(s[0]) then StripLeft(s[1..]) else s
  }

  function StripRight(s: string): (r: string)
    ensures r <= s
    ensures r == [] || !IsSpace(r[|r| - 1])
    ensures s != [] && !IsSpace(s[|s| - 1]) ==> r == s
  {
    if s != [] && IsSpace(s[|s| - 1]) then StripRight(s[..|s| - 1]) else s
  }

  function Strip(s: string): (r: string)
    ensures r == [] || (!IsSpace(r[0]) && !IsSpace(r[|r| - 1]))
    ensures s != [] && !IsSpace(s[0]) && !IsSpace(s[|s| - 1]) ==> r == s
  {
    StripRight(StripLeft(s))
  }

  predicate Trimmed(s: string) {
    s == [] || (!IsSpace(s[0]) && !IsSpace(s[|s| - 1]))
  }

  lemma {:induction false} StripTrimmed(s: string)
    ensures Trimmed(Strip(s))
    ensures Trimmed(s) <==> Strip(s) == s
    ensures Strip(Strip(s)) == Strip(s)
  {
  }

  predicate Blank(s: string) {
    Strip(s) == ""
  }

  function LowerChar(c: char): char {
    if 'A' <= c <= 'Z' then ((c as int) - ('A' as int) + ('a' as int)) as char else c
  }

  /** ASCII lower-casing; every literal it is compared with is ASCII. */
  function Lower(s: string): (r: string)
    ensures |r| == |s|
    ensures forall i :: 0 <= i < |s| ==> r[i] == LowerChar(s[i])
  {
    seq(|s|, i requires 0 <= i < |s| => LowerChar(s[i]))
  }

  // ----------------------------------------------------------------- integers

  predicate IsDigit(c: char) {
    '0' <= c <= '9'
  }

  function DigitChar(d: nat): (c: char)
    requires d < 10
    ensures IsDigit(c) && DigitValue(c) == d
  {
    ('0' as int + d) as char
  }

  function DigitValue(c: char): (d: nat)
    requires IsDigit(c)
  {
    c as int - '0' as int
  }

  function Decimal(n: nat): (s: string)
    ensures s != [] && forall i :: 0 <= i < |s| ==> IsDigit(s[i])
  {
    if n < 10 then [DigitChar(n)] else Decimal(n / 10) + [DigitChar(n % 10)]
  }

  /** Digits with single underscores allowed between them, as Python's `int` reads them. */
  function ParseDigits(s: string, acc: nat, afterDigit: bool): (r: Option<nat>) {
    if s == [] then (if afterDigit then Some(acc) else None)
    else if IsDigit(s[0]) then ParseDigits(s[1..], acc * 10 + DigitValue(s[0]), true)
    else if s[0] == '_' && afterDigit then ParseDigits(s[1..], acc, false)
    else None
  }

  function ParseInt(raw: string): (r: Option<int>) {
    var s := Strip(raw);
    var signed := s != [] && (s[0] == '+' || s[0] == '-');
    var magnitude := ParseDigits(if signed then s[1..] else s, 0, false);
    if magnitude.None? then None
    else if signed && s[0] == '-' then Some(0 - magnitude.value)
    else Some(magnitude.value)
  }

  lemma {:induction false} ParseDecimalDigits(n: nat, rest: string, afterDigit: bool)
    ensures ParseDigits(Decimal(n) + rest, 0, afterDigit) == ParseDigits(rest, n, true)
  {
    var s := Decimal(n) + rest;
    if n < 10 {
      assert s[1..] == rest;
    } else {
      var d := DigitChar(n % 10);
      assert s == Decimal(n / 10) + ([d] + rest);
      ParseDecimalDigits(n / 10, [d] + rest, afterDigit);
      assert ([d] + rest)[1..] == rest;
    }
  }

  /** A printed count reads back as itself and is never blank. */
  lemma {:induction false} ParsePrinted(n: nat)
    ensures ParseInt(Decimal(n)) == Some(n)
    ensures Trimmed(Decimal(n)) && !Blank(Decimal(n))
  {
    var s := Decimal(n);
    assert IsDigit(s[0]) && IsDigit(s[|s| - 1]);
    assert Strip(s) == s;
    ParseDecimalDigits(n, [], false);
    assert s + [] == s;
  }

  /** Whether a word occurs somewhere in a text. */
  predicate Contains(s: string, w: string) {
    |s| >= |w| && (s[..|w|] == w || (s != "" && Contains(s[1..], w)))
  }

  // -------------------------------------------------------------------- digests

  /** Exactly `n` lower-case hexadecimal digits. */
  predicate LowerHex(s: string, n: nat) {
    |s| == n && forall i :: 0 <= i < |s| ==> '0' <= s[i] <= '9' || 'a' <= s[i] <= 'f'
  }

  // ---------------------------------------------------------- prefixes and sets

  lemma {:induction false} PrefixGrows<T>(xs: seq<T>, i: nat)
    requires i < |xs|
    ensures xs[..i + 1] == xs[..i] + [xs[i]]
  {
  }

  lemma {:induction false} SubsetSize<T>(a: set<T>, b: set<T>)
    requires a <= b
    ensures |a| <= |b|
  {
    assert b == a + (b - a);
    assert |b| == |a| + |b - a|;
  }
}
