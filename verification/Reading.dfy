/**
What the text readers mean, said of the characters themselves: stripping, letter case, Python's
integers and containment.
*/
module Reading {
  import opened Text

  // ---------------------------------------------------------------- stripping

  ghost predicate AllSpace(s: string) {
    forall i :: 0 <= i < |s| ==> IsSpace(s[i])
  }

  /** `core` stands at `a` in `s` with nothing but white space around it. */
  ghost predicate CoreAt(s: string, core: string, a: nat) {
    && a + |core| <= |s| && s[a..a + |core|] == core
    && (forall i :: 0 <= i < a ==> IsSpace(s[i]))
    && (forall i :: a + |core| <= i < |s| ==> IsSpace(s[i]))
  }

  ghost predicate Padded(s: string, core: string) {
    exists a: nat :: CoreAt(s, core, a)
  }

  lemma {:induction false} StripLeftAt(s: string) returns (a: nat)
    ensures a <= |s| && StripLeft(s) == s[a..] && forall i :: 0 <= i < a ==> IsSpace(s[i])
  {
    if s != "" && IsSpace(s[0]) {
      var b := StripLeftAt(s[1..]);
      a := b + 1;
      assert s[1..][b..] == s[a..];
      forall i | 0 <= i < a ensures IsSpace(s[i]) {
        if i > 0 { assert s[i] == s[1..][i - 1]; }
      }
    } else {
      a := 0;
    }
  }

  lemma {:induction false} StripRightAt(s: string)
    ensures forall i :: |StripRight(s)| <= i < |s| ==> IsSpace(s[i])
  {
    if s != "" && IsSpace(s[|s| - 1]) {
      StripRightAt(s[..|s| - 1]);
    }
  }

  lemma {:induction false} StripPadded(s: string)
    ensures Padded(s, Strip(s))
  {
    var a := StripLeftAt(s);
    var left, core := s[a..], Strip(s);
    StripRightAt(left);
    forall i | a + |core| <= i < |s| ensures IsSpace(s[i]) {
      assert s[i] == left[i - a];
    }
    assert CoreAt(s, core, a);
  }

  lemma {:induction false} CoreWithin(s: string, x: string, a: nat, y: string, b: nat)
    requires x != "" && Trimmed(x) && CoreAt(s, x, a) && CoreAt(s, y, b)
    ensures b <= a && a + |x| <= b + |y|
  {
    assert !IsSpace(s[a]) && !IsSpace(s[a + |x| - 1]);
  }

  lemma {:induction false} SameCore(s: string, x: string, a: nat, y: string, b: nat)
    requires Trimmed(x) && Trimmed(y) && CoreAt(s, x, a) && CoreAt(s, y, b)
    ensures x == y
  {
    if x != "" {
      CoreWithin(s, x, a, y, b);
    }
    if y != "" {
      CoreWithin(s, y, b, x, a);
    }
  }

  /** Stripping gives the one trimmed text that has only white space around it. */
  lemma {:induction false} StripExact(s: string, core: string)
    ensures Strip(s) == core <==> Trimmed(core) && Padded(s, core)
  {
    StripPadded(s);
    StripTrimmed(s);
    if Trimmed(core) && Padded(s, core) {
      var a: nat :| CoreAt(s, core, a);
      var b: nat :| CoreAt(s, Strip(s), b);
      SameCore(s, core, a, Strip(s), b);
    }
  }

  // -------------------------------------------------------------- letter case

  /** The character is the letter given, in either case. */
  predicate EitherCase(c: char, letter: char) {
    c == letter || ('a' <= letter <= 'z' && c as int + 32 == letter as int)
  }

  /** The text is the word given, in any mixture of letter cases. */
  ghost predicate Spells(s: string, word: string) {
    |s| == |word| && forall i :: 0 <= i < |s| ==> EitherCase(s[i], word[i])
  }

  ghost predicate NoCapitals(word: string) {
    forall i :: 0 <= i < |word| ==> !('A' <= word[i] <= 'Z')
  }

  lemma {:induction false} LowerExact(s: string, word: string)
    requires NoCapitals(word)
    ensures Lower(s) == word <==> Spells(s, word)
  {
    if Spells(s, word) {
      forall i | 0 <= i < |s| ensures Lower(s)[i] == word[i] {
        assert EitherCase(s[i], word[i]);
      }
    }
    if Lower(s) == word {
      forall i | 0 <= i < |s| ensures EitherCase(s[i], word[i]) {
        assert Lower(s)[i] == word[i];
      }
    }
  }

  /** Surrounding white space and letter case aside, the text reads as the word. */
  ghost predicate Reads(s: string, word: string) {
    exists core: string :: Padded(s, core) && Spells(core, word)
  }

  lemma {:induction false} SpelledTrimmed(core: string, word: string)
    requires NoCapitals(word) && Trimmed(word) && Spells(core, word)
    ensures Trimmed(core)
  {
    if core != "" {
      assert EitherCase(core[0], word[0]);
      assert EitherCase(core[|core| - 1], word[|word| - 1]);
    }
  }

  lemma {:induction false} ReadsExact(s: string, word: string)
    requires NoCapitals(word) && Trimmed(word)
    ensures Lower(Strip(s)) == word <==> Reads(s, word)
  {
    LowerExact(Strip(s), word);
    StripPadded(s);
    if Reads(s, word) {
      var core :| Padded(s, core) && Spells(core, word);
      SpelledTrimmed(core, word);
      StripExact(s, core);
    }
  }

  /** Nothing but white space. */
  lemma {:induction false} BlankExact(s: string)
    ensures Strip(s) == "" <==> AllSpace(s)
  {
    StripExact(s, "");
    if AllSpace(s) {
      assert CoreAt(s, "", 0);
    }
    if Padded(s, "") {
      var a: nat :| CoreAt(s, "", a);
    }
  }

  // ----------------------------------------------------------------- integers

  /** Digits, with single underscores between them. */
  ghost predicate Numeral(s: string) {
    && s != "" && IsDigit(s[0]) && IsDigit(s[|s| - 1])
    && (forall i :: 0 <= i < |s| ==> IsDigit(s[i]) || s[i] == '_')
    && (forall i :: 0 <= i < |s| - 1 ==> IsDigit(s[i]) || IsDigit(s[i + 1]))
  }

  /** The value of a numeral, read from its last digit. */
  ghost function Magnitude(s: string): nat {
    if s == "" then 0
    else
      var front, last := Magnitude(s[..|s| - 1]), s[|s| - 1];
      if '0' <= last <= '9' then 10 * front + (last as int - '0' as int) else front
  }

  /** What the digit loop knows after `s`, having started with nothing read. */
  ghost predicate Scanned(s: string, acc: nat, afterDigit: bool) {
    && (s == "" ==> !afterDigit)
    && (s != "" ==> (afterDigit <==> IsDigit(s[|s| - 1])) && IsDigit(s[0]))
    && (forall i :: 0 <= i < |s| ==> IsDigit(s[i]) || s[i] == '_')
    && (forall i :: 0 <= i < |s| - 1 ==> IsDigit(s[i]) || IsDigit(s[i + 1]))
    && acc == Magnitude(s)
  }

  lemma {:induction false} ScannedDigit(s: string, acc: nat, afterDigit: bool, c: char)
    requires Scanned(s, acc, afterDigit) && IsDigit(c)
    ensures Scanned(s + [c], acc * 10 + DigitValue(c), true)
  {
    assert (s + [c])[..|s|] == s;
  }

  lemma {:induction false} ScannedUnderscore(s: string, acc: nat)
    requires Scanned(s, acc, true)
    ensures Scanned(s + ['_'], acc, false)
  {
    assert (s + ['_'])[..|s|] == s;
  }

  lemma {:induction false} DigitsFrom(read: string, rest: string, acc: nat, afterDigit: bool, s: string)
    requires Scanned(read, acc, afterDigit) && s == read + rest
    ensures ParseDigits(rest, acc, afterDigit).Some? <==> Numeral(s)
    ensures Numeral(s) ==> ParseDigits(rest, acc, afterDigit) == Some(Magnitude(s))
    decreases |rest|
  {
    if rest == "" {
      assert s == read;
    } else {
      var c := rest[0];
      assert s == (read + [c]) + rest[1..] && s[|read|] == c;
      if IsDigit(c) {
        ScannedDigit(read, acc, afterDigit, c);
        DigitsFrom(read + [c], rest[1..], acc * 10 + DigitValue(c), true, s);
      } else if c == '_' && afterDigit {
        ScannedUnderscore(read, acc);
        DigitsFrom(read + [c], rest[1..], acc, false, s);
      } else if c == '_' && read != "" {
        assert !IsDigit(s[|read| - 1]) && !IsDigit(s[|read|]);
      }
    }
  }

  lemma {:induction false} DigitsExact(s: string)
    ensures ParseDigits(s, 0, false).Some? <==> Numeral(s)
    ensures Numeral(s) ==> ParseDigits(s, 0, false) == Some(Magnitude(s))
  {
    assert "" + s == s;
    DigitsFrom("", s, 0, false, s);
  }

  /** The text is an integer as Python writes it, with the value `n`. */
  ghost predicate Denotes(raw: string, n: int) {
    exists sign: string, digits: string ::
      && sign in {"", "+", "-"} && Numeral(digits) && Padded(raw, sign + digits)
      && n == (if sign == "-" then 0 - Magnitude(digits) else Magnitude(digits))
  }

  lemma {:induction false} SignedTrimmed(sign: string, digits: string)
    requires sign in {"", "+", "-"} && Numeral(digits)
    ensures Trimmed(sign + digits)
  {
    var s := sign + digits;
    assert s[|s| - 1] == digits[|digits| - 1];
    assert s[0] == if sign == "" then digits[0] else sign[0];
  }

  ghost function SignOf(s: string): string {
    if s != "" && (s[0] == '+' || s[0] == '-') then [s[0]] else ""
  }

  ghost function Unsigned(s: string): string {
    if s != "" && (s[0] == '+' || s[0] == '-') then s[1..] else s
  }

  /** The value of a sign and a numeral. */
  ghost function SignedValue(sign: string, digits: string): int {
    if sign == "-" then 0 - Magnitude(digits) else Magnitude(digits)
  }

  lemma {:induction false} SignParts(s: string)
    ensures SignOf(s) in {"", "+", "-"} && SignOf(s) + Unsigned(s) == s
  {
  }

  lemma {:induction false} SignUnique(s: string, sign: string, digits: string)
    requires sign in {"", "+", "-"} && Numeral(digits) && s == sign + digits
    ensures SignOf(s) == sign && Unsigned(s) == digits
  {
    if sign == "" {
      assert s == digits;
    } else {
      assert s[0] == sign[0] && s[1..] == digits;
    }
  }

  lemma {:induction false} SignedRead(raw: string, s: string)
    requires s == Strip(raw)
    ensures ParseInt(raw).Some? <==> Numeral(Unsigned(s))
    ensures Numeral(Unsigned(s)) ==> ParseInt(raw) == Some(SignedValue(SignOf(s), Unsigned(s)))
  {
    DigitsExact(Unsigned(s));
  }

  /** Python's `int` accepts exactly the texts that denote an integer, and reads their value. */
  lemma {:induction false} IntExact(raw: string, n: int)
    ensures ParseInt(raw) == Some(n) <==> Denotes(raw, n)
  {
    SignedRead(raw, Strip(raw));
    if Denotes(raw, n) {
      DenotedSigned(raw, n, Strip(raw));
    }
    if ParseInt(raw) == Some(n) {
      SignedDenotes(raw, n, Strip(raw));
    }
  }

  lemma {:induction false} DenotedSigned(raw: string, n: int, s: string)
    requires Denotes(raw, n) && s == Strip(raw)
    ensures Numeral(Unsigned(s)) && n == SignedValue(SignOf(s), Unsigned(s))
  {
    var sign, digits :| && sign in {"", "+", "-"} && Numeral(digits) && Padded(raw, sign + digits)
                        && n == (if sign == "-" then 0 - Magnitude(digits) else Magnitude(digits));
    SignedTrimmed(sign, digits);
    StripExact(raw, sign + digits);
    SignUnique(s, sign, digits);
  }

  lemma {:induction false} SignedDenotes(raw: string, n: int, s: string)
    requires s == Strip(raw) && Numeral(Unsigned(s)) && n == SignedValue(SignOf(s), Unsigned(s))
    ensures Denotes(raw, n)
  {
    StripPadded(raw);
    SignParts(s);
    var sign, digits := SignOf(s), Unsigned(s);
    assert sign in {"", "+", "-"} && Numeral(digits) && Padded(raw, sign + digits);
  }

  // -------------------------------------------------------------- containment

  ghost predicate OccursAt(s: string, w: string, i: nat) {
    i + |w| <= |s| && s[i..i + |w|] == w
  }

  lemma {:induction false} ContainsExact(s: string, w: string)
    ensures Contains(s, w) <==> exists i: nat :: OccursAt(s, w, i)
  {
    if s != "" && |s| >= |w| {
      ContainsExact(s[1..], w);
      if i: nat :| OccursAt(s[1..], w, i) {
        assert s[1..][i..i + |w|] == s[i + 1..i + 1 + |w|];
        assert OccursAt(s, w, i + 1);
      }
      if s[..|w|] == w {
        assert OccursAt(s, w, 0);
      }
      if i: nat :| OccursAt(s, w, i) {
        if i > 0 {
          assert s[1..][i - 1..i - 1 + |w|] == s[i..i + |w|];
          assert OccursAt(s[1..], w, i - 1);
        }
      }
    } else if |s| >= |w| {
      assert OccursAt(s, w, 0);
    }
  }

  // ------------------------------------------------------------------ digests

  /** `n` characters, each a decimal digit or one of the letters a to f in lower case. */
  ghost predicate Hex(text: string, n: nat) {
    |text| == n && forall i :: 0 <= i < n ==> text[i] in "0123456789abcdef"
  }

  lemma {:induction false} HexLetter(c: char)
    ensures c in "0123456789abcdef" <==> '0' <= c <= '9' || 'a' <= c <= 'f'
  {
    var digits := "0123456789abcdef";
    if '0' <= c <= '9' {
      assert digits[c as int - '0' as int] == c;
    } else if 'a' <= c <= 'f' {
      assert digits[c as int - 'a' as int + 10] == c;
    }
  }

  lemma {:induction false} HexExact(text: string, n: nat)
    ensures LowerHex(text, n) <==> Hex(text, n)
  {
    assert forall c: char :: c in "0123456789abcdef" <==> '0' <= c <= '9' || 'a' <= c <= 'f' by {
      forall c: char ensures c in "0123456789abcdef" <==> '0' <= c <= '9' || 'a' <= c <= 'f' {
        HexLetter(c);
      }
    }
  }

  // ----------------------------------------------------------------- ordering

  /** `a` ends, or has the smaller character, at the first place where the two differ. */
  ghost predicate DiffersAt(a: string, b: string, i: nat) {
    i <= |a| && i < |b| && a[..i] == b[..i] && (i == |a| || a[i] < b[i])
  }

  ghost predicate Before(a: string, b: string) {
    exists i: nat :: DiffersAt(a, b, i)
  }

  lemma {:induction false} BeforeTail(a: string, b: string)
    requires a != "" && b != ""
    ensures Before(a, b) <==> a[0] < b[0] || (a[0] == b[0] && Before(a[1..], b[1..]))
  {
    if i: nat :| DiffersAt(a, b, i) {
      if i > 0 {
        assert a[..i][0] == a[0] && b[..i][0] == b[0];
        assert a[1..][..i - 1] == a[..i][1..] && b[1..][..i - 1] == b[..i][1..];
        assert DiffersAt(a[1..], b[1..], i - 1);
      }
    }
    if a[0] < b[0] {
      assert DiffersAt(a, b, 0);
    } else if a[0] == b[0] {
      if i: nat :| DiffersAt(a[1..], b[1..], i) {
        assert a[..i + 1] == [a[0]] + a[1..][..i] && b[..i + 1] == [b[0]] + b[1..][..i];
        assert DiffersAt(a, b, i + 1);
      }
    }
  }

  lemma {:induction false} StrLessExact(a: string, b: string)
    ensures StrLess(a, b) <==> Before(a, b)
  {
    if a == "" {
      if b != "" {
        assert DiffersAt(a, b, 0);
      }
    } else if b != "" {
      BeforeTail(a, b);
      StrLessExact(a[1..], b[1..]);
      assert a == [a[0]] + a[1..] && b == [b[0]] + b[1..];
    }
  }

  // ----------------------------------------------------------------- counting

  /** The positions with a property. */
  /**
   What is picked from a list: `out` comes from the places `at`, in order, each standing for its element, and every
   other element may be passed over.
   */
  ghost predicate Picked<T, U>(xs: seq<T>, at: seq<nat>, out: seq<U>, stands: (T, nat, U) -> bool, passed: T -> bool) {
    && |out| == |at| && (forall i, j :: 0 <= i < j < |at| ==> at[i] < at[j])
    && (forall i :: 0 <= i < |at| ==> at[i] < |xs| && stands(xs[at[i]], at[i], out[i]))
    && forall n: nat :: n < |xs| && n !in at ==> passed(xs[n])
  }

  lemma {:induction false} PickedOne<T, U>(xs: seq<T>, at: seq<nat>, out: seq<U>, stands: (T, nat, U) -> bool,
                                           passed: T -> bool, last: U)
    requires xs != [] && Picked(xs[..|xs| - 1], at, out, stands, passed) && stands(xs[|xs| - 1], |xs| - 1, last)
    ensures Picked(xs, at + [|xs| - 1], out + [last], stands, passed)
  {
    var n := |xs| - 1;
    assert forall k :: 0 <= k < n ==> xs[..n][k] == xs[k];
    assert (at + [n])[|at|] == n;
    assert forall x :: x in at + [n] <==> x in at || x == n;
  }

  lemma {:induction false} PassedOne<T, U>(xs: seq<T>, at: seq<nat>, out: seq<U>, stands: (T, nat, U) -> bool,
                                           passed: T -> bool)
    requires xs != [] && Picked(xs[..|xs| - 1], at, out, stands, passed) && passed(xs[|xs| - 1])
    ensures Picked(xs, at, out, stands, passed)
  {
    var n := |xs| - 1;
    assert forall k :: 0 <= k < n ==> xs[..n][k] == xs[k];
  }

  ghost function Where<T>(xs: seq<T>, p: T -> bool): set<nat> {
    set k: nat | k < |xs| && p(xs[k])
  }

  /** Counting from the front: one more element adds one position exactly when it has the property. */
  lemma {:induction false} WhereGrows<T>(xs: seq<T>, p: T -> bool)
    requires xs != []
    ensures |Where(xs, p)| == |Where(xs[..|xs| - 1], p)| + if p(xs[|xs| - 1]) then 1 else 0
  {
    var n := |xs| - 1;
    var front := xs[..n];
    assert n !in Where(front, p);
    assert forall k :: 0 <= k < n ==> front[k] == xs[k];
    assert Where(xs, p) == Where(front, p) + if p(xs[n]) then {n} else {};
  }

  lemma {:induction false} WhereNone<T>(p: T -> bool)
    ensures |Where([], p)| == 0
  {
    assert Where([], p) == {};
  }
}
