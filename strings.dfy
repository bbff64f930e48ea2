/**
 * The JavaScript string built-ins the parser and the engine rely on, written out over `seq<char>`:
 * `split` and `join` on a literal separator, `replace` with a global literal pattern, one-argument
 * `substring`, the `test` of a literal pattern, the character classes `\s` and `\w`, and the
 * decimal form of a number.
 */
module Strings {

  /** `\w` of JavaScript regular expressions: `[A-Za-z0-9_]`. */
  predicate IsWordChar(c: char) {
    ('a' <= c <= 'z') || ('A' <= c <= 'Z') || ('0' <= c <= '9') || c == '_'
  }

  /** `[a-z]` under the `i` flag: an ASCII letter (JavaScript folds no other letter into this class). */
  predicate IsLetter(c: char) {
    ('a' <= c <= 'z') || ('A' <= c <= 'Z')
  }

  /** `\s` of JavaScript regular expressions (white space and line terminators). */
  predicate IsJsSpace(c: char) {
    var n := c as int;
    (0x09 <= n <= 0x0D) || n == 0x20 || n == 0xA0 || n == 0x1680 || (0x2000 <= n <= 0x200A)
    || n == 0x2028 || n == 0x2029 || n == 0x202F || n == 0x205F || n == 0x3000 || n == 0xFEFF
  }

  /** The number of space characters (only ' ') that `s` starts with: the length of `^ *`. */
  function LeadingSpaces(s: string): (n: nat)
    ensures n <= |s|
    ensures n < |s| ==> s[n] != ' '
  {
    if s != [] && s[0] == ' ' then 1 + LeadingSpaces(s[1..]) else 0
  }

  /** Every character `LeadingSpaces` counts is a space. */
  lemma {:induction false} LeadingSpacesRun(s: string)
    ensures forall i :: 0 <= i < LeadingSpaces(s) ==> s[i] == ' '
  {
    if s != [] && s[0] == ' ' {
      LeadingSpacesRun(s[1..]);
      assert forall i :: 1 <= i < LeadingSpaces(s) ==> s[i] == s[1..][i - 1];
    }
  }

  /** `s.substring(k)`: the suffix of `s` from `k`, with `k` clamped into `0..|s|`. */
  function Substring(s: string, k: int): (r: string)
    ensures k <= 0 ==> r == s
    ensures 0 <= k <= |s| ==> r == s[k..]
    ensures |s| <= k ==> r == ""
  {
    if k <= 0 then s else if k >= |s| then "" else s[k..]
  }

  /** `v` is written in `s` from index `k` on. */
  ghost predicate SpellsAt<T>(s: seq<T>, k: nat, v: seq<T>) {
    k + |v| <= |s| && forall j :: 0 <= j < |v| ==> s[k + j] == v[j]
  }

  /** What follows index `k` is written there. */
  lemma SpellsSuffix<T>(s: seq<T>, k: nat, v: seq<T>)
    requires k <= |s| && s[k..] == v
    ensures SpellsAt(s, k, v)
  {
    forall j | 0 <= j < |v| ensures s[k + j] == v[j] {
      assert s[k..][j] == s[k + j];
    }
  }

  /** Two texts written one after the other, each where it lies. */
  lemma SpellsSplit<T>(s: seq<T>, k: nat, a: seq<T>, b: seq<T>)
    requires SpellsAt(s, k, a + b)
    ensures SpellsAt(s, k, a) && SpellsAt(s, k + |a|, b)
  {
    forall j | 0 <= j < |a| ensures s[k + j] == a[j] {
      assert (a + b)[j] == a[j];
    }
    forall j | 0 <= j < |b| ensures s[k + |a| + j] == b[j] {
      assert (a + b)[|a| + j] == b[j];
    }
  }

  /** A text written at `k` is the slice of its length there. */
  lemma SpellsSlice<T>(s: seq<T>, k: nat, v: seq<T>)
    requires SpellsAt(s, k, v)
    ensures s[k..k + |v|] == v
  {
    forall j | 0 <= j < |v| ensures s[k..k + |v|][j] == v[j] {
      assert s[k + j] == v[j];
    }
  }

  /** A slice is the slices on either side of any point inside it. */
  lemma Cut<T>(s: seq<T>, i: nat, j: nat, k: nat)
    requires i <= j <= k <= |s|
    ensures s[i..k] == s[i..j] + s[j..k]
  {
  }

  /** `parts.join(sep)`. */
  function Join(parts: seq<string>, sep: string): string
  {
    if parts == [] then ""
    else if |parts| == 1 then parts[0]
    else parts[0] + sep + Join(parts[1..], sep)
  }

  /** Puts `c` in front of the first part. */
  function PrependChar(c: char, parts: seq<string>): (r: seq<string>)
    requires parts != []
    ensures |r| == |parts|
  {
    [[c] + parts[0]] + parts[1..]
  }

  /** Joining two non-empty lists is joining each and putting one separator between them. */
  lemma {:induction false} JoinAppend(a: seq<string>, b: seq<string>, sep: string)
    requires a != [] && b != []
    ensures Join(a + b, sep) == Join(a, sep) + sep + Join(b, sep)
    decreases |a|
  {
    if |a| == 1 {
      assert (a + b)[1..] == b;
    } else {
      assert (a + b)[1..] == a[1..] + b;
      JoinAppend(a[1..], b, sep);
    }
  }

  /** `s.split(sep)` for a string separator: the pieces between the occurrences of `sep`, found
      left to right without overlap; an empty separator splits into single characters. */
  function Split(s: string, sep: string): (parts: seq<string>)
    ensures sep != "" ==> parts != []
    decreases |s|
  {
    if sep == "" then seq(|s|, i requires 0 <= i < |s| => [s[i]])
    else if |s| < |sep| then [s]
    else if s[..|sep|] == sep then [""] + Split(s[|sep|..], sep)
    else PrependChar(s[0], Split(s[1..], sep))
  }

  lemma JoinPrependChar(c: char, parts: seq<string>, sep: string)
    requires parts != []
    ensures Join(PrependChar(c, parts), sep) == [c] + Join(parts, sep)
  {
    if |parts| > 1 {
      assert PrependChar(c, parts)[1..] == parts[1..];
    }
  }

  lemma {:induction false} JoinSingletons(s: string)
    ensures Join(seq(|s|, i requires 0 <= i < |s| => [s[i]]), "") == s
  {
    if |s| > 1 {
      var parts := seq(|s|, i requires 0 <= i < |s| => [s[i]]);
      assert parts[1..] == seq(|s[1..]|, i requires 0 <= i < |s[1..]| => [s[1..][i]]);
      JoinSingletons(s[1..]);
    }
  }

  /** Joining the pieces of a split with the same separator gives the string back. */
  lemma {:induction false} JoinSplit(s: string, sep: string)
    ensures Join(Split(s, sep), sep) == s
    decreases |s|
  {
    if sep == "" {
      JoinSingletons(s);
    } else if |s| < |sep| {
    } else if s[..|sep|] == sep {
      JoinSplit(s[|sep|..], sep);
      var rest := Split(s[|sep|..], sep);
      assert ([""] + rest)[1..] == rest;
      assert s == sep + s[|sep|..];
    } else {
      JoinSplit(s[1..], sep);
      JoinPrependChar(s[0], Split(s[1..], sep), sep);
      assert s == [s[0]] + s[1..];
    }
  }

  /** `/pat/.test(s)` for a literal pattern: `pat` occurs somewhere in `s`. */
  predicate Contains(s: string, pat: string)
    decreases |s|
  {
    if |s| < |pat| then false else s[..|pat|] == pat || Contains(s[1..], pat)
  }

  /** `s.replace(/pat/g, rep)` for a literal pattern and a literal replacement: every occurrence of
      `pat`, found left to right without overlap, is replaced by `rep`. An empty pattern matches
      at every position, before each character and at the end. */
  function ReplaceAll(s: string, pat: string, rep: string): string
    decreases |s|
  {
    if pat == "" then (if s == "" then rep else rep + [s[0]] + ReplaceAll(s[1..], pat, rep))
    else if |s| < |pat| then s
    else if s[..|pat|] == pat then rep + ReplaceAll(s[|pat|..], pat, rep)
    else [s[0]] + ReplaceAll(s[1..], pat, rep)
  }

  /** Replacing a pattern that does not occur leaves the string as it is. */
  lemma {:induction false} ReplaceAbsent(s: string, pat: string, rep: string)
    requires pat != "" && !Contains(s, pat)
    ensures ReplaceAll(s, pat, rep) == s
    decreases |s|
  {
    if |s| >= |pat| {
      ReplaceAbsent(s[1..], pat, rep);
      assert s == [s[0]] + s[1..];
    }
  }

  /** Replacing every occurrence of a pattern by itself changes nothing. */
  lemma {:induction false} ReplaceBySelf(s: string, pat: string)
    requires pat != ""
    ensures ReplaceAll(s, pat, pat) == s
    decreases |s|
  {
    if |s| < |pat| {
    } else if s[..|pat|] == pat {
      ReplaceBySelf(s[|pat|..], pat);
      assert s == s[..|pat|] + s[|pat|..];
    } else {
      ReplaceBySelf(s[1..], pat);
      assert s == [s[0]] + s[1..];
    }
  }

  predicate IsDigit(c: char) {
    '0' <= c <= '9'
  }

  function DigitChar(d: nat): (c: char)
    requires d < 10
    ensures IsDigit(c)
  {
    ['0', '1', '2', '3', '4', '5', '6', '7', '8', '9'][d]
  }

  function DigitValue(c: char): (d: nat)
    requires IsDigit(c)
    ensures d < 10
  {
    (c as int - '0' as int) as nat
  }

  /** The decimal form of `n`, most significant digit first. */
  function Decimal(n: nat): (d: string)
    ensures d != []
    ensures forall i :: 0 <= i < |d| ==> IsDigit(d[i])
  {
    if n < 10 then [DigitChar(n)] else Decimal(n / 10) + [DigitChar(n % 10)]
  }

  /** The number a string of decimal digits denotes. */
  function DecimalValue(d: string): nat
    requires forall i :: 0 <= i < |d| ==> IsDigit(d[i])
  {
    if d == [] then 0 else DecimalValue(d[..|d| - 1]) * 10 + DigitValue(d[|d| - 1])
  }

  /** Reading back the decimal form of a number gives the number. */
  lemma {:induction false} DecimalRoundTrip(n: nat)
    ensures DecimalValue(Decimal(n)) == n
  {
    var d := Decimal(n);
    if n < 10 {
      assert DigitValue(DigitChar(n)) == n;
    } else {
      DecimalRoundTrip(n / 10);
      assert d[..|d| - 1] == Decimal(n / 10);
      assert DigitValue(DigitChar(n % 10)) == n % 10;
    }
  }

  /** Different numbers have different decimal forms. */
  lemma DecimalInjective(a: nat, b: nat)
    requires Decimal(a) == Decimal(b)
    ensures a == b
  {
    DecimalRoundTrip(a);
    DecimalRoundTrip(b);
  }

  lemma DecimalDistinct(a: nat, b: nat)
    requires a != b
    ensures Decimal(a) != Decimal(b)
  {
    if Decimal(a) == Decimal(b) {
      DecimalInjective(a, b);
    }
  }
}
