/**
 * The parameter parser of core/parser.js: `splitParams` (split a parameter list on its unescaped,
 * unquoted commas), the `R_PARAM` recogniser of one `name` / `name = value` entry, `__unescape`,
 * `__isEmpty` and `parseParams` (build the name-to-value dictionary).
 */
module ParamParser {
  import opened Wrappers
  import opened Strings
  import opened Ast

  // ---------------------------------------------------------------------------------------------
  // splitParams

  /** The variables of the `splitParams` loop: the finished pieces, the piece being built, and the
      two flags "inside quotes" and "previous character was an escape". */
  datatype ScanState = ScanState(done: seq<string>, buf: string, inQuote: bool, escaped: bool)

  /** One iteration of the `splitParams` loop on character `c`. */
  function ScanChar(st: ScanState, c: char): ScanState {
    if c == '\\' then st.(buf := st.buf + [c], escaped := !st.escaped)
    else if st.escaped then st.(buf := st.buf + [c], escaped := false)
    else if c == '"' then st.(buf := st.buf + [c], inQuote := !st.inQuote)
    else if c == ',' && !st.inQuote then st.(done := st.done + [st.buf], buf := "")
    else st.(buf := st.buf + [c])
  }

  /** The loop variables after scanning all of `s`. */
  function Scan(s: string): ScanState
  {
    if s == [] then ScanState([], "", false, false)
    else ScanChar(Scan(s[..|s| - 1]), s[|s| - 1])
  }

  /** What `splitParams(s)` returns: `None` for JavaScript's `null`. */
  function SplitByCommas(s: string): (r: Option<seq<string>>)
    ensures r.Some? ==> Join(r.value, ",") == s
  {
    ScanJoin(s);
    var st := Scan(s);
    if st.escaped || st.inQuote then None else Some(st.done + [st.buf])
  }

  /** `splitParams`: the character loop of core/parser.js. */
  method SplitParams(s: string) returns (r: Option<seq<string>>)
    ensures r == SplitByCommas(s)
  {
    var buf := "";
    var result: seq<string> := [];
    var stQuot := false;
    var stEsc := false;
    for i := 0 to |s|
      invariant ScanState(result, buf, stQuot, stEsc) == Scan(s[..i])
    {
      var c := s[i];
      assert s[..i + 1][..i] == s[..i];
      if c == '\\' {
        buf := buf + [c];
        stEsc := !stEsc;
        continue;
      }
      if stEsc {
        buf := buf + [c];
        stEsc := false;
        continue;
      }
      if c == '"' {
        buf := buf + [c];
        stQuot := !stQuot;
        continue;
      }
      if c == ',' {
        if stQuot {
          buf := buf + [c];
          continue;
        }
        result := result + [buf];
        buf := "";
        continue;
      }
      buf := buf + [c];
    }
    assert s[..|s|] == s;
    if stEsc || stQuot {
      return None;
    }
    r := Some(result + [buf]);
  }

  /** The number of backslashes that `s` ends with. */
  function TrailingBackslashes(s: string): nat {
    if s != [] && s[|s| - 1] == '\\' then 1 + TrailingBackslashes(s[..|s| - 1]) else 0
  }

  /** The escape flag after a prefix is set exactly when the prefix ends in an odd run of
      backslashes: a backslash escapes the next character, and a pair of backslashes is one
      escaped backslash. */
  lemma {:induction false} EscapedIffOddBackslashes(s: string)
    ensures Scan(s).escaped <==> TrailingBackslashes(s) % 2 == 1
  {
    if s != [] {
      EscapedIffOddBackslashes(s[..|s| - 1]);
    }
  }

  /** The number of quote characters in `s` that open or close a quoted run: those not preceded
      by an odd run of backslashes. */
  function OpenQuotes(s: string): nat {
    if s == [] then 0
    else OpenQuotes(s[..|s| - 1])
         + if s[|s| - 1] == '"' && TrailingBackslashes(s[..|s| - 1]) % 2 == 0 then 1 else 0
  }

  /** The quote flag after a prefix is set exactly when the prefix holds an odd number of
      unescaped quote characters. */
  lemma {:induction false} InQuoteIffOddQuotes(s: string)
    ensures Scan(s).inQuote <==> OpenQuotes(s) % 2 == 1
  {
    if s != [] {
      InQuoteIffOddQuotes(s[..|s| - 1]);
      EscapedIffOddBackslashes(s[..|s| - 1]);
    }
  }

  /** The character at `i` is a comma that ends a piece: not escaped (an even run of backslashes
      before it) and not inside quotes (an even number of unescaped quotes before it). */
  ghost predicate SplitsAt(s: string, i: nat)
    requires i < |s|
  {
    s[i] == ',' && TrailingBackslashes(s[..i]) % 2 == 0 && OpenQuotes(s[..i]) % 2 == 0
  }

  /** A splitting comma is one the `splitParams` loop reaches with both flags clear. */
  lemma SplitsAtScan(s: string, i: nat)
    requires i < |s|
    ensures SplitsAt(s, i) <==> s[i] == ',' && !Scan(s[..i]).escaped && !Scan(s[..i]).inQuote
  {
    EscapedIffOddBackslashes(s[..i]);
    InQuoteIffOddQuotes(s[..i]);
  }

  /** The positions of the commas that end a piece. */
  ghost function SplitPoints(s: string): set<nat> {
    set i: nat | i < |s| && SplitsAt(s, i)
  }

  lemma JoinSnoc(xs: seq<string>, x: string, sep: string)
    ensures Join(xs + [x], sep) == if xs == [] then x else Join(xs, sep) + sep + x
  {
    if |xs| > 1 {
      assert (xs + [x])[1..] == xs[1..] + [x];
      JoinSnoc(xs[1..], x, sep);
    }
  }

  lemma JoinPrefix(xs: seq<string>, sep: string, k: nat)
    requires k <= |xs|
    ensures Join(xs, sep) == if k == 0 || k == |xs| then Join(xs, sep)
                             else Join(xs[..k], sep) + sep + Join(xs[k..], sep)
    decreases k
  {
    if 0 < k < |xs| {
      if k > 1 {
        JoinPrefix(xs[1..], sep, k - 1);
        assert xs[1..][..k - 1] == xs[..k][1..];
        assert xs[1..][k - 1..] == xs[k..];
      }
    }
  }

  /** The position of the comma that follows piece `k` once the pieces are joined by commas. */
  ghost function PieceEnd(r: seq<string>, k: nat): nat
    requires k < |r|
  {
    |Join(r[..k + 1], ",")|
  }

  lemma PieceEndOfPrefix(r: seq<string>, x: string, k: nat)
    requires k < |r|
    ensures PieceEnd(r + [x], k) == PieceEnd(r, k)
  {
    assert (r + [x])[..k + 1] == r[..k + 1];
  }

  /** A character either ends the current piece or is appended to it. */
  lemma ScanCharShape(st: ScanState, c: char)
    ensures var st' := ScanChar(st, c);
      || (st'.done == st.done + [st.buf] && st'.buf == "" && c == ',' && !st.escaped && !st.inQuote)
      || (st'.done == st.done && st'.buf == st.buf + [c] && !(c == ',' && !st.escaped && !st.inQuote))
  {
  }

  /** The pieces of a scan joined by commas give the scanned text back. */
  lemma {:induction false} ScanJoin(s: string)
    ensures Join(Scan(s).done + [Scan(s).buf], ",") == s
  {
    if s != [] {
      var p := s[..|s| - 1];
      var c := s[|s| - 1];
      ScanJoin(p);
      var st := Scan(p);
      var st' := ScanChar(st, c);
      assert Scan(s) == st';
      assert s == p + [c];
      ScanCharShape(st, c);
      JoinSnoc(st.done, st.buf, ",");
      if st'.done == st.done + [st.buf] {
        JoinSnoc(st.done + [st.buf], "", ",");
        assert Join(st'.done + [st'.buf], ",") == Join(st.done + [st.buf], ",") + "," + "";
      } else {
        JoinSnoc(st.done, st.buf + [c], ",");
        assert Join(st'.done + [st'.buf], ",") == Join(st.done + [st.buf], ",") + [c];
      }
    }
  }

  lemma SplitsAtPrefix(s: string, i: nat)
    requires s != [] && i < |s| - 1
    ensures SplitsAt(s, i) <==> SplitsAt(s[..|s| - 1], i)
  {
    assert s[..i] == s[..|s| - 1][..i];
  }

  /** Each comma between two pieces of a scan is a splitting comma. */
  lemma {:induction false} ScanCommas(s: string)
    ensures forall k :: 0 <= k < |Scan(s).done| ==>
              PieceEnd(Scan(s).done, k) < |s| && SplitsAt(s, PieceEnd(Scan(s).done, k))
  {
    if s != [] {
      var p := s[..|s| - 1];
      ScanCommas(p);
      ScanJoin(p);
      var st := Scan(p);
      var st' := Scan(s);
      forall k | 0 <= k < |st'.done|
        ensures PieceEnd(st'.done, k) < |s| && SplitsAt(s, PieceEnd(st'.done, k))
      {
        if k < |st.done| {
          if st'.done == st.done + [st.buf] {
            PieceEndOfPrefix(st.done, st.buf, k);
          }
          SplitsAtPrefix(s, PieceEnd(st.done, k));
        } else {
          assert st'.done == st.done + [st.buf];
          assert st'.done[..k + 1] == st.done + [st.buf];
          assert s[..|p|] == p;
          SplitsAtScan(s, |p|);
        }
      }
    }
  }

  /** A scan has as many finished pieces as the text has splitting commas. */
  lemma {:induction false} ScanCount(s: string)
    ensures |SplitPoints(s)| == |Scan(s).done|
  {
    if s != [] {
      ScanCount(s[..|s| - 1]);
      SplitPointsStep(s);
      ScanDoneStep(s);
    }
  }

  /** The last character of `s` adds one finished piece exactly when it is a splitting comma. */
  lemma ScanDoneStep(s: string)
    requires s != []
    ensures |Scan(s).done| == |Scan(s[..|s| - 1]).done| + if SplitsAt(s, |s| - 1) then 1 else 0
  {
    var p := s[..|s| - 1];
    var c := s[|s| - 1];
    assert Scan(s) == ScanChar(Scan(p), c);
    ScanCharShape(Scan(p), c);
    SplitsAtLast(s);
  }

  /** The last character splits exactly when the scan of the rest reaches it with both flags
      clear. */
  lemma SplitsAtLast(s: string)
    requires s != []
    ensures SplitsAt(s, |s| - 1)
      <==> s[|s| - 1] == ',' && !Scan(s[..|s| - 1]).escaped && !Scan(s[..|s| - 1]).inQuote
  {
    SplitsAtScan(s, |s| - 1);
  }

  /** The splitting commas of `s` are those of `s` without its last character, and that character
      when it is one. */
  lemma SplitPointsStep(s: string)
    requires s != []
    ensures |SplitPoints(s)| == |SplitPoints(s[..|s| - 1])| + if SplitsAt(s, |s| - 1) then 1 else 0
  {
    var p := s[..|s| - 1];
    forall i: nat | i < |p| ensures SplitsAt(s, i) <==> SplitsAt(p, i) {
      SplitsAtPrefix(s, i);
    }
    if SplitsAt(s, |p|) {
      assert SplitPoints(s) == SplitPoints(p) + {|p|};
    } else {
      assert SplitPoints(s) == SplitPoints(p);
    }
  }

  /** `splitParams` returns `null` exactly when the input ends inside a dangling escape or an
      unclosed quote. Otherwise its pieces joined with "," give back the input, and the commas
      between pieces are exactly the unescaped commas outside quotes. */
  lemma SplitByCommasSpec(s: string)
    ensures SplitByCommas(s).None? <==> TrailingBackslashes(s) % 2 == 1 || OpenQuotes(s) % 2 == 1
    ensures SplitByCommas(s).Some? ==>
      var r := SplitByCommas(s).value;
      && Join(r, ",") == s
      && |r| == |SplitPoints(s)| + 1
      && (forall k :: 0 <= k < |r| - 1 ==> PieceEnd(r, k) < |s| && SplitsAt(s, PieceEnd(r, k)))
  {
    EscapedIffOddBackslashes(s);
    InQuoteIffOddQuotes(s);
    ScanJoin(s);
    ScanCommas(s);
    ScanCount(s);
    var st := Scan(s);
    if SplitByCommas(s).Some? {
      var r := st.done + [st.buf];
      forall k | 0 <= k < |r| - 1
        ensures PieceEnd(r, k) < |s| && SplitsAt(s, PieceEnd(r, k))
      {
        PieceEndOfPrefix(st.done, st.buf, k);
      }
    }
  }

  // ---------------------------------------------------------------------------------------------
  // R_PARAM: /^ *([a-z]\w*)(?: *= *(?:"((?:\\[\s\S]|[^"])*)"|([^" ]+)))? *$/i

  /** The first index at or after `i` that does not hold a space. */
  function SkipSpaces(s: string, i: nat): (j: nat)
    requires i <= |s|
    ensures i <= j <= |s|
    ensures j < |s| ==> s[j] != ' '
    decreases |s| - i
  {
    if i < |s| && s[i] == ' ' then SkipSpaces(s, i + 1) else i
  }

  /** Everything `SkipSpaces` skips is a space. */
  lemma {:induction false} SkipSpacesRun(s: string, i: nat)
    requires i <= |s|
    ensures forall k :: i <= k < SkipSpaces(s, i) ==> s[k] == ' '
    decreases |s| - i
  {
    if i < |s| && s[i] == ' ' {
      SkipSpacesRun(s, i + 1);
    }
  }

  /** The first index at or after `i` that does not hold a `\w` character. */
  function SkipWord(s: string, i: nat): (j: nat)
    requires i <= |s|
    ensures i <= j <= |s|
    ensures j < |s| ==> !IsWordChar(s[j])
    decreases |s| - i
  {
    if i < |s| && IsWordChar(s[i]) then SkipWord(s, i + 1) else i
  }

  /** Everything `SkipWord` skips is a `\w` character. */
  lemma {:induction false} SkipWordRun(s: string, i: nat)
    requires i <= |s|
    ensures forall k :: i <= k < SkipWord(s, i) ==> IsWordChar(s[k])
    decreases |s| - i
  {
    if i < |s| && IsWordChar(s[i]) {
      SkipWordRun(s, i + 1);
    }
  }

  /** The first index at or after `i` that holds a space or a double quote: the end of `[^" ]+`. */
  function SkipBare(s: string, i: nat): (j: nat)
    requires i <= |s|
    ensures i <= j <= |s|
    ensures j < |s| ==> s[j] == ' ' || s[j] == '"'
    decreases |s| - i
  {
    if i < |s| && s[i] != ' ' && s[i] != '"' then SkipBare(s, i + 1) else i
  }

  /** Nothing `SkipBare` skips is a space or a double quote. */
  lemma {:induction false} SkipBareRun(s: string, i: nat)
    requires i <= |s|
    ensures forall k :: i <= k < SkipBare(s, i) ==> s[k] != ' ' && s[k] != '"'
    decreases |s| - i
  {
    if i < |s| && s[i] != ' ' && s[i] != '"' {
      SkipBareRun(s, i + 1);
    }
  }

  /** The number of spaces `s` ends with. */
  function TrailingSpaces(s: string): (n: nat)
    ensures n <= |s|
    ensures n < |s| ==> s[|s| - n - 1] != ' '
  {
    if s != [] && s[|s| - 1] == ' ' then 1 + TrailingSpaces(s[..|s| - 1]) else 0
  }

  /** A parameter name: `[a-z]\w*` under the `i` flag. */
  predicate IsName(n: string) {
    n != [] && IsLetter(n[0]) && forall i :: 0 < i < |n| ==> IsWordChar(n[i])
  }

  /** The language of `(?:\\[\s\S]|[^"])*`: every double quote is right after a backslash. */
  predicate IsQuotedBody(x: string) {
    forall j :: 0 <= j < |x| && x[j] == '"' ==> 0 < j && x[j - 1] == '\\'
  }

  /** The language of `[^" ]+`. */
  predicate IsBareValue(x: string) {
    x != [] && forall j :: 0 <= j < |x| ==> x[j] != ' ' && x[j] != '"'
  }

  /** The groups an `R_PARAM` match captures: the name (group 1), the text between the quotes
      (group 2) and the unquoted value (group 3); a group that did not take part is `None`. */
  datatype ParamMatch = ParamMatch(name: string, quoted: Option<string>, bare: Option<string>)

  /** The `R_PARAM` match of one piece of a parameter list, or `None` (`null`) when it does not
      match. The leftmost name run is maximal, and a quoted value closes at the last double quote,
      which only spaces may follow. */
  function MatchParam(p: string): (r: Option<ParamMatch>)
    ensures r.Some? ==> IsName(r.value.name)
    ensures r.Some? && r.value.quoted.Some? ==> r.value.bare.None? && IsQuotedBody(r.value.quoted.value)
    ensures r.Some? && r.value.bare.Some? ==> r.value.quoted.None? && IsBareValue(r.value.bare.value)
  {
    var a := SkipSpaces(p, 0);
    if a == |p| || !IsLetter(p[a]) then None
    else
      var e := SkipWord(p, a + 1);
      SkipWordRun(p, a + 1);
      MatchAfterName(p, p[a..e], e)
  }

  /** The rest of an `R_PARAM` match once the name `name` has been read up to index `e`. */
  function MatchAfterName(p: string, name: string, e: nat): (r: Option<ParamMatch>)
    requires e <= |p| && IsName(name)
    ensures r.Some? ==> r.value.name == name
    ensures r.Some? && r.value.quoted.Some? ==> r.value.bare.None? && IsQuotedBody(r.value.quoted.value)
    ensures r.Some? && r.value.bare.Some? ==> r.value.quoted.None? && IsBareValue(r.value.bare.value)
  {
    var b := SkipSpaces(p, e);
    if b == |p| then Some(ParamMatch(name, None, None))
    else if p[b] != '=' then None
    else MatchValue(p, name, SkipSpaces(p, b + 1))
  }

  /** The value part of an `R_PARAM` match, starting at index `c` after `=` and its spaces. */
  function MatchValue(p: string, name: string, c: nat): (r: Option<ParamMatch>)
    requires c <= |p|
    ensures r.Some? ==> r.value.name == name
    ensures r.Some? && r.value.quoted.Some? ==> r.value.bare.None? && IsQuotedBody(r.value.quoted.value)
    ensures r.Some? && r.value.bare.Some? ==> r.value.quoted.None? && IsBareValue(r.value.bare.value)
  {
    if c < |p| && p[c] == '"' then
      var q := |p| - TrailingSpaces(p) - 1;
      if c < q && p[q] == '"' && IsQuotedBody(p[c + 1..q]) then Some(ParamMatch(name, Some(p[c + 1..q]), None))
      else None
    else
      var y := SkipBare(p, c);
      SkipBareRun(p, c);
      if c < y && SkipSpaces(p, y) == |p| then Some(ParamMatch(name, None, Some(p[c..y])))
      else None
  }

  function Spaces(n: nat): (s: string)
    ensures |s| == n && forall i :: 0 <= i < n ==> s[i] == ' '
  {
    if n == 0 then "" else " " + Spaces(n - 1)
  }

  /** How a value is written after `=` (or that there is none). */
  datatype ValueForm = NoValue | Quoted(body: string) | Bare(text: string)

  /** One parameter entry as a writer would lay it out, with the given runs of spaces. */
  function RenderParam(lead: nat, name: string, before: nat, after: nat, form: ValueForm, trail: nat): string {
    Spaces(lead) + name
    + (match form
       case NoValue => ""
       case Quoted(body) => Spaces(before) + "=" + Spaces(after) + "\"" + body + "\""
       case Bare(text) => Spaces(before) + "=" + Spaces(after) + text)
    + Spaces(trail)
  }

  /** A maximal run of spaces is determined by where it stops. */
  lemma {:induction false} SkipSpacesAt(s: string, i: nat, j: nat)
    requires i <= j <= |s|
    requires forall k :: i <= k < j ==> s[k] == ' '
    requires j == |s| || s[j] != ' '
    ensures SkipSpaces(s, i) == j
    decreases j - i
  {
    if i < j {
      SkipSpacesAt(s, i + 1, j);
    }
  }

  lemma {:induction false} SkipWordAt(s: string, i: nat, j: nat)
    requires i <= j <= |s|
    requires forall k :: i <= k < j ==> IsWordChar(s[k])
    requires j == |s| || !IsWordChar(s[j])
    ensures SkipWord(s, i) == j
    decreases j - i
  {
    if i < j {
      SkipWordAt(s, i + 1, j);
    }
  }

  lemma {:induction false} SkipBareAt(s: string, i: nat, j: nat)
    requires i <= j <= |s|
    requires forall k :: i <= k < j ==> s[k] != ' ' && s[k] != '"'
    requires j == |s| || s[j] == ' ' || s[j] == '"'
    ensures SkipBare(s, i) == j
    decreases j - i
  {
    if i < j {
      SkipBareAt(s, i + 1, j);
    }
  }

  lemma TrailingSpacesAt(s: string, n: nat)
    requires n <= |s|
    requires forall k :: |s| - n <= k < |s| ==> s[k] == ' '
    requires n == |s| || s[|s| - n - 1] != ' '
    ensures TrailingSpaces(s) == n
    decreases n
  {
    if n > 0 {
      TrailingSpacesAt(s[..|s| - 1], n - 1);
    }
  }

  /** The leading spaces and the name of a laid-out entry are found where they were written. */
  lemma MatchRenderedName(p: string, lead: nat, name: string)
    requires IsName(name) && |Spaces(lead) + name| <= |p| && p[..lead + |name|] == Spaces(lead) + name
    requires lead + |name| == |p| || !IsWordChar(p[lead + |name|])
    ensures SkipSpaces(p, 0) == lead && IsLetter(p[lead])
    ensures SkipWord(p, lead + 1) == lead + |name| && p[lead..lead + |name|] == name
  {
    NameAfterSpaces(p, lead, name);
    NameRunAt(p, lead, lead + |name|);
  }

  /** A name read from its positions: spaces up to `lead`, a letter at `lead`, word characters up
      to `e`, and no word character at `e`. */
  lemma NameRunAt(p: string, lead: nat, e: nat)
    requires lead < e <= |p| && IsLetter(p[lead])
    requires forall k :: 0 <= k < lead ==> p[k] == ' '
    requires forall k :: lead < k < e ==> IsWordChar(p[k])
    requires e == |p| || !IsWordChar(p[e])
    ensures SkipSpaces(p, 0) == lead && SkipWord(p, lead + 1) == e
  {
    SkipSpacesAt(p, 0, lead);
    SkipWordAt(p, lead + 1, e);
  }

  /** Where `lead` spaces and a name were written at the start of `p`. */
  lemma NameAfterSpaces(p: string, lead: nat, name: string)
    requires name != [] && lead + |name| <= |p| && p[..lead + |name|] == Spaces(lead) + name
    ensures forall k :: 0 <= k < lead ==> p[k] == ' '
    ensures forall k :: lead <= k < lead + |name| ==> p[k] == name[k - lead]
    ensures p[lead] == name[0] && p[lead..lead + |name|] == name
  {
    var w := Spaces(lead) + name;
    forall k | 0 <= k < lead + |name|
      ensures p[k] == w[k]
    {
      assert p[k] == p[..lead + |name|][k];
    }
    assert p[lead..lead + |name|] == w[lead..];
  }

  /** Once the leading spaces and the name are where they were written, the match is decided by
      what follows the name. */
  lemma MatchNameAt(p: string, lead: nat, name: string, e: nat, r: Option<ParamMatch>)
    requires IsName(name) && e == lead + |name| && e <= |p| && p[..e] == Spaces(lead) + name
    requires e == |p| || !IsWordChar(p[e])
    requires MatchAfterName(p, name, e) == r
    ensures MatchParam(p) == r
  {
    MatchRenderedName(p, lead, name);
  }

  /** After the name, spaces, `=` at `b` and spaces up to `c` lead to the value match at `c`. */
  lemma MatchEqualsAt(p: string, name: string, e: nat, b: nat, c: nat)
    requires IsName(name) && e <= b < c <= |p| && p[b] == '='
    requires forall k :: e <= k < b ==> p[k] == ' '
    requires forall k :: b + 1 <= k < c ==> p[k] == ' '
    requires c == |p| || p[c] != ' '
    ensures MatchAfterName(p, name, e) == MatchValue(p, name, c)
  {
    SkipSpacesAt(p, e, b);
    SkipSpacesAt(p, b + 1, c);
  }

  /** A value between the quotes at `c` and `q`, followed only by spaces. */
  lemma MatchQuotedValueAt(p: string, name: string, c: nat, q: nat)
    requires c < q < |p| && p[c] == '"' && p[q] == '"' && IsQuotedBody(p[c + 1..q])
    requires forall k :: q + 1 <= k < |p| ==> p[k] == ' '
    ensures MatchValue(p, name, c) == Some(ParamMatch(name, Some(p[c + 1..q]), None))
  {
    TrailingSpacesAt(p, |p| - q - 1);
  }

  /** The match of a quoted entry, from the positions of its parts: the name ends at `e`, the
      `=` is at `b`, the quotes are at `c` and `q`. */
  lemma MatchQuotedAt(p: string, lead: nat, name: string, e: nat, b: nat, c: nat, q: nat)
    requires IsName(name) && e == lead + |name| && e <= b < c < q < |p|
    requires p[..e] == Spaces(lead) + name
    requires p[b] == '=' && p[c] == '"' && p[q] == '"' && IsQuotedBody(p[c + 1..q])
    requires forall k :: e <= k < b ==> p[k] == ' '
    requires forall k :: b + 1 <= k < c ==> p[k] == ' '
    requires forall k :: q + 1 <= k < |p| ==> p[k] == ' '
    ensures MatchParam(p) == Some(ParamMatch(name, Some(p[c + 1..q]), None))
  {
    MatchQuotedValueAt(p, name, c, q);
    MatchEqualsAt(p, name, e, b, c);
    MatchNameAt(p, lead, name, e, Some(ParamMatch(name, Some(p[c + 1..q]), None)));
  }

  /** The match of an unquoted entry, from the positions of its parts: the name ends at `e`, the
      `=` is at `b`, the value runs from `c` to `y`. */
  lemma MatchBareAt(p: string, lead: nat, name: string, e: nat, b: nat, c: nat, y: nat)
    requires IsName(name) && e == lead + |name| && e <= b < c < y <= |p|
    requires p[..e] == Spaces(lead) + name
    requires p[b] == '=' && IsBareValue(p[c..y])
    requires forall k :: e <= k < b ==> p[k] == ' '
    requires forall k :: b + 1 <= k < c ==> p[k] == ' '
    requires forall k :: y <= k < |p| ==> p[k] == ' '
    ensures MatchParam(p) == Some(ParamMatch(name, None, Some(p[c..y])))
  {
    MatchBareValueAt(p, name, c, y);
    MatchEqualsAt(p, name, e, b, c);
    MatchNameAt(p, lead, name, e, Some(ParamMatch(name, None, Some(p[c..y]))));
  }

  lemma MatchBareValueAt(p: string, name: string, c: nat, y: nat)
    requires c < y <= |p| && IsBareValue(p[c..y])
    requires forall k :: y <= k < |p| ==> p[k] == ' '
    ensures MatchValue(p, name, c) == Some(ParamMatch(name, None, Some(p[c..y])))
  {
    assert forall k :: c <= k < y ==> p[k] == p[c..y][k - c];
    SkipBareAt(p, c, y);
    SkipSpacesAt(p, y, |p|);
    assert p[c] != '"';
  }

  lemma MatchRenderedQuoted(lead: nat, name: string, before: nat, after: nat, body: string, trail: nat)
    requires IsName(name) && IsQuotedBody(body)
    ensures MatchParam(RenderParam(lead, name, before, after, Quoted(body), trail)) ==
      Some(ParamMatch(name, Some(body), None))
  {
    var s1 := Spaces(lead) + name;
    var s2 := s1 + Spaces(before) + "=";
    var s3 := s2 + Spaces(after) + "\"";
    var s4 := s3 + body + "\"";
    var p := s4 + Spaces(trail);
    assert p == RenderParam(lead, name, before, after, Quoted(body), trail);
    var e, b, c, q := |s1|, |s2| - 1, |s3| - 1, |s4| - 1;
    assert p[..e] == s1;
    assert p[b] == '=' && p[c] == '"' && p[q] == '"';
    assert p[c + 1..q] == body;
    forall k | e <= k < b ensures p[k] == ' ' {
      assert p[k] == s2[k];
    }
    forall k | b + 1 <= k < c ensures p[k] == ' ' {
      assert p[k] == s3[k];
    }
    forall k | q + 1 <= k < |p| ensures p[k] == ' ' {
    }
    MatchQuotedAt(p, lead, name, e, b, c, q);
  }

  lemma MatchRenderedBare(lead: nat, name: string, before: nat, after: nat, text: string, trail: nat)
    requires IsName(name) && IsBareValue(text)
    ensures MatchParam(RenderParam(lead, name, before, after, Bare(text), trail)) ==
      Some(ParamMatch(name, None, Some(text)))
  {
    var s1 := Spaces(lead) + name;
    var s2 := s1 + Spaces(before) + "=";
    var s3 := s2 + Spaces(after);
    var s4 := s3 + text;
    var p := s4 + Spaces(trail);
    assert p == RenderParam(lead, name, before, after, Bare(text), trail);
    var e, b, c, y := |s1|, |s2| - 1, |s3|, |s4|;
    assert p[..e] == s1;
    assert p[b] == '=';
    assert p[c..y] == text;
    forall k | e <= k < b ensures p[k] == ' ' {
      assert p[k] == s2[k];
    }
    forall k | b + 1 <= k < c ensures p[k] == ' ' {
      assert p[k] == s3[k];
    }
    forall k | y <= k < |p| ensures p[k] == ' ' {
    }
    MatchBareAt(p, lead, name, e, b, c, y);
  }

  lemma MatchRenderedFlag(lead: nat, name: string, trail: nat)
    requires IsName(name)
    ensures MatchParam(RenderParam(lead, name, 0, 0, NoValue, trail)) == Some(ParamMatch(name, None, None))
  {
    var p := RenderParam(lead, name, 0, 0, NoValue, trail);
    var e := lead + |name|;
    assert p == Spaces(lead) + name + Spaces(trail);
    assert p[..e] == Spaces(lead) + name;
    assert forall k :: e <= k < |p| ==> p[k] == ' ';
    MatchRenderedName(p, lead, name);
    SkipSpacesAt(p, e, e + trail);
  }

  /** Every entry laid out as `name`, `name = "body"` or `name = text` with any runs of spaces is
      matched, and the groups give back its name and its value text. */
  lemma MatchRendered(lead: nat, name: string, before: nat, after: nat, form: ValueForm, trail: nat)
    requires IsName(name)
    requires form.Quoted? ==> IsQuotedBody(form.body)
    requires form.Bare? ==> IsBareValue(form.text)
    ensures MatchParam(RenderParam(lead, name, before, after, form, trail)) ==
      Some(ParamMatch(name,
                      if form.Quoted? then Some(form.body) else None,
                      if form.Bare? then Some(form.text) else None))
  {
    match form {
      case NoValue =>
        assert RenderParam(lead, name, before, after, form, trail) == RenderParam(lead, name, 0, 0, form, trail);
        MatchRenderedFlag(lead, name, trail);
      case Quoted(body) => MatchRenderedQuoted(lead, name, before, after, body, trail);
      case Bare(text) => MatchRenderedBare(lead, name, before, after, text, trail);
    }
  }

  /** The way a match's groups say its value was written. */
  function FormOf(m: ParamMatch): ValueForm {
    if m.quoted.Some? then Quoted(m.quoted.value)
    else if m.bare.Some? then Bare(m.bare.value)
    else NoValue
  }

  /** Everything `TrailingSpaces` counts is a space. */
  lemma {:induction false} TrailingSpacesRun(s: string)
    ensures forall k :: |s| - TrailingSpaces(s) <= k < |s| ==> s[k] == ' '
  {
    if s != [] && s[|s| - 1] == ' ' {
      TrailingSpacesRun(s[..|s| - 1]);
    }
  }

  /** A run of spaces is the run `Spaces` of its length. */
  lemma SpacesSlice(s: string, i: nat, j: nat)
    requires i <= j <= |s|
    requires forall k :: i <= k < j ==> s[k] == ' '
    ensures s[i..j] == Spaces(j - i)
  {
    assert forall k :: 0 <= k < j - i ==> s[i..j][k] == s[i + k];
  }

  /** A piece cut into spaces, the text from `a` to `y`, and spaces. */
  lemma AroundShape(p: string, a: nat, e: nat, y: nat)
    requires a <= e <= y <= |p|
    requires forall k :: 0 <= k < a ==> p[k] == ' '
    requires forall k :: y <= k < |p| ==> p[k] == ' '
    ensures p == Spaces(a) + p[a..e] + p[e..y] + Spaces(|p| - y)
  {
    SpacesSlice(p, 0, a);
    SpacesSlice(p, y, |p|);
    Cut(p, 0, a, e);
    Cut(p, 0, e, y);
    Cut(p, 0, y, |p|);
    assert p[0..a] == p[..a] && p[0..|p|] == p;
  }

  /** A piece cut into spaces, a name and spaces is a laid-out entry without a value. */
  lemma FlagShape(p: string, a: nat, e: nat)
    requires a <= e <= |p|
    requires forall k :: 0 <= k < a ==> p[k] == ' '
    requires forall k :: e <= k < |p| ==> p[k] == ' '
    ensures p == RenderParam(a, p[a..e], 0, 0, NoValue, |p| - e)
  {
    AroundShape(p, a, e, e);
    assert p[e..e] == "";
  }

  /** Spaces, `=` at `b` and spaces up to `c`. */
  lemma EqualsShape(p: string, e: nat, b: nat, c: nat)
    requires e <= b < c <= |p| && p[b] == '='
    requires forall k :: e <= k < b ==> p[k] == ' '
    requires forall k :: b + 1 <= k < c ==> p[k] == ' '
    ensures p[e..c] == Spaces(b - e) + "=" + Spaces(c - b - 1)
  {
    SpacesSlice(p, e, b);
    SpacesSlice(p, b + 1, c);
    assert p[b..b + 1] == "=";
    Cut(p, e, b, b + 1);
    Cut(p, e, b + 1, c);
  }

  /** A piece cut into spaces, a name ending at `e`, spaces, `=` at `b`, spaces, a quoted value
      between the quotes at `c` and `q`, and spaces. */
  lemma QuotedShape(p: string, a: nat, e: nat, b: nat, c: nat, q: nat)
    requires a <= e <= b < c < q < |p| && p[b] == '=' && p[c] == '"' && p[q] == '"'
    requires forall k :: 0 <= k < a ==> p[k] == ' '
    requires forall k :: e <= k < b ==> p[k] == ' '
    requires forall k :: b + 1 <= k < c ==> p[k] == ' '
    requires forall k :: q + 1 <= k < |p| ==> p[k] == ' '
    ensures p == RenderParam(a, p[a..e], b - e, c - b - 1, Quoted(p[c + 1..q]), |p| - q - 1)
  {
    QuotedValueShape(p, e, b, c, q);
    AroundShape(p, a, e, q + 1);
    var mid := Spaces(b - e) + "=" + Spaces(c - b - 1) + "\"" + p[c + 1..q] + "\"";
    assert RenderParam(a, p[a..e], b - e, c - b - 1, Quoted(p[c + 1..q]), |p| - q - 1)
        == Spaces(a) + p[a..e] + mid + Spaces(|p| - q - 1);
  }

  /** The text of a quoted value from its positions: `=` at `b`, the quotes at `c` and `q`. */
  lemma QuotedValueShape(p: string, e: nat, b: nat, c: nat, q: nat)
    requires e <= b < c < q < |p| && p[b] == '=' && p[c] == '"' && p[q] == '"'
    requires forall k :: e <= k < b ==> p[k] == ' '
    requires forall k :: b + 1 <= k < c ==> p[k] == ' '
    ensures p[e..q + 1] == Spaces(b - e) + "=" + Spaces(c - b - 1) + "\"" + p[c + 1..q] + "\""
  {
    EqualsShape(p, e, b, c);
    assert p[c..c + 1] == "\"" && p[q..q + 1] == "\"";
    Cut(p, e, c, c + 1);
    Cut(p, e, c + 1, q);
    Cut(p, e, q, q + 1);
  }

  /** A piece cut into spaces, a name ending at `e`, spaces, `=` at `b`, spaces, an unquoted
      value from `c` to `y`, and spaces. */
  lemma BareShape(p: string, a: nat, e: nat, b: nat, c: nat, y: nat)
    requires a <= e <= b < c <= y <= |p| && p[b] == '='
    requires forall k :: 0 <= k < a ==> p[k] == ' '
    requires forall k :: e <= k < b ==> p[k] == ' '
    requires forall k :: b + 1 <= k < c ==> p[k] == ' '
    requires forall k :: y <= k < |p| ==> p[k] == ' '
    ensures p == RenderParam(a, p[a..e], b - e, c - b - 1, Bare(p[c..y]), |p| - y)
  {
    EqualsShape(p, e, b, c);
    AroundShape(p, a, e, y);
    Cut(p, e, c, y);
  }

  /** Soundness of the recogniser: every piece `R_PARAM` accepts is laid out as spaces, the
      captured name, optionally spaces, `=`, spaces and the captured value (quoted or not), and
      spaces, so the match captured exactly the parts of the piece. */
  lemma MatchParamSound(p: string)
    requires MatchParam(p).Some?
    ensures exists lead: nat, before: nat, after: nat, trail: nat ::
      p == RenderParam(lead, MatchParam(p).value.name, before, after, FormOf(MatchParam(p).value), trail)
  {
    var m := MatchParam(p).value;
    var a := SkipSpaces(p, 0);
    SkipSpacesRun(p, 0);
    var e := SkipWord(p, a + 1);
    assert m.name == p[a..e];
    var b := SkipSpaces(p, e);
    SkipSpacesRun(p, e);
    assert MatchParam(p) == MatchAfterName(p, m.name, e);
    if b == |p| {
      FlagShape(p, a, e);
      assert p == RenderParam(a, m.name, 0, 0, FormOf(m), |p| - e);
    } else {
      var c := SkipSpaces(p, b + 1);
      SkipSpacesRun(p, b + 1);
      MatchValueSound(p, a, e, b, c);
    }
  }

  /** The value case of `MatchParamSound`, once the name ends at `e` and `=` is at `b`. */
  lemma MatchValueSound(p: string, a: nat, e: nat, b: nat, c: nat)
    requires a <= e <= b < c <= |p| && p[b] == '='
    requires forall k :: 0 <= k < a ==> p[k] == ' '
    requires forall k :: e <= k < b ==> p[k] == ' '
    requires forall k :: b + 1 <= k < c ==> p[k] == ' '
    requires MatchValue(p, p[a..e], c).Some?
    ensures exists lead: nat, before: nat, after: nat, trail: nat ::
      p == RenderParam(lead, p[a..e], before, after, FormOf(MatchValue(p, p[a..e], c).value), trail)
  {
    var m := MatchValue(p, p[a..e], c).value;
    if c < |p| && p[c] == '"' {
      var q := |p| - TrailingSpaces(p) - 1;
      TrailingSpacesRun(p);
      QuotedShape(p, a, e, b, c, q);
      assert p == RenderParam(a, p[a..e], b - e, c - b - 1, FormOf(m), |p| - q - 1);
    } else {
      var y := SkipBare(p, c);
      SkipSpacesRun(p, y);
      BareShape(p, a, e, b, c, y);
      assert p == RenderParam(a, p[a..e], b - e, c - b - 1, FormOf(m), |p| - y);
    }
  }

  // ---------------------------------------------------------------------------------------------
  // __unescape and __isEmpty

  /** `__unescape`: `s.replace(/\\([\s\S])/g, '$1')`, every backslash-character pair becomes the
      character; a final lone backslash stays. */
  function Unescape(s: string): (r: string)
    ensures |r| <= |s| <= 2 * |r| + 1
  {
    if |s| >= 2 && s[0] == '\\' then [s[1]] + Unescape(s[2..])
    else if s == [] then []
    else [s[0]] + Unescape(s[1..])
  }

  /** A text without backslashes is left as it is. */
  lemma {:induction false} UnescapePlain(s: string)
    requires forall i :: 0 <= i < |s| ==> s[i] != '\\'
    ensures Unescape(s) == s
  {
    if s != [] {
      UnescapePlain(s[1..]);
      assert s == [s[0]] + s[1..];
    }
  }

  /** The writer's side of quoting: a backslash before every double quote and every backslash. */
  function Escape(v: string): string {
    if v == [] then []
    else (if v[0] == '"' || v[0] == '\\' then ['\\', v[0]] else [v[0]]) + Escape(v[1..])
  }

  /** Unescaping undoes escaping. */
  lemma {:induction false} UnescapeEscape(v: string)
    ensures Unescape(Escape(v)) == v
  {
    if v != [] {
      UnescapeEscape(v[1..]);
      var head := if v[0] == '"' || v[0] == '\\' then ['\\', v[0]] else [v[0]];
      assert Escape(v) == head + Escape(v[1..]);
      if v[0] == '"' || v[0] == '\\' {
        assert Escape(v)[2..] == Escape(v[1..]);
      } else {
        assert Escape(v)[1..] == Escape(v[1..]);
      }
      assert v == [v[0]] + v[1..];
    }
  }

  /** An escaped value is a valid text between quotes, and is empty only when the value is. */
  lemma {:induction false} EscapeIsQuotedBody(v: string)
    ensures IsQuotedBody(Escape(v))
    ensures |Escape(v)| >= |v|
  {
    if v != [] {
      EscapeIsQuotedBody(v[1..]);
      var head := if v[0] == '"' || v[0] == '\\' then ['\\', v[0]] else [v[0]];
      var x := Escape(v);
      assert x == head + Escape(v[1..]);
      forall j | 0 <= j < |x| && x[j] == '"' ensures 0 < j && x[j - 1] == '\\' {
        if j >= |head| {
          assert x[j] == Escape(v[1..])[j - |head|];
          if j - |head| == 0 {
            assert false;
          }
        }
      }
    }
  }

  /** `__isEmpty`: `/^\s*$/.test(s)`, the string holds only white space. */
  predicate IsEmpty(s: string) {
    forall i :: 0 <= i < |s| ==> IsJsSpace(s[i])
  }

  /** A text is blank exactly when both of its halves are; the empty text is blank. */
  lemma IsEmptyConcat(a: string, b: string)
    ensures IsEmpty("")
    ensures IsEmpty(a + b) <==> IsEmpty(a) && IsEmpty(b)
  {
    if IsEmpty(a + b) {
      forall i | 0 <= i < |a| ensures IsJsSpace(a[i]) {
        assert a[i] == (a + b)[i];
      }
      forall i | 0 <= i < |b| ensures IsJsSpace(b[i]) {
        assert b[i] == (a + b)[|a| + i];
      }
    }
  }

  /** A run of spaces is blank. */
  lemma SpacesAreEmpty(n: nat)
    ensures IsEmpty(Spaces(n))
  {
    assert IsJsSpace(' ');
  }

  // ---------------------------------------------------------------------------------------------
  // parseParams

  /** One accepted entry of a parameter list: its name and the value `parseParams` stores for it
      (`None` for `undefined`). */
  datatype Entry = Entry(name: string, value: Option<string>)

  /** The value stored for a match: the quoted text when it is non-empty, else the unquoted text;
      a non-empty value is unescaped. A bare name and `""` both give `undefined`. */
  function ValueOf(m: ParamMatch): Option<string> {
    var raw := if m.quoted.Some? && m.quoted.value != "" then m.quoted else m.bare;
    if raw.Some? && raw.value != "" then Some(Unescape(raw.value)) else raw
  }

  /** The entry one piece of the list stands for, or `None` when it does not have the `R_PARAM`
      shape. */
  function PieceEntry(p: string): Option<Entry> {
    match MatchParam(p)
    case None => None
    case Some(m) => Some(Entry(m.name, ValueOf(m)))
  }

  /** The entries of all pieces, or `None` when some piece does not have the `R_PARAM` shape. */
  function AllEntries(pieces: seq<string>): (r: Option<seq<Entry>>)
    ensures r.Some? ==> |r.value| == |pieces|
  {
    if forall i :: 0 <= i < |pieces| ==> PieceEntry(pieces[i]).Some? then
      Some(seq(|pieces|, i requires 0 <= i < |pieces| && PieceEntry(pieces[i]).Some? =>
                           PieceEntry(pieces[i]).value))
    else None
  }

  lemma AllEntriesSome(pieces: seq<string>, es: seq<Entry>)
    requires |es| == |pieces| && forall j :: 0 <= j < |pieces| ==> PieceEntry(pieces[j]) == Some(es[j])
    ensures AllEntries(pieces) == Some(es)
  {
    assert forall j :: 0 <= j < |pieces| ==> PieceEntry(pieces[j]).Some?;
    var all := seq(|pieces|, i requires 0 <= i < |pieces| && PieceEntry(pieces[i]).Some? =>
                               PieceEntry(pieces[i]).value);
    assert all == es;
  }

  function Names(es: seq<Entry>): (ns: seq<string>)
    ensures |ns| == |es| && forall i :: 0 <= i < |es| ==> ns[i] == es[i].name
  {
    seq(|es|, i requires 0 <= i < |es| => es[i].name)
  }

  /** The names in the order they are first seen, each once. */
  function FirstSeen(ns: seq<string>): seq<string> {
    if ns == [] then []
    else
      var f := FirstSeen(ns[..|ns| - 1]);
      if ns[|ns| - 1] in ns[..|ns| - 1] then f else f + [ns[|ns| - 1]]
  }

  /** The values given to name `n`, in input order. */
  function ValuesOf(es: seq<Entry>, n: string): seq<Option<string>> {
    if es == [] then []
    else ValuesOf(es[..|es| - 1], n) + (if es[|es| - 1].name == n then [es[|es| - 1].value] else [])
  }

  /** A name given once stores its value; a name given several times stores the list of them. */
  function Collected(vs: seq<Option<string>>): ParamValue {
    if |vs| == 1 then Scalar(vs[0]) else Multi(vs)
  }

  /** The dictionary a list of entries denotes: keys in first-seen order, and under each key the
      value, or list of values, given to that name. */
  function Build(es: seq<Entry>): Dict {
    Dict(FirstSeen(Names(es)), map n | n in Names(es) :: Collected(ValuesOf(es, n)))
  }

  /** What `parseParams(s)` returns: `None` for `null`. */
  function ParamsOf(s: string): (r: Option<Dict>)
    ensures r.Some? ==> WellFormed(r.value)
    ensures r.Some? ==> forall k :: 0 <= k < |r.value.keys| ==> IsName(r.value.keys[k])
  {
    if IsEmpty(s) then Some(EmptyDict)
    else match SplitByCommas(s)
      case None => None
      case Some(pieces) =>
        match AllEntries(pieces)
        case None => None
        case Some(es) =>
          BuildWellFormed(es);
          EntriesNamed(pieces, es);
          Some(Build(es))
  }

  /** Every entry of a parameter list carries an `R_PARAM` name. */
  lemma EntriesNamed(pieces: seq<string>, es: seq<Entry>)
    requires AllEntries(pieces) == Some(es)
    ensures forall n :: n in Names(es) ==> IsName(n)
  {
    forall n | n in Names(es) ensures IsName(n) {
      var i :| 0 <= i < |es| && Names(es)[i] == n;
      assert PieceEntry(pieces[i]).Some?;
      assert es[i] == PieceEntry(pieces[i]).value;
    }
  }

  lemma FirstSeenMembers(ns: seq<string>)
    ensures forall x :: x in FirstSeen(ns) <==> x in ns
    ensures forall i, j :: 0 <= i < j < |FirstSeen(ns)| ==> FirstSeen(ns)[i] != FirstSeen(ns)[j]
  {
    if ns != [] {
      FirstSeenMembers(ns[..|ns| - 1]);
      assert ns == ns[..|ns| - 1] + [ns[|ns| - 1]];
    }
  }

  lemma ValuesOfEmpty(es: seq<Entry>, n: string)
    ensures ValuesOf(es, n) == [] <==> n !in Names(es)
  {
    if es != [] {
      ValuesOfEmpty(es[..|es| - 1], n);
      assert Names(es) == Names(es[..|es| - 1]) + [es[|es| - 1].name];
    }
  }

  /** Adding one entry to a dictionary, the update rule of the `parseParams` loop: a new name is
      stored as a scalar and becomes the last key; a second value turns the scalar into a
      two-element list; further values are appended to the list. */
  function AddEntry(d: Dict, e: Entry): Dict {
    if e.name !in d.values then Dict(d.keys + [e.name], d.values[e.name := Scalar(e.value)])
    else match d.values[e.name]
      case Scalar(w) => Dict(d.keys, d.values[e.name := Multi([w, e.value])])
      case Multi(vs) => Dict(d.keys, d.values[e.name := Multi(vs + [e.value])])
  }

  lemma NamesSnoc(es: seq<Entry>, e: Entry)
    ensures Names(es + [e]) == Names(es) + [e.name]
  {
  }

  lemma ValuesOfSnoc(es: seq<Entry>, e: Entry, n: string)
    ensures ValuesOf(es + [e], n) == ValuesOf(es, n) + (if e.name == n then [e.value] else [])
  {
    assert (es + [e])[..|es|] == es;
  }

  lemma FirstSeenSnoc(ns: seq<string>, x: string)
    ensures FirstSeen(ns + [x]) == if x in ns then FirstSeen(ns) else FirstSeen(ns) + [x]
  {
    assert (ns + [x])[..|ns|] == ns;
  }

  /** The value `AddEntry` stores under the entry's name. */
  function Updated(d: Dict, e: Entry): ParamValue {
    if e.name !in d.values then Scalar(e.value)
    else match d.values[e.name]
      case Scalar(w) => Multi([w, e.value])
      case Multi(ws) => Multi(ws + [e.value])
  }

  lemma AddEntryParts(d: Dict, e: Entry)
    ensures AddEntry(d, e).values == d.values[e.name := Updated(d, e)]
    ensures AddEntry(d, e).keys == if e.name in d.values then d.keys else d.keys + [e.name]
  {
  }

  lemma BuildUpdated(es: seq<Entry>, e: Entry)
    ensures Collected(ValuesOf(es + [e], e.name)) == Updated(Build(es), e)
  {
    ValuesOfSnoc(es, e, e.name);
    ValuesOfEmpty(es, e.name);
    if e.name in Names(es) {
      assert |ValuesOf(es, e.name)| > 0;
    }
  }

  lemma BuildValuesSnoc(es: seq<Entry>, e: Entry)
    ensures Build(es + [e]).values == Build(es).values[e.name := Updated(Build(es), e)]
  {
    var d := Build(es);
    var es' := es + [e];
    NamesSnoc(es, e);
    BuildUpdated(es, e);
    forall n | n in Names(es') && n != e.name
      ensures n in d.values && Build(es').values[n] == d.values[n]
    {
      ValuesOfSnoc(es, e, n);
    }
  }

  /** Building from one more entry is adding that entry to the dictionary built so far: the update
      rule of the loop agrees with the reference definition of the result. */
  lemma BuildSnoc(es: seq<Entry>, e: Entry)
    ensures Build(es + [e]) == AddEntry(Build(es), e)
  {
    NamesSnoc(es, e);
    FirstSeenSnoc(Names(es), e.name);
    BuildValuesSnoc(es, e);
    AddEntryParts(Build(es), e);
  }

  /** The entries added one by one, in order, to the empty dictionary. */
  function AddAll(es: seq<Entry>): Dict {
    if es == [] then EmptyDict else AddEntry(AddAll(es[..|es| - 1]), es[|es| - 1])
  }

  /** Adding the entries one at a time gives the dictionary they denote. */
  lemma {:induction false} AddAllBuild(es: seq<Entry>)
    ensures AddAll(es) == Build(es)
  {
    if es == [] {
      assert Build(es).values == map[];
    } else {
      var init := es[..|es| - 1];
      AddAllBuild(init);
      BuildSnoc(init, es[|es| - 1]);
      assert init + [es[|es| - 1]] == es;
    }
  }

  /** The dictionary of any list of entries has distinct keys, exactly the names given. */
  lemma BuildWellFormed(es: seq<Entry>)
    ensures WellFormed(Build(es))
    ensures forall n :: n in Build(es).keys <==> n in Names(es)
  {
    FirstSeenMembers(Names(es));
  }

  /** `parseParams`: empty or white-space input gives `{}`; a failed split or a piece that is not
      a `name` / `name = value` entry gives `null`; otherwise each entry is added to the result in
      turn. */
  method ParseParams(s: string) returns (r: Option<Dict>)
    ensures r == ParamsOf(s)
  {
    if forall i :: 0 <= i < |s| ==> IsJsSpace(s[i]) {
      return Some(EmptyDict);
    }
    var split := SplitParams(s);
    if split.None? {
      return None;
    }
    var pieces := split.value;
    var keys: seq<string> := [];
    var values: map<string, ParamValue> := map[];
    ghost var es: seq<Entry> := [];
    for i := 0 to |pieces|
      invariant |es| == i
      invariant EntriesOf(pieces, es, i)
      invariant Dict(keys, values) == AddAll(es)
    {
      var m := MatchParam(pieces[i]);
      if m.None? {
        assert PieceEntry(pieces[i]).None?;
        return None;
      }
      var name := m.value.name;
      var value := ValueOf(m.value);
      assert PieceEntry(pieces[i]) == Some(Entry(name, value));
      ghost var prev := es;
      es := es + [Entry(name, value)];
      EntriesOfSnoc(pieces, prev, Entry(name, value), i);
      assert es[..|es| - 1] == prev;
      if name in values {
        match values[name]
        case Multi(vs) =>
          values := values[name := Multi(vs + [value])];
        case Scalar(w) =>
          values := values[name := Multi([w, value])];
      } else {
        values := values[name := Scalar(value)];
        keys := keys + [name];
      }
    }
    AllEntriesSome(pieces, es);
    AddAllBuild(es);
    r := Some(Dict(keys, values));
  }

  /** The first `i` pieces stand for the entries `es`. */
  predicate EntriesOf(pieces: seq<string>, es: seq<Entry>, i: nat) {
    i <= |pieces| && |es| == i && forall j :: 0 <= j < i ==> PieceEntry(pieces[j]) == Some(es[j])
  }

  lemma EntriesOfSnoc(pieces: seq<string>, es: seq<Entry>, e: Entry, i: nat)
    requires EntriesOf(pieces, es, i) && i < |pieces| && PieceEntry(pieces[i]) == Some(e)
    ensures EntriesOf(pieces, es + [e], i + 1)
  {
  }

  // ---------------------------------------------------------------------------------------------
  // Writing a parameter list that parses back

  /** The `splitParams` loop run from state `st` over `x`. */
  function ScanFrom(st: ScanState, x: string): ScanState {
    if x == [] then st else ScanChar(ScanFrom(st, x[..|x| - 1]), x[|x| - 1])
  }

  lemma {:induction false} ScanFromAppend(st: ScanState, a: string, b: string)
    ensures ScanFrom(st, a + b) == ScanFrom(ScanFrom(st, a), b)
    decreases |b|
  {
    if b == [] {
      assert a + b == a;
    } else {
      ScanFromAppend(st, a, b[..|b| - 1]);
      assert (a + b)[..|a + b| - 1] == a + b[..|b| - 1];
    }
  }

  lemma {:induction false} ScanIsScanFrom(s: string)
    ensures Scan(s) == ScanFrom(ScanState([], "", false, false), s)
  {
    if s != [] {
      ScanIsScanFrom(s[..|s| - 1]);
    }
  }

  /** A character the `splitParams` loop only appends to the current piece outside quotes. */
  predicate IsPlain(c: char) {
    c != '\\' && c != '"' && c != ','
  }

  lemma {:induction false} ScanPlain(d: seq<string>, b: string, x: string)
    requires forall i :: 0 <= i < |x| ==> IsPlain(x[i])
    ensures ScanFrom(ScanState(d, b, false, false), x) == ScanState(d, b + x, false, false)
  {
    if x != [] {
      ScanPlain(d, b, x[..|x| - 1]);
      assert b + x[..|x| - 1] + [x[|x| - 1]] == b + x;
    }
  }

  lemma ScanOne(st: ScanState, c: char)
    ensures ScanFrom(st, [c]) == ScanChar(st, c)
  {
    assert [c][..0] == [];
  }

  lemma ScanChunk(d: seq<string>, b: string, c: char)
    ensures ScanFrom(ScanState(d, b, true, false), if c == '"' || c == '\\' then ['\\', c] else [c])
            == ScanState(d, b + (if c == '"' || c == '\\' then ['\\', c] else [c]), true, false)
  {
    var st := ScanState(d, b, true, false);
    if c == '"' || c == '\\' {
      ScanFromAppend(st, ['\\'], [c]);
      assert ['\\'] + [c] == ['\\', c];
      ScanOne(st, '\\');
      ScanOne(ScanState(d, b + ['\\'], true, true), c);
      assert b + ['\\'] + [c] == b + ['\\', c];
    } else {
      ScanOne(st, c);
    }
  }

  /** Inside quotes, an escaped value passes the loop without splitting or closing the quote. */
  lemma {:induction false} ScanEscaped(d: seq<string>, b: string, v: string)
    ensures ScanFrom(ScanState(d, b, true, false), Escape(v)) == ScanState(d, b + Escape(v), true, false)
    decreases |v|
  {
    if v != [] {
      var chunk := if v[0] == '"' || v[0] == '\\' then ['\\', v[0]] else [v[0]];
      var st := ScanState(d, b, true, false);
      calc {
        ScanFrom(st, Escape(v));
        { assert Escape(v) == chunk + Escape(v[1..]); }
        ScanFrom(st, chunk + Escape(v[1..]));
        { ScanFromAppend(st, chunk, Escape(v[1..])); }
        ScanFrom(ScanFrom(st, chunk), Escape(v[1..]));
        { ScanChunk(d, b, v[0]); }
        ScanFrom(ScanState(d, b + chunk, true, false), Escape(v[1..]));
        { ScanEscaped(d, b + chunk, v[1..]); }
        ScanState(d, b + chunk + Escape(v[1..]), true, false);
        { assert b + chunk + Escape(v[1..]) == b + Escape(v); }
        ScanState(d, b + Escape(v), true, false);
      }
    }
  }

  /** An entry as a writer puts it in a parameter list: a bare name for `undefined`, otherwise
      `name="value"` with the value escaped. */
  function RenderEntry(e: Entry): string {
    match e.value
    case None => e.name
    case Some(v) => e.name + "=" + "\"" + Escape(v) + "\""
  }

  function RenderEntries(es: seq<Entry>): (ps: seq<string>)
    ensures |ps| == |es|
    decreases |es|
  {
    if es == [] then [] else [RenderEntry(es[0])] + RenderEntries(es[1..])
  }

  lemma {:induction false} RenderEntriesAt(es: seq<Entry>)
    ensures forall i :: 0 <= i < |es| ==> RenderEntries(es)[i] == RenderEntry(es[i])
    decreases |es|
  {
    if es != [] {
      RenderEntriesAt(es[1..]);
    }
  }

  /** An entry the writer can express: a valid name, and a value that is not the empty string
      (which `parseParams` reads as `undefined`). */
  predicate Writable(e: Entry) {
    IsName(e.name) && (e.value.Some? ==> e.value.value != "")
  }

  lemma NameIsPlain(n: string)
    requires IsName(n)
    ensures forall i :: 0 <= i < |n| ==> IsPlain(n[i])
  {
    assert forall i :: 0 <= i < |n| ==> IsWordChar(n[i]) by {
      assert IsLetter(n[0]);
    }
  }

  lemma ScanRendered(d: seq<string>, e: Entry)
    requires Writable(e)
    ensures ScanFrom(ScanState(d, "", false, false), RenderEntry(e)) == ScanState(d, RenderEntry(e), false, false)
  {
    NameIsPlain(e.name);
    var st := ScanState(d, "", false, false);
    match e.value
    case None =>
      ScanPlain(d, "", e.name);
      assert "" + e.name == e.name;
    case Some(v) =>
      var head := e.name + "=";
      var q := "\"";
      assert forall i :: 0 <= i < |head| ==> IsPlain(head[i]);
      calc {
        ScanFrom(st, RenderEntry(e));
        { ScanFromAppend(st, head + q + Escape(v), q); }
        ScanFrom(ScanFrom(st, head + q + Escape(v)), q);
        { ScanFromAppend(st, head + q, Escape(v)); }
        ScanFrom(ScanFrom(ScanFrom(st, head + q), Escape(v)), q);
        { ScanFromAppend(st, head, q); ScanPlain(d, "", head); assert "" + head == head; ScanOne(ScanState(d, head, false, false), '"'); }
        ScanFrom(ScanFrom(ScanState(d, head + q, true, false), Escape(v)), q);
        { ScanEscaped(d, head + q, v); }
        ScanFrom(ScanState(d, head + q + Escape(v), true, false), q);
        { ScanOne(ScanState(d, head + q + Escape(v), true, false), '"'); }
        ScanState(d, RenderEntry(e), false, false);
      }
  }

  lemma ScanEntryComma(d: seq<string>, e: Entry)
    requires Writable(e)
    ensures ScanFrom(ScanState(d, "", false, false), RenderEntry(e) + ",") == ScanState(d + [RenderEntry(e)], "", false, false)
  {
    var st := ScanState(d, "", false, false);
    ScanFromAppend(st, RenderEntry(e), ",");
    ScanRendered(d, e);
    ScanOne(ScanState(d, RenderEntry(e), false, false), ',');
  }

  lemma {:induction false} ScanJoined(d: seq<string>, es: seq<Entry>)
    requires es != [] && forall i :: 0 <= i < |es| ==> Writable(es[i])
    ensures var ps := RenderEntries(es);
      ScanFrom(ScanState(d, "", false, false), Join(ps, ",")) == ScanState(d + ps[..|ps| - 1], ps[|ps| - 1], false, false)
    decreases |es|
  {
    var ps := RenderEntries(es);
    if |es| == 1 {
      ScanRendered(d, es[0]);
      assert d + ps[..0] == d;
    } else {
      var rest := RenderEntries(es[1..]);
      var d' := d + [ps[0]];
      calc {
        ScanFrom(ScanState(d, "", false, false), Join(ps, ","));
      == { ScanJoinedStep(d, es); }
        ScanFrom(ScanState(d', "", false, false), Join(rest, ","));
      == { ScanJoined(d', es[1..]); }
        ScanState(d' + rest[..|rest| - 1], rest[|rest| - 1], false, false);
      == { LastApart(d, ps, rest); }
        ScanState(d + ps[..|ps| - 1], ps[|ps| - 1], false, false);
      }
    }
  }

  /** The first entry of a written list and its comma pass the loop as one finished piece. */
  lemma ScanJoinedStep(d: seq<string>, es: seq<Entry>)
    requires |es| >= 2 && Writable(es[0])
    ensures var ps := RenderEntries(es);
      ScanFrom(ScanState(d, "", false, false), Join(ps, ","))
      == ScanFrom(ScanState(d + [ps[0]], "", false, false), Join(RenderEntries(es[1..]), ","))
  {
    var ps := RenderEntries(es);
    var rest := RenderEntries(es[1..]);
    assert ps == [ps[0]] + rest;
    assert Join(ps, ",") == ps[0] + "," + Join(rest, ",");
    ScanFromAppend(ScanState(d, "", false, false), ps[0] + ",", Join(rest, ","));
    ScanEntryComma(d, es[0]);
  }

  lemma LastApart(d: seq<string>, ps: seq<string>, rest: seq<string>)
    requires |ps| >= 2 && rest == ps[1..]
    ensures d + [ps[0]] + rest[..|rest| - 1] == d + ps[..|ps| - 1]
    ensures rest[|rest| - 1] == ps[|ps| - 1]
  {
    assert ps[..|ps| - 1] == [ps[0]] + rest[..|rest| - 1];
  }

  /** Splitting a written list of entries gives back the written entries. */
  lemma SplitRendered(es: seq<Entry>)
    requires es != [] && forall i :: 0 <= i < |es| ==> Writable(es[i])
    ensures SplitByCommas(Join(RenderEntries(es), ",")) == Some(RenderEntries(es))
  {
    var ps := RenderEntries(es);
    var j := Join(ps, ",");
    calc {
      SplitByCommas(j);
    == { ScanIsScanFrom(j); ScanJoined([], es); SplitOfScan(j, ps[..|ps| - 1], ps[|ps| - 1]); }
      Some(ps[..|ps| - 1] + [ps[|ps| - 1]]);
    == { InitLast(ps); }
      Some(ps);
    }
  }

  lemma InitLast(ps: seq<string>)
    requires ps != []
    ensures ps[..|ps| - 1] + [ps[|ps| - 1]] == ps
  {
  }

  lemma SplitOfScan(s: string, d: seq<string>, b: string)
    requires Scan(s) == ScanState([] + d, b, false, false)
    ensures SplitByCommas(s) == Some(d + [b])
  {
    assert [] + d == d;
  }

  lemma MatchWrittenName(name: string)
    requires IsName(name)
    ensures MatchParam(name) == Some(ParamMatch(name, None, None))
  {
    MatchRendered(0, name, 0, 0, NoValue, 0);
    assert RenderParam(0, name, 0, 0, NoValue, 0) == name;
  }

  lemma MatchWrittenValue(name: string, v: string)
    requires IsName(name)
    ensures MatchParam(name + "=" + "\"" + Escape(v) + "\"") == Some(ParamMatch(name, Some(Escape(v)), None))
  {
    var p := RenderParam(0, name, 0, 0, Quoted(Escape(v)), 0);
    assert p == name + "=" + "\"" + Escape(v) + "\"" by {
      assert Spaces(0) == "";
    }
    EscapeIsQuotedBody(v);
    MatchRendered(0, name, 0, 0, Quoted(Escape(v)), 0);
  }

  /** A written entry matches `R_PARAM` and gives back the entry. */
  lemma MatchRenderedEntry(e: Entry)
    requires Writable(e)
    ensures PieceEntry(RenderEntry(e)) == Some(e)
  {
    match e.value
    case None =>
      MatchWrittenName(e.name);
    case Some(v) =>
      PieceEntryWrittenValue(e.name, v);
  }

  /** `name="v"`, with `v` escaped, stands for `name` with the value `v`. */
  lemma PieceEntryWrittenValue(name: string, v: string)
    requires IsName(name) && v != ""
    ensures PieceEntry(name + "=" + "\"" + Escape(v) + "\"") == Some(Entry(name, Some(v)))
  {
    MatchWrittenValue(name, v);
    assert Escape(v) != [];
    UnescapeEscape(v);
  }

  lemma JoinHead(ps: seq<string>, sep: string)
    requires ps != [] && ps[0] != []
    ensures Join(ps, sep) != [] && Join(ps, sep)[0] == ps[0][0]
  {
  }

  /** The parameter round trip: a list of entries written out and parsed gives the dictionary those
      entries denote. */
  lemma ParamsOfRendered(es: seq<Entry>)
    requires forall i :: 0 <= i < |es| ==> Writable(es[i])
    ensures ParamsOf(Join(RenderEntries(es), ",")) == Some(Build(es))
  {
    var ps := RenderEntries(es);
    if es == [] {
      assert Build(es) == EmptyDict;
    } else {
      RenderedNotEmpty(es);
      SplitRendered(es);
      RenderedEntries(es);
      ParamsOfParts(Join(ps, ","), ps, es);
    }
  }

  lemma RenderedNotEmpty(es: seq<Entry>)
    requires es != [] && Writable(es[0])
    ensures !IsEmpty(Join(RenderEntries(es), ","))
  {
    var ps := RenderEntries(es);
    var text := Join(ps, ",");
    JoinHead(ps, ",");
    assert IsLetter(text[0]);
  }

  /** Every written entry reads back as itself. */
  lemma RenderedEntries(es: seq<Entry>)
    requires forall i :: 0 <= i < |es| ==> Writable(es[i])
    ensures AllEntries(RenderEntries(es)) == Some(es)
  {
    var ps := RenderEntries(es);
    RenderEntriesAt(es);
    forall i | 0 <= i < |es| ensures PieceEntry(ps[i]) == Some(es[i]) {
      MatchRenderedEntry(es[i]);
    }
    AllEntriesSome(ps, es);
  }

  lemma ParamsOfParts(text: string, ps: seq<string>, es: seq<Entry>)
    requires !IsEmpty(text) && SplitByCommas(text) == Some(ps) && AllEntries(ps) == Some(es)
    ensures ParamsOf(text) == Some(Build(es))
  {
  }

  /** A quoted empty value is stored as `undefined`, like a bare name. */
  lemma QuotedEmptyIsUndefined(name: string)
    requires IsName(name)
    ensures PieceEntry(name + "=\"\"") == Some(Entry(name, None))
  {
    MatchRendered(0, name, 0, 0, Quoted(""), 0);
    assert RenderParam(0, name, 0, 0, Quoted(""), 0) == name + "=\"\"";
  }

  /** The value `parseParams` stores for an entry written in form `form`: `undefined` for a bare
      name and for `""`, and otherwise the written value, quoted or not, with its escapes removed. */
  function StoredValue(form: ValueForm): Option<string> {
    match form
    case NoValue => None
    case Quoted(body) => if body == "" then None else Some(Unescape(body))
    case Bare(text) => Some(Unescape(text))
  }

  /** Every written entry, in every form and with any spacing, stands for its name and the value
      its form stores. */
  lemma PieceEntryRendered(lead: nat, name: string, before: nat, after: nat, form: ValueForm, trail: nat)
    requires IsName(name)
    requires form.Quoted? ==> IsQuotedBody(form.body)
    requires form.Bare? ==> IsBareValue(form.text)
    ensures PieceEntry(RenderParam(lead, name, before, after, form, trail)) == Some(Entry(name, StoredValue(form)))
  {
    MatchRendered(lead, name, before, after, form, trail);
  }

  /** Every piece that stands for an entry is written in some form, with some spacing, that
      stores the entry's value. */
  lemma PieceEntrySound(p: string)
    requires PieceEntry(p).Some?
    ensures exists lead: nat, before: nat, after: nat, form: ValueForm, trail: nat ::
      p == RenderParam(lead, PieceEntry(p).value.name, before, after, form, trail)
      && PieceEntry(p).value.value == StoredValue(form)
  {
    var m := MatchParam(p).value;
    MatchParamSound(p);
    var lead: nat, before: nat, after: nat, trail: nat :| p == RenderParam(lead, m.name, before, after, FormOf(m), trail);
    assert PieceEntry(p).value.value == StoredValue(FormOf(m));
  }

  // ---------------------------------------------------------------------------------------------
  // Worked examples from the parser's own test fixtures

  lemma ScanSnoc(s: string, c: char)
    ensures Scan(s + [c]) == ScanChar(Scan(s), c)
  {
    assert (s + [c])[..|s|] == s;
  }

  /** Splitting: a quoted comma does not split. */
  lemma SplitQuotedComma()
    ensures SplitByCommas("a,\"b,c\"") == Some(["a", "\"b,c\""])
  {
    var s0: string := [];
    var s1 := s0 + ['a'];
    var s2 := s1 + [','];
    var s3 := s2 + ['\"'];
    var s4 := s3 + ['b'];
    var s5 := s4 + [','];
    var s6 := s5 + ['c'];
    var s7 := s6 + ['\"'];
    ScanSnoc(s0, 'a');
    ScanSnoc(s1, ',');
    ScanSnoc(s2, '\"');
    ScanSnoc(s3, 'b');
    ScanSnoc(s4, ',');
    ScanSnoc(s5, 'c');
    ScanSnoc(s6, '\"');
    assert s7 == "a,\"b,c\"";
    assert Scan(s7) == ScanState(["a"], "\"b,c\"", false, false);
    assert ["a"] + ["\"b,c\""] == ["a", "\"b,c\""];
  }

  /** Splitting: an escaped comma does not split. */
  lemma SplitEscapedComma()
    ensures SplitByCommas("a\\,b") == Some(["a\\,b"])
  {
    var s0: string := [];
    var s1 := s0 + ['a'];
    var s2 := s1 + ['\\'];
    var s3 := s2 + [','];
    var s4 := s3 + ['b'];
    ScanSnoc(s0, 'a');
    ScanSnoc(s1, '\\');
    ScanSnoc(s2, ',');
    ScanSnoc(s3, 'b');
    assert s4 == "a\\,b";
    assert Scan(s4) == ScanState([], "a\\,b", false, false);
    assert [] + ["a\\,b"] == ["a\\,b"];
  }

  /** Splitting: an escaped backslash does not escape the comma after it. */
  lemma SplitEscapedBackslash()
    ensures SplitByCommas("a\\\\,b") == Some(["a\\\\", "b"])
  {
    var s0: string := [];
    var s1 := s0 + ['a'];
    var s2 := s1 + ['\\'];
    var s3 := s2 + ['\\'];
    var s4 := s3 + [','];
    var s5 := s4 + ['b'];
    ScanSnoc(s0, 'a');
    ScanSnoc(s1, '\\');
    ScanSnoc(s2, '\\');
    ScanSnoc(s3, ',');
    ScanSnoc(s4, 'b');
    assert s5 == "a\\\\,b";
    assert Scan(s3).buf == "a\\\\";
    assert Scan(s5) == ScanState(["a\\\\"], "b", false, false);
    assert ["a\\\\"] + ["b"] == ["a\\\\", "b"];
  }

  /** Splitting: an unclosed quote fails. */
  lemma SplitUnclosedQuote()
    ensures SplitByCommas("a,\"asd") == None
  {
    var s0: string := [];
    var s1 := s0 + ['a'];
    var s2 := s1 + [','];
    var s3 := s2 + ['\"'];
    var s4 := s3 + ['a'];
    var s5 := s4 + ['s'];
    var s6 := s5 + ['d'];
    ScanSnoc(s0, 'a');
    ScanSnoc(s1, ',');
    ScanSnoc(s2, '\"');
    ScanSnoc(s3, 'a');
    ScanSnoc(s4, 's');
    ScanSnoc(s5, 'd');
    assert s6 == "a,\"asd";
  }

  /** Splitting: a trailing lone backslash fails. */
  lemma SplitTrailingBackslash()
    ensures SplitByCommas("a\\") == None
  {
    var s0: string := [];
    var s1 := s0 + ['a'];
    var s2 := s1 + ['\\'];
    ScanSnoc(s0, 'a');
    ScanSnoc(s1, '\\');
    assert s2 == "a\\";
  }

  /** A text without backslashes, quotes or commas is scanned into the current piece. */
  lemma {:induction false} ScanPlainText(s: string)
    requires forall i :: 0 <= i < |s| ==> IsPlain(s[i])
    ensures Scan(s) == ScanState([], s, false, false)
  {
    if s != [] {
      ScanPlainText(s[..|s| - 1]);
      assert s[..|s| - 1] + [s[|s| - 1]] == s;
    }
  }

  /** A text without backslashes, quotes or commas is one piece. */
  lemma SplitPlain(s: string)
    requires forall i :: 0 <= i < |s| ==> IsPlain(s[i])
    ensures SplitByCommas(s) == Some([s])
  {
    ScanPlainText(s);
    assert [] + [s] == [s];
  }

  /** A piece whose first character other than a space is not a letter, or that holds nothing
      but spaces, has no name, so it is refused. */
  lemma MatchParamNoName(p: string, j: nat)
    requires j <= |p| && forall k :: 0 <= k < j ==> p[k] == ' '
    requires j == |p| || (p[j] != ' ' && !IsLetter(p[j]))
    ensures MatchParam(p) == None
  {
    SkipSpacesAt(p, 0, j);
  }

  /** `parseParams` returns `null` when the list splits but one of its pieces has no name: one
      that is empty or blank, or whose first character other than a space is not a letter. */
  lemma ParamsBadName(s: string, k: nat, j: nat)
    requires !IsEmpty(s) && SplitByCommas(s).Some? && k < |SplitByCommas(s).value|
    requires var piece := SplitByCommas(s).value[k];
      && j <= |piece| && (forall i :: 0 <= i < j ==> piece[i] == ' ')
      && (j == |piece| || (piece[j] != ' ' && !IsLetter(piece[j])))
    ensures ParamsOf(s) == None
  {
    MatchParamNoName(SplitByCommas(s).value[k], j);
  }

  /** `parseParams` returns `null` exactly when the list is not blank and either does not split
      or has a piece that `R_PARAM` refuses. */
  lemma ParamsNullIff(s: string)
    ensures ParamsOf(s).None? <==>
      && !IsEmpty(s)
      && (|| SplitByCommas(s).None?
          || exists k :: 0 <= k < |SplitByCommas(s).value| && MatchParam(SplitByCommas(s).value[k]).None?)
  {
    if !IsEmpty(s) && SplitByCommas(s).Some? {
      var ps := SplitByCommas(s).value;
      if exists k :: 0 <= k < |ps| && MatchParam(ps[k]).None? {
        var k :| 0 <= k < |ps| && MatchParam(ps[k]).None?;
        assert PieceEntry(ps[k]).None?;
      }
    }
  }

  /** `parseParams("1=5")` is `null`: a name starts with a letter. */
  lemma ParamsDigitName()
    ensures ParamsOf("1=5") == None
  {
    SplitPlain("1=5");
    assert !IsJsSpace("1=5"[0]);
    ParamsBadName("1=5", 0, 0);
  }

  /** A list that splits into itself alone and stands for one entry gives the dictionary of that
      one entry. */
  lemma ParamsOfSingle(s: string, name: string, v: Option<string>)
    requires !IsEmpty(s) && SplitByCommas(s) == Some([s]) && PieceEntry(s) == Some(Entry(name, v))
    ensures ParamsOf(s) == Some(Dict([name], map[name := Scalar(v)]))
  {
    var es := [Entry(name, v)];
    AllEntriesSome([s], es);
    ParamsOfParts(s, [s], es);
    SingleBuild(name, v);
  }

  /** One entry builds one key holding its value. */
  lemma SingleBuild(name: string, v: Option<string>)
    ensures Build([Entry(name, v)]) == Dict([name], map[name := Scalar(v)])
  {
    var es := [Entry(name, v)];
    assert Names(es) == [name];
    assert FirstSeen([name]) == [name] by { assert [name][..0] == []; }
    assert ValuesOf(es, name) == [v] by { assert es[..0] == []; }
    var b := Build(es);
    assert b.values.Keys == {name};
    assert b.values == map[name := Scalar(v)];
  }

  /** A non-blank list that splits into one written entry gives the dictionary of that entry,
      holding the value its form stores. */
  lemma ParamsOfOneRendered(p: string, lead: nat, name: string, before: nat, after: nat,
                            form: ValueForm, trail: nat)
    requires IsName(name)
    requires form.Quoted? ==> IsQuotedBody(form.body)
    requires form.Bare? ==> IsBareValue(form.text)
    requires p == RenderParam(lead, name, before, after, form, trail)
    requires SplitByCommas(p) == Some([p])
    ensures ParamsOf(p) == Some(Dict([name], map[name := Scalar(StoredValue(form))]))
  {
    PieceEntryRendered(lead, name, before, after, form, trail);
    assert p[lead] == name[0];
    assert !IsJsSpace(p[lead]);
    ParamsOfSingle(p, name, StoredValue(form));
  }

  /** An entry written without quotes, whose value holds no backslash or comma, gives the
      dictionary of that one entry. */
  lemma ParamsOfPlainRendered(lead: nat, name: string, before: nat, after: nat, form: ValueForm, trail: nat)
    requires IsName(name) && !form.Quoted?
    requires form.Bare? ==> IsBareValue(form.text) && forall i :: 0 <= i < |form.text| ==> IsPlain(form.text[i])
    ensures ParamsOf(RenderParam(lead, name, before, after, form, trail))
            == Some(Dict([name], map[name := Scalar(StoredValue(form))]))
  {
    var p := RenderParam(lead, name, before, after, form, trail);
    var v := match form case Bare(t) => Spaces(before) + "=" + Spaces(after) + t case _ => "";
    assert p == Spaces(lead) + name + v + Spaces(trail);
    forall i | 0 <= i < |p| ensures IsPlain(p[i]) {
      if i < |Spaces(lead)| + |name| + |v| {
        assert (Spaces(lead) + name + v)[i] == p[i];
      } else {
        assert p[i] == Spaces(trail)[i - |Spaces(lead)| - |name| - |v|];
      }
    }
    SplitPlain(p);
    ParamsOfOneRendered(p, lead, name, before, after, form, trail);
  }

  /** `parseParams("a")` is `{a: undefined}`. */
  lemma ParamsFlagFixture()
    ensures ParamsOf("a") == Some(Dict(["a"], map["a" := Scalar(None)]))
  {
    ParamsOfPlainRendered(0, "a", 0, 0, NoValue, 0);
    assert RenderParam(0, "a", 0, 0, NoValue, 0) == "a";
  }

  /** `parseParams("a=5")` is `{a: '5'}`. */
  lemma ParamsBareFixture()
    ensures ParamsOf("a=5") == Some(Dict(["a"], map["a" := Scalar(Some("5"))]))
  {
    ParamsOfPlainRendered(0, "a", 0, 0, Bare("5"), 0);
    WrittenFive(0);
  }

  /** `parseParams(" a = 5 ")` is `{a: '5'}`: spaces around the name, `=` and the value are
      skipped. */
  lemma ParamsSpacedFixture()
    ensures ParamsOf(" a = 5 ") == Some(Dict(["a"], map["a" := Scalar(Some("5"))]))
  {
    ParamsOfPlainRendered(1, "a", 1, 1, Bare("5"), 1);
    WrittenFive(1);
  }

  /** `a=5` written with `n` spaces around the name, the `=` and the value, and what it stores. */
  lemma WrittenFive(n: nat)
    requires n <= 1
    ensures RenderParam(n, "a", n, n, Bare("5"), n) == if n == 0 then "a=5" else " a = 5 "
    ensures StoredValue(Bare("5")) == Some("5")
  {
    assert Unescape("5") == "5";
    if n == 1 {
      assert Spaces(1) == " ";
    }
  }

  /** Plain text, a quoted escape pair and plain text form one piece: the backslash takes the
      character after it, and the closing quote ends the quotes. */
  lemma SplitEscapedPair(a: string, c: char, t: string)
    requires forall i :: 0 <= i < |a| ==> IsPlain(a[i])
    requires forall i :: 0 <= i < |t| ==> IsPlain(t[i])
    requires IsPlain(c)
    ensures SplitByCommas(a + (['\"', '\\', c, '\"'] + t)) == Some([a + (['\"', '\\', c, '\"'] + t)])
  {
    ScanEscapedPair(a, c, t);
    assert "" + a + ['\"', '\\', c, '\"'] + t == a + (['\"', '\\', c, '\"'] + t);
    assert [] + [a + (['\"', '\\', c, '\"'] + t)] == [a + (['\"', '\\', c, '\"'] + t)];
  }

  /** The scan of that piece keeps all of it in the buffer, outside quotes. */
  lemma ScanEscapedPair(a: string, c: char, t: string)
    requires forall i :: 0 <= i < |a| ==> IsPlain(a[i])
    requires forall i :: 0 <= i < |t| ==> IsPlain(t[i])
    requires IsPlain(c)
    ensures Scan(a + (['\"', '\\', c, '\"'] + t))
            == ScanState([], "" + a + ['\"', '\\', c, '\"'] + t, false, false)
  {
    var q: string := ['\"', '\\', c, '\"'];
    var st0 := ScanState([], "", false, false);
    ScanIsScanFrom(a + (q + t));
    ScanFromAppend(st0, a, q + t);
    ScanPlain([], "", a);
    ScanFromAppend(ScanState([], "" + a, false, false), q, t);
    QuotedPairScan(ScanState([], "" + a, false, false), c);
    ScanPlain([], "" + a + q, t);
  }

  lemma ScanFromSnoc(st: ScanState, x: string, c: char)
    ensures ScanFrom(st, x + [c]) == ScanChar(ScanFrom(st, x), c)
  {
    assert (x + [c])[..|x|] == x;
  }

  /** Scanning `"\c"` outside quotes returns to outside quotes, with the four characters kept. */
  lemma QuotedPairScan(st: ScanState, c: char)
    requires !st.escaped && !st.inQuote && IsPlain(c)
    ensures ScanFrom(st, ['\"', '\\', c, '\"']) == st.(buf := st.buf + ['\"', '\\', c, '\"'])
  {
    var q0: string := [];
    var q1 := q0 + ['\"'];
    var q2 := q1 + ['\\'];
    var q3 := q2 + [c];
    var q4 := q3 + ['\"'];
    ScanFromSnoc(st, q0, '\"');
    ScanFromSnoc(st, q1, '\\');
    ScanFromSnoc(st, q2, c);
    ScanFromSnoc(st, q3, '\"');
    assert ScanFrom(st, q4) == st.(buf := st.buf + ['\"'] + ['\\'] + [c] + ['\"']);
    assert q4 == ['\"', '\\', c, '\"'];
    assert st.buf + ['\"'] + ['\\'] + [c] + ['\"'] == st.buf + q4;
  }

  /** `' a = "\5" '` is one piece: the quote is closed and the backslash escapes only the `5`. */
  lemma SplitQuotedEscape()
    ensures SplitByCommas(" a = \"\\5\" ") == Some([" a = \"\\5\" "])
  {
    var a: string := " a = ";
    var t: string := " ";
    assert forall i :: 0 <= i < |a| ==> IsPlain(a[i]);
    assert forall i :: 0 <= i < |t| ==> IsPlain(t[i]);
    SplitEscapedPair(a, '5', t);
    assert a + (['\"', '\\', '5', '\"'] + t) == " a = \"\\5\" ";
  }

  /** `' a = "\5" '` stands for the entry `a` with the value `5`. */
  lemma QuotedEscapeEntry()
    ensures PieceEntry(" a = \"\\5\" ") == Some(Entry("a", Some("5")))
  {
    WrittenEscapedFive();
    PieceEntryRendered(1, "a", 1, 1, Quoted("\\5"), 1);
  }

  /** `parseParams(' a = "\5" ')` is `{a: '5'}`: a quoted value is unescaped. */
  lemma ParamsQuotedFixture()
    ensures ParamsOf(" a = \"\\5\" ") == Some(Dict(["a"], map["a" := Scalar(Some("5"))]))
  {
    SplitQuotedEscape();
    WrittenEscapedFive();
    ParamsOfOneRendered(" a = \"\\5\" ", 1, "a", 1, 1, Quoted("\\5"), 1);
  }

  /** ` a = "\5" ` is `a` written with a quoted body `\5`, which stores `5`. */
  lemma WrittenEscapedFive()
    ensures RenderParam(1, "a", 1, 1, Quoted("\\5"), 1) == " a = \"\\5\" "
    ensures IsQuotedBody("\\5") && StoredValue(Quoted("\\5")) == Some("5")
  {
    assert Spaces(1) == " ";
    assert Unescape("\\5") == "5";
  }

  /** Scanning a plain piece and then a comma closes the piece. */
  lemma ScanPieceComma(d: seq<string>, x: string, rest: string)
    requires forall i :: 0 <= i < |x| ==> IsPlain(x[i])
    ensures ScanFrom(ScanState(d, "", false, false), x + ([','] + rest))
            == ScanFrom(ScanState(d + [x], "", false, false), rest)
  {
    var st := ScanState(d, "", false, false);
    ScanFromAppend(st, x, [','] + rest);
    ScanPlain(d, "", x);
    assert "" + x == x;
    var st1 := ScanState(d, x, false, false);
    ScanFromAppend(st1, [','], rest);
    ScanOne(st1, ',');
  }

  /** Three pieces without backslashes, quotes or commas, joined by commas, split back into
      those pieces. */
  lemma SplitThreePlain(p1: string, p2: string, p3: string)
    requires forall i :: 0 <= i < |p1| ==> IsPlain(p1[i])
    requires forall i :: 0 <= i < |p2| ==> IsPlain(p2[i])
    requires forall i :: 0 <= i < |p3| ==> IsPlain(p3[i])
    ensures SplitByCommas(p1 + ([','] + (p2 + ([','] + p3)))) == Some([p1, p2, p3])
  {
    ScanThreePlain(p1, p2, p3);
    assert "" + p3 == p3;
    assert [] + [p1] + [p2] + [p3] == [p1, p2, p3];
  }

  /** The scan of three plain pieces joined by commas has closed the first two. */
  lemma ScanThreePlain(p1: string, p2: string, p3: string)
    requires forall i :: 0 <= i < |p1| ==> IsPlain(p1[i])
    requires forall i :: 0 <= i < |p2| ==> IsPlain(p2[i])
    requires forall i :: 0 <= i < |p3| ==> IsPlain(p3[i])
    ensures Scan(p1 + ([','] + (p2 + ([','] + p3)))) == ScanState([] + [p1] + [p2], "" + p3, false, false)
  {
    ScanIsScanFrom(p1 + ([','] + (p2 + ([','] + p3))));
    ScanPieceComma([], p1, p2 + ([','] + p3));
    ScanPieceComma([] + [p1], p2, p3);
    ScanPlain([] + [p1] + [p2], "", p3);
  }

  /** `"a=5 , a=6, a=7"` splits into its three pieces, spaces kept. */
  lemma SplitRepeated()
    ensures SplitByCommas("a=5 , a=6, a=7") == Some(["a=5 ", " a=6", " a=7"])
  {
    var p1, p2, p3 := "a=5 ", " a=6", " a=7";
    assert forall i :: 0 <= i < |p1| ==> IsPlain(p1[i]);
    assert forall i :: 0 <= i < |p2| ==> IsPlain(p2[i]);
    assert forall i :: 0 <= i < |p3| ==> IsPlain(p3[i]);
    SplitThreePlain(p1, p2, p3);
    assert p1 + ([','] + (p2 + ([','] + p3))) == "a=5 , a=6, a=7";
  }

  /** The three pieces of `"a=5 , a=6, a=7"` stand for the entries `a=5`, `a=6` and `a=7`. */
  lemma RepeatedEntries()
    ensures PieceEntry("a=5 ") == Some(Entry("a", Some("5")))
    ensures PieceEntry(" a=6") == Some(Entry("a", Some("6")))
    ensures PieceEntry(" a=7") == Some(Entry("a", Some("7")))
  {
    assert Spaces(1) == " ";
    assert Unescape("5") == "5" && Unescape("6") == "6" && Unescape("7") == "7";
    assert RenderParam(0, "a", 0, 0, Bare("5"), 1) == "a=5 ";
    assert RenderParam(1, "a", 0, 0, Bare("6"), 0) == " a=6";
    assert RenderParam(1, "a", 0, 0, Bare("7"), 0) == " a=7";
    PieceEntryRendered(0, "a", 0, 0, Bare("5"), 1);
    PieceEntryRendered(1, "a", 0, 0, Bare("6"), 0);
    PieceEntryRendered(1, "a", 0, 0, Bare("7"), 0);
  }

  /** `parseParams("a=5 , a=6, a=7")` is `{a: ['5', '6', '7']}`: a repeated name collects its
      values in order. */
  lemma ParamsRepeatedFixture()
    ensures ParamsOf("a=5 , a=6, a=7") == Some(Dict(["a"], map["a" := Multi([Some("5"), Some("6"), Some("7")])]))
  {
    var es := [Entry("a", Some("5")), Entry("a", Some("6")), Entry("a", Some("7"))];
    RepeatedParts(es);
    RepeatedBuild(es);
  }

  /** `"a=5 , a=6, a=7"` gives the dictionary of its three entries. */
  lemma RepeatedParts(es: seq<Entry>)
    requires es == [Entry("a", Some("5")), Entry("a", Some("6")), Entry("a", Some("7"))]
    ensures ParamsOf("a=5 , a=6, a=7") == Some(Build(es))
  {
    var ps := ["a=5 ", " a=6", " a=7"];
    SplitRepeated();
    RepeatedAll(ps, es);
    assert !IsJsSpace("a=5 , a=6, a=7"[0]);
    ParamsOfParts("a=5 , a=6, a=7", ps, es);
  }

  /** The three pieces of `"a=5 , a=6, a=7"` all match, with those three entries. */
  lemma RepeatedAll(ps: seq<string>, es: seq<Entry>)
    requires ps == ["a=5 ", " a=6", " a=7"]
    requires es == [Entry("a", Some("5")), Entry("a", Some("6")), Entry("a", Some("7"))]
    ensures AllEntries(ps) == Some(es)
  {
    RepeatedEntries();
    forall j | 0 <= j < |ps| ensures PieceEntry(ps[j]) == Some(es[j]) {
      if j == 0 {
      } else if j == 1 {
      } else {
        assert j == 2;
      }
    }
    AllEntriesSome(ps, es);
  }

  /** Three entries under the same name build one key holding the three values in order. */
  lemma RepeatedBuild(es: seq<Entry>)
    requires es == [Entry("a", Some("5")), Entry("a", Some("6")), Entry("a", Some("7"))]
    ensures Build(es) == Dict(["a"], map["a" := Multi([Some("5"), Some("6"), Some("7")])])
  {
    ThreeBuild("a", Some("5"), Some("6"), Some("7"));
  }

  /** A name given three times is one key holding its three values in order. */
  lemma ThreeBuild(n: string, v1: Option<string>, v2: Option<string>, v3: Option<string>)
    ensures Build([Entry(n, v1), Entry(n, v2), Entry(n, v3)]) == Dict([n], map[n := Multi([v1, v2, v3])])
  {
    var e1, e2, e3 := Entry(n, v1), Entry(n, v2), Entry(n, v3);
    SingleBuild(n, v1);
    BuildSnoc([e1], e2);
    assert [e1] + [e2] == [e1, e2];
    assert Build([e1, e2]) == Dict([n], map[n := Multi([v1, v2])]);
    BuildSnoc([e1, e2], e3);
    assert [e1, e2] + [e3] == [e1, e2, e3];
    assert [v1, v2] + [v3] == [v1, v2, v3];
  }

  /** `parseParams("a=5 5")` is `null`: an unquoted value holds no space. */
  lemma ParamsSpaceInValue()
    ensures MatchParam("a=5 5") == None
    ensures ParamsOf("a=5 5") == None
  {
    var p := "a=5 5";
    SplitPlain(p);
    assert !IsJsSpace(p[0]);
    assert SkipSpaces(p, 0) == 0 && SkipWord(p, 1) == 1;
    assert SkipSpaces(p, 1) == 1 && SkipSpaces(p, 2) == 2;
    assert SkipBare(p, 2) == 3 && SkipSpaces(p, 3) == 4;
    ParamsBadPiece(p, 0);
  }

  /** `parseParams("a=5,")` is `null`: the trailing comma leaves an empty piece. */
  lemma ParamsTrailingComma()
    ensures SplitByCommas("a=5,") == Some(["a=5", ""])
    ensures ParamsOf("a=5,") == None
  {
    ScanPlainText("a=5");
    ScanSnoc("a=5", ',');
    assert "a=5" + [','] == "a=5,";
    assert Scan("a=5,") == ScanState(["a=5"], "", false, false);
    assert ["a=5"] + [""] == ["a=5", ""];
    assert !IsJsSpace("a=5,"[0]);
    ParamsBadName("a=5,", 1, 0);
  }

  /** A piece `R_PARAM` refuses makes the whole list `null`. */
  lemma ParamsBadPiece(s: string, k: nat)
    requires !IsEmpty(s) && SplitByCommas(s).Some? && k < |SplitByCommas(s).value|
    requires MatchParam(SplitByCommas(s).value[k]) == None
    ensures ParamsOf(s) == None
  {
    ParamsNullIff(s);
  }
}
