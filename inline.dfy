/**
 * `markOut`: the inline-macro scanner of core/parser.js. Every match of
 * `R_INLINE_MACRO` = /{{([\w-]+) *\(([^()]*)\)(?: *:([^{}]*))?}}/g, found left to right without
 * overlap, whose parameters parse is replaced by a fresh placeholder and recorded in the inline
 * table; a match whose parameters do not parse stays in the text as it is.
 *
 * The placeholders come from `_genPlaceholder` (a call of `uniqueId`); here they are the decimal
 * forms of a counter that the caller threads through (`ids` in, `next` out).
 */
module InlineScanner {
  import opened Wrappers
  import opened Strings
  import opened Ast
  import opened ParamParser

  /** `[\w-]`. */
  predicate IsNameChar(c: char) {
    IsWordChar(c) || c == '-'
  }

  /** `[^()]`. */
  predicate IsArgChar(c: char) {
    c != '(' && c != ')'
  }

  /** `[^{}]`. */
  predicate IsContentChar(c: char) {
    c != '{' && c != '}'
  }

  /** The end of the longest run of characters satisfying `p` that starts at `i`. */
  function SkipWhile(s: string, i: nat, p: char -> bool): (j: nat)
    requires i <= |s|
    ensures i <= j <= |s|
    ensures j < |s| ==> !p(s[j])
    decreases |s| - i
  {
    if i < |s| && p(s[i]) then SkipWhile(s, i + 1, p) else i
  }

  /** Every character of the run satisfies `p`. */
  lemma {:induction false} SkipWhileRun(s: string, i: nat, p: char -> bool)
    requires i <= |s|
    ensures forall k :: i <= k < SkipWhile(s, i, p) ==> p(s[k])
    decreases |s| - i
  {
    if i < |s| && p(s[i]) {
      SkipWhileRun(s, i + 1, p);
    }
  }

  /** A maximal run is determined by where it stops. */
  lemma {:induction false} SkipWhileAt(s: string, i: nat, p: char -> bool, j: nat)
    requires i <= j <= |s|
    requires forall k :: i <= k < j ==> p(s[k])
    requires j == |s| || !p(s[j])
    ensures SkipWhile(s, i, p) == j
    decreases j - i
  {
    if i < j {
      SkipWhileAt(s, i + 1, p, j);
    }
  }

  /** The groups of one `R_INLINE_MACRO` match: where it ends, the name (group 1), the raw
      parameter text (group 2) and the content after the colon (group 3, `None` when the
      `:content` part is absent). */
  datatype InlineMatch = InlineMatch(end: nat, name: string, params: string, content: Option<string>)

  /** The `R_INLINE_MACRO` match that starts at index `i`, if any. */
  function MatchInlineAt(s: string, i: nat): (r: Option<InlineMatch>)
    ensures r.Some? ==> i + 7 <= r.value.end <= |s|
  {
    match MatchInlineHead(s, i)
    case None => None
    case Some(h) =>
      match MatchInlineTail(s, h.after)
      case None => None
      case Some(t) => Some(InlineMatch(t.end, h.name, h.params, t.content))
  }

  /** Groups 1 and 2 of a match and the index just after the `)` that ends them. */
  datatype HeadMatch = HeadMatch(name: string, params: string, after: nat)

  /** The head `{{([\w-]+) *\(([^()]*)\)` of a match starting at index `i`, if any. */
  function MatchInlineHead(s: string, i: nat): (r: Option<HeadMatch>)
    ensures r.Some? ==> i + 5 <= r.value.after <= |s|
  {
    if i + 2 > |s| || s[i] != '{' || s[i + 1] != '{' then None
    else
      var a := SkipWhile(s, i + 2, IsNameChar);
      var b := SkipSpaces(s, a);
      if a == i + 2 || b == |s| || s[b] != '(' then None
      else
        var c := SkipWhile(s, b + 1, IsArgChar);
        if c == |s| || s[c] != ')' then None
        else Some(HeadMatch(s[i + 2..a], s[b + 1..c], c + 1))
  }

  /** Where a match ends and its group 3, once `name(params)` has been read. */
  datatype TailMatch = TailMatch(end: nat, content: Option<string>)

  /** The rest of a match once `name(params)` has been read up to index `k`: the optional group
      ` *:([^{}]*)` is tried first, then the closing `}}` without it. */
  function MatchInlineTail(s: string, k: nat): (r: Option<TailMatch>)
    requires k <= |s|
    ensures r.Some? ==> k + 2 <= r.value.end <= |s|
  {
    var a := SkipSpaces(s, k);
    var c := if a < |s| && s[a] == ':' then SkipWhile(s, a + 1, IsContentChar) else a;
    if a < |s| && s[a] == ':' && c + 2 <= |s| && s[c] == '}' && s[c + 1] == '}' then
      Some(TailMatch(c + 2, Some(s[a + 1..c])))
    else if k + 2 <= |s| && s[k] == '}' && s[k + 1] == '}' then
      Some(TailMatch(k + 2, None))
    else None
  }

  // ---------------------------------------------------------------------------------------------
  // The scan as a sequence of segments

  /** The inline-call recogniser `markOut` runs at each position, `R_INLINE` anchored there, as a
      function value. */
  const MatchFn: (string, nat) -> Option<InlineMatch> := MatchInlineAt

  /** The parameter parser `markOut` calls on each match, `parseParams`, as a function value. */
  const ParseFn: string -> Option<Dict> := ParamsOf

  /** A piece of the scanned text: text kept as it is, or an accepted match and its placeholder. */
  datatype Segment = Text(text: string) | Hole(placed: Placed)

  /** One step of the scan at index `i < |s|`, with `ids` the next fresh id: the segment found
      there, where the scan goes on, and the next fresh id. A character where no match starts is
      kept; a match whose parameters fail is kept whole; an accepted match becomes a hole holding
      an inline-table entry of type 'macro' under the placeholder `Decimal(ids)`. */
  function NextSegment(s: string, i: nat, ids: nat): (r: (Segment, nat, nat))
    requires i < |s|
    ensures i < r.1 <= |s|
  {
    assert MatchFn(s, i) == MatchInlineAt(s, i);
    match MatchFn(s, i)
    case None => (Text([s[i]]), i + 1, ids)
    case Some(m) =>
      match ParseFn(m.params)
      case None => (Text(s[i..m.end]), m.end, ids)
      case Some(d) =>
        var node := Macro(s[i..m.end], m.name, d, Content(m.content.GetOr("")));
        (Hole(Placed(Decimal(ids), node)), m.end, ids + 1)
  }

  /** The scan of `s` from index `i`, with `ids` the next fresh id. */
  function SegmentsFrom(s: string, i: nat, ids: nat): (r: seq<Segment>)
    requires i <= |s|
    ensures |r| <= |s| - i
    decreases |s| - i
  {
    if i == |s| then []
    else
      var (seg, j, ids') := NextSegment(s, i, ids);
      [seg] + SegmentsFrom(s, j, ids')
  }

  /** The text `markOut` returns as `content`: kept text, and each hole's placeholder. */
  function ContentOf(segs: seq<Segment>): string {
    if segs == [] then ""
    else (match segs[0] case Text(t) => t case Hole(p) => p.key) + ContentOf(segs[1..])
  }

  /** The text the segments were cut from: kept text, and each hole's matched text. */
  function SourceOf(segs: seq<Segment>): string {
    if segs == [] then ""
    else (match segs[0] case Text(t) => t case Hole(p) => p.node.source) + SourceOf(segs[1..])
  }

  /** The inline table: the holes' entries in the order they were found. */
  function TableOf(segs: seq<Segment>): seq<Placed> {
    if segs == [] then []
    else (match segs[0] case Text(_) => [] case Hole(p) => [p]) + TableOf(segs[1..])
  }

  /** The table's keys, in order. */
  function Keys(table: seq<Placed>): (ks: seq<string>)
    ensures |ks| == |table| && forall k :: 0 <= k < |table| ==> ks[k] == table[k].key
  {
    seq(|table|, k requires 0 <= k < |table| => table[k].key)
  }

  /** What one segment contributes to the content. */
  function ContentPiece(seg: Segment): string {
    match seg
    case Text(t) => t
    case Hole(p) => p.key
  }

  /** What one segment contributes to the scanned text. */
  function SourcePiece(seg: Segment): string {
    match seg
    case Text(t) => t
    case Hole(p) => p.node.source
  }

  /** What one segment contributes to the inline table. */
  function TablePiece(seg: Segment): seq<Placed> {
    match seg
    case Text(_) => []
    case Hole(p) => [p]
  }

  lemma SegmentsCons(seg: Segment, rest: seq<Segment>)
    ensures ContentOf([seg] + rest) == ContentPiece(seg) + ContentOf(rest)
    ensures SourceOf([seg] + rest) == SourcePiece(seg) + SourceOf(rest)
    ensures TableOf([seg] + rest) == TablePiece(seg) + TableOf(rest)
  {
    assert ([seg] + rest)[1..] == rest;
  }

  lemma ScanStep(s: string, i: nat, ids: nat)
    requires i < |s|
    ensures var r := NextSegment(s, i, ids);
      && ContentOf(SegmentsFrom(s, i, ids)) == ContentPiece(r.0) + ContentOf(SegmentsFrom(s, r.1, r.2))
      && TableOf(SegmentsFrom(s, i, ids)) == TablePiece(r.0) + TableOf(SegmentsFrom(s, r.1, r.2))
      && SourceOf(SegmentsFrom(s, i, ids)) == SourcePiece(r.0) + SourceOf(SegmentsFrom(s, r.1, r.2))
  {
    var r := NextSegment(s, i, ids);
    SegmentsCons(r.0, SegmentsFrom(s, r.1, r.2));
  }

  /** The scan step where no match starts: the character is kept. */
  lemma StepKeep(s: string, i: nat, ids: nat)
    requires i < |s| && MatchInlineAt(s, i).None?
    ensures ContentOf(SegmentsFrom(s, i, ids)) == [s[i]] + ContentOf(SegmentsFrom(s, i + 1, ids))
    ensures TableOf(SegmentsFrom(s, i, ids)) == TableOf(SegmentsFrom(s, i + 1, ids))
    ensures SourceOf(SegmentsFrom(s, i, ids)) == [s[i]] + SourceOf(SegmentsFrom(s, i + 1, ids))
  {
    ScanStep(s, i, ids);
  }

  /** The scan step at a match whose parameters fail: the matched text is kept. */
  lemma StepRejected(s: string, i: nat, ids: nat)
    requires i < |s| && MatchInlineAt(s, i).Some? && ParamsOf(MatchInlineAt(s, i).value.params).None?
    ensures var e := MatchInlineAt(s, i).value.end;
      && ContentOf(SegmentsFrom(s, i, ids)) == s[i..e] + ContentOf(SegmentsFrom(s, e, ids))
      && TableOf(SegmentsFrom(s, i, ids)) == TableOf(SegmentsFrom(s, e, ids))
      && SourceOf(SegmentsFrom(s, i, ids)) == s[i..e] + SourceOf(SegmentsFrom(s, e, ids))
  {
    ScanStep(s, i, ids);
  }

  /** The scan step at an accepted match: the placeholder replaces it and the entry is recorded. */
  lemma StepAccepted(s: string, i: nat, ids: nat)
    requires i < |s| && MatchInlineAt(s, i).Some? && ParamsOf(MatchInlineAt(s, i).value.params).Some?
    ensures var m := MatchInlineAt(s, i).value;
      var node := Macro(s[i..m.end], m.name, ParamsOf(m.params).value, Content(m.content.GetOr("")));
      && ContentOf(SegmentsFrom(s, i, ids)) == Decimal(ids) + ContentOf(SegmentsFrom(s, m.end, ids + 1))
      && TableOf(SegmentsFrom(s, i, ids)) == [Placed(Decimal(ids), node)] + TableOf(SegmentsFrom(s, m.end, ids + 1))
      && SourceOf(SegmentsFrom(s, i, ids)) == s[i..m.end] + SourceOf(SegmentsFrom(s, m.end, ids + 1))
  {
    ScanStep(s, i, ids);
  }

  lemma SliceSplit<T>(s: seq<T>, i: nat, j: nat)
    requires i <= j <= |s|
    ensures s[i..] == s[i..j] + s[j..]
  {
  }


  /** `replacer`, the callback `markOut` gives `replace` for the match `m` at index `i`: the
      text that takes the match's place, the entry it records (none or one), and the next fresh
      id. */
  method Replacer(s: string, i: nat, m: InlineMatch, next: nat) returns (text: string, entry: seq<Placed>, after: nat)
    requires i < |s| && MatchInlineAt(s, i) == Some(m)
    ensures var r := NextSegment(s, i, next);
      text == ContentPiece(r.0) && entry == TablePiece(r.0) && after == r.2
  {
    var params := ParseParams(m.params);
    if params.None? {
      return s[i..m.end], [], next;
    }
    var holder := Decimal(next);
    var node := Macro(s[i..m.end], m.name, params.value, Content(m.content.GetOr("")));
    return holder, [Placed(holder, node)], next + 1;
  }

  /** `markOut(s)` with fresh ids starting at `ids`: the content with the placeholders in it, the
      inline table, and the next fresh id. */
  method MarkOut(s: string, ids: nat) returns (content: string, inline: seq<Placed>, next: nat)
    ensures content == ContentOf(SegmentsFrom(s, 0, ids))
    ensures inline == TableOf(SegmentsFrom(s, 0, ids))
    ensures next == ids + |inline|
  {
    content := "";
    inline := [];
    next := ids;
    var i := 0;
    while i < |s|
      invariant i <= |s|
      invariant ContentOf(SegmentsFrom(s, 0, ids)) == content + ContentOf(SegmentsFrom(s, i, next))
      invariant TableOf(SegmentsFrom(s, 0, ids)) == inline + TableOf(SegmentsFrom(s, i, next))
      invariant next == ids + |inline|
      decreases |s| - i
    {
      var r := NextSegment(s, i, next);
      ScanStep(s, i, next);
      NextSegmentKey(s, i, next);
      var m := MatchInlineAt(s, i);
      var text, entry, after;
      var j: nat;
      if m.None? {
        text, entry, after, j := [s[i]], [], next, i + 1;
      } else {
        text, entry, after := Replacer(s, i, m.value, next);
        j := m.value.end;
      }
      assert text == ContentPiece(r.0) && entry == TablePiece(r.0) && j == r.1 && after == r.2;
      MoveOver(ContentOf(SegmentsFrom(s, 0, ids)), content, text, ContentOf(SegmentsFrom(s, j, after)));
      MoveOver(TableOf(SegmentsFrom(s, 0, ids)), inline, entry, TableOf(SegmentsFrom(s, j, after)));
      content, inline, next, i := content + text, inline + entry, after, j;
    }
  }

  /** The loop's bookkeeping: a piece moves from the part still to scan to the part done. */
  lemma MoveOver<T>(whole: seq<T>, done: seq<T>, piece: seq<T>, rest: seq<T>)
    requires whole == done + (piece + rest)
    ensures whole == (done + piece) + rest
  {
  }

  // ---------------------------------------------------------------------------------------------
  // Properties of the scan

  /** One step cuts the text between where it starts and where the scan goes on. */
  lemma NextSegmentSource(s: string, i: nat, ids: nat)
    requires i < |s|
    ensures var r := NextSegment(s, i, ids); SourcePiece(r.0) == s[i..r.1]
  {
  }

  lemma SourceStep(s: string, i: nat, ids: nat)
    requires i < |s|
    ensures var r := NextSegment(s, i, ids);
      SourceOf(SegmentsFrom(s, i, ids)) == SourcePiece(r.0) + SourceOf(SegmentsFrom(s, r.1, r.2))
  {
    var r := NextSegment(s, i, ids);
    SegmentsCons(r.0, SegmentsFrom(s, r.1, r.2));
  }

  /** `markOut` keeps `source` as given, and the segments tile it: putting each hole's matched
      text back gives the scanned text. */
  lemma {:induction false} SourceRestored(s: string, i: nat, ids: nat)
    requires i <= |s|
    ensures SourceOf(SegmentsFrom(s, i, ids)) == s[i..]
    decreases |s| - i
  {
    if i < |s| {
      var r := NextSegment(s, i, ids);
      NextSegmentSource(s, i, ids);
      SourceStep(s, i, ids);
      SourceRestored(s, r.1, r.2);
      SliceSplit(s, i, r.1);
    }
  }

  /** The `n` placeholders drawn from the counter starting at `ids`. */
  function FreshKeys(ids: nat, n: nat): (ks: seq<string>)
    ensures |ks| == n
    decreases n
  {
    if n == 0 then [] else [Decimal(ids)] + FreshKeys(ids + 1, n - 1)
  }

  /** The `k`-th fresh key is the decimal form of `ids + k`. */
  lemma {:induction false} FreshKeysAt(ids: nat, n: nat, k: nat)
    requires k < n
    ensures FreshKeys(ids, n)[k] == Decimal(ids + k)
    decreases k
  {
    var rest := FreshKeys(ids + 1, n - 1);
    assert FreshKeys(ids, n) == [Decimal(ids)] + rest;
    if k > 0 {
      var j := k - 1;
      assert FreshKeys(ids, n)[k] == rest[j];
      FreshKeysAt(ids + 1, n - 1, j);
      assert ids + 1 + j == ids + k;
    }
  }

  lemma KeysAppend(a: seq<Placed>, b: seq<Placed>)
    ensures Keys(a + b) == Keys(a) + Keys(b)
  {
  }

  /** A table whose tail has fresh keys from `ids + |first|` has fresh keys from `ids` when its
      head `first` is empty or the single entry keyed `Decimal(ids)`. */
  lemma KeysFreshCons(t: seq<Placed>, first: seq<Placed>, rest: seq<Placed>, ids: nat)
    requires first == [] || (|first| == 1 && first[0].key == Decimal(ids))
    requires t == first + rest
    requires Keys(rest) == FreshKeys(ids + |first|, |rest|)
    ensures Keys(t) == FreshKeys(ids, |t|)
  {
    KeysAppend(first, rest);
    if first != [] {
      assert Keys(first) == [Decimal(ids)];
    }
  }

  /** One step draws at most one fresh id, and keys its entry with it. */
  lemma NextSegmentKey(s: string, i: nat, ids: nat)
    requires i < |s|
    ensures var r := NextSegment(s, i, ids); var p := TablePiece(r.0);
      && r.2 == ids + |p|
      && (p == [] || (|p| == 1 && p[0].key == Decimal(ids)))
  {
  }

  lemma TableStep(s: string, i: nat, ids: nat)
    requires i < |s|
    ensures var r := NextSegment(s, i, ids);
      TableOf(SegmentsFrom(s, i, ids)) == TablePiece(r.0) + TableOf(SegmentsFrom(s, r.1, r.2))
  {
    var r := NextSegment(s, i, ids);
    SegmentsCons(r.0, SegmentsFrom(s, r.1, r.2));
  }

  /** Each placeholder is a fresh id: the keys of the table are the next ids of the counter, in
      order, so the counter advances by the number of entries. */
  lemma {:induction false} KeysAreFresh(s: string, i: nat, ids: nat)
    requires i <= |s|
    ensures var t := TableOf(SegmentsFrom(s, i, ids)); Keys(t) == FreshKeys(ids, |t|)
    decreases |s| - i
  {
    if i < |s| {
      var r := NextSegment(s, i, ids);
      KeysAreFresh(s, r.1, r.2);
      KeysFreshStep(s, i, ids);
    }
  }

  /** Fresh keys after the first step make fresh keys from `i`. */
  lemma KeysFreshStep(s: string, i: nat, ids: nat)
    requires i < |s|
    requires var r := NextSegment(s, i, ids); var rest := TableOf(SegmentsFrom(s, r.1, r.2));
      Keys(rest) == FreshKeys(r.2, |rest|)
    ensures var t := TableOf(SegmentsFrom(s, i, ids)); Keys(t) == FreshKeys(ids, |t|)
  {
    var r := NextSegment(s, i, ids);
    var first := TablePiece(r.0);
    var rest := TableOf(SegmentsFrom(s, r.1, r.2));
    assert r.2 == ids + |first| && (first == [] || (|first| == 1 && first[0].key == Decimal(ids))) by {
      NextSegmentKey(s, i, ids);
    }
    assert TableOf(SegmentsFrom(s, i, ids)) == first + rest by {
      TableStep(s, i, ids);
    }
    KeysFreshCons(TableOf(SegmentsFrom(s, i, ids)), first, rest, ids);
  }

  /** The keys of the inline table are pairwise distinct. */
  lemma KeysDistinct(s: string, ids: nat)
    ensures var t := TableOf(SegmentsFrom(s, 0, ids));
      forall j, k :: 0 <= j < k < |t| ==> t[j].key != t[k].key
  {
    KeysAreFresh(s, 0, ids);
    FreshKeysDistinct(TableOf(SegmentsFrom(s, 0, ids)), ids);
  }

  /** A table keyed by fresh ids has pairwise distinct keys. */
  lemma FreshKeysDistinct(t: seq<Placed>, ids: nat)
    requires Keys(t) == FreshKeys(ids, |t|)
    ensures forall j, k :: 0 <= j < k < |t| ==> t[j].key != t[k].key
  {
    forall j, k | 0 <= j < k < |t| ensures t[j].key != t[k].key {
      FreshKeysAt(ids, |t|, j);
      FreshKeysAt(ids, |t|, k);
      assert t[j].key == Keys(t)[j] == Decimal(ids + j);
      assert t[k].key == Keys(t)[k] == Decimal(ids + k);
      DecimalDistinct(ids + j, ids + k);
    }
  }

  /** An inline-table entry: a macro node with text content whose source opens with `{{` and
      closes with `}}`. */
  predicate IsInlineEntry(p: Placed) {
    p.node.Macro? && p.node.body.Content? && Braced(p.node.source)
  }

  /** At least as long as `{{x()}}`, opening with `{{` and closing with `}}`. */
  predicate Braced(x: string) {
    |x| >= 7 && x[0] == '{' && x[1] == '{' && x[|x| - 2] == '}' && x[|x| - 1] == '}'
  }

  lemma TailBraces(s: string, k: nat)
    requires k <= |s| && MatchInlineTail(s, k).Some?
    ensures var e := MatchInlineTail(s, k).value.end;
      s[e - 2] == '}' && s[e - 1] == '}'
  {
  }

  /** A match opens with `{{` and closes with `}}`. */
  lemma MatchBraces(s: string, i: nat)
    requires i <= |s| && MatchInlineAt(s, i).Some?
    ensures var e := MatchInlineAt(s, i).value.end;
      s[i] == '{' && s[i + 1] == '{' && s[e - 2] == '}' && s[e - 1] == '}'
    ensures Braced(s[i..MatchInlineAt(s, i).value.end])
  {
    TailBraces(s, MatchInlineHead(s, i).value.after);
    SliceBraced(s, i, MatchInlineAt(s, i).value.end);
  }

  lemma SliceBraced(s: string, i: nat, e: nat)
    requires i + 7 <= e <= |s|
    requires s[i] == '{' && s[i + 1] == '{' && s[e - 2] == '}' && s[e - 1] == '}'
    ensures Braced(s[i..e])
  {
  }

  /** Every entry of the table is an inline-table entry. */
  predicate AllInline(t: seq<Placed>) {
    forall k :: 0 <= k < |t| ==> IsInlineEntry(t[k])
  }

  /** The entry one step records, if any, is an inline-table entry. */
  lemma NextSegmentEntry(s: string, i: nat, ids: nat)
    requires i < |s|
    ensures AllInline(TablePiece(NextSegment(s, i, ids).0))
  {
    if MatchInlineAt(s, i).Some? {
      MatchBraces(s, i);
    }
  }

  lemma AllInlineAppend(a: seq<Placed>, b: seq<Placed>)
    requires AllInline(a) && AllInline(b)
    ensures AllInline(a + b)
  {
    forall k | 0 <= k < |a + b| ensures IsInlineEntry((a + b)[k]) {
      if k < |a| {
        assert (a + b)[k] == a[k];
      } else {
        assert (a + b)[k] == b[k - |a|];
      }
    }
  }

  /** Every table entry is an inline macro node cut from the text of an accepted match. */
  lemma {:induction false} EntriesAreMatches(s: string, i: nat, ids: nat)
    requires i <= |s|
    ensures AllInline(TableOf(SegmentsFrom(s, i, ids)))
    decreases |s| - i
  {
    if i < |s| {
      var r := NextSegment(s, i, ids);
      NextSegmentEntry(s, i, ids);
      TableStep(s, i, ids);
      EntriesAreMatches(s, r.1, r.2);
      AllInlineAppend(TablePiece(r.0), TableOf(SegmentsFrom(s, r.1, r.2)));
    }
  }

  /** Where no match starts, `markOut` changes nothing: the content is the input and the table is
      empty. */
  lemma {:induction false} NoMatchUnchanged(s: string, i: nat, ids: nat)
    requires i <= |s|
    requires forall j :: i <= j < |s| ==> MatchInlineAt(s, j).None?
    ensures ContentOf(SegmentsFrom(s, i, ids)) == s[i..]
    ensures TableOf(SegmentsFrom(s, i, ids)) == []
    decreases |s| - i
  {
    if i < |s| {
      NoMatchUnchanged(s, i + 1, ids);
      assert s[i..] == [s[i]] + s[i + 1..];
    }
  }

  /** Text without `{{` holds no inline macro. */
  lemma NoBracesNoMatch(s: string)
    requires forall j :: 0 <= j < |s| - 1 ==> !(s[j] == '{' && s[j + 1] == '{')
    ensures forall j :: 0 <= j <= |s| ==> MatchInlineAt(s, j).None?
  {
  }

  // ---------------------------------------------------------------------------------------------
  // Writing an inline macro

  /** An inline macro as a writer lays it out: `{{name  (params)}}`, or with `  :content` before the
      closing braces. */
  function RenderInline(name: string, gap: nat, params: string, content: Option<string>, colonGap: nat): string {
    RenderHead(name, gap, params) + (RenderTail(content, colonGap) + "}}")
  }

  predicate IsInlineName(n: string) {
    n != [] && forall k :: 0 <= k < |n| ==> IsNameChar(n[k])
  }

  /** The head of a match read where the name ends at `a`, the `(` is at `b` and the `)` at `c`. */
  lemma MatchHeadAt(s: string, a: nat, b: nat, c: nat)
    requires 2 < a <= b < c < |s|
    requires s[0] == '{' && s[1] == '{'
    requires forall k :: 2 <= k < a ==> IsNameChar(s[k])
    requires !IsNameChar(s[a])
    requires forall k :: a <= k < b ==> s[k] == ' '
    requires s[b] == '('
    requires forall k :: b + 1 <= k < c ==> IsArgChar(s[k])
    requires s[c] == ')'
    ensures MatchInlineHead(s, 0) == Some(HeadMatch(s[2..a], s[b + 1..c], c + 1))
  {
    SkipWhileAt(s, 2, IsNameChar, a);
    SkipSpacesAt(s, a, b);
    SkipWhileAt(s, b + 1, IsArgChar, c);
  }

  lemma MatchCloseAt(s: string, k: nat)
    requires k + 2 <= |s| && s[k] == '}' && s[k + 1] == '}'
    ensures MatchInlineTail(s, k) == Some(TailMatch(k + 2, None))
  {
    SkipSpacesAt(s, k, k);
  }

  lemma MatchContentAt(s: string, k: nat, d: nat, e: nat)
    requires k <= d < e && e + 2 <= |s|
    requires forall j :: k <= j < d ==> s[j] == ' '
    requires s[d] == ':'
    requires forall j :: d + 1 <= j < e ==> IsContentChar(s[j])
    requires s[e] == '}' && s[e + 1] == '}'
    ensures MatchInlineTail(s, k) == Some(TailMatch(e + 2, Some(s[d + 1..e])))
  {
    SkipSpacesAt(s, k, d);
    SkipWhileAt(s, d + 1, IsContentChar, e);
  }

  /** `{{name  (params)` as a writer lays it out. */
  function RenderHead(name: string, gap: nat, params: string): string {
    "{{" + name + Spaces(gap) + "(" + params + ")"
  }

  /** The optional `  :content` part as a writer lays it out. */
  function RenderTail(content: Option<string>, colonGap: nat): string {
    match content
    case None => ""
    case Some(c) => Spaces(colonGap) + ":" + c
  }

  /** A written head is read as `name(params)`, whatever follows it. */
  lemma MatchRenderedHead(name: string, gap: nat, params: string, more: string)
    requires IsInlineName(name)
    requires forall k :: 0 <= k < |params| ==> IsArgChar(params[k])
    ensures var h := RenderHead(name, gap, params);
      MatchInlineHead(h + more, 0) == Some(HeadMatch(name, params, |h|))
  {
    var s1 := "{{" + name;
    var s2 := s1 + Spaces(gap) + "(";
    var h := s2 + params + ")";
    assert h == RenderHead(name, gap, params);
    var s := h + more;
    var a, b, c := |s1|, |s2| - 1, |h| - 1;
    assert s[..a] == s1;
    assert s[2..a] == name;
    assert s[b + 1..c] == params;
    forall k | 2 <= k < a ensures IsNameChar(s[k]) {
      assert s[k] == name[k - 2];
    }
    forall k | a <= k < b ensures s[k] == ' ' {
      assert s[k] == s2[k];
    }
    forall k | b + 1 <= k < c ensures IsArgChar(s[k]) {
      assert s[k] == params[k - b - 1];
    }
    assert s[a] == ' ' || s[a] == '(';
    MatchHeadAt(s, a, b, c);
  }

  /** After the head, a written tail and `}}` close the match, with the content it was written
      with. */
  lemma MatchRenderedTail(h: string, content: Option<string>, colonGap: nat)
    requires content.Some? ==> forall k :: 0 <= k < |content.value| ==> IsContentChar(content.value[k])
    ensures var s := h + (RenderTail(content, colonGap) + "}}");
      MatchInlineTail(s, |h|) == Some(TailMatch(|s|, content))
  {
    var t := RenderTail(content, colonGap);
    var s := h + (t + "}}");
    match content {
      case None =>
        assert s[|h|] == '}' && s[|h| + 1] == '}';
        MatchCloseAt(s, |h|);
      case Some(v) =>
        var s4 := h + Spaces(colonGap) + ":";
        var d := |s4| - 1;
        var e := d + 1 + |v|;
        assert s == s4 + v + "}}";
        forall j | |h| <= j < d ensures s[j] == ' ' {
          assert s[j] == s4[j];
        }
        assert s[d] == ':';
        assert s[d + 1..e] == v;
        forall j | d + 1 <= j < e ensures IsContentChar(s[j]) {
          assert s[j] == v[j - d - 1];
        }
        assert s[e] == '}' && s[e + 1] == '}';
        MatchContentAt(s, |h|, d, e);
    }
  }

  /** A written inline macro is recognised as one match with the parts it was written with. */
  lemma MatchRenderedInline(name: string, gap: nat, params: string, content: Option<string>, colonGap: nat)
    requires IsInlineName(name)
    requires forall k :: 0 <= k < |params| ==> IsArgChar(params[k])
    requires content.Some? ==> forall k :: 0 <= k < |content.value| ==> IsContentChar(content.value[k])
    ensures var w := RenderInline(name, gap, params, content, colonGap);
      MatchInlineAt(w, 0) == Some(InlineMatch(|w|, name, params, content))
  {
    var h := RenderHead(name, gap, params);
    var t := RenderTail(content, colonGap);
    MatchRenderedHead(name, gap, params, t + "}}");
    MatchRenderedTail(h, content, colonGap);
    var w := h + (t + "}}");
    MatchJoinAt(w, HeadMatch(name, params, |h|), TailMatch(|w|, content));
  }

  /** A head followed by a tail after its `)` is a match. */
  lemma MatchJoinAt(s: string, h: HeadMatch, t: TailMatch)
    requires MatchInlineHead(s, 0) == Some(h) && MatchInlineTail(s, h.after) == Some(t)
    ensures MatchInlineAt(s, 0) == Some(InlineMatch(t.end, h.name, h.params, t.content))
  {
  }

  /** Soundness of the head: what `MatchInlineHead` reads is a written head, with a name of
      `[\w-]` characters and parameters without parentheses. */
  lemma MatchHeadSound(s: string, i: nat)
    requires MatchInlineHead(s, i).Some?
    ensures var h := MatchInlineHead(s, i).value;
      && IsInlineName(h.name)
      && (forall k :: 0 <= k < |h.params| ==> IsArgChar(h.params[k]))
      && exists gap: nat :: s[i..h.after] == RenderHead(h.name, gap, h.params)
  {
    var a := SkipWhile(s, i + 2, IsNameChar);
    var b := SkipSpaces(s, a);
    var c := SkipWhile(s, b + 1, IsArgChar);
    var h := MatchInlineHead(s, i).value;
    assert h.name == s[i + 2..a] && h.params == s[b + 1..c] && h.after == c + 1;
    HeadParts(s, i, a, b, c, h.params);
  }

  /** The parts of a head read with the name ending at `a`, `(` at `b` and `)` at `c`. */
  lemma HeadParts(s: string, i: nat, a: nat, b: nat, c: nat, params: string)
    requires i + 2 < a <= b < c < |s| && s[i] == '{' && s[i + 1] == '{'
    requires a == SkipWhile(s, i + 2, IsNameChar) && b == SkipSpaces(s, a)
    requires c == SkipWhile(s, b + 1, IsArgChar)
    requires s[b] == '(' && s[c] == ')' && params == s[b + 1..c]
    ensures IsInlineName(s[i + 2..a])
    ensures forall k :: 0 <= k < |params| ==> IsArgChar(params[k])
    ensures s[i..c + 1] == RenderHead(s[i + 2..a], b - a, params)
  {
    SkipWhileRun(s, i + 2, IsNameChar);
    SkipSpacesRun(s, a);
    SkipWhileRun(s, b + 1, IsArgChar);
    HeadShape(s, i, a, b, c);
  }

  /** A head from its positions: the name ends at `a`, `(` is at `b` and `)` at `c`. */
  lemma HeadShape(s: string, i: nat, a: nat, b: nat, c: nat)
    requires i + 2 <= a <= b < c < |s| && s[i] == '{' && s[i + 1] == '{'
    requires forall j :: a <= j < b ==> s[j] == ' '
    requires s[b] == '(' && s[c] == ')'
    ensures s[i..c + 1] == RenderHead(s[i + 2..a], b - a, s[b + 1..c])
  {
    SpacesSlice(s, a, b);
    assert s[i..i + 2] == "{{" && s[b..b + 1] == "(" && s[c..c + 1] == ")";
    Cut(s, i, i + 2, a);
    Cut(s, i, a, b);
    Cut(s, i, b, b + 1);
    Cut(s, i, b + 1, c);
    Cut(s, i, c, c + 1);
  }

  /** Soundness of the tail: what `MatchInlineTail` reads is a written `  :content` part, or
      none, and the closing braces, with content free of braces. */
  lemma MatchTailSound(s: string, k: nat)
    requires k <= |s| && MatchInlineTail(s, k).Some?
    ensures var t := MatchInlineTail(s, k).value;
      && (t.content.Some? ==> forall j :: 0 <= j < |t.content.value| ==> IsContentChar(t.content.value[j]))
      && exists colonGap: nat :: s[k..t.end] == RenderTail(t.content, colonGap) + "}}"
  {
    var t := MatchInlineTail(s, k).value;
    var a := SkipSpaces(s, k);
    SkipSpacesRun(s, k);
    if a < |s| && s[a] == ':' && t.content.Some? {
      var c := SkipWhile(s, a + 1, IsContentChar);
      SkipWhileRun(s, a + 1, IsContentChar);
      assert t.content.value == s[a + 1..c] && t.end == c + 2;
      TailShape(s, k, a, c);
    } else {
      assert t.content.None? && t.end == k + 2 && s[k] == '}' && s[k + 1] == '}';
      ClosingBraces(s, k);
    }
  }

  /** A tail without content: the `}}` at `k`. */
  lemma ClosingBraces(s: string, k: nat)
    requires k + 2 <= |s| && s[k] == '}' && s[k + 1] == '}'
    ensures s[k..k + 2] == RenderTail(None, 0) + "}}"
  {
  }

  /** A tail with content from its positions: `:` at `a`, `}}` at `c`. */
  lemma TailShape(s: string, k: nat, a: nat, c: nat)
    requires k <= a < c && c + 2 <= |s| && s[a] == ':' && s[c] == '}' && s[c + 1] == '}'
    requires forall j :: k <= j < a ==> s[j] == ' '
    ensures s[k..c + 2] == RenderTail(Some(s[a + 1..c]), a - k) + "}}"
  {
    assert s[k..a] == Spaces(a - k) by { SpacesSlice(s, k, a); }
    assert s[a..a + 1] == ":";
    assert s[c..c + 2] == "}}";
    assert s[k..c + 2] == s[k..a] + s[a..a + 1] + s[a + 1..c] + s[c..c + 2] by {
      Cut(s, k, a, a + 1);
      Cut(s, k, a + 1, c);
      Cut(s, k, c, c + 2);
    }
  }

  /** Soundness of the recogniser: every match of `R_INLINE_MACRO` covers a written inline macro
      whose parts are the match's groups, so the groups are exactly what the text holds. */
  lemma MatchInlineSound(s: string, i: nat)
    requires MatchInlineAt(s, i).Some?
    ensures var m := MatchInlineAt(s, i).value;
      && IsInlineName(m.name)
      && (forall k :: 0 <= k < |m.params| ==> IsArgChar(m.params[k]))
      && (m.content.Some? ==> forall k :: 0 <= k < |m.content.value| ==> IsContentChar(m.content.value[k]))
      && exists gap: nat, colonGap: nat :: s[i..m.end] == RenderInline(m.name, gap, m.params, m.content, colonGap)
  {
    var h := MatchInlineHead(s, i).value;
    var t := MatchInlineTail(s, h.after).value;
    MatchHeadSound(s, i);
    MatchTailSound(s, h.after);
    var gap: nat :| s[i..h.after] == RenderHead(h.name, gap, h.params);
    var colonGap: nat :| s[h.after..t.end] == RenderTail(t.content, colonGap) + "}}";
    Cut(s, i, h.after, t.end);
    assert s[i..t.end] == RenderInline(h.name, gap, h.params, t.content, colonGap);
  }

  /** A text that is one written inline macro with parameters that parse becomes one placeholder,
      and the table holds the macro under it. */
  lemma MarkOutSingle(name: string, gap: nat, params: string, content: Option<string>, colonGap: nat, ids: nat)
    requires IsInlineName(name)
    requires forall k :: 0 <= k < |params| ==> IsArgChar(params[k])
    requires content.Some? ==> forall k :: 0 <= k < |content.value| ==> IsContentChar(content.value[k])
    requires ParamsOf(params).Some?
    ensures var w := RenderInline(name, gap, params, content, colonGap);
      && ContentOf(SegmentsFrom(w, 0, ids)) == Decimal(ids)
      && TableOf(SegmentsFrom(w, 0, ids)) ==
           [Placed(Decimal(ids), Macro(w, name, ParamsOf(params).value, Content(content.GetOr(""))))]
  {
    var w := RenderInline(name, gap, params, content, colonGap);
    MatchRenderedInline(name, gap, params, content, colonGap);
    assert w[0..|w|] == w;
  }

  /** A written inline macro whose parameters do not parse is left in the content as it is. */
  lemma MarkOutRejected(name: string, gap: nat, params: string, content: Option<string>, colonGap: nat, ids: nat)
    requires IsInlineName(name)
    requires forall k :: 0 <= k < |params| ==> IsArgChar(params[k])
    requires content.Some? ==> forall k :: 0 <= k < |content.value| ==> IsContentChar(content.value[k])
    requires ParamsOf(params).None?
    ensures var w := RenderInline(name, gap, params, content, colonGap);
      ContentOf(SegmentsFrom(w, 0, ids)) == w && TableOf(SegmentsFrom(w, 0, ids)) == []
  {
    var w := RenderInline(name, gap, params, content, colonGap);
    MatchRenderedInline(name, gap, params, content, colonGap);
    assert w[0..|w|] == w;
    assert NextSegment(w, 0, ids) == (Text(w), |w|, ids);
    assert SegmentsFrom(w, 0, ids) == [Text(w)] + SegmentsFrom(w, |w|, ids);
    assert SegmentsFrom(w, 0, ids) == [Text(w)];
  }
}
