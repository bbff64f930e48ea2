/**
 * `parse` of core/parser.js: the indentation-driven block parser. The input is split on the EOL
 * separator and read line by line. A line `||name(params)` or `||proc:name(params)` whose
 * parameters parse opens a block; the lines indented deeper than it become its children, with the
 * block's indentation stripped; runs of text lines become 'proc' nodes.
 *
 * The JavaScript keeps the current `items` array, a `stack` of saved frames, and child arrays that
 * are already linked into their parent nodes and filled in place. Here a frame keeps the parent's
 * items as they were when the block started, and closing the block rebuilds the parent's list with
 * the finished macro node at its end; the blocks still open at the end of the input are closed the
 * same way. Nothing else is ever added to a parent list while one of its children is open, so the
 * two agree.
 */
module BlockParser {
  import opened Wrappers
  import opened Strings
  import opened Ast
  import opened ParamParser
  import opened InlineScanner

  // ---------------------------------------------------------------------------------------------
  // Helpers

  /** `__addLine(content, line)`: a line is appended after an EOL, except to an empty buffer,
      which it replaces. */
  function AddLineText(content: string, line: string, eol: string): (r: string)
    ensures content == "" ==> r == line
    ensures content != "" ==> r == content + eol + line
  {
    if content == "" then line else content + eol + line
  }

  /** `__splitByLines(s)`: the pieces of `s` between the EOL separators. */
  function SplitByLines(s: string, eol: string): (lines: seq<string>)
    ensures Join(lines, eol) == s
  {
    JoinSplit(s, eol);
    Split(s, eol)
  }

  // ---------------------------------------------------------------------------------------------
  // R_BLOCK_MACRO = /^ *\|\|(?:([\w-]+) *: *)?([\w-]+) *\(([^()]*)\) *$/

  /** The groups of a block-opener match: the processor prefix (group 1), the macro name (group 2)
      and the raw parameter text (group 3). The match is always the whole line. */
  datatype BlockMatch = BlockMatch(proc: Option<string>, name: string, params: string)

  /** `line.match(R_BLOCK_MACRO)`: leading spaces and `||`, the optional prefix, then the rest. */
  function MatchBlock(s: string): (r: Option<BlockMatch>)
    ensures r.Some? ==> IsInlineName(r.value.name)
    ensures r.Some? && r.value.proc.Some? ==> IsInlineName(r.value.proc.value)
    ensures r.Some? ==> forall j :: 0 <= j < |r.value.params| ==> IsArgChar(r.value.params[j])
  {
    match MatchBlockLead(s)
    case None => None
    case Some(k) =>
      var p := MatchBlockPrefix(s, k);
      MatchBlockName(s, p.proc, p.nameAt)
  }

  /** `^ *\|\|`: the index just after the `||`, if the line starts that way. */
  function MatchBlockLead(s: string): (r: Option<nat>)
    ensures r.Some? ==> 2 <= r.value <= |s|
  {
    var a := SkipSpaces(s, 0);
    if a + 2 > |s| || s[a] != '|' || s[a + 1] != '|' then None else Some(a + 2)
  }

  /** Group 1 of an opener, and the index where the macro name is read. */
  datatype BlockPrefix = BlockPrefix(proc: Option<string>, nameAt: nat)

  /** The optional group `([\w-]+) *: *` read from index `k`: it is tried first, and when it does
      not match, the macro name is read at `k` itself. */
  function MatchBlockPrefix(s: string, k: nat): (r: BlockPrefix)
    requires k <= |s|
    ensures k <= r.nameAt <= |s|
    ensures r.proc.Some? ==> IsInlineName(r.proc.value)
  {
    SkipWhileRun(s, k, IsNameChar);
    var b := SkipWhile(s, k, IsNameChar);
    var c := SkipSpaces(s, b);
    if b > k && c < |s| && s[c] == ':' then BlockPrefix(Some(s[k..b]), SkipSpaces(s, c + 1))
    else BlockPrefix(None, k)
  }

  /** The rest of a block opener from index `k`: `([\w-]+) *\(([^()]*)\) *$`. */
  function MatchBlockName(s: string, proc: Option<string>, k: nat): (r: Option<BlockMatch>)
    requires k <= |s|
    ensures r.Some? ==> r.value.proc == proc && IsInlineName(r.value.name)
    ensures r.Some? ==> forall j :: 0 <= j < |r.value.params| ==> IsArgChar(r.value.params[j])
  {
    SkipWhileRun(s, k, IsNameChar);
    var b := SkipWhile(s, k, IsNameChar);
    var c := SkipSpaces(s, b);
    if b == k || c == |s| || s[c] != '(' then None
    else
      SkipWhileRun(s, c + 1, IsArgChar);
      var d := SkipWhile(s, c + 1, IsArgChar);
      if d == |s| || s[d] != ')' || SkipSpaces(s, d + 1) != |s| then None
      else Some(BlockMatch(proc, s[k..b], s[c + 1..d]))
  }

  /** `LeadingSpaces` is the run of spaces `SkipSpaces` reads from the start. */
  lemma LeadingSpacesIsSkip(s: string)
    ensures LeadingSpaces(s) == SkipSpaces(s, 0)
  {
    LeadingSpacesRun(s);
    SkipSpacesAt(s, 0, LeadingSpaces(s));
  }

  /** A line opens a block: it matches `R_BLOCK_MACRO` and its parameters parse. */
  predicate Opens(line: string) {
    MatchBlock(line).Some? && ParamsOf(MatchBlock(line).value.params).Some?
  }

  // ---------------------------------------------------------------------------------------------
  // The parser state and its operations

  /** A saved frame (`pushStack`): the block indentation, the parent's indentation and the
      processor of the enclosing block, the enclosing block's items before the opener, and the
      opener's macro header. */
  datatype Frame = Frame(indent: int, prevIndent: int, proc: string, items: seq<Node>,
                         source: string, name: string, params: Dict)

  /** The variables of `parse`: `indent` (-1 while the indentation of a new block is not yet
      fixed), `prevIndent`, `proc`, the pending text `inline`, the current `items`, the `stack`,
      and the next fresh placeholder id. */
  datatype State = State(indent: int, prevIndent: int, proc: string, pending: string,
                         items: seq<Node>, stack: seq<Frame>, ids: nat)

  /** The state `parse` starts in: top level, indentation 0, processor 'default'. */
  function Init(ids: nat): (st: State)
    ensures st.stack == [] && st.items == [] && st.pending == ""
  {
    State(0, 0, "default", "", [], [], ids)
  }

  /** The top level has indentation 0, and so does the bottom frame. With it, a line can only be
      indented less than the current block when a block is open, so `popStack` always finds a
      frame. */
  predicate Valid(st: State) {
    && (st.stack == [] ==> st.indent == 0)
    && (st.stack != [] ==> st.stack[0].indent == 0)
  }

  /** The 'proc' node for a run of text: `markOut` of the text, under processor `proc`, drawing
      placeholders from `ids`. */
  function TextNode(proc: string, text: string, ids: nat): (n: Node)
    ensures n.Proc? && n.name == proc && n.source == text
  {
    Proc(proc, text, ContentOf(SegmentsFrom(text, 0, ids)), TableOf(SegmentsFrom(text, 0, ids)))
  }

  /** `pushLines`: a non-empty pending text becomes a 'proc' node at the end of the current items
      and the buffer is emptied; an empty buffer produces no node. */
  function Flushed(st: State): (r: State)
    ensures r.pending == ""
    ensures r.indent == st.indent && r.prevIndent == st.prevIndent && r.proc == st.proc
    ensures r.stack == st.stack
    ensures st.pending == "" ==> r == st
    ensures st.pending != "" ==>
      && r.items == st.items + [TextNode(st.proc, st.pending, st.ids)]
      && r.ids == st.ids + |TableOf(SegmentsFrom(st.pending, 0, st.ids))|
  {
    if st.pending == "" then st
    else
      var text := st.pending;
      st.(pending := "", items := st.items + [TextNode(st.proc, text, st.ids)],
          ids := st.ids + |TableOf(SegmentsFrom(text, 0, st.ids))|)
  }

  /** `popStack`: the enclosing block's variables come back, and its items are the ones it had
      before the opener followed by the finished macro node holding the current items. */
  function Popped(st: State): (r: State)
    requires Valid(st) && st.stack != []
    ensures Valid(r)
    ensures |r.stack| == |st.stack| - 1
  {
    var f := st.stack[|st.stack| - 1];
    State(f.indent, f.prevIndent, f.proc, st.pending,
          f.items + [Macro(f.source, f.name, f.params, Items(st.items))],
          st.stack[..|st.stack| - 1], st.ids)
  }

  /** `closeBlock`. */
  function Closed(st: State): (r: State)
    requires Valid(st) && st.stack != []
    ensures Valid(r)
    ensures |r.stack| == |st.stack| - 1
  {
    Popped(Flushed(st))
  }

  /** `openBlock` followed by the rest of the opener branch: the pending text is pushed, the
      frame saved, the processor switched when the opener names one, the macro node started with
      no items, and the new block's indentation left to be fixed by its first line. */
  function Opened(st: State, source: string, m: BlockMatch, params: Dict, cur: nat): (r: State)
    requires Valid(st)
    ensures Valid(r)
    ensures |r.stack| == |st.stack| + 1
  {
    var p := Flushed(st);
    State(-1, cur, m.proc.GetOr(p.proc), "", [],
          p.stack + [Frame(p.indent, p.prevIndent, p.proc, p.items, source, m.name, params)], p.ids)
  }

  /** `addLine`: the line, cut at the block indentation, is added to the pending text. */
  function WithLine(st: State, line: string, eol: string): (r: State)
    ensures r == st.(pending := AddLineText(st.pending, Substring(line, st.indent), eol))
  {
    st.(pending := AddLineText(st.pending, Substring(line, st.indent), eol))
  }

  /** The `while ( currIndent < indent )` loop for a line indented `cur`: blocks are closed while
      the line is indented less than the current block; a line indented strictly between the
      block and its parent closes that one block and is added as text (the `continue overLines`
      exit, reported by `true`). */
  function Dedent(st: State, line: string, cur: nat, eol: string): (r: (State, bool))
    requires Valid(st)
    ensures Valid(r.0)
    ensures r.0.ids >= st.ids && |r.0.stack| <= |st.stack|
    decreases |st.stack|
  {
    if cur < st.indent then
      var closed := Closed(st);
      if cur > st.prevIndent then (WithLine(closed, line, eol), true)
      else Dedent(closed, line, cur, eol)
    else (st, false)
  }

  /** The indentation of a new block is fixed by its first non-empty line: that line's indentation
      when it is deeper than the opener, otherwise one more than the opener's. */
  function FixIndent(st: State, cur: nat): (r: State)
    requires Valid(st)
    ensures Valid(r)
  {
    if st.indent == -1 then st.(indent := if st.prevIndent < cur then cur else st.prevIndent + 1)
    else st
  }

  /** One pass of the `overLines` loop for one line. */
  function Step(st: State, line: string, eol: string): (r: State)
    requires Valid(st)
    ensures Valid(r)
    ensures r.ids >= st.ids
  {
    if IsEmpty(line) then WithLine(st, "", eol)
    else
      var cur := LeadingSpaces(line);
      var (st2, consumed) := Dedent(FixIndent(st, cur), line, cur, eol);
      if consumed then st2
      else
        match MatchBlock(line)
        case None => WithLine(st2, line, eol)
        case Some(m) =>
          match ParamsOf(m.params)
          case None => WithLine(st2, line, eol)
          case Some(d) => Opened(st2, line[cur..], m, d, cur)
  }

  /** `Step` on a non-empty line, by the three ways the loop body ends. */
  lemma StepCases(st: State, line: string, eol: string)
    requires Valid(st) && !IsEmpty(line)
    ensures var cur := LeadingSpaces(line);
      var dd := Dedent(FixIndent(st, cur), line, cur, eol);
      Step(st, line, eol) ==
        if dd.1 then dd.0
        else if !Opens(line) then WithLine(dd.0, line, eol)
        else Opened(dd.0, line[cur..], MatchBlock(line).value, ParamsOf(MatchBlock(line).value.params).value, cur)
  {
  }

  /** What a line that closes no block does once the loop reaches the opener test: an opener
      whose parameters parse opens a block, any other line is added as text. */
  function Place(st: State, line: string, eol: string): (r: State)
    requires Valid(st)
    ensures Valid(r)
  {
    var cur := LeadingSpaces(line);
    if Opens(line) then Opened(st, line[cur..], MatchBlock(line).value, ParamsOf(MatchBlock(line).value.params).value, cur)
    else WithLine(st, line, eol)
  }

  /** The enclosing block once the block opened by `o` in `st` is closed holding `body`, with
      the placeholder ids used up to `ids`. */
  function BlockClosed(st: State, o: string, body: seq<Node>, ids: nat): (r: State)
    requires Valid(st) && Opens(o)
    ensures Valid(r) && r.stack == st.stack && r.pending == ""
  {
    var cur := LeadingSpaces(o);
    var m := MatchBlock(o).value;
    State(st.indent, st.prevIndent, st.proc, "",
          Flushed(st).items + [Macro(o[cur..], m.name, ParamsOf(m.params).value, Items(body))],
          st.stack, ids)
  }

  /** The loop over all lines. */
  function Run(st: State, lines: seq<string>, eol: string): (r: State)
    requires Valid(st)
    ensures Valid(r)
    ensures r.ids >= st.ids
    decreases |lines|
  {
    if lines == [] then st else Run(Step(st, lines[0], eol), lines[1..], eol)
  }

  /** The blocks still open at the end, closed from the innermost out: the top-level list keeps
      the items before the outermost open block and ends with that block's macro node. */
  function CloseAll(items: seq<Node>, stack: seq<Frame>): (r: seq<Node>)
    ensures |r| == if stack == [] then |items| else |stack[0].items| + 1
    ensures stack != [] ==> r[..|stack[0].items|] == stack[0].items
    ensures stack != [] ==> var f := stack[0]; var last := r[|r| - 1];
      last.Macro? && last.source == f.source && last.name == f.name && last.params == f.params
    decreases |stack|
  {
    if stack == [] then items
    else
      var f := stack[|stack| - 1];
      CloseAll(f.items + [Macro(f.source, f.name, f.params, Items(items))], stack[..|stack| - 1])
  }

  /** The end of `parse`: the last pending text is pushed and the top-level list returned, with the
      next fresh id. */
  function Finish(st: State): (r: (seq<Node>, nat))
    ensures r.1 >= st.ids
    ensures st.stack == [] && st.pending == "" ==> r.0 == st.items
  {
    var p := Flushed(st);
    (CloseAll(p.items, p.stack), p.ids)
  }

  /** `parse` of a list of lines. */
  function ParseLines(lines: seq<string>, eol: string, ids: nat): (r: (seq<Node>, nat))
    ensures r.1 >= ids
  {
    Finish(Run(Init(ids), lines, eol))
  }

  /** `parse(s)`: the nodes and the next fresh id. */
  function ParseText(s: string, eol: string, ids: nat): (r: (seq<Node>, nat))
    ensures r.1 >= ids
  {
    ParseLines(SplitByLines(s, eol), eol, ids)
  }

  // ---------------------------------------------------------------------------------------------
  // The parser

  /** The variables shared by the inner functions of `parse`, with those functions as methods. */
  class LineParser {
    var indent: int
    var prevIndent: int
    var proc: string
    var inline: string
    var items: seq<Node>
    var stack: seq<Frame>
    var ids: nat
    const eol: string

    function Current(): State
      reads this
    {
      State(indent, prevIndent, proc, inline, items, stack, ids)
    }

    constructor (eol: string, ids: nat)
      ensures Current() == Init(ids) && this.eol == eol
    {
      indent, prevIndent, proc, inline := 0, 0, "default", "";
      items, stack := [], [];
      this.ids := ids;
      this.eol := eol;
    }

    /** `pushLines`. */
    method PushLines()
      modifies this
      ensures Current() == Flushed(old(Current()))
    {
      if inline == "" {
        return;
      }
      var content, table, next := MarkOut(inline, ids);
      items := items + [Proc(proc, inline, content, table)];
      ids := next;
      inline := "";
    }

    /** `popStack`. */
    method PopStack()
      requires Valid(Current()) && stack != []
      modifies this
      ensures Current() == Popped(old(Current()))
    {
      var f := stack[|stack| - 1];
      items := f.items + [Macro(f.source, f.name, f.params, Items(items))];
      stack := stack[..|stack| - 1];
      indent, prevIndent, proc := f.indent, f.prevIndent, f.proc;
    }

    /** `closeBlock`. */
    method CloseBlock()
      requires Valid(Current()) && stack != []
      modifies this
      ensures Current() == Closed(old(Current()))
    {
      PushLines();
      PopStack();
    }

    /** `openBlock`, then the opener's macro node started with no items as the current list. */
    method OpenBlock(source: string, m: BlockMatch, params: Dict, cur: nat)
      requires Valid(Current())
      modifies this
      ensures Current() == Opened(old(Current()), source, m, params, cur)
    {
      PushLines();
      stack := stack + [Frame(indent, prevIndent, proc, items, source, m.name, params)];
      if m.proc.Some? {
        proc := m.proc.value;
      }
      items := [];
      prevIndent := cur;
      indent := -1;
    }

    /** `addLine`. */
    method AddLine(line: string)
      modifies this
      ensures Current() == WithLine(old(Current()), line, eol)
    {
      inline := AddLineText(inline, Substring(line, indent), eol);
    }

    /** The body of the `overLines` loop for one line. */
    method ParseLine(line: string)
      requires Valid(Current())
      modifies this
      ensures Current() == Step(old(Current()), line, eol)
    {
      if IsEmpty(line) {
        AddLine("");
        return;
      }
      ghost var before := Current();
      var currIndent := LeadingSpaces(line);
      if indent == -1 {
        if prevIndent < currIndent {
          indent := currIndent;
        } else {
          indent := prevIndent + 1;
        }
      }
      ghost var fixed := Current();
      assert fixed == FixIndent(before, currIndent);
      StepCases(before, line, eol);
      var consumed := false;
      while currIndent < indent && !consumed
        invariant Valid(Current())
        invariant Dedent(fixed, line, currIndent, eol) ==
          if consumed then (Current(), true) else Dedent(Current(), line, currIndent, eol)
        decreases |stack|, !consumed
      {
        if currIndent > prevIndent {
          CloseBlock();
          AddLine(line);
          consumed := true;
        } else {
          CloseBlock();
        }
      }
      if consumed {
        return;
      }
      var m := MatchBlock(line);
      if m.None? {
        AddLine(line);
        return;
      }
      var params := ParseParams(m.value.params);
      if params.None? {
        AddLine(line);
        return;
      }
      OpenBlock(line[currIndent..], m.value, params.value, currIndent);
    }
  }

  /** `parse(s)` with placeholders drawn from `ids` on: the top-level nodes and the next fresh id. */
  method Parse(s: string, eol: string, ids: nat) returns (result: seq<Node>, next: nat)
    ensures (result, next) == ParseText(s, eol, ids)
  {
    var lines := SplitByLines(s, eol);
    var p := new LineParser(eol, ids);
    var i := 0;
    while i < |lines|
      invariant i <= |lines|
      invariant Valid(p.Current())
      invariant Run(Init(ids), lines, eol) == Run(p.Current(), lines[i..], eol)
      decreases |lines| - i
    {
      assert lines[i..][1..] == lines[i + 1..];
      p.ParseLine(lines[i]);
      i := i + 1;
    }
    p.PushLines();
    result := CloseAll(p.items, p.stack);
    next := p.ids;
  }

  // ---------------------------------------------------------------------------------------------
  // Properties of parse

  /** What a line adds to the pending text of a block indented `indent`: an empty line adds an
      empty line, any other line loses the block indentation. */
  function Stripped(line: string, indent: int): string {
    if IsEmpty(line) then "" else Substring(line, indent)
  }

  /** A line that neither closes the block indented `indent` nor opens one: an empty line, or a
      line indented at least as deep that does not open a block (a line that looks like an opener
      but whose parameters fail is one). */
  predicate TextLine(line: string, indent: int) {
    IsEmpty(line) || (LeadingSpaces(line) >= indent && !Opens(line))
  }

  /** The pending text after adding `lines` to `pending` in a block indented `indent`. */
  function Merge(pending: string, lines: seq<string>, indent: int, eol: string): string
    decreases |lines|
  {
    if lines == [] then pending
    else Merge(AddLineText(pending, Stripped(lines[0], indent), eol), lines[1..], indent, eol)
  }

  lemma {:induction false} RunAppend(st: State, a: seq<string>, b: seq<string>, eol: string)
    requires Valid(st)
    ensures Run(st, a + b, eol) == Run(Run(st, a, eol), b, eol)
    decreases |a|
  {
    if a == [] {
      assert a + b == b;
    } else {
      assert (a + b)[1..] == a[1..] + b;
      RunAppend(Step(st, a[0], eol), a[1..], b, eol);
    }
  }

  /** A text line only adds to the pending text: it never opens or closes a block. */
  lemma StepText(st: State, line: string, eol: string)
    requires Valid(st) && st.indent >= 0 && TextLine(line, st.indent)
    ensures Step(st, line, eol) == st.(pending := AddLineText(st.pending, Stripped(line, st.indent), eol))
  {
    if !IsEmpty(line) {
      var cur := LeadingSpaces(line);
      assert FixIndent(st, cur) == st;
      assert Dedent(st, line, cur, eol) == (st, false);
      StepCases(st, line, eol);
    }
  }

  /** A run of text lines only builds up the pending text. */
  lemma {:induction false} TextRun(st: State, lines: seq<string>, eol: string)
    requires Valid(st) && st.indent >= 0
    requires forall k :: 0 <= k < |lines| ==> TextLine(lines[k], st.indent)
    ensures Run(st, lines, eol) == st.(pending := Merge(st.pending, lines, st.indent, eol))
    decreases |lines|
  {
    if lines != [] {
      StepText(st, lines[0], eol);
      var st' := st.(pending := AddLineText(st.pending, Stripped(lines[0], st.indent), eol));
      TextRun(st', lines[1..], eol);
    }
  }

  /** Empty lines add nothing to an empty buffer. */
  lemma {:induction false} MergeBlank(lines: seq<string>, indent: int, eol: string)
    requires forall k :: 0 <= k < |lines| ==> IsEmpty(lines[k])
    ensures Merge("", lines, indent, eol) == ""
    decreases |lines|
  {
    if lines != [] {
      MergeBlank(lines[1..], indent, eol);
    }
  }

  lemma {:induction false} MergeAfter(p: string, lines: seq<string>, eol: string)
    requires p != "" && lines != []
    requires forall k :: 0 <= k < |lines| ==> !IsEmpty(lines[k])
    ensures Merge(p, lines, 0, eol) == p + eol + Join(lines, eol)
    decreases |lines|
  {
    var q := AddLineText(p, Stripped(lines[0], 0), eol);
    assert q == p + eol + lines[0];
    if |lines| > 1 {
      MergeAfter(q, lines[1..], eol);
      assert Join(lines, eol) == lines[0] + eol + Join(lines[1..], eol);
    }
  }

  /** Non-empty lines at the top level merge into their join by EOL. */
  lemma MergeJoin(lines: seq<string>, eol: string)
    requires forall k :: 0 <= k < |lines| ==> !IsEmpty(lines[k])
    ensures Merge("", lines, 0, eol) == Join(lines, eol)
  {
    if lines != [] {
      assert lines[0] != "";
      assert AddLineText("", Stripped(lines[0], 0), eol) == lines[0];
      if |lines| > 1 {
        MergeAfter(lines[0], lines[1..], eol);
      }
    }
  }

  /** What `parse` makes of a top level holding only the text `t`: no node for an empty buffer,
      otherwise one 'proc' node for processor 'default' whose inline calls take the ids from `ids`. */
  function TopText(t: string, ids: nat): (seq<Node>, nat) {
    if t == "" then ([], ids)
    else ([TextNode("default", t, ids)], ids + |TableOf(SegmentsFrom(t, 0, ids))|)
  }

  /** Text with no block opener is parsed into at most one 'proc' node for processor 'default',
      holding the merged text; an empty buffer gives no node. */
  lemma TopLevelText(lines: seq<string>, eol: string, ids: nat)
    requires forall k :: 0 <= k < |lines| ==> TextLine(lines[k], 0)
    ensures ParseLines(lines, eol, ids) == TopText(Merge("", lines, 0, eol), ids)
  {
    var t := Merge("", lines, 0, eol);
    calc {
      ParseLines(lines, eol, ids);
    == { TextRun(Init(ids), lines, eol); }
      Finish(State(0, 0, "default", t, [], [], ids));
    == { FinishTop(t, ids); }
      TopText(t, ids);
    }
  }

  /** At the top level with no items yet, the end of `parse` gives the node of the pending text. */
  lemma FinishTop(t: string, ids: nat)
    ensures Finish(State(0, 0, "default", t, [], [], ids)) == TopText(t, ids)
  {
    if t != "" {
      assert [] + [TextNode("default", t, ids)] == [TextNode("default", t, ids)];
    }
  }

  /** Consecutive text lines merge into one text node joined by EOL. */
  lemma TextLinesMerge(lines: seq<string>, eol: string, ids: nat)
    requires lines != []
    requires forall k :: 0 <= k < |lines| ==> !IsEmpty(lines[k]) && !Opens(lines[k])
    ensures ParseLines(lines, eol, ids).0 == [TextNode("default", Join(lines, eol), ids)]
  {
    TopLevelText(lines, eol, ids);
    MergeJoin(lines, eol);
    assert lines[0] != "";
    assert Join(lines, eol) != "" by {
      if |lines| > 1 {
        assert Join(lines, eol) == lines[0] + eol + Join(lines[1..], eol);
      }
    }
  }

  /** `parse(s)` of a non-empty document whose lines are neither blank nor openers is one
      'default' text node holding the whole document. */
  lemma ParseTextPlain(s: string, eol: string, ids: nat)
    requires s != ""
    requires forall k :: 0 <= k < |SplitByLines(s, eol)| ==>
      !IsEmpty(SplitByLines(s, eol)[k]) && !Opens(SplitByLines(s, eol)[k])
    ensures ParseText(s, eol, ids).0 == [TextNode("default", s, ids)]
  {
    assert SplitByLines(s, eol) != [];
    TextLinesMerge(SplitByLines(s, eol), eol, ids);
  }

  /** Input made only of empty or white-space lines gives no node at all. */
  lemma BlankLinesNoNode(lines: seq<string>, eol: string, ids: nat)
    requires forall k :: 0 <= k < |lines| ==> IsEmpty(lines[k])
    ensures ParseLines(lines, eol, ids) == ([], ids)
  {
    TopLevelText(lines, eol, ids);
    MergeBlank(lines, 0, eol);
  }

  /** An opener line indented at least as deep as the current block opens a block: the frame
      saves the enclosing block, the processor changes when the opener names one, and the new
      block starts with no items and an indentation still to be fixed. */
  lemma StepOpen(st: State, o: string, eol: string)
    requires Valid(st) && st.indent >= 0
    requires !IsEmpty(o) && Opens(o) && LeadingSpaces(o) >= st.indent
    ensures var cur := LeadingSpaces(o); var m := MatchBlock(o).value;
      Step(st, o, eol) == Opened(st, o[cur..], m, ParamsOf(m.params).value, cur)
  {
    StepCases(st, o, eol);
  }

  /** The first line of a new block fixes its indentation when it is deeper than the opener. */
  lemma StepFirstChild(st: State, line: string, eol: string)
    requires Valid(st) && st.indent == -1 && st.stack != []
    requires !IsEmpty(line) && LeadingSpaces(line) > st.prevIndent && !Opens(line)
    ensures Step(st, line, eol) ==
      st.(indent := LeadingSpaces(line),
          pending := AddLineText(st.pending, Stripped(line, LeadingSpaces(line)), eol))
  {
    StepCases(st, line, eol);
  }

  /** An opener that is the first line of a new block, indented deeper than the block's own
      opener, fixes the new block's indentation and opens a block inside it. */
  lemma StepOpenFirst(st: State, o: string, eol: string)
    requires Valid(st) && st.indent == -1
    requires !IsEmpty(o) && Opens(o) && LeadingSpaces(o) > st.prevIndent
    ensures var cur := LeadingSpaces(o); var m := MatchBlock(o).value;
      Step(st, o, eol) == Opened(st.(indent := cur), o[cur..], m, ParamsOf(m.params).value, cur)
  {
    StepCases(st, o, eol);
  }

  /** The loop treats a new block whose indentation is not fixed yet as if its first non-empty
      line had fixed it already. */
  lemma RunFixed(st: State, lines: seq<string>, eol: string)
    requires Valid(st) && lines != [] && !IsEmpty(lines[0])
    ensures Run(st, lines, eol) == Run(FixIndent(st, LeadingSpaces(lines[0])), lines, eol)
  {
    var cur := LeadingSpaces(lines[0]);
    StepCases(st, lines[0], eol);
    StepCases(FixIndent(st, cur), lines[0], eol);
    assert FixIndent(FixIndent(st, cur), cur) == FixIndent(st, cur);
  }

  /** An opener followed by a deeper line: the block is opened and its indentation is that of
      the line. */
  lemma OpenedThen(st: State, o: string, rest: seq<string>, eol: string)
    requires Valid(st) && st.indent >= 0
    requires !IsEmpty(o) && Opens(o) && LeadingSpaces(o) >= st.indent
    requires rest != [] && !IsEmpty(rest[0]) && LeadingSpaces(rest[0]) > LeadingSpaces(o)
    ensures var cur := LeadingSpaces(o); var m := MatchBlock(o).value;
      var s1 := Opened(st, o[cur..], m, ParamsOf(m.params).value, cur);
      Run(st, [o] + rest, eol) == Run(s1.(indent := LeadingSpaces(rest[0])), rest, eol)
  {
    var cur := LeadingSpaces(o);
    var m := MatchBlock(o).value;
    var s1 := Opened(st, o[cur..], m, ParamsOf(m.params).value, cur);
    StepOpen(st, o, eol);
    assert ([o] + rest)[1..] == rest;
    RunFixed(s1, rest, eol);
  }

  /** A block opened as the first line of another block, with text lines under it, closed by a
      line at its own indentation: the inner macro node holds the 'proc' node of its text, and the
      closing line is text of the outer block, cut at the inner opener's indentation. */
  lemma NestedBlock(st: State, o1: string, o2: string, cs: seq<string>, c: string, eol: string)
    requires Valid(st) && st.indent >= 0
    requires !IsEmpty(o1) && Opens(o1) && LeadingSpaces(o1) >= st.indent
    requires !IsEmpty(o2) && Opens(o2) && LeadingSpaces(o2) > LeadingSpaces(o1)
    requires cs != [] && !IsEmpty(cs[0]) && LeadingSpaces(cs[0]) > LeadingSpaces(o2)
    requires forall k :: 0 <= k < |cs| ==> TextLine(cs[k], LeadingSpaces(cs[0]))
    requires !IsEmpty(c) && !Opens(c) && LeadingSpaces(c) == LeadingSpaces(o2)
    ensures var cur1 := LeadingSpaces(o1); var cur2 := LeadingSpaces(o2);
      var m1 := MatchBlock(o1).value; var m2 := MatchBlock(o2).value;
      var s1 := Opened(st, o1[cur1..], m1, ParamsOf(m1.params).value, cur1);
      var t := Merge("", cs, LeadingSpaces(cs[0]), eol);
      Run(st, [o1] + ([o2] + cs + [c]), eol) ==
        State(cur2, cur1, s1.proc, Substring(c, cur2),
              [Macro(o2[cur2..], m2.name, ParamsOf(m2.params).value,
                     Items([TextNode(m2.proc.GetOr(s1.proc), t, s1.ids)]))],
              s1.stack, s1.ids + |TableOf(SegmentsFrom(t, 0, s1.ids))|)
  {
    var cur1 := LeadingSpaces(o1);
    var cur2 := LeadingSpaces(o2);
    var m1 := MatchBlock(o1).value;
    var s1 := Opened(st, o1[cur1..], m1, ParamsOf(m1.params).value, cur1);
    var rest := [o2] + cs + [c];
    var s2 := s1.(indent := cur2);
    assert Run(st, [o1] + rest, eol) == Run(s2, rest, eol) by {
      assert rest[0] == o2;
      OpenedThen(st, o1, rest, eol);
    }
    assert Run(s2, rest, eol) == ClosedText(s2, o2, cs, eol).(pending := Substring(c, cur2)) by {
      ClosedBy(s2, o2, cs, c, eol);
    }
    var m2 := MatchBlock(o2).value;
    var t := Merge("", cs, LeadingSpaces(cs[0]), eol);
    assert s2.items == [] && s2.pending == "" && s2.prevIndent == cur1;
    ClosedTextEmpty(s2, o2, cs, eol);
  }

  /** `ClosedText` of a block that had no items and no pending text before its opener: the
      macro node is the only item. */
  lemma ClosedTextEmpty(st: State, o: string, cs: seq<string>, eol: string)
    requires Valid(st) && Opens(o) && cs != [] && st.items == [] && st.pending == ""
    ensures var m := MatchBlock(o).value; var t := Merge("", cs, LeadingSpaces(cs[0]), eol);
      ClosedText(st, o, cs, eol) ==
        State(st.indent, st.prevIndent, st.proc, "",
              [Macro(o[LeadingSpaces(o)..], m.name, ParamsOf(m.params).value,
                     Items([TextNode(m.proc.GetOr(st.proc), t, st.ids)]))],
              st.stack, st.ids + |TableOf(SegmentsFrom(t, 0, st.ids))|)
  {
    var m := MatchBlock(o).value;
    var t := Merge("", cs, LeadingSpaces(cs[0]), eol);
    var body := [TextNode(m.proc.GetOr(st.proc), t, st.ids)];
    var ids := st.ids + |TableOf(SegmentsFrom(t, 0, st.ids))|;
    var mac := Macro(o[LeadingSpaces(o)..], m.name, ParamsOf(m.params).value, Items(body));
    assert Flushed(st) == st;
    assert ClosedText(st, o, cs, eol) == BlockClosed(st, o, body, ids);
    assert [] + [mac] == [mac];
  }

  /** Lines indented deeper than an opener become the pending text of its block, with the
      block's indentation (that of its first line) stripped; the enclosing block is saved with its
      processor, and the opener's processor, when it names one, is current. */
  lemma {:induction false} OpenedChildren(st: State, o: string, cs: seq<string>, eol: string)
    requires Valid(st) && st.indent >= 0
    requires !IsEmpty(o) && Opens(o) && LeadingSpaces(o) >= st.indent
    requires cs != [] && !IsEmpty(cs[0]) && LeadingSpaces(cs[0]) > LeadingSpaces(o)
    requires forall k :: 0 <= k < |cs| ==> TextLine(cs[k], LeadingSpaces(cs[0]))
    ensures var cur := LeadingSpaces(o); var n := LeadingSpaces(cs[0]);
      var m := MatchBlock(o).value; var p := Flushed(st);
      Run(st, [o] + cs, eol) ==
        State(n, cur, m.proc.GetOr(st.proc), Merge("", cs, n, eol), [],
              st.stack + [Frame(st.indent, st.prevIndent, st.proc, p.items, o[cur..], m.name,
                                ParamsOf(m.params).value)],
              p.ids)
  {
    var cur := LeadingSpaces(o);
    var n := LeadingSpaces(cs[0]);
    var m := MatchBlock(o).value;
    StepOpen(st, o, eol);
    var started := Opened(st, o[cur..], m, ParamsOf(m.params).value, cur);
    assert ([o] + cs)[1..] == cs;
    assert Run(st, [o] + cs, eol) == Run(started, cs, eol);
    StepFirstChild(started, cs[0], eol);
    var first := started.(indent := n, pending := AddLineText("", Stripped(cs[0], n), eol));
    assert Run(started, cs, eol) == Run(first, cs[1..], eol);
    TextRun(first, cs[1..], eol);
  }

  /** The pending text of a block whose first line is not empty is not empty. */
  lemma {:induction false} MergeNonEmpty(p: string, lines: seq<string>, indent: int, eol: string)
    requires p != ""
    ensures Merge(p, lines, indent, eol) != ""
    decreases |lines|
  {
    if lines != [] {
      MergeNonEmpty(AddLineText(p, Stripped(lines[0], indent), eol), lines[1..], indent, eol);
    }
  }

  lemma FirstChildText(cs: seq<string>, eol: string)
    requires cs != [] && !IsEmpty(cs[0])
    ensures Merge("", cs, LeadingSpaces(cs[0]), eol) != ""
  {
    var n := LeadingSpaces(cs[0]);
    LeadingSpacesRun(cs[0]);
    if n == |cs[0]| {
      assert IsEmpty(cs[0]) by {
        forall i | 0 <= i < |cs[0]| ensures IsJsSpace(cs[0][i]) {
          assert cs[0][i] == ' ';
        }
      }
    }
    assert Stripped(cs[0], n) != "";
    MergeNonEmpty(Stripped(cs[0], n), cs[1..], n, eol);
  }

  /** A line indented less than the current block, but not more than its parent, closes the
      block; when it is indented at least as deep as the enclosing block it is then placed there:
      an opener opens a sibling block, any other line is text of the enclosing block. */
  lemma StepClosing(st: State, line: string, eol: string)
    requires Valid(st) && !IsEmpty(line)
    requires var s1 := FixIndent(st, LeadingSpaces(line));
      && s1.stack != [] && LeadingSpaces(line) < s1.indent && LeadingSpaces(line) <= s1.prevIndent
      && Closed(s1).indent <= LeadingSpaces(line)
    ensures Step(st, line, eol) == Place(Closed(FixIndent(st, LeadingSpaces(line))), line, eol)
  {
    var cur := LeadingSpaces(line);
    var s1 := FixIndent(st, cur);
    assert Dedent(Closed(s1), line, cur, eol) == (Closed(s1), false);
    assert Dedent(s1, line, cur, eol) == (Closed(s1), false);
    StepCases(st, line, eol);
  }

  /** The enclosing block once the block opened by `o` in `st` and holding the text lines `cs`
      is closed: the block's one 'proc' node holds the text of `cs`, under the opener's processor
      when it names one. */
  function ClosedText(st: State, o: string, cs: seq<string>, eol: string): (r: State)
    requires Valid(st) && Opens(o) && cs != []
    ensures Valid(r) && r.stack == st.stack && r.pending == ""
  {
    var m := MatchBlock(o).value;
    var p := Flushed(st);
    var t := Merge("", cs, LeadingSpaces(cs[0]), eol);
    BlockClosed(st, o, [TextNode(m.proc.GetOr(st.proc), t, p.ids)], p.ids + |TableOf(SegmentsFrom(t, 0, p.ids))|)
  }

  /** A line indented no deeper than the opener (and not less than the enclosing block) closes the
      block: the macro node holds one 'proc' node with the block's text, the enclosing block's
      variables and processor come back, and the line is placed in the enclosing block: a text
      line becomes its pending text, an opener opens the next sibling block. */
  lemma ClosedBy(st: State, o: string, cs: seq<string>, c: string, eol: string)
    requires Valid(st) && st.indent >= 0
    requires !IsEmpty(o) && Opens(o) && LeadingSpaces(o) >= st.indent
    requires cs != [] && !IsEmpty(cs[0]) && LeadingSpaces(cs[0]) > LeadingSpaces(o)
    requires forall k :: 0 <= k < |cs| ==> TextLine(cs[k], LeadingSpaces(cs[0]))
    requires !IsEmpty(c) && st.indent <= LeadingSpaces(c) <= LeadingSpaces(o)
    ensures Run(st, [o] + cs + [c], eol) == Place(ClosedText(st, o, cs, eol), c, eol)
    ensures !Opens(c) ==> Run(st, [o] + cs + [c], eol) == ClosedText(st, o, cs, eol).(pending := Substring(c, st.indent))
  {
    RunAppend(st, [o] + cs, [c], eol);
    var b := Run(st, [o] + cs, eol);
    assert Run(b, [c], eol) == Step(b, c, eol);
    ClosingText(st, o, cs, c, eol);
  }

  /** The step of `ClosedBy` at its closing line. */
  lemma ClosingText(st: State, o: string, cs: seq<string>, c: string, eol: string)
    requires Valid(st) && st.indent >= 0
    requires !IsEmpty(o) && Opens(o) && LeadingSpaces(o) >= st.indent
    requires cs != [] && !IsEmpty(cs[0]) && LeadingSpaces(cs[0]) > LeadingSpaces(o)
    requires forall k :: 0 <= k < |cs| ==> TextLine(cs[k], LeadingSpaces(cs[0]))
    requires !IsEmpty(c) && st.indent <= LeadingSpaces(c) <= LeadingSpaces(o)
    ensures Step(Run(st, [o] + cs, eol), c, eol) == Place(ClosedText(st, o, cs, eol), c, eol)
  {
    ChildrenClosed(st, o, cs, eol);
    var b := Run(st, [o] + cs, eol);
    assert FixIndent(b, LeadingSpaces(c)) == b;
    StepClosing(b, c, eol);
  }

  /** Closing the block of `ChildrenText` gives `ClosedText`. */
  lemma ChildrenClosed(st: State, o: string, cs: seq<string>, eol: string)
    requires Valid(st) && st.indent >= 0
    requires !IsEmpty(o) && Opens(o) && LeadingSpaces(o) >= st.indent
    requires cs != [] && !IsEmpty(cs[0]) && LeadingSpaces(cs[0]) > LeadingSpaces(o)
    requires forall k :: 0 <= k < |cs| ==> TextLine(cs[k], LeadingSpaces(cs[0]))
    ensures var b := Run(st, [o] + cs, eol);
      && b.stack != [] && b.indent == LeadingSpaces(cs[0]) && b.prevIndent == LeadingSpaces(o)
      && b.stack[|b.stack| - 1].indent == st.indent
      && Closed(b) == ClosedText(st, o, cs, eol)
  {
    OpenedChildren(st, o, cs, eol);
    FirstChildText(cs, eol);
    var b := Run(st, [o] + cs, eol);
    var cur := LeadingSpaces(o);
    var n := LeadingSpaces(cs[0]);
    var m := MatchBlock(o).value;
    var p := Flushed(st);
    var t := Merge("", cs, n, eol);
    var frame := Frame(st.indent, st.prevIndent, st.proc, p.items, o[cur..], m.name, ParamsOf(m.params).value);
    assert b == State(n, cur, m.proc.GetOr(st.proc), t, [], st.stack + [frame], p.ids);
    var fl := Flushed(b);
    assert fl.items == [TextNode(m.proc.GetOr(st.proc), t, p.ids)];
    assert fl.ids == p.ids + |TableOf(SegmentsFrom(t, 0, p.ids))|;
    assert b.stack[|b.stack| - 1] == frame && b.stack[..|b.stack| - 1] == st.stack;
  }

  /** An opener followed at once by a line that closes it gives a macro node with no items, and
      the line is placed in the enclosing block: text, or the opener of the next sibling. */
  lemma EmptyBlock(st: State, o: string, c: string, eol: string)
    requires Valid(st) && st.indent >= 0
    requires !IsEmpty(o) && Opens(o) && LeadingSpaces(o) >= st.indent
    requires !IsEmpty(c) && st.indent <= LeadingSpaces(c) <= LeadingSpaces(o)
    ensures var cur := LeadingSpaces(o); var m := MatchBlock(o).value; var p := Flushed(st);
      var after := State(st.indent, st.prevIndent, st.proc, "",
                         p.items + [Macro(o[cur..], m.name, ParamsOf(m.params).value, Items([]))],
                         st.stack, p.ids);
      && Run(st, [o, c], eol) == Place(after, c, eol)
      && (!Opens(c) ==> Run(st, [o, c], eol) == after.(pending := Substring(c, st.indent)))
  {
    var cur := LeadingSpaces(o);
    var m := MatchBlock(o).value;
    StepOpen(st, o, eol);
    var p := Flushed(st);
    var frame := Frame(st.indent, st.prevIndent, st.proc, p.items, o[cur..], m.name, ParamsOf(m.params).value);
    var started := Opened(st, o[cur..], m, ParamsOf(m.params).value, cur);
    assert started == State(-1, cur, m.proc.GetOr(st.proc), "", [], st.stack + [frame], p.ids);
    assert [o, c][1..] == [c];
    assert Run(st, [o, c], eol) == Run(started, [c], eol);
    assert Run(started, [c], eol) == Step(started, c, eol);
    var s1 := FixIndent(started, LeadingSpaces(c));
    assert s1 == started.(indent := cur + 1);
    assert (st.stack + [frame])[..|st.stack|] == st.stack;
    var closed := Closed(s1);
    assert closed == State(st.indent, st.prevIndent, st.proc, "",
                           p.items + [Macro(o[cur..], m.name, ParamsOf(m.params).value, Items([]))], st.stack, p.ids);
    StepClosing(started, c, eol);
  }

  /** A line indented strictly between a block and its parent closes exactly that one block and is
      added, cut at the enclosing block's indentation, to the enclosing block's text, whatever it
      holds. */
  lemma BetweenDedent(st: State, line: string, eol: string)
    requires Valid(st) && st.stack != [] && st.indent >= 0
    requires !IsEmpty(line) && st.prevIndent < LeadingSpaces(line) < st.indent
    ensures var f := st.stack[|st.stack| - 1]; var p := Flushed(st);
      Step(st, line, eol) ==
        State(f.indent, f.prevIndent, f.proc, Substring(line, f.indent),
              f.items + [Macro(f.source, f.name, f.params, Items(p.items))],
              st.stack[..|st.stack| - 1], p.ids)
  {
    StepCases(st, line, eol);
  }

  /** The state after closing the `n` innermost blocks, one `closeBlock` at a time. */
  function CloseN(st: State, n: nat): (r: State)
    requires Valid(st) && n <= |st.stack|
    ensures Valid(r) && |r.stack| == |st.stack| - n
    decreases n
  {
    if n == 0 then st else CloseN(Closed(st), n - 1)
  }

  /** The `while ( currIndent < indent )` loop closes exactly the blocks indented deeper than the
      line, innermost first, as many as there are: each closed block was indented deeper than the
      line, and the loop stops at the first block that is not, or leaves early, adding the line as
      text, right after closing a block whose opener is indented less than the line. */
  lemma {:induction false} DedentCloses(st: State, line: string, cur: nat, eol: string)
    requires Valid(st)
    ensures DedentShape(st, line, cur, eol)
    decreases |st.stack|
  {
    if cur < st.indent {
      var closed := Closed(st);
      assert CloseN(st, 1) == CloseN(closed, 0) == closed;
      if cur <= st.prevIndent {
        DedentCloses(closed, line, cur, eol);
        DedentShapeStep(st, line, cur, eol);
      }
    }
  }

  /** What `DedentCloses` states: `n` blocks are closed, each indented deeper than the line;
      all but the last had openers no shallower than the line; and the loop either left early
      adding the line or stopped at a block no deeper than the line. */
  ghost predicate DedentShape(st: State, line: string, cur: nat, eol: string)
    requires Valid(st)
  {
    DedentEnds(st, Dedent(st, line, cur, eol), |st.stack| - |Dedent(st, line, cur, eol).0.stack|, line, cur, eol)
  }

  /** `DedentShape` for the loop's result `dd` after closing `n` blocks. */
  ghost predicate DedentEnds(st: State, dd: (State, bool), n: int, line: string, cur: nat, eol: string)
    requires Valid(st)
  {
    && 0 <= n <= |st.stack|
    && DeeperBlocks(st, n, cur)
    && (dd.1 ==> n > 0 && cur > CloseN(st, n - 1).prevIndent && dd.0 == WithLine(CloseN(st, n), line, eol))
    && (!dd.1 ==> dd.0 == CloseN(st, n) && CloseN(st, n).indent <= cur
                  && (n > 0 ==> cur <= CloseN(st, n - 1).prevIndent))
  }

  /** The `n` innermost blocks are indented deeper than `cur`, and all but the last of them have
      openers indented at least `cur`. */
  ghost predicate DeeperBlocks(st: State, n: nat, cur: nat)
    requires Valid(st) && n <= |st.stack|
  {
    && (forall i :: 0 <= i < n ==> cur < CloseN(st, i).indent)
    && (forall i :: 0 <= i < n - 1 ==> cur <= CloseN(st, i).prevIndent)
  }

  /** A pass of the loop that closes a block and goes on keeps `DedentShape`. */
  lemma DedentShapeStep(st: State, line: string, cur: nat, eol: string)
    requires Valid(st) && st.stack != [] && cur < st.indent && cur <= st.prevIndent
    requires DedentShape(Closed(st), line, cur, eol)
    ensures DedentShape(st, line, cur, eol)
  {
    var closed := Closed(st);
    var dd := Dedent(closed, line, cur, eol);
    var n' := |closed.stack| - |dd.0.stack|;
    DedentShapeIs(closed, line, cur, eol);
    DedentEndsStep(st, dd, n', line, cur, eol);
    DedentPass(st, line, cur, eol);
    DedentShapeIs(st, line, cur, eol);
    assert |st.stack| - |dd.0.stack| == n' + 1;
  }

  /** `DedentEnds` after closing one more block in front of the others. */
  lemma DedentEndsStep(st: State, dd: (State, bool), n: int, line: string, cur: nat, eol: string)
    requires Valid(st) && st.stack != [] && cur < st.indent && cur <= st.prevIndent
    requires DedentEnds(Closed(st), dd, n, line, cur, eol)
    ensures DedentEnds(st, dd, n + 1, line, cur, eol)
  {
    DeeperBlocksStep(st, n, cur);
    CloseNStep(st, n);
    if n > 0 {
      CloseNStep(st, n - 1);
    }
  }

  /** A pass of the loop that closes a block and goes on. */
  lemma DedentPass(st: State, line: string, cur: nat, eol: string)
    requires Valid(st) && st.stack != [] && cur < st.indent && cur <= st.prevIndent
    ensures Dedent(st, line, cur, eol) == Dedent(Closed(st), line, cur, eol)
  {
  }

  /** `DedentShape` is `DedentEnds` of the loop's result. */
  lemma DedentShapeIs(st: State, line: string, cur: nat, eol: string)
    requires Valid(st)
    ensures var dd := Dedent(st, line, cur, eol);
      DedentShape(st, line, cur, eol) == DedentEnds(st, dd, |st.stack| - |dd.0.stack|, line, cur, eol)
  {
  }

  /** Closing `n + 1` blocks is closing one and then `n`. */
  lemma CloseNStep(st: State, n: nat)
    requires Valid(st) && n < |st.stack|
    ensures CloseN(st, n + 1) == CloseN(Closed(st), n)
  {
  }

  /** One more block, indented deeper than `cur` and with its opener at least at `cur`, in front
      of `n` deeper blocks. */
  lemma DeeperBlocksStep(st: State, n: nat, cur: nat)
    requires Valid(st) && st.stack != [] && cur < st.indent && cur <= st.prevIndent
    requires n <= |Closed(st).stack| && DeeperBlocks(Closed(st), n, cur)
    ensures DeeperBlocks(st, n + 1, cur)
  {
    var closed := Closed(st);
    forall i | 0 <= i < n + 1 ensures cur < CloseN(st, i).indent {
      if i > 0 { CloseNStep(st, i - 1); }
    }
    forall i | 0 <= i < n ensures cur <= CloseN(st, i).prevIndent {
      if i > 0 { CloseNStep(st, i - 1); }
    }
  }

  /** A top-level opener and the lines indented under it parse into one macro node whose single
      child is the 'proc' node of their text, for the opener's processor or 'default'. */
  lemma ParseBlock(o: string, cs: seq<string>, eol: string, ids: nat)
    requires !IsEmpty(o) && Opens(o)
    requires cs != [] && !IsEmpty(cs[0]) && LeadingSpaces(cs[0]) > LeadingSpaces(o)
    requires forall k :: 0 <= k < |cs| ==> TextLine(cs[k], LeadingSpaces(cs[0]))
    ensures var cur := LeadingSpaces(o); var m := MatchBlock(o).value;
      var t := Merge("", cs, LeadingSpaces(cs[0]), eol);
      ParseLines([o] + cs, eol, ids).0 ==
        [Macro(o[cur..], m.name, ParamsOf(m.params).value,
               Items([TextNode(m.proc.GetOr("default"), t, ids)]))]
  {
    OpenedChildren(Init(ids), o, cs, eol);
    FirstChildText(cs, eol);
    var cur := LeadingSpaces(o);
    var n := LeadingSpaces(cs[0]);
    var m := MatchBlock(o).value;
    var t := Merge("", cs, n, eol);
    var frame := Frame(0, 0, "default", [], o[cur..], m.name, ParamsOf(m.params).value);
    var b := Run(Init(ids), [o] + cs, eol);
    assert b == State(n, cur, m.proc.GetOr("default"), t, [], [frame], ids);
    var fl := Flushed(b);
    assert fl.items == [TextNode(m.proc.GetOr("default"), t, ids)];
    assert fl.stack == [frame];
    assert ParseLines([o] + cs, eol, ids).0 == CloseAll(fl.items, fl.stack);
    assert CloseAll(fl.items, fl.stack) == CloseAll([] + [Macro(o[cur..], m.name, ParamsOf(m.params).value, Items(fl.items))], []);
  }

  // ---------------------------------------------------------------------------------------------
  // Writing a block opener

  /** The runs of spaces a writer may put into an opener: around the `:` of the prefix, before
      the `(`, and at the end of the line. */
  datatype OpenerGaps = OpenerGaps(beforeColon: nat, afterColon: nat, beforeParen: nat, trail: nat)

  /** The `proc :` prefix of an opener, when there is one. */
  function ProcPrefix(proc: Option<string>, g: OpenerGaps): string {
    match proc
    case None => ""
    case Some(p) => p + Spaces(g.beforeColon) + ":" + Spaces(g.afterColon)
  }

  /** `name (params)` and the spaces that end the line, as a writer lays them out. */
  function RenderCall(name: string, params: string, g: OpenerGaps): string {
    name + Spaces(g.beforeParen) + "(" + params + ")" + Spaces(g.trail)
  }

  /** The part of a written opener before the macro name: `lead` spaces, `||` and the prefix. */
  function OpenerHead(lead: nat, proc: Option<string>, g: OpenerGaps): string {
    Spaces(lead) + "||" + ProcPrefix(proc, g)
  }

  /** A block opener as a writer lays it out: `lead` spaces, then `||proc : name (params)` or
      `||name (params)`, with the runs of spaces `g`. */
  function RenderOpener(lead: nat, proc: Option<string>, name: string, params: string, g: OpenerGaps): string {
    OpenerHead(lead, proc, g) + RenderCall(name, params, g)
  }

  /** The leading spaces and the `||` of a written opener, whatever follows them. */
  lemma OpenerLead(lead: nat, proc: Option<string>, g: OpenerGaps, rest: string)
    ensures var w := OpenerHead(lead, proc, g) + rest;
      && MatchBlockLead(w) == Some(lead + 2) && LeadingSpaces(w) == lead
      && w[lead + 2..] == ProcPrefix(proc, g) + rest
  {
    var w := OpenerHead(lead, proc, g) + rest;
    var v := ProcPrefix(proc, g) + rest;
    assert w == Spaces(lead) + "||" + v;
    BarsAfterSpaces(w, lead, v);
  }

  /** `||` after `lead` spaces is found where it is written. */
  lemma BarsAfterSpaces(w: string, lead: nat, v: string)
    requires w == Spaces(lead) + "||" + v
    ensures MatchBlockLead(w) == Some(lead + 2) && LeadingSpaces(w) == lead && w[lead + 2..] == v
  {
    forall j | 0 <= j < lead ensures w[j] == ' ' {
      assert w[j] == Spaces(lead)[j];
    }
    assert w[lead] == "||"[0] && w[lead + 1] == "||"[1];
    SkipSpacesAt(w, 0, lead);
    LeadingSpacesIsSkip(w);
    assert w[lead + 2..] == v;
  }

  /** `([\w-]+) *\(([^()]*)\) *$` read at `k`, from the positions of its parts: the name ends at
      `b`, the `(` is at `c`, the `)` at `d`, and only spaces follow. */
  lemma MatchCallAt(w: string, proc: Option<string>, k: nat, b: nat, c: nat, d: nat)
    requires k < b <= c < d < |w|
    requires forall j :: k <= j < b ==> IsNameChar(w[j])
    requires !IsNameChar(w[b])
    requires forall j :: b <= j < c ==> w[j] == ' '
    requires w[c] == '(' && w[d] == ')'
    requires forall j :: c + 1 <= j < d ==> IsArgChar(w[j])
    requires forall j :: d + 1 <= j < |w| ==> w[j] == ' '
    ensures MatchBlockName(w, proc, k) == Some(BlockMatch(proc, w[k..b], w[c + 1..d]))
  {
    SkipWhileAt(w, k, IsNameChar, b);
    SkipSpacesAt(w, b, c);
    SkipWhileAt(w, c + 1, IsArgChar, d);
    SkipSpacesAt(w, d + 1, |w|);
  }

  /** Where the parts of a written `name (params)` lie once it starts at `k`. */
  lemma CallLayout(w: string, k: nat, name: string, params: string, g: OpenerGaps)
    requires IsInlineName(name)
    requires k <= |w| && w[k..] == RenderCall(name, params, g)
    ensures var b := k + |name|; var c := b + g.beforeParen; var d := c + 1 + |params|;
      && d < |w| && w[k..b] == name && w[c + 1..d] == params
      && (forall j :: k <= j < b ==> IsNameChar(w[j]))
      && (forall j :: b <= j < c ==> w[j] == ' ')
      && w[c] == '(' && w[d] == ')'
      && (forall j :: d + 1 <= j < |w| ==> w[j] == ' ')
  {
    var b := k + |name|;
    var c := b + g.beforeParen;
    var d := c + 1 + |params|;
    var t1 := name + Spaces(g.beforeParen);
    var t3 := t1 + "(" + params;
    var t4 := t3 + ")";
    assert w[k..] == t4 + Spaces(g.trail);
    assert w[k..d + 1] == t4;
    assert w[k..c] == t1;
    assert w[k..b] == name;
    assert w[c + 1..d] == params;
    forall j | k <= j < b ensures IsNameChar(w[j]) {
      assert w[j] == name[j - k];
    }
    forall j | b <= j < c ensures w[j] == ' ' {
      assert w[j] == t1[j - k];
    }
    forall j | d + 1 <= j < |w| ensures w[j] == ' ' {
      assert w[j] == w[k..][j - k];
    }
    assert w[c] == t3[c - k] && w[d] == t4[d - k];
  }

  /** A written `name (params)` that ends the line at `k` is read as that name and parameter
      text. */
  lemma MatchBlockNameAt(w: string, k: nat, proc: Option<string>, name: string, params: string, g: OpenerGaps)
    requires IsInlineName(name)
    requires forall j :: 0 <= j < |params| ==> IsArgChar(params[j])
    requires k <= |w| && w[k..] == RenderCall(name, params, g)
    ensures MatchBlockName(w, proc, k) == Some(BlockMatch(proc, name, params))
  {
    SpellsSuffix(w, k, RenderCall(name, params, g));
    MatchSpelledCall(w, k, proc, name, params, g);
  }

  /** `MatchBlockNameAt` for a call written character by character from `k` to the end. */
  lemma MatchSpelledCall(w: string, k: nat, proc: Option<string>, name: string, params: string, g: OpenerGaps)
    requires IsInlineName(name)
    requires forall j :: 0 <= j < |params| ==> IsArgChar(params[j])
    requires SpellsAt(w, k, RenderCall(name, params, g)) && k + |RenderCall(name, params, g)| == |w|
    ensures MatchBlockName(w, proc, k) == Some(BlockMatch(proc, name, params))
  {
    SpelledCallParts(w, k, name, params, g);
    var b := k + |name|;
    var c := b + g.beforeParen;
    MatchCallAt(w, proc, k, b, c, c + 1 + |params|);
  }

  /** Where the parts of a call written from `k` to the end lie. */
  lemma SpelledCallParts(w: string, k: nat, name: string, params: string, g: OpenerGaps)
    requires IsInlineName(name)
    requires forall j :: 0 <= j < |params| ==> IsArgChar(params[j])
    requires SpellsAt(w, k, RenderCall(name, params, g)) && k + |RenderCall(name, params, g)| == |w|
    ensures var b := k + |name|; var c := b + g.beforeParen; var d := c + 1 + |params|;
      && k < b <= c < d < |w| && w[k..b] == name && w[c + 1..d] == params
      && (forall j :: k <= j < b ==> IsNameChar(w[j]))
      && !IsNameChar(w[b])
      && (forall j :: b <= j < c ==> w[j] == ' ')
      && w[c] == '(' && w[d] == ')'
      && (forall j :: c + 1 <= j < d ==> IsArgChar(w[j]))
      && (forall j :: d + 1 <= j < |w| ==> w[j] == ' ')
  {
    var s1 := Spaces(g.beforeParen);
    var s2 := Spaces(g.trail);
    var a1 := name + s1;
    var a2 := a1 + "(";
    var a3 := a2 + params;
    var a4 := a3 + ")";
    assert RenderCall(name, params, g) == a4 + s2;
    SpellsSplit(w, k, a4, s2);
    SpellsSplit(w, k, a3, ")");
    SpellsSplit(w, k, a2, params);
    SpellsSplit(w, k, a1, "(");
    SpellsSplit(w, k, name, s1);
    var b := k + |name|;
    var c := b + g.beforeParen;
    var d := c + 1 + |params|;
    SpellsSlice(w, k, name);
    SpellsSlice(w, c + 1, params);
    forall j | k <= j < b ensures IsNameChar(w[j]) {
      assert w[k + (j - k)] == name[j - k];
    }
    forall j | b <= j < c ensures w[j] == ' ' {
      assert w[b + (j - b)] == s1[j - b];
    }
    assert w[c + 0] == "("[0];
    forall j | c + 1 <= j < d ensures IsArgChar(w[j]) {
      assert w[c + 1 + (j - c - 1)] == params[j - c - 1];
    }
    assert w[d + 0] == ")"[0];
    forall j | d + 1 <= j < |w| ensures w[j] == ' ' {
      assert w[d + 1 + (j - d - 1)] == s2[j - d - 1];
    }
    assert w[b] == ' ' || w[b] == '(';
  }

  /** The prefix `q :` written at `k` is read as such when no space follows it. */
  lemma MatchNamedPrefixAt(w: string, k: nat, q: string, g: OpenerGaps)
    requires IsInlineName(q) && SpellsAt(w, k, ProcPrefix(Some(q), g))
    requires var n := k + |ProcPrefix(Some(q), g)|; n == |w| || w[n] != ' '
    ensures MatchBlockPrefix(w, k) == BlockPrefix(Some(q), k + |ProcPrefix(Some(q), g)|)
  {
    var b := k + |q|;
    var c := b + g.beforeColon;
    var n := c + 1 + g.afterColon;
    var s1 := Spaces(g.beforeColon);
    var s2 := Spaces(g.afterColon);
    assert ProcPrefix(Some(q), g) == q + s1 + ":" + s2;
    SpellsSplit(w, k, q + s1 + ":", s2);
    SpellsSplit(w, k, q + s1, ":");
    SpellsSplit(w, k, q, s1);
    SpellsSlice(w, k, q);
    forall j | k <= j < b ensures IsNameChar(w[j]) {
      assert w[k + (j - k)] == q[j - k];
    }
    forall j | b <= j < c ensures w[j] == ' ' {
      assert w[b + (j - b)] == s1[j - b];
    }
    assert w[c + 0] == ":"[0];
    forall j | c + 1 <= j < n ensures w[j] == ' ' {
      assert w[c + 1 + (j - c - 1)] == s2[j - c - 1];
    }
    assert w[b] == ' ' || w[b] == ':';
    MatchPrefixPartsAt(w, k, b, c, n);
  }

  /** `([\w-]+) *: *` read at `k`, from the positions of its parts: the processor name ends at
      `b`, the `:` is at `c`, and the macro name starts at `n`. */
  lemma MatchPrefixPartsAt(w: string, k: nat, b: nat, c: nat, n: nat)
    requires k < b <= c < n <= |w|
    requires forall j :: k <= j < b ==> IsNameChar(w[j])
    requires !IsNameChar(w[b])
    requires forall j :: b <= j < c ==> w[j] == ' '
    requires w[c] == ':'
    requires forall j :: c + 1 <= j < n ==> w[j] == ' '
    requires n == |w| || w[n] != ' '
    ensures MatchBlockPrefix(w, k) == BlockPrefix(Some(w[k..b]), n)
  {
    SkipWhileAt(w, k, IsNameChar, b);
    SkipSpacesAt(w, b, c);
    SkipSpacesAt(w, c + 1, n);
  }

  /** With no `proc :` written, a macro name at `k` is not taken for a processor name. */
  lemma MatchBarePrefixAt(w: string, k: nat, name: string, params: string, g: OpenerGaps)
    requires IsInlineName(name)
    requires k <= |w| && w[k..] == RenderCall(name, params, g)
    ensures MatchBlockPrefix(w, k) == BlockPrefix(None, k)
  {
    CallLayout(w, k, name, params, g);
    var e := k + |name|;
    assert w[e] == ' ' || w[e] == '(';
    SkipWhileAt(w, k, IsNameChar, e);
    SkipSpacesAt(w, e, e + g.beforeParen);
  }

  /** The prefix `proc :` is read at `k`, and the name right after it. */
  lemma MatchPrefixAt(w: string, k: nat, proc: Option<string>, name: string, params: string, g: OpenerGaps)
    requires IsInlineName(name) && (proc.Some? ==> IsInlineName(proc.value))
    requires k <= |w| && w[k..] == ProcPrefix(proc, g) + RenderCall(name, params, g)
    ensures MatchBlockPrefix(w, k) == BlockPrefix(proc, k + |ProcPrefix(proc, g)|)
  {
    match proc {
      case None =>
        assert w[k..] == RenderCall(name, params, g);
        MatchBarePrefixAt(w, k, name, params, g);
      case Some(q) =>
        var pp := ProcPrefix(proc, g);
        var rest := RenderCall(name, params, g);
        assert rest[0] == name[0];
        SpellsSuffix(w, k, pp + rest);
        SpellsSplit(w, k, pp, rest);
        assert w[k + |pp| + 0] == rest[0];
        MatchNamedPrefixAt(w, k, q, g);
    }
  }

  /** A written opener is recognised with the processor, name and parameter text it was written
      with, whatever its runs of spaces, and its indentation is its leading spaces. */
  lemma MatchRenderedOpener(lead: nat, proc: Option<string>, name: string, params: string, g: OpenerGaps)
    requires IsInlineName(name) && (proc.Some? ==> IsInlineName(proc.value))
    requires forall k :: 0 <= k < |params| ==> IsArgChar(params[k])
    ensures var w := RenderOpener(lead, proc, name, params, g);
      MatchBlock(w) == Some(BlockMatch(proc, name, params)) && LeadingSpaces(w) == lead
  {
    var w := RenderOpener(lead, proc, name, params, g);
    var h := OpenerHead(lead, proc, g);
    OpenerLead(lead, proc, g, RenderCall(name, params, g));
    MatchPrefixAt(w, lead + 2, proc, name, params, g);
    assert |h| == lead + 2 + |ProcPrefix(proc, g)|;
    assert w[|h|..] == RenderCall(name, params, g);
    MatchBlockNameAt(w, |h|, proc, name, params, g);
    MatchBlockFrom(w, lead + 2, BlockPrefix(proc, |h|));
  }

  /** `MatchBlock` once the `||` and the prefix have been read. */
  lemma MatchBlockFrom(w: string, k: nat, p: BlockPrefix)
    requires MatchBlockLead(w) == Some(k) && MatchBlockPrefix(w, k) == p
    ensures MatchBlock(w) == MatchBlockName(w, p.proc, p.nameAt)
  {
  }

  /** A written opener opens a block exactly when its parameters parse; otherwise it is text. */
  lemma RenderedOpens(lead: nat, proc: Option<string>, name: string, params: string, g: OpenerGaps)
    requires IsInlineName(name) && (proc.Some? ==> IsInlineName(proc.value))
    requires forall k :: 0 <= k < |params| ==> IsArgChar(params[k])
    ensures Opens(RenderOpener(lead, proc, name, params, g)) <==> ParamsOf(params).Some?
  {
    MatchRenderedOpener(lead, proc, name, params, g);
  }

  /** The `name (params)` part and the end of a line that `MatchBlockName` accepts at `k`. */
  lemma CallSound(s: string, proc: Option<string>, k: nat)
    requires k <= |s| && MatchBlockName(s, proc, k).Some?
    ensures var m := MatchBlockName(s, proc, k).value;
      exists g: OpenerGaps :: g.beforeColon == 0 && g.afterColon == 0 && s[k..] == RenderCall(m.name, m.params, g)
  {
    var m := MatchBlockName(s, proc, k).value;
    var b := SkipWhile(s, k, IsNameChar);
    var c := SkipSpaces(s, b);
    SkipSpacesRun(s, b);
    var d := SkipWhile(s, c + 1, IsArgChar);
    SkipSpacesRun(s, d + 1);
    assert m.name == s[k..b] && m.params == s[c + 1..d];
    CallShape(s, k, b, c, d);
  }

  /** A call from its positions: the name ends at `b`, `(` is at `c` and `)` at `d`. */
  lemma CallShape(s: string, k: nat, b: nat, c: nat, d: nat)
    requires k <= b <= c < d < |s|
    requires forall j :: b <= j < c ==> s[j] == ' '
    requires s[c] == '(' && s[d] == ')'
    requires forall j :: d + 1 <= j < |s| ==> s[j] == ' '
    ensures s[k..] == RenderCall(s[k..b], s[c + 1..d], OpenerGaps(0, 0, c - b, |s| - d - 1))
  {
    SpacesSlice(s, b, c);
    SpacesSlice(s, d + 1, |s|);
    assert s[c..c + 1] == "(" && s[d..d + 1] == ")";
    Cut(s, k, b, c);
    Cut(s, k, c, c + 1);
    Cut(s, k, c + 1, d);
    Cut(s, k, d, d + 1);
    Cut(s, k, d + 1, |s|);
    assert s[k..|s|] == s[k..];
  }

  /** The `proc :` prefix that `MatchBlockPrefix` reads at `k`, with its runs of spaces. */
  lemma PrefixSound(s: string, k: nat, g: OpenerGaps)
    requires k <= |s|
    ensures var p := MatchBlockPrefix(s, k);
      exists g': OpenerGaps :: g'.beforeParen == g.beforeParen && g'.trail == g.trail
                               && s[k..p.nameAt] == ProcPrefix(p.proc, g')
  {
    var p := MatchBlockPrefix(s, k);
    if p.proc.Some? {
      var b := SkipWhile(s, k, IsNameChar);
      var c := SkipSpaces(s, b);
      SkipSpacesRun(s, b);
      SkipSpacesRun(s, c + 1);
      var g' := g.(beforeColon := c - b, afterColon := p.nameAt - c - 1);
      SpacesSlice(s, b, c);
      SpacesSlice(s, c + 1, p.nameAt);
      assert s[c..c + 1] == ":";
      Cut(s, k, b, c);
      Cut(s, k, c, c + 1);
      Cut(s, k, c + 1, p.nameAt);
      assert s[k..p.nameAt] == ProcPrefix(p.proc, g');
    } else {
      assert s[k..p.nameAt] == ProcPrefix(p.proc, g);
    }
  }

  /** A line cut into leading spaces, `||`, the prefix text up to `n` and the call text after it. */
  lemma OpenerShape(s: string, a: nat, n: nat, proc: Option<string>, name: string, params: string, g: OpenerGaps)
    requires a + 2 <= n <= |s| && s[a..a + 2] == "||"
    requires forall j :: 0 <= j < a ==> s[j] == ' '
    requires s[a + 2..n] == ProcPrefix(proc, g) && s[n..] == RenderCall(name, params, g)
    ensures s == RenderOpener(a, proc, name, params, g)
  {
    SpacesSlice(s, 0, a);
    Cut(s, 0, a, a + 2);
    Cut(s, 0, a + 2, n);
    Cut(s, 0, n, |s|);
    assert s[0..a] == s[..a] && s[0..|s|] == s && s[n..|s|] == s[n..];
  }

  /** Soundness of the recogniser: every line `R_BLOCK_MACRO` accepts is a written opener whose
      processor, name and parameter text are the match's groups. */
  lemma MatchBlockSound(s: string)
    requires MatchBlock(s).Some?
    ensures var m := MatchBlock(s).value;
      exists lead: nat, g: OpenerGaps :: s == RenderOpener(lead, m.proc, m.name, m.params, g)
  {
    var a := SkipSpaces(s, 0);
    SkipSpacesRun(s, 0);
    var k := a + 2;
    assert MatchBlockLead(s) == Some(k);
    assert s[a] == '|' && s[a + 1] == '|';
    assert s[a..k] == "||";
    var p := MatchBlockPrefix(s, k);
    OpenerSoundAt(s, a, p, MatchBlock(s).value);
  }

  /** An opener read from its parts: spaces up to `a`, `||`, the prefix `p` and the rest `m`. */
  lemma OpenerSoundAt(s: string, a: nat, p: BlockPrefix, m: BlockMatch)
    requires a + 2 <= |s| && s[a..a + 2] == "||"
    requires forall j :: 0 <= j < a ==> s[j] == ' '
    requires p == MatchBlockPrefix(s, a + 2) && MatchBlockName(s, p.proc, p.nameAt) == Some(m)
    ensures exists lead: nat, g: OpenerGaps :: s == RenderOpener(lead, m.proc, m.name, m.params, g)
  {
    CallSound(s, p.proc, p.nameAt);
    var g0: OpenerGaps :| g0.beforeColon == 0 && g0.afterColon == 0 && s[p.nameAt..] == RenderCall(m.name, m.params, g0);
    PrefixSound(s, a + 2, g0);
    var g: OpenerGaps :| g.beforeParen == g0.beforeParen && g.trail == g0.trail && s[a + 2..p.nameAt] == ProcPrefix(p.proc, g);
    assert RenderCall(m.name, m.params, g) == RenderCall(m.name, m.params, g0);
    OpenerShape(s, a, p.nameAt, m.proc, m.name, m.params, g);
  }
}
