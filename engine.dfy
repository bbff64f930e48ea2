/**
 * The expansion engine of core/macroed.js: a registry of processors (contexts) and of macros, and
 * the walk over the parsed tree. A text node is given to its processor and then each placeholder
 * of its inline table is replaced by the expansion of the inline macro it stands for; a macro node
 * is given to its macro, whose template has every `%s` replaced by the expanded children (a block
 * macro) or by the content (an inline macro). Unknown names give back the source text.
 *
 * A processor is its `process(content)` and a macro its `generate(params)`, both as function
 * values; the components a registration builds around them are not modelled.
 */
module Engine {
  import opened Wrappers
  import opened Strings
  import opened Ast
  import opened ParamParser
  import opened InlineScanner
  import opened BlockParser

  /** `Context.prototype.process`: the identity, the processor registered as 'default'. */
  const Identity: string -> string := (content: string) => content

  /** `Macro.prototype.generate`: the empty template. */
  const Blank: Dict -> string := (params: Dict) => ""

  /** The hole of a macro template, `/%s/`. */
  const Slot := "%s"

  class Macroed {
    /** `__procs`: the processors by name. */
    var procs: map<string, string -> string>
    /** `__macro`: the macros by name. */
    var macros: map<string, Dict -> string>
    /** The next fresh placeholder id drawn by the parser. */
    var ids: nat
    /** The parser's EOL separator. */
    const eol: string

    /** A fresh instance has no macros and the 'default' processor. */
    constructor (eol: string)
      ensures this.eol == eol && ids == 0
      ensures macros == map[] && procs == map["default" := Identity]
    {
      this.eol := eol;
      ids := 0;
      var none: map<string, Dict -> string> := map[];
      macros := none;
      var builtin: map<string, string -> string> := map["default" := Identity];
      procs := builtin;
    }

    /** `registerMacro(members)`: the macro is stored under its name, replacing any earlier one;
        without a `generate` of its own it has the empty template. */
    method RegisterMacro(name: string, generate: Option<Dict -> string>)
      modifies this
      ensures macros == old(macros)[name := generate.GetOr(Blank)]
      ensures procs == old(procs) && ids == old(ids)
    {
      macros := macros[name := generate.GetOr(Blank)];
    }

    /** `registerContext(members)`: the processor is stored under its name, replacing any earlier
        one; without a `process` of its own it is the identity. */
    method RegisterContext(name: string, process: Option<string -> string>)
      modifies this
      ensures procs == old(procs)[name := process.GetOr(Identity)]
      ensures macros == old(macros) && ids == old(ids)
    {
      procs := procs[name := process.GetOr(Identity)];
    }

    /** `expandNode(node)`: a node of type 'macro' is expanded as a macro, any other node is given
        to its processor. */
    function ExpandNode(node: Node): (r: string)
      reads this
      ensures node.Proc? && node.name !in procs ==> r == node.source
      ensures node.Proc? && node.name in procs && node.inline == [] ==> r == procs[node.name](node.content)
      ensures node.Macro? && node.name !in macros && (node.body.Content? || node.body.items == []) ==>
        r == node.source
      decreases node, 2
    {
      match node
      case Macro(_, _, _, _) => ExpandMacro(node)
      case Proc(_, _, _, _) => ApplyProc(node)
    }

    /** `expandNodeSet(items)`: the expansions of the items joined by EOL. */
    function ExpandNodeSet(items: seq<Node>): (r: string)
      reads this
      ensures items == [] ==> r == ""
      ensures |items| == 1 ==> r == ExpandNode(items[0])
      decreases items, 0
    {
      Join(seq(|items|, i requires 0 <= i < |items| reads this => ExpandNode(items[i])), eol)
    }

    /** `__applyProc(node)`: a registered processor's result on the content, with the inline table
        folded in entry by entry; the source as it is for an unknown processor. */
    function ApplyProc(node: Node): (r: string)
      requires node.Proc?
      reads this
      ensures node.name in procs && node.inline == [] ==> r == procs[node.name](node.content)
      decreases node, 1
    {
      if node.name in procs then InlineAll(procs[node.name](node.content), node.inline)
      else node.source
    }

    /** The `_.reduce` over the inline table, in table order. */
    function InlineAll(result: string, table: seq<Placed>): string
      reads this
      decreases table, 1
    {
      if table == [] then result else InlineAll(Inline(result, table[0]), table[1..])
    }

    /** `__inline(result, node, key)`: every occurrence of the key is replaced by the expansion of
        its node. */
    function Inline(result: string, entry: Placed): string
      reads this
      decreases entry, 0
    {
      ReplaceAll(result, entry.key, ExpandNode(entry.node))
    }

    /** `__expandMacro(node)`. An unknown macro gives its source, followed by EOL and the expanded
        children when it has a non-empty list of them. A registered macro's template is returned
        as it is when it has no `%s`; otherwise every `%s` is replaced by the expanded children of
        a block macro or by the content of an inline macro. */
    function ExpandMacro(node: Node): string
      requires node.Macro?
      reads this
      decreases node, 1
    {
      if node.name !in macros then
        if node.body.Items? && |node.body.items| > 0 then
          node.source + eol + ExpandNodeSet(node.body.items)
        else node.source
      else
        var template := macros[node.name](node.params);
        if !Contains(template, Slot) then template
        else
          var filler := if node.body.Items? then ExpandNodeSet(node.body.items) else node.body.content;
          ReplaceAll(template, Slot, filler)
    }

    /** `expandString(source)`: the source is parsed and its top-level nodes expanded. */
    method ExpandString(source: string) returns (r: string)
      modifies this
      ensures procs == old(procs) && macros == old(macros)
      ensures ids == ParseText(source, eol, old(ids)).1
      ensures r == ExpandNodeSet(ParseText(source, eol, old(ids)).0)
    {
      var items, next := Parse(source, eol, ids);
      ids := next;
      r := ExpandNodeSet(items);
    }
  
    // -------------------------------------------------------------------------------------------
    // Properties of the expansion

    /** An entry whose key does not occur in the result leaves it unchanged: processor output
        without the placeholder is not touched by that inline call. */
    lemma InlineAbsent(result: string, entry: Placed)
      requires entry.key != "" && !Contains(result, entry.key)
      ensures Inline(result, entry) == result
    {
      ReplaceAbsent(result, entry.key, ExpandNode(entry.node));
    }

    /** The fold over the inline table applies the entries in table order: one more entry at the
        end replaces its key in the result of the others. */
    lemma {:induction false} InlineAllSnoc(result: string, table: seq<Placed>, entry: Placed)
      ensures InlineAll(result, table + [entry]) == Inline(InlineAll(result, table), entry)
      decreases |table|
    {
      if table == [] {
        assert [] + [entry] == [entry];
        assert [entry][1..] == [];
      } else {
        assert (table + [entry])[1..] == table[1..] + [entry];
        InlineAllSnoc(Inline(result, table[0]), table[1..], entry);
      }
    }

    /** A text node of a registered processor: after the first entries of its table, the next
        entry's key is replaced everywhere in the result by the expansion of its inline macro. */
    lemma ProcInlineEntry(name: string, source: string, content: string, table: seq<Placed>, entry: Placed)
      requires name in procs
      ensures ExpandNode(Proc(name, source, content, table + [entry]))
        == ReplaceAll(ExpandNode(Proc(name, source, content, table)), entry.key, ExpandNode(entry.node))
    {
      InlineAllSnoc(procs[name](content), table, entry);
    }

    /** A macro node of an unknown macro expands to its source, followed by EOL and its expanded
        children only when it has a non-empty list of them. */
    lemma UnknownMacroIsSource(node: Node)
      requires node.Macro? && node.name !in macros
      ensures node.body.Content? || node.body.items == [] ==> ExpandNode(node) == node.source
      ensures node.body.Items? && node.body.items != [] ==>
        ExpandNode(node) == node.source + eol + ExpandNodeSet(node.body.items)
    {
    }

    /** A registered macro whose template has no `%s` expands to the template whatever its
        children or content, which agrees with replacing every `%s` in it. */
    lemma TemplateWithoutSlot(node: Node, other: Body)
      requires node.Macro? && node.name in macros
      requires !Contains(macros[node.name](node.params), Slot)
      ensures ExpandNode(node) == macros[node.name](node.params)
      ensures ExpandNode(node.(body := other)) == ExpandNode(node)
      ensures forall filler :: ReplaceAll(macros[node.name](node.params), Slot, filler) == ExpandNode(node)
    {
      var template := macros[node.name](node.params);
      forall filler ensures ReplaceAll(template, Slot, filler) == template {
        ReplaceAbsent(template, Slot, filler);
      }
    }

    /** A registered macro whose template has `%s` expands to the template with every `%s`
        replaced by the expanded children of a block macro, or by the content of an inline one. */
    lemma TemplateFilled(node: Node)
      requires node.Macro? && node.name in macros
      requires Contains(macros[node.name](node.params), Slot)
      ensures node.body.Items? ==>
        ExpandNode(node) == ReplaceAll(macros[node.name](node.params), Slot, ExpandNodeSet(node.body.items))
      ensures node.body.Content? ==>
        ExpandNode(node) == ReplaceAll(macros[node.name](node.params), Slot, node.body.content)
    {
    }

    /** `expandNodeSet` of no items is empty, of one item is that item's expansion, and of two
        non-empty lists is their expansions joined by EOL. */
    lemma ExpandNodeSetJoin(xs: seq<Node>, ys: seq<Node>)
      ensures ExpandNodeSet([]) == ""
      ensures xs != [] ==> ExpandNodeSet([xs[0]]) == ExpandNode(xs[0])
      ensures xs != [] && ys != [] ==>
        ExpandNodeSet(xs + ys) == ExpandNodeSet(xs) + eol + ExpandNodeSet(ys)
    {
      if xs != [] && ys != [] {
        var f := (n: Node) reads this => ExpandNode(n);
        var a := seq(|xs|, i requires 0 <= i < |xs| reads this => ExpandNode(xs[i]));
        var b := seq(|ys|, i requires 0 <= i < |ys| reads this => ExpandNode(ys[i]));
        var ab := seq(|xs + ys|, i requires 0 <= i < |xs + ys| reads this => ExpandNode((xs + ys)[i]));
        assert ab == a + b;
        JoinAppend(a, b, eol);
      }
    }

    /** With the built-in 'default' processor, text lines without block openers and without `{{`
        expand back to themselves joined by EOL. */
    lemma PlainTextRoundTrip(lines: seq<string>, ids: nat)
      requires "default" in procs && procs["default"] == Identity
      requires lines != []
      requires forall k :: 0 <= k < |lines| ==> !IsEmpty(lines[k]) && !Opens(lines[k])
      requires var t := Join(lines, eol);
        forall j :: 0 <= j < |t| - 1 ==> !(t[j] == '{' && t[j + 1] == '{')
      ensures ExpandNodeSet(ParseLines(lines, eol, ids).0) == Join(lines, eol)
    {
      var t := Join(lines, eol);
      TextLinesMerge(lines, eol, ids);
      NoBracesNoMatch(t);
      NoMatchUnchanged(t, 0, ids);
      assert t[0..] == t;
      var node := TextNode("default", t, ids);
      assert node.content == t && node.inline == [];
      assert Identity(t) == t;
      assert ExpandNodeSet([node]) == ExpandNode(node);
    }
  
    /** A block macro with indented text children, parsed and expanded: an unknown macro gives its
        opener line's text, EOL and the expanded children; a registered one gives its template,
        with every `%s` replaced by the expanded children when it has one. */
    lemma ParsedBlockExpansion(o: string, cs: seq<string>, ids: nat)
      requires !IsEmpty(o) && Opens(o)
      requires cs != [] && !IsEmpty(cs[0]) && LeadingSpaces(cs[0]) > LeadingSpaces(o)
      requires forall k :: 0 <= k < |cs| ==> TextLine(cs[k], LeadingSpaces(cs[0]))
      ensures var m := MatchBlock(o).value; var d := ParamsOf(m.params).value;
        var child := TextNode(m.proc.GetOr("default"), Merge("", cs, LeadingSpaces(cs[0]), eol), ids);
        var r := ExpandNodeSet(ParseLines([o] + cs, eol, ids).0);
        && (m.name !in macros ==> r == o[LeadingSpaces(o)..] + eol + ExpandNode(child))
        && (m.name in macros && !Contains(macros[m.name](d), Slot) ==> r == macros[m.name](d))
        && (m.name in macros && Contains(macros[m.name](d), Slot) ==>
              r == ReplaceAll(macros[m.name](d), Slot, ExpandNode(child)))
    {
      ParseBlock(o, cs, eol, ids);
      var m := MatchBlock(o).value;
      var d := ParamsOf(m.params).value;
      var child := TextNode(m.proc.GetOr("default"), Merge("", cs, LeadingSpaces(cs[0]), eol), ids);
      var node := Macro(o[LeadingSpaces(o)..], m.name, d, Items([child]));
      assert ExpandNodeSet(ParseLines([o] + cs, eol, ids).0) == ExpandNode(node);
      if m.name !in macros {
        UnknownMacroIsSource(node);
      } else if Contains(macros[m.name](d), Slot) {
        TemplateFilled(node);
      } else {
        TemplateWithoutSlot(node, node.body);
      }
    }
  }
}
