/**
 * The values the parser builds and the engine consumes: parameter dictionaries and the node tree.
 */
module Ast {
  import opened Wrappers

  /** The value stored under one parameter name. `Scalar(None)` is JavaScript's `undefined`: a
      bare name, or a value that was written as `""`. A name given more than once holds the list
      of its values in input order. */
  datatype ParamValue = Scalar(value: Option<string>) | Multi(values: seq<Option<string>>)

  /** A JavaScript object used as a dictionary: `keys` in insertion order and the stored values. */
  datatype Dict = Dict(keys: seq<string>, values: map<string, ParamValue>)

  const EmptyDict := Dict([], map[])

  /** The keys are distinct and are exactly the names that hold a value. */
  ghost predicate WellFormed(d: Dict) {
    && (forall i, j :: 0 <= i < j < |d.keys| ==> d.keys[i] != d.keys[j])
    && (forall k :: k in d.values <==> k in d.keys)
  }

  /** What a macro node carries below its header: the child nodes of a block macro (the
      `items` array), or the text after the colon of an inline macro (the `content` string). */
  datatype Body = Items(items: seq<Node>) | Content(content: string)

  /** A node of the tree.
      `Proc` is a node of type 'proc': a run of text for processor `name`, with its inline
      macros replaced by placeholders in `content` and recorded in `inline`.
      `Macro` is a node of type 'macro': a block macro (`||name(params)`) with child items, or an
      inline macro (`{{name(params):content}}`) from an inline table. */
  datatype Node =
    | Proc(name: string, source: string, content: string, inline: seq<Placed>)
    | Macro(source: string, name: string, params: Dict, body: Body)

  /** One entry of an inline table: a placeholder key and the inline macro it stands for. */
  datatype Placed = Placed(key: string, node: Node)
}
