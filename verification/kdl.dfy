/** The KDL document tree, as the `kdl` crate hands it to the converter:
    a document is an ordered list of nodes; a node has a name, an ordered
    list of entries and an optional children block; an entry is a
    positional argument (no name) or a property (a name). */
module Kdl {
  import opened Results
  import opened Numbers

  datatype KdlValue =
    | String(s: string)
    | Integer(i: I128)
    | Float(f: F64)
    | Bool(b: bool)
    | Null

  datatype KdlEntry = KdlEntry(name: Option<string>, value: KdlValue)

  /** `children` is `None` when the node has no `{ … }` block, and
      `Some` of a possibly empty document when it has one. */
  datatype KdlNode = KdlNode(name: string, entries: seq<KdlEntry>, children: Option<KdlDocument>)

  datatype KdlDocument = KdlDocument(nodes: seq<KdlNode>)

  /** The integer payload of a value, if it has one. */
  function ValueIntegers(v: KdlValue): seq<int>
  {
    if v.Integer? then [v.i] else []
  }

  /** The integer payloads of a list of entries, in entry order. */
  function EntryIntegers(es: seq<KdlEntry>): seq<int>
  {
    if |es| == 0 then []
    else ValueIntegers(es[0].value) + EntryIntegers(es[1..])
  }

  /** Every integer payload of a node, in pre-order: the node's own entries
      first, then those of its children block. */
  function NodeIntegers(n: KdlNode): seq<int>
    decreases n, 1
  {
    EntryIntegers(n.entries) + (if n.children.Some? then DocumentIntegers(n.children.value) else [])
  }

  function NodesIntegers(ns: seq<KdlNode>): seq<int>
    decreases ns
  {
    if |ns| == 0 then [] else NodeIntegers(ns[0]) + NodesIntegers(ns[1..])
  }

  /** Every integer payload of a document, in pre-order, earlier siblings
      (with their whole subtrees) before later ones. */
  function DocumentIntegers(d: KdlDocument): seq<int>
    decreases d, 0
  {
    NodesIntegers(d.nodes)
  }
}
