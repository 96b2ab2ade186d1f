/** Reading a KDL tree back out of the Nushell value the converter builds.
    This is the reference against which the converter's shape is checked:
    it accepts exactly the layout `{name, entries?, children?}` with
    `{name, value}` entries, and rebuilds the tree from it. */
module DecodeNu {
  import opened Results
  import opened Numbers
  import opened Kdl
  import opened Nu

  function DecodeValue(v: NuValue): (r: Option<KdlValue>)
    ensures r.Some? <==> !v.List? && !v.Record?
  {
    match v
    case String(s) => Some(KdlValue.String(s))
    case Int(i) => Some(KdlValue.Integer(i))
    case Float(f) => Some(KdlValue.Float(f))
    case Bool(b) => Some(KdlValue.Bool(b))
    case Nothing => Some(Null)
    case List(_) => None
    case Record(_) => None
  }

  /** A property name is a string, a positional argument's is nothing. */
  function DecodeName(v: NuValue): (r: Option<Option<string>>)
    ensures r.Some? <==> v.String? || v.Nothing?
  {
    match v
    case String(s) => Some(Some(s))
    case Nothing => Some(None)
    case _ => None
  }

  function DecodeEntry(v: NuValue): (r: Option<KdlEntry>)
    ensures r.Some? ==> v.Record? && Columns(v.fields) == ["name", "value"]
  {
    if v.Record? && |v.fields| == 2 && v.fields[0].column == "name" && v.fields[1].column == "value" then
      match (DecodeName(v.fields[0].val), DecodeValue(v.fields[1].val))
      case (Some(name), Some(value)) => Some(KdlEntry(name, value))
      case _ => None
    else None
  }

  function DecodeEntries(items: seq<NuValue>): (r: Option<seq<KdlEntry>>)
    ensures r.Some? <==> forall k :: 0 <= k < |items| ==> DecodeEntry(items[k]).Some?
    ensures r.Some? ==> |r.value| == |items|
    ensures r.Some? ==> forall k :: 0 <= k < |items| ==> DecodeEntry(items[k]) == Some(r.value[k])
  {
    if |items| == 0 then Some([])
    else
      match (DecodeEntry(items[0]), DecodeEntries(items[1..]))
      case (Some(e), Some(es)) => Some([e] + es)
      case _ => None
  }

  /** The `entries` column: a non-empty list of entry records. */
  function DecodeEntryList(v: NuValue): (r: Option<seq<KdlEntry>>)
    ensures r.Some? ==> 0 < |r.value|
  {
    if v.List? && 0 < |v.items| then DecodeEntries(v.items) else None
  }

  function DecodeNode(v: NuValue): (r: Option<KdlNode>)
    decreases v, 1
  {
    if v.Record? && 0 < |v.fields| && v.fields[0].column == "name" && v.fields[0].val.String? then
      var name := v.fields[0].val.s;
      var fs := v.fields;
      if |fs| == 1 then
        Some(KdlNode(name, [], None))
      else if |fs| == 2 && fs[1].column == "entries" then
        match DecodeEntryList(fs[1].val)
        case Some(es) => Some(KdlNode(name, es, None))
        case None => None
      else if |fs| == 2 && fs[1].column == "children" then
        match DecodeDocument(fs[1].val)
        case Some(d) => Some(KdlNode(name, [], Some(d)))
        case None => None
      else if |fs| == 3 && fs[1].column == "entries" && fs[2].column == "children" then
        match (DecodeEntryList(fs[1].val), DecodeDocument(fs[2].val))
        case (Some(es), Some(d)) => Some(KdlNode(name, es, Some(d)))
        case _ => None
      else None
    else None
  }

  function DecodeNodes(items: seq<NuValue>): (r: Option<seq<KdlNode>>)
    decreases items
    ensures r.Some? <==> forall k :: 0 <= k < |items| ==> DecodeNode(items[k]).Some?
    ensures r.Some? ==> |r.value| == |items|
    ensures r.Some? ==> forall k :: 0 <= k < |items| ==> DecodeNode(items[k]) == Some(r.value[k])
  {
    if |items| == 0 then Some([])
    else
      match (DecodeNode(items[0]), DecodeNodes(items[1..]))
      case (Some(n), Some(ns)) => Some([n] + ns)
      case _ => None
  }

  function DecodeDocument(v: NuValue): (r: Option<KdlDocument>)
    decreases v, 0
    ensures r.Some? ==> v.List? && |r.value.nodes| == |v.items|
  {
    if v.List? then
      match DecodeNodes(v.items)
      case Some(ns) => Some(KdlDocument(ns))
      case None => None
    else None
  }
}
