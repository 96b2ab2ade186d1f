/** The `from kdl` converter: a KDL document becomes a Nushell list of node
    records, each node `{name, entries?, children?}`, each entry
    `{name, value}`. The only partial step is narrowing a KDL integer (an
    `i128`) to a Nushell integer (an `i64`); its error ends the whole
    conversion, as `?` and `collect::<Result<Vec<_>, _>>()` do. */
module FromKdl {
  import opened Results
  import opened Numbers
  import opened Kdl
  import opened Nu
  import opened DecodeNu

  /** The parse error of the `kdl` crate; its diagnostics are rendered
      elsewhere and are carried here as text. */
  datatype KdlError = KdlError(diagnostics: string)

  datatype Error =
    | KdlParseError(cause: KdlError)
    | BadConversion(from: string, to: string, value: Option<string>)

  /** The error for a KDL integer outside the range of `i64`. */
  function Overflow(i: int): Error {
    BadConversion("i128", "i64", Some(DecimalText(i)))
  }

  function ConvertValue(v: KdlValue): (r: Result<NuValue, Error>)
    ensures r.Failure? <==> v.Integer? && !FitsI64(v.i)
    ensures r.Failure? ==> r.error == Overflow(v.i)
    ensures v.Integer? && FitsI64(v.i) ==> r == Success(NuValue.Int(v.i))
    ensures v.String? ==> r == Success(NuValue.String(v.s))
    ensures v.Float? ==> r == Success(NuValue.Float(v.f))
    ensures v.Bool? ==> r == Success(NuValue.Bool(v.b))
    ensures v.Null? ==> r == Success(Nothing)
  {
    match v
    case String(s) => Success(NuValue.String(s))
    case Integer(i) =>
      if FitsI64(i) then Success(NuValue.Int(i)) else Failure(Overflow(i))
    case Float(f) => Success(NuValue.Float(f))
    case Bool(b) => Success(NuValue.Bool(b))
    case Null => Success(Nothing)
  }

  /** The `name` column of an entry record: the property's identifier, or
      nothing for a positional argument. */
  function EntryName(name: Option<string>): (r: NuValue)
    ensures r.String? <==> name.Some?
    ensures r.String? ==> r.s == name.value
    ensures name.None? ==> r == Nothing
  {
    match name
    case Some(ident) => NuValue.String(ident)
    case None => Nothing
  }

  /** One entry as the record `{name, value}`. */
  function ConvertEntry(e: KdlEntry): (r: Result<NuValue, Error>)
    ensures r.Success? <==> ConvertValue(e.value).Success?
    ensures r.Failure? ==> r.error == ConvertValue(e.value).error
    ensures r.Success? ==> r.value.Record? && Columns(r.value.fields) == ["name", "value"]
    ensures r.Success? ==> r.value.fields[0].val == EntryName(e.name)
    ensures r.Success? ==> r.value.fields[1].val == ConvertValue(e.value).value
  {
    var value :- ConvertValue(e.value);
    Success(Record([Field("name", EntryName(e.name)), Field("value", value)]))
  }

  /** `iter().map(convert_entry).collect()`: every entry converted, in
      order, or the error of the first entry that fails. */
  function CollectEntries(es: seq<KdlEntry>): (r: Result<seq<NuValue>, Error>)
    ensures r.Success? <==> forall k :: 0 <= k < |es| ==> ConvertEntry(es[k]).Success?
    ensures r.Success? ==> |r.value| == |es|
    ensures r.Success? ==> forall k :: 0 <= k < |es| ==> ConvertEntry(es[k]) == Success(r.value[k])
    ensures r.Failure? ==>
      exists k :: 0 <= k < |es| && ConvertEntry(es[k]) == Failure(r.error) &&
        forall j :: 0 <= j < k ==> ConvertEntry(es[j]).Success?
  {
    if |es| == 0 then Success([])
    else
      var head :- ConvertEntry(es[0]);
      var tail :- CollectEntries(es[1..]);
      Success([head] + tail)
  }

  /** The `entries` column of a node: a list with one `{name, value}`
      record per entry, in order. */
  function ConvertEntries(es: seq<KdlEntry>): (r: Result<NuValue, Error>)
    ensures r.Success? <==> forall k :: 0 <= k < |es| ==> ConvertValue(es[k].value).Success?
    ensures r.Success? ==> r.value.List? && |r.value.items| == |es|
    ensures r.Success? ==> forall k :: 0 <= k < |es| ==>
      var item := r.value.items[k];
      && item.Record?
      && Columns(item.fields) == ["name", "value"]
      && item.fields[0].val == EntryName(es[k].name)
      && item.fields[1].val == ConvertValue(es[k].value).value
    ensures r.Failure? ==>
      exists k :: 0 <= k < |es| && ConvertValue(es[k].value) == Failure(r.error) &&
        forall j :: 0 <= j < k ==> ConvertValue(es[j].value).Success?
  {
    var items :- CollectEntries(es);
    Success(List(items))
  }

  /** A column that is pushed only when a value is present. */
  function Present(r: Result<NuValue, Error>): (o: Result<Option<NuValue>, Error>)
    ensures o.Success? <==> r.Success?
    ensures o.Success? ==> o.value == Some(r.value)
    ensures o.Failure? ==> o.error == r.error
  {
    var v :- r;
    Success(Some(v))
  }

  /** The record `convert_node` builds: `name` first, then `entries` and
      `children` each pushed only when present. */
  function NodeRecord(name: string, entries: Option<NuValue>, children: Option<NuValue>): (r: NuValue)
    ensures r.Record?
    ensures Columns(r.fields) ==
      ["name"] + (if entries.Some? then ["entries"] else []) + (if children.Some? then ["children"] else [])
    ensures r.fields[0] == Field("name", NuValue.String(name))
    ensures Get(r.fields, "entries") == entries
    ensures Get(r.fields, "children") == children
  {
    var named := Field("name", NuValue.String(name));
    match (entries, children)
    case (None, None) => Record([named])
    case (Some(es), None) => Record([named, Field("entries", es)])
    case (None, Some(cs)) => Record([named, Field("children", cs)])
    case (Some(es), Some(cs)) => Record([named, Field("entries", es), Field("children", cs)])
  }

  /** One node as the record `{name, entries?, children?}`. */
  function ConvertNode(n: KdlNode): (r: Result<NuValue, Error>)
    decreases n, 1
    ensures r.Success? <==>
      && (|n.entries| == 0 || ConvertEntries(n.entries).Success?)
      && (n.children.None? || ConvertDocument(n.children.value).Success?)
    ensures r.Success? ==> r.value.Record?
    ensures r.Success? ==>
      Columns(r.value.fields) == ["name"] + (if |n.entries| > 0 then ["entries"] else []) + (if n.children.Some? then ["children"] else [])
    ensures r.Success? ==> r.value.fields[0].val == NuValue.String(n.name)
    ensures r.Success? && |n.entries| > 0 ==>
      ConvertEntries(n.entries).Success? && Get(r.value.fields, "entries") == Some(ConvertEntries(n.entries).value)
    ensures r.Success? && n.children.Some? ==>
      ConvertDocument(n.children.value).Success? &&
      Get(r.value.fields, "children") == Some(ConvertDocument(n.children.value).value)
    ensures r.Failure? && |n.entries| > 0 && ConvertEntries(n.entries).Failure? ==>
      r.error == ConvertEntries(n.entries).error
    ensures r.Failure? && (|n.entries| == 0 || ConvertEntries(n.entries).Success?) ==>
      n.children.Some? && ConvertDocument(n.children.value).Failure? &&
      r.error == ConvertDocument(n.children.value).error
  {
    var entries :- if |n.entries| > 0 then Present(ConvertEntries(n.entries)) else Success(None);
    var children :- if n.children.Some? then Present(ConvertDocument(n.children.value)) else Success(None);
    Success(NodeRecord(n.name, entries, children))
  }

  /** `iter().map(convert_node).collect()`: every node converted, in
      order, or the error of the first node that fails. */
  function CollectNodes(ns: seq<KdlNode>): (r: Result<seq<NuValue>, Error>)
    decreases ns
    ensures r.Success? <==> forall k :: 0 <= k < |ns| ==> ConvertNode(ns[k]).Success?
    ensures r.Success? ==> |r.value| == |ns|
    ensures r.Success? ==> forall k :: 0 <= k < |ns| ==> ConvertNode(ns[k]) == Success(r.value[k])
    ensures r.Failure? ==>
      exists k :: 0 <= k < |ns| && ConvertNode(ns[k]) == Failure(r.error) &&
        forall j :: 0 <= j < k ==> ConvertNode(ns[j]).Success?
  {
    if |ns| == 0 then Success([])
    else
      var head :- ConvertNode(ns[0]);
      var tail :- CollectNodes(ns[1..]);
      Success([head] + tail)
  }

  /** A document as the list of its node records, in order. */
  function ConvertDocument(d: KdlDocument): (r: Result<NuValue, Error>)
    decreases d, 0
    ensures r.Success? <==> forall k :: 0 <= k < |d.nodes| ==> ConvertNode(d.nodes[k]).Success?
    ensures r.Success? ==> r.value.List? && |r.value.items| == |d.nodes|
    ensures r.Success? ==> forall k :: 0 <= k < |d.nodes| ==> ConvertNode(d.nodes[k]) == Success(r.value.items[k])
    ensures r.Failure? ==>
      exists k :: 0 <= k < |d.nodes| && ConvertNode(d.nodes[k]) == Failure(r.error) &&
        forall j :: 0 <= j < k ==> ConvertNode(d.nodes[j]).Success?
  {
    var items :- CollectNodes(d.nodes);
    Success(List(items))
  }

  // Round trip: the converter loses nothing of the tree it models.

  lemma EntryRoundTrip(e: KdlEntry)
    ensures ConvertEntry(e).Success? ==> DecodeEntry(ConvertEntry(e).value) == Some(e)
  {
  }

  lemma EntriesRoundTrip(es: seq<KdlEntry>)
    requires 0 < |es|
    ensures ConvertEntries(es).Success? ==> DecodeEntryList(ConvertEntries(es).value) == Some(es)
  {
    var r := ConvertEntries(es);
    if r.Success? {
      var items := CollectEntries(es).value;
      assert r.value == List(items);
      forall k | 0 <= k < |es|
        ensures DecodeEntry(items[k]) == Some(es[k])
      {
        EntryRoundTrip(es[k]);
      }
      var decoded := DecodeEntries(items).value;
      assert decoded == es;
    }
  }

  lemma DecodeNodeRecord(name: string, es: seq<KdlEntry>, entries: Option<NuValue>,
                         c: Option<KdlDocument>, children: Option<NuValue>)
    requires entries.Some? <==> 0 < |es|
    requires entries.Some? ==> DecodeEntryList(entries.value) == Some(es)
    requires children.Some? <==> c.Some?
    requires children.Some? ==> DecodeDocument(children.value) == Some(c.value)
    ensures DecodeNode(NodeRecord(name, entries, children)) == Some(KdlNode(name, es, c))
  {
    var fs := NodeRecord(name, entries, children).fields;
    match (entries, children)
    case (None, None) =>
      assert fs == [Field("name", NuValue.String(name))];
    case (Some(ev), None) =>
      assert fs == [Field("name", NuValue.String(name)), Field("entries", ev)];
    case (None, Some(cv)) =>
      assert fs == [Field("name", NuValue.String(name)), Field("children", cv)];
    case (Some(ev), Some(cv)) =>
      assert fs == [Field("name", NuValue.String(name)), Field("entries", ev), Field("children", cv)];
  }

  lemma {:induction false} NodeRoundTrip(n: KdlNode)
    decreases n, 1
    ensures ConvertNode(n).Success? ==> DecodeNode(ConvertNode(n).value) == Some(n)
  {
    if ConvertNode(n).Success? {
      var entries := if |n.entries| > 0 then Some(ConvertEntries(n.entries).value) else None;
      var children := if n.children.Some? then Some(ConvertDocument(n.children.value).value) else None;
      assert ConvertNode(n).value == NodeRecord(n.name, entries, children);
      if |n.entries| > 0 {
        EntriesRoundTrip(n.entries);
      }
      if n.children.Some? {
        DocumentRoundTrip(n.children.value);
      }
      DecodeNodeRecord(n.name, n.entries, entries, n.children, children);
    }
  }

  lemma {:induction false} DocumentRoundTrip(d: KdlDocument)
    decreases d, 0
    ensures ConvertDocument(d).Success? ==> DecodeDocument(ConvertDocument(d).value) == Some(d)
  {
    var r := ConvertDocument(d);
    if r.Success? {
      var items := r.value.items;
      forall k | 0 <= k < |d.nodes|
        ensures DecodeNode(items[k]) == Some(d.nodes[k])
      {
        NodeRoundTrip(d.nodes[k]);
      }
      var decoded := DecodeNodes(items).value;
      assert decoded == d.nodes;
    }
  }

  /** Two documents that convert to the same value are the same document:
      in particular a missing children block and an empty one, or a
      positional argument and a property, are never confused. */
  lemma ConvertDocumentInjective(d1: KdlDocument, d2: KdlDocument)
    requires ConvertDocument(d1).Success? && ConvertDocument(d2).Success?
    requires ConvertDocument(d1).value == ConvertDocument(d2).value
    ensures d1 == d2
  {
    DocumentRoundTrip(d1);
    DocumentRoundTrip(d2);
  }

  // Which error, if any: the first out-of-range integer in pre-order.

  function ErrorOf<T>(r: Result<T, Error>): (e: Option<Error>)
    ensures e.Some? <==> r.Failure?
    ensures e.Some? ==> e.value == r.error
  {
    if r.Failure? then Some(r.error) else None
  }

  /** The error a conversion must end in when its integer payloads, in
      traversal order, are `xs`. */
  function OverflowOf(xs: seq<int>): (e: Option<Error>)
    ensures e.None? <==> forall k :: 0 <= k < |xs| ==> FitsI64(xs[k])
  {
    match FirstOutOfRange(xs)
    case None => None
    case Some(i) => Some(Overflow(i))
  }

  lemma {:induction false} CollectEntriesOutcome(es: seq<KdlEntry>)
    ensures ErrorOf(CollectEntries(es)) == OverflowOf(EntryIntegers(es))
  {
    if |es| > 0 {
      CollectEntriesOutcome(es[1..]);
      FirstOutOfRangeAppend(ValueIntegers(es[0].value), EntryIntegers(es[1..]));
    }
  }

  lemma {:induction false} NodeOutcome(n: KdlNode)
    decreases n, 1
    ensures ErrorOf(ConvertNode(n)) == OverflowOf(NodeIntegers(n))
  {
    CollectEntriesOutcome(n.entries);
    var below := if n.children.Some? then DocumentIntegers(n.children.value) else [];
    if n.children.Some? {
      DocumentOutcome(n.children.value);
    }
    FirstOutOfRangeAppend(EntryIntegers(n.entries), below);
  }

  lemma {:induction false} NodesOutcome(ns: seq<KdlNode>)
    decreases ns
    ensures ErrorOf(CollectNodes(ns)) == OverflowOf(NodesIntegers(ns))
  {
    if |ns| > 0 {
      NodeOutcome(ns[0]);
      NodesOutcome(ns[1..]);
      FirstOutOfRangeAppend(NodeIntegers(ns[0]), NodesIntegers(ns[1..]));
    }
  }

  lemma {:induction false} DocumentOutcome(d: KdlDocument)
    decreases d, 0
    ensures ErrorOf(ConvertDocument(d)) == OverflowOf(DocumentIntegers(d))
  {
    NodesOutcome(d.nodes);
  }

  /** A document converts exactly when every integer at every depth fits
      in `i64`; otherwise the error names the first one that does not, in
      pre-order (a node's entries before its children, earlier siblings
      before later ones). */
  lemma ConversionOutcome(d: KdlDocument)
    ensures ConvertDocument(d).Success? <==>
      forall k :: 0 <= k < |DocumentIntegers(d)| ==> FitsI64(DocumentIntegers(d)[k])
    ensures ConvertDocument(d).Failure? ==>
      FirstOutOfRange(DocumentIntegers(d)).Some? &&
      ConvertDocument(d).error == Overflow(FirstOutOfRange(DocumentIntegers(d)).value)
  {
    DocumentOutcome(d);
  }

  /** `parse`: the library's parse result, then `convert_document`. */
  function Parse(parsed: Result<KdlDocument, KdlError>): (r: Result<NuValue, Error>)
    ensures parsed.Failure? ==> r == Failure(KdlParseError(parsed.error))
    ensures r.Success? ==> parsed.Success? && DecodeDocument(r.value) == Some(parsed.value)
    ensures parsed.Success? ==> ErrorOf(r) == OverflowOf(DocumentIntegers(parsed.value))
  {
    match parsed
    case Failure(e) => Failure(KdlParseError(e))
    case Success(d) =>
      DocumentRoundTrip(d);
      DocumentOutcome(d);
      ConvertDocument(d)
  }
}
