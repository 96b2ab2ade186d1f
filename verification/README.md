# from kdl: KDL document to Nushell value, modelled in Dafny

This project models the `from kdl` command of the Nushell plugin
`nu_plugin_from_more`. The command turns a KDL document into a Nushell
value with the same structure:

- a document becomes a list with one record per top-level node, in order;
- a node becomes a record whose columns are `name`, then `entries` when the
  node has at least one entry, then `children` when the node has a children
  block (an empty block still yields `children`);
- an entry becomes the record `{name, value}`, where `name` is the property
  identifier or `nothing` for a positional argument;
- a scalar becomes the matching Nushell scalar. A KDL integer is an `i128`
  and must fit in an `i64`, or the conversion fails with
  `BadConversion { from: "i128", to: "i64", value: Some(<decimal text>) }`.

That error stops the whole conversion at the first offending integer. Rust's
`?` and `collect::<Result<Vec<_>, _>>()` do this, and the model writes them
as Dafny's `:-` and head-first recursion over the sequence.

Files (one module each):

- `results.dfy`: `Option` and `Result`, failure-compatible so `:-` works.
- `numbers.dfy`: `i64`/`i128` ranges, an opaque `f64` bit payload, the
  decimal text of an integer with its parser, and `FirstOutOfRange`.
- `kdl.dfy`: the KDL tree (`KdlValue`, `KdlEntry`, `KdlNode`,
  `KdlDocument`). `children: Option<KdlDocument>` keeps "absent" apart from
  "empty". It also holds the pre-order list of integer payloads.
- `nu.dfy`: the Nushell values the converter produces. A record is an
  ordered column list.
- `decode.dfy`: a decoder that reads the converter's output layout back
  into a KDL tree. It is the independent reference the round-trip lemmas
  are stated against.
- `from_kdl.dfy`: the converter (`convert_value`, `convert_entries`,
  `convert_node`, `convert_document`, `parse`) and its laws.

The main properties:

- Round trip: decoding a successful conversion gives back the document.
  So conversion is injective, and shape, order, names, and the difference
  between absent and empty children blocks are all preserved.
- Outcome: a document converts if and only if every integer at every
  depth fits in `i64`. Otherwise the error is the one for the first
  out-of-range integer in pre-order.

The plugin also declares a `query kdl` command taking an "xpath like
query" (src/plugin/query_kdl.rs:25), but `Path::parse` and `QueryKdl::run`
end in `todo!()`. The converter is the only implemented logic, and it is
what this model covers.

## Model

| member | source | states |
|---|---|---|
| FromKdl.ConvertValue | src/plugin/from_kdl.rs:88-103 | fails exactly for an integer outside the `i64` range, with `BadConversion("i128", "i64", decimal text)`; an in-range integer becomes `Int` of the same number; strings, floats (payload copied), booleans and null never fail and map to `string`, `float`, `bool`, `nothing` |
| FromKdl.EntryName | src/plugin/from_kdl.rs:109-115 | the `name` column is the identifier string for a property and `nothing` for a positional argument |
| FromKdl.ConvertEntry | src/plugin/from_kdl.rs:107-118 | an entry record has exactly the columns `name` then `value`; it fails exactly when the entry's value fails, with that error |
| FromKdl.CollectEntries | src/plugin/from_kdl.rs:105-119 | collecting entries succeeds iff every entry converts, with one item per entry in order; on failure the error is that of the first failing entry |
| FromKdl.ConvertEntries | src/plugin/from_kdl.rs:104-121 | a list of the same length and order as the entries, item k being `{name, value}` for entry k; succeeds iff every value converts; otherwise the first failing value's error |
| FromKdl.NodeRecord | src/plugin/from_kdl.rs:131-142 | a node record's columns are `name`, then `entries` only if present, then `children` only if present, and each column holds the value pushed for it |
| FromKdl.ConvertNode | src/plugin/from_kdl.rs:130-143 | columns `name` (the node name), `entries` iff the node has an entry, `children` iff a children block is present even when empty; succeeds iff its entries and children convert; entries' error takes precedence over children's |
| FromKdl.CollectNodes | src/plugin/from_kdl.rs:123-127 | collecting nodes succeeds iff every node converts, item k being node k's record; on failure the first failing node's error |
| FromKdl.ConvertDocument | src/plugin/from_kdl.rs:122-129 | a list of the same length and order as the nodes, item k being the conversion of node k; otherwise the first failing node's error |
| FromKdl.Parse | src/plugin/from_kdl.rs:84-87 | a library parse error is passed on as `KdlParseError`; a parsed document's result decodes back to that document and fails exactly with the first out-of-range integer's error |
| FromKdl.EntryRoundTrip | src/plugin/from_kdl.rs:107-118 | a converted entry decodes back to the same entry (name kind and value) |
| FromKdl.EntriesRoundTrip | src/plugin/from_kdl.rs:104-121 | a converted non-empty entry list decodes back to the same entries in the same order |
| FromKdl.NodeRoundTrip | src/plugin/from_kdl.rs:130-143 | a converted node decodes back to the same node, including whether its children block is absent or empty |
| FromKdl.DocumentRoundTrip | src/plugin/from_kdl.rs:122-143 | a converted document decodes back to the same document at every depth |
| FromKdl.ConvertDocumentInjective | src/plugin/from_kdl.rs:122-143 | two documents that convert to the same value are equal |
| FromKdl.CollectEntriesOutcome | src/plugin/from_kdl.rs:105-119 | collecting entries fails iff some integer among them is out of range, with the first such integer's error |
| FromKdl.NodeOutcome | src/plugin/from_kdl.rs:130-143 | a node fails iff an integer in its entries or its subtree is out of range, with the error for the first one in pre-order (own entries before children) |
| FromKdl.NodesOutcome | src/plugin/from_kdl.rs:123-127 | a node list fails with the first out-of-range integer, earlier siblings' subtrees before later siblings |
| FromKdl.DocumentOutcome | src/plugin/from_kdl.rs:122-129 | a document's conversion error is exactly the error for the first out-of-range integer of its pre-order traversal, and there is none when all fit |
| FromKdl.ConversionOutcome | src/plugin/from_kdl.rs:116-140 | a document converts iff every integer at any depth fits in `i64`; otherwise the error is `BadConversion` for the first one in pre-order |
| Numbers.DecimalText | src/plugin/from_kdl.rs:95 | the error text is a minus sign exactly for negative numbers, followed by decimal digits without leading zeros |
| Numbers.DecimalTextRoundTrip | src/plugin/from_kdl.rs:95 | the error text reads back as the integer it was made from |
| Numbers.DecimalTextInjective | src/plugin/from_kdl.rs:95 | distinct integers get distinct error texts |
| Numbers.FirstOutOfRange | src/plugin/from_kdl.rs:91-98 | the first integer that the `i128` to `i64` narrowing rejects, and none iff every one fits |

## Left out

- Parsing KDL text (`input.parse()`, src/plugin/from_kdl.rs:85) is done by the `kdl` crate. `Parse` takes the library's result as a parameter.
- `Error::from_kdl_error` (src/plugin/from_kdl.rs:22-34) renders `miette` diagnostics. A parse error is carried as opaque text.
- `FromKdl::run`, `name`, `description` and `signature` (src/plugin/from_kdl.rs:39-79) are Nushell plugin plumbing: the input type check, `LabeledError` and call spans.
- Spans (`Span::unknown()`) carry no behaviour and are not modelled.
- The `kdl` crate also keeps type annotations and source formatting on nodes and entries. The converter never reads them, so the model's KDL tree omits them.
- Floats are an opaque 64-bit payload that is copied through. The model makes no numeric claims about them.
- The query engine in src/plugin/query_kdl.rs (lexer, parser, matcher) is not modelled: `Path::parse` is `todo!()` (line 99), `QueryKdl::run` ends in `todo!()` (line 65), and lines 71-92 only declare AST types. There is no behaviour to model.
- src/plugin/mod.rs registers the two commands and reports the crate version. It has no logic to model.
