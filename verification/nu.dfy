/** The part of Nushell's `Value` the converter produces. A record is an
    ordered list of columns; `Record::push` appends. Spans are not modelled. */
module Nu {
  import opened Results
  import opened Numbers

  datatype NuValue =
    | String(s: string)
    | Int(i: I64)
    | Float(f: F64)
    | Bool(b: bool)
    | Nothing
    | List(items: seq<NuValue>)
    | Record(fields: seq<Field>)

  datatype Field = Field(column: string, val: NuValue)

  /** The column names of a record, in order. */
  function Columns(fs: seq<Field>): (r: seq<string>)
    ensures |r| == |fs|
    ensures forall k :: 0 <= k < |fs| ==> r[k] == fs[k].column
  {
    if |fs| == 0 then [] else [fs[0].column] + Columns(fs[1..])
  }

  /** The value of the first column named `column`, if there is one. */
  function Get(fs: seq<Field>, column: string): (r: Option<NuValue>)
    ensures r.None? <==> column !in Columns(fs)
    ensures r.Some? ==>
      exists k :: 0 <= k < |fs| && fs[k] == Field(column, r.value) &&
        forall j :: 0 <= j < k ==> fs[j].column != column
  {
    if |fs| == 0 then None
    else if fs[0].column == column then Some(fs[0].val)
    else Get(fs[1..], column)
  }
}
