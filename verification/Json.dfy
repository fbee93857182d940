/** JSON values, with objects as lists of their entries in order. */
module Json {
  import opened Basics

  datatype Value =
    | Obj(fields: seq<Field>)
    | Arr(items: seq<Value>)
    | Str(text: string)
    | Bool(truth: bool)
    | Number(number: int)
    | Null

  datatype Field = Field(key: string, value: Value)

  /** The first entry with this key. */
  function Lookup(fields: seq<Field>, key: string): Option<Value> {
    if fields == [] then None
    else if fields[0].key == key then Some(fields[0].value)
    else Lookup(fields[1..], key)
  }
}
