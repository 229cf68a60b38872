/** JSON values with their key order, and addressing inside them. */
module Json {
  import opened Wrappers

  /** Objects list their fields in key order; keys do not repeat. */
  datatype Json =
    | Null
    | Bool(b: bool)
    | Num(literal: string)
    | Str(s: string)
    | Arr(items: seq<Json>)
    | Obj(fields: seq<Field>)

  datatype Field = Field(key: string, value: Json)

  datatype Hop = Key(name: string) | Index(i: nat)

  function Lookup(fields: seq<Field>, key: string): Option<Json> {
    if fields == [] then None
    else if fields[0].key == key then Some(fields[0].value)
    else Lookup(fields[1..], key)
  }

  /** Assigns the field in place, or appends it. */
  function Assign(fields: seq<Field>, key: string, value: Json): seq<Field> {
    if fields == [] then [Field(key, value)]
    else if fields[0].key == key then [Field(key, value)] + fields[1..]
    else [fields[0]] + Assign(fields[1..], key, value)
  }

  function Delete(fields: seq<Field>, key: string): seq<Field> {
    if fields == [] then []
    else if fields[0].key == key then Delete(fields[1..], key)
    else [fields[0]] + Delete(fields[1..], key)
  }

  function Down(j: Json, hop: Hop): Option<Json> {
    match (j, hop)
    case (Obj(fields), Key(name)) => Lookup(fields, name)
    case (Arr(items), Index(i)) => if i < |items| then Some(items[i]) else None
    case _ => None
  }

  /** The value at the end of a path, if the path leads anywhere. */
  function At(j: Json, path: seq<Hop>): Option<Json>
    decreases |path|
  {
    if path == [] then Some(j)
    else
      match Down(j, path[0])
      case None => None
      case Some(v) => At(v, path[1..])
  }

  lemma {:induction false} AtExtends(j: Json, path: seq<Hop>, hop: Hop)
    requires At(j, path).Some?
    ensures At(j, path + [hop]) == Down(At(j, path).value, hop)
    decreases |path|
  {
    if path != [] {
      assert (path + [hop])[1..] == path[1..] + [hop];
      AtExtends(Down(j, path[0]).value, path[1..], hop);
    }
  }

  function Size(j: Json): (n: nat)
    ensures n >= 1
  {
    match j
    case Arr(items) => 1 + SizeOfItems(items)
    case Obj(fields) => 1 + SizeOfFields(fields)
    case _ => 1
  }

  function SizeOfItems(items: seq<Json>): nat {
    if items == [] then 0 else Size(items[0]) + SizeOfItems(items[1..])
  }

  function SizeOfFields(fields: seq<Field>): nat {
    if fields == [] then 0 else Size(fields[0].value) + SizeOfFields(fields[1..])
  }
}
