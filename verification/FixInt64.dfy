/** Post-processing of the OpenAPI document: 64-bit formats become plain
    strings, and error responses are dropped from every operation. */
module FixInt64 {
  import opened Wrappers
  import opened Json

  const INT64_FORMATS: set<string> := {"int64", "uint64", "sint64", "fixed64", "sfixed64"}

  predicate IsInt64(fields: seq<Field>) {
    match Lookup(fields, "format")
    case Some(Str(f)) => f in INT64_FORMATS
    case _ => false
  }

  predicate IsInt64Node(j: Json) {
    j.Obj? && IsInt64(j.fields)
  }

  function Retype(fields: seq<Field>): seq<Field> {
    Delete(Assign(fields, "type", Str("string")), "format")
  }

  /** What is visited once a node's own fields are settled. */
  function Settled(fields: seq<Field>): (r: seq<Field>)
    ensures SizeOfFields(r) <= SizeOfFields(fields)
  {
    if IsInt64(fields) then
      RetypeShrinks(fields);
      Retype(fields)
    else fields
  }

  function Rewrite(j: Json): Json
    decreases Size(j), 0
  {
    match j
    case Arr(items) => Arr(RewriteItems(items))
    case Obj(fields) => Obj(RewriteFields(Settled(fields)))
    case _ => j
  }

  function RewriteItems(items: seq<Json>): (r: seq<Json>)
    ensures |r| == |items|
    decreases SizeOfItems(items), 1, |items|
  {
    if items == [] then [] else [Rewrite(items[0])] + RewriteItems(items[1..])
  }

  function RewriteFields(fields: seq<Field>): (r: seq<Field>)
    ensures |r| == |fields|
    decreases SizeOfFields(fields), 1, |fields|
  {
    if fields == [] then []
    else [Field(fields[0].key, Rewrite(fields[0].value))] + RewriteFields(fields[1..])
  }

  /** How many nodes a visit rewrites. */
  function Changed(j: Json): nat
    decreases Size(j), 0
  {
    match j
    case Arr(items) => ChangedItems(items)
    case Obj(fields) => (if IsInt64(fields) then 1 else 0) + ChangedFields(Settled(fields))
    case _ => 0
  }

  function ChangedItems(items: seq<Json>): nat
    decreases SizeOfItems(items), 1, |items|
  {
    if items == [] then 0 else Changed(items[0]) + ChangedItems(items[1..])
  }

  function ChangedFields(fields: seq<Field>): nat
    decreases SizeOfFields(fields), 1, |fields|
  {
    if fields == [] then 0 else Changed(fields[0].value) + ChangedFields(fields[1..])
  }

  lemma {:induction false} DeleteShrinks(fields: seq<Field>, key: string)
    ensures SizeOfFields(Delete(fields, key)) + (if Lookup(fields, key).Some? then 1 else 0) <= SizeOfFields(fields)
  {
    if fields != [] {
      DeleteShrinks(fields[1..], key);
      if fields[0].key != key {
        assert ([fields[0]] + Delete(fields[1..], key))[1..] == Delete(fields[1..], key);
      }
    }
  }

  lemma {:induction false} AssignGrowsByOne(fields: seq<Field>, key: string, other: string)
    requires key != other
    ensures SizeOfFields(Assign(fields, key, Str("string"))) <= SizeOfFields(fields) + 1
    ensures Lookup(Assign(fields, key, Str("string")), other) == Lookup(fields, other)
  {
    if fields != [] {
      AssignGrowsByOne(fields[1..], key, other);
      var a := Assign(fields, key, Str("string"));
      assert a[1..] == if fields[0].key == key then fields[1..] else Assign(fields[1..], key, Str("string"));
    }
  }

  lemma RetypeShrinks(fields: seq<Field>)
    requires IsInt64(fields)
    ensures SizeOfFields(Retype(fields)) <= SizeOfFields(fields)
  {
    AssignGrowsByOne(fields, "type", "format");
    DeleteShrinks(Assign(fields, "type", Str("string")), "format");
  }

  // ----- one pass is enough -----

  function RewriteOption(v: Option<Json>): Option<Json> {
    match v case None => None case Some(j) => Some(Rewrite(j))
  }

  lemma {:induction false} LookupRewritten(fields: seq<Field>, key: string)
    ensures Lookup(RewriteFields(fields), key) == RewriteOption(Lookup(fields, key))
    decreases |fields|
  {
    if fields != [] {
      LookupRewritten(fields[1..], key);
      assert RewriteFields(fields)[1..] == RewriteFields(fields[1..]);
    }
  }

  lemma {:induction false} LookupDeleted(fields: seq<Field>, key: string, other: string)
    ensures Lookup(Delete(fields, key), other) == if other == key then None else Lookup(fields, other)
  {
    if fields != [] {
      LookupDeleted(fields[1..], key, other);
      if fields[0].key != key {
        assert Delete(fields, key)[1..] == Delete(fields[1..], key);
      }
    }
  }

  lemma {:induction false} LookupAssigned(fields: seq<Field>, key: string, value: Json, other: string)
    ensures Lookup(Assign(fields, key, value), other) == if other == key then Some(value) else Lookup(fields, other)
  {
    if fields != [] {
      LookupAssigned(fields[1..], key, value, other);
      var a := Assign(fields, key, value);
      assert a[1..] == if fields[0].key == key then fields[1..] else Assign(fields[1..], key, value);
    }
  }

  /** What a key holds once its node is settled. */
  lemma LookupSettled(fields: seq<Field>, key: string)
    ensures Lookup(Settled(fields), key)
            == if !IsInt64(fields) then Lookup(fields, key)
               else if key == "type" then Some(Str("string"))
               else if key == "format" then None
               else Lookup(fields, key)
  {
    if IsInt64(fields) {
      LookupAssigned(fields, "type", Str("string"), key);
      LookupDeleted(Assign(fields, "type", Str("string")), "format", key);
    }
  }

  lemma {:induction false} LookupIsSmaller(fields: seq<Field>, key: string)
    requires Lookup(fields, key).Some?
    ensures Size(Lookup(fields, key).value) <= SizeOfFields(fields)
  {
    if fields[0].key != key {
      LookupIsSmaller(fields[1..], key);
    }
  }

  lemma {:induction false} ItemIsSmaller(items: seq<Json>, i: nat)
    requires i < |items|
    ensures Size(items[i]) <= SizeOfItems(items)
    ensures RewriteItems(items)[i] == Rewrite(items[i])
    decreases |items|
  {
    if i > 0 {
      ItemIsSmaller(items[1..], i - 1);
    }
  }

  function Settle(j: Json): Json {
    if j.Obj? then Obj(Settled(j.fields)) else j
  }

  /** Rewriting commutes with going one step down a settled node. */
  lemma DownRewritten(j: Json, hop: Hop)
    ensures Down(Rewrite(j), hop) == RewriteOption(Down(Settle(j), hop))
    ensures Down(Settle(j), hop).Some? ==> Size(Down(Settle(j), hop).value) < Size(j)
  {
    match (j, hop) {
      case (Obj(fields), Key(name)) =>
        LookupRewritten(Settled(fields), name);
        if Lookup(Settled(fields), name).Some? {
          LookupIsSmaller(Settled(fields), name);
        }
      case (Arr(items), Index(i)) =>
        if i < |items| {
          ItemIsSmaller(items, i);
        }
      case _ =>
    }
  }

  lemma RewrittenIsNotInt64(j: Json)
    ensures !IsInt64Node(Rewrite(j))
  {
    if j.Obj? {
      LookupRewritten(Settled(j.fields), "format");
      LookupSettled(j.fields, "format");
    }
  }

  /** No path of the rewritten document leads to an int64 node. */
  lemma {:induction false} NoInt64Left(j: Json, path: seq<Hop>)
    ensures At(Rewrite(j), path).Some? ==> !IsInt64Node(At(Rewrite(j), path).value)
    decreases |path|
  {
    if path == [] {
      RewrittenIsNotInt64(j);
    } else {
      DownRewritten(j, path[0]);
      if Down(Settle(j), path[0]).Some? {
        NoInt64Left(Down(Settle(j), path[0]).value, path[1..]);
      }
    }
  }

  lemma {:induction false} SecondPassIsIdle(j: Json)
    ensures Rewrite(Rewrite(j)) == Rewrite(j)
    ensures Changed(Rewrite(j)) == 0
    decreases Size(j), 0
  {
    match j {
      case Arr(items) => ItemsAreIdle(items);
      case Obj(fields) =>
        RewrittenIsNotInt64(j);
        FieldsAreIdle(Settled(fields));
      case _ =>
    }
  }

  lemma {:induction false} ItemsAreIdle(items: seq<Json>)
    ensures RewriteItems(RewriteItems(items)) == RewriteItems(items)
    ensures ChangedItems(RewriteItems(items)) == 0
    decreases SizeOfItems(items), 1, |items|
  {
    if items != [] {
      SecondPassIsIdle(items[0]);
      ItemsAreIdle(items[1..]);
      assert RewriteItems(items)[1..] == RewriteItems(items[1..]);
    }
  }

  lemma {:induction false} FieldsAreIdle(fields: seq<Field>)
    ensures RewriteFields(RewriteFields(fields)) == RewriteFields(fields)
    ensures ChangedFields(RewriteFields(fields)) == 0
    decreases SizeOfFields(fields), 1, |fields|
  {
    if fields != [] {
      SecondPassIsIdle(fields[0].value);
      FieldsAreIdle(fields[1..]);
      assert RewriteFields(fields)[1..] == RewriteFields(fields[1..]);
    }
  }

  /** Which formats go: exactly the five 64-bit ones. */
  lemma FormatsRetyped(name: string, format: string)
    ensures var fields := [Field("type", Str(name)), Field("format", Str(format))];
            var wide := format == "int64" || format == "uint64" || format == "sint64"
                        || format == "fixed64" || format == "sfixed64";
            Rewrite(Obj(fields)) == Obj(if wide then [Field("type", Str("string"))] else fields)
  {
    var last := [Field("format", Str(format))];
    var fields := [Field("type", Str(name)), Field("format", Str(format))];
    assert fields[1..] == last && last[1..] == [];
    assert Lookup(fields, "format") == Lookup(last, "format") == Some(Str(format));
    if IsInt64(fields) {
      var retyped := [Field("type", Str("string"))];
      assert Assign(fields, "type", Str("string")) == retyped + last;
      assert Delete(last, "format") == [];
      assert (retyped + last)[1..] == last;
      assert Settled(fields) == retyped;
      OneFieldRewritten(retyped[0]);
      assert retyped == [retyped[0]] && Rewrite(Str("string")) == Str("string");
      assert Rewrite(Obj(fields)) == Obj(RewriteFields(retyped)) == Obj(retyped);
    } else {
      OneFieldRewritten(last[0]);
      assert RewriteFields(last) == last;
      assert RewriteFields(fields) == [fields[0]] + RewriteFields(last) == fields;
    }
  }

  lemma OneFieldRewritten(field: Field)
    ensures RewriteFields([field]) == [Field(field.key, Rewrite(field.value))]
  {
    assert [field][1..] == [];
  }

  // ----- the frame -----

  /** The path passes the `type` or the `format` of an int64 node. */
  predicate Touched(j: Json, path: seq<Hop>)
    decreases |path|
  {
    path != []
    && (|| (IsInt64Node(j) && path[0] in [Key("type"), Key("format")])
        || (Down(j, path[0]).Some? && Touched(Down(j, path[0]).value, path[1..])))
  }

  /** Everywhere else the document is the one it was, rewritten below: a leaf
      keeps its value and a path that led nowhere still does. */
  lemma {:induction false} UntouchedStays(j: Json, path: seq<Hop>)
    requires !Touched(j, path)
    ensures At(Rewrite(j), path) == RewriteOption(At(j, path))
    decreases |path|
  {
    if path != [] {
      DownRewritten(j, path[0]);
      assert Down(Settle(j), path[0]) == Down(j, path[0]) by {
        if j.Obj? && path[0].Key? {
          LookupSettled(j.fields, path[0].name);
        }
      }
      if Down(j, path[0]).Some? {
        UntouchedStays(Down(j, path[0]).value, path[1..]);
      }
    }
  }

  /** Every int64 node a visit reaches ends up with type "string" and no format. */
  lemma Int64NodeRetyped(j: Json, path: seq<Hop>)
    requires !Touched(j, path) && At(j, path).Some? && IsInt64Node(At(j, path).value)
    ensures At(Rewrite(j), path + [Key("type")]) == Some(Str("string"))
    ensures At(Rewrite(j), path + [Key("format")]) == None
  {
    var node := At(j, path).value;
    UntouchedStays(j, path);
    AtExtends(Rewrite(j), path, Key("type"));
    AtExtends(Rewrite(j), path, Key("format"));
    LookupRewritten(Settled(node.fields), "type");
    LookupRewritten(Settled(node.fields), "format");
    LookupSettled(node.fields, "type");
    LookupSettled(node.fields, "format");
  }

  function Keys(fields: seq<Field>): seq<string> {
    if fields == [] then [] else [fields[0].key] + Keys(fields[1..])
  }

  function Without(keys: seq<string>, key: string): seq<string> {
    if keys == [] then []
    else if keys[0] == key then Without(keys[1..], key)
    else [keys[0]] + Without(keys[1..], key)
  }

  lemma {:induction false} DeletedKeys(fields: seq<Field>, key: string)
    ensures Keys(Delete(fields, key)) == Without(Keys(fields), key)
  {
    if fields != [] {
      DeletedKeys(fields[1..], key);
      assert Keys(fields)[1..] == Keys(fields[1..]);
      if fields[0].key != key {
        assert Delete(fields, key)[1..] == Delete(fields[1..], key);
      }
    }
  }

  lemma {:induction false} AssignedKeys(fields: seq<Field>, key: string, value: Json)
    ensures Keys(Assign(fields, key, value)) == Keys(fields) + if Lookup(fields, key).Some? then [] else [key]
  {
    if fields != [] {
      AssignedKeys(fields[1..], key, value);
      var a := Assign(fields, key, value);
      assert a[1..] == if fields[0].key == key then fields[1..] else Assign(fields[1..], key, value);
    }
  }

  lemma {:induction false} RewrittenKeys(fields: seq<Field>)
    ensures Keys(RewriteFields(fields)) == Keys(fields)
    decreases |fields|
  {
    if fields != [] {
      RewrittenKeys(fields[1..]);
      assert RewriteFields(fields)[1..] == RewriteFields(fields[1..]);
    }
  }

  /** Key order, which the code generator depends on, is kept; a missing `type`
      goes last. */
  lemma KeyOrderKept(fields: seq<Field>)
    ensures Keys(Rewrite(Obj(fields)).fields)
            == if !IsInt64(fields) then Keys(fields)
               else Without(Keys(fields) + (if Lookup(fields, "type").Some? then [] else ["type"]), "format")
  {
    RewrittenKeys(Settled(fields));
    if IsInt64(fields) {
      AssignedKeys(fields, "type", Str("string"));
      DeletedKeys(Assign(fields, "type", Str("string")), "format");
    }
  }

  // ----- the count -----

  /** All int64 nodes of the document as it came. */
  function CountInt64(j: Json): nat {
    match j
    case Arr(items) => CountItems(items)
    case Obj(fields) => (if IsInt64(fields) then 1 else 0) + CountFields(fields)
    case _ => 0
  }

  function CountItems(items: seq<Json>): nat {
    if items == [] then 0 else CountInt64(items[0]) + CountItems(items[1..])
  }

  function CountFields(fields: seq<Field>): nat {
    if fields == [] then 0 else CountInt64(fields[0].value) + CountFields(fields[1..])
  }

  /** No object repeats a key, as in every parsed document. */
  predicate Parsed(j: Json) {
    match j
    case Arr(items) => ParsedItems(items)
    case Obj(fields) => ParsedFields(fields)
    case _ => true
  }

  predicate ParsedItems(items: seq<Json>) {
    items == [] || (Parsed(items[0]) && ParsedItems(items[1..]))
  }

  predicate ParsedFields(fields: seq<Field>) {
    fields == [] || (Parsed(fields[0].value) && Lookup(fields[1..], fields[0].key) == None && ParsedFields(fields[1..]))
  }

  /** No int64 node keeps another one inside its `type`. */
  predicate PlainTypes(j: Json) {
    match j
    case Arr(items) => PlainItems(items)
    case Obj(fields) =>
      && (IsInt64(fields) && Lookup(fields, "type").Some? ==> CountInt64(Lookup(fields, "type").value) == 0)
      && PlainFields(fields)
    case _ => true
  }

  predicate PlainItems(items: seq<Json>) {
    items == [] || (PlainTypes(items[0]) && PlainItems(items[1..]))
  }

  predicate PlainFields(fields: seq<Field>) {
    fields == [] || (PlainTypes(fields[0].value) && PlainFields(fields[1..]))
  }

  lemma {:induction false} NoneIsPlain(j: Json)
    requires CountInt64(j) == 0
    ensures PlainTypes(j)
  {
    match j {
      case Arr(items) => NoneIsPlainItems(items);
      case Obj(fields) => NoneIsPlainFields(fields);
      case _ =>
    }
  }

  lemma {:induction false} NoneIsPlainItems(items: seq<Json>)
    requires CountItems(items) == 0
    ensures PlainItems(items)
  {
    if items != [] {
      NoneIsPlain(items[0]);
      NoneIsPlainItems(items[1..]);
    }
  }

  lemma {:induction false} NoneIsPlainFields(fields: seq<Field>)
    requires CountFields(fields) == 0
    ensures PlainFields(fields)
  {
    if fields != [] {
      NoneIsPlain(fields[0].value);
      NoneIsPlainFields(fields[1..]);
    }
  }

  function CountOption(v: Option<Json>): nat {
    match v case None => 0 case Some(j) => CountInt64(j)
  }

  predicate PlainOption(v: Option<Json>) {
    v.Some? ==> PlainTypes(v.value)
  }

  lemma {:induction false} AssignedCount(fields: seq<Field>, key: string)
    requires ParsedFields(fields)
    ensures var a := Assign(fields, key, Str("string"));
            && ParsedFields(a)
            && CountFields(a) + CountOption(Lookup(fields, key)) == CountFields(fields)
            && (PlainFields(fields) <==> PlainFields(a) && PlainOption(Lookup(fields, key)))
  {
    if fields != [] {
      AssignedCount(fields[1..], key);
      var a := Assign(fields, key, Str("string"));
      assert a[1..] == if fields[0].key == key then fields[1..] else Assign(fields[1..], key, Str("string"));
      LookupAssigned(fields[1..], key, Str("string"), fields[0].key);
    } else {
      assert Assign(fields, key, Str("string"))[1..] == [];
    }
  }

  lemma {:induction false} DeletedCount(fields: seq<Field>, key: string)
    requires ParsedFields(fields)
    ensures var d := Delete(fields, key);
            && ParsedFields(d)
            && CountFields(d) + CountOption(Lookup(fields, key)) == CountFields(fields)
            && (PlainFields(fields) <==> PlainFields(d) && PlainOption(Lookup(fields, key)))
  {
    if fields != [] {
      DeletedCount(fields[1..], key);
      LookupDeleted(fields[1..], key, fields[0].key);
      if fields[0].key == key {
        DeleteAbsent(fields[1..], key);
      } else {
        assert Delete(fields, key)[1..] == Delete(fields[1..], key);
      }
    }
  }

  lemma {:induction false} DeleteAbsent(fields: seq<Field>, key: string)
    requires Lookup(fields, key) == None
    ensures Delete(fields, key) == fields
  {
    if fields != [] {
      DeleteAbsent(fields[1..], key);
    }
  }

  lemma SettledCount(fields: seq<Field>)
    requires ParsedFields(fields) && IsInt64(fields)
    ensures var hidden := CountOption(Lookup(fields, "type"));
            && ParsedFields(Settled(fields))
            && CountFields(Settled(fields)) + hidden == CountFields(fields)
            && (hidden == 0 ==> (PlainFields(fields) <==> PlainFields(Settled(fields))))
  {
    var a := Assign(fields, "type", Str("string"));
    AssignedCount(fields, "type");
    LookupAssigned(fields, "type", Str("string"), "format");
    DeletedCount(a, "format");
    if Lookup(fields, "type").Some? && CountInt64(Lookup(fields, "type").value) == 0 {
      NoneIsPlain(Lookup(fields, "type").value);
    }
  }

  /** The reported number never exceeds the int64 nodes of the document, and is
      their number exactly when none of them sits inside the `type` of another,
      where it is thrown away unvisited. */
  lemma {:induction false} ChangedCountsInt64Nodes(j: Json)
    requires Parsed(j)
    ensures Changed(j) <= CountInt64(j)
    ensures Changed(j) == CountInt64(j) <==> PlainTypes(j)
    decreases Size(j), 0
  {
    match j {
      case Arr(items) => ChangedCountsItems(items);
      case Obj(fields) =>
        if IsInt64(fields) {
          SettledCount(fields);
        }
        ChangedCountsFields(Settled(fields));
      case _ =>
    }
  }

  lemma {:induction false} ChangedCountsItems(items: seq<Json>)
    requires ParsedItems(items)
    ensures ChangedItems(items) <= CountItems(items)
    ensures ChangedItems(items) == CountItems(items) <==> PlainItems(items)
    decreases SizeOfItems(items), 1, |items|
  {
    if items != [] {
      ChangedCountsInt64Nodes(items[0]);
      ChangedCountsItems(items[1..]);
    }
  }

  lemma {:induction false} ChangedCountsFields(fields: seq<Field>)
    requires ParsedFields(fields)
    ensures ChangedFields(fields) <= CountFields(fields)
    ensures ChangedFields(fields) == CountFields(fields) <==> PlainFields(fields)
    decreases SizeOfFields(fields), 1, |fields|
  {
    if fields != [] {
      ChangedCountsInt64Nodes(fields[0].value);
      ChangedCountsFields(fields[1..]);
    }
  }

  /** An int64 node whose `type` is another one: two nodes, one counted. */
  lemma NodeInsideTypeGoesUncounted()
    ensures var inner := Obj([Field("format", Str("int64"))]);
            var j := Obj([Field("type", inner), Field("format", Str("int64"))]);
            && Parsed(j) && CountInt64(j) == 2
            && Changed(j) == 1 && Rewrite(j) == Obj([Field("type", Str("string"))])
  {
    var one := [Field("format", Str("int64"))];
    var fields := [Field("type", Obj(one)), Field("format", Str("int64"))];
    assert one[1..] == [] && fields[1..] == one;
    assert CountInt64(Obj(one)) == 1;
    assert Assign(fields, "type", Str("string")) == [Field("type", Str("string"))] + one;
    assert Delete(one, "format") == [];
    assert Settled(fields) == [Field("type", Str("string"))];
    var settled := Settled(fields);
    assert settled[1..] == [];
    assert Changed(settled[0].value) == 0 && ChangedFields(settled[1..]) == 0;
    assert IsInt64(fields) && ChangedFields(settled) == 0;
  }
}
