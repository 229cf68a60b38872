/** Second half of the OpenAPI post-processing: drop the error responses of
    every operation so that only success types are generated. */
module StripErrors {
  import opened Wrappers
  import opened Json
  import FixInt64

  predicate IsDigit(c: char) {
    '0' <= c <= '9'
  }

  /** `default` or a three-digit code that starts with 3, 4 or 5. */
  predicate IsErrorCode(code: string) {
    || code == "default"
    || (|code| == 3 && '3' <= code[0] <= '5' && IsDigit(code[1]) && IsDigit(code[2]))
  }

  datatype Stripped = Stripped(json: Json, stripped: nat)

  function KeepSuccess(responses: seq<Field>): seq<Field> {
    if responses == [] then []
    else if IsErrorCode(responses[0].key) then KeepSuccess(responses[1..])
    else [responses[0]] + KeepSuccess(responses[1..])
  }

  function CountErrors(responses: seq<Field>): nat {
    if responses == [] then 0
    else (if IsErrorCode(responses[0].key) then 1 else 0) + CountErrors(responses[1..])
  }

  datatype Level = Paths | PathItem | Operation | Responses

  /** The nest of loops: the paths' items, their operations, each operation's
      responses. Only `responses` of an operation is looked up by name. */
  function Strip(level: Level, j: Json): Stripped
    decreases Size(j), 0
  {
    match (level, j)
    case (Paths, Obj(fields)) => var r := StripFields(PathItem, fields); Stripped(Obj(r.0), r.1)
    case (Paths, Arr(items)) => var r := StripItems(PathItem, items); Stripped(Arr(r.0), r.1)
    case (PathItem, Obj(fields)) => var r := StripFields(Operation, fields); Stripped(Obj(r.0), r.1)
    case (PathItem, Arr(items)) => var r := StripItems(Operation, items); Stripped(Arr(r.0), r.1)
    case (Operation, Obj(fields)) => var r := StripNamed("responses", Responses, fields); Stripped(Obj(r.0), r.1)
    case (Responses, Obj(fields)) => Stripped(Obj(KeepSuccess(fields)), CountErrors(fields))
    case _ => Stripped(j, 0)
  }

  function StripFields(level: Level, fields: seq<Field>): (r: (seq<Field>, nat))
    ensures |r.0| == |fields|
    decreases SizeOfFields(fields), 1, |fields|
  {
    if fields == [] then ([], 0)
    else
      var head, tail := Strip(level, fields[0].value), StripFields(level, fields[1..]);
      ([Field(fields[0].key, head.json)] + tail.0, head.stripped + tail.1)
  }

  function StripItems(level: Level, items: seq<Json>): (r: (seq<Json>, nat))
    ensures |r.0| == |items|
    decreases SizeOfItems(items), 1, |items|
  {
    if items == [] then ([], 0)
    else
      var head, tail := Strip(level, items[0]), StripItems(level, items[1..]);
      ([head.json] + tail.0, head.stripped + tail.1)
  }

  /** Strips the first field called `key`, if there is one. */
  function StripNamed(key: string, level: Level, fields: seq<Field>): (r: (seq<Field>, nat))
    ensures |r.0| == |fields|
    decreases SizeOfFields(fields), 1, |fields|
  {
    if fields == [] then ([], 0)
    else if fields[0].key == key then
      var head := Strip(level, fields[0].value);
      ([Field(key, head.json)] + fields[1..], head.stripped)
    else
      var tail := StripNamed(key, level, fields[1..]);
      ([fields[0]] + tail.0, tail.1)
  }

  function StripDocument(spec: Json): Stripped {
    match spec
    case Obj(fields) => var r := StripNamed("paths", Paths, fields); Stripped(Obj(r.0), r.1)
    case _ => Stripped(spec, 0)
  }

  // ----- exactly the error responses go -----

  /** Where a level looks next: any step, or the one named `responses`. */
  predicate Follows(level: Level, hop: Hop) {
    level.Operation? ==> hop == Key("responses")
  }

  function Next(level: Level): Level
    requires !level.Responses?
  {
    match level case Paths => PathItem case PathItem => Operation case Operation => Responses
  }

  /** The path passes an error entry of a responses object under `level`. */
  predicate Removed(level: Level, path: seq<Hop>)
    decreases |path|
  {
    path != []
    && if level.Responses? then path[0].Key? && IsErrorCode(path[0].name)
       else Follows(level, path[0]) && Removed(Next(level), path[1..])
  }

  predicate IsLeaf(j: Json) {
    !j.Obj? && !j.Arr?
  }

  lemma {:induction false} LookupKept(responses: seq<Field>, key: string)
    ensures Lookup(KeepSuccess(responses), key) == if IsErrorCode(key) then None else Lookup(responses, key)
  {
    if responses != [] {
      LookupKept(responses[1..], key);
      if !IsErrorCode(responses[0].key) {
        assert KeepSuccess(responses)[1..] == KeepSuccess(responses[1..]);
      }
    }
  }

  function StripOption(level: Level, v: Option<Json>): Option<Json> {
    match v case None => None case Some(j) => Some(Strip(level, j).json)
  }

  lemma {:induction false} LookupStripped(level: Level, fields: seq<Field>, key: string)
    ensures Lookup(StripFields(level, fields).0, key) == StripOption(level, Lookup(fields, key))
    decreases |fields|
  {
    if fields != [] {
      LookupStripped(level, fields[1..], key);
      assert StripFields(level, fields).0[1..] == StripFields(level, fields[1..]).0;
    }
  }

  lemma {:induction false} LookupNamed(name: string, level: Level, fields: seq<Field>, key: string)
    ensures Lookup(StripNamed(name, level, fields).0, key)
            == if key == name then StripOption(level, Lookup(fields, key)) else Lookup(fields, key)
    decreases |fields|
  {
    if fields != [] {
      LookupNamed(name, level, fields[1..], key);
      var r := StripNamed(name, level, fields).0;
      assert r[1..] == if fields[0].key == name then fields[1..] else StripNamed(name, level, fields[1..]).0;
    }
  }

  lemma {:induction false} ItemStripped(level: Level, items: seq<Json>, i: nat)
    requires i < |items|
    ensures StripItems(level, items).0[i] == Strip(level, items[i]).json
    decreases |items|
  {
    if i > 0 {
      ItemStripped(level, items[1..], i - 1);
    }
  }

  /** One step down a stripped value. */
  lemma DownStripped(level: Level, j: Json, hop: Hop)
    ensures var down := Down(Strip(level, j).json, hop);
            if level.Responses? then down == (if j.Obj? && Removed(level, [hop]) then None else Down(j, hop))
            else if Follows(level, hop) then down == StripOption(Next(level), Down(j, hop))
            else down == Down(j, hop)
  {
    match (j, hop) {
      case (Obj(fields), Key(name)) =>
        LookupKept(fields, name);
        LookupNamed("responses", Responses, fields, name);
        if !level.Responses? {
          LookupStripped(Next(level), fields, name);
        }
      case (Arr(items), Index(i)) =>
        if i < |items| && (level.Paths? || level.PathItem?) {
          ItemStripped(Next(level), items, i);
        }
      case _ =>
    }
  }

  lemma {:induction false} StrippedAt(level: Level, j: Json, path: seq<Hop>)
    ensures var before, after := At(j, path), At(Strip(level, j).json, path);
            && (Removed(level, path) ==> after == None)
            && (!Removed(level, path) ==> after.Some? == before.Some?)
            && (!Removed(level, path) && before.Some? && IsLeaf(before.value) ==> after == before)
    decreases |path|
  {
    if path != [] {
      DownStripped(level, j, path[0]);
      var d := Down(j, path[0]);
      if !level.Responses? && Follows(level, path[0]) && d.Some? {
        StrippedAt(Next(level), d.value, path[1..]);
      }
    }
  }

  /** Under `paths` and nowhere else, whatever lies beyond an error code of an
      operation's responses is gone; every other path leads where it led, and
      every other leaf is unchanged. */
  lemma ExactlyErrorsGo(spec: Json, path: seq<Hop>)
    ensures var before, after := At(spec, path), At(StripDocument(spec).json, path);
            var gone := path != [] && path[0] == Key("paths") && Removed(Paths, path[1..]);
            && (gone ==> after == None)
            && (!gone ==> after.Some? == before.Some?)
            && (!gone && before.Some? && IsLeaf(before.value) ==> after == before)
  {
    if path != [] && spec.Obj? && path[0].Key? {
      LookupNamed("paths", Paths, spec.fields, path[0].name);
      if path[0] == Key("paths") && Lookup(spec.fields, "paths").Some? {
        StrippedAt(Paths, Lookup(spec.fields, "paths").value, path[1..]);
      }
    }
  }

  /** Dropping responses brings no int64 node back: the finished document has
      none, whatever the generator produced. */
  lemma FinishedDocumentHasNoInt64(spec: Json, path: seq<Hop>)
    ensures var done := At(StripDocument(FixInt64.Rewrite(spec)).json, path);
            done.Some? ==> !FixInt64.IsInt64Node(done.value)
  {
    var rewritten := FixInt64.Rewrite(spec);
    var done := At(StripDocument(rewritten).json, path);
    if done.Some? && FixInt64.IsInt64Node(done.value) {
      var there := path + [Key("format")];
      AtExtends(StripDocument(rewritten).json, path, Key("format"));
      LeavesComeFromBefore(rewritten, there);
      LeavesComeFromBefore(rewritten, path);
      AtExtends(rewritten, path, Key("format"));
      FixInt64.NoInt64Left(spec, path);
    }
  }

  /** A leaf of the stripped document was there before. */
  lemma LeavesComeFromBefore(spec: Json, path: seq<Hop>)
    requires At(StripDocument(spec).json, path).Some?
    ensures At(spec, path).Some?
    ensures IsLeaf(At(StripDocument(spec).json, path).value) ==> At(spec, path) == At(StripDocument(spec).json, path)
    ensures At(StripDocument(spec).json, path).value.Obj? ==> At(spec, path).value.Obj?
  {
    ExactlyErrorsGo(spec, path);
    SameKind(spec, path);
  }

  lemma {:induction false} StrippedKind(level: Level, j: Json, path: seq<Hop>)
    requires !Removed(level, path) && At(j, path).Some? && At(Strip(level, j).json, path).Some?
    ensures var before, after := At(j, path).value, At(Strip(level, j).json, path).value;
            before.Obj? == after.Obj? && before.Arr? == after.Arr?
    decreases |path|
  {
    if path != [] {
      DownStripped(level, j, path[0]);
      if !level.Responses? && Follows(level, path[0]) {
        StrippedKind(Next(level), Down(j, path[0]).value, path[1..]);
      }
    }
  }

  lemma SameKind(spec: Json, path: seq<Hop>)
    requires At(spec, path).Some? && At(StripDocument(spec).json, path).Some?
    ensures var before, after := At(spec, path).value, At(StripDocument(spec).json, path).value;
            before.Obj? == after.Obj? && before.Arr? == after.Arr?
  {
    ExactlyErrorsGo(spec, path);
    if path != [] && spec.Obj? && path[0].Key? {
      LookupNamed("paths", Paths, spec.fields, path[0].name);
      if path[0] == Key("paths") && Lookup(spec.fields, "paths").Some? {
        StrippedKind(Paths, Lookup(spec.fields, "paths").value, path[1..]);
      }
    }
  }

  function Digit(d: nat): char
    requires d < 10
  {
    '0' + d as char
  }

  /** A status code as responses objects spell it. */
  function StatusCode(n: nat): string
    requires n < 1000
  {
    [Digit(n / 100), Digit(n / 10 % 10), Digit(n % 10)]
  }

  /** What is dropped: `default` and the status codes 300 to 599. */
  lemma ErrorCodesAre(code: string)
    ensures IsErrorCode(code) <==> code == "default" || exists n: nat :: 300 <= n < 600 && code == StatusCode(n)
  {
    if |code| == 3 && forall i :: 0 <= i < 3 ==> IsDigit(code[i]) {
      var a, b, c := code[0] as int - '0' as int, code[1] as int - '0' as int, code[2] as int - '0' as int;
      var n := 100 * a + 10 * b + c;
      assert n / 100 == a && n / 10 % 10 == b && n % 10 == c;
      assert code == StatusCode(n);
      assert '3' <= code[0] <= '5' <==> 300 <= n < 600;
    }
    forall n: nat | 300 <= n < 600 ensures IsErrorCode(StatusCode(n)) {
      assert 3 <= n / 100 <= 5;
    }
  }

  /** The path goes down from the level to the end of a responses object. */
  predicate Reaches(level: Level, path: seq<Hop>)
    decreases |path|
  {
    if level.Responses? then path == []
    else path != [] && Follows(level, path[0]) && Reaches(Next(level), path[1..])
  }

  lemma {:induction false} EntryStays(level: Level, j: Json, path: seq<Hop>, code: string)
    requires Reaches(level, path)
    ensures At(Strip(level, j).json, path + [Key(code)])
            == if IsErrorCode(code) then None else At(j, path + [Key(code)])
    decreases |path|
  {
    var there := path + [Key(code)];
    DownStripped(level, j, there[0]);
    if path == [] {
      assert there[1..] == [];
      assert Removed(level, [Key(code)]) <==> IsErrorCode(code);
    } else {
      assert there[1..] == path[1..] + [Key(code)];
      var d := Down(j, path[0]);
      if d.Some? {
        EntryStays(Next(level), d.value, path[1..], code);
      }
    }
  }

  function ResponseOf(item: Hop, operation: Hop, code: string): seq<Hop> {
    [Key("paths")] + ([item] + [operation] + [Key("responses")] + [Key(code)])
  }

  /** A response entry of the finished document is the one it was, whole, unless
      its code is dropped. */
  lemma ResponsesStayUnlessErrors(spec: Json, item: Hop, operation: Hop, code: string)
    ensures var address := ResponseOf(item, operation, code);
            At(StripDocument(spec).json, address) == if IsErrorCode(code) then None else At(spec, address)
  {
    var path := [item] + [operation] + [Key("responses")];
    assert path[1..] == [operation] + [Key("responses")] && path[1..][1..] == [Key("responses")];
    assert path[1..][1..][1..] == [];
    assert Reaches(Responses, []) && Reaches(Operation, [Key("responses")]);
    assert Reaches(PathItem, path[1..]) && Reaches(Paths, path);
    var address := ResponseOf(item, operation, code);
    assert address[1..] == path + [Key(code)];
    if spec.Obj? {
      LookupNamed("paths", Paths, spec.fields, "paths");
      if Lookup(spec.fields, "paths").Some? {
        EntryStays(Paths, Lookup(spec.fields, "paths").value, path, code);
      }
    }
  }

  // ----- the count is the response entries that went -----

  /** The entries of the responses objects the nest reaches. */
  function Entries(level: Level, j: Json): nat
    decreases Size(j), 0
  {
    match (level, j)
    case (Responses, Obj(fields)) => |fields|
    case (Operation, Obj(fields)) =>
      (match Lookup(fields, "responses") case Some(Obj(responses)) => |responses| case _ => 0)
    case (_, Obj(fields)) => EntriesOfFields(Next(level), fields)
    case (Paths, Arr(items)) => EntriesOfItems(PathItem, items)
    case (PathItem, Arr(items)) => EntriesOfItems(Operation, items)
    case _ => 0
  }

  function EntriesOfFields(level: Level, fields: seq<Field>): nat
    decreases SizeOfFields(fields), 1, |fields|
  {
    if fields == [] then 0 else Entries(level, fields[0].value) + EntriesOfFields(level, fields[1..])
  }

  function EntriesOfItems(level: Level, items: seq<Json>): nat
    decreases SizeOfItems(items), 1, |items|
  {
    if items == [] then 0 else Entries(level, items[0]) + EntriesOfItems(level, items[1..])
  }

  function DocumentEntries(spec: Json): nat {
    if !spec.Obj? then 0
    else match Lookup(spec.fields, "paths") case Some(paths) => Entries(Paths, paths) case None => 0
  }

  lemma {:induction false} NamedCount(name: string, level: Level, fields: seq<Field>)
    ensures StripNamed(name, level, fields).1
            == match Lookup(fields, name) case None => 0 case Some(j) => Strip(level, j).stripped
    decreases |fields|
  {
    if fields != [] && fields[0].key != name {
      NamedCount(name, level, fields[1..]);
    }
  }

  lemma {:induction false} StripCounts(level: Level, j: Json)
    ensures Entries(level, j) == Entries(level, Strip(level, j).json) + Strip(level, j).stripped
    decreases Size(j), 0
  {
    match (level, j) {
      case (Operation, Obj(fields)) =>
        NamedCount("responses", Responses, fields);
        LookupNamed("responses", Responses, fields, "responses");
        match Lookup(fields, "responses") {
          case Some(Obj(responses)) => KeptHasNoErrors(responses);
          case _ =>
        }
      case (Responses, Obj(fields)) => KeptHasNoErrors(fields);
      case (Paths, Obj(fields)) => FieldsCount(PathItem, fields);
      case (PathItem, Obj(fields)) => FieldsCount(Operation, fields);
      case (Paths, Arr(items)) => ItemsCount(PathItem, items);
      case (PathItem, Arr(items)) => ItemsCount(Operation, items);
      case _ =>
    }
  }

  lemma {:induction false} FieldsCount(level: Level, fields: seq<Field>)
    ensures var r := StripFields(level, fields);
            EntriesOfFields(level, fields) == EntriesOfFields(level, r.0) + r.1
    decreases SizeOfFields(fields), 1, |fields|
  {
    if fields != [] {
      StripCounts(level, fields[0].value);
      FieldsCount(level, fields[1..]);
      assert StripFields(level, fields).0[1..] == StripFields(level, fields[1..]).0;
    }
  }

  lemma {:induction false} ItemsCount(level: Level, items: seq<Json>)
    ensures var r := StripItems(level, items);
            EntriesOfItems(level, items) == EntriesOfItems(level, r.0) + r.1
    decreases SizeOfItems(items), 1, |items|
  {
    if items != [] {
      StripCounts(level, items[0]);
      ItemsCount(level, items[1..]);
      assert StripItems(level, items).0[1..] == StripItems(level, items[1..]).0;
    }
  }

  /** The reported number is how many response entries the document lost. */
  lemma ReportedIsRemoved(spec: Json)
    ensures DocumentEntries(spec) == DocumentEntries(StripDocument(spec).json) + StripDocument(spec).stripped
  {
    if spec.Obj? {
      NamedCount("paths", Paths, spec.fields);
      LookupNamed("paths", Paths, spec.fields, "paths");
      if Lookup(spec.fields, "paths").Some? {
        StripCounts(Paths, Lookup(spec.fields, "paths").value);
      }
    }
  }

  /** A document with one response. */
  function OneResponse(code: string, response: Json): Json {
    Obj([Field("paths", Obj([Field("/p", Obj([Field("get", Obj([Field("responses",
      Obj([Field(code, response)]))]))]))]))])
  }

  const REDIRECT := [Key("paths"), Key("/p"), Key("get"), Key("responses"), Key("302")]

  /** A redirect goes with the errors, whatever it holds. */
  lemma RedirectIsStripped(redirect: Json)
    ensures var spec := OneResponse("302", redirect);
            && At(spec, REDIRECT) == Some(redirect)
            && At(StripDocument(spec).json, REDIRECT) == None
            && StripDocument(spec).stripped == 1
  {
    hide StripDocument, Strip, StripFields, StripNamed, KeepSuccess, CountErrors;
    RedirectIsThere(redirect);
    OneIsCounted(redirect);
    assert Removed(Responses, [Key("302")]);
    assert REDIRECT[1..][1..][1..][1..] == [Key("302")];
    assert Removed(Operation, REDIRECT[1..][1..][1..]);
    assert Removed(Paths, REDIRECT[1..]);
    ExactlyErrorsGo(OneResponse("302", redirect), REDIRECT);
  }

  lemma RedirectIsThere(redirect: Json)
    ensures At(OneResponse("302", redirect), REDIRECT) == Some(redirect)
  {
    var paths := OneResponse("302", redirect).fields[0].value;
    var item := paths.fields[0].value;
    var operation := item.fields[0].value;
    var responses := operation.fields[0].value;
    assert REDIRECT[1..][1..][1..][1..] == [Key("302")];
    assert At(OneResponse("302", redirect), REDIRECT) == At(paths, REDIRECT[1..]) == At(item, REDIRECT[1..][1..])
        == At(operation, REDIRECT[1..][1..][1..]) == At(responses, [Key("302")]);
  }

  lemma OneIsCounted(redirect: Json)
    ensures StripDocument(OneResponse("302", redirect)).stripped == 1
  {
    var spec := OneResponse("302", redirect);
    var paths := spec.fields[0].value;
    var item := paths.fields[0].value;
    var operation := item.fields[0].value;
    var responses := operation.fields[0].value;
    assert responses.fields[1..] == [] && CountErrors(responses.fields) == 1;
    assert Strip(Responses, responses).stripped == 1;
    NamedCount("responses", Responses, operation.fields);
    assert Strip(Operation, operation).stripped == 1;
    assert item.fields[1..] == [] && StripFields(Operation, item.fields).1 == 1;
    assert Strip(PathItem, item).stripped == 1;
    assert paths.fields[1..] == [] && StripFields(PathItem, paths.fields).1 == 1;
    assert Strip(Paths, paths).stripped == 1;
    NamedCount("paths", Paths, spec.fields);
  }

  // ----- a second run is idle -----

  lemma {:induction false} KeptHasNoErrors(responses: seq<Field>)
    ensures KeepSuccess(KeepSuccess(responses)) == KeepSuccess(responses)
    ensures CountErrors(KeepSuccess(responses)) == 0
    ensures |KeepSuccess(responses)| + CountErrors(responses) == |responses|
  {
    if responses != [] {
      KeptHasNoErrors(responses[1..]);
      if !IsErrorCode(responses[0].key) {
        assert KeepSuccess(responses)[1..] == KeepSuccess(responses[1..]);
      }
    }
  }

  lemma {:induction false} StripIsIdle(level: Level, j: Json)
    ensures var once := Strip(level, j).json; Strip(level, once) == Stripped(once, 0)
    decreases Size(j), 0
  {
    match (level, j) {
      case (Operation, Obj(fields)) => NamedIsIdle("responses", Responses, fields);
      case (Responses, Obj(fields)) => KeptHasNoErrors(fields);
      case (Paths, Obj(fields)) => FieldsAreIdle(PathItem, fields);
      case (Paths, Arr(items)) => ItemsAreIdle(PathItem, items);
      case (PathItem, Obj(fields)) => FieldsAreIdle(Operation, fields);
      case (PathItem, Arr(items)) => ItemsAreIdle(Operation, items);
      case _ =>
    }
  }

  lemma {:induction false} FieldsAreIdle(level: Level, fields: seq<Field>)
    ensures var once := StripFields(level, fields).0; StripFields(level, once) == (once, 0)
    decreases SizeOfFields(fields), 1, |fields|
  {
    if fields != [] {
      StripIsIdle(level, fields[0].value);
      FieldsAreIdle(level, fields[1..]);
      assert StripFields(level, fields).0[1..] == StripFields(level, fields[1..]).0;
    }
  }

  lemma {:induction false} ItemsAreIdle(level: Level, items: seq<Json>)
    ensures var once := StripItems(level, items).0; StripItems(level, once) == (once, 0)
    decreases SizeOfItems(items), 1, |items|
  {
    if items != [] {
      StripIsIdle(level, items[0]);
      ItemsAreIdle(level, items[1..]);
      assert StripItems(level, items).0[1..] == StripItems(level, items[1..]).0;
    }
  }

  lemma {:induction false} NamedIsIdle(name: string, level: Level, fields: seq<Field>)
    ensures var once := StripNamed(name, level, fields).0; StripNamed(name, level, once) == (once, 0)
    decreases SizeOfFields(fields), 1, |fields|
  {
    if fields != [] {
      var once := StripNamed(name, level, fields).0;
      if fields[0].key == name {
        StripIsIdle(level, fields[0].value);
        assert once[1..] == fields[1..];
      } else {
        NamedIsIdle(name, level, fields[1..]);
        assert once[1..] == StripNamed(name, level, fields[1..]).0;
      }
    }
  }

  /** A second run over a stripped document changes and reports nothing. */
  lemma SecondRunStripsNothing(spec: Json)
    ensures var once := StripDocument(spec).json; StripDocument(once) == Stripped(once, 0)
  {
    if spec.Obj? {
      NamedIsIdle("paths", Paths, spec.fields);
    }
  }
}
