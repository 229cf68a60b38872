/** The stripping pass as it runs: responses objects lose their error entries
    where they stand. */
module StripInPlace {
  import opened Json
  import opened JsonHeap
  import opened StripErrors
  import FixInt64
  import VisitInPlace

  function KeepSlots(slots: seq<Slot>): seq<Slot> {
    if slots == [] then []
    else if IsErrorCode(slots[0].key) then KeepSlots(slots[1..])
    else [slots[0]] + KeepSlots(slots[1..])
  }

  lemma {:induction false} KeepHolds(slots: seq<Slot>, kids: seq<Shape>, fields: seq<Field>) returns (kids': seq<Shape>)
    requires HoldFields(slots, kids, fields)
    ensures CellsOf(kids') <= CellsOf(kids)
    ensures HoldFields(KeepSlots(slots), kids', KeepSuccess(fields))
    ensures |slots| == |KeepSlots(slots)| + CountErrors(fields)
    decreases kids
  {
    if kids == [] {
      kids' := [];
    } else {
      var rest := KeepHolds(slots[1..], kids[1..], fields[1..]);
      if IsErrorCode(slots[0].key) {
        kids' := rest;
      } else {
        kids' := [kids[0]] + rest;
        assert kids'[1..] == rest;
        assert KeepSlots(slots)[1..] == KeepSlots(slots[1..]);
        assert KeepSuccess(fields)[1..] == KeepSuccess(fields[1..]);
      }
    }
  }

  /** The innermost loop: the entries that stay, and how many do not. */
  method KeepOrCount(slots: seq<Slot>) returns (kept: seq<Slot>, stripped: nat)
    ensures kept == KeepSlots(slots)
    ensures |kept| + stripped == |slots|
  {
    kept, stripped := [], 0;
    var rest := slots;
    while rest != []
      invariant kept + KeepSlots(rest) == KeepSlots(slots)
      invariant |kept| + stripped + |rest| == |slots|
      decreases |rest|
    {
      if IsErrorCode(rest[0].key) {
        stripped := stripped + 1;
      } else {
        kept := kept + [rest[0]];
      }
      rest := rest[1..];
    }
  }

  /** The value at one level of the nest, stripped in place. */
  method StripNode(level: Level, node: Ref, ghost s: Shape, ghost j: Json) returns (stripped: nat, ghost s': Shape)
    requires Holds(node, s, j)
    modifies Cells(s)
    ensures Cells(s') <= Cells(s) && Holds(node, s', Strip(level, j).json)
    ensures stripped == Strip(level, j).stripped
    decreases Size(j), 0
  {
    stripped, s' := 0, s;
    match node {
      case Scalar(_) =>
      case InArr(arr) =>
        if level.Paths? || level.PathItem? {
          ghost var kids;
          stripped, kids := StripItemNodes(Next(level), arr.items, s.kids, j.items);
          s' := ArrShape(kids);
        }
      case InObj(obj) =>
        ghost var kids;
        if level.Responses? {
          kids := KeepHolds(obj.fields, s.kids, j.fields);
          assert allocated(CellsOf(kids));
          var kept;
          kept, stripped := KeepOrCount(obj.fields);
          obj.fields := kept;
          ghost var keptHolds := HoldFields(kept, kids, KeepSuccess(j.fields));
          assert keptHolds;
        } else if level.Operation? {
          stripped, kids := StripNamedNode("responses", Responses, obj.fields, s.kids, j.fields);
        } else {
          stripped, kids := StripFieldNodes(Next(level), obj.fields, s.kids, j.fields);
        }
        s' := ObjShape(obj, kids);
    }
  }

  method StripItemNodes(level: Level, refs: seq<Ref>, ghost kids: seq<Shape>, ghost items: seq<Json>)
    returns (stripped: nat, ghost kids': seq<Shape>)
    requires HoldItems(refs, kids, items)
    modifies CellsOf(kids)
    ensures CellsOf(kids') <= CellsOf(kids)
    ensures HoldItems(refs, kids', StripItems(level, items).0) && stripped == StripItems(level, items).1
    decreases SizeOfItems(items), 1, |items|
  {
    if refs == [] {
      return 0, kids;
    }
    ghost var head, rest;
    var n, m;
    assert allocated(CellsOf(kids[1..]));
    n, head := StripNode(level, refs[0], kids[0], items[0]);
    assert allocated(Cells(head));
    ghost var tailHolds := HoldItems(refs[1..], kids[1..], items[1..]);
    assert tailHolds;
    m, rest := StripItemNodes(level, refs[1..], kids[1..], items[1..]);
    ghost var headHolds := Holds(refs[0], head, Strip(level, items[0]).json);
    assert headHolds;
    stripped, kids' := n + m, [head] + rest;
    assert kids'[1..] == rest;
    assert StripItems(level, items).0[1..] == StripItems(level, items[1..]).0;
  }

  method StripFieldNodes(level: Level, slots: seq<Slot>, ghost kids: seq<Shape>, ghost fields: seq<Field>)
    returns (stripped: nat, ghost kids': seq<Shape>)
    requires HoldFields(slots, kids, fields)
    modifies CellsOf(kids)
    ensures CellsOf(kids') <= CellsOf(kids)
    ensures HoldFields(slots, kids', StripFields(level, fields).0) && stripped == StripFields(level, fields).1
    decreases SizeOfFields(fields), 1, |fields|
  {
    if slots == [] {
      return 0, kids;
    }
    ghost var head, rest;
    var n, m;
    assert allocated(CellsOf(kids[1..]));
    n, head := StripNode(level, slots[0].ref, kids[0], fields[0].value);
    assert allocated(Cells(head));
    ghost var tailHolds := HoldFields(slots[1..], kids[1..], fields[1..]);
    assert tailHolds;
    m, rest := StripFieldNodes(level, slots[1..], kids[1..], fields[1..]);
    ghost var headHolds := Holds(slots[0].ref, head, Strip(level, fields[0].value).json);
    assert headHolds;
    stripped, kids' := n + m, [head] + rest;
    assert kids'[1..] == rest;
    assert StripFields(level, fields).0[1..] == StripFields(level, fields[1..]).0;
  }

  /** The cells below the first field called `key`. */
  ghost function NamedCells(key: string, slots: seq<Slot>, kids: seq<Shape>): (cells: set<ObjCell>)
    ensures cells <= CellsOf(kids)
  {
    if slots == [] || kids == [] then {}
    else if slots[0].key == key then Cells(kids[0])
    else NamedCells(key, slots[1..], kids[1..])
  }

  /** Strips below the first field called `key`, if there is one, and writes to
      no cell of any other field. */
  method StripNamedNode(key: string, level: Level, slots: seq<Slot>, ghost kids: seq<Shape>, ghost fields: seq<Field>)
    returns (stripped: nat, ghost kids': seq<Shape>)
    requires HoldFields(slots, kids, fields)
    modifies NamedCells(key, slots, kids)
    ensures CellsOf(kids') <= CellsOf(kids)
    ensures HoldFields(slots, kids', StripNamed(key, level, fields).0) && stripped == StripNamed(key, level, fields).1
    decreases SizeOfFields(fields), 1, |fields|
  {
    if slots == [] {
      return 0, kids;
    }
    assert allocated(CellsOf(kids[1..]));
    assert allocated(Cells(kids[0]));
    if slots[0].key == key {
      ghost var head;
      stripped, head := StripNode(level, slots[0].ref, kids[0], fields[0].value);
      ghost var tailHolds := HoldFields(slots[1..], kids[1..], fields[1..]);
      assert tailHolds;
      kids' := [head] + kids[1..];
      assert StripNamed(key, level, fields).0[1..] == fields[1..];
    } else {
      ghost var rest;
      stripped, rest := StripNamedNode(key, level, slots[1..], kids[1..], fields[1..]);
      ghost var headHolds := Holds(slots[0].ref, kids[0], fields[0].value);
      assert headHolds;
      kids' := [kids[0]] + rest;
      assert kids'[1..] == rest;
      assert StripNamed(key, level, fields).0[1..] == StripNamed(key, level, fields[1..]).0;
    }
  }

  /** The script: both passes over one document, in place. */
  method Process(document: Ref, ghost s: Shape, ghost j: Json) returns (changed: nat, stripped: nat, ghost s': Shape)
    requires Holds(document, s, j)
    modifies Cells(s)
    ensures Holds(document, s', StripDocument(FixInt64.Rewrite(j)).json)
    ensures changed == FixInt64.Changed(j)
    ensures stripped == StripDocument(FixInt64.Rewrite(j)).stripped
  {
    ghost var spec := FixInt64.Rewrite(j);
    changed, s' := VisitInPlace.Visit(document, s, j);
    stripped := 0;
    if document.InObj? {
      ghost var kids;
      stripped, kids := StripNamedNode("paths", Paths, document.obj.fields, s'.kids, spec.fields);
      s' := ObjShape(document.obj, kids);
    }
  }
}
