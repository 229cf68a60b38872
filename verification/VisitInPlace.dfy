/** The int64 pass as it runs: every node is rewritten where it stands. */
module VisitInPlace {
  import opened Wrappers
  import opened Json
  import opened JsonHeap
  import opened FixInt64

  predicate HasInt64Format(slots: seq<Slot>) {
    match Find(slots, "format")
    case Some(Scalar(Str(f))) => f in INT64_FORMATS
    case _ => false
  }

  lemma {:induction false} FormatAgrees(slots: seq<Slot>, kids: seq<Shape>, fields: seq<Field>)
    requires HoldFields(slots, kids, fields)
    ensures HasInt64Format(slots) <==> IsInt64(fields)
    decreases kids
  {
    if kids != [] && slots[0].key != "format" {
      FormatAgrees(slots[1..], kids[1..], fields[1..]);
    }
  }

  /** The visit, in place: the same root afterwards spells the rewritten
      document, over no cells but its own. */
  method Visit(node: Ref, ghost s: Shape, ghost j: Json) returns (changed: nat, ghost s': Shape)
    requires Holds(node, s, j)
    modifies Cells(s)
    ensures Cells(s') <= Cells(s) && Holds(node, s', Rewrite(j))
    ensures changed == Changed(j)
    decreases Size(j), 0
  {
    match node {
      case Scalar(_) =>
        changed, s' := 0, s;
      case InArr(arr) =>
        ghost var kids;
        changed, kids := VisitItems(arr.items, s.kids, j.items);
        s' := ArrShape(kids);
      case InObj(obj) =>
        ghost var kids := s.kids;
        FormatAgrees(obj.fields, kids, j.fields);
        changed := 0;
        if HasInt64Format(obj.fields) {
          kids := PutHolds(obj.fields, kids, j.fields, "type", "string");
          kids := DropHolds(Put(obj.fields, "type", Scalar(Str("string"))), kids,
                            Assign(j.fields, "type", Str("string")), "format");
          obj.fields := Put(obj.fields, "type", Scalar(Str("string")));
          obj.fields := Drop(obj.fields, "format");
          changed := 1;
        }
        assert HoldFields(obj.fields, kids, Settled(j.fields));
        ghost var kids';
        var n;
        n, kids' := VisitFields(obj.fields, kids, Settled(j.fields));
        changed := changed + n;
        s' := ObjShape(obj, kids');
    }
  }

  method VisitItems(refs: seq<Ref>, ghost kids: seq<Shape>, ghost items: seq<Json>)
    returns (changed: nat, ghost kids': seq<Shape>)
    requires HoldItems(refs, kids, items)
    modifies CellsOf(kids)
    ensures CellsOf(kids') <= CellsOf(kids) && HoldItems(refs, kids', RewriteItems(items))
    ensures changed == ChangedItems(items)
    decreases SizeOfItems(items), 1, |items|
  {
    if refs == [] {
      return 0, kids;
    }
    ghost var head, rest;
    var n, m;
    assert allocated(CellsOf(kids[1..]));
    n, head := Visit(refs[0], kids[0], items[0]);
    assert allocated(Cells(head));
    ghost var tailHolds := HoldItems(refs[1..], kids[1..], items[1..]);
    assert tailHolds;
    m, rest := VisitItems(refs[1..], kids[1..], items[1..]);
    ghost var headHolds := Holds(refs[0], head, Rewrite(items[0]));
    assert headHolds;
    changed, kids' := n + m, [head] + rest;
    assert kids'[1..] == rest;
    assert RewriteItems(items)[1..] == RewriteItems(items[1..]);
  }

  method VisitFields(slots: seq<Slot>, ghost kids: seq<Shape>, ghost fields: seq<Field>)
    returns (changed: nat, ghost kids': seq<Shape>)
    requires HoldFields(slots, kids, fields)
    modifies CellsOf(kids)
    ensures CellsOf(kids') <= CellsOf(kids) && HoldFields(slots, kids', RewriteFields(fields))
    ensures changed == ChangedFields(fields)
    decreases SizeOfFields(fields), 1, |fields|
  {
    if slots == [] {
      return 0, kids;
    }
    ghost var head, rest;
    var n, m;
    assert allocated(CellsOf(kids[1..]));
    n, head := Visit(slots[0].ref, kids[0], fields[0].value);
    assert allocated(Cells(head));
    ghost var tailHolds := HoldFields(slots[1..], kids[1..], fields[1..]);
    assert tailHolds;
    m, rest := VisitFields(slots[1..], kids[1..], fields[1..]);
    ghost var headHolds := Holds(slots[0].ref, head, Rewrite(fields[0].value));
    assert headHolds;
    changed, kids' := n + m, [head] + rest;
    assert kids'[1..] == rest;
    assert RewriteFields(fields)[1..] == RewriteFields(fields[1..]);
  }
}
