/** A parsed document as it lies in memory: a tree of mutable cells, none of them
    shared, that spells a JSON value. */
module JsonHeap {
  import opened Wrappers
  import opened Json

  class ArrCell {
    const items: seq<Ref>

    constructor (items: seq<Ref>)
      ensures this.items == items
    {
      this.items := items;
    }
  }

  class ObjCell {
    var fields: seq<Slot>

    constructor (fields: seq<Slot>)
      ensures this.fields == fields
    {
      this.fields := fields;
    }
  }

  datatype Ref = Scalar(value: Json) | InArr(arr: ArrCell) | InObj(obj: ObjCell)

  datatype Slot = Slot(key: string, ref: Ref)

  /** Which cells a value is made of. */
  datatype Shape = Flat | ArrShape(kids: seq<Shape>) | ObjShape(obj: ObjCell, kids: seq<Shape>)

  ghost function Cells(s: Shape): set<ObjCell> {
    match s
    case Flat => {}
    case ArrShape(kids) => CellsOf(kids)
    case ObjShape(obj, kids) => {obj} + CellsOf(kids)
  }

  ghost function CellsOf(kids: seq<Shape>): set<ObjCell> {
    if kids == [] then {} else Cells(kids[0]) + CellsOf(kids[1..])
  }

  /** `r` is a tree of the cells in `s`, no cell shared, that spells `j`. */
  ghost predicate Holds(r: Ref, s: Shape, j: Json)
    reads Cells(s)
    decreases s
  {
    match s
    case Flat => r == Scalar(j) && !j.Arr? && !j.Obj?
    case ArrShape(kids) => r.InArr? && j.Arr? && HoldItems(r.arr.items, kids, j.items)
    case ObjShape(obj, kids) =>
      r == InObj(obj) && j.Obj? && obj !in CellsOf(kids) && HoldFields(obj.fields, kids, j.fields)
  }

  ghost predicate HoldItems(refs: seq<Ref>, kids: seq<Shape>, items: seq<Json>)
    reads CellsOf(kids)
    decreases kids
  {
    if kids == [] then refs == [] && items == []
    else
      && refs != [] && items != []
      && Cells(kids[0]) !! CellsOf(kids[1..])
      && Holds(refs[0], kids[0], items[0])
      && HoldItems(refs[1..], kids[1..], items[1..])
  }

  ghost predicate HoldFields(slots: seq<Slot>, kids: seq<Shape>, fields: seq<Field>)
    reads CellsOf(kids)
    decreases kids
  {
    if kids == [] then slots == [] && fields == []
    else
      && slots != [] && fields != []
      && slots[0].key == fields[0].key
      && Cells(kids[0]) !! CellsOf(kids[1..])
      && Holds(slots[0].ref, kids[0], fields[0].value)
      && HoldFields(slots[1..], kids[1..], fields[1..])
  }

  function Find(slots: seq<Slot>, key: string): Option<Ref> {
    if slots == [] then None
    else if slots[0].key == key then Some(slots[0].ref)
    else Find(slots[1..], key)
  }

  function Put(slots: seq<Slot>, key: string, ref: Ref): seq<Slot> {
    if slots == [] then [Slot(key, ref)]
    else if slots[0].key == key then [Slot(key, ref)] + slots[1..]
    else [slots[0]] + Put(slots[1..], key, ref)
  }

  function Drop(slots: seq<Slot>, key: string): seq<Slot> {
    if slots == [] then []
    else if slots[0].key == key then Drop(slots[1..], key)
    else [slots[0]] + Drop(slots[1..], key)
  }

  /** Assigning a scalar keeps the tree, less the cells the old value had. */
  lemma {:induction false} PutHolds(slots: seq<Slot>, kids: seq<Shape>, fields: seq<Field>, key: string, v: string)
    returns (kids': seq<Shape>)
    requires HoldFields(slots, kids, fields)
    ensures CellsOf(kids') <= CellsOf(kids)
    ensures HoldFields(Put(slots, key, Scalar(Str(v))), kids', Assign(fields, key, Str(v)))
    decreases kids
  {
    var slot, field := Slot(key, Scalar(Str(v))), Field(key, Str(v));
    if kids == [] {
      kids' := [Flat];
    } else if slots[0].key == key {
      kids' := [Flat] + kids[1..];
      assert kids'[1..] == kids[1..];
      assert Put(slots, key, Scalar(Str(v)))[1..] == slots[1..];
      assert Assign(fields, key, Str(v))[1..] == fields[1..];
    } else {
      var rest := PutHolds(slots[1..], kids[1..], fields[1..], key, v);
      kids' := [kids[0]] + rest;
      assert kids'[1..] == rest;
      assert Put(slots, key, Scalar(Str(v)))[1..] == Put(slots[1..], key, Scalar(Str(v)));
      assert Assign(fields, key, Str(v))[1..] == Assign(fields[1..], key, Str(v));
    }
  }

  lemma {:induction false} DropHolds(slots: seq<Slot>, kids: seq<Shape>, fields: seq<Field>, key: string)
    returns (kids': seq<Shape>)
    requires HoldFields(slots, kids, fields)
    ensures CellsOf(kids') <= CellsOf(kids)
    ensures HoldFields(Drop(slots, key), kids', Delete(fields, key))
    decreases kids
  {
    if kids == [] {
      kids' := [];
    } else {
      var rest := DropHolds(slots[1..], kids[1..], fields[1..], key);
      if slots[0].key == key {
        kids' := rest;
      } else {
        kids' := [kids[0]] + rest;
        assert kids'[1..] == rest;
        assert Drop(slots, key)[1..] == Drop(slots[1..], key);
        assert Delete(fields, key)[1..] == Delete(fields[1..], key);
      }
    }
  }

  /** Every document can be laid out so, as parsing does, on cells of its own. */
  method Load(j: Json) returns (r: Ref, ghost s: Shape)
    ensures Holds(r, s, j)
    ensures fresh(Cells(s))
    decreases Size(j), 0
  {
    match j {
      case Arr(items) =>
        var refs;
        ghost var kids;
        refs, kids := LoadItems(items);
        assert allocated(CellsOf(kids));
        var arr := new ArrCell(refs);
        ghost var kept := HoldItems(refs, kids, items);
        assert kept;
        r, s := InArr(arr), ArrShape(kids);
      case Obj(fields) =>
        var slots;
        ghost var kids;
        slots, kids := LoadFields(fields);
        assert allocated(CellsOf(kids));
        var obj := new ObjCell(slots);
        ghost var kept := HoldFields(slots, kids, fields);
        assert kept;
        r, s := InObj(obj), ObjShape(obj, kids);
      case _ =>
        r, s := Scalar(j), Flat;
    }
  }

  method LoadItems(items: seq<Json>) returns (refs: seq<Ref>, ghost kids: seq<Shape>)
    ensures HoldItems(refs, kids, items)
    ensures fresh(CellsOf(kids))
    decreases SizeOfItems(items), 1, |items|
  {
    if items == [] {
      return [], [];
    }
    var ref;
    ghost var kid;
    ref, kid := Load(items[0]);
    assert allocated(Cells(kid));
    refs, kids := LoadItems(items[1..]);
    ghost var kept := Holds(ref, kid, items[0]);
    assert kept;
    refs, kids := [ref] + refs, [kid] + kids;
  }

  method LoadFields(fields: seq<Field>) returns (slots: seq<Slot>, ghost kids: seq<Shape>)
    ensures HoldFields(slots, kids, fields)
    ensures fresh(CellsOf(kids))
    decreases SizeOfFields(fields), 1, |fields|
  {
    if fields == [] {
      return [], [];
    }
    var ref;
    ghost var kid;
    ref, kid := Load(fields[0].value);
    assert allocated(Cells(kid));
    slots, kids := LoadFields(fields[1..]);
    ghost var kept := Holds(ref, kid, fields[0].value);
    assert kept;
    slots, kids := [Slot(fields[0].key, ref)] + slots, [kid] + kids;
  }
}
