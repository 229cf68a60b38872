/** Which elements of a list are kept, with their order. */
module Selections {

  predicate Ascending(positions: seq<nat>) {
    forall i, j :: 0 <= i < j < |positions| ==> positions[i] < positions[j]
  }

  /** `kept` holds the elements at `positions`, from left to right. */
  predicate Picks<T(==)>(kept: seq<T>, positions: seq<nat>, list: seq<T>) {
    && Ascending(positions)
    && |kept| == |positions|
    && forall j :: 0 <= j < |kept| ==> positions[j] < |list| && kept[j] == list[positions[j]]
  }

  /** `positions` are those of the elements to keep. */
  predicate Exactly<T>(positions: seq<nat>, list: seq<T>, keep: T -> bool) {
    forall i {:trigger list[i]} :: 0 <= i < |list| ==> (keep(list[i]) <==> i in positions)
  }

  /** `kept` is the elements to keep, in order and with their multiplicity. */
  ghost predicate KeptInOrder<T>(kept: seq<T>, list: seq<T>, keep: T -> bool) {
    exists positions: seq<nat> :: Picks(kept, positions, list) && Exactly(positions, list, keep)
  }

  lemma NothingKept<T>(keep: T -> bool)
    ensures KeptInOrder([], [], keep)
  {
    var none: seq<nat>, empty: seq<T> := [], [];
    assert Picks(empty, none, empty) && Exactly(none, empty, keep);
  }

  lemma PicksOneMore<T>(kept: seq<T>, positions: seq<nat>, list: seq<T>, last: T)
    requires Picks(kept, positions, list)
    ensures Picks(kept, positions, list + [last])
    ensures Picks(kept + [last], positions + [|list|], list + [last])
  {
  }

  lemma ExactlyOneMore<T>(kept: seq<T>, positions: seq<nat>, list: seq<T>, last: T, keep: T -> bool)
    requires Picks(kept, positions, list) && Exactly(positions, list, keep)
    ensures Exactly(if keep(last) then positions + [|list|] else positions, list + [last], keep)
  {
    var all := list + [last];
    var ps := if keep(last) then positions + [|list|] else positions;
    forall i {:trigger all[i]} | 0 <= i < |all| ensures keep(all[i]) <==> i in ps {
      if i < |list| {
        assert all[i] == list[i];
      } else {
        assert i !in positions;
      }
    }
  }

  lemma OneMoreKept<T>(kept: seq<T>, list: seq<T>, last: T, keep: T -> bool)
    requires KeptInOrder(kept, list, keep)
    ensures KeptInOrder(if keep(last) then kept + [last] else kept, list + [last], keep)
  {
    hide Picks, Exactly;
    var positions: seq<nat> :| Picks(kept, positions, list) && Exactly(positions, list, keep);
    PicksOneMore(kept, positions, list, last);
    ExactlyOneMore(kept, positions, list, last, keep);
  }
}
