/** Progressive paging over a cursor API: the memo chain of entry cursors and
    the request that walks, fetches and truncates it. */
module CursorPager {
  import opened Wrappers

  /** "" is the entry of page 1, and "no successor" in a response. */
  type Cursor = string

  datatype Page<T> = Page(items: seq<T>, next: Cursor)

  /** One query window: the serialized filters and the page size. */
  datatype Window = Window(filterKey: string, pageSize: int)

  type Backend<!T> = (Window, Cursor) -> Page<T>

  datatype Chain = Chain(cursors: seq<Cursor>, window: Window, ended: bool)

  datatype Shown = Shown(page: int, hasMore: bool, loaded: int)

  /** Everything the hook remembers between requests. `want` is the page ref. */
  datatype Table = Table(chain: Chain, want: int, shown: Shown)

  const FRESH: Table := Table(Chain([""], Window("", 0), false), 1, Shown(1, false, 0))

  /** The chain after the walking loop; `fetches` counts its backend calls, the
      last of which is the failed one if `failed`. */
  datatype Walked = Walked(chain: Chain, fetches: nat, failed: bool)

  /** `data` is None when the request threw. `walked` of the `fetches` were
      made by the walking loop. */
  datatype Turned<T> = Turned(table: Table, data: Option<seq<T>>, walked: nat, fetches: nat)

  function Enter(t: Table, w: Window): Table {
    if w != t.chain.window then Table(Chain([""], w, false), 1, t.shown) else t
  }

  /** The walking loop. `budget` backend calls succeed before one fails. */
  function Extend<T>(b: Backend<T>, c: Chain, want: int, budget: nat): (r: Walked)
    requires c.cursors != []
    ensures if r.failed then r.fetches == budget + 1
            else r.fetches <= budget && (r.chain.ended || |r.chain.cursors| >= want)
    ensures r.chain.cursors != []
    decreases budget, c.ended
  {
    if c.ended || |c.cursors| >= want then Walked(c, 0, false)
    else if budget == 0 then Walked(c, 1, true)
    else
      var next := b(c.window, c.cursors[|c.cursors| - 1]).next;
      var c' := if next != "" then c.(cursors := c.cursors + [next]) else c.(ended := true);
      var r := Extend(b, c', want, budget - 1);
      r.(fetches := r.fetches + 1)
  }

  /** What a fetched page does to the chain. */
  function Fetched<T>(b: Backend<T>, c: Chain, want: int): Chain
    requires 1 <= want <= |c.cursors|
  {
    var next := b(c.window, c.cursors[want - 1]).next;
    if next == "" then Chain(c.cursors[..want], c.window, true)
    else Chain(if |c.cursors| == want then c.cursors + [next] else c.cursors, c.window, false)
  }

  function Turn<T>(b: Backend<T>, t0: Table, w: Window, budget: nat): Turned<T>
    requires t0.chain.cursors != [] && t0.want >= 1
  {
    var t := Enter(t0, w);
    assert t.chain.window == w;
    var k := Extend(b, t.chain, t.want, budget);
    var c := k.chain;
    if k.failed then Turned(t.(chain := c), None, k.fetches, k.fetches)
    else if |c.cursors| < t.want then
      Turned(Table(c, t.want, Shown(t.want, false, (t.want - 1) * w.pageSize)), Some([]), k.fetches, k.fetches)
    else if k.fetches == budget then Turned(t.(chain := c), None, k.fetches, k.fetches + 1)
    else
      var resp := b(w, c.cursors[t.want - 1]);
      Turned(
        Table(Fetched(b, c, t.want), t.want, Shown(t.want, resp.next != "", (t.want - 1) * w.pageSize + |resp.items|)),
        Some(resp.items), k.fetches, k.fetches + 1)
  }

  class CursorTable<T> {
    var cursors: seq<Cursor>
    var filterKey: string
    var pageSize: int
    var ended: bool
    var page: int
    var shown: Shown

    constructor ()
      ensures Contents() == FRESH
    {
      cursors, filterKey, pageSize, ended := [""], "", 0, false;
      page := 1;
      shown := Shown(1, false, 0);
    }

    function Contents(): Table
      reads this
    {
      Table(Chain(cursors, Window(filterKey, pageSize), ended), page, shown)
    }

    method Go(page: int)
      modifies this
      ensures Contents() == old(Contents()).(want := page)
    {
      this.page := page;
    }

    function ChainNow(): Chain
      reads this
    {
      Chain(cursors, Window(filterKey, pageSize), ended)
    }

    /** Walks the chain forward until page `want` has an entry cursor. */
    method WalkTo(b: Backend<T>, want: int, budget: nat) returns (fetches: nat, failed: bool)
      requires cursors != []
      modifies this`cursors, this`ended
      ensures Walked(ChainNow(), fetches, failed) == Extend(b, old(ChainNow()), want, budget)
    {
      ghost var whole := Extend(b, ChainNow(), want, budget);
      var w := Window(filterKey, pageSize);
      fetches, failed := 0, false;
      while !ended && |cursors| < want
        invariant fetches <= budget && cursors != [] && !failed && ChainNow().window == w
        invariant var rest := Extend(b, ChainNow(), want, budget - fetches);
                  whole == rest.(fetches := fetches + rest.fetches)
        decreases budget - fetches, !ended
      {
        if fetches == budget {
          return fetches + 1, true;
        }
        fetches := fetches + 1;
        var next := b(w, cursors[|cursors| - 1]).next;
        if next != "" {
          cursors := cursors + [next];
        } else {
          ended := true;
        }
      }
    }

    /** One table request; `budget` backend calls succeed before one fails. */
    method Request(b: Backend<T>, w: Window, budget: nat) returns (data: Option<seq<T>>, walked: nat, fetches: nat)
      requires cursors != [] && page >= 1
      modifies this
      ensures Turned(Contents(), data, walked, fetches) == Turn(b, old(Contents()), w, budget)
      ensures data.Some? && fetches > walked ==>
                if shown.hasMore then !ended && shown.page < |cursors| else ended && shown.page == |cursors|
      ensures data.Some? && fetches == 1 && walked == 0 && w == old(ChainNow()).window ==>
                if !shown.hasMore then cursors == old(cursors)[..shown.page]
                else old(cursors) <= cursors && |cursors| <= |old(cursors)| + 1
    {
      if w.filterKey != filterKey || w.pageSize != pageSize {
        cursors := [""];
        filterKey := w.filterKey;
        pageSize := w.pageSize;
        ended := false;
        page := 1;
      }
      assert Contents() == Enter(old(Contents()), w);
      var want := page;
      var failed;
      walked, failed := WalkTo(b, want, budget);
      if failed {
        return None, walked, walked;
      }
      fetches := walked;
      var items := [];
      var hasMore := false;
      if want - 1 < |cursors| {
        if fetches == budget {
          return None, walked, fetches + 1;
        }
        fetches := fetches + 1;
        var resp := b(w, cursors[want - 1]);
        items := resp.items;
        if resp.next != "" {
          if |cursors| == want {
            cursors := cursors + [resp.next];
          }
          ended := false;
          hasMore := true;
        } else {
          ended := true;
          cursors := cursors[..want];
        }
      }
      shown := Shown(want, hasMore, (want - 1) * w.pageSize + |items|);
      data := Some(items);
    }

    /** A button, a reload or a new query; a disabled button does nothing. */
    method Press(b: Backend<T>, action: Action, budget: nat)
      returns (data: Option<seq<T>>, walked: nat, fetches: nat)
      requires Usable(Contents())
      modifies this
      ensures if Presses(old(Contents()), action)
              then Turned(Contents(), data, walked, fetches) == Act(b, old(Contents()), Step(action, budget))
              else Contents() == old(Contents()) && data == None && walked == fetches == 0
      ensures var disabled := match action
                case Next => !old(shown).hasMore
                case First => old(shown).page <= 1
                case Previous => old(shown).page <= 1
                case _ => false;
              if disabled then Contents() == old(Contents()) && data == None && fetches == 0
              else data.Some? || fetches == budget + 1
      ensures data.None? ==> shown == old(shown)
      ensures data.Some? ==>
                match action
                case First => shown.page == 1
                case Previous => shown.page == old(shown).page - 1
                case Next => shown.page == old(shown).page + 1
                case Reload => shown.page == old(page)
                case Query(w) => shown.page == if w == old(ChainNow()).window then old(page) else 1
      ensures match action
              case Query(w) => ChainNow().window == w
              case _ => ChainNow().window == old(ChainNow()).window
      ensures Agrees(b, old(ChainNow())) ==>
                && Agrees(b, ChainNow())
                && (data.Some? ==> shown.page >= 1 && data.value == PageItems(b, ChainNow().window, shown.page))
    {
      if !Presses(Contents(), action) {
        return None, 0, 0;
      }
      var w := WindowOf(Contents(), action);
      ghost var t := Contents().(want := Wanted(Contents(), action));
      PressShows(b, t, w, budget);
      hide Agrees, Extend, Turn, PageItems, Entry;
      match action {
        case First => Go(1);
        case Previous => Go(shown.page - 1);
        case Next => Go(shown.page + 1);
        case _ =>
      }
      data, walked, fetches := Request(b, w, budget);
    }
  }

  // ----- the chain against the backend -----

  /** The entry cursor of page n + 1: n successor steps from the start. */
  function Entry<T>(b: Backend<T>, w: Window, n: nat): Option<Cursor> {
    if n == 0 then Some("")
    else
      match Entry(b, w, n - 1)
      case None => None
      case Some(c) => if b(w, c).next == "" then None else Some(b(w, c).next)
  }

  /** What page `n` holds by walking from the start; nothing past the end. */
  function PageItems<T>(b: Backend<T>, w: Window, n: int): seq<T>
    requires n >= 1
  {
    match Entry(b, w, n - 1) case Some(c) => b(w, c).items case None => []
  }

  /** `cursors[i]` is i successor steps from the start, and a chain marked
      ended has no successor. An unmarked chain may still be at the end. */
  ghost predicate Agrees<T>(b: Backend<T>, c: Chain) {
    && c.cursors != []
    && (forall i: nat {:trigger c.cursors[i]} :: i < |c.cursors| ==> Entry(b, c.window, i) == Some(c.cursors[i]))
    && (c.ended ==> Entry(b, c.window, |c.cursors|) == None)
  }

  lemma {:induction false} PastTheEnd<T>(b: Backend<T>, w: Window, m: nat, n: nat)
    requires m <= n && Entry(b, w, m) == None
    ensures Entry(b, w, n) == None
    decreases n
  {
    if m < n {
      PastTheEnd(b, w, m, n - 1);
    }
  }

  /** The loop keeps the agreement and stops within `want` iterations. */
  lemma {:induction false} ExtendAgrees<T>(b: Backend<T>, c: Chain, want: int, budget: nat)
    requires Agrees(b, c)
    ensures c.cursors != []
    ensures var r := Extend(b, c, want, budget);
            && Agrees(b, r.chain)
            && r.chain.window == c.window
            && r.fetches <= (if c.ended || |c.cursors| >= want then 0 else want - |c.cursors|)
            && (r.fetches == 0 ==> r.chain == c)
            && (r.fetches == 0 <==> c.ended || |c.cursors| >= want)
    decreases budget, c.ended
  {
    if !c.ended && |c.cursors| < want && budget > 0 {
      var n := |c.cursors|;
      assert Entry(b, c.window, n - 1) == Some(c.cursors[n - 1]);
      var next := b(c.window, c.cursors[n - 1]).next;
      var c' := if next != "" then c.(cursors := c.cursors + [next]) else c.(ended := true);
      ExtendAgrees(b, c', want, budget - 1);
    }
  }

  lemma FreshAgrees<T>(b: Backend<T>, w: Window)
    ensures Agrees(b, Chain([""], w, false))
  {
  }

  /** A request keeps the agreement; when it returns, it returns exactly what
      walking from page 1 would, and it costs at most `want` backend calls. */
  lemma TurnAgrees<T>(b: Backend<T>, t: Table, w: Window, budget: nat)
    requires Agrees(b, t.chain) && t.want >= 1
    ensures var want := Enter(t, w).want;
            var r := Turn(b, t, w, budget);
            && Agrees(b, r.table.chain) && r.table.chain.window == w && r.table.want == want
            && r.fetches <= want
            && (r.data.Some? ==>
                  && r.data.value == PageItems(b, w, want)
                  && r.table.shown == Shown(want, Entry(b, w, want).Some?, (want - 1) * w.pageSize + |r.data.value|))
            && (r.data.None? ==> r.table.shown == t.shown)
            && (r.data.None? <==> r.fetches == budget + 1)
  {
    hide Extend, Entry, Agrees, Fetched, PageItems;
    var t1 := Enter(t, w);
    FreshAgrees(b, w);
    ExtendAgrees(b, t1.chain, t1.want, budget);
    var k := Extend(b, t1.chain, t1.want, budget);
    if !k.failed {
      if |k.chain.cursors| < t1.want {
        EndedIsPast(b, k.chain, t1.want);
      } else {
        FetchedEntry(b, k.chain, t1.want);
        FetchAgrees(b, k.chain, t1.want);
      }
    }
  }

  /** What a request leaves on display, from any chain at all. */
  lemma PressShows<T>(b: Backend<T>, t: Table, w: Window, budget: nat)
    requires t.chain.cursors != [] && t.want >= 1
    ensures var r := Turn(b, t, w, budget);
            && r.table.chain.window == w
            && (r.data.None? ==> r.table.shown == t.shown && r.fetches == budget + 1)
            && (r.data.Some? ==> r.table.shown.page == if w == t.chain.window then t.want else 1)
            && (Agrees(b, t.chain) ==>
                  && Agrees(b, r.table.chain)
                  && (r.data.Some? ==> r.data.value == PageItems(b, w, r.table.shown.page)))
  {
    ExtendKeepsWindow(b, Enter(t, w).chain, Enter(t, w).want, budget);
    if Agrees(b, t.chain) {
      TurnAgrees(b, t, w, budget);
    }
  }

  lemma {:induction false} ExtendKeepsWindow<T>(b: Backend<T>, c: Chain, want: int, budget: nat)
    requires c.cursors != []
    ensures Extend(b, c, want, budget).chain.window == c.window
    decreases budget, c.ended
  {
    if !c.ended && |c.cursors| < want && budget > 0 {
      var next := b(c.window, c.cursors[|c.cursors| - 1]).next;
      var c' := if next != "" then c.(cursors := c.cursors + [next]) else c.(ended := true);
      ExtendKeepsWindow(b, c', want, budget - 1);
    }
  }

  lemma EndedIsPast<T>(b: Backend<T>, c: Chain, want: int)
    requires Agrees(b, c) && c.ended && |c.cursors| < want
    ensures PageItems(b, c.window, want) == [] && Entry(b, c.window, want) == None
  {
    PastTheEnd(b, c.window, |c.cursors|, want - 1);
    PastTheEnd(b, c.window, |c.cursors|, want);
  }

  /** The fetched page is the one a walk reaches, and it has a successor exactly
      when the response names one. */
  lemma FetchedEntry<T>(b: Backend<T>, c: Chain, want: int)
    requires Agrees(b, c) && 1 <= want <= |c.cursors|
    ensures Entry(b, c.window, want - 1) == Some(c.cursors[want - 1])
    ensures PageItems(b, c.window, want) == b(c.window, c.cursors[want - 1]).items
    ensures var next := b(c.window, c.cursors[want - 1]).next;
            Entry(b, c.window, want) == if next == "" then None else Some(next)
  {
    assert Entry(b, c.window, want - 1) == Some(c.cursors[want - 1]);
  }

  lemma FetchAgrees<T>(b: Backend<T>, c: Chain, want: int)
    requires Agrees(b, c) && 1 <= want <= |c.cursors|
    ensures Agrees(b, Fetched(b, c, want)) && Fetched(b, c, want).window == c.window
  {
    hide Entry;
    FetchedEntry(b, c, want);
    var c' := Fetched(b, c, want);
    forall i: nat | i < |c'.cursors|
      ensures Entry(b, c'.window, i) == Some(c'.cursors[i])
    {
      if i < |c.cursors| {
        assert c'.cursors[i] == c.cursors[i];
      }
    }
  }

  // ----- runs: buttons, reloads and queries, one request at a time -----

  datatype Action = First | Previous | Next | Reload | Query(window: Window)

  datatype Step = Step(action: Action, budget: nat)

  /** A disabled button does nothing. */
  predicate Presses(t: Table, a: Action) {
    match a
    case First => t.shown.page > 1
    case Previous => t.shown.page > 1
    case Next => t.shown.hasMore
    case _ => true
  }

  function Wanted(t: Table, a: Action): int {
    match a
    case First => 1
    case Previous => t.shown.page - 1
    case Next => t.shown.page + 1
    case _ => t.want
  }

  function WindowOf(t: Table, a: Action): Window {
    if a.Query? then a.window else t.chain.window
  }

  predicate Usable(t: Table) {
    t.chain.cursors != [] && t.want >= 1 && t.shown.page >= 1
  }

  function Act<T>(b: Backend<T>, t: Table, step: Step): Turned<T>
    requires Usable(t) && Presses(t, step.action)
  {
    Turn(b, t.(want := Wanted(t, step.action)), WindowOf(t, step.action), step.budget)
  }

  /** `stale`: the window was reset and no page of it has been fetched since, so
      the page on display is one of an earlier window or past the end. */
  datatype Run = Run(table: Table, stale: bool)

  function Follow<T>(b: Backend<T>, r: Run, step: Step): Run
    requires Usable(r.table)
  {
    if !Presses(r.table, step.action) then r
    else
      var turned := Act(b, r.table, step);
      var fetched := turned.data.Some? && turned.fetches > turned.walked;
      Run(turned.table, !fetched && (r.stale || WindowOf(r.table, step.action) != r.table.chain.window))
  }

  /** In a window whose display is its own, every page a button can ask for
      has its entry cursor. */
  ghost predicate Kept<T>(b: Backend<T>, r: Run) {
    && Agrees(b, r.table.chain)
    && Usable(r.table)
    && (!r.stale ==>
          && r.table.want <= |r.table.chain.cursors|
          && r.table.shown.page + (if r.table.shown.hasMore then 1 else 0) <= |r.table.chain.cursors|)
  }

  lemma FollowKeeps<T>(b: Backend<T>, r: Run, step: Step)
    requires Kept(b, r)
    ensures Kept(b, Follow(b, r, step))
  {
    if Presses(r.table, step.action) {
      var t := r.table.(want := Wanted(r.table, step.action));
      var w := WindowOf(r.table, step.action);
      TurnAgrees(b, t, w, step.budget);
      if !r.stale || Enter(t, w).want <= |Enter(t, w).chain.cursors| {
        SuccessCoversDisplay(b, t, w, step.budget);
      } else {
        FetchCoversDisplay(b, t, w, step.budget);
      }
    }
  }

  /** A fetched page leaves a chain that covers what it shows. */
  lemma FetchCoversDisplay<T>(b: Backend<T>, t: Table, w: Window, budget: nat)
    requires Agrees(b, t.chain) && t.want >= 1
    ensures var r := Turn(b, t, w, budget);
            r.data.Some? && r.fetches > r.walked ==>
              && r.table.want <= |r.table.chain.cursors|
              && r.table.want + (if r.table.shown.hasMore then 1 else 0) <= |r.table.chain.cursors|
  {
    ExtendAgrees(b, Enter(t, w).chain, Enter(t, w).want, budget);
  }

  lemma SuccessCoversDisplay<T>(b: Backend<T>, t: Table, w: Window, budget: nat)
    requires Agrees(b, t.chain) && t.want >= 1
    requires Enter(t, w).want <= |Enter(t, w).chain.cursors|
    ensures var r := Turn(b, t, w, budget);
            && r.walked == 0
            && r.fetches == 1
            && r.table.want <= |r.table.chain.cursors|
            && (r.data.None? ==> r.table.chain == Enter(t, w).chain)
            && (r.data.Some? ==> r.table.want + (if r.table.shown.hasMore then 1 else 0) <= |r.table.chain.cursors|)
  {
  }

  function RunOf<T>(b: Backend<T>, steps: seq<Step>): Option<Run> {
    if steps == [] then Some(Run(FRESH, false))
    else
      match RunOf(b, steps[..|steps| - 1])
      case None => None
      case Some(r) => if Usable(r.table) then Some(Follow(b, r, steps[|steps| - 1])) else None
  }

  lemma {:induction false} EveryRunKeeps<T>(b: Backend<T>, steps: seq<Step>)
    ensures RunOf(b, steps).Some? && Kept(b, RunOf(b, steps).value)
  {
    if steps != [] {
      EveryRunKeeps(b, steps[..|steps| - 1]);
      FollowKeeps(b, RunOf(b, steps[..|steps| - 1]).value, steps[|steps| - 1]);
    }
  }

  /** After any serial run, whatever is pressed next returns what a walk from
      page 1 returns; while the display is not stale it costs one fetch and the
      walking loop does not run. */
  lemma EveryPageIsAFreshWalk<T>(b: Backend<T>, steps: seq<Step>, next: Step)
    ensures RunOf(b, steps).Some? && Kept(b, RunOf(b, steps).value)
    ensures var r := RunOf(b, steps).value;
            var t := r.table.(want := Wanted(r.table, next.action));
            var w := WindowOf(r.table, next.action);
            Presses(r.table, next.action) ==>
              var turned := Act(b, r.table, next);
              && (turned.data.Some? ==> turned.data.value == PageItems(b, w, Enter(t, w).want))
              && turned.fetches <= Enter(t, w).want
              && (!r.stale ==> turned.walked == 0 && turned.fetches == 1)
  {
    EveryRunKeeps(b, steps);
    var r := RunOf(b, steps).value;
    if Presses(r.table, next.action) {
      var t := r.table.(want := Wanted(r.table, next.action));
      var w := WindowOf(r.table, next.action);
      TurnAgrees(b, t, w, next.budget);
      if !r.stale {
        SuccessCoversDisplay(b, t, w, next.budget);
      }
    }
  }

  // ----- where the display and the chain part ways -----

  /** A first query succeeds on a page with a successor, a second query resets
      the window and fails: the display still offers the first window's next
      page. Pressing it makes the loop walk, and if the new window has a single
      page, shows an empty page 2 with a full page counted as loaded, which is
      false exactly when that page is not full. */
  lemma FailedQueryLeavesAStaleDisplay<T>(b: Backend<T>, w1: Window, w2: Window, budget: nat)
    requires w1 != w2 && w1 != FRESH.chain.window
    requires b(w1, "").next != "" && budget > 0
    ensures var r := RunOf(b, [Step(Query(w1), 1)] + [Step(Query(w2), 0)]);
            && r.Some? && r.value.stale && Presses(r.value.table, Next)
            && var turned := Act(b, r.value.table, Step(Next, budget));
               && turned.walked > 0
               && (b(w2, "").next == "" ==>
                     && turned.data == Some([]) && turned.table.shown == Shown(2, false, w2.pageSize)
                     && (turned.table.shown.loaded == |b(w2, "").items| <==> |b(w2, "").items| == w2.pageSize))
  {
    var one := [Step(Query(w1), 1)];
    assert one[..0] == [];
    var r1 := Follow(b, Run(FRESH, false), Step(Query(w1), 1));
    assert RunOf(b, one) == Some(r1);
    assert r1.table.shown.page == 1 && r1.table.shown.hasMore;
    var two := one + [Step(Query(w2), 0)];
    assert two[..1] == one;
    var r2 := Follow(b, r1, Step(Query(w2), 0));
    assert RunOf(b, two) == Some(r2);
    assert r2.table == Table(Chain([""], w2, false), 1, r1.table.shown);
    assert r2.table.chain.window == w2 && Wanted(r2.table, Next) == 2;
    if b(w2, "").next == "" {
      var ended := Chain([""], w2, true);
      assert Extend(b, ended, 2, budget - 1) == Walked(ended, 0, false);
      assert Extend(b, Chain([""], w2, false), 2, budget) == Walked(ended, 1, false);
    }
  }

  /** The window the last query asked for. */
  function WindowAfter(steps: seq<Step>): Window {
    if steps == [] then FRESH.chain.window
    else
      var step := steps[|steps| - 1];
      if step.action.Query? then step.action.window else WindowAfter(steps[..|steps| - 1])
  }

  /** Every query for another window than the one before got its page. */
  predicate ResetsAnswered(steps: seq<Step>) {
    forall k :: 0 <= k < |steps| ==> ResetAnswered(steps[..k], steps[k])
  }

  predicate ResetAnswered(before: seq<Step>, step: Step) {
    step.action.Query? && step.action.window != WindowAfter(before) ==> step.budget >= 1
  }

  predicate NeverStale<T>(b: Backend<T>, steps: seq<Step>) {
    forall k {:trigger steps[..k]} :: 0 <= k <= |steps| ==>
      RunOf(b, steps[..k]).Some? && !RunOf(b, steps[..k]).value.stale
  }

  lemma {:induction false} WindowOfRun<T>(b: Backend<T>, steps: seq<Step>)
    ensures RunOf(b, steps).Some? && RunOf(b, steps).value.table.chain.window == WindowAfter(steps)
  {
    EveryRunKeeps(b, steps);
    if steps != [] {
      var front := steps[..|steps| - 1];
      WindowOfRun(b, front);
      EveryRunKeeps(b, front);
      var r := RunOf(b, front).value;
      var step := steps[|steps| - 1];
      if Presses(r.table, step.action) {
        TurnAgrees(b, r.table.(want := Wanted(r.table, step.action)), WindowOf(r.table, step.action), step.budget);
      }
    }
  }

  /** One step makes a display stale exactly by a reset that fails. */
  lemma BecomesStale<T>(b: Backend<T>, r: Run, step: Step)
    requires Kept(b, r) && !r.stale
    ensures Follow(b, r, step).stale
            <==> step.action.Query? && step.action.window != r.table.chain.window && step.budget == 0
  {
  }

  lemma ByLastStep<T>(b: Backend<T>, steps: seq<Step>)
    requires steps != []
    ensures var front := steps[..|steps| - 1];
            && RunOf(b, steps).Some?
            && (NeverStale(b, steps) <==> NeverStale(b, front) && !RunOf(b, steps).value.stale)
            && (ResetsAnswered(steps) <==> ResetsAnswered(front) && ResetAnswered(front, steps[|steps| - 1]))
  {
    hide RunOf, Kept, ResetAnswered;
    var front := steps[..|steps| - 1];
    assert forall k :: 0 <= k < |steps| ==> front[..k] == steps[..k];
    assert steps[..|steps|] == steps;
    EveryRunKeeps(b, steps);
    if NeverStale(b, front) && !RunOf(b, steps).value.stale {
      forall k | 0 <= k <= |steps|
        ensures RunOf(b, steps[..k]).Some? && !RunOf(b, steps[..k]).value.stale
      {
        if k < |steps| {
          assert front[..k] == steps[..k];
        }
      }
    }
    if NeverStale(b, steps) {
      forall k | 0 <= k <= |front|
        ensures RunOf(b, front[..k]).Some? && !RunOf(b, front[..k]).value.stale
      {
        assert front[..k] == steps[..k];
      }
    }
  }

  /** No point of a run leaves a reset window without a fetched page exactly when
      every query that changed the window was answered. */
  lemma {:induction false} StaleExactlyByFailedResets<T>(b: Backend<T>, steps: seq<Step>)
    ensures NeverStale(b, steps) <==> ResetsAnswered(steps)
  {
    hide Kept;
    if steps == [] {
      assert forall k :: 0 <= k <= |steps| ==> steps[..k] == [];
    } else {
      LastStepDecides(b, steps);
      StaleExactlyByFailedResets(b, steps[..|steps| - 1]);
    }
  }

  lemma LastStepDecides<T>(b: Backend<T>, steps: seq<Step>)
    requires steps != []
    ensures var front := steps[..|steps| - 1];
            && (NeverStale(b, steps) ==> NeverStale(b, front))
            && (ResetsAnswered(steps) ==> ResetsAnswered(front))
            && (NeverStale(b, front) && ResetsAnswered(front) ==> (NeverStale(b, steps) <==> ResetsAnswered(steps)))
  {
    hide NeverStale, ResetsAnswered, Kept, Follow;
    var front := steps[..|steps| - 1];
    ByLastStep(b, steps);
    if NeverStale(b, front) {
      NotStaleNow(b, front);
      EveryRunKeeps(b, front);
      WindowOfRun(b, front);
      BecomesStale(b, RunOf(b, front).value, steps[|steps| - 1]);
    }
  }

  lemma NotStaleNow<T>(b: Backend<T>, steps: seq<Step>)
    requires NeverStale(b, steps)
    ensures RunOf(b, steps).Some? && !RunOf(b, steps).value.stale
  {
    assert steps[..|steps|] == steps;
  }

  /** After any serial run, whatever is pressed next makes the loop walk exactly
      when it asks for a page beyond a chain not known to have ended. In a run
      whose window changes were all answered that never happens: one fetch, no
      walking. */
  lemma WalksOnlyPastTheChain<T>(b: Backend<T>, steps: seq<Step>, next: Step)
    ensures RunOf(b, steps).Some? && Usable(RunOf(b, steps).value.table)
    ensures var r := RunOf(b, steps).value;
            var t := Enter(r.table.(want := Wanted(r.table, next.action)), WindowOf(r.table, next.action));
            Presses(r.table, next.action) ==>
              var turned := Act(b, r.table, next);
              && (turned.walked > 0 <==> !t.chain.ended && |t.chain.cursors| < t.want)
              && (ResetsAnswered(steps) ==> turned.walked == 0 && turned.fetches == 1)
  {
    hide Agrees;
    EveryRunKeeps(b, steps);
    var r := RunOf(b, steps).value;
    if Presses(r.table, next.action) {
      WalkedWhen(b, r.table.(want := Wanted(r.table, next.action)), WindowOf(r.table, next.action), next.budget);
      if ResetsAnswered(steps) {
        StaleExactlyByFailedResets(b, steps);
        NotStaleNow(b, steps);
        EveryPageIsAFreshWalk(b, steps, next);
      }
    }
  }

  lemma WalkedWhen<T>(b: Backend<T>, t: Table, w: Window, budget: nat)
    requires Agrees(b, t.chain) && t.want >= 1
    ensures var t' := Enter(t, w);
            Turn(b, t, w, budget).walked > 0 <==> !t'.chain.ended && |t'.chain.cursors| < t'.want
  {
    FreshAgrees(b, w);
    ExtendAgrees(b, Enter(t, w).chain, Enter(t, w).want, budget);
  }

  // ----- a backend that pages one list -----

  function Min(x: int, y: int): int {
    if x <= y then x else y
  }

  /** The list position `n` full pages in. */
  function Offset(w: Window, n: nat): (at: nat)
    requires w.pageSize >= 1
    ensures n == 0 || at >= 1
  {
    if n == 0 then 0 else Offset(w, n - 1) + w.pageSize
  }

  lemma {:induction false} OffsetIsProduct(w: Window, n: nat)
    requires w.pageSize >= 1
    ensures Offset(w, n) == n * w.pageSize
  {
    if n > 0 {
      OffsetIsProduct(w, n - 1);
      assert n * w.pageSize == (n - 1) * w.pageSize + w.pageSize;
    }
  }

  /** The backend serves `list` in full pages: page n + 1 starts at n pages and
      has a successor exactly when the list goes on after it. */
  ghost predicate PagesList<T>(b: Backend<T>, w: Window, list: seq<T>) {
    && w.pageSize >= 1
    && forall n: nat, c {:trigger ServedAt(b, w, list, n, c)} ::
         Entry(b, w, n) == Some(c) ==> ServedAt(b, w, list, n, c)
  }

  ghost predicate ServedAt<T>(b: Backend<T>, w: Window, list: seq<T>, n: nat, c: Cursor)
    requires w.pageSize >= 1
  {
    var at := Offset(w, n);
    && at <= |list|
    && b(w, c).items == list[at..Min(at + w.pageSize, |list|)]
    && (b(w, c).next != "" <==> at + w.pageSize < |list|)
  }

  /** Pages 1 to n, end to end. */
  function FirstPages<T>(b: Backend<T>, w: Window, n: nat): seq<T> {
    if n == 0 then [] else FirstPages(b, w, n - 1) + PageItems(b, w, n)
  }

  lemma {:induction false} PageExists<T>(b: Backend<T>, w: Window, list: seq<T>, n: nat)
    requires PagesList(b, w, list)
    ensures Entry(b, w, n).Some? <==> n == 0 || Offset(w, n) < |list|
    ensures Entry(b, w, n).Some? ==> ServedAt(b, w, list, n, Entry(b, w, n).value)
  {
    if n > 0 {
      PageExists(b, w, list, n - 1);
    }
    if Entry(b, w, n).Some? {
      assert ServedAt(b, w, list, n, Entry(b, w, n).value);
    }
  }

  lemma {:induction false} FirstPagesArePrefix<T>(b: Backend<T>, w: Window, list: seq<T>, n: nat)
    requires PagesList(b, w, list)
    ensures FirstPages(b, w, n) == list[..Min(Offset(w, n), |list|)]
  {
    if n > 0 {
      FirstPagesArePrefix(b, w, list, n - 1);
      PageExists(b, w, list, n - 1);
    }
  }

  /** Page `n` is there, or the one before it is and is full. */
  predicate NotPastTheEnd<T>(b: Backend<T>, w: Window, n: int)
    requires n >= 1
  {
    || Entry(b, w, n - 1).Some?
    || (n >= 2 && Entry(b, w, n - 2).Some? && |PageItems(b, w, n - 1)| == w.pageSize)
  }

  lemma PastTheEndByOffset<T>(b: Backend<T>, w: Window, list: seq<T>, n: int)
    requires PagesList(b, w, list) && n >= 1
    ensures NotPastTheEnd(b, w, n) <==> Offset(w, n - 1) <= |list|
  {
    PageExists(b, w, list, n - 1);
    if n >= 2 {
      PageExists(b, w, list, n - 2);
      PageLength(b, w, list, n - 2);
    }
  }

  /** Whatever page a returned request shows: the pages up to it are a prefix of
      the list, "next" is offered exactly when that prefix is proper, and the
      loaded count is its length exactly when the page does not start past the
      end of the list, as its predecessor's length tells. */
  lemma DisplayMeasuresTheList<T>(b: Backend<T>, t: Table, w: Window, budget: nat, list: seq<T>)
    requires PagesList(b, w, list) && Agrees(b, t.chain) && t.want >= 1
    requires Turn(b, t, w, budget).data.Some?
    ensures var shown := Turn(b, t, w, budget).table.shown;
            && shown.page >= 1
            && FirstPages(b, w, shown.page) <= list
            && (shown.hasMore <==> |FirstPages(b, w, shown.page)| < |list|)
            && (shown.loaded == |FirstPages(b, w, shown.page)| <==> (shown.page - 1) * w.pageSize <= |list|)
            && (shown.loaded == |FirstPages(b, w, shown.page)| <==> NotPastTheEnd(b, w, shown.page))
  {
    TurnAgrees(b, t, w, budget);
    var n := Enter(t, w).want;
    FirstPagesArePrefix(b, w, list, n);
    HasMoreMeasuresTheList(b, w, list, n);
    LoadedMeasuresTheList(b, w, list, n);
    OffsetIsProduct(w, n - 1);
    PastTheEndByOffset(b, w, list, n);
  }

  /** What is on display is what a walk of the chain's window from page 1 shows. */
  ghost predicate ShowsItsWindow<T>(b: Backend<T>, t: Table) {
    var w, n := t.chain.window, t.shown.page;
    && n >= 1
    && t.shown == Shown(n, Entry(b, w, n).Some?, (n - 1) * w.pageSize + |PageItems(b, w, n)|)
  }

  /** Nothing was asked for yet, or nothing was answered. */
  predicate Untouched(t: Table) {
    t.shown == FRESH.shown && t.chain.window == FRESH.chain.window
  }

  lemma FollowShowsItsWindow<T>(b: Backend<T>, r: Run, step: Step)
    requires Kept(b, r) && (!r.stale ==> ShowsItsWindow(b, r.table) || Untouched(r.table))
    ensures var r' := Follow(b, r, step);
            !r'.stale ==> ShowsItsWindow(b, r'.table) || Untouched(r'.table)
  {
    if Presses(r.table, step.action) {
      hide Agrees, Entry, PageItems, Turn;
      TurnAgrees(b, r.table.(want := Wanted(r.table, step.action)), WindowOf(r.table, step.action), step.budget);
    }
  }

  lemma {:induction false} RunShowsItsWindow<T>(b: Backend<T>, steps: seq<Step>)
    ensures RunOf(b, steps).Some?
    ensures var r := RunOf(b, steps).value;
            !r.stale ==> ShowsItsWindow(b, r.table) || Untouched(r.table)
  {
    EveryRunKeeps(b, steps);
    if steps != [] {
      var front := steps[..|steps| - 1];
      EveryRunKeeps(b, front);
      RunShowsItsWindow(b, front);
      hide Kept, ShowsItsWindow, Untouched, Follow;
      FollowShowsItsWindow(b, RunOf(b, front).value, steps[|steps| - 1]);
    }
  }

  /** After any serial run whose window changes were all answered, over a backend
      paging one list in the present window: the loaded count is the number of
      rows on the pages up to the one shown, and "next" is offered exactly while
      rows are missing. The same whenever the display is not stale. */
  lemma AnsweredRunsMeasureTheList<T>(b: Backend<T>, steps: seq<Step>, list: seq<T>)
    requires PagesList(b, WindowAfter(steps), list)
    ensures RunOf(b, steps).Some?
    ensures var r := RunOf(b, steps).value;
            var shown := r.table.shown;
            ResetsAnswered(steps) || !r.stale ==>
              && shown.page >= 1
              && FirstPages(b, WindowAfter(steps), shown.page) <= list
              && shown.loaded == |FirstPages(b, WindowAfter(steps), shown.page)|
              && (shown.hasMore <==> shown.loaded < |list|)
  {
    RunShowsItsWindow(b, steps);
    EveryRunKeeps(b, steps);
    WindowOfRun(b, steps);
    if ResetsAnswered(steps) {
      StaleExactlyByFailedResets(b, steps);
      NotStaleNow(b, steps);
    }
    var r := RunOf(b, steps).value;
    if !r.stale {
      ShownMeasuresTheList(b, r, list);
    }
  }

  /** After any serial run at all: a press that is answered shows a right loaded
      count exactly when it does not page past the end. */
  lemma AnsweredPressMeasuresTheList<T>(b: Backend<T>, steps: seq<Step>, next: Step, list: seq<T>)
    requires PagesList(b, WindowAfter(steps + [next]), list)
    ensures RunOf(b, steps).Some? && Usable(RunOf(b, steps).value.table)
    ensures var t := RunOf(b, steps).value.table;
            Presses(t, next.action) && Act(b, t, next).data.Some? ==>
              var shown := Act(b, t, next).table.shown;
              var pages := |FirstPages(b, WindowAfter(steps + [next]), shown.page)|;
              && shown.page >= 1
              && (shown.loaded == pages <==> NotPastTheEnd(b, WindowAfter(steps + [next]), shown.page))
              && (shown.hasMore <==> pages < |list|)
  {
    EveryRunKeeps(b, steps);
    WindowOfRun(b, steps);
    var t := RunOf(b, steps).value.table;
    assert (steps + [next])[..|steps|] == steps;
    if Presses(t, next.action) && Act(b, t, next).data.Some? {
      DisplayMeasuresTheList(b, t.(want := Wanted(t, next.action)), WindowOf(t, next.action), next.budget, list);
    }
  }

  lemma ShownMeasuresTheList<T>(b: Backend<T>, r: Run, list: seq<T>)
    requires PagesList(b, r.table.chain.window, list) && ShowsItsWindow(b, r.table)
    requires Kept(b, r) && !r.stale
    ensures var w, shown := r.table.chain.window, r.table.shown;
            && FirstPages(b, w, shown.page) <= list
            && shown.loaded == |FirstPages(b, w, shown.page)|
            && (shown.hasMore <==> shown.loaded < |list|)
  {
    var w, n := r.table.chain.window, r.table.shown.page;
    assert Entry(b, w, n - 1) == Some(r.table.chain.cursors[n - 1]);
    FirstPagesArePrefix(b, w, list, n);
    HasMoreMeasuresTheList(b, w, list, n);
    LoadedMeasuresTheList(b, w, list, n);
    OffsetIsProduct(w, n - 1);
    PastTheEndByOffset(b, w, list, n);
  }

  lemma PageLength<T>(b: Backend<T>, w: Window, list: seq<T>, n: nat)
    requires PagesList(b, w, list)
    ensures var at := Offset(w, n);
            |PageItems(b, w, n + 1)| == if at < |list| then Min(w.pageSize, |list| - at) else 0
  {
    PageExists(b, w, list, n);
  }

  lemma FirstPagesLength<T>(b: Backend<T>, w: Window, list: seq<T>, n: nat)
    requires PagesList(b, w, list)
    ensures |FirstPages(b, w, n)| == Min(Offset(w, n), |list|)
  {
    FirstPagesArePrefix(b, w, list, n);
  }

  lemma HasMoreMeasuresTheList<T>(b: Backend<T>, w: Window, list: seq<T>, n: nat)
    requires PagesList(b, w, list) && n >= 1
    ensures Entry(b, w, n).Some? <==> |FirstPages(b, w, n)| < |list|
  {
    FirstPagesLength(b, w, list, n);
    PageExists(b, w, list, n);
  }

  lemma LoadedMeasuresTheList<T>(b: Backend<T>, w: Window, list: seq<T>, n: nat)
    requires PagesList(b, w, list) && n >= 1
    ensures Offset(w, n - 1) + |PageItems(b, w, n)| == |FirstPages(b, w, n)| <==> Offset(w, n - 1) <= |list|
  {
    FirstPagesLength(b, w, list, n);
    PageLength(b, w, list, n - 1);
  }

  /** Such backends exist: a unary offset for a cursor. */
  function UnaryPage<T>(list: seq<T>, w: Window, c: Cursor): (page: Page<T>)
    ensures w.pageSize >= 1 && |c| <= |list| ==>
              var stop := Min(|c| + w.pageSize, |list|);
              && page.items == list[|c|..stop]
              && |page.next| == (if stop < |list| then stop else 0)
  {
    var at := Min(|c|, |list|);
    var stop := if w.pageSize >= 1 then Min(at + w.pageSize, |list|) else at;
    Page(list[at..stop], if at < stop < |list| then seq(stop, _ => '1') else "")
  }

  function UnaryBackend<T>(list: seq<T>): Backend<T> {
    (w, c) => UnaryPage(list, w, c)
  }

  lemma {:induction false} UnaryEntry<T>(w: Window, list: seq<T>, n: nat)
    requires w.pageSize >= 1
    ensures var e := Entry(UnaryBackend(list), w, n);
            if n == 0 || Offset(w, n) < |list| then e.Some? && |e.value| == Offset(w, n) else e.None?
  {
    if n > 0 {
      UnaryEntry(w, list, n - 1);
    }
  }

  lemma UnaryBackendPagesList<T>(w: Window, list: seq<T>)
    requires w.pageSize >= 1
    ensures PagesList(UnaryBackend(list), w, list)
  {
    var b := UnaryBackend(list);
    forall n: nat, c | Entry(b, w, n) == Some(c)
      ensures ServedAt(b, w, list, n, c)
    {
      UnaryEntry(w, list, n);
    }
  }

  /** Three rows: shown two to a page, then asked for five to a page, in vain.
      "Next" counts five rows as loaded. */
  lemma StaleNextMiscounts()
    ensures var b := UnaryBackend([1, 2, 3]);
            var w1, w2 := Window("", 2), Window("", 5);
            var r := RunOf(b, [Step(Query(w1), 1)] + [Step(Query(w2), 0)]);
            && PagesList(b, w2, [1, 2, 3])
            && r.Some? && Presses(r.value.table, Next)
            && Act(b, r.value.table, Step(Next, 1)).table.shown.loaded == 5
            && FirstPages(b, w2, 2) == [1, 2, 3]
  {
    var list := [1, 2, 3];
    var b := UnaryBackend(list);
    var w1, w2 := Window("", 2), Window("", 5);
    UnaryBackendPagesList(w2, list);
    FailedQueryLeavesAStaleDisplay(b, w1, w2, 1);
    FirstPagesArePrefix(b, w2, list, 2);
    OffsetIsProduct(w2, 2);
  }
}
