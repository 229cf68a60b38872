/** The tenant switcher's bootstrap: the browser's stored choice, the WhoAmI
    calls it makes through the door, and the recovery from a stale choice. */
module Bootstrap {
  import opened Wrappers
  import opened ResolverSpec
  import opened Resolver
  import opened TenantGate

  const WHOAMI_PATH := "/api/v1/portal/whoami"

  /** Everything outside the protocol that one WhoAmI call meets: whether it
      gets past the session layer, what the door's resolution would be told,
      and what the portal's own handler replies (rows, or a failure with a
      status if there is one). */
  datatype World = World(
    stoppedAtEdge: Option<Option<int>>,
    call: PortalCall,
    handler: Result<seq<Key>, Option<int>>)

  datatype Reply = Members(rows: seq<Key>) | Failed(status: Option<int>)

  /** `live` tells memberships that came from a reply from the degraded []. */
  datatype Boot = Boot(cell: Option<Key>, cache: Cache, memberships: seq<Key>, live: bool, calls: nat)

  datatype Session = SignedOut | NotTenantAdmin | TenantAdminSession

  function Read(cell: Option<Key>): Key {
    if cell.Some? then cell.value else ""
  }

  function Ensured(cell: Option<Key>, rows: seq<Key>): Option<Key> {
    var keys := NonEmptyKeys(rows);
    if Read(cell) in keys then cell
    else if keys != [] then Some(keys[0])
    else Some("")
  }

  function WhoAmI(c: Cache, actor: Option<Actor>, choice: Key, w: World): (Reply, Cache) {
    if w.stoppedAtEdge.Some? then (Failed(w.stoppedAtEdge.value), c)
    else
      var (resolved, c') := ResolveAlone(c, actor, choice, w.call);
      var managed := actor.Some? && !actor.value.userType.OtherType?;
      var after := if managed then c' else c;
      match Judge("GET", WHOAMI_PATH, actor, choice, resolved)
      case Deny(status) => (Failed(Some(status)), after)
      case _ => ((match w.handler case Ok(rows) => Members(rows) case Err(status) => Failed(status)), after)
  }

  /** A 401 drops the stored choice with the session. */
  function CellAfter(cell: Option<Key>, reply: Reply): Option<Key> {
    if reply == Failed(Some(401)) then None else cell
  }

  function BootOf(c: Cache, cell: Option<Key>, actor: Option<Actor>, w1: World, w2: World): Boot {
    var (reply1, c1) := WhoAmI(c, actor, Read(cell), w1);
    var cell1 := CellAfter(cell, reply1);
    match reply1
    case Members(rows) => Boot(Ensured(cell1, rows), c1, rows, true, 1)
    case Failed(status) =>
      if status == Some(403) && Read(cell1) != "" then
        var (reply2, c2) := WhoAmI(c1, actor, "", w2);
        var cell2 := CellAfter(None, reply2);
        match reply2
        case Members(rows) => Boot(Ensured(cell2, rows), c2, rows, true, 2)
        case Failed(_) => Boot(cell2, c2, [], false, 2)
      else Boot(cell1, c1, [], false, 1)
  }

  /** The page's view of one browser: its stored tenant choice. */
  class Console {
    var cell: Option<Key>

    constructor (cell: Option<Key>)
      ensures this.cell == cell
    {
      this.cell := cell;
    }

    function ReadTenantChoice(): Key
      reads this
    {
      Read(cell)
    }

    method WriteTenantChoice(key: Key)
      modifies this
      ensures cell == Some(key)
    {
      cell := Some(key);
    }

    method ClearTenantChoice()
      modifies this
      ensures cell == None
    {
      cell := None;
    }

    method EnsureTenantChoice(rows: seq<Key>) returns (kept: Key)
      modifies this
      ensures cell == Ensured(old(cell), rows)
      ensures kept == Read(cell)
      ensures Read(old(cell)) != "" && Read(old(cell)) in rows ==> cell == old(cell)
      ensures Read(old(cell)) == "" || Read(old(cell)) !in rows ==>
                && (forall i :: FirstWithKey(rows, i) ==> cell == Some(rows[i]))
                && ((forall row :: row in rows ==> row == "") ==> cell == Some(""))
    {
      forall i | FirstWithKey(rows, i)
        ensures NonEmptyKeys(rows) != [] && NonEmptyKeys(rows)[0] == rows[i]
      {
        FirstKeyIsFirst(rows, i);
      }
      if forall row :: row in rows ==> row == "" {
        NoneWithKey(rows);
      }
      var stored := ReadTenantChoice();
      var keys := NonEmptyKeys(rows);
      if stored in keys {
        return stored;
      }
      var fallback := if keys != [] then keys[0] else "";
      WriteTenantChoice(fallback);
      return fallback;
    }

    /** One WhoAmI request: the interceptor attaches the stored choice, the
        door and then the portal answer. */
    method PortalWhoAmI(gate: Gate, actor: Option<Actor>, w: World) returns (reply: Reply)
      requires gate.resolver.Valid()
      modifies this, gate.resolver
      ensures gate.resolver.Valid()
      ensures (reply, gate.resolver.Contents()) == WhoAmI(old(gate.resolver.Contents()), actor, Read(old(cell)), w)
      ensures cell == CellAfter(old(cell), reply)
      ensures cell == if reply == Failed(Some(401)) then None else old(cell)
      ensures w.stoppedAtEdge.Some? ==>
                reply == Failed(w.stoppedAtEdge.value) && gate.resolver.Contents() == old(gate.resolver.Contents())
      ensures reply.Members? ==> w.stoppedAtEdge.None? && w.handler == Ok(reply.rows)
      ensures w.stoppedAtEdge.None? && reply.Failed? && reply.status !in {Some(403), Some(503)} ==>
                w.handler == Err(reply.status)
    {
      var choice := ReadTenantChoice();
      if w.stoppedAtEdge.Some? {
        reply := Failed(w.stoppedAtEdge.value);
      } else {
        var header := new Header(if choice != "" then map[TENANT_CHOICE_HEADER := [choice]] else map[]);
        assert header.Get(TENANT_CHOICE_HEADER) == choice;
        var request := Request("GET", WHOAMI_PATH, header, Context(actor, None, map[], None));
        var out := gate.Wrap(request, w.call);
        match out {
          case Refused(status) => reply := Failed(Some(status));
          case Forwarded(_) =>
            match w.handler {
              case Ok(rows) => reply := Members(rows);
              case Err(status) => reply := Failed(status);
            }
        }
      }
      if reply == Failed(Some(401)) {
        ClearTenantChoice();
      }
    }

    /** `w1` and `w2` are what the first and the second call would meet. */
    method GetInitialState(gate: Gate, session: Session, actor: Option<Actor>, w1: World, w2: World)
      returns (memberships: Option<seq<Key>>, calls: nat)
      requires gate.resolver.Valid()
      modifies this, gate.resolver
      ensures gate.resolver.Valid()
      ensures !session.TenantAdminSession? ==>
                && memberships == None && calls == 0
                && cell == old(cell) && gate.resolver.Contents() == old(gate.resolver.Contents())
      ensures session.TenantAdminSession? ==>
                var boot := BootOf(old(gate.resolver.Contents()), old(cell), actor, w1, w2);
                && memberships == Some(boot.memberships) && calls == boot.calls
                && cell == boot.cell
                && gate.resolver.Contents() == boot.cache
    {
      if !session.TenantAdminSession? {
        return None, 0;
      }
      var reply := PortalWhoAmI(gate, actor, w1);
      calls := 1;
      if reply.Members? {
        var _ := EnsureTenantChoice(reply.rows);
        return Some(reply.rows), calls;
      }
      if reply.status == Some(403) && ReadTenantChoice() != "" {
        ClearTenantChoice();
        var retried := PortalWhoAmI(gate, actor, w2);
        calls := calls + 1;
        if retried.Members? {
          var _ := EnsureTenantChoice(retried.rows);
          return Some(retried.rows), calls;
        }
      }
      return Some([]), calls;
    }
  }

  // ----- what the protocol promises -----

  /** After a bootstrap that got an answer, the stored choice is one of the
      answered memberships, or "" exactly when none has a key; a still-bound
      choice is kept. A degraded one leaves the cell as it was or drops it. */
  lemma BootstrapLeavesAValidChoice(c: Cache, cell: Option<Key>, actor: Option<Actor>, w1: World, w2: World)
    ensures var boot := BootOf(c, cell, actor, w1, w2);
            && 1 <= boot.calls <= 2
            && (boot.live ==>
                  && (Read(boot.cell) == "" <==> forall k :: k in boot.memberships ==> k == "")
                  && (Read(boot.cell) != "" ==> Read(boot.cell) in boot.memberships)
                  && (boot.calls == 1 && Read(cell) != "" && Read(cell) in boot.memberships ==> boot.cell == cell))
            && (!boot.live ==> boot.memberships == [] && (boot.cell == cell || boot.cell == None))
  {
    var boot := BootOf(c, cell, actor, w1, w2);
    if boot.live {
      var keys := NonEmptyKeys(boot.memberships);
      if keys != [] {
        assert keys[0] in keys;
      }
    }
  }

  /** How a bootstrap ends whose first call fails: a 401 ends the session and
      drops the choice; a 403 of a stored choice drops it and asks again without
      one, once; any other failure keeps it. */
  lemma FailureDecides(c: Cache, cell: Option<Key>, actor: Option<Actor>, w1: World, w2: World)
    ensures var (reply, c1) := WhoAmI(c, actor, Read(cell), w1);
            var boot := BootOf(c, cell, actor, w1, w2);
            match reply
            case Members(rows) => boot.live && boot.calls == 1 && boot.memberships == rows
            case Failed(Some(401)) => boot == Boot(None, c1, [], false, 1)
            case Failed(status) =>
              if status == Some(403) && Read(cell) != "" then
                && boot.calls == 2
                && var (again, c2) := WhoAmI(c1, actor, "", w2);
                   && boot.cache == c2
                   && match again
                      case Failed(_) => boot.cell == None && boot.memberships == [] && !boot.live
                      case Members(rows) =>
                        boot.live && boot.memberships == rows && boot.cell == Ensured(None, rows)
              else boot == Boot(cell, c1, [], false, 1)
  {
    hide WhoAmI, NonEmptyKeys;
  }

  /** The entry the door holds for the user after a call that reached it: the
      one it had while that is live, or else a fresh one. */
  function EntryAfter(entry: Option<Bindings>, w: World): Bindings
    requires w.call.whoAmI.Some?
  {
    if entry.Some? && w.call.checkAt < entry.value.expiresAt then entry.value
    else Bindings(NonEmptyKeys(w.call.whoAmI.value), w.call.storeAt + DEFAULT_TTL)
  }

  function EntryFor(c: Cache, u: UserId): Option<Bindings> {
    if u in c.bindings then Some(c.bindings[u]) else None
  }

  /** Whether the first call carries a choice the door's entry does not hold. */
  predicate Retried(c: Cache, cell: Option<Key>, u: UserId, w1: World)
    requires w1.call.whoAmI.Some?
  {
    Read(cell) != "" && Read(cell) !in EntryAfter(EntryFor(c, u), w1).keys
  }

  predicate PortalUp(w: World) {
    w.stoppedAtEdge.None? && w.call.whoAmI.Some? && w.handler.Ok?
  }

  /** With the portal up, every tenant admin's bootstrap gets the real binding
      set whatever choice was stored and whatever the door has cached; it takes
      the second call exactly when the stored choice is not bound at the door. */
  lemma BootstrapRecovers(c: Cache, cell: Option<Key>, u: UserId, w1: World, w2: World)
    requires PortalUp(w1) && PortalUp(w2)
    ensures var boot := BootOf(c, cell, Some(Actor(u, TenantAdmin)), w1, w2);
            && boot.live
            && (boot.calls == 2 <==> Retried(c, cell, u, w1))
            && boot.memberships == (if boot.calls == 1 then w1 else w2).handler.value
  {
    var actor := Some(Actor(u, TenantAdmin));
    var (reply1, c1) := WhoAmI(c, actor, Read(cell), w1);
    assert reply1.Members? <==> Read(cell) == "" || Read(cell) in EntryAfter(EntryFor(c, u), w1).keys;
    var (reply2, c2) := WhoAmI(c1, actor, "", w2);
    assert reply2.Members?;
  }

  /** With the portal down for the door's own lookup and nothing cached, the
      bootstrap degrades after one call and keeps the stored choice: only a
      refusal of the choice itself, or the end of the session, drops it. */
  lemma PortalDownKeepsTheChoice(c: Cache, cell: Option<Key>, u: UserId, w1: World, w2: World)
    requires w1.stoppedAtEdge.None? && LookupBindings(c, u, w1.call.checkAt).None? && w1.call.whoAmI.None?
    ensures BootOf(c, cell, Some(Actor(u, TenantAdmin)), w1, w2) == Boot(cell, c, [], false, 1)
  {
  }

  // ----- the first request after a bootstrap -----

  /** The entry the door judged the answered call on. */
  function JudgedOn(c: Cache, cell: Option<Key>, u: UserId, w1: World, w2: World): Bindings
    requires w1.call.whoAmI.Some? && w2.call.whoAmI.Some?
  {
    var first := EntryAfter(EntryFor(c, u), w1);
    if Retried(c, cell, u, w1) then EntryAfter(Some(first), w2) else first
  }

  /** The keys of the memberships the page was answered with. */
  function AnsweredKeys(c: Cache, cell: Option<Key>, u: UserId, w1: World, w2: World): seq<Key>
    requires PortalUp(w1) && PortalUp(w2)
  {
    NonEmptyKeys((if Retried(c, cell, u, w1) then w2 else w1).handler.value)
  }

  /** The choice the next request carries. */
  function NextChoice(c: Cache, cell: Option<Key>, u: UserId, w1: World, w2: World): Key
    requires PortalUp(w1) && PortalUp(w2)
  {
    var keys := AnsweredKeys(c, cell, u, w1, w2);
    if !Retried(c, cell, u, w1) && Read(cell) in keys then Read(cell)
    else if keys != [] then keys[0]
    else ""
  }

  /** What a call that reaches the door leaves of the admin's entry. */
  lemma CallLeavesItsEntry(c: Cache, u: UserId, choice: Key, w: World)
    requires PortalUp(w)
    ensures var (reply, c') := WhoAmI(c, Some(Actor(u, TenantAdmin)), choice, w);
            && EntryFor(c', u) == Some(EntryAfter(EntryFor(c, u), w))
            && reply == (if choice == "" || choice in EntryAfter(EntryFor(c, u), w).keys
                         then Members(w.handler.value) else Failed(Some(403)))
  {
  }

  /** What a bootstrap with the portal up leaves behind, in terms of its inputs. */
  lemma BootstrapLeaves(c: Cache, cell: Option<Key>, u: UserId, w1: World, w2: World)
    requires PortalUp(w1) && PortalUp(w2)
    ensures var boot := BootOf(c, cell, Some(Actor(u, TenantAdmin)), w1, w2);
            && EntryFor(boot.cache, u) == Some(JudgedOn(c, cell, u, w1, w2))
            && Read(boot.cell) == NextChoice(c, cell, u, w1, w2)
  {
    CallLeavesItsEntry(c, u, Read(cell), w1);
    var (_, c1) := WhoAmI(c, Some(Actor(u, TenantAdmin)), Read(cell), w1);
    CallLeavesItsEntry(c1, u, "", w2);
  }

  /** What the door makes of the first request after a bootstrap, in terms of
      what the bootstrap met. It judges on the answered call's entry until that
      expires, and from then on on the portal's own answer to the request; the
      stored choice is accepted exactly when it is among those keys. With no
      membership to choose, the sole one among those keys is taken, if any. */
  lemma NextRequestIsScoped(
      c: Cache, cell: Option<Key>, u: UserId, w1: World, w2: World, verb: string, path: string, next: PortalCall)
    requires PortalUp(w1) && PortalUp(w2) && verb != "OPTIONS"
    ensures var actor := Some(Actor(u, TenantAdmin));
            var boot := BootOf(c, cell, actor, w1, w2);
            var verdict :=
              Judge(verb, path, actor, Read(boot.cell), ResolveAlone(boot.cache, actor, Read(boot.cell), next).0);
            var entry := JudgedOn(c, cell, u, w1, w2);
            var choice := NextChoice(c, cell, u, w1, w2);
            && (choice == "" <==> AnsweredKeys(c, cell, u, w1, w2) == [])
            && (choice != "" ==>
                  verdict == (if next.checkAt < entry.expiresAt then
                                if choice in entry.keys then Plant(choice) else Deny(403)
                              else if next.whoAmI == None then Deny(503)
                              else if choice in next.whoAmI.value then Plant(choice) else Deny(403)))
            && (choice == "" && "" !in entry.keys ==>
                  if next.checkAt >= entry.expiresAt && next.whoAmI == None then verdict == Deny(503)
                  else
                    var keys := if next.checkAt < entry.expiresAt then entry.keys else NonEmptyKeys(next.whoAmI.value);
                    verdict == if |keys| == 1 then Plant(keys[0])
                               else if path in CHOICELESS_ROUTES then Bare else Deny(403))
  {
    BootstrapLeaves(c, cell, u, w1, w2);
    var keys := AnsweredKeys(c, cell, u, w1, w2);
    if keys != [] {
      assert keys[0] in keys;
    }
    if next.whoAmI.Some? && |NonEmptyKeys(next.whoAmI.value)| == 1 {
      assert NonEmptyKeys(next.whoAmI.value)[0] in NonEmptyKeys(next.whoAmI.value);
    }
  }

  /** A door that missed its cache and saw the rows the page was answered with
      scopes every request within one TTL of storing them. */
  lemma FreshEntryAcceptsTheChoice(
      c: Cache, cell: Option<Key>, u: UserId, w1: World, w2: World, verb: string, path: string, next: PortalCall)
    requires PortalUp(w1) && PortalUp(w2) && verb != "OPTIONS"
    requires AnsweredKeys(c, cell, u, w1, w2) != []
    requires var w := if Retried(c, cell, u, w1) then w2 else w1;
             && w.call.whoAmI == Some(w.handler.value)
             && JudgedOn(c, cell, u, w1, w2) == EntryAfter(None, w)
             && next.checkAt < w.call.storeAt + DEFAULT_TTL
    ensures var actor := Some(Actor(u, TenantAdmin));
            var boot := BootOf(c, cell, actor, w1, w2);
            && Read(boot.cell) != ""
            && Judge(verb, path, actor, Read(boot.cell), ResolveAlone(boot.cache, actor, Read(boot.cell), next).0)
               == Plant(Read(boot.cell))
  {
    NextRequestIsScoped(c, cell, u, w1, w2, verb, path, next);
    BootstrapLeaves(c, cell, u, w1, w2);
    var keys := AnsweredKeys(c, cell, u, w1, w2);
    assert keys[0] in keys;
  }

  /** The bootstrap's answer bypasses the door's cache, so the two may differ
      for one TTL: rebound from "a" to "b", the fresh choice "b" is refused. */
  lemma FreshChoiceCanBeRefused()
    ensures var actor := Some(Actor(1, TenantAdmin));
            var c := Cache(map[1 := Bindings(["a"], 10)], None);
            var call := PortalCall(5, 5, Some(["b"]), None);
            var boot := BootOf(c, Some("a"), actor, World(None, call, Ok(["b"])), World(None, call, Ok(["b"])));
            && boot.live && boot.cell == Some("b")
            && Judge("GET", "/api/v1/some/rpc", actor, "b", ResolveAlone(boot.cache, actor, "b", call).0) == Deny(403)
  {
    assert NonEmptyKeys(["b"]) == ["b"] by {
      assert ["b"][..0] == [];
    }
  }
}
