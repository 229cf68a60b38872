/** What one tenant resolution means: the behaviour matrix over a portal state,
    and the two cache operations that stand between the matrix and the portal. */
module ResolverSpec {
  import opened Wrappers
  import opened Selections

  type Key = string
  type UserId = int
  type Instant = int

  /** 30 seconds on the resolver's nanosecond clock. */
  const DEFAULT_TTL: Instant := 30_000_000_000

  /** Every user type other than the two management-plane ones is `OtherType`. */
  datatype UserType = TenantAdmin | Platform | OtherType(code: int)

  datatype Actor = Actor(userId: UserId, userType: UserType)

  datatype ResolveError =
    | NoActor
    | UserTypeDenied
    | ChoiceRequired
    | ChoiceNotBound
    | ChoiceUnknownTenant
    | PortalUnavailable

  /** `Ok("")` is the cross-tenant view: resolved, nothing to inject. */
  type Resolution = Result<Key, ResolveError>

  /** The portal's answer sheet: membership rows per user and registry rows.
      Rows may carry an empty key and may repeat. */
  datatype PortalState = PortalState(members: map<UserId, seq<Key>>, tenants: seq<Key>)

  function MembersOf(p: PortalState, u: UserId): seq<Key> {
    if u in p.members then p.members[u] else []
  }

  /** The rows with a key, in order and with their multiplicity. */
  function NonEmptyKeys(rows: seq<Key>): (keys: seq<Key>)
    ensures forall k :: k in keys <==> k in rows && k != ""
  {
    if rows == [] then []
    else
      var front := NonEmptyKeys(rows[..|rows| - 1]);
      var last := rows[|rows| - 1];
      assert rows == rows[..|rows| - 1] + [last];
      if last == "" then front else front + [last]
  }

  function RegistryKeys(rows: seq<Key>): set<Key> {
    set k | k in rows && k != ""
  }

  function JudgeAdmin(keys: seq<Key>, choice: Key): (r: Resolution)
    ensures r.Ok? ==> r.value in keys
  {
    if choice == "" then
      if |keys| != 1 then Err(ChoiceRequired) else Ok(keys[0])
    else if choice !in keys then Err(ChoiceNotBound)
    else Ok(choice)
  }

  function JudgePlatform(registry: set<Key>, choice: Key): Resolution {
    if choice == "" then Ok("")
    else if choice !in registry then Err(ChoiceUnknownTenant)
    else Ok(choice)
  }

  /** The matrix with no cache in between: the answer a portal state deserves. */
  function Uncached(p: PortalState, actor: Option<Actor>, choice: Key): Resolution {
    match actor
    case None => Err(NoActor)
    case Some(Actor(u, TenantAdmin)) => JudgeAdmin(NonEmptyKeys(MembersOf(p, u)), choice)
    case Some(Actor(_, Platform)) => JudgePlatform(RegistryKeys(p.tenants), choice)
    case Some(Actor(_, OtherType(_))) => Err(UserTypeDenied)
  }

  // ----- the cache -----

  datatype Bindings = Bindings(keys: seq<Key>, expiresAt: Instant)

  datatype Registry = Registry(keys: set<Key>, expiresAt: Instant)

  datatype Cache = Cache(bindings: map<UserId, Bindings>, registry: Option<Registry>)

  function LookupBindings(c: Cache, u: UserId, now: Instant): Option<seq<Key>> {
    if u in c.bindings && now < c.bindings[u].expiresAt then Some(c.bindings[u].keys) else None
  }

  function LookupRegistry(c: Cache, now: Instant): Option<set<Key>> {
    if c.registry.Some? && now < c.registry.value.expiresAt then Some(c.registry.value.keys) else None
  }

  function PutBindings(c: Cache, u: UserId, keys: seq<Key>, now: Instant): Cache {
    c.(bindings := c.bindings[u := Bindings(keys, now + DEFAULT_TTL)])
  }

  function PutRegistry(c: Cache, keys: set<Key>, now: Instant): Cache {
    c.(registry := Some(Registry(keys, now + DEFAULT_TTL)))
  }

  /** No empty key is ever cached. */
  predicate Clean(c: Cache) {
    && (forall u :: u in c.bindings ==> "" !in c.bindings[u].keys)
    && (c.registry.Some? ==> "" !in c.registry.value.keys)
  }

  // ----- one undisturbed resolution -----

  /** What the environment supplies to one resolution: the two clock readings
      taken under the lock and the portal's replies, should they be asked for. */
  datatype PortalCall = PortalCall(
    checkAt: Instant,
    storeAt: Instant,
    whoAmI: Option<seq<Key>>,
    listTenants: Option<seq<Key>>)

  /** Result and cache of a resolution no other request interleaves with. */
  function ResolveAlone(c: Cache, actor: Option<Actor>, choice: Key, call: PortalCall): (Resolution, Cache) {
    match actor
    case None => (Err(NoActor), c)
    case Some(Actor(u, TenantAdmin)) =>
      (match LookupBindings(c, u, call.checkAt)
       case Some(keys) => (JudgeAdmin(keys, choice), c)
       case None =>
         match call.whoAmI
         case None => (Err(PortalUnavailable), c)
         case Some(rows) =>
           var keys := NonEmptyKeys(rows);
           (JudgeAdmin(keys, choice), PutBindings(c, u, keys, call.storeAt)))
    case Some(Actor(_, Platform)) =>
      if choice == "" then (Ok(""), c)
      else
        (match LookupRegistry(c, call.checkAt)
         case Some(keys) => (JudgePlatform(keys, choice), c)
         case None =>
           match call.listTenants
           case None => (Err(PortalUnavailable), c)
           case Some(rows) =>
             var keys := RegistryKeys(rows);
             (JudgePlatform(keys, choice), PutRegistry(c, keys, call.storeAt)))
    case Some(Actor(_, OtherType(_))) => (Err(UserTypeDenied), c)
  }

  // ----- what the matrix promises -----

  /** Who is resolved at all, with and without the cache. */
  lemma OnlyManagersAreResolved(p: PortalState, c: Cache, actor: Option<Actor>, choice: Key, call: PortalCall)
    ensures var (alone, after) := ResolveAlone(c, actor, choice, call);
            && (actor == None <==> alone == Err(NoActor))
            && (actor == None <==> Uncached(p, actor, choice) == Err(NoActor))
            && ((exists u, code :: actor == Some(Actor(u, OtherType(code)))) <==> alone == Err(UserTypeDenied))
            && ((exists u, code :: actor == Some(Actor(u, OtherType(code))))
                <==> Uncached(p, actor, choice) == Err(UserTypeDenied))
            && (alone in {Err(NoActor), Err(UserTypeDenied)} ==> after == c)
  {
    if actor.Some? && actor.value.userType.OtherType? {
      assert actor == Some(Actor(actor.value.userId, OtherType(actor.value.userType.code)));
    }
  }

  predicate HasKey(row: Key) {
    row != ""
  }

  /** The surviving keys stand in the order of their rows, duplicates included. */
  lemma {:induction false} KeysAreInOrder(rows: seq<Key>)
    ensures KeptInOrder(NonEmptyKeys(rows), rows, HasKey)
  {
    hide KeptInOrder;
    if rows == [] {
      NothingKept(HasKey);
    } else {
      var n := |rows| - 1;
      KeysAreInOrder(rows[..n]);
      OneMoreKept(NonEmptyKeys(rows[..n]), rows[..n], rows[n], HasKey);
      assert rows == rows[..n] + [rows[n]];
    }
  }

  /** Row `i` is the first one with a key. */
  predicate FirstWithKey(rows: seq<Key>, i: int) {
    0 <= i < |rows| && rows[i] != "" && forall j :: 0 <= j < i ==> rows[j] == ""
  }

  lemma {:induction false} NoneWithKey(rows: seq<Key>)
    requires forall row :: row in rows ==> row == ""
    ensures NonEmptyKeys(rows) == []
  {
    if rows != [] {
      var front := rows[..|rows| - 1];
      assert forall row :: row in front ==> row in rows;
      assert rows[|rows| - 1] in rows;
      NoneWithKey(front);
    }
  }

  lemma {:induction false} FirstKeyIsFirst(rows: seq<Key>, i: int)
    requires FirstWithKey(rows, i)
    ensures NonEmptyKeys(rows) != [] && NonEmptyKeys(rows)[0] == rows[i]
  {
    var n := |rows| - 1;
    var front := rows[..n];
    if i < n {
      FirstKeyIsFirst(front, i);
    } else {
      NoneWithKey(front);
    }
  }

  /** Row `i` is the only row with a key. */
  predicate SoleBinding(rows: seq<Key>, i: int) {
    && 0 <= i < |rows|
    && rows[i] != ""
    && forall j :: 0 <= j < |rows| && j != i ==> rows[j] == ""
  }

  /** One surviving key means one row with a key: bindings count with
      multiplicity, so two equal rows are two bindings. */
  lemma {:induction false} SoleKey(rows: seq<Key>, k: Key)
    ensures NonEmptyKeys(rows) == [k] <==> exists i :: SoleBinding(rows, i) && rows[i] == k
    ensures NonEmptyKeys(rows) == [] <==> forall i :: 0 <= i < |rows| ==> rows[i] == ""
  {
    if rows != [] {
      var n := |rows| - 1;
      var front := rows[..n];
      SoleKey(front, k);
      assert rows == front + [rows[n]];
      if rows[n] == "" {
        assert forall i :: 0 <= i < n ==> front[i] == rows[i];
        assert forall i :: SoleBinding(rows, i) <==> SoleBinding(front, i);
      } else {
        assert forall i :: 0 <= i < n ==> front[i] == rows[i];
        if NonEmptyKeys(front) == [] {
          assert NonEmptyKeys(rows) == [rows[n]];
          assert SoleBinding(rows, n);
        } else {
          assert |NonEmptyKeys(rows)| >= 2;
          assert exists i :: 0 <= i < n && rows[i] != "";
        }
      }
    }
  }

  /** The tenant-admin row of the matrix, both ways: a key is granted exactly
      when it is bound and either named by the choice or the only binding. */
  lemma AdminGrant(p: PortalState, u: UserId, choice: Key, k: Key)
    ensures Uncached(p, Some(Actor(u, TenantAdmin)), choice) == Ok(k)
            <==> (&& k != ""
                  && k in MembersOf(p, u)
                  && (choice == k
                      || (choice == "" && exists i :: SoleBinding(MembersOf(p, u), i))))
  {
    var rows := MembersOf(p, u);
    var keys := NonEmptyKeys(rows);
    SoleKey(rows, k);
    if choice == "" {
      if |keys| == 1 {
        SoleKey(rows, keys[0]);
        assert keys == [keys[0]];
      }
      if k != "" && k in rows && exists i :: SoleBinding(rows, i) {
        var i :| SoleBinding(rows, i);
        assert rows[i] == k;
      }
    }
  }

  /** The platform row, both ways: any registered tenant by name, or the cross
      view by naming none; nothing is ever defaulted. */
  lemma PlatformGrant(p: PortalState, u: UserId, choice: Key, k: Key)
    ensures Uncached(p, Some(Actor(u, Platform)), choice) == Ok(k)
            <==> k == choice && (choice == "" || choice in p.tenants)
    ensures Uncached(p, Some(Actor(u, Platform)), choice).Err?
            ==> Uncached(p, Some(Actor(u, Platform)), choice) == Err(ChoiceUnknownTenant)
  {
  }

  /** Which sentinel a denied tenant admin gets. */
  lemma AdminDenial(p: PortalState, u: UserId, choice: Key)
    ensures var r := Uncached(p, Some(Actor(u, TenantAdmin)), choice);
            && (r == Err(ChoiceNotBound) <==> choice != "" && choice !in MembersOf(p, u))
            && (r == Err(ChoiceRequired) <==> choice == "" && !exists i :: SoleBinding(MembersOf(p, u), i))
            && (r.Err? ==> r.error in {ChoiceNotBound, ChoiceRequired})
  {
    var rows := MembersOf(p, u);
    var keys := NonEmptyKeys(rows);
    if |keys| == 1 {
      SoleKey(rows, keys[0]);
      assert keys == [keys[0]];
    } else if i :| SoleBinding(rows, i) {
      SoleKey(rows, rows[i]);
    }
  }

  /** The undisturbed resolution never caches or grants an empty tenant key to
      an admin, keeps other users' entries, and caches nothing on an error from
      the portal. */
  lemma AloneKeepsTheCacheClean(c: Cache, actor: Option<Actor>, choice: Key, call: PortalCall)
    requires Clean(c)
    ensures var (res, c') := ResolveAlone(c, actor, choice, call);
            && Clean(c')
            && (res == Err(PortalUnavailable) ==> c' == c)
            && (forall v :: v in c.bindings && actor != Some(Actor(v, TenantAdmin)) ==>
                  v in c'.bindings && c'.bindings[v] == c.bindings[v])
            && (actor.Some? && actor.value.userType.TenantAdmin? && res.Ok? ==> res.value != "")
  {
  }
}
