/** The resolver object: its two cache fields and the code that updates them. */
module Resolver {
  import opened Wrappers
  import opened ResolverSpec
  import opened Selections

  class Resolver {
    const ttl: Instant
    var bindings: map<UserId, Bindings>
    var registry: Option<Registry>

    function Contents(): Cache
      reads this
    {
      Cache(bindings, registry)
    }

    ghost predicate Valid()
      reads this
    {
      ttl == DEFAULT_TTL && Clean(Contents())
    }

    constructor ()
      ensures Valid()
      ensures Contents() == Cache(map[], None)
    {
      ttl := DEFAULT_TTL;
      bindings := map[];
      registry := None;
    }

    /** First critical section of a binding lookup. */
    method CheckBindings(u: UserId, now: Instant) returns (hit: Option<seq<Key>>)
      ensures hit == LookupBindings(Contents(), u, now)
    {
      if u in bindings {
        var c := bindings[u];
        if now < c.expiresAt {
          return Some(c.keys);
        }
      }
      return None;
    }

    /** Keeps the rows of a portal answer that carry a key. */
    method KeysOfAnswer(rows: seq<Key>) returns (keys: seq<Key>)
      ensures keys == NonEmptyKeys(rows)
      ensures KeptInOrder(keys, rows, HasKey)
    {
      keys := [];
      for i := 0 to |rows|
        invariant keys == NonEmptyKeys(rows[..i])
      {
        assert rows[..i + 1][..i] == rows[..i];
        if rows[i] != "" {
          keys := keys + [rows[i]];
        }
      }
      assert rows[..|rows|] == rows;
      KeysAreInOrder(rows);
    }

    /** The actor's binding set, from the cache or from one portal call. */
    method BindingSet(u: UserId, call: PortalCall) returns (r: Result<seq<Key>, ResolveError>)
      requires Valid()
      modifies this`bindings
      ensures Valid()
      ensures match LookupBindings(old(Contents()), u, call.checkAt)
              case Some(keys) => r == Ok(keys) && Contents() == old(Contents())
              case None =>
                match call.whoAmI
                case None => r == Err(PortalUnavailable) && Contents() == old(Contents())
                case Some(rows) =>
                  && r == Ok(NonEmptyKeys(rows))
                  && Contents() == PutBindings(old(Contents()), u, NonEmptyKeys(rows), call.storeAt)
    {
      var hit := CheckBindings(u, call.checkAt);
      if hit.Some? {
        return Ok(hit.value);
      }
      if call.whoAmI.None? {
        return Err(PortalUnavailable);
      }
      var keys := KeysOfAnswer(call.whoAmI.value);
      bindings := bindings[u := Bindings(keys, call.storeAt + ttl)];
      return Ok(keys);
    }

    /** Whether `key` is in the tenant registry, from the cache or from one portal call. */
    method Registered(key: Key, call: PortalCall) returns (r: Result<bool, ResolveError>)
      requires Valid()
      modifies this`registry
      ensures Valid()
      ensures match LookupRegistry(old(Contents()), call.checkAt)
              case Some(keys) => r == Ok(key in keys) && Contents() == old(Contents())
              case None =>
                match call.listTenants
                case None => r == Err(PortalUnavailable) && Contents() == old(Contents())
                case Some(rows) =>
                  && r == Ok(key in RegistryKeys(rows))
                  && Contents() == PutRegistry(old(Contents()), RegistryKeys(rows), call.storeAt)
    {
      if registry.Some? && call.checkAt < registry.value.expiresAt {
        return Ok(key in registry.value.keys);
      }
      if call.listTenants.None? {
        return Err(PortalUnavailable);
      }
      var rows := call.listTenants.value;
      var keys: set<Key> := {};
      for i := 0 to |rows|
        invariant keys == RegistryKeys(rows[..i])
      {
        if rows[i] != "" {
          keys := keys + {rows[i]};
        }
      }
      assert rows[..|rows|] == rows;
      registry := Some(Registry(keys, call.storeAt + ttl));
      return Ok(key in keys);
    }

    /** The trusted key the request operates as, `Ok("")` for no injection. */
    method Resolve(actor: Option<Actor>, choice: Key, call: PortalCall) returns (res: Resolution)
      requires Valid()
      modifies this
      ensures Valid()
      ensures (res, Contents()) == ResolveAlone(old(Contents()), actor, choice, call)
    {
      if actor.None? {
        return Err(NoActor);
      }
      match actor.value.userType {
        case TenantAdmin =>
          var bound := BindingSet(actor.value.userId, call);
          if bound.Err? {
            return Err(bound.error);
          }
          var keys := bound.value;
          if choice == "" {
            if |keys| != 1 {
              return Err(ChoiceRequired);
            }
            return Ok(keys[0]);
          }
          if choice !in keys {
            return Err(ChoiceNotBound);
          }
          return Ok(choice);
        case Platform =>
          if choice == "" {
            return Ok("");
          }
          var known := Registered(choice, call);
          if known.Err? {
            return Err(known.error);
          }
          if !known.value {
            return Err(ChoiceUnknownTenant);
          }
          return Ok(choice);
        case OtherType(_) =>
          return Err(UserTypeDenied);
      }
    }
  }
}
