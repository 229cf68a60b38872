/** The tenant clamp behind the door and the portal surface it guards. The
    clamp is one rule written twice in the source (bffscope and portal). */
module Clamp {
  import opened Wrappers
  import opened ResolverSpec
  import opened ResolverRuns
  import opened ResolverTheorems
  import opened TenantGate

  datatype Denial = Forbidden | PlatformOnly | Unresolved

  /** A decoded request message that names a tenant. */
  class Body {
    var tenantKey: Key

    constructor (tenantKey: Key)
      ensures this.tenantKey == tenantKey
    {
      this.tenantKey := tenantKey;
    }
  }

  /** The tenant a message names once clamped, or why it is refused. */
  function Scoped(ctx: Context, named: Key): Result<Key, Denial> {
    match ctx.actor
    case None => Err(Forbidden)
    case Some(Actor(_, TenantAdmin)) =>
      if ctx.tenantKey.None? || ctx.tenantKey.value == "" then Err(Unresolved) else Ok(ctx.tenantKey.value)
    case _ => Ok(named)
  }

  /** Overwrites the message's tenant in place. */
  method TenantKey(ctx: Context, body: Body) returns (denied: Option<Denial>)
    modifies body
    ensures match Scoped(ctx, old(body.tenantKey))
            case Ok(key) => denied == None && body.tenantKey == key
            case Err(e) => denied == Some(e) && body.tenantKey == old(body.tenantKey)
  {
    if ctx.actor.None? {
      return Some(Forbidden);
    }
    if !ctx.actor.value.userType.TenantAdmin? {
      return None;
    }
    if ctx.tenantKey.None? || ctx.tenantKey.value == "" {
      return Some(Unresolved);
    }
    body.tenantKey := ctx.tenantKey.value;
    return None;
  }

  function RequirePlatform(ctx: Context): Option<Denial> {
    if ctx.actor.None? || !ctx.actor.value.userType.Platform? then Some(PlatformOnly) else None
  }

  datatype Rpc =
    | WhoAmI | MyCapabilities
    | ListApiKeys | CreateApiKey
    | RotateApiKeySecret | DisableApiKey
    | ListTenants | CreateTenant | UpdateTenant | SetCapability | DisableTenant | DeleteTenant
    | ListTenantMembers | AddTenantMember | RemoveTenantMember

  predicate NamesTenant(rpc: Rpc) {
    rpc.ListApiKeys? || rpc.CreateApiKey?
  }

  predicate NamesAccessKey(rpc: Rpc) {
    rpc.RotateApiKeySecret? || rpc.DisableApiKey?
  }

  /** The tenant registry and its members. */
  predicate ManagesRegistry(rpc: Rpc) {
    !NamesTenant(rpc) && !NamesAccessKey(rpc) && !rpc.WhoAmI? && !rpc.MyCapabilities?
  }

  /** What the portal is sent: no message at all, the caller's message as it
      is, or the caller's message about the tenant it was clamped to. */
  datatype Sent = NoMessage | AsGiven | ForTenant(key: Key)

  /** What is forwarded, or the door-side refusal. */
  function Served(rpc: Rpc, ctx: Context, named: Key): Result<Sent, Denial> {
    if rpc.WhoAmI? || rpc.MyCapabilities? then Ok(NoMessage)
    else if NamesAccessKey(rpc) then Ok(AsGiven)
    else if NamesTenant(rpc) then
      match Scoped(ctx, named) case Ok(key) => Ok(ForTenant(key)) case Err(e) => Err(e)
    else
      match RequirePlatform(ctx) case Some(e) => Err(e) case None => Ok(AsGiven)
  }

  predicate IsUser(actor: Option<Actor>, userType: UserType) {
    actor.Some? && actor.value.userType == userType
  }

  /** The caller is a tenant admin whose tenant the door did not resolve. */
  predicate UnresolvedAdmin(ctx: Context) {
    IsUser(ctx.actor, TenantAdmin) && (ctx.tenantKey.None? || ctx.tenantKey.value == "")
  }

  method Serve(rpc: Rpc, ctx: Context, body: Body) returns (sent: Result<Sent, Denial>)
    modifies body
    ensures sent == Served(rpc, ctx, old(body.tenantKey))
    ensures rpc in {WhoAmI, MyCapabilities} ==> sent == Ok(NoMessage)
    ensures rpc in {RotateApiKeySecret, DisableApiKey} ==> sent == Ok(AsGiven)
    ensures rpc in {ListApiKeys, CreateApiKey} ==>
              if ctx.actor.None? then sent == Err(Forbidden)
              else if UnresolvedAdmin(ctx) then sent == Err(Unresolved)
              else sent == Ok(ForTenant(body.tenantKey))
    ensures rpc in {ListTenants, CreateTenant, UpdateTenant, SetCapability, DisableTenant, DeleteTenant,
                    ListTenantMembers, AddTenantMember, RemoveTenantMember} ==>
              sent == if IsUser(ctx.actor, Platform) then Ok(AsGiven) else Err(PlatformOnly)
    ensures body.tenantKey
            == if rpc in {ListApiKeys, CreateApiKey} && IsUser(ctx.actor, TenantAdmin) && !UnresolvedAdmin(ctx)
               then ctx.tenantKey.value else old(body.tenantKey)
    ensures body.tenantKey == if sent.Ok? && sent.value.ForTenant? then sent.value.key else old(body.tenantKey)
  {
    if rpc.WhoAmI? || rpc.MyCapabilities? {
      return Ok(NoMessage);
    }
    if NamesAccessKey(rpc) {
      return Ok(AsGiven);
    }
    if NamesTenant(rpc) {
      var denied := TenantKey(ctx, body);
      return if denied.Some? then Err(denied.value) else Ok(ForTenant(body.tenantKey));
    }
    var denied := RequirePlatform(ctx);
    return if denied.Some? then Err(denied.value) else Ok(AsGiven);
  }

  // ----- the door and the clamp together -----

  datatype Reply = Http(status: int) | Handled(sent: Result<Sent, Denial>)

  /** Whether the door resolves this request. */
  predicate Manages(r: Request) {
    r.verb != "OPTIONS" && r.ctx.actor.Some? && !r.ctx.actor.value.userType.OtherType?
  }

  /** What the door's verdict and the handler make of one request. */
  function Replied(verdict: Verdict, values: Values, ctx: Context, rpc: Rpc, named: Key): Reply {
    match verdict
    case Deny(status) => Http(status)
    case _ => Handled(Served(rpc, Passed(verdict, values, ctx).1, named))
  }

  /** The tenant the message names afterwards. */
  function Named(reply: Reply, named: Key): Key {
    if reply.Handled? && reply.sent.Ok? && reply.sent.value.ForTenant? then reply.sent.value.key else named
  }

  lemma AdminIsAnswered(
      verb: string, path: string, values: Values, ctx: Context, choice: Key, resolved: Resolution, rpc: Rpc, named: Key)
    requires IsUser(ctx.actor, TenantAdmin) && verb != "OPTIONS" && path !in CHOICELESS_ROUTES
    requires resolved.Ok? ==> resolved.value != ""
    ensures var verdict := Judge(verb, path, ctx.actor, choice, resolved);
            var reply := Replied(verdict, values, ctx, rpc, named);
            match resolved
            case Ok(key) =>
              && !verdict.Deny?
              && WIRE_TENANT_KEY_HEADER in Passed(verdict, values, ctx).0
              && Passed(verdict, values, ctx).0[WIRE_TENANT_KEY_HEADER] == [key]
              && (NamesTenant(rpc) ==> reply == Handled(Ok(ForTenant(key))) && Named(reply, named) == key)
              && (!NamesTenant(rpc) ==> Named(reply, named) == named)
              && (ManagesRegistry(rpc) ==> reply == Handled(Err(PlatformOnly)))
              && reply.Handled? && (reply.sent.Err? <==> ManagesRegistry(rpc))
            case Err(e) =>
              && verdict.Deny? && reply == Http(if e == PortalUnavailable then 503 else 403)
              && Named(reply, named) == named
  {
  }

  lemma PlatformIsAnswered(
      verb: string, path: string, values: Values, ctx: Context, choice: Key, resolved: Resolution, rpc: Rpc, named: Key)
    requires IsUser(ctx.actor, Platform) && verb != "OPTIONS"
    requires resolved.Ok? ==> resolved.value == choice
    requires resolved != Err(ChoiceRequired)
    ensures var verdict := Judge(verb, path, ctx.actor, choice, resolved);
            var reply := Replied(verdict, values, ctx, rpc, named);
            && Named(reply, named) == named
            && match resolved
               case Ok(_) =>
                 && !verdict.Deny?
                 && (WIRE_TENANT_KEY_HEADER in Passed(verdict, values, ctx).0 <==> choice != "")
                 && (NamesTenant(rpc) ==> reply == Handled(Ok(ForTenant(named))))
                 && (ManagesRegistry(rpc) ==> reply == Handled(Ok(AsGiven)))
               case Err(e) => verdict.Deny? && reply == Http(if e == PortalUnavailable then 503 else 403)
  {
  }

  lemma OthersLeaveTheMessage(verdict: Verdict, values: Values, ctx: Context, rpc: Rpc, named: Key)
    ensures var reply := Replied(verdict, values, ctx, rpc, named);
            && (ManagesRegistry(rpc) && reply.Handled? && reply.sent.Ok? ==> IsUser(ctx.actor, Platform))
            && (Named(reply, named) != named ==> IsUser(ctx.actor, TenantAdmin) && NamesTenant(rpc))
            && (reply.Handled? && rpc in {WhoAmI, MyCapabilities} ==> reply.sent == Ok(NoMessage))
            && (reply.Handled? && NamesAccessKey(rpc) ==> reply.sent == Ok(AsGiven))
            && (if verdict.Deny? then reply == Http(verdict.status) else reply.Handled?)
  {
  }

  lemma AlwaysLetBy(verb: string, path: string, c: Cache, actor: Option<Actor>, choice: Key, call: PortalCall)
    ensures var verdict := Judge(verb, path, actor, choice, ResolveAlone(c, actor, choice, call).0);
            && (actor.None? ==> !verdict.Deny?)
            && (path in CHOICELESS_ROUTES && choice == "" ==> !verdict.Deny? || verdict == Deny(503))
  {
    if path in CHOICELESS_ROUTES && choice == "" {
      ChoicelessBootstrapIsNeverForbidden(verb, path, actor, c, call);
    }
  }

  lemma ResolutionsAlone(c: Cache, actor: Option<Actor>, choice: Key, call: PortalCall)
    requires Clean(c)
    ensures var resolved := ResolveAlone(c, actor, choice, call).0;
            && (IsUser(actor, TenantAdmin) && resolved.Ok? ==> resolved.value != "")
            && (IsUser(actor, Platform) && resolved.Ok? ==> resolved.value == choice)
            && (IsUser(actor, Platform) ==> resolved != Err(ChoiceRequired))
  {
    AloneKeepsTheCacheClean(c, actor, choice, call);
  }

  /** Through the door, then through the handler of `rpc`. */
  method Forward(gate: Gate, r: Request, call: PortalCall, rpc: Rpc, body: Body) returns (reply: Reply)
    requires gate.resolver.Valid()
    modifies r.header, gate.resolver, body
    ensures gate.resolver.Valid()
    ensures var choice := First(old(r.header.values), TENANT_CHOICE_HEADER);
            var (resolved, cache) := ResolveAlone(old(gate.resolver.Contents()), r.ctx.actor, choice, call);
            var verdict := Judge(r.verb, r.path, r.ctx.actor, choice, resolved);
            && gate.resolver.Contents() == (if Manages(r) then cache else old(gate.resolver.Contents()))
            && (!verdict.Deny? ==> r.header.values == Passed(verdict, old(r.header.values), r.ctx).0)
            && reply == Replied(verdict, old(r.header.values), r.ctx, rpc, old(body.tenantKey))
            && body.tenantKey == Named(reply, old(body.tenantKey))
  {
    hide ResolveAlone, Judge, Passed, Served, First;
    var out := gate.Wrap(r, call);
    match out {
      case Refused(status) =>
        return Http(status);
      case Forwarded(passed) =>
        var sent := Serve(rpc, passed.ctx, body);
        return Handled(sent);
    }
  }

  /** One management request from the wire to the portal. A tenant admin's
      message about API keys ends up, in place, about the granted tenant or goes
      nowhere; a platform operator's stays about the tenant it names, unless the
      drill-down is refused; and the registry answers nobody but platform
      operators. */
  method Handle(gate: Gate, r: Request, call: PortalCall, rpc: Rpc, body: Body) returns (reply: Reply)
    requires gate.resolver.Valid()
    modifies r.header, gate.resolver, body
    ensures gate.resolver.Valid()
    ensures var choice := First(old(r.header.values), TENANT_CHOICE_HEADER);
            var (resolved, cache) := ResolveAlone(old(gate.resolver.Contents()), r.ctx.actor, choice, call);
            IsUser(r.ctx.actor, TenantAdmin) && r.verb != "OPTIONS" && r.path !in CHOICELESS_ROUTES ==>
              && gate.resolver.Contents() == cache
              && match resolved
                 case Ok(key) =>
                   && key != "" && WIRE_TENANT_KEY_HEADER in r.header.values
                   && r.header.values[WIRE_TENANT_KEY_HEADER] == [key]
                   && (NamesTenant(rpc) ==> reply == Handled(Ok(ForTenant(key))) && body.tenantKey == key)
                   && (!NamesTenant(rpc) ==> body.tenantKey == old(body.tenantKey))
                   && (ManagesRegistry(rpc) ==> reply == Handled(Err(PlatformOnly)))
                   && reply.Handled? && (reply.sent.Err? <==> ManagesRegistry(rpc))
                 case Err(e) =>
                   && reply == Http(if e == PortalUnavailable then 503 else 403)
                   && body.tenantKey == old(body.tenantKey)
    ensures var choice := First(old(r.header.values), TENANT_CHOICE_HEADER);
            var (resolved, cache) := ResolveAlone(old(gate.resolver.Contents()), r.ctx.actor, choice, call);
            IsUser(r.ctx.actor, Platform) && r.verb != "OPTIONS" ==>
              && gate.resolver.Contents() == cache
              && body.tenantKey == old(body.tenantKey)
              && match resolved
                 case Ok(key) =>
                   && key == choice
                   && (WIRE_TENANT_KEY_HEADER in r.header.values <==> choice != "")
                   && (NamesTenant(rpc) ==> reply == Handled(Ok(ForTenant(body.tenantKey))))
                   && (ManagesRegistry(rpc) ==> reply == Handled(Ok(AsGiven)))
                 case Err(e) => reply == Http(if e == PortalUnavailable then 503 else 403)
    ensures ManagesRegistry(rpc) && reply.Handled? && reply.sent.Ok? ==> IsUser(r.ctx.actor, Platform)
    ensures body.tenantKey != old(body.tenantKey) ==> IsUser(r.ctx.actor, TenantAdmin) && NamesTenant(rpc)
    ensures reply.Handled? && rpc in {WhoAmI, MyCapabilities} ==> reply.sent == Ok(NoMessage)
    ensures reply.Handled? && NamesAccessKey(rpc) ==> reply.sent == Ok(AsGiven)
    ensures r.ctx.actor.None? ==> reply.Handled?
    ensures r.path in CHOICELESS_ROUTES && First(old(r.header.values), TENANT_CHOICE_HEADER) == "" ==>
              reply.Handled? || reply == Http(503)
  {
    hide ResolveAlone, Judge, Passed, Served, NamesTenant, ManagesRegistry, First, Replied, Named;
    ghost var choice := First(r.header.values, TENANT_CHOICE_HEADER);
    ghost var resolved := ResolveAlone(gate.resolver.Contents(), r.ctx.actor, choice, call).0;
    ghost var verdict := Judge(r.verb, r.path, r.ctx.actor, choice, resolved);
    ResolutionsAlone(gate.resolver.Contents(), r.ctx.actor, choice, call);
    if IsUser(r.ctx.actor, TenantAdmin) && r.verb != "OPTIONS" && r.path !in CHOICELESS_ROUTES {
      AdminIsAnswered(r.verb, r.path, r.header.values, r.ctx, choice, resolved, rpc, body.tenantKey);
    }
    if IsUser(r.ctx.actor, Platform) && r.verb != "OPTIONS" {
      PlatformIsAnswered(r.verb, r.path, r.header.values, r.ctx, choice, resolved, rpc, body.tenantKey);
    }
    OthersLeaveTheMessage(verdict, r.header.values, r.ctx, rpc, body.tenantKey);
    AlwaysLetBy(r.verb, r.path, gate.resolver.Contents(), r.ctx.actor, choice, call);
    reply := Forward(gate, r, call, rpc, body);
  }

  /** A tenant admin's forwarded request reaches a tenant-naming RPC with the
      granted key whatever the message said, and never as "unresolved"; the
      registry surface stays closed. Preflights carry no message. */
  lemma AdminReachesOnlyTheGrantedTenant(
      verb: string, path: string, values: Values, ctx: Context, choice: Key, resolved: Resolution, rpc: Rpc, named: Key)
    requires IsUser(ctx.actor, TenantAdmin)
    requires resolved.Ok? ==> resolved.value != ""
    requires verb != "OPTIONS" && path !in CHOICELESS_ROUTES
    ensures var verdict := Judge(verb, path, ctx.actor, choice, resolved);
            !verdict.Deny? ==>
              && verdict.Plant? && resolved == Ok(verdict.key)
              && var (seen, ctx') := Passed(verdict, values, ctx);
                 && seen[WIRE_TENANT_KEY_HEADER] == [verdict.key]
                 && ctx'.incoming.value[TENANT_METADATA] == [verdict.key]
                 && ctx'.tenantKey == Some(verdict.key)
                 && (TENANT_METADATA !in ctx.outgoing ==> ctx'.outgoing[TENANT_METADATA] == [verdict.key])
                 && (NamesTenant(rpc) ==> Served(rpc, ctx', named) == Ok(ForTenant(verdict.key)))
                 && (ManagesRegistry(rpc) ==> Served(rpc, ctx', named) == Err(PlatformOnly))
  {
    AdminIsScopedOrBootstrapping(verb, path, ctx.actor.value.userId, choice, resolved);
  }

  /** A platform operator's message keeps the tenant it names, preflights and
      cross view included. */
  lemma PlatformNamesItsOwnTarget(
      verb: string, path: string, values: Values, ctx: Context, choice: Key, resolved: Resolution, rpc: Rpc, named: Key)
    requires IsUser(ctx.actor, Platform)
    ensures var verdict := Judge(verb, path, ctx.actor, choice, resolved);
            !verdict.Deny? ==>
              var sent := Served(rpc, Passed(verdict, values, ctx).1, named);
              && sent.Ok?
              && (NamesTenant(rpc) ==> sent.value == ForTenant(named))
              && (ManagesRegistry(rpc) ==> sent.value == AsGiven)
  {
  }

  /** Over every schedule of concurrent requests: what a tenant admin's message
      asks the portal about is a tenant that admin was bound to less than
      TTL + maxDelay before the resolution. */
  lemma ForwardedTenantWasRecentlyBound(
      p: PortalState, now: Instant, steps: seq<Step>, s: State, a: Answer, u: UserId,
      verb: string, path: string, values: Values, ctx: Context, rpc: Rpc, named: Key)
    requires Reached(p, now, steps, s) && a in s.answers && a.actor == Some(Actor(u, TenantAdmin))
    requires ctx.actor == a.actor && verb != "OPTIONS" && path !in CHOICELESS_ROUTES && NamesTenant(rpc)
    ensures var verdict := Judge(verb, path, ctx.actor, a.choice, a.result);
            !verdict.Deny? ==>
              var sent := Served(rpc, Passed(verdict, values, ctx).1, named);
              && sent.Ok? && sent.value.ForTenant? && sent.value.key != ""
              && exists t :: a.at - DEFAULT_TTL - s.maxDelay < t <= a.at && BoundAt(s, u, sent.value.key, t)
  {
    if a.result.Ok? {
      GrantedKeyWasBound(p, now, steps, s, a, u);
      AdminReachesOnlyTheGrantedTenant(verb, path, values, ctx, a.choice, a.result, rpc, named);
    }
  }

  /** The same for drill-downs: the tenant a platform operator's forwarded
      request is scoped to is the one it chose, was registered less than
      TTL + maxDelay before the resolution, and leaves the message its own. */
  lemma ForwardedDrillDownWasRecentlyRegistered(
      p: PortalState, now: Instant, steps: seq<Step>, s: State, a: Answer, u: UserId,
      verb: string, path: string, values: Values, ctx: Context, rpc: Rpc, named: Key)
    requires Reached(p, now, steps, s) && a in s.answers && a.actor == Some(Actor(u, Platform)) && a.choice != ""
    requires ctx.actor == a.actor && verb != "OPTIONS"
    ensures var verdict := Judge(verb, path, ctx.actor, a.choice, a.result);
            !verdict.Deny? ==>
              && verdict == Plant(a.choice)
              && (exists t :: a.at - DEFAULT_TTL - s.maxDelay < t <= a.at && RegisteredAt(s, a.choice, t))
              && var (seen, ctx') := Passed(verdict, values, ctx);
                 && seen[WIRE_TENANT_KEY_HEADER] == [a.choice] && ctx'.tenantKey == Some(a.choice)
                 && (NamesTenant(rpc) ==> Served(rpc, ctx', named) == Ok(ForTenant(named)))
                 && (ManagesRegistry(rpc) ==> Served(rpc, ctx', named) == Ok(AsGiven))
  {
    if a.result != Err(PortalUnavailable) {
      BoundedStaleness(p, now, steps, s, a);
      if a.result.Ok? {
        PlatformGrant(s.history[a.origin.version].portal, u, a.choice, a.result.value);
        GrantedDrillDownWasRegistered(p, now, steps, s, a, u);
      }
    }
  }
}
