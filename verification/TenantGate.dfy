/** The HTTP door in front of every handler: strips inbound tenant headers,
    resolves the request and plants the one trusted key. */
module TenantGate {
  import opened Wrappers
  import opened ResolverSpec
  import opened Resolver
  import opened ResolverRuns
  import opened ResolverTheorems

  const CONSOLE_TENANT_KEY: Key := "ten_platform"

  const TENANT_CHOICE_HEADER := "X-Tenant-Choice"
  const WIRE_TENANT_CHOICE_HEADER := "Grpc-Metadata-X-Tenant-Choice"
  const WIRE_TENANT_KEY_HEADER := "Grpc-Metadata-X-Tenant-Key"
  const PLAIN_TENANT_KEY_HEADER := "X-Tenant-Key"
  const STRIPPED: set<string> :=
    {TENANT_CHOICE_HEADER, WIRE_TENANT_CHOICE_HEADER, WIRE_TENANT_KEY_HEADER, PLAIN_TENANT_KEY_HEADER}

  /** The metadata key the trusted tenant travels under. */
  const TENANT_METADATA := "x-tenant-key"

  const CHOICELESS_ROUTES: set<string> := {"/api/v1/portal/whoami"}

  type Values = map<string, seq<string>>

  function First(vs: Values, name: string): (value: string)
    ensures name in vs && vs[name] != [] ==> [value] <= vs[name]
  {
    if name in vs && vs[name] != [] then vs[name][0] else ""
  }

  /** An HTTP header set, updated in place and shared by a request and the
      copies made of it. Names are in canonical form. */
  class Header {
    var values: Values

    constructor (values: Values)
      ensures this.values == values
    {
      this.values := values;
    }

    function Get(name: string): string
      reads this
    {
      First(values, name)
    }

    method Del(name: string)
      modifies this
      ensures values == old(values) - {name}
    {
      values := values - {name};
    }

    method Set(name: string, value: string)
      modifies this
      ensures values == old(values)[name := [value]]
    {
      values := values[name := [value]];
    }
  }

  /** The parts of a request context the door and its handlers read. */
  datatype Context = Context(
    actor: Option<Actor>,
    incoming: Option<Values>,
    outgoing: Values,
    tenantKey: Option<Key>)

  datatype Request = Request(verb: string, path: string, header: Header, ctx: Context)

  datatype Outcome = Forwarded(request: Request) | Refused(status: int)

  function WithTrustedTenant(ctx: Context, key: Key): Context {
    var held := if ctx.incoming.Some? then ctx.incoming.value else map[];
    var incoming := held[TENANT_METADATA := [key]];
    var already := if TENANT_METADATA in ctx.outgoing then ctx.outgoing[TENANT_METADATA] else [];
    Context(ctx.actor, Some(incoming), ctx.outgoing[TENANT_METADATA := already + [key]], Some(key))
  }

  /** What the door decides before it touches the request again. */
  datatype Verdict = Plant(key: Key) | Bare | Deny(status: int)

  function Judge(verb: string, path: string, actor: Option<Actor>, choice: Key, resolved: Resolution): Verdict {
    if verb == "OPTIONS" then Bare
    else if actor.None? then Plant(CONSOLE_TENANT_KEY)
    else if actor.value.userType.OtherType? then
      if choice != "" then Deny(403) else Bare
    else
      match resolved
      case Ok(key) => if key != "" then Plant(key) else Bare
      case Err(PortalUnavailable) => Deny(503)
      case Err(e) =>
        if choice == "" && e == ChoiceRequired && path in CHOICELESS_ROUTES then Bare else Deny(403)
  }

  /** Headers and context the wrapped handler sees. */
  function Passed(verdict: Verdict, values: Values, ctx: Context): (Values, Context)
    requires !verdict.Deny?
  {
    var clean := values - STRIPPED;
    match verdict
    case Plant(key) => (clean[WIRE_TENANT_KEY_HEADER := [key]], WithTrustedTenant(ctx, key))
    case Bare => (clean, ctx)
  }

  /** Every view of the request names the key, the outgoing metadata last. */
  predicate Carries(values: Values, ctx: Context, key: Key) {
    && WIRE_TENANT_KEY_HEADER in values && values[WIRE_TENANT_KEY_HEADER] == [key]
    && ctx.tenantKey == Some(key)
    && ctx.incoming.Some? && TENANT_METADATA in ctx.incoming.value && ctx.incoming.value[TENANT_METADATA] == [key]
    && TENANT_METADATA in ctx.outgoing
    && var sent := ctx.outgoing[TENANT_METADATA]; sent != [] && sent[|sent| - 1] == key
  }

  /** No key reaches the handler beyond what the context held at the edge. */
  predicate CarriesNone(values: Values, was: Context, ctx: Context) {
    WIRE_TENANT_KEY_HEADER !in values && ctx == was
  }

  method WithTrustedRequest(r: Request, key: Key) returns (r': Request)
    modifies r.header
    ensures r'.header == r.header
    ensures r.header.values == old(r.header.values)[WIRE_TENANT_KEY_HEADER := [key]]
    ensures r' == r.(ctx := WithTrustedTenant(r.ctx, key))
  {
    r.header.Set(WIRE_TENANT_KEY_HEADER, key);
    r' := r.(ctx := WithTrustedTenant(r.ctx, key));
  }

  class Gate {
    const resolver: Resolver

    constructor (resolver: Resolver)
      ensures this.resolver == resolver
    {
      this.resolver := resolver;
    }

    /** `call` is what the clock and the portal would answer this request's
        resolution, should it come to one. */
    method Wrap(r: Request, call: PortalCall) returns (out: Outcome)
      requires resolver.Valid()
      modifies r.header, resolver
      ensures resolver.Valid()
      ensures var choice := First(old(r.header.values), TENANT_CHOICE_HEADER);
              var manages := r.verb != "OPTIONS" && r.ctx.actor.Some? && !r.ctx.actor.value.userType.OtherType?;
              var (resolved, cache) := ResolveAlone(old(resolver.Contents()), r.ctx.actor, choice, call);
              && resolver.Contents() == (if manages then cache else old(resolver.Contents()))
              && match Judge(r.verb, r.path, r.ctx.actor, choice, resolved)
                 case Deny(status) => out == Refused(status)
                 case verdict =>
                   && out.Forwarded?
                   && out.request.header == r.header
                   && out.request.verb == r.verb && out.request.path == r.path
                   && (r.header.values, out.request.ctx) == Passed(verdict, old(r.header.values), r.ctx)
      ensures r.verb == "OPTIONS" ==>
                && out.Forwarded? && CarriesNone(r.header.values, r.ctx, out.request.ctx)
                && resolver.Contents() == old(resolver.Contents())
      ensures r.verb != "OPTIONS" && r.ctx.actor.None? ==>
                && out.Forwarded? && Carries(r.header.values, out.request.ctx, CONSOLE_TENANT_KEY)
                && out.request.ctx.actor == None
                && resolver.Contents() == old(resolver.Contents())
      ensures r.verb != "OPTIONS" && r.ctx.actor.Some? && r.ctx.actor.value.userType.OtherType? ==>
                && resolver.Contents() == old(resolver.Contents())
                && if First(old(r.header.values), TENANT_CHOICE_HEADER) != "" then out == Refused(403)
                   else out.Forwarded? && CarriesNone(r.header.values, r.ctx, out.request.ctx)
      ensures var choice := First(old(r.header.values), TENANT_CHOICE_HEADER);
              var resolved := ResolveAlone(old(resolver.Contents()), r.ctx.actor, choice, call).0;
              out.Forwarded? && !CarriesNone(r.header.values, r.ctx, out.request.ctx) ==>
                if r.ctx.actor.None? then Carries(r.header.values, out.request.ctx, CONSOLE_TENANT_KEY)
                else
                  && !r.ctx.actor.value.userType.OtherType?
                  && resolved.Ok? && resolved.value != ""
                  && Carries(r.header.values, out.request.ctx, resolved.value)
    {
      var choice := r.header.Get(TENANT_CHOICE_HEADER);
      r.header.Del(TENANT_CHOICE_HEADER);
      r.header.Del(WIRE_TENANT_CHOICE_HEADER);
      r.header.Del(WIRE_TENANT_KEY_HEADER);
      r.header.Del(PLAIN_TENANT_KEY_HEADER);
      assert r.header.values == old(r.header.values) - STRIPPED;

      if r.verb == "OPTIONS" {
        return Forwarded(r);
      }
      if r.ctx.actor.None? {
        var anonymous := WithTrustedRequest(r, CONSOLE_TENANT_KEY);
        return Forwarded(anonymous);
      }
      var key := "";
      if r.ctx.actor.value.userType.OtherType? {
        if choice != "" {
          return Refused(403);
        }
      } else {
        var resolved := resolver.Resolve(r.ctx.actor, choice, call);
        match resolved {
          case Ok(k) => key := k;
          case Err(PortalUnavailable) => return Refused(503);
          case Err(e) =>
            if !(choice == "" && e == ChoiceRequired && r.path in CHOICELESS_ROUTES) {
              return Refused(403);
            }
        }
      }
      var passed := r;
      if key != "" {
        passed := WithTrustedRequest(r, key);
      }
      return Forwarded(passed);
    }
  }

  // ----- what the door promises the handlers behind it -----

  /** No inbound tenant header survives, every other header does, and the four
      views of a planted key agree. The outgoing metadata is appended to, so it
      names the key alone exactly when nothing was there before. */
  lemma OnlyTheTrustedKeyPasses(verdict: Verdict, values: Values, ctx: Context)
    requires !verdict.Deny?
    ensures var (seen, ctx') := Passed(verdict, values, ctx);
            && TENANT_CHOICE_HEADER !in seen && WIRE_TENANT_CHOICE_HEADER !in seen && PLAIN_TENANT_KEY_HEADER !in seen
            && seen - STRIPPED == values - STRIPPED
            && ctx'.actor == ctx.actor
            && ctx'.outgoing - {TENANT_METADATA} == ctx.outgoing - {TENANT_METADATA}
            && (ctx.incoming.Some? ==>
                  && ctx'.incoming.Some?
                  && ctx'.incoming.value - {TENANT_METADATA} == ctx.incoming.value - {TENANT_METADATA})
            && match verdict
               case Bare => WIRE_TENANT_KEY_HEADER !in seen && ctx' == ctx
               case Plant(key) =>
                 && seen[WIRE_TENANT_KEY_HEADER] == [key]
                 && ctx'.tenantKey == Some(key)
                 && ctx'.incoming.Some? && TENANT_METADATA in ctx'.incoming.value
                 && ctx'.incoming.value[TENANT_METADATA] == [key]
                 && TENANT_METADATA in ctx'.outgoing
                 && var before := if TENANT_METADATA in ctx.outgoing then ctx.outgoing[TENANT_METADATA] else [];
                 && before <= ctx'.outgoing[TENANT_METADATA] && |ctx'.outgoing[TENANT_METADATA]| == |before| + 1
                 && (ctx'.outgoing[TENANT_METADATA] == [key]
                     <==> (TENANT_METADATA !in ctx.outgoing || ctx.outgoing[TENANT_METADATA] == []))
  {
  }

  /** Behind the door a tenant admin is always scoped to a granted key, with two
      exceptions: preflights, and the choiceless bootstrap route when no choice
      was sent and the binding set leaves none to default to. */
  lemma AdminIsScopedOrBootstrapping(verb: string, path: string, u: UserId, choice: Key, resolved: Resolution)
    requires resolved.Ok? ==> resolved.value != ""
    ensures var verdict := Judge(verb, path, Some(Actor(u, TenantAdmin)), choice, resolved);
            && (verdict.Plant? <==> verb != "OPTIONS" && resolved.Ok?)
            && (verdict.Plant? ==> resolved == Ok(verdict.key) && verdict.key != "")
            && (verdict.Bare? <==>
                  || verb == "OPTIONS"
                  || (path in CHOICELESS_ROUTES && choice == "" && resolved == Err(ChoiceRequired)))
            && (verdict == Deny(503) <==> verb != "OPTIONS" && resolved == Err(PortalUnavailable))
  {
  }

  /** A choiceless bootstrap call is never forbidden, whoever sends it and
      whatever the cache and the portal hold: only an unreachable portal stops
      it, with 503. */
  lemma ChoicelessBootstrapIsNeverForbidden(
      verb: string, path: string, actor: Option<Actor>, c: Cache, call: PortalCall)
    requires path in CHOICELESS_ROUTES
    ensures var resolved := ResolveAlone(c, actor, "", call).0;
            var verdict := Judge(verb, path, actor, "", resolved);
            && verdict != Deny(403)
            && (verdict.Deny? ==> verdict == Deny(503) && resolved == Err(PortalUnavailable))
  {
  }

  /** The same over every schedule of concurrent requests. */
  lemma ChoicelessAnswerIsNeverForbidden(
      p: PortalState, now: Instant, steps: seq<Step>, s: State, a: Answer, verb: string, path: string)
    requires Reached(p, now, steps, s) && a in s.answers && a.choice == "" && path in CHOICELESS_ROUTES
    ensures var verdict := Judge(verb, path, a.actor, "", a.result);
            && verdict != Deny(403)
            && (verdict.Deny? ==> verdict == Deny(503) && a.result == Err(PortalUnavailable))
  {
    if a.result != Err(PortalUnavailable) {
      BoundedStaleness(p, now, steps, s, a);
      match a.actor {
        case Some(Actor(u, TenantAdmin)) => AdminDenial(s.history[a.origin.version].portal, u, "");
        case _ =>
      }
    }
  }
}
