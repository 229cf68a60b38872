/** What the TTL cache guarantees over every schedule, and where its
    documented bound stops. */
module ResolverTheorems {
  import opened Wrappers
  import opened ResolverSpec
  import opened ResolverRuns

  predicate Reached(p: PortalState, now: Instant, steps: seq<Step>, s: State) {
    After(Initial(p, now), steps) == Some(s)
  }

  /** `key` was one of `u`'s memberships at instant `t`. */
  ghost predicate BoundAt(s: State, u: UserId, key: Key, t: Instant) {
    exists i: nat :: InForce(s, i, t) && key in MembersOf(s.history[i].portal, u)
  }

  ghost predicate RegisteredAt(s: State, key: Key, t: Instant) {
    exists i: nat :: InForce(s, i, t) && key in s.history[i].portal.tenants
  }

  /** Every answer but a portal failure, grant or denial, is the matrix's own
      answer on a portal state in force less than TTL + maxDelay earlier. */
  lemma BoundedStaleness(p: PortalState, now: Instant, steps: seq<Step>, s: State, a: Answer)
    requires Reached(p, now, steps, s) && a in s.answers && a.result != Err(PortalUnavailable)
    ensures InForce(s, a.origin.version, a.origin.at)
    ensures a.at - DEFAULT_TTL - s.maxDelay < a.origin.at <= a.at
    ensures a.result == Uncached(s.history[a.origin.version].portal, a.actor, a.choice)
  {
    EveryRunIsSound(p, now, steps);
    var i :| 0 <= i < |s.answers| && s.answers[i] == a;
    assert AnswerSound(s, s.answers[i]);
  }

  lemma GrantedKeyWasBound(p: PortalState, now: Instant, steps: seq<Step>, s: State, a: Answer, u: UserId)
    requires Reached(p, now, steps, s) && a in s.answers
    requires a.actor == Some(Actor(u, TenantAdmin)) && a.result.Ok?
    ensures a.result.value != ""
    ensures exists t :: a.at - DEFAULT_TTL - s.maxDelay < t <= a.at && BoundAt(s, u, a.result.value, t)
  {
    BoundedStaleness(p, now, steps, s, a);
    AdminGrant(s.history[a.origin.version].portal, u, a.choice, a.result.value);
    assert BoundAt(s, u, a.result.value, a.origin.at);
  }

  lemma GrantedDrillDownWasRegistered(p: PortalState, now: Instant, steps: seq<Step>, s: State, a: Answer, u: UserId)
    requires Reached(p, now, steps, s) && a in s.answers
    requires a.actor == Some(Actor(u, Platform)) && a.result.Ok? && a.result.value != ""
    ensures a.result.value == a.choice
    ensures exists t :: a.at - DEFAULT_TTL - s.maxDelay < t <= a.at && RegisteredAt(s, a.result.value, t)
  {
    BoundedStaleness(p, now, steps, s, a);
    assert RegisteredAt(s, a.result.value, a.origin.at);
  }

  /** Two portal states the matrix cannot tell apart for this actor. */
  predicate SameFor(p: PortalState, q: PortalState, actor: Option<Actor>) {
    match actor
    case Some(Actor(u, TenantAdmin)) => MembersOf(p, u) == MembersOf(q, u)
    case Some(Actor(_, Platform)) => RegistryKeys(p.tenants) == RegistryKeys(q.tenants)
    case _ => true
  }

  /** What concerns the actor did not change in the last TTL + maxDelay. */
  ghost predicate Quiet(s: State, a: Answer, current: PortalState) {
    forall i: nat, t ::
      InForce(s, i, t) && a.at - DEFAULT_TTL - s.maxDelay < t <= a.at ==>
        SameFor(s.history[i].portal, current, a.actor)
  }

  /** On a quiet portal the cache is invisible: same key, same sentinel error. */
  lemma QuietCacheIsTransparent(
      p: PortalState, now: Instant, steps: seq<Step>, s: State, a: Answer, current: PortalState)
    requires Reached(p, now, steps, s) && a in s.answers && a.result != Err(PortalUnavailable)
    requires Quiet(s, a, current)
    ensures a.result == Uncached(current, a.actor, a.choice)
  {
    BoundedStaleness(p, now, steps, s, a);
    assert SameFor(s.history[a.origin.version].portal, current, a.actor);
  }

  /** The cache never mixes users: an entry is the keyed part of one portal
      answer about its own user. */
  lemma EntriesArePortalAnswers(p: PortalState, now: Instant, steps: seq<Step>, s: State, u: UserId)
    requires Reached(p, now, steps, s) && u in s.cache.bindings
    ensures exists i: nat, t :: InForce(s, i, t)
              && s.cache.bindings[u].keys == NonEmptyKeys(MembersOf(s.history[i].portal, u))
  {
    EveryRunIsSound(p, now, steps);
    var o := s.bindingOrigin[u];
    assert Timely(s, o, s.cache.bindings[u].expiresAt);
    assert InForce(s, o.version, o.at);
  }

  /** Nothing but a store of a portal answer changes the cache, so a portal
      failure is never cached; a store serves its own request's later checks
      (an empty answer as well as any other) and no other user's. */
  lemma OnlyStoresChangeTheCache(s: State, step: Step)
    requires Enabled(s, step)
    ensures !step.Stores? ==> Take(s, step).cache == s.cache
    ensures step.Stores? ==>
              var c := s.calls[step.id];
              var after := Take(s, step).cache;
              if c.actor.userType.TenantAdmin? then
                && LookupBindings(after, c.actor.userId, s.now) == Some(NonEmptyKeys(c.rows))
                && after.registry == s.cache.registry
                && after.bindings - {c.actor.userId} == s.cache.bindings - {c.actor.userId}
              else
                && LookupRegistry(after, s.now) == Some(RegistryKeys(c.rows))
                && after.bindings == s.cache.bindings
  {
    match step {
      case Stores(id) =>
        var u := s.calls[id].actor.userId;
        assert s.cache.bindings[u := Bindings(NonEmptyKeys(s.calls[id].rows), s.now + DEFAULT_TTL)] - {u}
            == s.cache.bindings - {u};
      case _ =>
    }
  }

  /** A request no other step interleaves with: the portal answers it or not,
      and `wait` passes between answer and store. */
  function Undisturbed(s: State, id: nat, actor: Option<Actor>, choice: Key, up: bool, wait: nat): State
    requires s.history != []
  {
    var s1 := Check(s, id, actor, choice);
    if !IsWaiting(s1, id) then s1
    else if up then Store(Tick(PortalAnswers(s1, id), wait), id)
    else PortalFails(s1, id)
  }

  /** What the portal would reply to one call now. */
  function CallNow(s: State, actor: Option<Actor>, up: bool, wait: nat): PortalCall
    requires s.history != []
  {
    var u := if actor.Some? then actor.value.userId else 0;
    if up then PortalCall(s.now, s.now + wait, Some(MembersOf(Portal(s), u)), Some(Portal(s).tenants))
    else PortalCall(s.now, s.now + wait, None, None)
  }

  /** The resolver object's undisturbed resolution is those steps in a row, for
      every caller, with the portal up and with the portal down. */
  lemma AloneIsUndisturbed(s: State, id: nat, actor: Option<Actor>, choice: Key, up: bool, wait: nat)
    requires s.history != [] && id !in s.calls
    ensures var (res, c') := ResolveAlone(s.cache, actor, choice, CallNow(s, actor, up, wait));
            var s' := Undisturbed(s, id, actor, choice, up, wait);
            && s'.cache == c'
            && |s'.answers| == |s.answers| + 1
            && s'.answers[|s.answers|].result == res
            && s'.calls == s.calls
  {
    hide Store, PortalAnswers, PortalFails, NonEmptyKeys, RegistryKeys, JudgeAdmin, JudgePlatform, MembersOf;
    if actor.Some? {
      match actor.value.userType {
        case TenantAdmin =>
          if LookupBindings(s.cache, actor.value.userId, s.now).None? {
            MissIsAnswered(s, id, actor.value, choice, up, wait);
          }
        case Platform =>
          if choice != "" && LookupRegistry(s.cache, s.now).None? {
            MissIsAnswered(s, id, actor.value, choice, up, wait);
          }
        case OtherType(_) =>
      }
    }
  }

  /** After a miss: the stored answer, or the failure that stores nothing. */
  lemma MissIsAnswered(s: State, id: nat, actor: Actor, choice: Key, up: bool, wait: nat)
    requires s.history != [] && id !in s.calls && !actor.userType.OtherType?
    ensures var s1 := s.(calls := s.calls[id := Waiting(actor, choice)]);
            var s' := if up then Store(Tick(PortalAnswers(s1, id), wait), id) else PortalFails(s1, id);
            && |s'.answers| == |s.answers| + 1
            && s'.calls == s.calls
            && var result := s'.answers[|s.answers|].result;
               if !up then s'.cache == s.cache && result == Err(PortalUnavailable)
               else if actor.userType.TenantAdmin? then
                 var keys := NonEmptyKeys(MembersOf(Portal(s), actor.userId));
                 && s'.cache == PutBindings(s.cache, actor.userId, keys, s.now + wait)
                 && result == JudgeAdmin(keys, choice)
               else
                 var keys := RegistryKeys(Portal(s).tenants);
                 && s'.cache == PutRegistry(s.cache, keys, s.now + wait)
                 && result == JudgePlatform(keys, choice)
  {
    var s1 := s.(calls := s.calls[id := Waiting(actor, choice)]);
    assert s1.calls - {id} == s.calls;
    if up {
      var s2 := Tick(PortalAnswers(s1, id), wait);
      assert s2.calls - {id} == s.calls;
    }
  }

  // ----- the bound is tight, and TTL alone is not a bound -----

  lemma Snoc(start: State, steps: seq<Step>, s: State, step: Step)
    requires After(start, steps) == Some(s) && Enabled(s, step)
    ensures After(start, steps + [step]) == Some(Take(s, step))
  {
    assert (steps + [step])[..|steps|] == steps;
  }

  const ADMIN: Option<Actor> := Some(Actor(1, TenantAdmin))
  const BOUND: PortalState := PortalState(map[1 := ["a"]], [])
  const UNBOUND: PortalState := PortalState(map[], [])

  /** A request has read the binding and not yet stored it; then it is revoked. */
  const READ_THEN_REVOKED: seq<Step> := [Checks(0, ADMIN, "a")] + [Answers(0)] + [Edits(UNBOUND)]

  const REVOKED: State :=
    State(0, [Version(0, BOUND), Version(0, UNBOUND)], Cache(map[], None),
          map[0 := Answered(Actor(1, TenantAdmin), "a", ["a"], Origin(0, 0))],
          [], map[], None, 0)

  lemma ReadThenRevoked()
    ensures After(Initial(BOUND, 0), READ_THEN_REVOKED) == Some(REVOKED)
  {
    var start := Initial(BOUND, 0);
    var s1 := Take(start, Checks(0, ADMIN, "a"));
    Snoc(start, [], start, Checks(0, ADMIN, "a"));
    Snoc(start, [Checks(0, ADMIN, "a")], s1, Answers(0));
    var s2 := Take(s1, Answers(0));
    Snoc(start, [Checks(0, ADMIN, "a")] + [Answers(0)], s2, Edits(UNBOUND));
    assert Take(s2, Edits(UNBOUND)) == REVOKED;
  }

  lemma SoleRow()
    ensures NonEmptyKeys(["a"]) == ["a"]
  {
    assert ["a"][..0] == [];
  }

  /** Store `d` after the revocation, then hit at the last unexpired instant. */
  function StaleSchedule(d: nat): seq<Step> {
    READ_THEN_REVOKED + [Ticks(d)] + [Stores(0)] + [Ticks(DEFAULT_TTL - 1)] + [Checks(1, ADMIN, "a")]
  }

  lemma StaleByTtlPlusDelay(d: nat)
    ensures var end := After(Initial(BOUND, 0), StaleSchedule(d));
            && end.Some?
            && end.value.maxDelay == d
            && |end.value.answers| == 2
            && var a := end.value.answers[1];
               && a.actor == ADMIN && a.result == Ok("a")
               && a.at == DEFAULT_TTL + d - 1
               && forall t :: BoundAt(end.value, 1, "a", t) ==> t <= 0
  {
    ReadThenRevoked();
    SoleRow();
    var start := Initial(BOUND, 0);
    var s1 := Take(REVOKED, Ticks(d));
    Snoc(start, READ_THEN_REVOKED, REVOKED, Ticks(d));
    var s2 := Take(s1, Stores(0));
    Snoc(start, READ_THEN_REVOKED + [Ticks(d)], s1, Stores(0));
    var s3 := Take(s2, Ticks(DEFAULT_TTL - 1));
    var stored := READ_THEN_REVOKED + [Ticks(d)] + [Stores(0)];
    Snoc(start, stored, s2, Ticks(DEFAULT_TTL - 1));
    Snoc(start, stored + [Ticks(DEFAULT_TTL - 1)], s3, Checks(1, ADMIN, "a"));
  }

  /** If the answer grants the tenant admin `u` a key, it was bound within the
      last TTL. */
  ghost predicate FreshGrant(s: State, a: Answer, u: UserId) {
    a.actor == Some(Actor(u, TenantAdmin)) && a.result.Ok? ==>
      exists t :: a.at - DEFAULT_TTL < t <= a.at && BoundAt(s, u, a.result.value, t)
  }

  ghost predicate FreshWithinTtl(s: State) {
    forall i, u :: 0 <= i < |s.answers| ==> FreshGrant(s, s.answers[i], u)
  }

  /** The documented "within one TTL" holds of every run whose stores lag their
      portal answers by at most `d` exactly when `d` is zero. */
  lemma TtlAloneBoundsOnlyInstantStores(d: nat)
    ensures (forall p, now, steps, s ::
               Reached(p, now, steps, s) && s.maxDelay <= d ==> FreshWithinTtl(s))
            <==> d == 0
  {
    if d == 0 {
      forall p, now, steps, s | Reached(p, now, steps, s) && s.maxDelay <= d
        ensures FreshWithinTtl(s)
      {
        EveryRunIsSound(p, now, steps);
        forall i, u | 0 <= i < |s.answers|
          ensures FreshGrant(s, s.answers[i], u)
        {
          if s.answers[i].actor == Some(Actor(u, TenantAdmin)) && s.answers[i].result.Ok? {
            GrantedKeyWasBound(p, now, steps, s, s.answers[i], u);
          }
        }
      }
    } else {
      StaleByTtlPlusDelay(d);
      var s := After(Initial(BOUND, 0), StaleSchedule(d)).value;
      assert Reached(BOUND, 0, StaleSchedule(d), s);
      assert s.answers[1].actor == Some(Actor(1, TenantAdmin));
      assert !FreshGrant(s, s.answers[1], 1);
      assert !FreshWithinTtl(s);
    }
  }

  /** A second request reads and stores the revocation, and is denied. */
  const REVOCATION_ENFORCED: seq<Step> :=
    READ_THEN_REVOKED + [Checks(1, ADMIN, "a")] + [Answers(1)] + [Stores(1)]

  const ENFORCED: State :=
    REVOKED.(cache := Cache(map[1 := Bindings([], DEFAULT_TTL)], None),
             answers := [Answer(ADMIN, "a", Err(ChoiceNotBound), 0, Origin(1, 0))],
             bindingOrigin := map[1 := Origin(1, 0)])

  lemma RevocationEnforced()
    ensures After(Initial(BOUND, 0), REVOCATION_ENFORCED) == Some(ENFORCED)
  {
    ReadThenRevoked();
    var start := Initial(BOUND, 0);
    var s1 := Take(REVOKED, Checks(1, ADMIN, "a"));
    Snoc(start, READ_THEN_REVOKED, REVOKED, Checks(1, ADMIN, "a"));
    var s2 := Take(s1, Answers(1));
    var l1 := READ_THEN_REVOKED + [Checks(1, ADMIN, "a")];
    Snoc(start, l1, s1, Answers(1));
    Snoc(start, l1 + [Answers(1)], s2, Stores(1));
    assert Take(s2, Stores(1)) == ENFORCED;
  }

  /** Only then does the first request store what it had read. */
  const OVERTAKEN: seq<Step> := REVOCATION_ENFORCED + [Stores(0)] + [Checks(2, ADMIN, "a")]

  const FORGOTTEN: State :=
    State(0, [Version(0, BOUND), Version(0, UNBOUND)], Cache(map[1 := Bindings(["a"], DEFAULT_TTL)], None),
          map[],
          [Answer(ADMIN, "a", Err(ChoiceNotBound), 0, Origin(1, 0)), Answer(ADMIN, "a", Ok("a"), 0, Origin(0, 0))],
          map[1 := Origin(0, 0)], None, 0)

  lemma RevocationForgotten()
    ensures After(Initial(BOUND, 0), REVOCATION_ENFORCED + [Stores(0)]) == Some(FORGOTTEN)
  {
    RevocationEnforced();
    SoleRow();
    Snoc(Initial(BOUND, 0), REVOCATION_ENFORCED, ENFORCED, Stores(0));
    assert Take(ENFORCED, Stores(0)) == FORGOTTEN;
  }

  /** A revocation already enforced can be forgotten: the newer answer denies,
      the older one overwrites it, and the next request is granted the key. */
  lemma OlderAnswerOverwritesNewer()
    ensures var end := After(Initial(BOUND, 0), OVERTAKEN);
            && end.Some?
            && Portal(end.value) == UNBOUND
            && |end.value.answers| == 3
            && end.value.maxDelay == 0
            && (forall a :: a in end.value.answers ==> a.actor == ADMIN && a.choice == "a")
            && end.value.answers[0].result == Err(ChoiceNotBound) && end.value.answers[0].origin.version == 1
            && end.value.answers[2].result == Ok("a") && end.value.answers[2].origin.version == 0
  {
    RevocationForgotten();
    Snoc(Initial(BOUND, 0), REVOCATION_ENFORCED + [Stores(0)], FORGOTTEN, Checks(2, ADMIN, "a"));
  }
}
