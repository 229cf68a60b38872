/** Concurrent resolutions over a changing portal, as a transition system.
    A request's check, portal answer and store are separate steps, so other
    requests, portal edits and clock ticks may fall between any two of them. */
module ResolverRuns {
  import opened Wrappers
  import opened ResolverSpec

  /** A portal state together with the instant it came into force. */
  datatype Version = Version(since: Instant, portal: PortalState)

  /** Which version answered a portal call, and when. */
  datatype Origin = Origin(version: nat, at: Instant)

  /** A request between its check and its store. */
  datatype Call =
    | Waiting(actor: Actor, choice: Key)
    | Answered(actor: Actor, choice: Key, rows: seq<Key>, origin: Origin)

  datatype Answer = Answer(actor: Option<Actor>, choice: Key, result: Resolution, at: Instant, origin: Origin)

  /** `cache` is what the resolver holds. The version history, the origins and
      `maxDelay` (the longest delay from a portal answer to its store so far)
      are bookkeeping no step consults. */
  datatype State = State(
    now: Instant,
    history: seq<Version>,
    cache: Cache,
    calls: map<nat, Call>,
    answers: seq<Answer>,
    bindingOrigin: map<UserId, Origin>,
    registryOrigin: Option<Origin>,
    maxDelay: Instant)

  function Initial(p: PortalState, now: Instant): State {
    State(now, [Version(now, p)], Cache(map[], None), map[], [], map[], None, 0)
  }

  function Portal(s: State): PortalState
    requires s.history != []
  {
    s.history[|s.history| - 1].portal
  }

  function Here(s: State): Origin
    requires s.history != []
  {
    Origin(|s.history| - 1, s.now)
  }

  function Reply(s: State, actor: Option<Actor>, choice: Key, result: Resolution, origin: Origin): State {
    s.(answers := s.answers + [Answer(actor, choice, result, s.now, origin)])
  }

  /** A request arrives and checks the cache: it is answered at once, or it
      misses, releases the lock and calls the portal. */
  function Check(s: State, id: nat, actor: Option<Actor>, choice: Key): State
    requires s.history != []
  {
    match actor
    case None => Reply(s, actor, choice, Err(NoActor), Here(s))
    case Some(Actor(u, TenantAdmin)) =>
      (match LookupBindings(s.cache, u, s.now)
       case Some(keys) =>
         var origin := if u in s.bindingOrigin then s.bindingOrigin[u] else Here(s);
         Reply(s, actor, choice, JudgeAdmin(keys, choice), origin)
       case None => s.(calls := s.calls[id := Waiting(actor.value, choice)]))
    case Some(Actor(_, Platform)) =>
      if choice == "" then Reply(s, actor, choice, Ok(""), Here(s))
      else
        (match LookupRegistry(s.cache, s.now)
         case Some(keys) =>
           var origin := if s.registryOrigin.Some? then s.registryOrigin.value else Here(s);
           Reply(s, actor, choice, JudgePlatform(keys, choice), origin)
         case None => s.(calls := s.calls[id := Waiting(actor.value, choice)]))
    case Some(Actor(_, OtherType(_))) => Reply(s, actor, choice, Err(UserTypeDenied), Here(s))
  }

  predicate IsWaiting(s: State, id: nat) {
    id in s.calls && s.calls[id].Waiting?
  }

  predicate IsAnswered(s: State, id: nat) {
    id in s.calls && s.calls[id].Answered?
  }

  /** The portal answers the outstanding call with what it holds now. */
  function PortalAnswers(s: State, id: nat): State
    requires IsWaiting(s, id) && s.history != []
  {
    var Waiting(actor, choice) := s.calls[id];
    var rows := if actor.userType.TenantAdmin? then MembersOf(Portal(s), actor.userId) else Portal(s).tenants;
    s.(calls := s.calls[id := Answered(actor, choice, rows, Here(s))])
  }

  /** The portal call fails and the request ends. */
  function PortalFails(s: State, id: nat): State
    requires IsWaiting(s, id) && s.history != []
  {
    var Waiting(actor, choice) := s.calls[id];
    Reply(s, Some(actor), choice, Err(PortalUnavailable), Here(s)).(calls := s.calls - {id})
  }

  /** The answer is stored under the lock and the request is judged on it. */
  function Store(s: State, id: nat): State
    requires IsAnswered(s, id)
  {
    var Answered(actor, choice, rows, origin) := s.calls[id];
    var delay := s.now - origin.at;
    var s1 := s.(calls := s.calls - {id}, maxDelay := if delay > s.maxDelay then delay else s.maxDelay);
    if actor.userType.TenantAdmin? then
      var keys := NonEmptyKeys(rows);
      Reply(s1, Some(actor), choice, JudgeAdmin(keys, choice), origin)
      .(cache := PutBindings(s.cache, actor.userId, keys, s.now),
        bindingOrigin := s.bindingOrigin[actor.userId := origin])
    else
      var keys := RegistryKeys(rows);
      Reply(s1, Some(actor), choice, JudgePlatform(keys, choice), origin)
      .(cache := PutRegistry(s.cache, keys, s.now),
        registryOrigin := Some(origin))
  }

  function Tick(s: State, span: nat): State {
    s.(now := s.now + span)
  }

  function Edit(s: State, p: PortalState): State {
    s.(history := s.history + [Version(s.now, p)])
  }

  datatype Step =
    | Checks(id: nat, actor: Option<Actor>, choice: Key)
    | Answers(id: nat)
    | Fails(id: nat)
    | Stores(id: nat)
    | Ticks(span: nat)
    | Edits(portal: PortalState)

  predicate Enabled(s: State, step: Step) {
    && s.history != []
    && match step
       case Checks(id, _, _) => id !in s.calls
       case Answers(id) => IsWaiting(s, id)
       case Fails(id) => IsWaiting(s, id)
       case Stores(id) => IsAnswered(s, id)
       case Ticks(_) => true
       case Edits(_) => true
  }

  function Take(s: State, step: Step): State
    requires Enabled(s, step)
  {
    match step
    case Checks(id, actor, choice) => Check(s, id, actor, choice)
    case Answers(id) => PortalAnswers(s, id)
    case Fails(id) => PortalFails(s, id)
    case Stores(id) => Store(s, id)
    case Ticks(span) => Tick(s, span)
    case Edits(p) => Edit(s, p)
  }

  /** The state a schedule of steps leads to, if every step was enabled. */
  function After(start: State, steps: seq<Step>): Option<State> {
    if steps == [] then Some(start)
    else
      match After(start, steps[..|steps| - 1])
      case None => None
      case Some(s) =>
        var step := steps[|steps| - 1];
        if Enabled(s, step) then Some(Take(s, step)) else None
  }

  // ----- what every reachable state keeps -----

  /** Version `i` was in force at instant `t`. */
  predicate InForce(s: State, i: nat, t: Instant) {
    && i < |s.history|
    && s.history[i].since <= t <= s.now
    && t <= (if i + 1 < |s.history| then s.history[i + 1].since else s.now)
  }

  predicate Orderly(s: State) {
    && s.history != []
    && s.history[|s.history| - 1].since <= s.now
    && 0 <= s.maxDelay
  }

  /** A cache entry stored within `maxDelay` of its portal answer. */
  predicate Timely(s: State, o: Origin, expiresAt: Instant) {
    && InForce(s, o.version, o.at)
    && expiresAt - DEFAULT_TTL <= s.now
    && o.at <= expiresAt - DEFAULT_TTL <= o.at + s.maxDelay
  }

  /** Each entry is the keyed part of one portal answer about its own user. */
  predicate BindingsSound(s: State) {
    && s.bindingOrigin.Keys == s.cache.bindings.Keys
    && forall u :: u in s.cache.bindings ==>
         && Timely(s, s.bindingOrigin[u], s.cache.bindings[u].expiresAt)
         && s.cache.bindings[u].keys
            == NonEmptyKeys(MembersOf(s.history[s.bindingOrigin[u].version].portal, u))
  }

  predicate RegistrySound(s: State) {
    && s.registryOrigin.Some? == s.cache.registry.Some?
    && (s.cache.registry.Some? ==>
          && Timely(s, s.registryOrigin.value, s.cache.registry.value.expiresAt)
          && s.cache.registry.value.keys == RegistryKeys(s.history[s.registryOrigin.value.version].portal.tenants))
  }

  predicate CallSound(s: State, c: Call) {
    && !c.actor.userType.OtherType?
    && (c.actor.userType.Platform? ==> c.choice != "")
    && (c.Answered? ==>
          && InForce(s, c.origin.version, c.origin.at)
          && var p := s.history[c.origin.version].portal;
             c.rows == if c.actor.userType.TenantAdmin? then MembersOf(p, c.actor.userId) else p.tenants)
  }

  predicate CallsSound(s: State) {
    forall id :: id in s.calls ==> CallSound(s, s.calls[id])
  }

  /** The answer is the one the matrix gives on a portal state that was in
      force less than TTL + maxDelay before it. */
  predicate AnswerSound(s: State, a: Answer) {
    && a.at <= s.now
    && InForce(s, a.origin.version, a.origin.at)
    && a.at - DEFAULT_TTL - s.maxDelay < a.origin.at <= a.at
    && (a.result != Err(PortalUnavailable) ==>
          a.result == Uncached(s.history[a.origin.version].portal, a.actor, a.choice))
  }

  predicate AnswersSound(s: State) {
    forall i :: 0 <= i < |s.answers| ==> AnswerSound(s, s.answers[i])
  }

  predicate Sound(s: State) {
    Orderly(s) && BindingsSound(s) && RegistrySound(s) && CallsSound(s) && AnswersSound(s)
  }

  /** Later states only add to what the invariant may refer to. */
  predicate Grows(s: State, s': State) {
    && s.now <= s'.now
    && s.maxDelay <= s'.maxDelay
    && s.history != []
    && s.history <= s'.history
    && (|s.history| < |s'.history| ==> s.now <= s'.history[|s.history|].since)
  }

  lemma InForceStays(s: State, s': State, i: nat, t: Instant)
    requires Grows(s, s') && InForce(s, i, t)
    ensures InForce(s', i, t)
    ensures s'.history[i] == s.history[i]
  {
  }

  lemma OldFactsStay(s: State, s': State)
    requires Sound(s) && Grows(s, s') && Orderly(s')
    ensures s'.cache.bindings == s.cache.bindings && s'.bindingOrigin == s.bindingOrigin ==> BindingsSound(s')
    ensures s'.cache.registry == s.cache.registry && s'.registryOrigin == s.registryOrigin ==> RegistrySound(s')
    ensures forall id :: id in s.calls ==> CallSound(s', s.calls[id])
    ensures forall i :: 0 <= i < |s.answers| ==> AnswerSound(s', s.answers[i])
  {
    forall i: nat, t | InForce(s, i, t) ensures InForce(s', i, t) && s'.history[i] == s.history[i] {
      InForceStays(s, s', i, t);
    }
    assert forall o, e :: Timely(s, o, e) ==> Timely(s', o, e);
  }

  lemma OneMoreAnswer(s: State, s': State, a: Answer)
    requires Sound(s) && Grows(s, s') && Orderly(s')
    requires s'.answers == s.answers + [a] && AnswerSound(s', a)
    ensures AnswersSound(s')
  {
    OldFactsStay(s, s');
  }

  /** A cache hit is judged on the entry's own portal version. */
  lemma BindingHitIsSound(s: State, u: UserId, choice: Key, keys: seq<Key>)
    requires Sound(s) && LookupBindings(s.cache, u, s.now) == Some(keys)
    ensures u in s.bindingOrigin
    ensures var a := Answer(Some(Actor(u, TenantAdmin)), choice, JudgeAdmin(keys, choice), s.now, s.bindingOrigin[u]);
            AnswerSound(s.(answers := s.answers + [a]), a)
  {
    assert u in s.cache.bindings;
    assert Timely(s, s.bindingOrigin[u], s.cache.bindings[u].expiresAt);
  }

  lemma RegistryHitIsSound(s: State, u: UserId, choice: Key, keys: set<Key>)
    requires Sound(s) && LookupRegistry(s.cache, s.now) == Some(keys)
    ensures s.registryOrigin.Some?
    ensures var result := JudgePlatform(keys, choice);
            var a := Answer(Some(Actor(u, Platform)), choice, result, s.now, s.registryOrigin.value);
            AnswerSound(s.(answers := s.answers + [a]), a)
  {
  }

  lemma CheckAnswersSoundly(s: State, id: nat, actor: Option<Actor>, choice: Key)
    requires Sound(s) && id !in s.calls
    requires var s' := Check(s, id, actor, choice); |s'.answers| > |s.answers|
    ensures var s' := Check(s, id, actor, choice); AnswerSound(s', s'.answers[|s.answers|])
  {
    match actor {
      case Some(Actor(u, TenantAdmin)) =>
        BindingHitIsSound(s, u, choice, LookupBindings(s.cache, u, s.now).value);
      case Some(Actor(u, Platform)) =>
        if choice != "" {
          RegistryHitIsSound(s, u, choice, LookupRegistry(s.cache, s.now).value);
        }
      case _ =>
    }
  }

  lemma ReplyKeeps(s: State, a: Answer)
    requires Sound(s) && AnswerSound(s.(answers := s.answers + [a]), a)
    ensures Sound(s.(answers := s.answers + [a]))
  {
    var s' := s.(answers := s.answers + [a]);
    OldFactsStay(s, s');
    OneMoreAnswer(s, s', a);
  }

  lemma MissKeeps(s: State, id: nat, c: Call)
    requires Sound(s) && id !in s.calls && CallSound(s, c)
    ensures Sound(s.(calls := s.calls[id := c]))
  {
    OldFactsStay(s, s.(calls := s.calls[id := c]));
  }

  lemma CheckKeeps(s: State, id: nat, actor: Option<Actor>, choice: Key)
    requires Sound(s) && id !in s.calls
    ensures Sound(Check(s, id, actor, choice))
  {
    var s' := Check(s, id, actor, choice);
    if |s'.answers| > |s.answers| {
      var a := s'.answers[|s.answers|];
      assert s' == s.(answers := s.answers + [a]);
      CheckAnswersSoundly(s, id, actor, choice);
      ReplyKeeps(s, a);
    } else {
      MissKeeps(s, id, Waiting(actor.value, choice));
    }
  }

  lemma StoreKeeps(s: State, id: nat)
    requires Sound(s) && IsAnswered(s, id)
    ensures Sound(Store(s, id))
  {
    var s' := Store(s, id);
    var c := s.calls[id];
    assert CallSound(s, c);
    var a := s'.answers[|s.answers|];
    assert AnswerSound(s', a);
    OneMoreAnswer(s, s', a);
    OldFactsStay(s, s');
    assert CallsSound(s');
    if c.actor.userType.TenantAdmin? {
      StoredBindingsSound(s, id);
    } else {
      assert RegistrySound(s');
    }
  }

  lemma StoredBindingsSound(s: State, id: nat)
    requires Sound(s) && IsAnswered(s, id) && s.calls[id].actor.userType.TenantAdmin?
    ensures BindingsSound(Store(s, id))
  {
    var s' := Store(s, id);
    assert CallSound(s, s.calls[id]);
    assert BindingsSound(s'.(cache := s.cache, bindingOrigin := s.bindingOrigin)) by {
      OldFactsStay(s, s'.(cache := s.cache, bindingOrigin := s.bindingOrigin));
    }
  }

  lemma StepKeeps(s: State, step: Step)
    requires Sound(s) && Enabled(s, step)
    ensures Sound(Take(s, step))
  {
    var s' := Take(s, step);
    match step {
      case Checks(id, actor, choice) => CheckKeeps(s, id, actor, choice);
      case Stores(id) => StoreKeeps(s, id);
      case Answers(id) =>
        OldFactsStay(s, s');
        assert CallSound(s, s.calls[id]);
      case Fails(id) =>
        OldFactsStay(s, s');
        OneMoreAnswer(s, s', s'.answers[|s.answers|]);
      case Ticks(_) => OldFactsStay(s, s');
      case Edits(_) => OldFactsStay(s, s');
    }
  }

  lemma {:induction false} EveryRunIsSound(p: PortalState, now: Instant, steps: seq<Step>)
    requires After(Initial(p, now), steps).Some?
    ensures Sound(After(Initial(p, now), steps).value)
  {
    if steps != [] {
      var before := steps[..|steps| - 1];
      EveryRunIsSound(p, now, before);
      StepKeeps(After(Initial(p, now), before).value, steps[|steps| - 1]);
    }
  }
}
