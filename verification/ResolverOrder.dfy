/** When an answer can go back to an older portal state: the order of stores. */
module ResolverOrder {
  import opened Wrappers
  import opened ResolverSpec
  import opened ResolverRuns
  import opened ResolverTheorems

  /** One place in the cache: a user's bindings, or the registry. */
  datatype Place = BindingsOf(user: UserId) | TheRegistry

  function OriginAt(s: State, place: Place): Option<Origin> {
    match place
    case BindingsOf(u) => if u in s.bindingOrigin then Some(s.bindingOrigin[u]) else None
    case TheRegistry => s.registryOrigin
  }

  /** Where a call's answer will be stored. */
  function PlaceOf(actor: Actor): Place {
    if actor.userType.TenantAdmin? then BindingsOf(actor.userId) else TheRegistry
  }

  /** The answer was judged on what the place held or was about to hold. */
  predicate Concerns(a: Answer, place: Place) {
    && a.result != Err(PortalUnavailable)
    && a.actor.Some?
    && match place
       case BindingsOf(u) => a.actor.value == Actor(u, TenantAdmin)
       case TheRegistry => a.actor.value.userType.Platform? && a.choice != ""
  }

  /** Answers about the place never go back to an older portal version. */
  predicate NeverGoesBack(s: State, place: Place) {
    forall i, j ::
      0 <= i < j < |s.answers| && Concerns(s.answers[i], place) && Concerns(s.answers[j], place) ==>
        s.answers[i].origin.version <= s.answers[j].origin.version
  }

  /** If the step stores into the place, it does not store an older version
      over a newer one. */
  predicate InOrder(s: State, step: Step, place: Place) {
    step.Stores? && IsAnswered(s, step.id) && PlaceOf(s.calls[step.id].actor) == place && OriginAt(s, place).Some? ==>
      OriginAt(s, place).value.version <= s.calls[step.id].origin.version
  }

  predicate StoresInOrder(start: State, steps: seq<Step>, place: Place) {
    steps == []
    || (var before := steps[..|steps| - 1];
        && StoresInOrder(start, before, place)
        && (After(start, before).Some? ==> InOrder(After(start, before).value, steps[|steps| - 1], place)))
  }

  /** What the place holds is at least as new as every answer about it, and some
      answer was given on it. */
  ghost predicate Newest(s: State, place: Place) {
    match OriginAt(s, place)
    case None => forall i :: 0 <= i < |s.answers| ==> !Concerns(s.answers[i], place)
    case Some(o) =>
      && (forall i :: 0 <= i < |s.answers| && Concerns(s.answers[i], place) ==>
            s.answers[i].origin.version <= o.version)
      && (exists i :: 0 <= i < |s.answers| && Concerns(s.answers[i], place) && s.answers[i].origin == o)
  }

  /** One more answer, given on version `v`. */
  lemma OneMore(s: State, s': State, a: Answer, place: Place)
    requires s'.answers == s.answers + [a] && NeverGoesBack(s, place) && Newest(s, place)
    requires Concerns(a, place) ==>
               OriginAt(s', place) == Some(a.origin)
               && (OriginAt(s, place).Some? ==> OriginAt(s, place).value.version <= a.origin.version)
    requires !Concerns(a, place) ==> OriginAt(s', place) == OriginAt(s, place)
    ensures NeverGoesBack(s', place) && Newest(s', place)
  {
    var n := |s.answers|;
    assert s'.answers[n] == a;
    assert forall i :: 0 <= i < n ==> s'.answers[i] == s.answers[i];
  }

  lemma NoMore(s: State, s': State, place: Place)
    requires s'.answers == s.answers && NeverGoesBack(s, place) && Newest(s, place)
    requires OriginAt(s', place) == OriginAt(s, place)
    ensures NeverGoesBack(s', place) && Newest(s', place)
  {
  }

  lemma CheckKeepsOrder(s: State, id: nat, actor: Option<Actor>, choice: Key, place: Place)
    requires Sound(s) && id !in s.calls
    requires NeverGoesBack(s, place) && Newest(s, place)
    ensures var s' := Check(s, id, actor, choice); NeverGoesBack(s', place) && Newest(s', place)
  {
    var s' := Check(s, id, actor, choice);
    if |s'.answers| > |s.answers| {
      var a := s'.answers[|s.answers|];
      CheckAnswersFromThePlace(s, id, actor, choice, place);
      hide NeverGoesBack, Newest;
      OneMore(s, s', a, place);
    } else {
      hide NeverGoesBack, Newest;
      NoMore(s, s', place);
    }
  }

  /** A hit is answered on what its place holds. */
  lemma CheckAnswersFromThePlace(s: State, id: nat, actor: Option<Actor>, choice: Key, place: Place)
    requires Sound(s) && id !in s.calls
    requires |Check(s, id, actor, choice).answers| > |s.answers|
    ensures var s' := Check(s, id, actor, choice);
            && s'.answers == s.answers + [s'.answers[|s.answers|]]
            && OriginAt(s', place) == OriginAt(s, place)
            && (Concerns(s'.answers[|s.answers|], place) ==>
                  OriginAt(s, place) == Some(s'.answers[|s.answers|].origin))
  {
    hide CallsSound, AnswersSound, Timely, NonEmptyKeys, JudgeAdmin, JudgePlatform;
  }

  lemma StoreKeepsOrder(s: State, id: nat, place: Place)
    requires Sound(s) && IsAnswered(s, id) && InOrder(s, Stores(id), place)
    requires NeverGoesBack(s, place) && Newest(s, place)
    ensures NeverGoesBack(Store(s, id), place) && Newest(Store(s, id), place)
  {
    StoreAnswersForItsPlace(s, id, place);
    hide NeverGoesBack, Newest;
    var s' := Store(s, id);
    OneMore(s, s', s'.answers[|s.answers|], place);
  }

  /** A store answers its request on the version it stores. */
  lemma StoreAnswersForItsPlace(s: State, id: nat, place: Place)
    requires Sound(s) && IsAnswered(s, id)
    ensures var c, s' := s.calls[id], Store(s, id);
            var n := |s.answers|;
            && |s'.answers| == n + 1 && s'.answers == s.answers + [s'.answers[n]]
            && s'.answers[n].origin == c.origin
            && (Concerns(s'.answers[n], place) <==> PlaceOf(c.actor) == place)
            && OriginAt(s', place) == if PlaceOf(c.actor) == place then Some(c.origin) else OriginAt(s, place)
  {
    assert CallSound(s, s.calls[id]);
    hide Sound, AnswersSound, CallsSound, NonEmptyKeys;
  }

  lemma InOrderStepKeeps(s: State, step: Step, place: Place)
    requires Sound(s) && Enabled(s, step) && InOrder(s, step, place)
    requires NeverGoesBack(s, place) && Newest(s, place)
    ensures NeverGoesBack(Take(s, step), place) && Newest(Take(s, step), place)
  {
    hide NeverGoesBack, Newest, Sound;
    var s' := Take(s, step);
    match step {
      case Checks(id, actor, choice) => CheckKeepsOrder(s, id, actor, choice, place);
      case Stores(id) => StoreKeepsOrder(s, id, place);
      case Fails(id) => OneMore(s, s', s'.answers[|s.answers|], place);
      case _ => NoMore(s, s', place);
    }
  }

  /** A store out of order is an answer that goes back, at once. */
  lemma OutOfOrderGoesBack(s: State, step: Step, place: Place)
    requires Sound(s) && Enabled(s, step) && !InOrder(s, step, place) && Newest(s, place)
    ensures !NeverGoesBack(Take(s, step), place)
  {
    StoreAnswersForItsPlace(s, step.id, place);
    var s' := Store(s, step.id);
    var i :| 0 <= i < |s.answers| && Concerns(s.answers[i], place) && s.answers[i].origin == OriginAt(s, place).value;
    assert s'.answers[i] == s.answers[i];
  }

  /** What went back once has gone back for good. */
  lemma GoneBackStays(s: State, step: Step, place: Place)
    requires Enabled(s, step) && !NeverGoesBack(s, place)
    ensures !NeverGoesBack(Take(s, step), place)
  {
    var i, j :| 0 <= i < j < |s.answers| && Concerns(s.answers[i], place) && Concerns(s.answers[j], place)
                && s.answers[i].origin.version > s.answers[j].origin.version;
    AnswersStay(s, step);
    var s' := Take(s, step);
    assert s'.answers[i] == s.answers[i] && s'.answers[j] == s.answers[j];
  }

  lemma AnswersStay(s: State, step: Step)
    requires Enabled(s, step)
    ensures s.answers <= Take(s, step).answers
  {
    hide JudgeAdmin, JudgePlatform, NonEmptyKeys;
  }

  lemma {:induction false} OrderDecides(p: PortalState, now: Instant, steps: seq<Step>, place: Place)
    requires After(Initial(p, now), steps).Some?
    ensures var s := After(Initial(p, now), steps).value;
            && (StoresInOrder(Initial(p, now), steps, place) ==> NeverGoesBack(s, place) && Newest(s, place))
            && (!StoresInOrder(Initial(p, now), steps, place) ==> !NeverGoesBack(s, place))
  {
    if steps != [] {
      var before, step := steps[..|steps| - 1], steps[|steps| - 1];
      OrderDecides(p, now, before, place);
      EveryRunIsSound(p, now, before);
      hide NeverGoesBack, Newest, Sound, Take, InOrder;
      var s := After(Initial(p, now), before).value;
      if !StoresInOrder(Initial(p, now), before, place) {
        GoneBackStays(s, step, place);
      } else if InOrder(s, step, place) {
        InOrderStepKeeps(s, step, place);
      } else {
        OutOfOrderGoesBack(s, step, place);
      }
    }
  }

  /** Over every run, for each user's bindings and for the registry: answers
      never go back to an older portal version if and only if no store puts an
      older version over a newer one. */
  lemma AnswersGoBackExactlyOnStoresOutOfOrder(p: PortalState, now: Instant, steps: seq<Step>, s: State, place: Place)
    requires Reached(p, now, steps, s)
    ensures NeverGoesBack(s, place) <==> StoresInOrder(Initial(p, now), steps, place)
  {
    OrderDecides(p, now, steps, place);
  }

  /** The portal never changed what the place is about from version `v` on. */
  predicate SettledSince(s: State, v: nat, place: Place) {
    forall k, l :: v <= k < |s.history| && v <= l < |s.history| ==>
      match place
      case BindingsOf(u) => MembersOf(s.history[k].portal, u) == MembersOf(s.history[l].portal, u)
      case TheRegistry => RegistryKeys(s.history[k].portal.tenants) == RegistryKeys(s.history[l].portal.tenants)
  }

  /** With stores in order an enforced revocation stays enforced: once a choice
      was answered on a state the portal has kept since, a denial as well as a
      grant, every later answer to it is the same. */
  lemma InOrderAnswersLast(p: PortalState, now: Instant, steps: seq<Step>, s: State, place: Place, i: nat, j: nat)
    requires Reached(p, now, steps, s) && StoresInOrder(Initial(p, now), steps, place)
    requires i < j < |s.answers| && Concerns(s.answers[i], place) && Concerns(s.answers[j], place)
    requires s.answers[i].choice == s.answers[j].choice
    requires SettledSince(s, s.answers[i].origin.version, place)
    ensures s.answers[j].result == s.answers[i].result
  {
    OrderDecides(p, now, steps, place);
    assert s.answers[i].origin.version <= s.answers[j].origin.version;
    BoundedStaleness(p, now, steps, s, s.answers[i]);
    BoundedStaleness(p, now, steps, s, s.answers[j]);
    var k, l := s.answers[i].origin.version, s.answers[j].origin.version;
    assert SettledSince(s, k, place);
  }

  /** The condition is the order alone: the overtaken run never delays a store. */
  lemma OvertakenWithoutDelay()
    ensures var end := After(Initial(BOUND, 0), OVERTAKEN);
            && end.Some? && end.value.maxDelay == 0
            && !StoresInOrder(Initial(BOUND, 0), OVERTAKEN, BindingsOf(1))
  {
    OlderAnswerOverwritesNewer();
    var s := After(Initial(BOUND, 0), OVERTAKEN).value;
    assert Concerns(s.answers[0], BindingsOf(1)) && Concerns(s.answers[2], BindingsOf(1));
    AnswersGoBackExactlyOnStoresOutOfOrder(BOUND, 0, OVERTAKEN, s, BindingsOf(1));
  }
}
