/** The stale-deploy guard: resource errors force a reload, at most one per
    cooldown window, with the last reload's time kept in session storage. */
module ChunkGuard {
  import opened Wrappers

  const RELOAD_COOLDOWN_MS: int := 30_000

  /** One captured error event and the handler's two clock readings: the one
      the cooldown is checked against and the one that is stored. */
  datatype Event = Event(fromStaleResource: bool, checkedAt: int, storedAt: int)

  function LastReload(stamp: Option<int>): int {
    if stamp.Some? then stamp.value else 0
  }

  predicate WithinCooldown(stamp: Option<int>, now: int) {
    now - LastReload(stamp) < RELOAD_COOLDOWN_MS
  }

  /** The stamps of all reloads a run of events forces, oldest first. */
  function Reloads(stamp: Option<int>, events: seq<Event>): seq<int>
    decreases |events|
  {
    if events == [] then []
    else
      var e := events[0];
      if !e.fromStaleResource || WithinCooldown(stamp, e.checkedAt) then Reloads(stamp, events[1..])
      else [e.storedAt] + Reloads(Some(e.storedAt), events[1..])
  }

  class Guard {
    var stamp: Option<int>
    ghost var reloads: seq<int>

    constructor ()
      ensures stamp == None && reloads == []
    {
      stamp := None;
      reloads := [];
    }

    method OnError(e: Event) returns (reload: bool)
      modifies this
      ensures reload <==> e.fromStaleResource && !WithinCooldown(old(stamp), e.checkedAt)
      ensures reload <==> e.fromStaleResource && e.checkedAt - LastReload(old(stamp)) >= 30_000
      ensures stamp == if reload then Some(e.storedAt) else old(stamp)
      ensures reloads == old(reloads) + Reloads(old(stamp), [e])
    {
      assert [e][1..] == [];
      if !e.fromStaleResource {
        return false;
      }
      if WithinCooldown(stamp, e.checkedAt) {
        return false;
      }
      stamp := Some(e.storedAt);
      reloads := reloads + [e.storedAt];
      return true;
    }
  }

  /** Inside a handler call the clock steps back by at most `back`. Between
      calls it may do as it likes. */
  predicate StepsBackAtMost(events: seq<Event>, back: nat) {
    forall i :: 0 <= i < |events| ==> events[i].checkedAt - events[i].storedAt <= back
  }

  /** Consecutive entries are at least `gap` apart. */
  predicate Spaced(times: seq<int>, gap: int) {
    forall i :: 0 <= i < |times| - 1 ==> times[i + 1] - times[i] >= gap
  }

  /** Over every run of events, reloads keep their distance from each other and
      from the last stamp, backward clock steps between events included. */
  lemma {:induction false} ReloadsKeepDistance(stamp: Option<int>, events: seq<Event>, back: nat)
    requires StepsBackAtMost(events, back)
    ensures Spaced([LastReload(stamp)] + Reloads(stamp, events), RELOAD_COOLDOWN_MS - back)
    decreases |events|
  {
    if events != [] {
      var e := events[0];
      if !e.fromStaleResource || WithinCooldown(stamp, e.checkedAt) {
        ReloadsKeepDistance(stamp, events[1..], back);
      } else {
        ReloadsKeepDistance(Some(e.storedAt), events[1..], back);
        var tail := [e.storedAt] + Reloads(Some(e.storedAt), events[1..]);
        var all := [LastReload(stamp)] + tail;
        forall i | 0 <= i < |all| - 1 ensures all[i + 1] - all[i] >= RELOAD_COOLDOWN_MS - back {
          if i > 0 {
            assert all[i] == tail[i - 1] && all[i + 1] == tail[i];
          }
        }
      }
    }
  }

  lemma SpacedTail(times: seq<int>, gap: int)
    requires Spaced(times, gap) && times != []
    ensures Spaced(times[1..], gap)
  {
    var rest := times[1..];
    forall i | 0 <= i < |rest| - 1 ensures rest[i + 1] - rest[i] >= gap {
      assert times[i + 2] - times[i + 1] >= gap;
    }
  }

  lemma ReloadsAreSpaced(stamp: Option<int>, events: seq<Event>, back: nat)
    requires StepsBackAtMost(events, back)
    ensures ReloadsSpaced(stamp, events, RELOAD_COOLDOWN_MS - back)
  {
    ReloadsKeepDistance(stamp, events, back);
    var all := [LastReload(stamp)] + Reloads(stamp, events);
    SpacedTail(all, RELOAD_COOLDOWN_MS - back);
    assert all[1..] == Reloads(stamp, events);
  }

  predicate ReloadsSpaced(stamp: Option<int>, events: seq<Event>, gap: int) {
    Spaced(Reloads(stamp, events), gap)
  }

  /** Two reloads, the second stored `back` before the reading it was checked on. */
  function SteppingRun(back: nat): seq<Event> {
    [Event(true, 60_000, 60_000)] + [Event(true, 90_000, 90_000 - back)]
  }

  lemma SteppingRunAttains(back: nat)
    ensures StepsBackAtMost(SteppingRun(back), back)
    ensures Reloads(None, SteppingRun(back)) == [60_000, 90_000 - back]
  {
    var second := [Event(true, 90_000, 90_000 - back)];
    assert SteppingRun(back)[1..] == second && second[1..] == [];
    assert Reloads(Some(60_000), second) == [90_000 - back];
  }

  /** The cooldown is checked against one reading and another is stored: over all
      runs in which the clock steps back by at most `back` between the two, the
      distance kept is the cooldown less `back`, and no more. */
  lemma DistanceIsCooldownLessStep(back: nat, gap: int)
    ensures (forall stamp, events :: StepsBackAtMost(events, back) ==> ReloadsSpaced(stamp, events, gap))
            <==> gap <= RELOAD_COOLDOWN_MS - back
  {
    if gap <= RELOAD_COOLDOWN_MS - back {
      forall stamp, events | StepsBackAtMost(events, back) ensures ReloadsSpaced(stamp, events, gap) {
        ReloadsAreSpaced(stamp, events, back);
      }
    } else {
      SteppingRunAttains(back);
      var times := Reloads(None, SteppingRun(back));
      assert times[0 + 1] - times[0] < gap;
      assert !ReloadsSpaced(None, SteppingRun(back), gap);
    }
  }

  /** The documented distance holds over all runs exactly when no clock step
      back, however small, can fall between the two readings. */
  lemma DistanceNeedsOneReading(back: nat)
    ensures (forall stamp, events :: StepsBackAtMost(events, back) ==> ReloadsSpaced(stamp, events, RELOAD_COOLDOWN_MS))
            <==> back == 0
  {
    DistanceIsCooldownLessStep(back, RELOAD_COOLDOWN_MS);
  }

  /** The stamp a run leaves: that of its last reload, or the one it began with. */
  function StampAfter(stamp: Option<int>, events: seq<Event>): Option<int> {
    var reloads := Reloads(stamp, events);
    if reloads == [] then stamp else Some(reloads[|reloads| - 1])
  }

  /** After every run, the next event forces a reload exactly when it comes from
      a stale resource and a full cooldown has gone by since the last reload. */
  lemma {:induction false} ReloadsWhenDue(stamp: Option<int>, events: seq<Event>, e: Event)
    ensures var last := StampAfter(stamp, events);
            Reloads(stamp, events + [e])
            == Reloads(stamp, events)
             + if e.fromStaleResource && e.checkedAt >= 30_000 + (if last.Some? then last.value else 0)
               then [e.storedAt] else []
    decreases |events|
  {
    if events == [] {
      assert [e][1..] == [] && [] + [e] == [e];
    } else {
      var first := events[0];
      var stamp' := if !first.fromStaleResource || WithinCooldown(stamp, first.checkedAt) then stamp
                    else Some(first.storedAt);
      ReloadsWhenDue(stamp', events[1..], e);
      assert (events + [e])[1..] == events[1..] + [e];
    }
  }

  /** How many of the times lie in the clock interval from `a` to `z`. */
  function CountWithin(times: seq<int>, a: int, z: int): nat {
    if times == [] then 0
    else (if a <= times[0] <= z then 1 else 0) + CountWithin(times[1..], a, z)
  }

  lemma {:induction false} SpacedCount(times: seq<int>, a: int, z: int, gap: int)
    requires gap > 0 && Spaced(times, gap) && (times != [] ==> a <= times[0])
    ensures times == [] || z < times[0] ==> CountWithin(times, a, z) == 0
    ensures times != [] && times[0] <= z ==> (CountWithin(times, a, z) - 1) * gap <= z - times[0]
    decreases |times|
  {
    if times != [] {
      var rest := times[1..];
      SpacedTail(times, gap);
      if rest != [] {
        assert rest[0] - times[0] >= gap;
      }
      SpacedCount(rest, a, z, gap);
      var n := CountWithin(rest, a, z);
      if rest != [] && rest[0] <= z {
        assert n * gap == (n - 1) * gap + gap;
      }
    }
  }

  lemma {:induction false} SpacedCountFrom(times: seq<int>, a: int, length: nat, gap: int)
    requires gap > 0 && Spaced(times, gap)
    ensures (CountWithin(times, a, a + length) - 1) * gap <= length
    decreases |times|
  {
    if times == [] {
      assert CountWithin(times, a, a + length) == 0;
    } else if a <= times[0] {
      SpacedCount(times, a, a + length, gap);
      if times[0] > a + length {
        assert CountWithin(times, a, a + length) == 0;
      }
    } else {
      SpacedTail(times, gap);
      SpacedCountFrom(times[1..], a, length, gap);
    }
  }

  /** The rate limit: any clock interval of `length` milliseconds holds at most
      one reload per full distance in it, and one more; with a steady clock, one
      per cooldown. */
  lemma ReloadRateLimit(stamp: Option<int>, events: seq<Event>, back: nat, a: int, length: nat)
    requires StepsBackAtMost(events, back) && back < RELOAD_COOLDOWN_MS
    ensures var n := CountWithin(Reloads(stamp, events), a, a + length);
            && (n - 1) * (RELOAD_COOLDOWN_MS - back) <= length
            && (back == 0 ==> n <= length / RELOAD_COOLDOWN_MS + 1)
  {
    ReloadsAreSpaced(stamp, events, back);
    SpacedCountFrom(Reloads(stamp, events), a, length, RELOAD_COOLDOWN_MS - back);
  }
}
