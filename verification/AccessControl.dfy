// Access control: attempt counting, temporary blocks, lazy unblocking and the periodic
// cleanup.  Each method is one section under the state lock; a run is any interleaving
// of them, for any users.
module AccessControl {
  import opened Common
  import opened SlidingWindow

  type UserId = int

  // Everything a user was let through and every request that was handled as unauthorized,
  // and how much of both belongs to epochs that were closed by the end of a block.
  datatype Past = Past(passes: seq<Time>, closed: nat, requests: seq<Time>, settled: nat)

  const NOTHING := Past([], 0, [], 0)

  // What the attempt counter and the block of one user say about that user's past.
  ghost predicate Tells(count: nat, until: Option<Time>, past: Past, readings: seq<Time>,
                        maxAttempts: nat, duration: int) {
    && (until.Some? <==> count >= maxAttempts)
    && past.settled <= |past.requests| && count == |past.requests| - past.settled
    && past.closed <= |past.passes|
    && |past.passes| - past.closed <= count
    && |past.passes| - past.closed < maxAttempts
    && (readings == [] ==> past.passes == [] && until.None?)
    && (readings != [] && Ordered(readings) ==>
          Spaced(until, past, readings[|readings| - 1], maxAttempts, duration))
  }

  // The same, unfolded only where `Tells` is mentioned.
  ghost predicate Guarded(count: nat, until: Option<Time>, past: Past, readings: seq<Time>,
                          maxAttempts: nat, duration: int) {
    forall rs {:trigger Tells(count, until, past, rs, maxAttempts, duration)} ::
      rs == readings ==> Tells(count, until, past, rs, maxAttempts, duration)
  }

  // With clock readings in order: passes of closed epochs are a whole block duration
  // away, a block ends no sooner than one duration after every pass, and no window of
  // one duration has seen `maxAttempts` passes.
  ghost predicate Spaced(until: Option<Time>, past: Past, last: Time, maxAttempts: nat, duration: int)
    requires past.closed <= |past.passes|
  {
    && Ordered(past.passes) && NoneAfter(past.passes, last)
    && AllBefore(past.passes, past.closed, last - duration + 1)
    && (until.Some? ==> NoneAfter(past.passes, until.value - duration))
    && Throttled(past.passes, duration - 1, maxAttempts - 1, 0)
  }

  lemma GuardSurvivesReading(count: nat, until: Option<Time>, past: Past, readings: seq<Time>,
                      maxAttempts: nat, duration: int, now: Time)
    requires Guarded(count, until, past, readings, maxAttempts, duration)
    ensures Guarded(count, until, past, readings + [now], maxAttempts, duration)
  {
    assert Tells(count, until, past, readings, maxAttempts, duration);
    OrderedAppend(readings, now);
  }

  function NewEpoch(past: Past): Past {
    past.(closed := |past.passes|, settled := |past.requests|)
  }

  // One more request, let through or not.
  function OneMore(past: Past, now: Time, cancel: bool): Past {
    past.(requests := past.requests + [now], passes := if cancel then past.passes else past.passes + [now])
  }

  // The end of a block opens a new epoch.
  lemma ResetKeepsGuard(count: nat, until: Time, past: Past, readings: seq<Time>,
                        maxAttempts: nat, duration: int)
    requires Guarded(count, Some(until), past, readings, maxAttempts, duration) && 0 < maxAttempts
    requires readings != [] && (Ordered(readings) ==> until <= readings[|readings| - 1])
    ensures Guarded(0, None, NewEpoch(past), readings, maxAttempts, duration)
  {
    assert Tells(count, Some(until), past, readings, maxAttempts, duration);
  }

  // One more attempt: it blocks, or passes (a setup command), or is refused.
  lemma AttemptKeepsGuard(count: nat, until: Option<Time>, past: Past, readings: seq<Time>,
                          maxAttempts: nat, duration: int, now: Time)
    requires Guarded(count, until, past, readings, maxAttempts, duration) && 0 < duration
    requires readings != [] && readings[|readings| - 1] == now
    ensures count + 1 >= maxAttempts ==>
              Guarded(count + 1, Some(now + duration), OneMore(past, now, true), readings, maxAttempts, duration)
    ensures count + 1 < maxAttempts ==>
              && Guarded(count + 1, until, OneMore(past, now, true), readings, maxAttempts, duration)
              && Guarded(count + 1, until, OneMore(past, now, false), readings, maxAttempts, duration)
  {
    assert Tells(count, until, past, readings, maxAttempts, duration);
    if count + 1 < maxAttempts && Ordered(readings) { PassKeepsSpaced(until, past, now, maxAttempts, duration); }
  }

  // One more pass, before the limit is reached.
  lemma PassKeepsSpaced(until: Option<Time>, past: Past, now: Time, maxAttempts: nat, duration: int)
    requires past.closed <= |past.passes| && |past.passes| - past.closed + 1 < maxAttempts
    requires until.None? && Spaced(until, past, now, maxAttempts, duration)
    ensures Spaced(until, OneMore(past, now, false), now, maxAttempts, duration)
  {
    OrderedAppend(past.passes, now);
    CountSkips(past.passes, past.closed, now - (duration - 1), now);
    ThrottledAppend(past.passes, duration - 1, maxAttempts - 1, now, 0);
  }

  // Nothing is added to anybody's history.
  ghost predicate SameHistories(past: map<UserId, Past>, past': map<UserId, Past>) {
    && (forall u :: Lookup(past', u, NOTHING).passes == Lookup(past, u, NOTHING).passes)
    && (forall u :: Lookup(past', u, NOTHING).requests == Lookup(past, u, NOTHING).requests)
  }

  class AccessControl {
    const allowed: set<UserId>
    const maxAttempts: nat
    const duration: int
    var attempts: map<UserId, nat>
    var blockedUntil: map<UserId, Time>
    ghost var past: map<UserId, Past>
    ghost var readings: seq<Time>

    ghost predicate GuardedFor(user: UserId, readings: seq<Time>)
      reads this
    {
      Guarded(Lookup(attempts, user, 0), BlockOf(user), Lookup(past, user, NOTHING), readings, maxAttempts, duration)
    }

    function BlockOf(user: UserId): Option<Time>
      reads this
    {
      if user in blockedUntil then Some(blockedUntil[user]) else None
    }

    ghost predicate Valid()
      reads this
    {
      && 0 < maxAttempts && 0 < duration
      && (forall user :: GuardedFor(user, readings))
      && attempts.Keys !! allowed && blockedUntil.Keys !! allowed
    }

    constructor (allowed: set<UserId>, maxAttempts: nat, duration: int)
      requires 0 < maxAttempts && 0 < duration
      ensures Valid() && past == map[] && readings == []
      ensures this.allowed == allowed && this.maxAttempts == maxAttempts && this.duration == duration
    {
      this.allowed, this.maxAttempts, this.duration := allowed, maxAttempts, duration;
      attempts, blockedUntil := map[], map[];
      past, readings := map[], [];
    }

    // Records a clock reading; nothing else changes.
    ghost method Read(now: Time)
      requires Valid()
      modifies this`readings
      ensures Valid() && readings == old(readings) + [now]
    {
      readings := readings + [now];
      forall user ensures GuardedFor(user, readings) {
        assert old(GuardedFor(user, readings));
        GuardSurvivesReading(Lookup(attempts, user, 0), BlockOf(user), Lookup(past, user, NOTHING),
                             old(readings), maxAttempts, duration, now);
      }
    }

    // Ends a block that is over: the counter starts again, in a new epoch.
    method EndBlock(user: UserId)
      requires Valid() && user in blockedUntil && readings != []
      requires Ordered(readings) ==> blockedUntil[user] <= readings[|readings| - 1]
      modifies this`blockedUntil, this`attempts, this`past
      ensures Valid()
      ensures blockedUntil == old(blockedUntil) - {user}
      ensures attempts == old(attempts)[user := 0]
      ensures SameHistories(old(past), past)
    {
      assert GuardedFor(user, readings);
      ghost var before := Lookup(past, user, NOTHING);
      ResetKeepsGuard(Lookup(attempts, user, 0), blockedUntil[user], before, readings, maxAttempts, duration);
      blockedUntil := blockedUntil - {user};
      attempts := attempts[user := 0];
      past := past[user := NewEpoch(before)];
      assert GuardedFor(user, readings);
      forall u | u != user ensures GuardedFor(u, readings) {
        assert old(GuardedFor(u, readings));
        assert Lookup(attempts, u, 0) == old(Lookup(attempts, u, 0)) && BlockOf(u) == old(BlockOf(u));
        assert Lookup(past, u, NOTHING) == old(Lookup(past, u, NOTHING));
      }
    }

    // Blocked exactly until the block ends; the first request after that clears it.
    method ShouldBlock(user: UserId, now: Time) returns (blocked: bool)
      requires Valid()
      modifies this
      ensures Valid()
      ensures readings == old(readings) + [now]
      ensures blocked <==> user in old(blockedUntil) && now < old(blockedUntil[user])
      ensures if user in old(blockedUntil) && !blocked
              then blockedUntil == old(blockedUntil) - {user} && attempts == old(attempts)[user := 0]
              else blockedUntil == old(blockedUntil) && attempts == old(attempts) && past == old(past)
      ensures SameHistories(old(past), past)
    {
      Read(now);
      if user !in blockedUntil { return false; }
      if now < blockedUntil[user] { return true; }
      EndBlock(user);
      return false;
    }

    // An unauthorized request counts as an attempt.  The one that reaches the limit
    // blocks; below the limit only a setup command is let through.
    method HandleUnauthorized(user: UserId, isSetupCommand: bool, now: Time) returns (cancel: bool)
      requires Valid() && user !in allowed
      modifies this
      ensures Valid()
      ensures readings == old(readings) + [now]
      ensures var count := Lookup(old(attempts), user, 0) + 1;
              && attempts == old(attempts)[user := count]
              && blockedUntil == (if count < maxAttempts then old(blockedUntil)
                                  else old(blockedUntil)[user := now + duration])
              && (cancel <==> count >= maxAttempts || !isSetupCommand)
      ensures past == old(past)[user := OneMore(Lookup(old(past), user, NOTHING), now, cancel)]
    {
      Read(now);
      label Recorded:
      assert GuardedFor(user, readings);
      ghost var before := Lookup(past, user, NOTHING);
      AttemptKeepsGuard(Lookup(attempts, user, 0), BlockOf(user), before, readings, maxAttempts, duration, now);

      var current := Lookup(attempts, user, 0) + 1;
      attempts := attempts[user := current];
      cancel := true;
      if current >= maxAttempts {
        blockedUntil := blockedUntil[user := now + duration];
      } else if isSetupCommand {
        cancel := false;
      }
      past := past[user := OneMore(before, now, cancel)];
      assert BlockOf(user) == if current >= maxAttempts then Some(now + duration) else old@Recorded(BlockOf(user));
      assert Lookup(attempts, user, 0) == current && Lookup(past, user, NOTHING) == OneMore(before, now, cancel);
      assert GuardedFor(user, readings);
      forall u | u != user ensures GuardedFor(u, readings) {
        assert old@Recorded(GuardedFor(u, readings));
        assert Lookup(attempts, u, 0) == old(Lookup(attempts, u, 0)) && BlockOf(u) == old(BlockOf(u));
        assert Lookup(past, u, NOTHING) == old(Lookup(past, u, NOTHING));
      }
    }

    // The periodic cleanup reads the clock before it takes the lock, so its reading may
    // be older than the newest one.  It ends every block that is over by that reading.
    method PeriodicCleanup(now: Time)
      requires Valid()
      modifies this
      ensures Valid()
      ensures blockedUntil == map u | u in old(blockedUntil) && now < old(blockedUntil[u]) :: old(blockedUntil[u])
      ensures forall u :: Lookup(attempts, u, 0) ==
                if u in old(blockedUntil) && u !in blockedUntil then 0 else Lookup(old(attempts), u, 0)
      ensures SameHistories(old(past), past)
      ensures readings == if old(readings) == [] || old(readings)[|old(readings)| - 1] < now
                          then old(readings) + [now] else old(readings)
    {
      if readings == [] || readings[|readings| - 1] < now { Read(now); }
      var expired := set u | u in blockedUntil && blockedUntil[u] <= now;
      EndBlocks(expired);
    }

    // Ends these blocks, which are over.
    method EndBlocks(users: set<UserId>)
      requires Valid() && users <= blockedUntil.Keys && (users != {} ==> readings != [])
      requires Ordered(readings) ==> forall u :: u in users ==> blockedUntil[u] <= readings[|readings| - 1]
      modifies this`blockedUntil, this`attempts, this`past
      ensures Valid() && blockedUntil == old(blockedUntil) - users
      ensures forall u :: Lookup(attempts, u, 0) == if u in users then 0 else Lookup(old(attempts), u, 0)
      ensures SameHistories(old(past), past)
    {
      var todo := users;
      while todo != {}
        invariant todo <= users && Valid()
        invariant blockedUntil == old(blockedUntil) - (users - todo)
        invariant forall u :: Lookup(attempts, u, 0) == if u in users - todo then 0 else Lookup(old(attempts), u, 0)
        invariant SameHistories(old(past), past)
        decreases todo
      {
        var user := AnyOf(todo);
        EndBlock(user);
        todo := todo - {user};
      }
    }

    // The two sections one request runs through, here without anything in between.
    method PreProcess(user: Option<UserId>, isSetupCommand: bool, now: Time, later: Time) returns (cancel: bool)
      requires Valid()
      modifies this
      ensures Valid()
      ensures user.None? ==> cancel && unchanged(this)
      ensures user.Some? && user.value in allowed ==>
                !cancel && attempts == old(attempts) && blockedUntil == old(blockedUntil) && past == old(past)
      // Any other user: denied while blocked, and otherwise counted, whatever was sent.
      ensures user.Some? && user.value !in allowed ==>
                var u := user.value;
                var live := u in old(blockedUntil) && now < old(blockedUntil[u]);
                var count := if u in old(blockedUntil) then 1 else Lookup(old(attempts), u, 0) + 1;
                var p, p' := Lookup(old(past), u, NOTHING), Lookup(past, u, NOTHING);
                && (cancel <==> live || !isSetupCommand || count >= maxAttempts)
                && (live ==> attempts == old(attempts) && blockedUntil == old(blockedUntil) && past == old(past))
                && (!live ==>
                      && attempts == old(attempts)[u := count]
                      && blockedUntil == (if count >= maxAttempts then old(blockedUntil)[u := later + duration]
                                          else old(blockedUntil) - {u})
                      && p'.requests == p.requests + [later]
                      && p'.passes == if cancel then p.passes else p.passes + [later])
    {
      if user.None? { return true; }
      assert user.value in allowed ==> user.value !in blockedUntil && user.value !in attempts;
      var blocked := ShouldBlock(user.value, now);
      if blocked { return true; }
      if user.value in allowed {
        return false;
      }
      cancel := HandleUnauthorized(user.value, isSetupCommand, later);
    }

    // Wherever a half-open window of one block duration starts, fewer than `maxAttempts`
    // updates of an unauthorized user were let through in it.
    lemma FewPassesPerWindow(user: UserId, start: Time)
      requires Valid() && Ordered(readings)
      ensures CountIn(Lookup(past, user, NOTHING).passes, start, start + duration - 1) <= maxAttempts - 1
    {
      assert GuardedFor(user, readings);
      assert Tells(Lookup(attempts, user, 0), BlockOf(user), Lookup(past, user, NOTHING), readings, maxAttempts,
                   duration);
      WindowBound(Lookup(past, user, NOTHING).passes, duration - 1, maxAttempts - 1, 0, start);
    }

    // In every reachable state a user is blocked exactly if at least `maxAttempts` requests
    // of any kind were handled as unauthorized since the last block ended.
    lemma BlockedFromLimitOn(user: UserId)
      requires Valid()
      ensures var p := Lookup(past, user, NOTHING);
              && p.settled <= |p.requests|
              && (user in blockedUntil <==> |p.requests| - p.settled >= maxAttempts)
    {
      assert GuardedFor(user, readings);
      assert Tells(Lookup(attempts, user, 0), BlockOf(user), Lookup(past, user, NOTHING), readings, maxAttempts,
                   duration);
    }
  }
}
