// The burst limit on code attempts: one queue of admission times per user, and a
// compaction of other users' queues once the table has grown large.
module TotpBurst {
  import opened Common
  import opened SlidingWindow

  type UserId = int

  const WINDOW := 60
  const COMPACT_ABOVE := 256

  function AfterTrim(queue: seq<Time>, untouched: bool, now: Time): seq<Time> {
    if untouched then queue else Trim(queue, now - WINDOW)
  }

  // Seen through a lookup, every other user's queue is trimmed; none is kept empty.
  ghost predicate Compacted(after: map<UserId, seq<Time>>, before: map<UserId, seq<Time>>, now: Time, current: UserId) {
    && (forall u :: Lookup(after, u, []) == AfterTrim(Lookup(before, u, []), u == current, now))
    && (forall u :: u in after && u != current ==> after[u] != [])
  }

  // The sweep is done with every user outside `todo`.
  ghost predicate Swept(after: map<UserId, seq<Time>>, before: map<UserId, seq<Time>>, todo: set<UserId>, now: Time,
                        current: UserId) {
    && after.Keys == before.Keys
    && (forall u :: u in before ==> after[u] == AfterTrim(before[u], u == current || u in todo, now))
  }

  lemma SweepCompacts(after: map<UserId, seq<Time>>, before: map<UserId, seq<Time>>, stale: set<UserId>, now: Time,
                      current: UserId)
    requires Swept(after, before, {}, now, current)
    requires forall u :: u in stale <==> u in after && u != current && after[u] == []
    ensures Compacted(after - stale, before, now, current)
  {
    forall u ensures Lookup(after - stale, u, []) == AfterTrim(Lookup(before, u, []), u == current, now) {
      if u in before { assert after[u] == AfterTrim(before[u], u == current, now); }
    }
  }

  datatype Tables = Tables(buckets: map<UserId, seq<Time>>, admitted: map<UserId, seq<Time>>)

  function QueueOf(t: Tables, user: UserId): seq<Time> {
    Lookup(t.buckets, user, [])
  }

  function AdmittedOf(t: Tables, user: UserId): seq<Time> {
    Lookup(t.admitted, user, [])
  }

  // The queue carries what was admitted; unfolded only where `Windowed` is mentioned.
  ghost predicate FaithfulIn(t: Tables, user: UserId, readings: seq<Time>, threshold: nat) {
    forall rs {:trigger Windowed(QueueOf(t, user), AdmittedOf(t, user), rs, threshold, WINDOW)} ::
      rs == readings ==> Windowed(QueueOf(t, user), AdmittedOf(t, user), rs, threshold, WINDOW)
  }

  // An attempt of somebody else changes nothing.
  lemma SameIsFaithful(t: Tables, t': Tables, user: UserId, readings: seq<Time>, threshold: nat, now: Time)
    requires FaithfulIn(t, user, readings, threshold)
    requires QueueOf(t', user) == QueueOf(t, user) && AdmittedOf(t', user) == AdmittedOf(t, user)
    ensures FaithfulIn(t', user, readings + [now], threshold)
  {
    assert Windowed(QueueOf(t, user), AdmittedOf(t, user), readings, threshold, WINDOW);
    ReadingPasses(QueueOf(t, user), AdmittedOf(t, user), readings, threshold, WINDOW, now);
  }

  lemma AttemptIsFaithful(t: Tables, t': Tables, user: UserId, refused: bool, readings: seq<Time>, threshold: nat,
                          now: Time)
    requires FaithfulIn(t, user, readings, threshold)
    requires var q := Trim(QueueOf(t, user), now - WINDOW);
             && (refused <==> |q| >= threshold)
             && QueueOf(t', user) == (if refused then q else q + [now])
             && AdmittedOf(t', user) == if refused then AdmittedOf(t, user) else AdmittedOf(t, user) + [now]
    ensures FaithfulIn(t', user, readings + [now], threshold)
    ensures Ordered(readings + [now]) ==> (refused <==> CountIn(AdmittedOf(t, user), now - 60, now) >= threshold)
    ensures var h, rs := AdmittedOf(t, user), readings + [now];
            forall late {:trigger Decides(refused, h, rs, threshold, WINDOW, now, late)} ::
              Decides(refused, h, rs, threshold, WINDOW, now, late)
  {
    assert Windowed(QueueOf(t, user), AdmittedOf(t, user), readings, threshold, WINDOW);
    WindowStep(QueueOf(t, user), AdmittedOf(t, user), readings, threshold, WINDOW, now);
  }

  lemma TrimmedIsFaithful(t: Tables, t': Tables, user: UserId, readings: seq<Time>, threshold: nat)
    requires FaithfulIn(t, user, readings, threshold) && readings != []
    requires QueueOf(t', user) == QueueOf(t, user)
             || QueueOf(t', user) == Trim(QueueOf(t, user), readings[|readings| - 1] - WINDOW)
    requires AdmittedOf(t', user) == AdmittedOf(t, user)
    ensures FaithfulIn(t', user, readings, threshold)
  {
    assert Windowed(QueueOf(t, user), AdmittedOf(t, user), readings, threshold, WINDOW);
    TrimKeepsWindowed(QueueOf(t, user), AdmittedOf(t, user), readings, threshold, WINDOW);
  }

  class TotpBurst {
    const threshold: nat
    var buckets: map<UserId, seq<Time>>
    // Every admitted attempt of every user, and every clock reading.
    ghost var admitted: map<UserId, seq<Time>>
    ghost var readings: seq<Time>

    ghost function State(): Tables
      reads this`buckets, this`admitted
    {
      Tables(buckets, admitted)
    }

    ghost predicate FaithfulFor(user: UserId)
      reads this`buckets, this`admitted, this`readings
    {
      FaithfulIn(State(), user, readings, threshold)
    }

    ghost predicate Valid()
      reads this`buckets, this`admitted, this`readings
    {
      forall user :: FaithfulFor(user)
    }

    // The threshold is derived from the configured number of attempts.
    constructor (totpMaxAttempts: int)
      ensures Valid() && threshold >= 5 && threshold >= 2 * totpMaxAttempts
      ensures threshold == 5 || threshold == 2 * totpMaxAttempts
      ensures buckets == map[] && admitted == map[] && readings == []
    {
      threshold := if totpMaxAttempts * 2 > 5 then totpMaxAttempts * 2 else 5;
      buckets, admitted, readings := map[], map[], [];
    }

    method TrimBucket(user: UserId, now: Time)
      requires user in buckets
      modifies this`buckets
      ensures buckets == old(buckets)[user := Trim(old(buckets[user]), now - WINDOW)]
    {
      var attempts := buckets[user];
      while attempts != [] && now - attempts[0] > WINDOW
        invariant Trim(attempts, now - WINDOW) == Trim(buckets[user], now - WINDOW)
      {
        attempts := attempts[1..];
      }
      buckets := buckets[user := attempts];
    }

    // Other users' queues lose what their windows no longer see, empty ones disappear.
    method PruneStale(now: Time, current: UserId)
      modifies this`buckets
      ensures |old(buckets)| <= 256 ==> buckets == old(buckets)
      ensures |old(buckets)| > 256 ==>
                && Compacted(buckets, old(buckets), now, current)
                && Lookup(buckets, current, []) == Lookup(old(buckets), current, [])
                && (forall u :: u != current ==> Lookup(buckets, u, []) == Trim(Lookup(old(buckets), u, []), now - 60))
                && (forall u :: u in buckets && u != current ==> buckets[u] != [])
    {
      if |buckets| <= COMPACT_ABOVE { return; }
      ghost var before := buckets;
      var stale: set<UserId> := {};
      var todo := buckets.Keys - {current};
      while todo != {}
        invariant todo <= before.Keys - {current} && Swept(buckets, before, todo, now, current)
        invariant forall u :: u in stale <==> u in buckets && u !in todo && u != current && buckets[u] == []
        decreases todo
      {
        var user := AnyOf(todo);
        TrimBucket(user, now);
        if buckets[user] == [] { stale := stale + {user}; }
        todo := todo - {user};
      }
      SweepCompacts(buckets, before, stale, now, current);
      buckets := buckets - stale;
    }

    // The program's part: the user's own queue is trimmed, and grows unless it is as long
    // as the threshold.
    method Count(user: UserId, now: Time) returns (refused: bool)
      modifies this`buckets
      ensures var q := Trim(Lookup(old(buckets), user, []), now - WINDOW);
              && (refused <==> |q| >= threshold)
              && Lookup(buckets, user, []) == if refused then q else q + [now]
      ensures forall u :: u != user ==> Lookup(buckets, u, []) == Lookup(old(buckets), u, [])
    {
      if user !in buckets { buckets := buckets[user := []]; }
      TrimBucket(user, now);
      refused := |buckets[user]| >= threshold;
      if !refused { buckets := buckets[user := buckets[user] + [now]]; }
    }

    method Admit(user: UserId, now: Time) returns (refused: bool)
      requires Valid()
      modifies this
      ensures Valid() && readings == old(readings) + [now]
      ensures refused <==> |Trim(Lookup(old(buckets), user, []), now - 60)| >= threshold
      ensures Ordered(readings) ==>
                (refused <==> CountIn(Lookup(old(admitted), user, []), now - 60, now) >= threshold)
      ensures var h := Lookup(old(admitted), user, []);
              forall late {:trigger Decides(refused, h, readings, threshold, 60, now, late)} ::
                Decides(refused, h, readings, threshold, 60, now, late)
      ensures admitted == if refused then old(admitted)
                          else old(admitted)[user := Lookup(old(admitted), user, []) + [now]]
    {
      assert FaithfulFor(user);
      ghost var before, his := State(), Lookup(admitted, user, []);
      refused := Count(user, now);
      if !refused { admitted := admitted[user := his + [now]]; }
      readings := readings + [now];
      AttemptIsFaithful(before, State(), user, refused, old(readings), threshold, now);
      forall u ensures FaithfulFor(u) {
        assert old(FaithfulFor(u));
        if u != user { SameIsFaithful(before, State(), u, old(readings), threshold, now); }
      }
    }

    // Other users' queues lose what their windows no longer see.
    method Compact(now: Time, current: UserId)
      requires Valid() && readings != [] && readings[|readings| - 1] == now
      modifies this`buckets
      ensures Valid()
    {
      ghost var before := State();
      PruneStale(now, current);
      forall u ensures FaithfulFor(u) {
        assert old(FaithfulFor(u));
        TrimmedIsFaithful(before, State(), u, readings, threshold);
      }
    }

    // Refused exactly when `threshold` admitted attempts of this user lie in the closed
    // window that ends now, whatever the other users did and however often the table
    // was compacted; if readings can be late, up to what they are late by.
    method Consume(user: UserId, now: Time) returns (refused: bool)
      requires Valid()
      modifies this
      ensures Valid() && readings == old(readings) + [now]
      ensures refused <==> |Trim(Lookup(old(buckets), user, []), now - 60)| >= threshold
      ensures Ordered(readings) ==>
                (refused <==> CountIn(Lookup(old(admitted), user, []), now - 60, now) >= threshold)
      ensures var h := Lookup(old(admitted), user, []);
              forall late {:trigger Decides(refused, h, readings, threshold, 60, now, late)} ::
                Decides(refused, h, readings, threshold, 60, now, late)
      ensures admitted == if refused then old(admitted)
                          else old(admitted)[user := Lookup(old(admitted), user, []) + [now]]
    {
      refused := Admit(user, now);
      if !refused { Compact(now, user); }
    }

    // Wherever a closed window starts, it holds at most `threshold` admitted attempts; the
    // window is shorter than a minute by what readings were late by.
    lemma WindowHoldsAtMostThreshold(user: UserId, start: Time, late: nat)
      requires Valid() && LateBy(readings, late)
      ensures CountIn(Lookup(admitted, user, []), start, start + 60 - late) <= threshold
    {
      assert FaithfulFor(user);
      assert Windowed(QueueOf(State(), user), AdmittedOf(State(), user), readings, threshold, WINDOW);
      assert Obeys(Lookup(admitted, user, []), readings, threshold, WINDOW, late);
      WindowBound(Lookup(admitted, user, []), WINDOW, threshold, late, start);
    }
  }
}
