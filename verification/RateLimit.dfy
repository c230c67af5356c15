// The per-user request limiter: one trimmed queue of times per user, and a counter of
// consecutive violations that disappears when the queue empties.
module RateLimit {
  import opened Common
  import opened SlidingWindow

  type UserId = int

  // Everything that ever happened to a user: the times of all accepted requests; how many
  // requests were rejected since the last of them, and how many of these are not recorded
  // yet; and of the rejections before it, how many were recorded since and how many are
  // still to be recorded.
  datatype Past = Past(accepted: seq<Time>, rejected: nat, pending: nat, late: nat, overdue: nat)

  const NOTHING := Past([], 0, 0, 0, 0)

  function Accepted(p: Past, now: Time): Past {
    Past(p.accepted + [now], 0, 0, 0, p.overdue + p.pending)
  }

  function Rejected(p: Past): Past {
    p.(rejected := p.rejected + 1, pending := p.pending + 1)
  }

  // A rejection is recorded in a section of its own, by the handler that was rejected,
  // and meanwhile a request may have been accepted.
  function Recorded(p: Past, inTime: bool): Past
    requires if inTime then p.pending > 0 else p.overdue > 0
  {
    if inTime then p.(pending := p.pending - 1) else p.(late := p.late + 1, overdue := p.overdue - 1)
  }

  // The queue carries the user's past, and the counter is the number of rejections since
  // the last acceptance, less those not yet recorded and more those recorded late, even
  // when its entry was deleted with an empty queue.
  ghost predicate Faithful(queue: seq<Time>, count: nat, past: Past, readings: seq<Time>, limit: nat, period: int) {
    && Windowed(queue, past.accepted, readings, limit, period)
    && count + past.pending == past.rejected + past.late && past.pending <= past.rejected
  }

  datatype Tables = Tables(requests: map<UserId, seq<Time>>, violations: map<UserId, nat>, past: map<UserId, Past>)

  // Unfolded only where `Faithful` itself is mentioned.
  ghost predicate FaithfulIn(t: Tables, user: UserId, readings: seq<Time>, limit: nat, period: int) {
    forall rs {:trigger Faithful(QueueOf(t, user), CountOf(t, user), PastOf(t, user), rs, limit, period)} ::
      rs == readings ==> Faithful(QueueOf(t, user), CountOf(t, user), PastOf(t, user), rs, limit, period)
  }

  function QueueOf(t: Tables, user: UserId): seq<Time> {
    Lookup(t.requests, user, [])
  }

  function CountOf(t: Tables, user: UserId): nat {
    Lookup(t.violations, user, 0)
  }

  function PastOf(t: Tables, user: UserId): Past {
    Lookup(t.past, user, NOTHING)
  }

  // Nothing about the user changed.
  predicate SameFor(t: Tables, t': Tables, user: UserId) {
    && QueueOf(t, user) == QueueOf(t', user) && CountOf(t, user) == CountOf(t', user)
    && PastOf(t, user) == PastOf(t', user)
  }

  // A reading that concerns somebody else changes nothing.
  lemma SameIsFaithful(t: Tables, t': Tables, user: UserId, readings: seq<Time>, limit: nat, period: int, now: Time)
    requires FaithfulIn(t, user, readings, limit, period) && SameFor(t, t', user)
    ensures FaithfulIn(t', user, readings, limit, period) && FaithfulIn(t', user, readings + [now], limit, period)
  {
    assert Faithful(QueueOf(t, user), CountOf(t, user), PastOf(t, user), readings, limit, period);
    ReadingPasses(QueueOf(t, user), PastOf(t, user).accepted, readings, limit, period, now);
  }

  // One request, rejected or accepted.  An empty queue cannot be full, so that a counter
  // that disappears with it is never one of a rejected request.
  lemma RequestIsFaithful(t: Tables, t': Tables, user: UserId, limited: bool, readings: seq<Time>, limit: nat,
                          period: int, now: Time)
    requires FaithfulIn(t, user, readings, limit, period)
    requires var q := Trim(QueueOf(t, user), now - period);
             && (limited <==> |q| >= limit)
             && QueueOf(t', user) == (if limited then q else q + [now])
             && CountOf(t', user) == (if limited then CountOf(t, user) else 0)
             && PastOf(t', user) == if limited then Rejected(PastOf(t, user)) else Accepted(PastOf(t, user), now)
    ensures FaithfulIn(t', user, readings + [now], limit, period)
    ensures Ordered(readings + [now]) ==> (limited <==> CountIn(PastOf(t, user).accepted, now - period, now) >= limit)
    ensures var h, rs := PastOf(t, user).accepted, readings + [now];
            forall late {:trigger Decides(limited, h, rs, limit, period, now, late)} ::
              Decides(limited, h, rs, limit, period, now, late)
    ensures |QueueOf(t', user)| <= limit
  {
    assert Faithful(QueueOf(t, user), CountOf(t, user), PastOf(t, user), readings, limit, period);
    WindowStep(QueueOf(t, user), PastOf(t, user).accepted, readings, limit, period, now);
  }

  lemma RecordIsFaithful(t: Tables, t': Tables, user: UserId, inTime: bool, readings: seq<Time>, limit: nat,
                         period: int)
    requires FaithfulIn(t, user, readings, limit, period)
    requires if inTime then PastOf(t, user).pending > 0 else PastOf(t, user).overdue > 0
    requires QueueOf(t', user) == QueueOf(t, user) && CountOf(t', user) == CountOf(t, user) + 1
    requires PastOf(t', user) == Recorded(PastOf(t, user), inTime)
    ensures FaithfulIn(t', user, readings, limit, period)
    ensures var p := PastOf(t', user); CountOf(t', user) == p.rejected - p.pending + p.late
  {
    assert Faithful(QueueOf(t, user), CountOf(t, user), PastOf(t, user), readings, limit, period);
  }

  class RateLimit {
    const limit: nat
    const period: int
    var requests: map<UserId, seq<Time>>
    var violations: map<UserId, nat>
    // Ghost record of every user's past, and of all clock readings.
    ghost var past: map<UserId, Past>
    ghost var readings: seq<Time>

    ghost function State(): Tables
      reads this`requests, this`violations, this`past
    {
      Tables(requests, violations, past)
    }

    ghost predicate FaithfulFor(user: UserId)
      reads this`requests, this`violations, this`past, this`readings
    {
      FaithfulIn(State(), user, readings, limit, period)
    }

    ghost predicate Valid()
      reads this`requests, this`violations, this`past, this`readings
    {
      && limit > 0 && period > 0
      && (forall user :: FaithfulFor(user))
    }

    constructor (limit: nat, period: int)
      requires limit > 0 && period > 0
      ensures Valid() && this.limit == limit && this.period == period
      ensures requests == map[] && violations == map[] && past == map[] && readings == []
    {
      this.limit, this.period := limit, period;
      requests, violations := map[], map[];
      past, readings := map[], [];
    }

    // Drops what the window no longer sees; a user whose queue empties is forgotten,
    // together with the violation counter.
    method CleanOldRequests(user: UserId, now: Time) returns (cleaned: nat, remaining: nat)
      modifies this`requests, this`violations
      ensures Lookup(requests, user, []) == Trim(old(Lookup(requests, user, [])), now - period)
      ensures remaining == |Lookup(requests, user, [])|
      ensures cleaned + remaining == |old(Lookup(requests, user, []))|
      ensures requests == if user in requests then old(requests)[user := requests[user]] else old(requests) - {user}
      ensures if cleaned > 0 && remaining == 0 then user !in requests && violations == old(violations) - {user}
              else requests.Keys == old(requests).Keys && violations == old(violations)
    {
      if user !in requests || requests[user] == [] { return 0, 0; }
      var cutoff := now - period;
      var queue := requests[user];
      if queue[0] >= cutoff { return 0, |queue|; }

      while queue != [] && queue[0] < cutoff
        invariant Trim(queue, cutoff) == Trim(requests[user], cutoff)
        invariant |queue| <= |requests[user]|
      {
        queue := queue[1..];
      }
      cleaned := |requests[user]| - |queue|;
      requests := requests[user := queue];
      if queue == [] {
        requests := requests - {user};
        violations := violations - {user};
        return cleaned, 0;
      }
      return cleaned, |queue|;
    }

    // The program's part of a request: trim, count, and either reject or note the time
    // and start the violations again.
    method Count(user: UserId, now: Time) returns (limited: bool, current: nat, violationReset: bool)
      requires limit > 0
      modifies this`requests, this`violations
      ensures var q := Trim(Lookup(old(requests), user, []), now - period);
              && (limited <==> |q| >= limit)
              && Lookup(requests, user, []) == (if limited then q else q + [now])
              && Lookup(violations, user, 0) == (if limited then Lookup(old(violations), user, 0) else 0)
      ensures forall u :: u != user ==> Lookup(requests, u, []) == Lookup(old(requests), u, [])
                                        && Lookup(violations, u, 0) == Lookup(old(violations), u, 0)
      ensures current == |Lookup(requests, user, [])|
      ensures violationReset <==> !limited && user in violations
    {
      var cleaned: nat;
      cleaned, current := CleanOldRequests(user, now);
      limited, violationReset := current >= limit, false;
      if !limited {
        requests := requests[user := Lookup(requests, user, []) + [now]];
        current := |requests[user]|;
        if user in violations {
          violations := violations[user := 0];
          violationReset := true;
        }
      }
    }

    method CheckAndTrack(user: UserId, now: Time) returns (limited: bool, current: nat, violationReset: bool)
      requires Valid()
      modifies this
      ensures Valid()
      ensures readings == old(readings) + [now]
      // In order: limited exactly when `limit` accepted requests of this user lie in the
      // closed window that ends now, whatever other users did.  Out of order: up to what
      // readings are late by.
      ensures var h := Lookup(old(past), user, NOTHING).accepted;
              forall late {:trigger Decides(limited, h, readings, limit, period, now, late)} ::
                Decides(limited, h, readings, limit, period, now, late)
      ensures Ordered(readings) ==>
                (limited <==> CountIn(Lookup(old(past), user, NOTHING).accepted, now - period, now) >= limit)
      ensures var before := Lookup(old(past), user, NOTHING);
              past == old(past)[user := if limited then Rejected(before) else Accepted(before, now)]
      ensures var q := Trim(Lookup(old(requests), user, []), now - period);
              && (limited <==> |q| >= limit) && Lookup(requests, user, []) == if limited then q else q + [now]
      ensures current == |Lookup(requests, user, [])| <= limit
      ensures violationReset <==> !limited && user in violations
    {
      assert FaithfulFor(user);
      ghost var before, his := State(), Lookup(past, user, NOTHING);
      limited, current, violationReset := Count(user, now);
      past := past[user := if limited then Rejected(his) else Accepted(his, now)];
      readings := readings + [now];
      RequestIsFaithful(before, State(), user, limited, old(readings), limit, period, now);
      forall u ensures FaithfulFor(u) {
        assert old(FaithfulFor(u));
        if u != user { SameIsFaithful(before, State(), u, old(readings), limit, period, now); }
      }
    }

    // A rejected request is counted in a lock section of its own, which may come only
    // after the next acceptance (`inTime` says whether it does not).
    method RecordViolation(user: UserId, ghost inTime: bool) returns (count: nat)
      requires Valid()
      requires var p := Lookup(past, user, NOTHING); if inTime then p.pending > 0 else p.overdue > 0
      modifies this`violations, this`past
      ensures Valid()
      ensures past == old(past)[user := Recorded(Lookup(old(past), user, NOTHING), inTime)]
      ensures var p := past[user]; count == Lookup(violations, user, 0) == p.rejected - p.pending + p.late
    {
      assert FaithfulFor(user);
      ghost var before, his := State(), Lookup(past, user, NOTHING);
      count := Lookup(violations, user, 0) + 1;
      violations := violations[user := count];
      past := past[user := Recorded(his, inTime)];
      RecordIsFaithful(before, State(), user, inTime, readings, limit, period);
      forall u ensures FaithfulFor(u) {
        assert old(FaithfulFor(u));
        if u != user { SameIsFaithful(before, State(), u, readings, limit, period, 0); }
      }
    }

    // In every reachable state the counter is the number of rejections since the last
    // acceptance, less those not yet recorded, and more earlier ones recorded since: it
    // is that number itself exactly when as many are pending as came late.
    lemma CounterCounts(user: UserId)
      requires Valid()
      ensures var p, count := Lookup(past, user, NOTHING), Lookup(violations, user, 0);
              && count == p.rejected - p.pending + p.late
              && (count == p.rejected <==> p.pending == p.late)
    {
      assert FaithfulFor(user);
      assert Faithful(QueueOf(State(), user), CountOf(State(), user), PastOf(State(), user), readings, limit, period);
    }

    // Wherever a closed window of one period starts, it holds at most `limit` accepted
    // requests of a user; the window is shorter by what readings were late by.
    lemma WindowHoldsAtMostLimit(user: UserId, start: Time, late: nat)
      requires Valid() && LateBy(readings, late)
      ensures CountIn(Lookup(past, user, NOTHING).accepted, start, start + period - late) <= limit
    {
      assert FaithfulFor(user);
      assert Faithful(QueueOf(State(), user), CountOf(State(), user), PastOf(State(), user), readings, limit, period);
      assert Obeys(Lookup(past, user, NOTHING).accepted, readings, limit, period, late);
      WindowBound(Lookup(past, user, NOTHING).accepted, period, limit, late, start);
    }
  }

  // One request that finds this queue.
  method Request(limiter: RateLimit, user: UserId, now: Time, ghost queue: seq<Time>) returns (limited: bool)
    requires limiter.Valid() && Trim(QueueOf(limiter.State(), user), now - limiter.period) == queue
    modifies limiter
    ensures limiter.Valid() && limiter.readings == old(limiter.readings) + [now]
    ensures limited <==> |queue| >= limiter.limit
    ensures QueueOf(limiter.State(), user) == if limited then queue else queue + [now]
    ensures var p := old(PastOf(limiter.State(), user));
            PastOf(limiter.State(), user) == if limited then Rejected(p) else Accepted(p, now)
  {
    var current, reset;
    limited, current, reset := limiter.CheckAndTrack(user, now);
  }

  // A rejection is recorded after the next acceptance: nothing is pending, no request was
  // rejected since, and yet a violation is counted.
  method LateRecording(user: UserId, period: int) returns (limiter: RateLimit)
    requires 0 < period
    ensures limiter.Valid() && Ordered(limiter.readings)
    ensures var p := PastOf(limiter.State(), user); p.rejected == p.pending == p.overdue == 0
    ensures CountOf(limiter.State(), user) == 1
  {
    limiter := AcceptBeforeRecording(user, period);
    var count := limiter.RecordViolation(user, false);
  }

  method AcceptBeforeRecording(user: UserId, period: int) returns (limiter: RateLimit)
    requires 0 < period
    ensures fresh(limiter) && limiter.Valid() && Ordered(limiter.readings)
    ensures PastOf(limiter.State(), user) == Past([0, period + 1], 0, 0, 0, 1)
  {
    limiter := new RateLimit(1, period);
    var limited := Request(limiter, user, 0, []);
    limited := Request(limiter, user, 0, [0]);
    OrderedAppend([0], 0);
    assert limiter.readings == [0] + [0];
    OrderedAppend(limiter.readings, period + 1);
    limited := Request(limiter, user, period + 1, []);
  }

  function Zeros(n: nat): (s: seq<Time>)
    ensures |s| == n
  {
    seq(n, i => 0)
  }

  // Out of order the bound on windows is exact: if readings can be late by some time, then
  // one second more than the period less that time can hold more than the limit.
  method LateReadingsExceed(user: UserId, limit: nat, period: int, late: nat) returns (limiter: RateLimit)
    requires 2 <= limit && 0 < period && late <= period
    ensures limiter.Valid() && limiter.limit == limit && limiter.period == period
    ensures LateBy(limiter.readings, late)
    ensures CountIn(PastOf(limiter.State(), user).accepted, 0, period - late + 1) > limit
  {
    limiter := FillAndGoBack(user, limit, period, late);
    LateExceeds(limit, period, late);
  }

  function WithLate(limit: nat, period: int, late: nat): seq<Time> {
    Zeros(limit) + [period + 1] + [period + 1 - late]
  }

  method FillAndGoBack(user: UserId, limit: nat, period: int, late: nat) returns (limiter: RateLimit)
    requires 2 <= limit && 0 < period && late <= period
    ensures limiter.Valid() && limiter.limit == limit && limiter.period == period
    ensures limiter.readings == PastOf(limiter.State(), user).accepted == WithLate(limit, period, late)
  {
    limiter := FillAtZero(user, limit, period);
    TrimSplits(Zeros(limit), 1);
    var limited := Request(limiter, user, period + 1, []);
    limited := Request(limiter, user, period + 1 - late, [period + 1]);
  }

  lemma LateExceeds(limit: nat, period: int, late: nat)
    requires 0 < period && late <= period
    ensures var h := WithLate(limit, period, late); LateBy(h, late) && CountIn(h, 0, period - late + 1) > limit
  {
    var zeros := Zeros(limit);
    LateAppend(zeros, period + 1, late);
    LateAppend(zeros + [period + 1], period + 1 - late, late);
    assert (zeros + [period + 1] + [period + 1 - late])[..limit + 1] == zeros + [period + 1];
    assert (zeros + [period + 1])[..limit] == zeros;
    CountAll(zeros, 0, 0, period - late + 1);
  }

  method FillAtZero(user: UserId, limit: nat, period: int) returns (limiter: RateLimit)
    requires 0 < limit && 0 < period
    ensures fresh(limiter) && limiter.Valid() && limiter.limit == limit && limiter.period == period
    ensures limiter.readings == PastOf(limiter.State(), user).accepted == Zeros(limit)
    ensures QueueOf(limiter.State(), user) == Zeros(limit)
  {
    limiter := new RateLimit(limit, period);
    for i := 0 to limit
      invariant fresh(limiter) && limiter.Valid() && limiter.limit == limit && limiter.period == period
      invariant limiter.readings == PastOf(limiter.State(), user).accepted == Zeros(i)
      invariant QueueOf(limiter.State(), user) == Zeros(i)
    {
      var limited := Request(limiter, user, 0, Zeros(i));
      assert Zeros(i + 1) == Zeros(i) + [0];
    }
  }
}
