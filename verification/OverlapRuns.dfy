// Runs of overlapping handlers that reach the bounds on failed checks.
module OverlapRuns {
  import opened Common
  import opened SlidingWindow
  import opened Sessions
  import opened OverlapWorld
  import opened Overlap
  import TotpBurst

  // The burst limit lets the next attempt of this user pass at this reading.
  ghost predicate Admits(o: Overlap, now: Time)
    reads o, o.burst
  {
    && Ordered(o.burst.readings + [now])
    && CountIn(o.State().admitted, now - TotpBurst.WINDOW, now) < o.burst.threshold
  }

  // All readings of the run came in order, none after this one.
  ghost predicate InTime(o: Overlap, now: Time)
    reads o
  {
    Ordered(o.watch.moments) && NoneAfter(o.watch.moments, now)
  }

  lemma StaysInTime(moments: seq<Time>, now: Time)
    requires Ordered(moments) && NoneAfter(moments, now)
    ensures Ordered(moments + [now]) && NoneAfter(moments + [now], now)
  {
    LateAppend(moments, now, 0);
  }

  // Asking for a code, with nothing in between.
  method Ask(o: Overlap, h: HandlerId, now: Time)
    requires o.Valid() && h !in o.handlers && !IsBlockedNow(o.Current(), now)
    modifies o
    ensures o.Valid() && o.handlers == old(o.handlers) && o.peak == Max(old(o.peak), |o.handlers| + 1)
    ensures o.Current() == AutoUnblocked(old(o.Current()), now).(state := Processing)
    ensures o.failed == old(o.failed) && o.slots == old(o.slots)
    ensures old(InTime(o, now)) ==> InTime(o, now)
  {
    if InTime(o, now) { StaysInTime(o.watch.moments, now); }
    ghost var before := o.handlers;
    o.Arrive(h, true);
    assert o.handlers.Keys == before.Keys + {h};
    var blocked := o.AskIfBlocked(h, now);
    o.StartProcessing(h);
    assert o.handlers == before;
  }

  // A code message from its arrival to its check, with nothing in between.
  method Proceed(o: Overlap, h: HandlerId, now: Time)
    requires o.Valid() && h in o.handlers && o.handlers[h].Arrived? && Admits(o, now)
    requires o.Current().state.Processing? && o.Current().blockedUntil.None? && o.Current().attempts < o.totpMax
    modifies o, o.burst
    ensures o.Valid() && o.Current() == old(o.Current()) && o.failed == old(o.failed) && o.peak == old(o.peak)
    ensures o.handlers == old(o.handlers)[h := Checking(old(o.Current()).attempts)]
    ensures o.State().admitted == old(o.State()).admitted + [now]
    ensures o.burst.readings == old(o.burst.readings) + [now]
    ensures old(InTime(o, now)) ==> InTime(o, now)
  {
    if InTime(o, now) { StaysInTime(o.watch.moments, now); }
    o.ReadState(h, true);
    o.ReadBlock(h);
    o.ReadAttempts(h);
    var refused := o.Guard(h, now);
  }

  method Fail(o: Overlap, h: HandlerId, now: Time)
    requires o.Valid() && h in o.handlers && o.handlers[h].Checking?
    modifies o
    ensures o.Valid() && |o.failed| == |old(o.failed)| + 1 && o.peak == old(o.peak)
    ensures o.Current() == SessionStore.Failed(old(o.Current()), o.maxAttempts, o.blockDuration, now)
    ensures o.handlers == old(o.handlers) - {h}
    ensures old(InTime(o, now)) ==> InTime(o, now)
  {
    if InTime(o, now) {
      StaysInTime(o.watch.moments, now);
      StaysInTime(o.watch.moments + [now], now);
    }
    assert Coherent(o.State(), o.totpMax) && OwnSlot(o.State(), h);
    o.Check(h, Bad, now);
    o.CountFailure(h, now);
  }

  method FailAll(o: Overlap, count: nat, now: Time)
    requires o.Valid() && forall h: nat :: h < count ==> h in o.handlers && o.handlers[h].Checking?
    modifies o
    ensures o.Valid() && |o.failed| == |old(o.failed)| + count && o.peak == old(o.peak)
    ensures old(InTime(o, now)) ==> InTime(o, now)
  {
    for i := 0 to count
      invariant old(InTime(o, now)) ==> InTime(o, now)
      invariant o.Valid() && |o.failed| == |old(o.failed)| + i && o.peak == old(o.peak)
      invariant forall h: nat :: i <= h < count ==> h in o.handlers && o.handlers[h].Checking?
    {
      Fail(o, i, now);
    }
  }

  // A code message that arrives, is checked and fails, at a quiet moment.
  method OneFailure(o: Overlap, now: Time)
    requires o.Valid() && o.handlers == map[] && Admits(o, now) && Prepared(o, o.Current().attempts)
    modifies o, o.burst
    ensures o.Valid() && o.handlers == map[] && |o.failed| == |old(o.failed)| + 1 && o.peak == Max(old(o.peak), 1)
    ensures o.Current() == SessionStore.Failed(old(o.Current()), o.maxAttempts, o.blockDuration, now)
    ensures o.State().admitted == old(o.State()).admitted + [now]
    ensures o.burst.readings == old(o.burst.readings) + [now]
    ensures old(InTime(o, now)) ==> InTime(o, now)
  {
    o.Arrive(0, false);
    Proceed(o, 0, now);
    Fail(o, 0, now);
    assert o.handlers == map[];
  }

  // Ready for codes after this many failures.
  ghost predicate Prepared(o: Overlap, attempts: nat)
    reads o
  {
    o.Current().state.Processing? && o.Current().blockedUntil.None? && o.Current().attempts == attempts < o.totpMax
  }

  // A message that arrives beside others and comes to its check.
  method OneMore(o: Overlap, h: HandlerId, now: Time)
    requires o.Valid() && h !in o.handlers && Admits(o, now) && Prepared(o, o.Current().attempts)
    modifies o, o.burst
    ensures o.Valid() && o.Current() == old(o.Current()) && o.failed == old(o.failed)
    ensures o.handlers == old(o.handlers)[h := Checking(o.Current().attempts)]
    ensures |o.handlers| == |old(o.handlers)| + 1 && o.peak == Max(old(o.peak), |o.handlers|)
    ensures o.State().admitted == old(o.State()).admitted + [now]
    ensures o.burst.readings == old(o.burst.readings) + [now]
  {
    ghost var before := o.handlers;
    Join(o, h);
    Proceed(o, h, now);
    assert o.handlers.Keys == before.Keys + {h};
  }

  // All attempts of a run were more than a minute ago.
  ghost predicate Quiet(readings: seq<Time>, admitted: seq<Time>, now: Time) {
    Ordered(readings) && NoneAfter(readings, now) && AllBefore(admitted, |admitted|, now - TotpBurst.WINDOW)
  }

  lemma QuietAdmits(o: Overlap, now: Time)
    requires Quiet(o.burst.readings, o.State().admitted, now) && o.burst.threshold > 0
    ensures Admits(o, now)
  {
    OrderedAppend(o.burst.readings, now);
    CountSkips(o.State().admitted, |o.State().admitted|, now - TotpBurst.WINDOW, now);
  }

  lemma QuietAgain(readings: seq<Time>, admitted: seq<Time>, now: Time, step: nat)
    requires Quiet(readings, admitted, now) && step > TotpBurst.WINDOW
    ensures Quiet(readings + [now], admitted + [now], now + step)
  {
    OrderedAppend(readings, now);
  }

  // One failure less than the limit, each message on its own and after the last block.
  method FailAlone(totpMax: nat, maxAttempts: nat, blockDuration: int, step: nat) returns (o: Overlap, now: Time)
    requires totpMax > 0 && step > TotpBurst.WINDOW && step > blockDuration
    ensures fresh(o) && fresh(o.burst) && o.Valid() && o.burst.threshold > 0
    ensures Quiet(o.burst.readings, o.State().admitted, now)
    ensures o.totpMax == totpMax && o.maxAttempts == maxAttempts && o.blockDuration == blockDuration
    ensures o.Current().attempts == totpMax - 1 && !IsBlockedNow(o.Current(), now)
    ensures o.handlers == map[] && o.peak == 1 && |o.failed| == totpMax - 1
  {
    var burst := new TotpBurst.TotpBurst(totpMax);
    o := new Overlap(0, maxAttempts, blockDuration, totpMax, 7, burst);
    now := 0;
    for i := 0 to totpMax - 1
      invariant fresh(o) && fresh(o.burst) && o.Valid()
      invariant Quiet(o.burst.readings, o.State().admitted, now)
      invariant o.Current().attempts == i && !IsBlockedNow(o.Current(), now)
      invariant o.handlers == map[] && o.peak == 1 && |o.failed| == i
    {
      now := FailQuietly(o, now, step);
    }
  }

  method FailQuietly(o: Overlap, now: Time, step: nat) returns (later: Time)
    requires o.Valid() && o.burst.threshold > 0 && o.handlers == map[] && o.Current().attempts < o.totpMax
    requires Quiet(o.burst.readings, o.State().admitted, now) && !IsBlockedNow(o.Current(), now)
    requires step > TotpBurst.WINDOW && step > o.blockDuration
    modifies o, o.burst
    ensures o.Valid() && o.handlers == map[] && |o.failed| == |old(o.failed)| + 1 && o.peak == Max(old(o.peak), 1)
    ensures Quiet(o.burst.readings, o.State().admitted, later) && !IsBlockedNow(o.Current(), later)
    ensures o.Current().attempts == old(o.Current()).attempts + 1
  {
    Ask(o, 0, now);
    QuietAdmits(o, now);
    QuietAgain(o.burst.readings, o.State().admitted, now, step);
    OneFailure(o, now);
    later := now + step;
  }

  // The bound is exact: for every limit, every number of overlapping messages, and every
  // configuration of the session store there is a run, with every attempt more than a
  // minute apart from the others, in which that many checked codes fail.
  method BoundIsReached(totpMax: nat, overlap: nat, maxAttempts: nat, blockDuration: int) returns (o: Overlap)
    requires totpMax > 0 && overlap > 0
    ensures fresh(o) && o.Valid() && o.totpMax == totpMax && o.peak == overlap
    ensures o.maxAttempts == maxAttempts && o.blockDuration == blockDuration
    ensures |o.failed| == totpMax + overlap - 1
  {
    var step: nat := Max(TotpBurst.WINDOW, blockDuration) + 1;
    var now;
    o, now := FailAlone(totpMax, maxAttempts, blockDuration, step);
    Ask(o, 0, now);
    now := GatherQuietly(o, overlap, now, step);
    FailAll(o, overlap, now);
  }

  method GatherQuietly(o: Overlap, overlap: nat, now: Time, step: nat) returns (later: Time)
    requires o.Valid() && o.burst.threshold > 0 && o.handlers == map[] && Prepared(o, o.Current().attempts)
    requires Quiet(o.burst.readings, o.State().admitted, now) && step > TotpBurst.WINDOW
    modifies o, o.burst
    ensures o.Valid() && o.failed == old(o.failed) && o.peak == Max(old(o.peak), overlap)
    ensures AllChecking(o.handlers, overlap)
  {
    later := now;
    for i := 0 to overlap
      invariant o.Valid() && o.Current() == old(o.Current()) && o.failed == old(o.failed)
      invariant Quiet(o.burst.readings, o.State().admitted, later)
      invariant |o.handlers| == i && o.peak == Max(old(o.peak), i)
      invariant AllChecking(o.handlers, i)
    {
      later := OneMoreQuietly(o, i, later, step);
    }
  }

  // These are the handlers, and all of them are checking.
  ghost predicate AllChecking(handlers: map<HandlerId, Stage>, count: nat) {
    forall h: nat :: (h in handlers <==> h < count) && (h in handlers ==> handlers[h].Checking?)
  }

  method OneMoreQuietly(o: Overlap, h: HandlerId, now: Time, step: nat) returns (later: Time)
    requires o.Valid() && o.burst.threshold > 0 && AllChecking(o.handlers, h) && Prepared(o, o.Current().attempts)
    requires Quiet(o.burst.readings, o.State().admitted, now) && step > TotpBurst.WINDOW
    modifies o, o.burst
    ensures o.Valid() && o.Current() == old(o.Current()) && o.failed == old(o.failed)
    ensures Quiet(o.burst.readings, o.State().admitted, later) && AllChecking(o.handlers, h + 1)
    ensures |o.handlers| == |old(o.handlers)| + 1 && o.peak == Max(old(o.peak), |o.handlers|)
  {
    QuietAdmits(o, now);
    QuietAgain(o.burst.readings, o.State().admitted, now, step);
    OneMore(o, h, now);
    later := now + step;
  }

  // All attempts of a run were at reading 0.
  ghost predicate AtOnce(readings: seq<Time>, admitted: seq<Time>) {
    Ordered(readings) && NoneAfter(readings, 0) && forall n :: 0 <= n < |admitted| ==> admitted[n] == 0
  }

  lemma AtOnceAdmits(o: Overlap)
    requires AtOnce(o.burst.readings, o.State().admitted) && |o.State().admitted| < o.burst.threshold
    ensures Admits(o, 0)
    ensures AtOnce(o.burst.readings + [0], o.State().admitted + [0])
  {
    OrderedAppend(o.burst.readings, 0);
    CountSkips(o.State().admitted, 0, -TotpBurst.WINDOW, 0);
  }

  // The same at one reading, within the burst limit, and before the session store blocks.
  method FailAtOnce(totpMax: nat, maxAttempts: nat, blockDuration: int) returns (o: Overlap)
    requires 0 < totpMax
    ensures fresh(o) && fresh(o.burst) && o.Valid() && o.burst.threshold == Max(5, 2 * totpMax)
    ensures AtOnce(o.burst.readings, o.State().admitted) && Prepared(o, Min(totpMax, Max(1, maxAttempts)) - 1)
    ensures o.totpMax == totpMax && o.maxAttempts == maxAttempts && o.blockDuration == blockDuration
    ensures o.handlers == map[] && o.peak == 1 && InTime(o, 0)
    ensures |o.failed| == |o.State().admitted| == Min(totpMax, Max(1, maxAttempts)) - 1
  {
    var burst := new TotpBurst.TotpBurst(totpMax);
    o := new Overlap(0, maxAttempts, blockDuration, totpMax, 7, burst);
    Ask(o, 0, 0);
    for i := 0 to Min(totpMax, Max(1, maxAttempts)) - 1
      invariant fresh(o) && fresh(o.burst) && o.Valid() && Prepared(o, i) && InTime(o, 0)
      invariant AtOnce(o.burst.readings, o.State().admitted)
      invariant o.handlers == map[] && o.peak == 1 && |o.failed| == |o.State().admitted| == i
    {
      AtOnceAdmits(o);
      OneFailure(o, 0);
    }
  }

  method Gather(o: Overlap, overlap: nat)
    requires o.Valid() && o.handlers == map[]
    modifies o
    ensures o.Valid() && o.Current() == old(o.Current()) && o.failed == old(o.failed)
    ensures o.peak == Max(old(o.peak), overlap) && o.watch == old(o.watch)
    ensures forall h: nat :: h < overlap ==> h in o.handlers && o.handlers[h].Arrived?
  {
    for i := 0 to overlap
      invariant o.Valid() && o.Current() == old(o.Current()) && o.failed == old(o.failed)
      invariant |o.handlers| == i && o.peak == Max(old(o.peak), i) && o.watch == old(o.watch)
      invariant forall h: nat :: h in o.handlers <==> h < i
      invariant forall h :: h in o.handlers ==> o.handlers[h].Arrived?
    {
      Join(o, i);
    }
  }

  method Join(o: Overlap, h: HandlerId)
    requires o.Valid() && h !in o.handlers
    modifies o
    ensures o.Valid() && o.Current() == old(o.Current()) && o.failed == old(o.failed)
    ensures o.handlers == old(o.handlers)[h := Arrived] && o.watch == old(o.watch)
    ensures |o.handlers| == |old(o.handlers)| + 1 && o.peak == Max(old(o.peak), |o.handlers|)
  {
    ghost var before := o.handlers;
    o.Arrive(h, false);
    assert o.handlers.Keys == before.Keys + {h};
  }

  // The first of those who have arrived proceed, at reading 0.
  method ProceedAtOnce(o: Overlap, count: nat)
    requires o.Valid() && AtOnce(o.burst.readings, o.State().admitted) && Prepared(o, o.Current().attempts)
    requires |o.State().admitted| + count <= o.burst.threshold && InTime(o, 0)
    requires forall h: nat :: h < count ==> h in o.handlers && o.handlers[h].Arrived?
    modifies o, o.burst
    ensures o.Valid() && AtOnce(o.burst.readings, o.State().admitted)
    ensures o.failed == old(o.failed) && o.peak == old(o.peak) && InTime(o, 0)
    ensures forall h: nat :: h < count ==> h in o.handlers && o.handlers[h].Checking?
  {
    for i := 0 to count
      invariant o.Valid() && AtOnce(o.burst.readings, o.State().admitted) && o.Current() == old(o.Current())
      invariant o.failed == old(o.failed) && o.peak == old(o.peak) && InTime(o, 0)
      invariant |o.State().admitted| == |old(o.State()).admitted| + i
      invariant forall h: nat :: h < i ==> h in o.handlers && o.handlers[h].Checking?
      invariant forall h: nat :: i <= h < count ==> h in o.handlers && o.handlers[h].Arrived?
    {
      AtOnceAdmits(o);
      Proceed(o, i, 0);
    }
  }

  // And so are the bounds for one minute, for all limits and configurations: of `overlap`
  // messages as many fail, all admitted at one reading, as the session store, the limit of
  // attempts and the burst limit allow together.
  method MinuteBoundIsReached(totpMax: nat, overlap: nat, maxAttempts: nat, blockDuration: int)
    returns (o: Overlap)
    requires 0 < totpMax && overlap > 0
    ensures fresh(o) && o.Valid() && o.totpMax == totpMax && o.peak == overlap
    ensures o.burst.threshold == Max(5, 2 * totpMax)
    ensures o.maxAttempts == maxAttempts && o.blockDuration == blockDuration
    ensures Ordered(o.burst.readings) && Ordered(o.watch.moments)
    ensures forall span: nat :: |FailedIn(o.State(), 0, span)|
                                == Min(Min(totpMax, Max(1, maxAttempts)) - 1 + overlap, o.burst.threshold)
  {
    o := FailAtOnce(totpMax, maxAttempts, blockDuration);
    Gather(o, overlap);
    var count: nat := Min(overlap, o.burst.threshold - (Min(totpMax, Max(1, maxAttempts)) - 1));
    ProceedAtOnce(o, count);
    FailAll(o, count, 0);
    assert Coherent(o.State(), o.totpMax);
    forall span: nat ensures FailedIn(o.State(), 0, span) == o.failed {}
  }
}
