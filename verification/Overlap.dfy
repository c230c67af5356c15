// One user's two-factor messages as they really run: handlers overlap, and only their
// single accesses to the session are atomic.  Each method is one such access; a run is
// any interleaving of them, with the removal of the session (by cleanup or eviction) in
// between.  What `TwoFactor` says of whole messages then holds in the forms below.
module Overlap {
  import opened Common
  import opened SlidingWindow
  import opened Sessions
  import opened OverlapWorld
  import opened OverlapMinute
  import TotpBurst

  ghost predicate Fine(w: World, v: Watch, totpMax: nat, maxAttempts: nat, blockDuration: int) {
    Sound(w, totpMax) && Watchful(w, v, maxAttempts, blockDuration)
  }

  // A failure is counted at the latest reading.
  function AfterCount(w: World, h: HandlerId, s: Session): World
    requires h in w.handlers && w.handlers[h].Failing?
  {
    w.(session := s, handlers := w.handlers - {h}, failures := w.failures + 1, failed := FailedAfter(w, h))
  }

  lemma CountsFailures(w: World, h: HandlerId, totpMax: nat)
    requires Sound(w, totpMax)
    ensures w.session.attempts == w.failures && OwnSlot(w, h)
  {
    assert Coherent(w, totpMax);
  }

  lemma AddsMine(w: World, h: HandlerId, s: Session)
    requires h in w.handlers && w.handlers[h].Failing?
    ensures CountsOne(w, AfterCount(w, h, s), h, Mine(w, h))
  {
  }

  lemma CountIsFine(w: World, h: HandlerId, v: Watch, totpMax: nat, maxAttempts: nat, blockDuration: int)
    requires Fine(w, v, totpMax, maxAttempts, blockDuration) && h in w.handlers && w.handlers[h].Failing?
    requires v.moments != []
    ensures Fine(AfterCount(w, h, SessionStore.Failed(w.session, maxAttempts, blockDuration, Last(v))),
                 AfterFailure(w, h, v, maxAttempts), totpMax, maxAttempts, blockDuration)
  {
    var s := SessionStore.Failed(w.session, maxAttempts, blockDuration, Last(v));
    CountsFailures(w, h, totpMax);
    AddsMine(w, h, s);
    FailureKeeps(w, h, s, totpMax);
    FailureKeepsWatch(w, AfterCount(w, h, s), h, v, maxAttempts, blockDuration);
  }

  lemma AdmissionIsFine(w: World, h: HandlerId, v: Watch, totpMax: nat, maxAttempts: nat, blockDuration: int)
    requires Fine(w, v, totpMax, maxAttempts, blockDuration) && h in w.handlers && w.handlers[h].Guarding?
    requires w.handlers[h].attempts < totpMax && v.moments != []
    requires w.handlers[h].until.Some? ==> w.handlers[h].until.value <= Last(v)
    ensures Fine(w.(handlers := w.handlers[h := Checking(w.handlers[h].attempts)], admitted := w.admitted + [Last(v)],
                    slots := w.slots[h := |w.admitted|]), v, totpMax, maxAttempts, blockDuration)
  {
    CheckKeeps(w, h, Last(v), totpMax);
    AdmissionKeepsWatch(w, h, v, maxAttempts, blockDuration, w.handlers[h].attempts);
  }

  lemma ResetIsFine(w: World, s: Session, v: Watch, totpMax: nat, maxAttempts: nat, blockDuration: int)
    requires Fine(w, v, totpMax, maxAttempts, blockDuration) && s.attempts == 0
    requires s == NEW_SESSION || MayWrite(w, s.(attempts := w.session.attempts))
    ensures Fine(w.(session := s, failures := 0, failed := {}), NewEpoch(v), totpMax, maxAttempts, blockDuration)
  {
    RestartKeeps(w, s, totpMax);
    ResetKeeps(w, w.(session := s, failures := 0, failed := {}), 0, v, maxAttempts, blockDuration);
  }

  lemma VerdictIsFine(w: World, h: HandlerId, now: Time, v: Watch, totpMax: nat, maxAttempts: nat, blockDuration: int)
    requires Fine(w, v, totpMax, maxAttempts, blockDuration) && h in w.handlers && w.handlers[h].Checking?
    requires w.readings != [] && w.readings[|w.readings| - 1] == now
    ensures Fine(w.(handlers := w.handlers[h := Verified(now)], verified := w.verified + [now]), v, totpMax,
                 maxAttempts, blockDuration)
  {
    var w' := w.(handlers := w.handlers[h := Verified(now)], verified := w.verified + [now]);
    VerifyKeeps(w, h, now, totpMax);
    assert w'.handlers.Keys == w.handlers.Keys;
    PlainKeeps(w, w', h, v, maxAttempts, blockDuration);
  }

  lemma LoginIsFine(w: World, h: HandlerId, now: Time, v: Watch, totpMax: nat, maxAttempts: nat, blockDuration: int)
    requires Fine(w, v, totpMax, maxAttempts, blockDuration) && h in w.handlers && w.handlers[h].Entering?
    requires w.readings != [] && w.readings[|w.readings| - 1] == now
    ensures Fine(w.(session := w.session.(login := Some(now)), handlers := w.handlers - {h}, logins := w.logins + 1), v,
                 totpMax, maxAttempts, blockDuration)
  {
    var w' := w.(session := w.session.(login := Some(now)), handlers := w.handlers - {h}, logins := w.logins + 1);
    LoginKeeps(w, h, now, totpMax);
    assert w'.handlers.Keys == w.handlers.Keys - {h};
    PlainKeeps(w, w', h, v, maxAttempts, blockDuration);
  }

  class Overlap {
    const timeout: int
    const maxAttempts: nat
    const blockDuration: int
    const totpMax: nat
    // This user, and the burst limit of all users.
    const user: UserId
    const burst: TotpBurst.TotpBurst
    var session: Option<Session>
    var handlers: map<HandlerId, Stage>
    ghost var failures: nat
    ghost var failed: set<nat>
    ghost var peak: nat
    ghost var verified: seq<Time>
    ghost var logins: nat
    ghost var readings: seq<Time>
    ghost var slots: map<HandlerId, nat>
    // All clock readings, and what they say of blocks and tickets.
    ghost var watch: Watch

    ghost function State(): World
      reads this, burst
    {
      World(Current(), handlers, failures, failed, peak, verified, logins, readings,
            Lookup(burst.admitted, user, []), slots)
    }

    ghost predicate Valid()
      reads this, burst
    {
      burst.Valid() && Fine(State(), watch, totpMax, maxAttempts, blockDuration)
    }

    // Whoever looks at a session that is not there creates a new one.
    function Current(): Session
      reads this`session
    {
      if session.Some? then session.value else NEW_SESSION
    }

    constructor (timeout: int, maxAttempts: nat, blockDuration: int, totpMax: nat, user: UserId,
                 burst: TotpBurst.TotpBurst)
      requires burst.Valid()
      ensures Valid() && session == None && watch.moments == []
      ensures State() == World(NEW_SESSION, map[], 0, {}, 1, [], 0, [], Lookup(burst.admitted, user, []), map[])
      ensures this.timeout == timeout && this.maxAttempts == maxAttempts && this.blockDuration == blockDuration
      ensures this.totpMax == totpMax && this.user == user && this.burst == burst
    {
      this.timeout, this.maxAttempts, this.blockDuration, this.totpMax := timeout, maxAttempts, blockDuration, totpMax;
      this.user, this.burst := user, burst;
      session, handlers := None, map[];
      failures, failed, peak, verified, logins, readings, slots := 0, {}, 1, [], 0, [], map[];
      watch := Watch([], [], map[], {}, map[], map[]);
      new;
      assert Undecided(handlers, totpMax) == {} && LoggingIn(handlers) == {};
    }

    // A reading of the clock.
    ghost method Tick(now: Time)
      requires Valid()
      modifies this`watch
      ensures Valid() && watch == At(old(watch), now) && State() == old(State())
    {
      TickKeeps(State(), watch, maxAttempts, blockDuration, now);
      watch := At(watch, now);
    }

    method Go(h: HandlerId, stage: Stage)
      requires Valid() && MayGo(State(), h, stage, totpMax)
      requires TicketOf(stage) == NoTicket || TicketOf(stage) == TicketOf(handlers[h])
      modifies this`handlers
      ensures Valid() && State() == old(State()).(handlers := old(handlers)[h := stage])
    {
      ghost var w := State();
      ghost var w' := w.(handlers := handlers[h := stage]);
      GoKeeps(w, h, stage, totpMax);
      assert w'.handlers.Keys == w.handlers.Keys;
      PlainKeeps(w, w', h, watch, maxAttempts, blockDuration);
      handlers := handlers[h := stage];
      assert State() == w';
    }

    method Leave(h: HandlerId)
      requires Valid() && h in handlers && !LogsIn(handlers[h])
      requires IsBlocking(handlers[h]) ==> !Endless(Current())
      modifies this`handlers
      ensures Valid() && State() == old(State()).(handlers := old(handlers) - {h})
    {
      ghost var w := State();
      ghost var w' := w.(handlers := handlers - {h});
      LeaveKeeps(w, h, totpMax);
      assert w'.handlers.Keys == w.handlers.Keys - {h};
      PlainKeeps(w, w', h, watch, maxAttempts, blockDuration);
      handlers := handlers - {h};
      assert State() == w';
    }

    // Writing to the session, created if there is none.
    method Write(s: Session)
      requires Valid() && MayWrite(State(), s)
      requires MINUTE <= blockDuration ==> UntilKept(Current().blockedUntil, s.blockedUntil, Last(watch))
      modifies this`session
      ensures Valid() && session == Some(s) && State() == old(State()).(session := s)
    {
      ghost var w := State();
      WriteKeeps(w, s, totpMax);
      PlainKeeps(w, w.(session := s), 0, watch, maxAttempts, blockDuration);
      session := Some(s);
      assert State() == w.(session := s);
    }

    // A new message, asking for a code or bringing one.
    method Arrive(h: HandlerId, asks: bool)
      requires Valid() && h !in handlers
      modifies this`handlers, this`peak
      ensures Valid()
      ensures var after := old(handlers)[h := if asks then Asked else Arrived];
              State() == old(State()).(handlers := after, peak := Max(old(peak), |after|))
    {
      var stage := if asks then Asked else Arrived;
      ghost var w := State();
      ghost var w' := w.(handlers := handlers[h := stage], peak := Max(peak, |handlers[h := stage]|));
      ArriveKeeps(w, h, stage, totpMax);
      PlainKeeps(w, w', h, watch, maxAttempts, blockDuration);
      handlers := handlers[h := stage];
      peak := Max(peak, |handlers|);
      assert State() == w';
    }

    // The session is removed, because it expired or to make room.
    method Remove()
      requires Valid()
      modifies this`session, this`failures, this`failed, this`watch
      ensures Valid() && session == None && watch.moments == old(watch.moments)
      ensures State() == old(State()).(session := NEW_SESSION, failures := 0, failed := {})
    {
      ghost var w := State();
      ghost var w' := w.(session := NEW_SESSION, failures := 0, failed := {});
      ResetIsFine(w, NEW_SESSION, watch, totpMax, maxAttempts, blockDuration);
      session, failures, failed, watch := None, 0, {}, NewEpoch(watch);
      assert State() == w';
    }

    // Asking for a code: first the block is looked at, and lifted if it is over ...
    method AskIfBlocked(h: HandlerId, now: Time) returns (blocked: bool)
      requires Valid() && h in handlers && handlers[h].Asked?
      modifies this`session, this`handlers, this`watch
      ensures watch == At(old(watch), now)
      ensures Valid() && (blocked <==> old(Current()).blockedUntil.Some? && now <= old(Current()).blockedUntil.value)
      ensures Unblocks(old(Current()), Current(), now)
      ensures State() == old(State()).(session := AutoUnblocked(old(Current()), now),
                handlers := if blocked then old(handlers) - {h} else old(handlers)[h := Granted])
    {
      blocked := IsBlockedNow(Current(), now);
      Tick(now);
      Write(AutoUnblocked(Current(), now));
      if blocked { Leave(h); } else { Go(h, Granted); }
    }

    // ... and then the session is processing, whatever happened in between.
    method StartProcessing(h: HandlerId)
      requires Valid() && h in handlers && handlers[h].Granted?
      modifies this`session, this`handlers
      ensures Valid()
      ensures State() == old(State()).(session := old(Current()).(state := Processing), handlers := old(handlers) - {h})
    {
      Write(Current().(state := Processing));
      Leave(h);
    }

    // A code message: ignored unless the session is processing.
    method ReadState(h: HandlerId, wellFormed: bool)
      requires Valid() && h in handlers && handlers[h].Arrived?
      modifies this`session, this`handlers
      ensures Valid()
      ensures State() == old(State()).(handlers :=
                if !old(Current()).state.Processing? then old(handlers) - {h}
                else old(handlers)[h := if wellFormed then BlockToRead else Failing(None)])
    {
      Write(Current());
      if !Current().state.Processing? {
        Leave(h);
      } else if wellFormed {
        Go(h, BlockToRead);
      } else {
        Go(h, Failing(None));
      }
    }

    method ReadBlock(h: HandlerId)
      requires Valid() && h in handlers && handlers[h].BlockToRead?
      modifies this`session, this`handlers, this`watch
      ensures Valid() && watch.moments == old(watch.moments)
      ensures State() == old(State()).(handlers := old(handlers)[h := AttemptsToRead(old(Current()).blockedUntil)])
    {
      Write(Current());
      ghost var w := State();
      GoKeeps(w, h, AttemptsToRead(w.session.blockedUntil), totpMax);
      TicketKeeps(w, h, watch, maxAttempts, blockDuration);
      watch := watch.(seen := watch.seen[h := |watch.blocks|]);
      handlers := handlers[h := AttemptsToRead(Current().blockedUntil)];
      assert State() == w.(handlers := w.handlers[h := AttemptsToRead(w.session.blockedUntil)]);
    }

    method ReadAttempts(h: HandlerId)
      requires Valid() && h in handlers && handlers[h].AttemptsToRead?
      modifies this`session, this`handlers
      ensures Valid()
      ensures State() == old(State()).(handlers :=
                old(handlers)[h := Guarding(old(handlers)[h].until, old(Current()).attempts)])
    {
      Write(Current());
      assert Coherent(State(), totpMax);
      Go(h, Guarding(handlers[h].until, Current().attempts));
    }

    // The guards, in their order, on what was read; the burst limit is asked in any case,
    // and refuses exactly when the admitted attempts fill the closed minute that ends now.
    method Guard(h: HandlerId, now: Time) returns (refused: bool)
      requires Valid() && h in handlers && handlers[h].Guarding?
      modifies this`handlers, this`slots, this`watch, burst
      ensures Valid() && watch == At(old(watch), now)
      ensures burst.readings == old(burst.readings) + [now]
      ensures Ordered(burst.readings) ==>
                (refused <==> CountIn(old(State()).admitted, now - 60, now) >= burst.threshold)
      ensures State() == AfterGuard(old(State()), h, refused, now)
      ensures State().admitted == old(State()).admitted + if refused then [] else [now]
      ensures var g := old(handlers)[h];
              if g.until.Some? && now < g.until.value then handlers == old(handlers) - {h}
              else if refused then handlers == old(handlers)[h := Limited]
              else if g.attempts >= totpMax then handlers == old(handlers)[h := Exhausted]
              else handlers == old(handlers)[h := Checking(g.attempts)]
                   && slots == old(slots)[h := |old(State()).admitted|]
    {
      Tick(now);
      ghost var w := State();
      refused := burst.Consume(user, now);
      var g := handlers[h];
      if g.until.Some? && now < g.until.value {
        AfterConsume(w, refused, now);
        Leave(h);
      } else if refused {
        AfterConsume(w, refused, now);
        Go(h, Limited);
      } else if g.attempts >= totpMax {
        AfterConsume(w, refused, now);
        Go(h, Exhausted);
      } else {
        StartCheck(h, now, w);
      }
    }

    method StartCheck(h: HandlerId, now: Time, ghost w: World)
      requires burst.Valid() && Fine(w, watch, totpMax, maxAttempts, blockDuration)
      requires State() == w.(admitted := w.admitted + [now]) && watch.moments != [] && Last(watch) == now
      requires h in w.handlers && w.handlers[h].Guarding? && w.handlers[h].attempts < totpMax
      requires w.handlers[h].until.Some? ==> w.handlers[h].until.value <= now
      modifies this`handlers, this`slots
      ensures Valid() && State() == AfterGuard(w, h, false, now)
    {
      AdmissionIsFine(w, h, watch, totpMax, maxAttempts, blockDuration);
      slots := slots[h := |w.admitted|];
      handlers := handlers[h := Checking(handlers[h].attempts)];
      assert State() == AfterGuard(w, h, false, now);
    }

    lemma AfterConsume(w: World, refused: bool, now: Time)
      requires burst.Valid() && Fine(w, watch, totpMax, maxAttempts, blockDuration)
      requires State() == w.(admitted := w.admitted + if refused then [] else [now])
      ensures Valid()
    {
      if refused { assert w.admitted + [] == w.admitted; } else { AdmissionKeeps(w, now, totpMax); }
      PlainKeeps(w, State(), 0, watch, maxAttempts, blockDuration);
    }

    // A check notes the number of its admission.
    ghost function AfterGuard(w: World, h: HandlerId, refused: bool, now: Time): World
      requires h in w.handlers && w.handlers[h].Guarding?
    {
      var g := w.handlers[h];
      var admitted := w.admitted + if refused then [] else [now];
      if g.until.Some? && now < g.until.value then w.(admitted := admitted, handlers := w.handlers - {h})
      else if refused then w.(admitted := admitted, handlers := w.handlers[h := Limited])
      else if g.attempts >= totpMax then w.(admitted := admitted, handlers := w.handlers[h := Exhausted])
      else w.(admitted := admitted, handlers := w.handlers[h := Checking(g.attempts)],
              slots := w.slots[h := |w.admitted|])
    }

    // An attempt of another user meanwhile.
    method OtherAttempt(other: UserId, now: Time) returns (refused: bool)
      requires Valid() && other != user
      modifies burst
      ensures Valid() && State() == old(State())
    {
      refused := burst.Consume(other, now);
      assert State() == old(State());
    }

    // A message beyond the burst limit blocks for a minute.
    method BlockForAMinute(h: HandlerId, now: Time)
      requires Valid() && h in handlers && handlers[h].Limited?
      modifies this`session, this`handlers, this`watch
      ensures Valid() && watch == At(old(watch), now)
      ensures State() == old(State()).(
                session := old(Current()).(state := Blocked, blockedUntil := Some(now + 60)),
                handlers := old(handlers) - {h})
    {
      Tick(now);
      Write(SessionStore.BlockedFrom(Current(), now + 60));
      Leave(h);
    }

    // Too many attempts: blocked, reset, and given an end of the block, one by one.
    method EnterBlocked(h: HandlerId)
      requires Valid() && h in handlers && handlers[h].Exhausted?
      modifies this`session, this`handlers
      ensures Valid()
      ensures State() == old(State()).(session := old(Current()).(state := Blocked),
                                       handlers := old(handlers)[h := Resetting])
    {
      Go(h, Resetting);
      assert h in handlers && IsBlocking(handlers[h]);
      Write(Current().(state := Blocked));
    }

    method ResetAttempts(h: HandlerId)
      requires Valid() && h in handlers && handlers[h].Resetting?
      modifies this`session, this`handlers, this`failures, this`failed, this`watch
      ensures Valid() && watch.moments == old(watch.moments)
      ensures State() == old(State()).(session := old(Current()).(attempts := 0), failures := 0, failed := {},
                                       handlers := old(handlers)[h := Blocking])
    {
      Go(h, Blocking);
      ghost var w := State();
      ghost var w' := w.(session := w.session.(attempts := 0), failures := 0, failed := {});
      ResetIsFine(w, w'.session, watch, totpMax, maxAttempts, blockDuration);
      session, failures, failed, watch := Some(Current().(attempts := 0)), 0, {}, NewEpoch(watch);
      assert State() == w';
    }

    method EndBlocking(h: HandlerId, now: Time)
      requires Valid() && h in handlers && handlers[h].Blocking?
      modifies this`session, this`handlers, this`watch
      ensures Valid() && watch == At(old(watch), now)
      ensures State() == old(State()).(
                session := old(Current()).(state := Blocked, blockedUntil := Some(now + blockDuration)),
                handlers := old(handlers) - {h})
    {
      Tick(now);
      Write(SessionStore.BlockedFrom(Current(), now + blockDuration));
      Leave(h);
    }

    // A failure is counted, and blocks from `maxAttempts` on.
    method CountFailure(h: HandlerId, now: Time)
      requires Valid() && h in handlers && handlers[h].Failing?
      modifies this`session, this`handlers, this`failures, this`failed, this`watch
      ensures Valid() && watch.moments == old(watch.moments) + [now]
      ensures State() == old(State()).(session := SessionStore.Failed(old(Current()), maxAttempts, blockDuration, now),
                handlers := old(handlers) - {h}, failures := old(failures) + 1, failed := old(FailedAfter(State(), h)))
      ensures var s, count := old(Current()), old(Current()).attempts + 1;
              Current() == if count >= maxAttempts then Session(Blocked, count, Some(now + blockDuration), s.login)
                           else s.(attempts := count)
    {
      var s := SessionStore.Failed(Current(), maxAttempts, blockDuration, now);
      Tick(now);
      ghost var w := State();
      CountIsFine(w, h, watch, totpMax, maxAttempts, blockDuration);
      watch := AfterFailure(w, h, watch, maxAttempts);
      session, failures, failed, handlers := Some(s), failures + 1, FailedAfter(w, h), handlers - {h};
      assert State() == AfterCount(w, h, s);
    }

    ghost method Read(now: Time)
      requires Valid()
      modifies this`readings, this`watch
      ensures Valid() && State() == old(State()).(readings := old(readings) + [now])
      ensures watch == At(old(watch), now)
    {
      Tick(now);
      ghost var w := State();
      ReadKeeps(w, now, totpMax);
      PlainKeeps(w, w.(readings := readings + [now]), 0, watch, maxAttempts, blockDuration);
      readings := readings + [now];
      assert State() == w.(readings := w.readings + [now]);
    }

    // The check itself.
    method Check(h: HandlerId, verdict: Verdict, now: Time)
      requires Valid() && h in handlers && handlers[h].Checking?
      modifies this`handlers, this`verified, this`readings, this`watch
      ensures Valid() && watch == At(old(watch), now)
      ensures State() == old(State()).(
                readings := old(readings) + [now],
                verified := old(verified) + if verdict.Good? then [now] else [],
                handlers := match verdict
                            case Good => old(handlers)[h := Verified(now)]
                            case Bad => old(handlers)[h := Failing(Some(old(handlers)[h].attempts))]
                            case Raises => old(handlers) - {h})
    {
      Read(now);
      match verdict
      case Raises =>
        Leave(h);
      case Bad =>
        assert Coherent(State(), totpMax) && Fits(handlers[h], totpMax);
        Go(h, Failing(Some(handlers[h].attempts)));
      case Good =>
        ghost var w := State();
        VerdictIsFine(w, h, now, watch, totpMax, maxAttempts, blockDuration);
        handlers, verified := handlers[h := Verified(now)], verified + [now];
        assert State() == w.(handlers := w.handlers[h := Verified(now)], verified := w.verified + [now]);
    }

    // Logging in: first the state, then the time.
    method EnterAuthenticated(h: HandlerId)
      requires Valid() && h in handlers && handlers[h].Verified?
      modifies this`session, this`handlers
      ensures Valid()
      ensures State() == old(State()).(session := old(Current()).(state := Authenticated),
                                       handlers := old(handlers)[h := Entering(old(handlers)[h].at)])
    {
      assert h in handlers && LogsIn(handlers[h]);
      Write(Current().(state := Authenticated));
      Go(h, Entering(handlers[h].at));
    }

    method NoteLogin(h: HandlerId, now: Time)
      requires Valid() && h in handlers && handlers[h].Entering?
      modifies this`session, this`handlers, this`logins, this`readings, this`watch
      ensures Valid() && watch == At(old(watch), now)
      ensures State() == old(State()).(session := old(Current()).(login := Some(now)), handlers := old(handlers) - {h},
                                       logins := old(logins) + 1, readings := old(readings) + [now])
    {
      Read(now);
      ghost var w := State();
      LoginIsFine(w, h, now, watch, totpMax, maxAttempts, blockDuration);
      session, handlers, logins := Some(Current().(login := Some(now))), handlers - {h}, logins + 1;
      assert State() == w.(session := w.session.(login := Some(now)), handlers := w.handlers - {h},
                           logins := w.logins + 1);
    }

    // Whoever is authenticated has logged in no longer ago than the timeout, and that
    // log-in came after a successful check of the user.
    method IsAuthenticated(now: Time) returns (authenticated: bool)
      requires Valid()
      modifies this`session, this`watch
      ensures watch == At(old(watch), now)
      ensures Valid() && State() == old(State()).(session := AutoUnblocked(old(Current()), now))
      ensures Unblocks(old(Current()), Current(), now)
      ensures var s := old(Current());
              authenticated <==>
                && s.state.Authenticated? && (s.blockedUntil.Some? ==> s.blockedUntil.value < now)
                && s.login.Some? && now <= s.login.value + timeout
      ensures authenticated && Ordered(readings) ==>
                Current().login.Some? && now <= Current().login.value + timeout
                && exists v :: v in verified && v <= Current().login.value
    {
      var s := Current();
      assert Coherent(State(), totpMax);
      Tick(now);
      Write(AutoUnblocked(s, now));
      return s.state.Authenticated? && !IsBlockedNow(s, now) && !IsExpired(s, timeout, now);
    }

    // Of the checks admitted within a minute, if the store blocks for a minute or more and all
    // readings came in order, fewer fail than the attempts the store allows plus the overlap.
    lemma FewPerMinute(start: Time)
      requires Valid() && 60 <= blockDuration && Ordered(watch.moments)
      ensures |FailedIn(State(), start, start + 59)| < Max(1, maxAttempts) + peak
    {
      assert Coherent(State(), totpMax);
      assert Watched(State(), watch, maxAttempts);
      FewInMinute(State(), watch, maxAttempts, start);
    }

    // In every reachable state: between two resets fewer checked codes fail than the limit
    // plus the largest number of overlapping messages (without overlap at most `totpMax`),
    // and of those admitted in one closed minute, less what readings were late by, no more
    // than the burst limit allows; of those admitted within a minute, if the store blocks for
    // a minute or more and all readings were in order, fewer than the attempts the store
    // allows plus the overlap.  The counter counts.  Every log-in has a successful check of
    // its own.  Every block has an end once the blocking handlers are done.
    lemma OverlapIsSafe(start: Time, late: nat)
      requires Valid()
      ensures |failed| < totpMax + peak && |failed| <= failures == Current().attempts
      ensures LateBy(burst.readings, late) ==>
                |FailedIn(State(), start, start + 60 - late)| <= Min(totpMax + peak - 1, burst.threshold)
      ensures 60 <= blockDuration && Ordered(watch.moments) ==>
                |FailedIn(State(), start, start + 59)| < Max(1, maxAttempts) + peak
      ensures logins <= |verified|
      ensures (forall h :: h in handlers ==> !LogsIn(handlers[h])) ==> logins == |verified|
      ensures (forall h :: h in handlers ==> !IsBlocking(handlers[h])) ==> !Endless(Current())
    {
      assert Coherent(State(), totpMax);
      if forall h :: h in handlers ==> !LogsIn(handlers[h]) { assert LoggingIn(handlers) == {}; }
      if MINUTE <= blockDuration && Ordered(watch.moments) { FewPerMinute(start); }
      FailedFit(State(), start, start + TotpBurst.WINDOW - late);
      if LateBy(burst.readings, late) { burst.WindowHoldsAtMostThreshold(user, start, late); }
    }
  }
}
