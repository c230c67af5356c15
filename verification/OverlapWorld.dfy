// Where the overlapping handlers of one user stand, and what each of their steps keeps:
// the invariants behind the runs of `Overlap`.
module OverlapWorld {
  import opened Common
  import opened SlidingWindow
  import opened Sessions

  type HandlerId = nat

  // Where a handler stands.  A code message reads the state, the block, the attempts,
  // passes the guards, is checked, and then logs in or counts a failure; or it blocks.
  datatype Stage =
    | Arrived
    | Asked
    | BlockToRead
    | AttemptsToRead(until: Option<Time>)
    | Guarding(until: Option<Time>, attempts: nat)
    | Checking(attempts: nat)
    | Failing(read: Option<nat>)
    | Verified(at: Time)
    | Entering(at: Time)
    | Limited
    | Exhausted
    | Resetting
    | Blocking
    | Granted

  // A check is on its way or has failed, and is not counted yet.
  predicate InFlight(stage: Stage) {
    stage.Checking? || (stage.Failing? && stage.read.Some?)
  }

  // The attempts it read before.
  function ReadBy(stage: Stage): nat
    requires InFlight(stage)
  {
    if stage.Checking? then stage.attempts else stage.read.value
  }

  // It has read fewer attempts than the limit, and may still be counted as a failed check.
  predicate MayStillFail(stage: Stage, totpMax: nat) {
    (stage.Guarding? && stage.attempts < totpMax) || (InFlight(stage) && ReadBy(stage) < totpMax)
  }

  predicate LogsIn(stage: Stage) {
    stage.Verified? || stage.Entering?
  }

  function Those(handlers: map<HandlerId, Stage>, p: Stage -> bool): set<HandlerId> {
    set h | h in handlers && p(handlers[h])
  }

  function Failers(totpMax: nat): Stage -> bool {
    stage => MayStillFail(stage, totpMax)
  }

  function Entrants(): Stage -> bool {
    stage => LogsIn(stage)
  }

  function Undecided(handlers: map<HandlerId, Stage>, totpMax: nat): set<HandlerId> {
    Those(handlers, Failers(totpMax))
  }

  function LoggingIn(handlers: map<HandlerId, Stage>): set<HandlerId> {
    Those(handlers, Entrants())
  }

  lemma OneLess(handlers: map<HandlerId, Stage>, h: HandlerId, p: Stage -> bool)
    requires h in handlers
    ensures |Those(handlers - {h}, p)| == |Those(handlers, p)| - One(p(handlers[h]))
  {
    assert Those(handlers - {h}, p) == Those(handlers, p) - {h};
  }

  lemma OneMore(handlers: map<HandlerId, Stage>, h: HandlerId, stage: Stage, p: Stage -> bool)
    requires h !in handlers
    ensures |Those(handlers[h := stage], p)| == |Those(handlers, p)| + One(p(stage))
  {
    assert Those(handlers[h := stage], p) == Those(handlers, p) + if p(stage) then {h} else {};
  }

  lemma Left(handlers: map<HandlerId, Stage>, h: HandlerId, totpMax: nat)
    requires h in handlers
    ensures |handlers - {h}| == |handlers| - 1
    ensures |Undecided(handlers - {h}, totpMax)|
            == |Undecided(handlers, totpMax)| - One(MayStillFail(handlers[h], totpMax))
    ensures |LoggingIn(handlers - {h})| == |LoggingIn(handlers)| - One(LogsIn(handlers[h]))
  {
    assert (handlers - {h}).Keys == handlers.Keys - {h};
    OneLess(handlers, h, Failers(totpMax));
    OneLess(handlers, h, Entrants());
  }

  lemma Joined(handlers: map<HandlerId, Stage>, h: HandlerId, stage: Stage, totpMax: nat)
    requires h !in handlers
    ensures |handlers[h := stage]| == |handlers| + 1
    ensures |Undecided(handlers[h := stage], totpMax)|
            == |Undecided(handlers, totpMax)| + One(MayStillFail(stage, totpMax))
    ensures |LoggingIn(handlers[h := stage])| == |LoggingIn(handlers)| + One(LogsIn(stage))
  {
    assert handlers[h := stage].Keys == handlers.Keys + {h};
    OneMore(handlers, h, stage, Failers(totpMax));
    OneMore(handlers, h, stage, Entrants());
  }

  lemma Moved(handlers: map<HandlerId, Stage>, h: HandlerId, stage: Stage, totpMax: nat)
    requires h in handlers
    ensures var after := handlers[h := stage];
            && |after| == |handlers|
            && |Undecided(after, totpMax)| == |Undecided(handlers, totpMax)|
                 - One(MayStillFail(handlers[h], totpMax)) + One(MayStillFail(stage, totpMax))
            && |LoggingIn(after)| == |LoggingIn(handlers)| - One(LogsIn(handlers[h])) + One(LogsIn(stage))
  {
    Left(handlers, h, totpMax);
    Joined(handlers - {h}, h, stage, totpMax);
    assert (handlers - {h})[h := stage] == handlers[h := stage];
  }

  lemma UndecidedAreHandlers(handlers: map<HandlerId, Stage>, totpMax: nat)
    ensures |Undecided(handlers, totpMax)| <= |handlers|
  {
    assert handlers.Keys == Undecided(handlers, totpMax) + (handlers.Keys - Undecided(handlers, totpMax));
  }

  predicate IsBlocking(stage: Stage) {
    stage.Resetting? || stage.Blocking?
  }

  // The session (a new one if there is none) and the handlers; since the session was
  // created or its counter reset, the number of failures and the admissions whose checks
  // failed; the largest number of overlapping messages so far; the times of all
  // successful checks, the number of log-ins, and the clock readings of both; the times of
  // all admissions by the burst limit, and which of them a handler's check belongs to.
  datatype World = World(session: Session, handlers: map<HandlerId, Stage>, failures: nat, failed: set<nat>, peak: nat,
                         verified: seq<Time>, logins: nat, readings: seq<Time>,
                         admitted: seq<Time>, slots: map<HandlerId, nat>)

  // What holds in every reachable state.  Unfolded only where `Coherent` is mentioned.
  ghost predicate Sound(w: World, totpMax: nat) {
    forall limit {:trigger Coherent(w, limit)} :: limit == totpMax ==> Coherent(w, limit)
  }

  ghost predicate Coherent(w: World, totpMax: nat) {
    Core(w, totpMax) && Slotted(w)
  }

  ghost predicate Core(w: World, totpMax: nat) {
    && w.session.attempts == w.failures
    && Bounded(w, totpMax) && AllFit(w.handlers, totpMax)
    && |w.verified| == w.logins + |LoggingIn(w.handlers)|
    && Known(w.handlers, w.verified)
    && Sourced(w.session, w.verified, w.readings)
    && Past(w.verified, w.readings)
    && (Endless(w.session) ==> SomeBlocking(w.handlers))
  }

  // Every check has an admission of its own.
  ghost predicate Slotted(w: World) {
    && (forall h {:trigger OwnSlot(w, h)} :: OwnSlot(w, h))
    && (forall h, h' {:trigger SlotsDiffer(w, h, h')} :: h != h' ==> SlotsDiffer(w, h, h'))
    && (forall n :: n in w.failed ==> n < |w.admitted|)
  }

  ghost predicate OwnSlot(w: World, h: HandlerId) {
    h in w.handlers && InFlight(w.handlers[h]) ==>
      h in w.slots && w.slots[h] < |w.admitted| && w.slots[h] !in w.failed
  }

  ghost predicate SlotsDiffer(w: World, h: HandlerId, h': HandlerId) {
    h in w.handlers && h' in w.handlers && InFlight(w.handlers[h]) && InFlight(w.handlers[h']) ==>
      h in w.slots && h' in w.slots && w.slots[h] != w.slots[h']
  }

  // Once the limit is reached, only those who read the counter before can add to the
  // failed checks.
  ghost predicate Bounded(w: World, totpMax: nat) {
    && |w.failed| <= w.failures
    && 1 <= w.peak && |w.handlers| <= w.peak
    && (w.failures >= totpMax ==> |w.failed| + |Undecided(w.handlers, totpMax)| < totpMax + w.peak)
  }

  ghost predicate AllFit(handlers: map<HandlerId, Stage>, totpMax: nat) {
    forall h :: h in handlers ==> Fits(handlers[h], totpMax)
  }

  predicate Fits(stage: Stage, totpMax: nat) {
    InFlight(stage) ==> ReadBy(stage) < totpMax
  }

  // Who logs in was checked.
  ghost predicate Known(handlers: map<HandlerId, Stage>, verified: seq<Time>) {
    forall h :: h in handlers && LogsIn(handlers[h]) ==> handlers[h].at in verified
  }

  // An authenticated session comes from a successful check, and no log-in precedes all
  // of them.
  ghost predicate Sourced(s: Session, verified: seq<Time>, readings: seq<Time>) {
    && (s.state.Authenticated? ==> verified != [])
    && (s.login.Some? ==> HasSource(s.login.value, verified, readings))
  }

  ghost predicate HasSource(login: Time, verified: seq<Time>, readings: seq<Time>) {
    verified != [] && (Ordered(readings) ==> exists v :: v in verified && v <= login)
  }

  ghost predicate Past(verified: seq<Time>, readings: seq<Time>) {
    Ordered(readings) ==> forall v :: v in verified ==> readings != [] && v <= readings[|readings| - 1]
  }

  // Blocked without an end of the block.
  predicate Endless(s: Session) {
    s.state.Blocked? && s.blockedUntil.None?
  }

  ghost predicate SomeBlocking(handlers: map<HandlerId, Stage>) {
    exists h :: h in handlers && IsBlocking(handlers[h])
  }

  // Some handler is still blocking after a step of another one.
  lemma BlockingStays(before: map<HandlerId, Stage>, after: map<HandlerId, Stage>, h: HandlerId)
    requires SomeBlocking(before)
    requires forall b :: b in before && b != h ==> b in after && after[b] == before[b]
    requires h in before && IsBlocking(before[h]) ==> h in after && IsBlocking(after[h])
    ensures SomeBlocking(after)
  {
    var b :| b in before && IsBlocking(before[b]);
    assert b in after && IsBlocking(after[b]);
  }

  // A step of one handler that neither admits nor counts keeps the slots.
  lemma SlotsStay(w: World, w': World, h: HandlerId)
    requires Slotted(w) && w'.admitted == w.admitted && w'.slots == w.slots && w'.failed <= w.failed
    requires forall b :: b != h ==> (b in w.handlers <==> b in w'.handlers)
    requires forall b :: b != h && b in w'.handlers ==> w'.handlers[b] == w.handlers[b]
    requires h in w'.handlers && InFlight(w'.handlers[h]) ==> h in w.handlers && InFlight(w.handlers[h])
    ensures Slotted(w')
  {
    forall b ensures OwnSlot(w', b) { assert OwnSlot(w, b); }
    forall a, b | a != b ensures SlotsDiffer(w', a, b) { assert SlotsDiffer(w, a, b); }
  }

  // A handler goes on without changing the session.
  predicate MayGo(w: World, h: HandlerId, stage: Stage, totpMax: nat) {
    && h in w.handlers && Fits(stage, totpMax)
    && (LogsIn(stage) <==> LogsIn(w.handlers[h])) && (LogsIn(stage) ==> stage.at == w.handlers[h].at)
    && (MayStillFail(stage, totpMax) ==> MayStillFail(w.handlers[h], totpMax) || w.failures < totpMax)
    && (IsBlocking(w.handlers[h]) ==> IsBlocking(stage))
    && (InFlight(stage) ==> InFlight(w.handlers[h]))
  }

  lemma GoKeeps(w: World, h: HandlerId, stage: Stage, totpMax: nat)
    requires Sound(w, totpMax) && MayGo(w, h, stage, totpMax)
    ensures Sound(w.(handlers := w.handlers[h := stage]), totpMax)
  {
    assert Coherent(w, totpMax);
    CoreGoes(w, h, stage, totpMax);
    SlotsStay(w, w.(handlers := w.handlers[h := stage]), h);
  }

  lemma CoreGoes(w: World, h: HandlerId, stage: Stage, totpMax: nat)
    requires Core(w, totpMax) && h in w.handlers && Fits(stage, totpMax)
    requires (LogsIn(stage) <==> LogsIn(w.handlers[h])) && (LogsIn(stage) ==> stage.at == w.handlers[h].at)
    requires MayStillFail(stage, totpMax) ==> MayStillFail(w.handlers[h], totpMax) || w.failures < totpMax
    requires IsBlocking(w.handlers[h]) ==> IsBlocking(stage)
    ensures Core(w.(handlers := w.handlers[h := stage]), totpMax)
  {
    Moved(w.handlers, h, stage, totpMax);
    if Endless(w.session) { BlockingStays(w.handlers, w.handlers[h := stage], h); }
  }

  // An admission by the burst limit, whatever becomes of it.
  lemma AdmissionKeeps(w: World, now: Time, totpMax: nat)
    requires Sound(w, totpMax)
    ensures Sound(w.(admitted := w.admitted + [now]), totpMax)
  {
    assert Coherent(w, totpMax);
    var w' := w.(admitted := w.admitted + [now]);
    forall h ensures OwnSlot(w', h) { assert OwnSlot(w, h); }
    forall h, h' | h != h' ensures SlotsDiffer(w', h, h') { assert SlotsDiffer(w, h, h'); }
  }

  // The admission under which a check starts.
  lemma CheckKeeps(w: World, h: HandlerId, now: Time, totpMax: nat)
    requires Sound(w, totpMax) && h in w.handlers && w.handlers[h].Guarding? && w.handlers[h].attempts < totpMax
    ensures Sound(w.(handlers := w.handlers[h := Checking(w.handlers[h].attempts)], admitted := w.admitted + [now],
                     slots := w.slots[h := |w.admitted|]), totpMax)
  {
    assert Coherent(w, totpMax);
    var stage := Checking(w.handlers[h].attempts);
    var w' := w.(handlers := w.handlers[h := stage], admitted := w.admitted + [now],
                 slots := w.slots[h := |w.admitted|]);
    CoreGoes(w, h, stage, totpMax);
    forall b ensures OwnSlot(w', b) { assert OwnSlot(w, b); }
    forall a, b | a != b ensures SlotsDiffer(w', a, b) {
      assert SlotsDiffer(w, a, b) && OwnSlot(w, a) && OwnSlot(w, b);
    }
  }

  lemma LeaveKeeps(w: World, h: HandlerId, totpMax: nat)
    requires Sound(w, totpMax) && h in w.handlers && !LogsIn(w.handlers[h])
    requires IsBlocking(w.handlers[h]) ==> !Endless(w.session)
    ensures Sound(w.(handlers := w.handlers - {h}), totpMax)
  {
    assert Coherent(w, totpMax);
    CoreLeaves(w, h, totpMax);
    SlotsStay(w, w.(handlers := w.handlers - {h}), h);
  }

  lemma CoreLeaves(w: World, h: HandlerId, totpMax: nat)
    requires Core(w, totpMax) && h in w.handlers && !LogsIn(w.handlers[h])
    requires IsBlocking(w.handlers[h]) ==> !Endless(w.session)
    ensures Core(w.(handlers := w.handlers - {h}), totpMax)
  {
    Left(w.handlers, h, totpMax);
    if Endless(w.session) { BlockingStays(w.handlers, w.handlers - {h}, h); }
  }

  // Writing neither counts nor logs in, authenticates only on behalf of a checked handler,
  // and blocks without an end only on behalf of a blocking one.
  ghost predicate MayWrite(w: World, s: Session) {
    && s.attempts == w.session.attempts && s.login == w.session.login
    && (s.state.Authenticated? ==> w.session.state.Authenticated? || SomeLoggingIn(w.handlers))
    && (Endless(s) ==> Endless(w.session) || SomeBlocking(w.handlers))
  }

  ghost predicate SomeLoggingIn(handlers: map<HandlerId, Stage>) {
    exists h :: h in handlers && LogsIn(handlers[h])
  }

  lemma WriteKeeps(w: World, s: Session, totpMax: nat)
    requires Sound(w, totpMax) && MayWrite(w, s)
    ensures Sound(w.(session := s), totpMax)
  {
    assert Coherent(w, totpMax);
    SlotsStay(w, w.(session := s), 0);
  }

  lemma ArriveKeeps(w: World, h: HandlerId, stage: Stage, totpMax: nat)
    requires Sound(w, totpMax) && h !in w.handlers && (stage.Arrived? || stage.Asked?)
    ensures var handlers := w.handlers[h := stage];
            Sound(w.(handlers := handlers, peak := Max(w.peak, |handlers|)), totpMax)
  {
    assert Coherent(w, totpMax);
    var handlers := w.handlers[h := stage];
    Joined(w.handlers, h, stage, totpMax);
    if Endless(w.session) { BlockingStays(w.handlers, handlers, h); }
    SlotsStay(w, w.(handlers := handlers, peak := Max(w.peak, |handlers|)), h);
  }

  // The counter starts again.
  lemma RestartKeeps(w: World, s: Session, totpMax: nat)
    requires Sound(w, totpMax) && s.attempts == 0
    requires s == NEW_SESSION || MayWrite(w, s.(attempts := w.session.attempts))
    ensures Sound(w.(session := s, failures := 0, failed := {}), totpMax)
  {
    assert Coherent(w, totpMax);
    assert totpMax == 0 ==> Undecided(w.handlers, totpMax) == {};
    SlotsStay(w, w.(session := s, failures := 0, failed := {}), 0);
  }

  // The admissions of failed checks after a failure of this handler.
  function FailedAfter(w: World, h: HandlerId): set<nat>
    requires h in w.handlers && w.handlers[h].Failing?
  {
    w.failed + if w.handlers[h].read.Some? && h in w.slots then {w.slots[h]} else {}
  }

  // There is room for one more failure of a handler that leaves.
  lemma FailureKeeps(w: World, h: HandlerId, s: Session, totpMax: nat)
    requires Sound(w, totpMax) && h in w.handlers && w.handlers[h].Failing?
    requires s.attempts == w.session.attempts + 1 && s.login == w.session.login
    requires (s.state == w.session.state && s.blockedUntil == w.session.blockedUntil)
             || (s.state.Blocked? && s.blockedUntil.Some?)
    ensures Sound(w.(session := s, handlers := w.handlers - {h}, failures := w.failures + 1,
                     failed := FailedAfter(w, h)), totpMax)
  {
    assert Coherent(w, totpMax);
    var w' := w.(session := s, handlers := w.handlers - {h}, failures := w.failures + 1, failed := FailedAfter(w, h));
    assert OwnSlot(w, h);
    CoreFails(w, h, s, totpMax);
    forall b ensures OwnSlot(w', b) { assert OwnSlot(w, b) && (b != h ==> SlotsDiffer(w, h, b)); }
    forall a, b | a != b ensures SlotsDiffer(w', a, b) { assert SlotsDiffer(w, a, b); }
  }

  lemma CoreFails(w: World, h: HandlerId, s: Session, totpMax: nat)
    requires Core(w, totpMax) && h in w.handlers && w.handlers[h].Failing? && OwnSlot(w, h)
    requires s.attempts == w.session.attempts + 1 && s.login == w.session.login
    requires (s.state == w.session.state && s.blockedUntil == w.session.blockedUntil)
             || (s.state.Blocked? && s.blockedUntil.Some?)
    ensures Core(w.(session := s, handlers := w.handlers - {h}, failures := w.failures + 1,
                    failed := FailedAfter(w, h)), totpMax)
  {
    assert Fits(w.handlers[h], totpMax);
    CoreLeaves(w, h, totpMax);
    BoundedFails(w, h, totpMax);
  }

  lemma BoundedFails(w: World, h: HandlerId, totpMax: nat)
    requires Bounded(w, totpMax) && h in w.handlers && w.handlers[h].Failing?
    requires Fits(w.handlers[h], totpMax) && OwnSlot(w, h)
    ensures Bounded(w.(handlers := w.handlers - {h}, failures := w.failures + 1, failed := FailedAfter(w, h)), totpMax)
  {
    Left(w.handlers, h, totpMax);
    UndecidedAreHandlers(w.handlers - {h}, totpMax);
    assert |FailedAfter(w, h)| == |w.failed| + One(w.handlers[h].read.Some?);
  }

  lemma ReadKeeps(w: World, now: Time, totpMax: nat)
    requires Sound(w, totpMax)
    ensures Sound(w.(readings := w.readings + [now]), totpMax)
  {
    assert Coherent(w, totpMax);
    OrderedAppend(w.readings, now);
    SlotsStay(w, w.(readings := w.readings + [now]), 0);
  }

  // A successful check, at the latest reading.
  lemma VerifyKeeps(w: World, h: HandlerId, now: Time, totpMax: nat)
    requires Sound(w, totpMax) && h in w.handlers && w.handlers[h].Checking?
    requires w.readings != [] && w.readings[|w.readings| - 1] == now
    ensures Sound(w.(handlers := w.handlers[h := Verified(now)], verified := w.verified + [now]), totpMax)
  {
    assert Coherent(w, totpMax);
    CoreVerifies(w, h, now, totpMax);
    SlotsStay(w, w.(handlers := w.handlers[h := Verified(now)], verified := w.verified + [now]), h);
  }

  lemma CoreVerifies(w: World, h: HandlerId, now: Time, totpMax: nat)
    requires Core(w, totpMax) && h in w.handlers && w.handlers[h].Checking?
    requires w.readings != [] && w.readings[|w.readings| - 1] == now
    ensures Core(w.(handlers := w.handlers[h := Verified(now)], verified := w.verified + [now]), totpMax)
  {
    var handlers := w.handlers[h := Verified(now)];
    Moved(w.handlers, h, Verified(now), totpMax);
    if Endless(w.session) { BlockingStays(w.handlers, handlers, h); }
    if w.session.login.Some? && Ordered(w.readings) {
      var v :| v in w.verified && v <= w.session.login.value;
      assert v in w.verified + [now];
    }
  }

  // A log-in, at the latest reading.
  lemma LoginKeeps(w: World, h: HandlerId, now: Time, totpMax: nat)
    requires Sound(w, totpMax) && h in w.handlers && w.handlers[h].Entering?
    requires w.readings != [] && w.readings[|w.readings| - 1] == now
    ensures Sound(w.(session := w.session.(login := Some(now)), handlers := w.handlers - {h},
                     logins := w.logins + 1), totpMax)
  {
    assert Coherent(w, totpMax);
    CoreLogsIn(w, h, now, totpMax);
    SlotsStay(w, w.(session := w.session.(login := Some(now)), handlers := w.handlers - {h},
                    logins := w.logins + 1), h);
  }

  lemma CoreLogsIn(w: World, h: HandlerId, now: Time, totpMax: nat)
    requires Core(w, totpMax) && h in w.handlers && w.handlers[h].Entering?
    requires w.readings != [] && w.readings[|w.readings| - 1] == now
    ensures Core(w.(session := w.session.(login := Some(now)), handlers := w.handlers - {h},
                    logins := w.logins + 1), totpMax)
  {
    Left(w.handlers, h, totpMax);
    if Endless(w.session) { BlockingStays(w.handlers, w.handlers - {h}, h); }
    assert w.handlers[h].at in w.verified;
  }

  // Admissions in a closed interval are as many as their times there.
  lemma {:induction false} SlotsCount(slots: set<nat>, admitted: seq<Time>, lo: Time, hi: Time)
    requires forall n :: n in slots ==> n < |admitted| && lo <= admitted[n] <= hi
    ensures |slots| <= CountIn(admitted, lo, hi)
  {
    if admitted == [] {
      assert slots == {};
    } else {
      var last := |admitted| - 1;
      SlotsCount(slots - {last}, admitted[..last], lo, hi);
    }
  }

  // The failed checks whose admissions lie in the closed interval.
  function FailedIn(w: World, lo: Time, hi: Time): set<nat> {
    set n | n in w.failed && n < |w.admitted| && lo <= w.admitted[n] <= hi
  }

  lemma FailedFit(w: World, lo: Time, hi: Time)
    ensures |FailedIn(w, lo, hi)| <= |w.failed| && |FailedIn(w, lo, hi)| <= CountIn(w.admitted, lo, hi)
  {
    assert w.failed == FailedIn(w, lo, hi) + (w.failed - FailedIn(w, lo, hi));
    SlotsCount(FailedIn(w, lo, hi), w.admitted, lo, hi);
  }
}
