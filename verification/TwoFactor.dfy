// The two-factor handlers over the session store and the burst limit.  Every user has a
// log of everything that happened; the handlers keep the sessions equal to what the log
// says, and the theorems are read off the log.
module TwoFactor {
  import opened Common
  import opened SlidingWindow
  import opened Sessions
  import TotpBurst

  const RATE_LIMIT_BLOCK := 60

  datatype Event =
    | Verified(at: Time)
    | Requested
    | BlockedUntil(until: Time)
    | Unblocked
    | Removed
    | CodeFailed
    | BadFormat
    | CounterReset

  datatype Status = Fresh | LoggedIn(at: Time) | Asked | BlockedTill(until: Time)

  // What the latest event that concerns authentication left behind.
  function StatusOf(h: seq<Event>): Status {
    if h == [] then Fresh
    else match h[|h| - 1]
      case Verified(at) => LoggedIn(at)
      case Requested => Asked
      case BlockedUntil(until) => BlockedTill(until)
      case Unblocked => Fresh
      case Removed => Fresh
      case _ => StatusOf(h[..|h| - 1])
  }

  // Failures since the session was created or its counter reset.
  function Failures(h: seq<Event>): nat {
    if h == [] then 0
    else match h[|h| - 1]
      case CodeFailed => 1 + Failures(h[..|h| - 1])
      case BadFormat => 1 + Failures(h[..|h| - 1])
      case CounterReset => 0
      case Removed => 0
      case _ => Failures(h[..|h| - 1])
  }

  // Those of them where a well-formed code was checked.
  function CodeFailures(h: seq<Event>): nat {
    if h == [] then 0
    else match h[|h| - 1]
      case CodeFailed => 1 + CodeFailures(h[..|h| - 1])
      case CounterReset => 0
      case Removed => 0
      case _ => CodeFailures(h[..|h| - 1])
  }

  // A session is what its user's log says; in particular a blocked time is set exactly
  // in the blocked state.
  ghost predicate Shows(s: Session, status: Status) {
    match status
    case Fresh => s.state.Unauthenticated? && s.blockedUntil.None?
    case LoggedIn(at) => s.state.Authenticated? && s.blockedUntil.None? && s.login == Some(at)
    case Asked => s.state.Processing? && s.blockedUntil.None?
    case BlockedTill(until) => s.state.Blocked? && s.blockedUntil == Some(until)
  }

  ghost predicate Reflects(s: Session, h: seq<Event>, totpMax: nat) {
    && Shows(s, StatusOf(h))
    && s.attempts == Failures(h)
    && CodeFailures(h) <= Failures(h) && CodeFailures(h) <= totpMax
  }

  // A user without a session is like one with a new session.
  ghost predicate ReflectsFor(sessions: map<UserId, Session>, log: map<UserId, seq<Event>>, totpMax: nat,
                              user: UserId) {
    Reflects(Lookup(sessions, user, NEW_SESSION), Lookup(log, user, []), totpMax)
  }

  ghost predicate AllReflect(sessions: map<UserId, Session>, log: map<UserId, seq<Event>>, totpMax: nat) {
    forall user {:trigger ReflectsFor(sessions, log, totpMax, user)} :: ReflectsFor(sessions, log, totpMax, user)
  }

  // The log after some sessions were removed.
  function WithRemoved(log: map<UserId, seq<Event>>, gone: set<UserId>): map<UserId, seq<Event>> {
    map u | u in log.Keys + gone :: Lookup(log, u, []) + if u in gone then [Removed] else []
  }

  lemma RemovalReflects(sessions: map<UserId, Session>, log: map<UserId, seq<Event>>, totpMax: nat, gone: set<UserId>)
    requires AllReflect(sessions, log, totpMax)
    ensures AllReflect(sessions - gone, WithRemoved(log, gone), totpMax)
  {
    forall u ensures ReflectsFor(sessions - gone, WithRemoved(log, gone), totpMax, u) {
      assert ReflectsFor(sessions, log, totpMax, u);
      assert Lookup(log, u, []) + [] == Lookup(log, u, []);
    }
  }

  lemma UpdateReflects(sessions: map<UserId, Session>, log: map<UserId, seq<Event>>, totpMax: nat,
                       user: UserId, s: Session, h: seq<Event>)
    requires AllReflect(sessions, log, totpMax) && Reflects(s, h, totpMax)
    ensures AllReflect(sessions[user := s], log[user := h], totpMax)
  {
    var sessions', log' := sessions[user := s], log[user := h];
    forall u ensures ReflectsFor(sessions', log', totpMax, u) {
      assert ReflectsFor(sessions, log, totpMax, u);
    }
  }

  lemma ReplaceTwice(m: map<UserId, Session>, user: UserId, s: Session, s': Session)
    ensures m[user := s][user := s'] == m[user := s']
  {
  }

  predicate BlockRuns(until: Option<Time>, now: Time) {
    until.Some? && now < until.value
  }

  // One step of one user, which may have evicted others.
  lemma StepReflects(sessions: map<UserId, Session>, log: map<UserId, seq<Event>>, totpMax: nat,
                     gone: set<UserId>, user: UserId, s: Session, h: seq<Event>)
    requires AllReflect(sessions, log, totpMax) && Reflects(s, h, totpMax)
    ensures AllReflect((sessions - gone)[user := s], WithRemoved(log, gone)[user := h], totpMax)
  {
    RemovalReflects(sessions, log, totpMax, gone);
    UpdateReflects(sessions - gone, WithRemoved(log, gone), totpMax, user, s, h);
  }

  // Looking at a block that is over lifts it.
  function LookEvents(h: seq<Event>, now: Time): seq<Event> {
    if StatusOf(h).BlockedTill? && now > StatusOf(h).until then [Unblocked] else []
  }

  lemma LookReflects(s: Session, h: seq<Event>, totpMax: nat, now: Time)
    requires Reflects(s, h, totpMax)
    ensures Reflects(AutoUnblocked(s, now), h + LookEvents(h, now), totpMax)
    ensures IsBlockedNow(s, now) <==> StatusOf(h).BlockedTill? && now <= StatusOf(h).until
  {
    assert h + [] == h;
  }

  function AskedSession(s: Session, now: Time): Session {
    AutoUnblocked(s, now).(state := Processing)
  }

  // Asking does nothing while blocked.
  function AskEvents(h: seq<Event>, now: Time): seq<Event> {
    if StatusOf(h).BlockedTill? && now <= StatusOf(h).until then [] else LookEvents(h, now) + [Requested]
  }

  lemma AskReflects(s: Session, h: seq<Event>, totpMax: nat, now: Time)
    requires Reflects(s, h, totpMax)
    ensures IsBlockedNow(s, now) <==> StatusOf(h).BlockedTill? && now <= StatusOf(h).until
    ensures Reflects(if IsBlockedNow(s, now) then s else AskedSession(s, now), h + AskEvents(h, now), totpMax)
  {
    LookReflects(s, h, totpMax, now);
    if IsBlockedNow(s, now) {
      assert h + [] == h;
    } else {
      var looked := h + LookEvents(h, now);
      assert h + (LookEvents(h, now) + [Requested]) == looked + [Requested];
      assert (looked + [Requested])[..|looked|] == looked;
    }
  }

  // How one code message ends, and what it leaves in the log.
  datatype Answer = Ignored | Malformed | RateLimited | MaxReached | Accepted | Rejected | Aborted

  function FailureEvents(h: seq<Event>, failure: Event, maxAttempts: nat, blockDuration: int, now: Time): seq<Event> {
    [failure] + if Failures(h) + 1 >= maxAttempts then [BlockedUntil(now + blockDuration)] else []
  }

  // A well-formed code in a processing session is checked if both limits allow it.
  predicate Checks(answer: Answer) {
    answer.Accepted? || answer.Rejected? || answer.Aborted?
  }

  function EventsOf(answer: Answer, h: seq<Event>, maxAttempts: nat, blockDuration: int, now: Time): seq<Event> {
    match answer
    case Ignored => []
    case Malformed => FailureEvents(h, BadFormat, maxAttempts, blockDuration, now)
    case RateLimited => [BlockedUntil(now + RATE_LIMIT_BLOCK)]
    case MaxReached => [CounterReset, BlockedUntil(now + blockDuration)]
    case Accepted => [Verified(now)]
    case Rejected => FailureEvents(h, CodeFailed, maxAttempts, blockDuration, now)
    case Aborted => []
  }

  // The session after a code message, as a function of the session before.
  function SessionAfter(answer: Answer, s: Session, maxAttempts: nat, blockDuration: int, now: Time): Session {
    match answer
    case Ignored => s
    case Malformed => SessionStore.Failed(s, maxAttempts, blockDuration, now)
    case RateLimited => SessionStore.BlockedFrom(s, now + RATE_LIMIT_BLOCK)
    case MaxReached => SessionStore.BlockedFrom(s.(attempts := 0), now + blockDuration)
    case Accepted => s.(state := Authenticated, login := Some(now))
    case Rejected => SessionStore.Failed(s, maxAttempts, blockDuration, now)
    case Aborted => s
  }

  lemma AnswerReflects(answer: Answer, s: Session, h: seq<Event>, totpMax: nat, maxAttempts: nat,
                       blockDuration: int, now: Time)
    requires Reflects(s, h, totpMax)
    requires !answer.Ignored? ==> StatusOf(h).Asked?
    requires answer.Rejected? ==> Failures(h) < totpMax
    ensures Reflects(SessionAfter(answer, s, maxAttempts, blockDuration, now),
                     h + EventsOf(answer, h, maxAttempts, blockDuration, now), totpMax)
  {
    var events := EventsOf(answer, h, maxAttempts, blockDuration, now);
    var g := h + events;
    if |events| == 0 { assert g == h; }
    if |events| == 1 { assert g[..|g| - 1] == h; }
    if |events| == 2 {
      assert g[..|g| - 1] == h + [events[0]];
      assert (h + [events[0]])[..|h|] == h;
    }
  }

  // What a code message comes to, given the session ...
  ghost predicate Decided(answer: Answer, s: Session, wellFormed: bool, verdict: Verdict, totpMax: nat) {
    && (answer.Ignored? <==> !s.state.Processing?)
    && (!answer.Ignored? ==> (answer.Malformed? <==> !wellFormed))
    && (answer.MaxReached? ==> s.attempts >= totpMax)
    && (Checks(answer) ==> s.attempts < totpMax && answer == Judged(verdict))
  }

  // ... and given the log.
  ghost predicate DecidedByLog(answer: Answer, h: seq<Event>, wellFormed: bool, verdict: Verdict, totpMax: nat) {
    && (answer.Ignored? <==> !StatusOf(h).Asked?)
    && (!answer.Ignored? ==> (answer.Malformed? <==> !wellFormed))
    && (answer.MaxReached? ==> Failures(h) >= totpMax)
    && (Checks(answer) ==> Failures(h) < totpMax && answer == Judged(verdict))
  }

  function Judged(verdict: Verdict): Answer {
    match verdict
    case Good => Accepted
    case Bad => Rejected
    case Raises => Aborted
  }

  lemma LogDecides(answer: Answer, s: Session, h: seq<Event>, wellFormed: bool, verdict: Verdict, totpMax: nat)
    requires Reflects(s, h, totpMax) && Decided(answer, s, wellFormed, verdict, totpMax)
    ensures DecidedByLog(answer, h, wellFormed, verdict, totpMax)
  {
  }

  // One code message, for all users at once.
  lemma CodeReflects(sessions: map<UserId, Session>, log: map<UserId, seq<Event>>, totpMax: nat, gone: set<UserId>,
                     user: UserId, answer: Answer, wellFormed: bool, verdict: Verdict, maxAttempts: nat,
                     blockDuration: int, now: Time)
    requires AllReflect(sessions, log, totpMax)
    requires Decided(answer, Lookup(sessions, user, NEW_SESSION), wellFormed, verdict, totpMax)
    ensures DecidedByLog(answer, Lookup(log, user, []), wellFormed, verdict, totpMax)
    ensures AllReflect((sessions - gone)[user :=
                         SessionAfter(answer, Lookup(sessions, user, NEW_SESSION), maxAttempts, blockDuration, now)],
                       WithRemoved(log, gone)[user :=
                         LogAfter(answer, Lookup(log, user, []), maxAttempts, blockDuration, now)],
                       totpMax)
  {
    var s, h := Lookup(sessions, user, NEW_SESSION), Lookup(log, user, []);
    assert ReflectsFor(sessions, log, totpMax, user);
    LogDecides(answer, s, h, wellFormed, verdict, totpMax);
    AnswerReflects(answer, s, h, totpMax, maxAttempts, blockDuration, now);
    StepReflects(sessions, log, totpMax, gone, user, SessionAfter(answer, s, maxAttempts, blockDuration, now),
                 LogAfter(answer, h, maxAttempts, blockDuration, now));
  }

  function LogAfter(answer: Answer, h: seq<Event>, maxAttempts: nat, blockDuration: int, now: Time): seq<Event> {
    h + EventsOf(answer, h, maxAttempts, blockDuration, now)
  }

  // What a code message does to the session, outcome by outcome.
  ghost predicate Becomes(answer: Answer, s: Session, s': Session, maxAttempts: nat, blockDuration: int, now: Time) {
    match answer
    case Ignored => s' == s
    case Aborted => s' == s
    case Accepted => s' == Session(AuthState.Authenticated, s.attempts, s.blockedUntil, Some(now))
    case RateLimited => s' == Session(Blocked, s.attempts, Some(now + 60), s.login)
    case MaxReached => s' == Session(Blocked, 0, Some(now + blockDuration), s.login)
    case _ =>
      if s.attempts + 1 < maxAttempts then s' == Session(s.state, s.attempts + 1, s.blockedUntil, s.login)
      else s' == Session(Blocked, s.attempts + 1, Some(now + blockDuration), s.login)
  }

  // And what it adds to the log.
  ghost predicate Adds(answer: Answer, h: seq<Event>, h': seq<Event>, attempts: nat, maxAttempts: nat,
                       blockDuration: int, now: Time)
  {
    match answer
    case Ignored => h' == h
    case Aborted => h' == h
    case Accepted => h' == h + [Verified(now)]
    case RateLimited => h' == h + [BlockedUntil(now + 60)]
    case MaxReached => h' == h + [CounterReset, BlockedUntil(now + blockDuration)]
    case _ =>
      var failure := if answer.Malformed? then BadFormat else CodeFailed;
      if attempts + 1 < maxAttempts then h' == h + [failure]
      else h' == h + [failure, BlockedUntil(now + blockDuration)]
  }

  lemma AnswerMeans(answer: Answer, s: Session, h: seq<Event>, wellFormed: bool, verdict: Verdict, totpMax: nat,
                    maxAttempts: nat, blockDuration: int, now: Time)
    requires Decided(answer, s, wellFormed, verdict, totpMax) && s.attempts == Failures(h)
    ensures Becomes(answer, s, SessionAfter(answer, s, maxAttempts, blockDuration, now), maxAttempts, blockDuration,
                    now)
    ensures var h' := LogAfter(answer, h, maxAttempts, blockDuration, now);
            && Adds(answer, h, h', s.attempts, maxAttempts, blockDuration, now)
            && (h' == h + [Verified(now)] <==> answer.Accepted?)
    ensures Outcome(answer, s, wellFormed, verdict, totpMax)
  {
    var h' := LogAfter(answer, h, maxAttempts, blockDuration, now);
    assert h + [] == h;
    if h' == h + [Verified(now)] { assert |h'| == |h| + 1 && h'[|h|] == Verified(now); }
  }

  // In the order of the guards; whether the burst limit refuses is up to its history.
  ghost predicate Outcome(answer: Answer, s: Session, wellFormed: bool, verdict: Verdict, totpMax: nat) {
    if s.state != Processing then answer == Ignored
    else if !wellFormed then answer == Malformed
    else if answer == RateLimited then true
    else if s.attempts >= totpMax then answer == MaxReached
    else match verdict
      case Good => answer == Accepted
      case Bad => answer == Rejected
      case Raises => answer == Aborted
  }

  lemma ProcessingHasNoBlock(sessions: map<UserId, Session>, log: map<UserId, seq<Event>>, totpMax: nat, user: UserId)
    requires AllReflect(sessions, log, totpMax)
    ensures var s := Lookup(sessions, user, NEW_SESSION); s.state.Processing? ==> s.blockedUntil.None?
  {
    assert ReflectsFor(sessions, log, totpMax, user);
  }

  // In every interval at most as many codes were checked as attempts were admitted.
  ghost predicate Fewer(checked: seq<Time>, admitted: seq<Time>) {
    forall lo, hi :: CountIn(checked, lo, hi) <= CountIn(admitted, lo, hi)
  }

  ghost predicate AllFewer(checked: map<UserId, seq<Time>>, admitted: map<UserId, seq<Time>>) {
    forall u {:trigger FewerFor(checked, admitted, u)} :: FewerFor(checked, admitted, u)
  }

  ghost predicate FewerFor(checked: map<UserId, seq<Time>>, admitted: map<UserId, seq<Time>>, user: UserId) {
    Fewer(Lookup(checked, user, []), Lookup(admitted, user, []))
  }

  lemma AdmittedOneMore(checked: map<UserId, seq<Time>>, admitted: map<UserId, seq<Time>>, user: UserId, now: Time)
    requires AllFewer(checked, admitted)
    ensures var admitted' := admitted[user := Lookup(admitted, user, []) + [now]];
            && AllFewer(checked, admitted')
            && AllFewer(checked[user := Lookup(checked, user, []) + [now]], admitted')
  {
    var c, a := Lookup(checked, user, []), Lookup(admitted, user, []);
    var checked', admitted' := checked[user := c + [now]], admitted[user := a + [now]];
    assert FewerFor(checked, admitted, user);
    assert (c + [now])[..|c|] == c && (a + [now])[..|a|] == a;
    forall u ensures FewerFor(checked, admitted', u) && FewerFor(checked', admitted', u) {
      assert FewerFor(checked, admitted, u);
    }
  }

  function CheckedAfter(answer: Answer, checked: map<UserId, seq<Time>>, user: UserId, now: Time)
    : map<UserId, seq<Time>>
  {
    if Checks(answer) then checked[user := Lookup(checked, user, []) + [now]] else checked
  }

  function LogsAfter(answer: Answer, log: map<UserId, seq<Event>>, gone: set<UserId>, user: UserId, maxAttempts: nat,
                     blockDuration: int, now: Time): map<UserId, seq<Event>> {
    WithRemoved(log, gone)[user := LogAfter(answer, Lookup(log, user, []), maxAttempts, blockDuration, now)]
  }

  lemma AllStayReflected(sessions: map<UserId, Session>, log: map<UserId, seq<Event>>, totpMax: nat, gone: set<UserId>,
                         user: UserId, answer: Answer, wellFormed: bool, verdict: Verdict, maxAttempts: nat,
                         blockDuration: int, now: Time)
    requires AllReflect(sessions, log, totpMax)
    requires Decided(answer, Lookup(sessions, user, NEW_SESSION), wellFormed, verdict, totpMax)
    ensures AllReflect((sessions - gone)[user :=
                         SessionAfter(answer, Lookup(sessions, user, NEW_SESSION), maxAttempts, blockDuration, now)],
                       LogsAfter(answer, log, gone, user, maxAttempts, blockDuration, now), totpMax)
  {
    CodeReflects(sessions, log, totpMax, gone, user, answer, wellFormed, verdict, maxAttempts, blockDuration, now);
  }

  // What one code message means for its user, in every reachable state.
  lemma CodeMeans(sessions: map<UserId, Session>, log: map<UserId, seq<Event>>, totpMax: nat, user: UserId,
                  answer: Answer, wellFormed: bool, verdict: Verdict, maxAttempts: nat, blockDuration: int, now: Time)
    requires AllReflect(sessions, log, totpMax)
    requires Decided(answer, Lookup(sessions, user, NEW_SESSION), wellFormed, verdict, totpMax)
    ensures var s, h := Lookup(sessions, user, NEW_SESSION), Lookup(log, user, []);
            var h' := LogAfter(answer, h, maxAttempts, blockDuration, now);
            && Outcome(answer, s, wellFormed, verdict, totpMax)
            && DecidedByLog(answer, h, wellFormed, verdict, totpMax)
            && Becomes(answer, s, SessionAfter(answer, s, maxAttempts, blockDuration, now), maxAttempts,
                       blockDuration, now)
            && Adds(answer, h, h', s.attempts, maxAttempts, blockDuration, now)
            && (h' == h + [Verified(now)] <==> answer.Accepted?)
  {
    var s, h := Lookup(sessions, user, NEW_SESSION), Lookup(log, user, []);
    assert ReflectsFor(sessions, log, totpMax, user);
    LogDecides(answer, s, h, wellFormed, verdict, totpMax);
    AnswerMeans(answer, s, h, wellFormed, verdict, totpMax, maxAttempts, blockDuration, now);
  }

  lemma OthersKeepLogs(answer: Answer, log: map<UserId, seq<Event>>, gone: set<UserId>, user: UserId,
                       maxAttempts: nat, blockDuration: int, now: Time)
    ensures forall u :: u != user ==>
              Lookup(LogsAfter(answer, log, gone, user, maxAttempts, blockDuration, now), u, [])
              == Lookup(log, u, []) + if u in gone then [Removed] else []
  {
  }

  lemma CheckedStaysFewer(answer: Answer, checked: map<UserId, seq<Time>>, before: map<UserId, seq<Time>>,
                          after: map<UserId, seq<Time>>, user: UserId, now: Time)
    requires AllFewer(checked, before)
    requires after == before || after == before[user := Lookup(before, user, []) + [now]]
    requires Checks(answer) ==> after == before[user := Lookup(before, user, []) + [now]]
    ensures AllFewer(CheckedAfter(answer, checked, user, now), after)
  {
    AdmittedOneMore(checked, before, user, now);
  }

  class TwoFactor {
    const store: SessionStore
    const burst: TotpBurst.TotpBurst
    const totpMax: nat
    ghost var log: map<UserId, seq<Event>>
    // When codes of a user reached the check.
    ghost var checked: map<UserId, seq<Time>>

    ghost predicate Valid()
      reads this, store, burst
    {
      && store.Valid() && burst.Valid()
      && AllReflect(store.sessions, log, totpMax)
      && AllFewer(checked, burst.admitted)
    }

    constructor (store: SessionStore, burst: TotpBurst.TotpBurst, totpMax: nat)
      requires store.Valid() && burst.Valid() && store.sessions == map[]
      ensures Valid() && log == map[] && checked == map[]
      ensures this.store == store && this.burst == burst && this.totpMax == totpMax
    {
      this.store, this.burst, this.totpMax := store, burst, totpMax;
      log, checked := map[], map[];
    }

    ghost function LogOf(user: UserId): seq<Event>
      reads this
    {
      Lookup(log, user, [])
    }

    // Authenticated exactly when the latest authentication event of the user is a
    // verification that is no older than the session timeout.
    method IsAuthenticated(user: UserId, now: Time) returns (authenticated: bool, ghost gone: set<UserId>)
      requires Valid()
      modifies this, store
      ensures Valid()
      ensures store.Evicted(gone, user, old(store.sessions), now)
      ensures var status := StatusOf(old(LogOf(user)));
              authenticated <==> status.LoggedIn? && now <= status.at + store.timeout
      ensures var s := Lookup(old(store.sessions), user, NEW_SESSION);
              authenticated <==>
                && s.state.Authenticated? && (s.blockedUntil.Some? ==> s.blockedUntil.value < now)
                && s.login.Some? && now <= s.login.value + store.timeout
      ensures log == WithRemoved(old(log), gone)[user := old(LogOf(user)) + LookEvents(old(LogOf(user)), now)]
    {
      ghost var h, sessions := LogOf(user), store.sessions;
      assert ReflectsFor(sessions, log, totpMax, user);
      LookReflects(Lookup(sessions, user, NEW_SESSION), h, totpMax, now);
      authenticated, gone := store.IsAuthenticated(user, now);
      StepReflects(sessions, log, totpMax, gone, user,
                   AutoUnblocked(Lookup(sessions, user, NEW_SESSION), now), h + LookEvents(h, now));
      log := WithRemoved(log, gone)[user := h + LookEvents(h, now)];
    }

    // The session part of asking for a code.
    method BeginProcessing(user: UserId, now: Time) returns (blocked: bool, ghost gone: set<UserId>)
      requires store.Valid()
      modifies store
      ensures store.Valid()
      ensures store.Evicted(gone, user, old(store.sessions), now)
      ensures var s := Lookup(old(store.sessions), user, NEW_SESSION);
              && (blocked <==> IsBlockedNow(s, now))
              && store.sessions == (old(store.sessions) - gone)[user := if blocked then s else AskedSession(s, now)]
    {
      blocked, gone := store.IsBlocked(user, now);
      if !blocked {
        ghost var none := store.SetAuthState(user, Processing, now);
      }
    }

    // Asking for a code: refused while blocked, and otherwise the session is processing.
    method HandleTwofaMessage(user: UserId, now: Time) returns (blocked: bool, ghost gone: set<UserId>)
      requires Valid()
      modifies this, store
      ensures Valid()
      ensures store.Evicted(gone, user, old(store.sessions), now)
      ensures blocked <==> StatusOf(old(LogOf(user))).BlockedTill? && now <= StatusOf(old(LogOf(user))).until
      ensures var s := Lookup(old(store.sessions), user, NEW_SESSION);
              && (blocked <==> s.blockedUntil.Some? && now <= s.blockedUntil.value)
              && store.sessions == (old(store.sessions) - gone)[user :=
                   if blocked then s else s.(state := Processing, blockedUntil := None)]
      ensures log == WithRemoved(old(log), gone)[user := old(LogOf(user)) + AskEvents(old(LogOf(user)), now)]
    {
      ghost var h, sessions := LogOf(user), store.sessions;
      ghost var s := Lookup(sessions, user, NEW_SESSION);
      assert ReflectsFor(sessions, log, totpMax, user);
      AskReflects(s, h, totpMax, now);
      blocked, gone := BeginProcessing(user, now);
      StepReflects(sessions, log, totpMax, gone, user, if blocked then s else AskedSession(s, now),
                   h + AskEvents(h, now));
      log := WithRemoved(log, gone)[user := h + AskEvents(h, now)];
    }

    // Both changes of state go to a user who has a session.
    method EnterState(user: UserId, state: AuthState, now: Time)
      requires store.Valid() && user in store.sessions
      modifies store
      ensures store.Valid()
      ensures store.sessions == old(store.sessions)[user := old(store.sessions)[user].(state := state)]
    {
      ghost var before := store.sessions;
      ghost var none := store.SetAuthState(user, state, now);
      store.NothingElse(before, none, user, now, before[user].(state := state));
    }

    method BlockUser(user: UserId, now: Time)
      requires store.Valid() && user in store.sessions
      modifies store
      ensures store.Valid()
      ensures store.sessions == old(store.sessions)[user :=
                old(store.sessions)[user].(state := Blocked, attempts := 0,
                                           blockedUntil := Some(now + store.blockDuration))]
    {
      ghost var s := store.sessions[user];
      EnterState(user, Blocked, now);
      ghost var before := store.sessions;
      ghost var none := store.ResetTotpAttempts(user, now);
      store.NothingElse(before, none, user, now, s.(state := Blocked, attempts := 0));
      before := store.sessions;
      none := store.SetBlockedTime(user, 0, now);
      store.NothingElse(before, none, user, now, SessionStore.BlockedFrom(before[user], now + store.blockDuration));
    }

    method LogIn(user: UserId, now: Time)
      requires store.Valid() && user in store.sessions
      modifies store
      ensures store.Valid()
      ensures store.sessions == old(store.sessions)[user :=
                old(store.sessions)[user].(state := Authenticated, login := Some(now))]
    {
      EnterState(user, Authenticated, now);
      ghost var before := store.sessions;
      ghost var none := store.SetLoginTime(user, now);
      store.NothingElse(before, none, user, now, before[user].(login := Some(now)));
    }

    // What becomes of a code message, in the order of the guards.  The guard on a running
    // block never fires: a processing session has none.
    method DecideAnswer(user: UserId, wellFormed: bool, verdict: Verdict, now: Time) returns (answer: Answer)
      requires burst.Valid() && user in store.sessions
      requires store.sessions[user].state.Processing? ==> store.sessions[user].blockedUntil.None?
      modifies burst
      ensures burst.Valid()
      ensures Decided(answer, store.sessions[user], wellFormed, verdict, totpMax)
      ensures Outcome(answer, store.sessions[user], wellFormed, verdict, totpMax)
      ensures Counted(answer, user, now, old(burst.admitted), old(burst.readings))
    {
      var s := store.sessions[user];
      if !s.state.Processing? { return Ignored; }
      if !wellFormed { return Malformed; }
      var guardBlocked := BlockRuns(s.blockedUntil, now);
      assert !guardBlocked;
      var refused := burst.Consume(user, now);
      if refused { return RateLimited; }
      if s.attempts >= totpMax { return MaxReached; }
      return Judged(verdict);
    }

    // Refused exactly when the user's admitted attempts fill the closed window.
    ghost predicate Counted(answer: Answer, user: UserId, now: Time, admitted: map<UserId, seq<Time>>,
                            readings: seq<Time>)
      reads burst
    {
      var h := Lookup(admitted, user, []);
      if !answer.Ignored? && !answer.Malformed? then
        && burst.readings == readings + [now]
        && (Ordered(burst.readings) ==>
              (answer.RateLimited? <==> CountIn(h, now - 60, now) >= burst.threshold))
        && burst.admitted == if answer.RateLimited? then admitted else admitted[user := h + [now]]
      else
        burst.readings == readings && burst.admitted == admitted
    }

    method ApplyAnswer(user: UserId, answer: Answer, now: Time)
      requires store.Valid() && user in store.sessions
      modifies store
      ensures store.Valid()
      ensures store.sessions == old(store.sessions)[user :=
                SessionAfter(answer, old(store.sessions)[user], store.maxAttempts, store.blockDuration, now)]
    {
      match answer
      case Ignored =>
      case Aborted =>
      case RateLimited =>
        ghost var none := store.SetBlockedTime(user, RATE_LIMIT_BLOCK, now);
      case MaxReached =>
        BlockUser(user, now);
      case Accepted =>
        LogIn(user, now);
      case Malformed =>
        var failures, none := store.IncrementTotpAttempts(user, now);
      case Rejected =>
        var failures, none := store.IncrementTotpAttempts(user, now);
    }

    // The session part of a code message.
    method AnswerCode(user: UserId, wellFormed: bool, verdict: Verdict, now: Time)
      returns (answer: Answer, ghost gone: set<UserId>)
      requires store.Valid() && burst.Valid()
      requires Lookup(store.sessions, user, NEW_SESSION).state.Processing? ==>
                 Lookup(store.sessions, user, NEW_SESSION).blockedUntil.None?
      modifies store, burst
      ensures store.Valid() && burst.Valid()
      ensures store.Evicted(gone, user, old(store.sessions), now)
      ensures var s := Lookup(old(store.sessions), user, NEW_SESSION);
              && Decided(answer, s, wellFormed, verdict, totpMax)
              && store.sessions == (old(store.sessions) - gone)[user :=
                   SessionAfter(answer, s, store.maxAttempts, store.blockDuration, now)]
      ensures Counted(answer, user, now, old(burst.admitted), old(burst.readings))
    {
      gone := store.Ensure(user, now);
      ghost var s := Lookup(old(store.sessions), user, NEW_SESSION);
      ghost var base := store.sessions;
      assert base[user] == s;
      answer := DecideAnswer(user, wellFormed, verdict, now);
      assert store.sessions == base;
      ApplyAnswer(user, answer, now);
      ReplaceTwice(old(store.sessions) - gone, user, s,
                   SessionAfter(answer, s, store.maxAttempts, store.blockDuration, now));
    }

    // A code message with its log.
    method LogCode(user: UserId, wellFormed: bool, verdict: Verdict, now: Time)
      returns (answer: Answer, ghost gone: set<UserId>)
      requires Valid()
      modifies this, store, burst
      ensures Valid()
      ensures store.Evicted(gone, user, old(store.sessions), now)
      ensures var s := Lookup(old(store.sessions), user, NEW_SESSION);
              && Decided(answer, s, wellFormed, verdict, totpMax)
              && store.sessions == (old(store.sessions) - gone)[user :=
                   SessionAfter(answer, s, store.maxAttempts, store.blockDuration, now)]
      ensures log == LogsAfter(answer, old(log), gone, user, store.maxAttempts, store.blockDuration, now)
      ensures Counted(answer, user, now, old(burst.admitted), old(burst.readings))
      ensures checked == CheckedAfter(answer, old(checked), user, now)
    {
      ghost var sessions, admitted := store.sessions, burst.admitted;
      ProcessingHasNoBlock(sessions, log, totpMax, user);
      answer, gone := AnswerCode(user, wellFormed, verdict, now);
      AllStayReflected(sessions, log, totpMax, gone, user, answer, wellFormed, verdict, store.maxAttempts,
                       store.blockDuration, now);
      CheckedStaysFewer(answer, checked, admitted, burst.admitted, user, now);
      ghost var log' := LogsAfter(answer, log, gone, user, store.maxAttempts, store.blockDuration, now);
      ghost var checked' := CheckedAfter(answer, checked, user, now);
      assert AllReflect(store.sessions, log', totpMax);
      assert AllFewer(checked', burst.admitted);
      log, checked := log', checked';
    }

    // A code message: a code that is checked and good is accepted and one that is bad
    // rejected; without a session in processing nothing happens.  The user's log ends with
    // a verification exactly if the session was processing, the code was well-formed and
    // good, and neither limit was full.  Every outcome has its session and its log.
    method HandleCode(user: UserId, wellFormed: bool, verdict: Verdict, now: Time)
      returns (answer: Answer, ghost gone: set<UserId>)
      requires Valid()
      modifies this, store, burst
      ensures Valid()
      ensures store.Evicted(gone, user, old(store.sessions), now)
      ensures (answer.Accepted? ==> verdict.Good?) && (answer.Rejected? ==> verdict.Bad?)
              && (answer.Aborted? ==> verdict.Raises?)
      ensures var s := Lookup(old(store.sessions), user, NEW_SESSION);
              && Outcome(answer, s, wellFormed, verdict, totpMax)
              && user in store.sessions
              && Becomes(answer, s, store.sessions[user], store.maxAttempts, store.blockDuration, now)
              && store.sessions == (old(store.sessions) - gone)[user := store.sessions[user]]
              && Adds(answer, old(LogOf(user)), LogOf(user), s.attempts, store.maxAttempts, store.blockDuration, now)
              && (LogOf(user) == old(LogOf(user)) + [Verified(now)] <==>
                    s.state.Processing? && wellFormed && !answer.RateLimited? && s.attempts < totpMax && verdict.Good?)
      ensures log == WithRemoved(old(log), gone)[user := LogOf(user)]
      ensures forall u :: u != user ==> LogOf(u) == old(LogOf(u)) + if u in gone then [Removed] else []
      ensures DecidedByLog(answer, old(LogOf(user)), wellFormed, verdict, totpMax)
      ensures Counted(answer, user, now, old(burst.admitted), old(burst.readings))
      ensures checked == if answer.Accepted? || answer.Rejected? || answer.Aborted?
                         then old(checked)[user := Lookup(old(checked), user, []) + [now]] else old(checked)
    {
      ghost var sessions, logs := store.sessions, log;
      answer, gone := LogCode(user, wellFormed, verdict, now);
      CodeMeans(sessions, logs, totpMax, user, answer, wellFormed, verdict, store.maxAttempts, store.blockDuration,
                now);
      OthersKeepLogs(answer, logs, gone, user, store.maxAttempts, store.blockDuration, now);
    }

    // In any closed minute at most `threshold` codes of a user are checked, across
    // session removals, blocks and resets.
    lemma FewChecksPerWindow(user: UserId, start: Time, late: nat)
      requires Valid() && LateBy(burst.readings, late)
      ensures CountIn(Lookup(checked, user, []), start, start + 60 - late) <= burst.threshold
    {
      assert FewerFor(checked, burst.admitted, user);
      burst.WindowHoldsAtMostThreshold(user, start, late);
    }

    // Since the session was created or its counter reset, at most `totpMax` checked
    // codes failed, and the counter is the number of all failures.
    lemma FewFailuresPerCounter(user: UserId)
      requires Valid()
      ensures CodeFailures(LogOf(user)) <= totpMax
      ensures user in store.sessions ==> store.sessions[user].attempts == Failures(LogOf(user))
    {
      assert ReflectsFor(store.sessions, log, totpMax, user);
    }

    // A blocked time is set exactly in the blocked state.
    lemma BlockedTimeIffBlocked(user: UserId)
      requires Valid() && user in store.sessions
      ensures store.sessions[user].blockedUntil.Some? <==> store.sessions[user].state.Blocked?
    {
      assert ReflectsFor(store.sessions, log, totpMax, user);
    }

    // A processing session has no block, so that the guard on a running block never fires
    // when whole messages follow one another.
    lemma GuardNeverFires(user: UserId, now: Time)
      requires Valid() && user in store.sessions && store.sessions[user].state.Processing?
      ensures store.sessions[user].blockedUntil.None? && !BlockRuns(store.sessions[user].blockedUntil, now)
    {
      ProcessingHasNoBlock(store.sessions, log, totpMax, user);
    }

    // Expired sessions go, whatever their state; a session that never logged in is expired.
    method ClearExpired(now: Time) returns (ghost gone: set<UserId>)
      requires Valid()
      modifies this, store
      ensures Valid() && log == WithRemoved(old(log), gone)
      ensures forall u :: LogOf(u) == old(LogOf(u)) + if u in gone then [Removed] else []
      ensures forall u :: u in old(store.sessions) ==>
                (u in gone <==> old(store.sessions)[u].login.None?
                                || old(store.sessions)[u].login.value + store.timeout < now)
    {
      ghost var sessions := store.sessions;
      gone := store.ClearExpired(now);
      RemovalReflects(sessions, log, totpMax, gone);
      log := WithRemoved(log, gone);
    }
  }
}
