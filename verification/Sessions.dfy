// The in-memory session store: per-user authentication state, attempt counter, block
// and login time, with expiry and a hard cap on the number of sessions.
module Sessions {
  import opened Common

  type UserId = int

  datatype AuthState = Authenticated | Processing | Blocked | Unauthenticated

  datatype Session = Session(state: AuthState, attempts: nat, blockedUntil: Option<Time>, login: Option<Time>)

  // How the check of a code ends.
  datatype Verdict = Good | Bad | Raises

  const NEW_SESSION := Session(Unauthenticated, 0, None, None)

  // A session without a login time counts as expired.
  predicate IsExpired(s: Session, timeout: int, now: Time) {
    s.login.None? || now > s.login.value + timeout
  }

  predicate IsBlockedNow(s: Session, now: Time) {
    s.blockedUntil.Some? && now <= s.blockedUntil.value
  }

  // A block that is over is lifted when somebody looks.
  function AutoUnblocked(s: Session, now: Time): Session {
    if s.blockedUntil.None? || now <= s.blockedUntil.value then s
    else s.(blockedUntil := None, state := if s.state.Blocked? then Unauthenticated else s.state)
  }

  // A session after somebody has looked: a block that is over is gone, and with it the blocked
  // state; everything else is as before.
  ghost predicate Unblocks(s: Session, s': Session, now: Time) {
    && s'.attempts == s.attempts && s'.login == s.login
    && (s.blockedUntil.Some? && s.blockedUntil.value < now ==>
          s'.blockedUntil.None? && s'.state == if s.state == Blocked then Unauthenticated else s.state)
    && (s.blockedUntil.Some? && now <= s.blockedUntil.value ==> s' == s)
    && (s.blockedUntil.None? ==> s' == s)
  }

  // The three rounds of eviction.
  datatype Round = ExpiredOnes | NotAuthenticatedOnes | AnyOnes

  predicate Matches(round: Round, s: Session, timeout: int, now: Time) {
    match round
    case ExpiredOnes => IsExpired(s, timeout, now)
    case NotAuthenticatedOnes => !s.state.Authenticated?
    case AnyOnes => true
  }

  // The keys of the store in insertion order.
  ghost predicate Lists(order: seq<UserId>, keys: set<UserId>) {
    && Distinct(order)
    && forall u {:trigger Listed(order, u)} :: Listed(order, u) <==> u in keys
  }

  ghost predicate Listed(order: seq<UserId>, user: UserId) {
    user in order
  }

  ghost predicate Distinct(order: seq<UserId>) {
    forall i, j {:trigger Differ(order, i, j)} :: 0 <= i < j < |order| ==> Differ(order, i, j)
  }

  ghost predicate Differ(order: seq<UserId>, i: nat, j: nat)
    requires i < j < |order|
  {
    order[i] != order[j]
  }

  lemma DistinctCons(user: UserId, rest: seq<UserId>)
    ensures Distinct([user] + rest) <==> Distinct(rest) && user !in rest
  {
    var order := [user] + rest;
    if Distinct(order) {
      forall i, j | 0 <= i < j < |rest| ensures Differ(rest, i, j) { assert Differ(order, i + 1, j + 1); }
      forall i | 0 <= i < |rest| ensures rest[i] != user { assert Differ(order, 0, i + 1); }
    } else {
      var i, j :| 0 <= i < j < |order| && !Differ(order, i, j);
      if i > 0 { assert !Differ(rest, i - 1, j - 1); }
    }
  }

  function Without(order: seq<UserId>, gone: set<UserId>): seq<UserId> {
    if order == [] then []
    else if order[0] in gone then Without(order[1..], gone)
    else [order[0]] + Without(order[1..], gone)
  }

  // The sessions a round may delete, oldest first.
  function Candidates(order: seq<UserId>, sessions: map<UserId, Session>, round: Round, timeout: int,
                      now: Time): seq<UserId> {
    if order == [] then []
    else
      var rest := Candidates(order[1..], sessions, round, timeout, now);
      if order[0] in sessions && Matches(round, sessions[order[0]], timeout, now) then [order[0]] + rest else rest
  }

  lemma {:induction false} WithoutKeeps(order: seq<UserId>, gone: set<UserId>)
    requires Distinct(order)
    ensures Distinct(Without(order, gone))
    ensures forall u :: u in Without(order, gone) <==> u in order && u !in gone
  {
    if order != [] {
      assert order == [order[0]] + order[1..];
      DistinctCons(order[0], order[1..]);
      WithoutKeeps(order[1..], gone);
      DistinctCons(order[0], Without(order[1..], gone));
    }
  }

  lemma WithoutLists(order: seq<UserId>, keys: set<UserId>, gone: set<UserId>)
    requires Lists(order, keys)
    ensures Lists(Without(order, gone), keys - gone)
  {
    WithoutKeeps(order, gone);
    forall u ensures Listed(Without(order, gone), u) <==> u in keys - gone { assert Listed(order, u) <==> u in keys; }
  }

  lemma {:induction false} CandidatesMatch(order: seq<UserId>, sessions: map<UserId, Session>, round: Round,
                                           timeout: int, now: Time)
    requires Distinct(order)
    ensures Distinct(Candidates(order, sessions, round, timeout, now))
    ensures forall u :: u in Candidates(order, sessions, round, timeout, now) <==>
                        u in order && u in sessions && Matches(round, sessions[u], timeout, now)
  {
    if order != [] {
      assert order == [order[0]] + order[1..];
      DistinctCons(order[0], order[1..]);
      CandidatesMatch(order[1..], sessions, round, timeout, now);
      DistinctCons(order[0], Candidates(order[1..], sessions, round, timeout, now));
    }
  }

  lemma AppendLists(order: seq<UserId>, keys: set<UserId>, user: UserId)
    requires Lists(order, keys) && user !in keys
    ensures Lists(order + [user], keys + {user})
  {
    assert !Listed(order, user);
    forall i, j | 0 <= i < j < |order + [user]| ensures Differ(order + [user], i, j) {
      assert j < |order| ==> Differ(order, i, j);
    }
    forall u ensures Listed(order + [user], u) <==> u in keys + {user} { assert Listed(order, u) <==> u in keys; }
  }

  function Elements(s: seq<UserId>): set<UserId> {
    set u | u in s
  }

  function FirstOf(s: seq<UserId>, n: nat): seq<UserId> {
    if |s| <= n then s else s[..n]
  }

  lemma EligibleFirst(s: seq<UserId>, n: nat)
    requires Distinct(s)
    ensures Distinct(FirstOf(s, n)) && Elements(FirstOf(s, n)) <= Elements(s)
  {
    var f := FirstOf(s, n);
    forall i, j | 0 <= i < j < |f| ensures Differ(f, i, j) { assert Differ(s, i, j); }
  }

  lemma RemoveBoth(m: map<UserId, Session>, a: set<UserId>, b: set<UserId>)
    ensures (m - a) - b == m - (a + b)
  {
  }

  // User a stands before user b.
  ghost predicate Precedes(order: seq<UserId>, a: UserId, b: UserId) {
    exists i, j {:trigger order[i], order[j]} :: 0 <= i < j < |order| && order[i] == a && order[j] == b
  }

  // Whoever is left stands as before.
  ghost predicate KeepsOrder(before: seq<UserId>, after: seq<UserId>) {
    forall a, b {:trigger Precedes(after, a, b)} :: Precedes(after, a, b) ==> Precedes(before, a, b)
  }

  lemma PrecedesCons(first: UserId, rest: seq<UserId>, a: UserId, b: UserId)
    ensures Precedes([first] + rest, a, b) <==> Precedes(rest, a, b) || (a == first && b in rest)
  {
    var order := [first] + rest;
    if Precedes(rest, a, b) {
      var i, j :| 0 <= i < j < |rest| && rest[i] == a && rest[j] == b;
      assert order[i + 1] == a && order[j + 1] == b;
    }
    if a == first && b in rest {
      var j :| 0 <= j < |rest| && rest[j] == b;
      assert order[0] == a && order[j + 1] == b;
    }
    if Precedes(order, a, b) {
      var i, j :| 0 <= i < j < |order| && order[i] == a && order[j] == b;
      assert rest[j - 1] == b;
      assert i > 0 ==> rest[i - 1] == a;
    }
  }

  lemma {:induction false} WithoutKeepsOrder(order: seq<UserId>, gone: set<UserId>, a: UserId, b: UserId)
    requires Precedes(Without(order, gone), a, b)
    ensures Precedes(order, a, b)
  {
    if order != [] {
      assert order == [order[0]] + order[1..];
      PrecedesCons(order[0], order[1..], a, b);
      if order[0] in gone {
        WithoutKeepsOrder(order[1..], gone, a, b);
      } else {
        PrecedesCons(order[0], Without(order[1..], gone), a, b);
        if Precedes(Without(order[1..], gone), a, b) {
          WithoutKeepsOrder(order[1..], gone, a, b);
        } else {
          InWithout(order[1..], gone, b);
        }
      }
    }
  }

  lemma {:induction false} InWithout(order: seq<UserId>, gone: set<UserId>, user: UserId)
    requires user in Without(order, gone)
    ensures user in order
  {
    if order != [] && user in Without(order[1..], gone) { InWithout(order[1..], gone, user); }
  }

  // The candidates stand in the order of the store.
  lemma {:induction false} CandidatesInOrder(order: seq<UserId>, sessions: map<UserId, Session>, round: Round,
                                             timeout: int, now: Time, i: nat, j: nat)
    requires i < j < |Candidates(order, sessions, round, timeout, now)| && Distinct(order)
    ensures var c := Candidates(order, sessions, round, timeout, now); Precedes(order, c[i], c[j])
  {
    var c := Candidates(order, sessions, round, timeout, now);
    var rest := Candidates(order[1..], sessions, round, timeout, now);
    assert order == [order[0]] + order[1..];
    DistinctCons(order[0], order[1..]);
    CandidatesMatch(order[1..], sessions, round, timeout, now);
    PrecedesCons(order[0], order[1..], c[i], c[j]);
    if c == rest {
      CandidatesInOrder(order[1..], sessions, round, timeout, now, i, j);
    } else if i > 0 {
      assert c == [order[0]] + rest;
      CandidatesInOrder(order[1..], sessions, round, timeout, now, i - 1, j - 1);
    } else {
      assert c == [order[0]] + rest;
      assert c[j] == rest[j - 1];
    }
  }

  // Of the candidates of a round, those that are gone stood before those that are left.
  ghost predicate OldestGone(order: seq<UserId>, candidates: seq<UserId>, gone: set<UserId>) {
    forall a, b {:trigger Precedes(order, a, b)} ::
      a in candidates && b in candidates && a in gone && b !in gone ==> Precedes(order, a, b)
  }

  lemma FirstAreOldest(order: seq<UserId>, sessions: map<UserId, Session>, round: Round, timeout: int, now: Time,
                       n: nat)
    requires Distinct(order)
    ensures var c := Candidates(order, sessions, round, timeout, now); OldestGone(order, c, Elements(FirstOf(c, n)))
  {
    var c := Candidates(order, sessions, round, timeout, now);
    var gone := Elements(FirstOf(c, n));
    forall q | 0 <= q < |FirstOf(c, n)| ensures c[q] in gone { assert c[q] == FirstOf(c, n)[q]; }
    forall a, b | a in c && b in c && a in gone && b !in gone ensures Precedes(order, a, b) {
      var i :| 0 <= i < |FirstOf(c, n)| && FirstOf(c, n)[i] == a;
      var j :| 0 <= j < |c| && c[j] == b;
      CandidatesInOrder(order, sessions, round, timeout, now, i, j);
    }
  }

  lemma WithoutKeepsAllOrder(order: seq<UserId>, gone: set<UserId>)
    ensures KeepsOrder(order, Without(order, gone))
  {
    forall a, b | Precedes(Without(order, gone), a, b) ensures Precedes(order, a, b) {
      WithoutKeepsOrder(order, gone, a, b);
    }
  }

  lemma DistinctAt(order: seq<UserId>, k: nat)
    requires Distinct(order) && k < |order|
    ensures order[k] !in order[..k]
  {
    forall i | 0 <= i < k ensures order[i] != order[k] { assert Differ(order, i, k); }
  }

  class SessionStore {
    const timeout: int
    const maxAttempts: nat
    const blockDuration: int
    const maxSessions: nat
    var sessions: map<UserId, Session>
    var order: seq<UserId>

    ghost predicate Valid()
      reads this
    {
      0 < maxSessions && |sessions| <= maxSessions && Lists(order, sessions.Keys)
    }

    constructor (timeout: int, maxAttempts: nat, blockDuration: int, maxSessions: nat)
      requires 0 < maxSessions
      ensures Valid() && sessions == map[] && order == []
      ensures this.timeout == timeout && this.maxAttempts == maxAttempts
      ensures this.blockDuration == blockDuration && this.maxSessions == maxSessions
    {
      this.timeout, this.maxAttempts, this.blockDuration, this.maxSessions :=
        timeout, maxAttempts, blockDuration, maxSessions;
      sessions, order := map[], [];
    }

    // The candidates of a round are the matching sessions, each once.
    lemma Eligible(round: Round, now: Time)
      requires Valid()
      ensures Distinct(Candidates(order, sessions, round, timeout, now))
      ensures forall u :: u in Candidates(order, sessions, round, timeout, now) <==>
                          u in sessions && Matches(round, sessions[u], timeout, now)
      ensures Elements(Candidates(order, sessions, round, timeout, now)) <= sessions.Keys
    {
      CandidatesMatch(order, sessions, round, timeout, now);
      assert forall u :: Listed(order, u) <==> u in sessions.Keys;
    }

    method Delete(user: UserId)
      requires Valid() && user in sessions
      modifies this
      ensures Valid()
      ensures sessions == old(sessions) - {user} && order == Without(old(order), {user})
      ensures |sessions| == |old(sessions)| - 1 && KeepsOrder(old(order), order)
    {
      WithoutLists(order, sessions.Keys, {user});
      WithoutKeepsAllOrder(order, {user});
      sessions, order := sessions - {user}, Without(order, {user});
      assert sessions.Keys == old(sessions).Keys - {user};
    }

    method DeleteAll(users: seq<UserId>)
      requires Valid() && Distinct(users) && Elements(users) <= sessions.Keys
      modifies this
      ensures Valid()
      ensures sessions == old(sessions) - Elements(users) && |sessions| == |old(sessions)| - |users|
      ensures KeepsOrder(old(order), order)
    {
      ghost var before, gone := sessions, {};
      for i := 0 to |users|
        invariant Valid() && |sessions| == |before| - i && KeepsOrder(old(order), order)
        invariant sessions == before - gone && gone == Elements(users[..i])
      {
        DistinctAt(users, i);
        assert users[..i + 1] == users[..i] + [users[i]];
        assert users[i] in Elements(users);
        Delete(users[i]);
        RemoveBoth(before, gone, {users[i]});
        gone := gone + {users[i]};
      }
      assert users[..|users|] == users;
    }

    // Deletes the first `limit` sessions of the round, oldest first.
    method DropFirst(round: Round, limit: nat, now: Time) returns (ghost gone: set<UserId>)
      requires Valid()
      modifies this
      ensures Valid()
      ensures gone == Elements(FirstOf(Candidates(old(order), old(sessions), round, timeout, now), limit))
      ensures |sessions| ==
                |old(sessions)| - |FirstOf(Candidates(old(order), old(sessions), round, timeout, now), limit)|
      ensures sessions == old(sessions) - gone && gone <= old(sessions).Keys
      ensures KeepsOrder(old(order), order)
    {
      var all := FirstOf(Candidates(order, sessions, round, timeout, now), limit);
      Eligible(round, now);
      EligibleFirst(Candidates(order, sessions, round, timeout, now), limit);
      gone := Elements(all);
      DeleteAll(all);
    }

    // One round, seen from outside: only matching sessions go, at most `limit` of them, the
    // oldest first, and if fewer go then no matching one is left.
    method DropRound(round: Round, limit: nat, now: Time) returns (ghost gone: set<UserId>)
      requires Valid()
      modifies this
      ensures Valid()
      ensures sessions == old(sessions) - gone && gone <= old(sessions).Keys
      ensures OnlyMatching(round, gone, old(sessions), now)
      ensures |sessions| + limit >= |old(sessions)|
      ensures |sessions| + limit == |old(sessions)| || NoneMatching(round, sessions, now)
      ensures KeepsOrder(old(order), order) && OldestFirst(round, gone, old(sessions), old(order), now)
    {
      Eligible(round, now);
      ghost var all := Candidates(order, sessions, round, timeout, now);
      EligibleFirst(all, limit);
      FirstAreOldest(order, sessions, round, timeout, now, limit);
      gone := DropFirst(round, limit, now);
    }

    // Of the matching sessions, those that are gone stood before those that are left.
    ghost predicate OldestFirst(round: Round, gone: set<UserId>, before: map<UserId, Session>, order: seq<UserId>,
                                now: Time) {
      forall a, b {:trigger Precedes(order, a, b)} ::
        a in gone && a in before && b in before - gone && BothMatch(round, before[a], before[b], now) ==>
          Precedes(order, a, b)
    }

    predicate BothMatch(round: Round, s: Session, s': Session, now: Time) {
      Matches(round, s, timeout, now) && Matches(round, s', timeout, now)
    }

    // The same of unexpired sessions, for the authenticated ones and for the others.
    ghost predicate OldestUnexpiredFirst(gone: set<UserId>, before: map<UserId, Session>, order: seq<UserId>,
                                         now: Time) {
      forall a, b {:trigger Precedes(order, a, b)} ::
        a in gone && a in before && b in before - gone && AlikeUnexpired(before[a], before[b], now) ==>
          Precedes(order, a, b)
    }

    predicate AlikeUnexpired(s: Session, s': Session, now: Time) {
      && !IsExpired(s, timeout, now) && !IsExpired(s', timeout, now)
      && (s.state.Authenticated? <==> s'.state.Authenticated?)
    }

    ghost predicate OnlyMatching(round: Round, gone: set<UserId>, before: map<UserId, Session>, now: Time) {
      forall u :: u in gone ==> u in before && Matches(round, before[u], timeout, now)
    }

    ghost predicate NoneMatching(round: Round, left: map<UserId, Session>, now: Time) {
      forall u :: u in left ==> !Matches(round, left[u], timeout, now)
    }

    // What eviction may take: an unexpired session only when no expired one is left, an
    // unexpired authenticated one only when nothing else is left, and in either case no
    // more than it takes to make room for one.
    ghost predicate FairEviction(gone: set<UserId>, before: map<UserId, Session>, now: Time) {
      var left := before - gone;
      && gone <= before.Keys
      && (!OnlyMatching(ExpiredOnes, gone, before, now) ==>
            NoneMatching(ExpiredOnes, left, now) && |left| == maxSessions - 1)
      && (!UnexpiredAuthenticatedKept(gone, before, now) ==> NoneMatching(NotAuthenticatedOnes, left, now))
    }

    ghost predicate UnexpiredAuthenticatedKept(gone: set<UserId>, before: map<UserId, Session>, now: Time) {
      forall u :: u in gone && u in before ==> IsExpired(before[u], timeout, now) || !before[u].state.Authenticated?
    }

    lemma NothingLeft(now: Time)
      requires NoneMatching(AnyOnes, sessions, now)
      ensures |sessions| == 0
    {
      forall u ensures u !in sessions.Keys {
        assert u in sessions ==> Matches(AnyOnes, sessions[u], timeout, now);
      }
      assert sessions.Keys == {};
    }

    // The second and third round: sessions that are not authenticated, then any.
    method EvictUnexpired(now: Time) returns (ghost gone: set<UserId>)
      requires Valid() && NoneMatching(ExpiredOnes, sessions, now) && |sessions| >= maxSessions
      modifies this
      ensures Valid() && NoneMatching(ExpiredOnes, sessions, now) && |sessions| == maxSessions - 1
      ensures sessions == old(sessions) - gone && gone <= old(sessions).Keys
      ensures UnexpiredAuthenticatedKept(gone, old(sessions), now) || NoneMatching(NotAuthenticatedOnes, sessions, now)
      ensures OldestUnexpiredFirst(gone, old(sessions), old(order), now)
    {
      ghost var before, line := sessions, order;
      gone := DropRound(NotAuthenticatedOnes, |sessions| - maxSessions + 1, now);
      OldestOfOneRound(gone, before, line, now);
      if |sessions| < maxSessions { return; }
      ghost var line' := order;
      ghost var rest := DropRound(AnyOnes, |sessions| - maxSessions + 1, now);
      RemoveBoth(before, gone, rest);
      OldestOfTwoRounds(gone, rest, before, line, line', now);
      gone := gone + rest;
      if NoneMatching(AnyOnes, sessions, now) { NothingLeft(now); }
    }

    lemma OldestOfOneRound(gone: set<UserId>, before: map<UserId, Session>, order: seq<UserId>, now: Time)
      requires OnlyMatching(NotAuthenticatedOnes, gone, before, now)
      requires OldestFirst(NotAuthenticatedOnes, gone, before, order, now)
      ensures OldestUnexpiredFirst(gone, before, order, now)
    {
    }

    lemma OldestOfTwoRounds(gone: set<UserId>, rest: set<UserId>, before: map<UserId, Session>, order: seq<UserId>,
                            order': seq<UserId>, now: Time)
      requires OldestUnexpiredFirst(gone, before, order, now) && KeepsOrder(order, order')
      requires NoneMatching(NotAuthenticatedOnes, before - gone, now)
      requires OldestFirst(AnyOnes, rest, before - gone, order', now)
      ensures OldestUnexpiredFirst(gone + rest, before, order, now)
    {
      forall a, b | a in gone + rest && a in before && b in before - (gone + rest)
                    && AlikeUnexpired(before[a], before[b], now)
        ensures Precedes(order, a, b)
      {
        assert b in before - gone;
        if a !in gone { assert Precedes(order', a, b); }
      }
    }

    // Sessions that were expired before do not matter to it.
    lemma OldestAfterExpired(expired: set<UserId>, gone: set<UserId>, before: map<UserId, Session>, order: seq<UserId>,
                             order': seq<UserId>, now: Time)
      requires OnlyMatching(ExpiredOnes, expired, before, now) && KeepsOrder(order, order')
      requires OldestUnexpiredFirst(gone, before - expired, order', now)
      ensures OldestUnexpiredFirst(expired + gone, before, order, now)
    {
      forall a, b | a in expired + gone && a in before && b in before - (expired + gone)
                    && AlikeUnexpired(before[a], before[b], now)
        ensures Precedes(order, a, b)
      {
        assert a !in expired && a in before - expired && b in (before - expired) - gone;
        assert Precedes(order', a, b);
      }
    }

    method EvictIfNeeded(now: Time) returns (ghost gone: set<UserId>)
      requires Valid()
      modifies this
      ensures Valid() && |sessions| < maxSessions
      ensures sessions == old(sessions) - gone && FairEviction(gone, old(sessions), now)
      ensures |old(sessions)| < maxSessions ==> gone == {}
      ensures OldestUnexpiredFirst(gone, old(sessions), old(order), now)
      // Among unexpired sessions, authenticated or not, the oldest go first.
      ensures forall a, b {:trigger Precedes(old(order), a, b)} ::
                a in gone && b in sessions && old(sessions)[a].login.Some? && sessions[b].login.Some?
                && now <= old(sessions)[a].login.value + timeout && now <= sessions[b].login.value + timeout
                && (old(sessions)[a].state.Authenticated? <==> sessions[b].state.Authenticated?) ==>
                  Precedes(old(order), a, b)
      // Whoever goes unexpired goes for lack of room, when nobody is left expired.
      ensures forall u {:trigger u in gone} ::
                u in gone && old(sessions)[u].login.Some? && now <= old(sessions)[u].login.value + timeout ==>
                  |sessions| == maxSessions - 1
                  && forall v :: v in sessions ==>
                       sessions[v].login.Some? && now <= sessions[v].login.value + timeout
      // Whoever goes unexpired and authenticated goes when all who are left are so, too.
      ensures forall u {:trigger u in gone} ::
                u in gone && old(sessions)[u].login.Some? && now <= old(sessions)[u].login.value + timeout
                && old(sessions)[u].state.Authenticated? ==>
                  forall v :: v in sessions ==> sessions[v].state.Authenticated?
    {
      gone := {};
      ghost var before, line := sessions, order;
      NothingEvicted(before, now);
      if |sessions| < maxSessions { return; }
      gone := DropExpired(now);
      FairIfExpired(before, gone, now);
      if |sessions| < maxSessions { return; }
      ghost var line' := order;
      ghost var more := EvictUnexpired(now);
      OldestAfterExpired(gone, more, before, line, line', now);
      RemoveBoth(before, gone, more);
      FairInTwoSteps(before, gone, more, now);
      gone := gone + more;
    }

    lemma NothingEvicted(before: map<UserId, Session>, now: Time)
      ensures FairEviction({}, before, now) && before - {} == before
    {
    }

    lemma FairIfExpired(before: map<UserId, Session>, expired: set<UserId>, now: Time)
      requires expired <= before.Keys && OnlyMatching(ExpiredOnes, expired, before, now)
      ensures FairEviction(expired, before, now)
    {
    }

    lemma FairInTwoSteps(before: map<UserId, Session>, expired: set<UserId>, more: set<UserId>, now: Time)
      requires expired <= before.Keys && more <= (before - expired).Keys
      requires OnlyMatching(ExpiredOnes, expired, before, now)
      requires NoneMatching(ExpiredOnes, before - (expired + more), now)
      requires |before - (expired + more)| == maxSessions - 1
      requires UnexpiredAuthenticatedKept(more, before - expired, now)
               || NoneMatching(NotAuthenticatedOnes, before - (expired + more), now)
      ensures FairEviction(expired + more, before, now)
    {
    }

    // The first round takes every expired session.
    method DropExpired(now: Time) returns (ghost gone: set<UserId>)
      requires Valid()
      modifies this
      ensures Valid() && NoneMatching(ExpiredOnes, sessions, now)
      ensures sessions == old(sessions) - gone && gone <= old(sessions).Keys
      ensures OnlyMatching(ExpiredOnes, gone, old(sessions), now) && KeepsOrder(old(order), order)
    {
      gone := DropRound(ExpiredOnes, |sessions|, now);
      assert |sessions| == 0 ==> sessions == map[];
    }

    method Create(user: UserId)
      requires Valid() && user !in sessions && |sessions| < maxSessions
      modifies this
      ensures Valid() && sessions == old(sessions)[user := NEW_SESSION] && order == old(order) + [user]
    {
      AppendLists(order, sessions.Keys, user);
      sessions, order := sessions[user := NEW_SESSION], order + [user];
      assert sessions.Keys == old(sessions).Keys + {user};
    }

    // Only the creation of a session takes others away, fairly and for lack of room.
    ghost predicate Evicted(gone: set<UserId>, user: UserId, before: map<UserId, Session>, now: Time) {
      && FairEviction(gone, before, now)
      && user !in gone
      && (user in before || |before| < maxSessions ==> gone == {})
    }

    // The user's session, created if there is none; creation may evict others.
    method Ensure(user: UserId, now: Time) returns (ghost gone: set<UserId>)
      requires Valid()
      modifies this
      ensures Valid() && user in sessions && Evicted(gone, user, old(sessions), now)
      ensures user !in gone && (user in old(sessions) || |old(sessions)| < maxSessions ==> gone == {})
      ensures user !in old(sessions) ==> sessions[user] == Session(Unauthenticated, 0, None, None)
      ensures sessions == (old(sessions) - gone)[user := Lookup(old(sessions), user, NEW_SESSION)]
    {
      gone := {};
      NothingEvicted(sessions, now);
      if user !in sessions {
        gone := EvictIfNeeded(now);
        Create(user);
      }
    }

    method Write(user: UserId, session: Session)
      requires Valid() && user in sessions
      modifies this`sessions
      ensures Valid() && sessions == old(sessions)[user := session]
    {
      ghost var before := sessions;
      sessions := sessions[user := session];
      assert sessions.Keys == before.Keys;
    }

    // For a user with a session a setter changes that session alone.
    lemma NothingElse(before: map<UserId, Session>, gone: set<UserId>, user: UserId, now: Time, s: Session)
      requires Evicted(gone, user, before, now) && user in before
      ensures (before - gone)[user := s] == before[user := s]
    {
    }

    method SetAuthState(user: UserId, state: AuthState, now: Time) returns (ghost gone: set<UserId>)
      requires Valid()
      modifies this
      ensures Valid() && Evicted(gone, user, old(sessions), now)
      ensures sessions == (old(sessions) - gone)[user := Lookup(old(sessions), user, NEW_SESSION).(state := state)]
    {
      gone := Ensure(user, now);
      Write(user, sessions[user].(state := state));
    }

    method SetLoginTime(user: UserId, now: Time) returns (ghost gone: set<UserId>)
      requires Valid()
      modifies this
      ensures Valid() && Evicted(gone, user, old(sessions), now)
      ensures sessions == (old(sessions) - gone)[user := Lookup(old(sessions), user, NEW_SESSION).(login := Some(now))]
    {
      gone := Ensure(user, now);
      Write(user, sessions[user].(login := Some(now)));
    }

    method ResetTotpAttempts(user: UserId, now: Time) returns (ghost gone: set<UserId>)
      requires Valid()
      modifies this
      ensures Valid() && Evicted(gone, user, old(sessions), now)
      ensures sessions == (old(sessions) - gone)[user := Lookup(old(sessions), user, NEW_SESSION).(attempts := 0)]
    {
      gone := Ensure(user, now);
      Write(user, sessions[user].(attempts := 0));
    }

    // Without a duration, or with one of zero, the configured one applies.
    method SetBlockedTime(user: UserId, duration: int, now: Time) returns (ghost gone: set<UserId>)
      requires Valid()
      modifies this
      ensures Valid() && Evicted(gone, user, old(sessions), now)
      ensures var end := now + if duration != 0 then duration else blockDuration;
              sessions == (old(sessions) - gone)[user :=
                Lookup(old(sessions), user, NEW_SESSION).(state := Blocked, blockedUntil := Some(end))]
    {
      gone := Ensure(user, now);
      Write(user, BlockedFrom(sessions[user], now + if duration != 0 then duration else blockDuration));
    }

    static function BlockedFrom(s: Session, until: Time): Session {
      s.(state := Blocked, blockedUntil := Some(until))
    }

    // A failure is counted; from `maxAttempts` on every one blocks.
    method IncrementTotpAttempts(user: UserId, now: Time) returns (count: nat, ghost gone: set<UserId>)
      requires Valid()
      modifies this
      ensures Valid() && Evicted(gone, user, old(sessions), now)
      ensures var s := Lookup(old(sessions), user, NEW_SESSION);
              && count == s.attempts + 1
              && sessions == (old(sessions) - gone)[user := Failed(s, maxAttempts, blockDuration, now)]
              && sessions[user] == if count >= maxAttempts
                                   then Session(Blocked, count, Some(now + blockDuration), s.login)
                                   else s.(attempts := count)
    {
      gone := Ensure(user, now);
      count := sessions[user].attempts + 1;
      Write(user, Failed(sessions[user], maxAttempts, blockDuration, now));
    }

    static function Failed(s: Session, maxAttempts: nat, blockDuration: int, now: Time): Session {
      var counted := s.(attempts := s.attempts + 1);
      if counted.attempts >= maxAttempts then BlockedFrom(counted, now + blockDuration) else counted
    }

    method IsBlocked(user: UserId, now: Time) returns (blocked: bool, ghost gone: set<UserId>)
      requires Valid()
      modifies this
      ensures Valid() && Evicted(gone, user, old(sessions), now)
      ensures var s := Lookup(old(sessions), user, NEW_SESSION);
              && (blocked <==> s.blockedUntil.Some? && now <= s.blockedUntil.value)
              && sessions == (old(sessions) - gone)[user := AutoUnblocked(s, now)]
              && Unblocks(s, sessions[user], now)
    {
      gone := Ensure(user, now);
      if IsBlockedNow(sessions[user], now) { return true, gone; }
      Write(user, AutoUnblocked(sessions[user], now));
      return false, gone;
    }

    method IsAuthenticated(user: UserId, now: Time) returns (authenticated: bool, ghost gone: set<UserId>)
      requires Valid()
      modifies this
      ensures Valid() && Evicted(gone, user, old(sessions), now)
      ensures var s := Lookup(old(sessions), user, NEW_SESSION);
              && (authenticated <==>
                    && s.state.Authenticated? && (s.blockedUntil.Some? ==> s.blockedUntil.value < now)
                    && s.login.Some? && now <= s.login.value + timeout)
              && sessions == (old(sessions) - gone)[user := AutoUnblocked(s, now)]
              && Unblocks(s, sessions[user], now)
    {
      gone := Ensure(user, now);
      var blocked := IsBlockedNow(sessions[user], now);
      if !blocked { Write(user, AutoUnblocked(sessions[user], now)); }
      var s := sessions[user];
      return s.state.Authenticated? && !blocked && !IsExpired(s, timeout, now), gone;
    }

    // The cleanup thread and the statistics both drop exactly the expired sessions.
    method ClearExpired(now: Time) returns (ghost gone: set<UserId>)
      requires Valid()
      modifies this
      ensures Valid() && sessions == old(sessions) - gone && gone <= old(sessions).Keys
      ensures forall u :: u in old(sessions) ==>
                (u in gone <==> old(sessions)[u].login.None? || old(sessions)[u].login.value + timeout < now)
    {
      ghost var before := sessions;
      gone := DropExpired(now);
      forall u | u in before && u !in gone ensures !IsExpired(before[u], timeout, now) {
        assert u in sessions;
      }
    }
  }
}
