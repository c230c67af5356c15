// How many checked codes can fail within a minute when the session store blocks before the
// limit of attempts is reached: whoever reads the block after it was set waits for a
// minute, so that only those who read it before can still add to the failures.
module OverlapMinute {
  import opened Common
  import opened SlidingWindow
  import opened OverlapWorld

  // A handler that has read the block holds a ticket: it waits at the guards, or was
  // admitted to a check that is not counted yet.
  datatype Ticket = NoTicket | Waits(until: Option<Time>) | Admitted

  function TicketOf(stage: Stage): Ticket {
    match stage
    case AttemptsToRead(until) => Waits(until)
    case Guarding(until, _) => Waits(until)
    case Checking(_) => Admitted
    case Failing(read) => if read.Some? then Admitted else NoTicket
    case _ => NoTicket
  }

  function TicketAt(w: World, h: HandlerId): Ticket {
    if h in w.handlers then TicketOf(w.handlers[h]) else NoTicket
  }

  // All clock readings so far; since the session was created or its counter reset, the times
  // of the failures that blocked; of every ticket and every failed check, how many of these
  // there were when the block was read; which failed checks did not block, and of the
  // others, how many had blocked before.
  datatype Watch = Watch(moments: seq<Time>, blocks: seq<Time>, seen: map<HandlerId, nat>, free: set<nat>,
                         read: map<nat, nat>, at: map<nat, nat>)

  function Last(v: Watch): Time {
    if v.moments == [] then 0 else v.moments[|v.moments| - 1]
  }

  const MINUTE := 60

  // A block set then is no obstacle any more only if a minute has passed.
  predicate Holds(until: Option<Time>, blocked: Time, last: Time) {
    (until.Some? && blocked + MINUTE <= until.value) || blocked + MINUTE <= last
  }

  ghost predicate SessionHeld(w: World, v: Watch) {
    forall q :: 0 <= q < |v.blocks| ==> Holds(w.session.blockedUntil, v.blocks[q], Last(v))
  }

  ghost predicate TicketHeld(w: World, v: Watch, h: HandlerId)
    requires h in v.seen && v.seen[h] <= |v.blocks|
  {
    match TicketAt(w, h)
    case NoTicket => true
    case Waits(until) => forall q :: 0 <= q < v.seen[h] ==> Holds(until, v.blocks[q], Last(v))
    case Admitted =>
      && h in w.slots && w.slots[h] < |w.admitted| && w.admitted[w.slots[h]] <= Last(v)
      && forall q :: 0 <= q < v.seen[h] ==> v.blocks[q] + MINUTE <= w.admitted[w.slots[h]]
  }

  ghost predicate TicketFine(w: World, v: Watch, h: HandlerId) {
    TicketAt(w, h) != NoTicket ==>
      h in v.seen && v.seen[h] <= |v.blocks| && (Ordered(v.moments) ==> TicketHeld(w, v, h))
  }

  // A failed check that blocked was admitted no later than it blocked, and a minute after
  // every block it had read.
  ghost predicate FailureFine(w: World, v: Watch, n: nat) {
    n in w.failed && n !in v.free ==>
      && n in v.read && n in v.at && v.read[n] <= v.at[n] < |v.blocks| && n < |w.admitted|
      && (Ordered(v.moments) ==>
            && w.admitted[n] <= v.blocks[v.at[n]]
            && forall q :: 0 <= q < v.read[n] ==> v.blocks[q] + MINUTE <= w.admitted[n])
  }

  // Each blocked by itself.
  ghost predicate FailuresDiffer(w: World, v: Watch, n: nat, n': nat) {
    n in w.failed && n !in v.free && n' in w.failed && n' !in v.free && n in v.at && n' in v.at ==> v.at[n] != v.at[n']
  }

  // Those who had read the block before a given failure blocked: the tickets out, and the
  // failed checks counted since.
  function Holders(w: World, v: Watch, q: nat): set<HandlerId> {
    set h | h in w.handlers && TicketAt(w, h) != NoTicket && h in v.seen && v.seen[h] <= q
  }

  function Later(w: World, v: Watch, q: nat): set<nat> {
    set n | n in w.failed && n !in v.free && n in v.read && n in v.at && v.read[n] <= q < v.at[n]
  }

  ghost predicate FewSince(w: World, v: Watch, q: nat) {
    q < |v.blocks| ==> |Holders(w, v, q)| + |Later(w, v, q)| < w.peak
  }

  // The failures that did not block are fewer than the attempts the store allows.
  ghost predicate FewFree(w: World, v: Watch, maxAttempts: nat) {
    && v.free <= w.failed && |v.free| <= w.failures
    && |v.free| < Max(1, maxAttempts)
    && |w.handlers| <= w.peak
  }

  ghost predicate BlocksInOrder(v: Watch) {
    Ordered(v.moments) ==> Ordered(v.blocks) && NoneAfter(v.blocks, Last(v))
  }

  ghost predicate Watched(w: World, v: Watch, maxAttempts: nat) {
    && FewFree(w, v, maxAttempts) && BlocksInOrder(v)
    && (v.moments == [] ==> v.blocks == [] && w.slots == map[])
    && (Ordered(v.moments) ==> SessionHeld(w, v))
    && Tickets(w, v) && Failures(w, v) && Few(w, v)
  }

  ghost predicate Tickets(w: World, v: Watch) {
    forall h {:trigger TicketFine(w, v, h)} :: TicketFine(w, v, h)
  }

  ghost predicate Failures(w: World, v: Watch) {
    && (forall n {:trigger FailureFine(w, v, n)} :: FailureFine(w, v, n))
    && (forall n, n' {:trigger FailuresDiffer(w, v, n, n')} :: n != n' ==> FailuresDiffer(w, v, n, n'))
  }

  ghost predicate Few(w: World, v: Watch) {
    forall q {:trigger FewSince(w, v, q)} :: FewSince(w, v, q)
  }

  function At(v: Watch, now: Time): Watch {
    v.(moments := v.moments + [now])
  }

  lemma LastMoves(v: Watch, now: Time)
    requires Ordered(At(v, now).moments)
    ensures Ordered(v.moments) && Last(At(v, now)) == now && (v.moments != [] ==> Last(v) <= now)
  {
    OrderedAppend(v.moments, now);
  }

  // A reading alone changes nothing.
  lemma ReadingWatched(w: World, v: Watch, maxAttempts: nat, now: Time)
    requires Watched(w, v, maxAttempts)
    ensures Watched(w, At(v, now), maxAttempts)
  {
    var v' := At(v, now);
    if Ordered(v'.moments) { LastMoves(v, now); }
    forall h ensures TicketFine(w, v', h) { assert TicketFine(w, v, h); }
    forall n ensures FailureFine(w, v', n) { assert FailureFine(w, v, n); }
    forall n, n' | n != n' ensures FailuresDiffer(w, v', n, n') { assert FailuresDiffer(w, v, n, n'); }
    forall q: nat ensures FewSince(w, v', q) {
      assert FewSince(w, v, q);
      assert Holders(w, v', q) == Holders(w, v, q) && Later(w, v', q) == Later(w, v, q);
    }
  }

  // What a step does that gives out no ticket and counts nothing: tickets are kept or given
  // back, admissions may come on top, and the block is not made to end before a minute.
  ghost predicate Quiet(w: World, w': World, last: Time) {
    && w'.failed == w.failed && w'.failures == w.failures && w'.slots == w.slots
    && |w.admitted| <= |w'.admitted| && w.admitted == w'.admitted[..|w.admitted|]
    && w.peak <= w'.peak && |w'.handlers| <= w'.peak
    && (forall h {:trigger TicketKept(w, w', h)} :: TicketKept(w, w', h))
    && UntilKept(w.session.blockedUntil, w'.session.blockedUntil, last)
  }

  ghost predicate TicketKept(w: World, w': World, h: HandlerId) {
    TicketAt(w', h) == NoTicket || TicketAt(w', h) == TicketAt(w, h)
  }

  predicate UntilKept(until: Option<Time>, until': Option<Time>, now: Time) {
    || until' == until
    || (until'.Some? && now + MINUTE <= until'.value)
    || (until.Some? && until.value < now)
  }

  lemma QuietWatched(w: World, w': World, v: Watch, maxAttempts: nat)
    requires Watched(w, v, maxAttempts) && Quiet(w, w', Last(v))
    ensures Watched(w', v, maxAttempts)
  {
    forall h ensures TicketFine(w', v, h) { assert TicketFine(w, v, h) && TicketKept(w, w', h); }
    forall n ensures FailureFine(w', v, n) { assert FailureFine(w, v, n); }
    forall n, n' | n != n' ensures FailuresDiffer(w', v, n, n') { assert FailuresDiffer(w, v, n, n'); }
    forall q: nat ensures FewSince(w', v, q) {
      assert FewSince(w, v, q);
      assert Later(w', v, q) == Later(w, v, q);
      forall h | h in Holders(w', v, q) ensures h in Holders(w, v, q) { assert TicketKept(w, w', h); }
      SubsetIsSmaller(Holders(w', v, q), Holders(w, v, q));
    }
    if Ordered(v.moments) { assert SessionHeld(w', v); }
  }

  // Reading the block gives out a ticket.
  lemma TicketWatched(w: World, v: Watch, maxAttempts: nat, h: HandlerId)
    requires Watched(w, v, maxAttempts) && h in w.handlers && TicketAt(w, h) == NoTicket
    ensures Watched(w.(handlers := w.handlers[h := AttemptsToRead(w.session.blockedUntil)]),
                    v.(seen := v.seen[h := |v.blocks|]), maxAttempts)
  {
    var w' := w.(handlers := w.handlers[h := AttemptsToRead(w.session.blockedUntil)]);
    var v' := v.(seen := v.seen[h := |v.blocks|]);
    assert w'.handlers.Keys == w.handlers.Keys;
    forall b ensures TicketFine(w', v', b) { assert TicketFine(w, v, b); }
    forall n ensures FailureFine(w', v', n) { assert FailureFine(w, v, n); }
    forall n, n' | n != n' ensures FailuresDiffer(w', v', n, n') { assert FailuresDiffer(w, v, n, n'); }
    forall q: nat ensures FewSince(w', v', q) {
      assert FewSince(w, v, q);
      if q < |v.blocks| {
        assert Holders(w', v', q) == Holders(w, v, q);
        assert Later(w', v', q) == Later(w, v, q);
      }
    }
  }

  // Passing the guards under an admission of its own.
  lemma AdmissionWatched(w: World, v: Watch, maxAttempts: nat, h: HandlerId, attempts: nat)
    requires Watched(w, v, maxAttempts) && TicketAt(w, h).Waits?
    requires TicketAt(w, h).until.Some? ==> TicketAt(w, h).until.value <= Last(v)
    requires v.moments != []
    ensures Watched(w.(handlers := w.handlers[h := Checking(attempts)], admitted := w.admitted + [Last(v)],
                       slots := w.slots[h := |w.admitted|]), v, maxAttempts)
  {
    var w' := w.(handlers := w.handlers[h := Checking(attempts)], admitted := w.admitted + [Last(v)],
                 slots := w.slots[h := |w.admitted|]);
    assert w'.handlers.Keys == w.handlers.Keys;
    forall b ensures TicketFine(w', v, b) { assert TicketFine(w, v, b); }
    forall n ensures FailureFine(w', v, n) { assert FailureFine(w, v, n); }
    forall n, n' | n != n' ensures FailuresDiffer(w', v, n, n') { assert FailuresDiffer(w, v, n, n'); }
    forall q: nat ensures FewSince(w', v, q) {
      assert FewSince(w, v, q);
      assert Holders(w', v, q) == Holders(w, v, q) && Later(w', v, q) == Later(w, v, q);
    }
  }

  // A new epoch: the session was removed or its counter reset.
  lemma ResetWatched(w: World, w': World, v: Watch, maxAttempts: nat)
    requires Watched(w, v, maxAttempts)
    requires w'.failures == 0 && w'.failed == {} && w'.slots == w.slots && w'.admitted == w.admitted
    requires w'.peak == w.peak && |w'.handlers| <= |w.handlers|
    requires forall h {:trigger TicketKept(w, w', h)} :: TicketKept(w, w', h)
    ensures Watched(w', v.(blocks := [], seen := map h | h in v.seen :: 0, free := {}), maxAttempts)
  {
    var v' := v.(blocks := [], seen := map h | h in v.seen :: 0, free := {});
    forall h ensures TicketFine(w', v', h) { assert TicketFine(w, v, h) && TicketKept(w, w', h); }
    forall n ensures FailureFine(w', v', n) {}
    forall n, n' | n != n' ensures FailuresDiffer(w', v', n, n') {}
    forall q: nat ensures FewSince(w', v', q) {}
  }

  // A failure is counted: its handler leaves, and may add an admission to the failed ones.
  predicate CountsOne(w: World, w': World, h: HandlerId, mine: set<nat>) {
    && h in w.handlers && w'.handlers == w.handlers - {h}
    && w'.failures == w.failures + 1 && w'.failed == w.failed + mine
    && w'.admitted == w.admitted && w'.slots == w.slots && w'.peak == w.peak
  }

  // The admission of a check that failed.
  function Mine(w: World, h: HandlerId): set<nat> {
    if TicketAt(w, h).Admitted? && h in w.slots then {w.slots[h]} else {}
  }

  lemma MineIsNew(w: World, h: HandlerId)
    requires OwnSlot(w, h)
    ensures Mine(w, h) !! w.failed && |Mine(w, h)| <= 1 && forall n :: n in Mine(w, h) ==> n < |w.admitted|
  {
  }

  lemma FreeIsFew(w: World, w': World, v: Watch, v': Watch, maxAttempts: nat, h: HandlerId, mine: set<nat>)
    requires FewFree(w, v, maxAttempts) && CountsOne(w, w', h, mine) && |mine| <= 1
    requires v' == v.(free := v.free + mine) && w.failures + 1 < maxAttempts
    ensures FewFree(w', v', maxAttempts)
  {
    HoldersWithout(w, w', v, v', h, mine, 0);
    assert |v.free + mine| <= |v.free| + |mine|;
  }

  lemma CountedTickets(w: World, w': World, v: Watch, v': Watch, h: HandlerId, mine: set<nat>)
    requires Tickets(w, v) && CountsOne(w, w', h, mine) && v'.seen == v.seen && v'.moments == v.moments
    requires v'.blocks == v.blocks || v'.blocks == v.blocks + [Last(v)]
    ensures Tickets(w', v')
  {
    forall b ensures TicketFine(w', v', b) { assert TicketFine(w, v, b); }
  }

  lemma HoldersWithout(w: World, w': World, v: Watch, v': Watch, h: HandlerId, mine: set<nat>, q: nat)
    requires CountsOne(w, w', h, mine) && v'.seen == v.seen
    ensures Holders(w', v', q) == Holders(w, v, q) - {h}
    ensures |w'.handlers| == |w.handlers| - 1 && |Holders(w', v', q)| <= |w'.handlers|
  {
    assert w'.handlers.Keys == w.handlers.Keys - {h};
    SubsetIsSmaller(Holders(w', v', q), w'.handlers.Keys);
  }

  // A failure that does not block.
  lemma FreeFailures(w: World, w': World, v: Watch, v': Watch, h: HandlerId, mine: set<nat>)
    requires Failures(w, v) && CountsOne(w, w', h, mine) && v' == v.(free := v.free + mine)
    ensures Failures(w', v')
  {
    forall n ensures FailureFine(w', v', n) { assert FailureFine(w, v, n); }
    forall n, n' | n != n' ensures FailuresDiffer(w', v', n, n') { assert FailuresDiffer(w, v, n, n'); }
  }

  lemma FreeFew(w: World, w': World, v: Watch, v': Watch, h: HandlerId, mine: set<nat>)
    requires Few(w, v) && CountsOne(w, w', h, mine) && v' == v.(free := v.free + mine) && mine !! w.failed
    ensures Few(w', v')
  {
    forall q: nat ensures FewSince(w', v', q) {
      assert FewSince(w, v, q);
      HoldersWithout(w, w', v, v', h, mine, q);
      SubsetIsSmaller(Holders(w', v', q), Holders(w, v, q));
      assert Later(w', v', q) == Later(w, v, q);
    }
  }

  lemma StillHeld(w: World, w': World, v: Watch, v': Watch)
    requires BlocksInOrder(v) && (Ordered(v.moments) ==> SessionHeld(w, v))
    requires v'.moments == v.moments && v'.blocks == v.blocks
    requires w'.session.blockedUntil == w.session.blockedUntil
    ensures BlocksInOrder(v') && (Ordered(v'.moments) ==> SessionHeld(w', v'))
  {
  }

  lemma FreeWatched(w: World, w': World, v: Watch, v': Watch, maxAttempts: nat, h: HandlerId)
    requires Watched(w, v, maxAttempts) && OwnSlot(w, h) && CountsOne(w, w', h, Mine(w, h))
    requires w.failures + 1 < maxAttempts && w'.session.blockedUntil == w.session.blockedUntil
    requires v' == v.(free := v.free + Mine(w, h))
    ensures Watched(w', v', maxAttempts)
  {
    var mine := Mine(w, h);
    MineIsNew(w, h);
    StillHeld(w, w', v, v');
    FreeIsFew(w, w', v, v', maxAttempts, h, mine);
    CountedTickets(w, w', v, v', h, mine);
    FreeFailures(w, w', v, v', h, mine);
    FreeFew(w, w', v, v', h, mine);
  }

  // A failure that blocks, at the latest reading.
  ghost predicate Blocks(w: World, v: Watch, v': Watch, h: HandlerId, mine: set<nat>) {
    && v'.moments == v.moments && v'.seen == v.seen && v'.free == v.free
    && v'.blocks == v.blocks + [Last(v)]
    && (forall n :: n !in mine ==> (n in v.read <==> n in v'.read) && (n in v.at <==> n in v'.at))
    && (forall n :: n !in mine && n in v.read ==> v'.read[n] == v.read[n])
    && (forall n :: n !in mine && n in v.at ==> v'.at[n] == v.at[n])
    && (forall n :: n in mine ==> h in v.seen && n in v'.read && v'.read[n] == v.seen[h]
                                  && n in v'.at && v'.at[n] == |v.blocks|)
  }

  lemma BlockedFailures(w: World, w': World, v: Watch, v': Watch, h: HandlerId, mine: set<nat>)
    requires Failures(w, v) && CountsOne(w, w', h, mine) && mine == Mine(w, h) && Blocks(w, v, v', h, mine)
    requires TicketFine(w, v, h) && mine !! w.failed && v.free <= w.failed
    requires forall n :: n in mine ==> n < |w.admitted|
    ensures Failures(w', v')
  {
    forall n ensures FailureFine(w', v', n) { assert FailureFine(w, v, n); }
    forall n, n' | n != n' ensures FailuresDiffer(w', v', n, n') {
      assert FailuresDiffer(w, v, n, n') && FailureFine(w, v, n) && FailureFine(w, v, n');
    }
  }

  lemma BlockedFew(w: World, w': World, v: Watch, v': Watch, h: HandlerId, mine: set<nat>)
    requires Few(w, v) && CountsOne(w, w', h, mine) && mine == Mine(w, h) && Blocks(w, v, v', h, mine)
    requires Failures(w, v) && TicketFine(w, v, h) && mine !! w.failed && |w.handlers| <= w.peak
    ensures Few(w', v')
  {
    forall q: nat ensures FewSince(w', v', q) {
      HoldersWithout(w, w', v, v', h, mine, q);
      assert FewSince(w, v, q);
      forall n | n in w.failed && n !in v.free ensures n in v.at && v.at[n] < |v.blocks| {
        assert FailureFine(w, v, n);
      }
      if q < |v.blocks| {
        LaterGains(w, w', v, v', h, mine, q);
      } else if q == |v.blocks| {
        assert Later(w', v', q) == {};
      }
    }
  }

  lemma LaterGains(w: World, w': World, v: Watch, v': Watch, h: HandlerId, mine: set<nat>, q: nat)
    requires CountsOne(w, w', h, mine) && mine == Mine(w, h) && Blocks(w, v, v', h, mine) && mine !! w.failed
    requires q < |v.blocks|
    ensures |Later(w', v', q)| <= |Later(w, v, q)| + One(h in Holders(w, v, q))
  {
    var gained := if h in Holders(w, v, q) then mine else {};
    forall n | n in Later(w', v', q) ensures n in Later(w, v, q) + gained {}
    SubsetIsSmaller(Later(w', v', q), Later(w, v, q) + gained);
    assert |mine| <= 1;
  }

  lemma BlockIsHeld(w: World, w': World, v: Watch, v': Watch)
    requires BlocksInOrder(v) && (Ordered(v.moments) ==> SessionHeld(w, v))
    requires v'.moments == v.moments && v'.blocks == v.blocks + [Last(v)]
    requires w'.session.blockedUntil.Some? && Last(v) + MINUTE <= w'.session.blockedUntil.value
    ensures BlocksInOrder(v') && (Ordered(v'.moments) ==> SessionHeld(w', v'))
  {
    if Ordered(v.moments) { LateAppend(v.blocks, Last(v), 0); }
  }

  lemma BlockedWatched(w: World, w': World, v: Watch, v': Watch, maxAttempts: nat, h: HandlerId)
    requires Watched(w, v, maxAttempts) && OwnSlot(w, h) && CountsOne(w, w', h, Mine(w, h))
    requires w'.session.blockedUntil.Some? && Last(v) + MINUTE <= w'.session.blockedUntil.value
    requires Blocks(w, v, v', h, Mine(w, h)) && v.moments != []
    ensures Watched(w', v', maxAttempts)
  {
    var mine := Mine(w, h);
    MineIsNew(w, h);
    assert TicketFine(w, v, h);
    BlockIsHeld(w, w', v, v');
    HoldersWithout(w, w', v, v', h, mine, 0);
    CountedTickets(w, w', v, v', h, mine);
    BlockedFailures(w, w', v, v', h, mine);
    BlockedFew(w, w', v, v', h, mine);
  }

  // The first failure that blocked at this time or later.
  lemma {:induction false} FirstFrom(blocks: seq<Time>, start: Time) returns (q: nat)
    ensures q <= |blocks| && AllBefore(blocks, q, start) && (q < |blocks| ==> start <= blocks[q])
    decreases |blocks|
  {
    if blocks == [] || start <= blocks[0] {
      q := 0;
    } else {
      var r := FirstFrom(blocks[1..], start);
      q := r + 1;
      forall i | 0 <= i < q ensures blocks[i] < start { if i > 0 { assert blocks[i] == blocks[1..][i - 1]; } }
    }
  }

  // A failed check that blocked and was admitted in the minute had read the block before
  // the first failure that blocked then, and was counted no sooner than that one.
  lemma FailedIsLater(w: World, v: Watch, start: Time, q: nat, n: nat)
    requires FailureFine(w, v, n) && Ordered(v.moments) && n in w.failed && n !in v.free
    requires n < |w.admitted| && start <= w.admitted[n] < start + MINUTE
    requires q <= |v.blocks| && AllBefore(v.blocks, q, start) && (q < |v.blocks| ==> start <= v.blocks[q])
    ensures q < |v.blocks| && n in v.at && (v.at[n] == q || n in Later(w, v, q))
  {
  }

  // So in a minute no more codes fail than the store allows attempts, and one for each
  // other message on its way.
  lemma FewInMinute(w: World, v: Watch, maxAttempts: nat, start: Time)
    requires Watched(w, v, maxAttempts) && Ordered(v.moments) && 1 <= w.peak
    ensures |FailedIn(w, start, start + MINUTE - 1)| <= Max(1, maxAttempts) - 1 + w.peak
  {
    var failed := FailedIn(w, start, start + MINUTE - 1);
    var blocking := failed - v.free;
    var q := FirstFrom(v.blocks, start);
    forall n | n in blocking ensures q < |v.blocks| && n in v.at && (v.at[n] == q || n in Later(w, v, q)) {
      assert FailureFine(w, v, n);
      FailedIsLater(w, v, start, q, n);
    }
    assert FewSince(w, v, q);
    if n :| n in blocking && v.at[n] == q {
      forall n' | n' in blocking && n' != n ensures n' in Later(w, v, q) { assert FailuresDiffer(w, v, n, n'); }
      SubsetIsSmaller(blocking, Later(w, v, q) + {n});
    } else {
      SubsetIsSmaller(blocking, Later(w, v, q));
    }
    SubsetIsSmaller(failed, v.free + blocking);
  }

  // Unfolded only where `Watched` is mentioned; a store that blocks for less than a minute
  // is not watched.
  ghost predicate Watchful(w: World, v: Watch, maxAttempts: nat, blockDuration: int) {
    forall m {:trigger Watched(w, v, m)} :: m == maxAttempts && MINUTE <= blockDuration ==> Watched(w, v, m)
  }

  lemma TickKeeps(w: World, v: Watch, maxAttempts: nat, blockDuration: int, now: Time)
    requires Watchful(w, v, maxAttempts, blockDuration)
    ensures Watchful(w, At(v, now), maxAttempts, blockDuration)
  {
    if MINUTE <= blockDuration {
      assert Watched(w, v, maxAttempts);
      ReadingWatched(w, v, maxAttempts, now);
    }
  }

  // A step of one handler that gives out no ticket and counts nothing.
  ghost predicate Plain(w: World, w': World, h: HandlerId) {
    && w'.failed == w.failed && w'.failures == w.failures && w'.slots == w.slots
    && |w.admitted| <= |w'.admitted| && w.admitted == w'.admitted[..|w.admitted|]
    && w.peak <= w'.peak && (|w'.handlers| <= |w.handlers| || |w'.handlers| <= w'.peak)
    && (forall b :: b != h && b in w'.handlers ==> b in w.handlers && w'.handlers[b] == w.handlers[b])
    && TicketKept(w, w', h)
  }

  lemma PlainKeeps(w: World, w': World, h: HandlerId, v: Watch, maxAttempts: nat, blockDuration: int)
    requires Watchful(w, v, maxAttempts, blockDuration) && Plain(w, w', h)
    requires MINUTE <= blockDuration ==> UntilKept(w.session.blockedUntil, w'.session.blockedUntil, Last(v))
    ensures Watchful(w', v, maxAttempts, blockDuration)
  {
    if MINUTE <= blockDuration {
      assert Watched(w, v, maxAttempts);
      forall b ensures TicketKept(w, w', b) { assert b == h || TicketAt(w', b) == NoTicket || b in w.handlers; }
      QuietWatched(w, w', v, maxAttempts);
    }
  }

  lemma TicketKeeps(w: World, h: HandlerId, v: Watch, maxAttempts: nat, blockDuration: int)
    requires Watchful(w, v, maxAttempts, blockDuration) && h in w.handlers && TicketAt(w, h) == NoTicket
    ensures Watchful(w.(handlers := w.handlers[h := AttemptsToRead(w.session.blockedUntil)]),
                     v.(seen := v.seen[h := |v.blocks|]), maxAttempts, blockDuration)
  {
    if MINUTE <= blockDuration {
      assert Watched(w, v, maxAttempts);
      TicketWatched(w, v, maxAttempts, h);
    }
  }

  lemma AdmissionKeepsWatch(w: World, h: HandlerId, v: Watch, maxAttempts: nat, blockDuration: int, attempts: nat)
    requires Watchful(w, v, maxAttempts, blockDuration) && TicketAt(w, h).Waits? && v.moments != []
    requires TicketAt(w, h).until.Some? ==> TicketAt(w, h).until.value <= Last(v)
    ensures Watchful(w.(handlers := w.handlers[h := Checking(attempts)], admitted := w.admitted + [Last(v)],
                        slots := w.slots[h := |w.admitted|]), v, maxAttempts, blockDuration)
  {
    if MINUTE <= blockDuration {
      assert Watched(w, v, maxAttempts);
      AdmissionWatched(w, v, maxAttempts, h, attempts);
    }
  }

  function NewEpoch(v: Watch): Watch {
    v.(blocks := [], seen := map h | h in v.seen :: 0, free := {})
  }

  lemma ResetKeeps(w: World, w': World, h: HandlerId, v: Watch, maxAttempts: nat, blockDuration: int)
    requires Watchful(w, v, maxAttempts, blockDuration)
    requires w'.failures == 0 && w'.failed == {} && Plain(w.(failures := 0, failed := {}), w', h)
    requires w'.admitted == w.admitted && w'.peak == w.peak && |w'.handlers| <= |w.handlers|
    ensures Watchful(w', NewEpoch(v), maxAttempts, blockDuration)
  {
    if MINUTE <= blockDuration {
      assert Watched(w, v, maxAttempts);
      forall b ensures TicketKept(w, w', b) { assert b == h || TicketAt(w', b) == NoTicket || b in w.handlers; }
      ResetWatched(w, w', v, maxAttempts);
    }
  }

  // What a counted failure leaves to watch.
  function AfterFailure(w: World, h: HandlerId, v: Watch, maxAttempts: nat): Watch {
    if w.failures + 1 < maxAttempts then v.(free := v.free + Mine(w, h))
    else
      var v' := v.(blocks := v.blocks + [Last(v)]);
      if Mine(w, h) != {} && h in v.seen
      then v'.(read := v.read[w.slots[h] := v.seen[h]], at := v.at[w.slots[h] := |v.blocks|])
      else v'
  }

  lemma FailureKeepsWatch(w: World, w': World, h: HandlerId, v: Watch, maxAttempts: nat, blockDuration: int)
    requires Watchful(w, v, maxAttempts, blockDuration) && OwnSlot(w, h) && CountsOne(w, w', h, Mine(w, h))
    requires v.moments != []
    requires if w.failures + 1 < maxAttempts then w'.session.blockedUntil == w.session.blockedUntil
             else w'.session.blockedUntil == Some(Last(v) + blockDuration)
    ensures Watchful(w', AfterFailure(w, h, v, maxAttempts), maxAttempts, blockDuration)
  {
    if MINUTE <= blockDuration {
      assert Watched(w, v, maxAttempts);
      var v' := AfterFailure(w, h, v, maxAttempts);
      if w.failures + 1 < maxAttempts {
        FreeWatched(w, w', v, v', maxAttempts, h);
      } else {
        assert TicketFine(w, v, h);
        BlockedWatched(w, w', v, v', maxAttempts, h);
      }
    }
  }
}
