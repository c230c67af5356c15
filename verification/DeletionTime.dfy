// The message-deletion scheduler over time: how long workers sleep and how far cleanups
// lie apart decide how many workers of one user can be alive at once.
module DeletionTime {
  import opened Common
  import opened Deletion

  // The pause between two cleanups.
  const PAUSE := 300

  // The present, when each live worker was started and is due, when the task of a live
  // worker was taken away, the times of all cleanups, and the users one of whose messages
  // was scheduled once more while an earlier worker of it was alive.  The bots found dead,
  // and whether no worker was ever overdue when something happened.
  datatype Times = Times(clock: int, born: map<WorkerId, int>, due: map<WorkerId, int>, lost: map<WorkerId, int>,
                         sweeps: seq<int>, reusers: set<UserId>, gone: set<BotId>, prompt: bool)

  predicate NoneOverdue(due: map<WorkerId, int>, now: int) {
    forall w :: w in due ==> now <= due[w]
  }

  function At(c: Times, now: int): Times {
    c.(clock := now, prompt := c.prompt && NoneOverdue(c.due, now))
  }

  function Started(t: Tables, c: Times, k: TaskKey, delay: int, worker: WorkerId, now: int): Times {
    At(c, now).(born := c.born[worker := now], due := c.due[worker := now + delay],
                reusers := if k in t.workers.Values then c.reusers + {k.user} else c.reusers)
  }

  function Ended(c: Times, worker: WorkerId, now: int): Times {
    At(c, now).(born := c.born - {worker}, due := c.due - {worker}, lost := c.lost - {worker})
  }

  // The live workers whose tasks a cleanup takes away.
  function Losers(t: Tables, c: Times, dead: set<BotId>): set<WorkerId> {
    set w | w in t.workers && w !in c.lost && t.workers[w] in t.active && t.active[t.workers[w]] in dead
  }

  function Swept(t: Tables, c: Times, dead: set<BotId>, now: int): Times {
    At(c, now).(lost := c.lost + map w | w in Losers(t, c, dead) :: now, sweeps := c.sweeps + [now],
                gone := c.gone + dead)
  }

  // Cleanups lie a pause apart, and none is later than now.
  predicate Spaced(sweeps: seq<int>, now: int) {
    && (forall i, j :: 0 <= i < j < |sweeps| ==> sweeps[i] + PAUSE <= sweeps[j])
    && forall i :: 0 <= i < |sweeps| ==> sweeps[i] <= now
  }

  function LostAt(t: Tables, c: Times, user: UserId, time: int): set<WorkerId> {
    set w | w in WorkersOf(t.workers, user) && w in c.lost && c.lost[w] == time
  }

  // A live worker was started in the past; if its task was taken away, by a cleanup since.
  ghost predicate Dated(t: Tables, c: Times, w: WorkerId) {
    && (w in t.workers <==> w in c.born) && (w in t.workers <==> w in c.due) && (w in c.lost ==> w in t.workers)
    && (w in c.born ==> c.born[w] <= c.clock)
    && (w in c.lost ==> c.born[w] <= c.lost[w] && c.lost[w] in c.sweeps)
    && (w in c.due ==> c.born[w] + MIN_DELAY <= c.due[w] <= c.born[w] + MAX_DELAY)
  }

  // The workers of a user who scheduled nothing twice have messages of their own, each is
  // tracked or was lost, and no cleanup took more than three.
  ghost predicate Tidy(t: Tables, c: Times, user: UserId) {
    user !in c.reusers ==>
      && AllDiffer(WorkersOf(t.workers, user), t.workers)
      && (forall w :: w in WorkersOf(t.workers, user) ==> w in c.lost || t.workers[w] in t.active)
      && forall time {:trigger LostAt(t, c, user, time)} :: |LostAt(t, c, user, time)| <= MAX_PENDING
  }

  ghost predicate Timed(t: Tables, c: Times) {
    && Coherent(t) && Spaced(c.sweeps, c.clock)
    && (forall w {:trigger Dated(t, c, w)} :: Dated(t, c, w))
    && (forall u {:trigger Tidy(t, c, u)} :: Tidy(t, c, u))
  }

  lemma LaterSpaced(sweeps: seq<int>, clock: int, now: int)
    requires Spaced(sweeps, clock) && clock <= now
    ensures Spaced(sweeps, now)
    ensures sweeps == [] || sweeps[|sweeps| - 1] + PAUSE <= now ==> Spaced(sweeps + [now], now)
  {
  }

  lemma MonotoneLost(t: Tables, c: Times, t': Tables, c': Times, user: UserId, time: int)
    requires |LostAt(t, c, user, time)| <= MAX_PENDING
    requires LostAt(t', c', user, time) <= LostAt(t, c, user, time)
    ensures |LostAt(t', c', user, time)| <= MAX_PENDING
  {
    SubsetIsSmaller(LostAt(t', c', user, time), LostAt(t, c, user, time));
  }

  lemma WaitKeepsTimed(t: Tables, c: Times, now: int)
    requires Timed(t, c) && c.clock <= now
    ensures Timed(t, At(c, now))
  {
    var n := At(c, now);
    LaterSpaced(c.sweeps, c.clock, now);
    forall w ensures Dated(t, n, w) { assert Dated(t, c, w); }
    forall u ensures Tidy(t, n, u) {
      assert Tidy(t, c, u);
      forall time ensures LostAt(t, n, u, time) == LostAt(t, c, u, time) {}
    }
  }

  lemma StartKeepsTimed(t: Tables, c: Times, k: TaskKey, bot: BotId, delay: int, worker: WorkerId, now: int)
    requires Timed(t, c) && c.clock <= now && worker !in t.workers && MIN_DELAY <= delay <= MAX_DELAY
    requires k !in t.active && |Pending(t.pending, k.user)| < MAX_PENDING
    ensures Timed(Added(t, k, bot, worker), Started(t, c, k, delay, worker, now))
  {
    var t', c' := Added(t, k, bot, worker), Started(t, c, k, delay, worker, now);
    AddKeepsCoherent(t, k, bot, worker);
    LaterSpaced(c.sweeps, c.clock, now);
    forall w ensures Dated(t', c', w) { assert Dated(t, c, w) && Dated(t, c, worker); }
    forall u ensures Tidy(t', c', u) {
      assert Tidy(t, c, u) && Dated(t, c, worker);
      if u !in c'.reusers { StartKeepsTidy(t, c, k, bot, delay, worker, now, u); }
    }
  }

  lemma StartKeepsTidy(t: Tables, c: Times, k: TaskKey, bot: BotId, delay: int, worker: WorkerId, now: int,
                       user: UserId)
    requires Tidy(t, c, user) && worker !in t.workers && worker !in c.lost
    requires user !in Started(t, c, k, delay, worker, now).reusers
    ensures Tidy(Added(t, k, bot, worker), Started(t, c, k, delay, worker, now), user)
  {
    var t', c' := Added(t, k, bot, worker), Started(t, c, k, delay, worker, now);
    var before, after := WorkersOf(t.workers, user), WorkersOf(t'.workers, user);
    forall a, b | a in after && b in after && a != b ensures Different(t'.workers, a, b) {
      if a in before && b in before {
        assert Different(t.workers, a, b);
      } else {
        var o := if a == worker then b else a;
        assert t.workers[o] in t.workers.Values;
      }
    }
    forall time ensures |LostAt(t', c', user, time)| <= MAX_PENDING {
      MonotoneLost(t, c, t', c', user, time);
    }
  }

  lemma EndKeepsTimed(t: Tables, c: Times, worker: WorkerId, now: int)
    requires Timed(t, c) && c.clock <= now && worker in t.workers
    ensures Timed(Finished(t, worker), Ended(c, worker, now))
  {
    var t', c' := Finished(t, worker), Ended(c, worker, now);
    FinishKeepsCoherent(t, worker);
    LaterSpaced(c.sweeps, c.clock, now);
    forall w ensures Dated(t', c', w) { assert Dated(t, c, w); }
    forall u ensures Tidy(t', c', u) {
      assert Tidy(t, c, u);
      if u !in c.reusers { EndKeepsTidy(t, c, worker, now, u); }
    }
  }

  lemma EndKeepsTidy(t: Tables, c: Times, worker: WorkerId, now: int, user: UserId)
    requires Tidy(t, c, user) && worker in t.workers && user !in c.reusers
    ensures Tidy(Finished(t, worker), Ended(c, worker, now), user)
  {
    var t', c' := Finished(t, worker), Ended(c, worker, now);
    forall w | w in WorkersOf(t'.workers, user) ensures w in c'.lost || t'.workers[w] in t'.active {
      if user == t.workers[worker].user { assert Different(t.workers, w, worker); }
    }
    forall a, b | a in WorkersOf(t'.workers, user) && b in WorkersOf(t'.workers, user) && a != b
      ensures Different(t'.workers, a, b)
    {
      assert Different(t.workers, a, b);
    }
    forall time ensures |LostAt(t', c', user, time)| <= MAX_PENDING {
      MonotoneLost(t, c, t', c', user, time);
    }
  }

  // A cleanup leaves the workers alone and keeps exactly the tasks of bots that live.
  ghost predicate CleansUp(t: Tables, t': Tables, dead: set<BotId>) {
    t'.workers == t.workers && t'.active == map k | k in t.active && t.active[k] !in dead :: t.active[k]
  }

  lemma SweepKeepsTimed(t: Tables, c: Times, t': Tables, dead: set<BotId>, now: int)
    requires Timed(t, c) && c.clock <= now && (c.sweeps == [] || c.sweeps[|c.sweeps| - 1] + PAUSE <= now)
    requires Coherent(t') && CleansUp(t, t', dead)
    ensures Timed(t', Swept(t, c, dead, now))
  {
    var c' := Swept(t, c, dead, now);
    LaterSpaced(c.sweeps, c.clock, now);
    assert now in c'.sweeps;
    forall w ensures Dated(t', c', w) { assert Dated(t, c, w); }
    forall u ensures Tidy(t', c', u) {
      assert Tidy(t, c, u);
      if u !in c.reusers { SweepKeepsTidy(t, c, t', dead, now, u); }
    }
  }

  lemma SweepKeepsTidy(t: Tables, c: Times, t': Tables, dead: set<BotId>, now: int, user: UserId)
    requires Timed(t, c) && Tidy(t, c, user) && user !in c.reusers && CleansUp(t, t', dead)
    requires c.sweeps == [] || c.sweeps[|c.sweeps| - 1] + PAUSE <= now
    ensures Tidy(t', Swept(t, c, dead, now), user)
  {
    var c' := Swept(t, c, dead, now);
    forall time ensures |LostAt(t', c', user, time)| <= MAX_PENDING {
      if time == now {
        forall w | w in LostAt(t', c', user, now) ensures w !in c.lost && t.workers[w] in t.active {
          assert Dated(t, c, w);
        }
        TrackedAreFew(t, c, LostAt(t', c', user, now), user);
      } else {
        MonotoneLost(t, c, t', c', user, time);
      }
    }
  }

  // Workers of one user that are tracked and have messages of their own.
  lemma TrackedAreFew(t: Tables, c: Times, ws: set<WorkerId>, user: UserId)
    requires Coherent(t) && Tidy(t, c, user) && user !in c.reusers
    requires ws <= WorkersOf(t.workers, user) && forall w :: w in ws ==> t.workers[w] in t.active
    ensures |ws| <= MAX_PENDING
  {
    var messages := Pending(t.pending, user);
    forall w | w in ws ensures t.workers[w].message in messages { assert Agree(t, t.workers[w]); }
    forall a, b | a in ws && b in ws && a != b ensures Different(t.workers, a, b) {
      assert a in WorkersOf(t.workers, user) && b in WorkersOf(t.workers, user);
    }
    DistinctFit(ws, messages, t.workers);
    assert Few(t, user);
  }

  function LostThen(ws: set<WorkerId>, lost: map<WorkerId, int>, time: int): set<WorkerId> {
    set w | w in ws && w in lost && lost[w] == time
  }

  ghost predicate FewAt(ws: set<WorkerId>, lost: map<WorkerId, int>, time: int) {
    |LostThen(ws, lost, time)| <= MAX_PENDING
  }

  ghost predicate LostAfter(ws: set<WorkerId>, lost: map<WorkerId, int>, sweeps: seq<int>, lo: int) {
    forall w :: w in ws ==> w in lost && lost[w] in sweeps && lo < lost[w]
  }

  // The workers lost to the last cleanup, and the others.
  lemma LostBefore(ws: set<WorkerId>, lost: map<WorkerId, int>, sweeps: seq<int>, lo: int, last: int)
    requires LostAfter(ws, lost, sweeps + [last], lo) && Spaced(sweeps + [last], last)
    requires forall time {:trigger FewAt(ws, lost, time)} :: FewAt(ws, lost, time)
    ensures var before := ws - LostThen(ws, lost, last);
            && LostAfter(before, lost, sweeps, lo) && Spaced(sweeps, last - PAUSE)
            && (forall time {:trigger FewAt(before, lost, time)} :: FewAt(before, lost, time))
            && |ws| <= |before| + MAX_PENDING
    ensures ws != {} ==> lo < last
  {
    var before := ws - LostThen(ws, lost, last);
    forall time ensures FewAt(before, lost, time) {
      assert FewAt(ws, lost, time);
      SubsetIsSmaller(LostThen(before, lost, time), LostThen(ws, lost, time));
    }
    assert (sweeps + [last])[|sweeps|] == last;
    forall i | 0 <= i < |sweeps| ensures (sweeps + [last])[i] == sweeps[i] {}
    assert FewAt(ws, lost, last);
    assert ws == LostThen(ws, lost, last) + before;
    if w :| w in ws { assert lost[w] in sweeps || lost[w] == last; }
  }

  // Workers lost to cleanups after lo, no cleanup taking more than three: three for every
  // pause in the interval.
  lemma {:induction false} LostAreFew(ws: set<WorkerId>, lost: map<WorkerId, int>, sweeps: seq<int>, lo: int, hi: int,
                                      pauses: nat)
    requires Spaced(sweeps, hi) && LostAfter(ws, lost, sweeps, lo) && hi - lo <= PAUSE * pauses
    requires forall time {:trigger FewAt(ws, lost, time)} :: FewAt(ws, lost, time)
    ensures |ws| <= MAX_PENDING * pauses
    decreases |sweeps|
  {
    if ws != {} {
      assert sweeps != [] by { var w :| w in ws; }
      var init, last := sweeps[..|sweeps| - 1], sweeps[|sweeps| - 1];
      assert sweeps == init + [last];
      assert last <= hi;
      LostBefore(ws, lost, init, lo, last);
      LostAreFew(ws - LostThen(ws, lost, last), lost, init, lo, last - PAUSE, pauses - 1);
    }
  }

  // All live workers of a user are younger than this.
  ghost predicate Younger(t: Tables, c: Times, user: UserId, life: nat) {
    forall w :: w in WorkersOf(t.workers, user) && w in c.born ==> c.clock - c.born[w] < life
  }

  // None of them is due.
  ghost predicate Punctual(t: Tables, c: Times, user: UserId) {
    forall w :: w in WorkersOf(t.workers, user) && w in c.due ==> c.clock < c.due[w]
  }

  function LostOf(t: Tables, c: Times, user: UserId): set<WorkerId> {
    set w | w in WorkersOf(t.workers, user) && w in c.lost
  }

  lemma LostOnesAreFew(t: Tables, c: Times, user: UserId, life: nat, pauses: nat)
    requires Timed(t, c) && user !in c.reusers && Younger(t, c, user, life) && life <= PAUSE * pauses
    ensures |LostOf(t, c, user)| <= MAX_PENDING * pauses
  {
    var lost := LostOf(t, c, user);
    assert Tidy(t, c, user);
    LostLately(t, c, user, life, lost);
    forall time ensures FewAt(lost, c.lost, time) {
      assert LostThen(lost, c.lost, time) == LostAt(t, c, user, time);
    }
    LostAreFew(lost, c.lost, c.sweeps, c.clock - life, c.clock, pauses);
  }

  // At most three tracked ones, and three for every cleanup in a lifetime.
  lemma LiveAreFew(t: Tables, c: Times, user: UserId, life: nat, pauses: nat)
    requires Timed(t, c) && user !in c.reusers && Younger(t, c, user, life) && life <= PAUSE * pauses
    ensures |WorkersOf(t.workers, user)| <= MAX_PENDING * (pauses + 1)
  {
    var all, lost := WorkersOf(t.workers, user), LostOf(t, c, user);
    assert Tidy(t, c, user);
    LostOnesAreFew(t, c, user, life, pauses);
    TrackedAreFew(t, c, all - lost, user);
    assert all == lost + (all - lost);
  }

  lemma LostLately(t: Tables, c: Times, user: UserId, life: nat, lost: set<WorkerId>)
    requires Timed(t, c) && Younger(t, c, user, life)
    requires lost <= WorkersOf(t.workers, user) && lost <= c.lost.Keys
    ensures LostAfter(lost, c.lost, c.sweeps, c.clock - life)
  {
    forall w | w in lost ensures c.lost[w] in c.sweeps && c.clock - life < c.lost[w] {
      assert Dated(t, c, w);
    }
  }

  class TimedScheduler {
    const scheduler: Scheduler
    ghost var times: Times

    ghost function State(): Tables
      reads this, scheduler
    {
      scheduler.State()
    }

    ghost predicate Valid()
      reads this, scheduler
    {
      Timed(State(), times)
    }

    constructor (now: int)
      ensures Valid() && fresh(scheduler)
      ensures State() == Tables(map[], map[], map[])
      ensures times == Times(now, map[], map[], map[], [], {}, {}, true)
    {
      scheduler := new Scheduler();
      times := Times(now, map[], map[], map[], [], {}, {}, true);
      new;
      assert forall u :: WorkersOf(scheduler.workers, u) == {};
    }

    // Scheduling at this moment, by a bot that is alive.
    method Schedule(user: UserId, message: MessageId, bot: BotId, delay: int, worker: WorkerId, ghost now: int)
      returns (status: Status)
      requires Valid() && worker !in scheduler.workers && times.clock <= now && bot !in times.gone
      modifies this, scheduler
      ensures Valid()
      ensures status.Scheduled? <==>
                1 <= delay <= 3600 && TaskKey(user, message) !in old(scheduler.active)
                && |Pending(old(scheduler.pending), user)| < 3
      ensures status.Scheduled? ==>
                && times.due == old(times.due)[worker := now + delay] && times.born == old(times.born)[worker := now]
                && (user in times.reusers <==>
                      user in old(times.reusers) || TaskKey(user, message) in old(scheduler.workers).Values)
                && State() == Added(old(State()), TaskKey(user, message), bot, worker)
                && times == Started(old(State()), old(times), TaskKey(user, message), delay, worker, now)
      ensures !status.Scheduled? ==>
                && scheduler.active == old(scheduler.active) && scheduler.workers == old(scheduler.workers)
                && times == At(old(times), now)
    {
      ghost var before, k := State(), TaskKey(user, message);
      WaitKeepsTimed(before, times, now);
      if MIN_DELAY <= delay <= MAX_DELAY && k !in scheduler.active
         && |Pending(scheduler.pending, user)| < MAX_PENDING {
        StartKeepsTimed(before, times, k, bot, delay, worker, now);
      }
      var pendingCount;
      status, pendingCount := scheduler.Schedule(user, message, bot, delay, worker);
      if status.Scheduled? {
        times := Started(before, times, k, delay, worker, now);
      } else {
        SamePendingKeepsTimed(before, At(times, now), State());
        times := At(times, now);
      }
    }

    // A worker that has slept long enough finishes.
    method FinishWorker(worker: WorkerId, ghost now: int)
      requires Valid() && worker in scheduler.workers && times.clock <= now && worker in times.due
      requires times.due[worker] <= now
      modifies this, scheduler
      ensures Valid()
      ensures State() == Finished(old(State()), worker) && times == Ended(old(times), worker, now)
    {
      EndKeepsTimed(State(), times, worker, now);
      scheduler.FinishWorker(worker);
      times := Ended(times, worker, now);
    }

    // A cleanup, a pause or more after the one before; a bot that was dead is dead.
    method CleanupStale(dead: set<BotId>, ghost now: int)
      requires Valid() && times.clock <= now && times.gone <= dead
      requires times.sweeps == [] || times.sweeps[|times.sweeps| - 1] + 300 <= now
      modifies this, scheduler
      ensures Valid() && CleansUp(old(State()), State(), dead)
      ensures times == Swept(old(State()), old(times), dead, now)
      ensures scheduler.workers == old(scheduler.workers) && times.sweeps == old(times.sweeps) + [now]
      ensures forall k :: k in scheduler.active <==> k in old(scheduler.active) && old(scheduler.active)[k] !in dead
    {
      ghost var before := State();
      scheduler.CleanupStale(dead);
      SweepKeepsTimed(before, times, State(), dead, now);
      times := Swept(before, times, dead, now);
    }

    // A user none of whose messages was scheduled again while an earlier worker of it was
    // alive has at most three live workers and three more for every cleanup that fits into
    // the life of one; with workers that are not overdue these are thirty-nine.
    lemma WorkersAreFew(user: UserId, life: nat)
      requires Valid() && user !in times.reusers
      ensures (forall w :: w in WorkersOf(scheduler.workers, user) && w in times.born ==>
                            times.clock - times.born[w] < life) ==>
                |WorkersOf(scheduler.workers, user)| <= 3 * ((life + 299) / 300 + 1)
      ensures (forall w :: w in WorkersOf(scheduler.workers, user) && w in times.due ==>
                            times.clock < times.due[w]) ==>
                |WorkersOf(scheduler.workers, user)| <= 39
    {
      if Younger(State(), times, user, life) { LiveAreFew(State(), times, user, life, (life + PAUSE - 1) / PAUSE); }
      if Punctual(State(), times, user) {
        forall w | w in WorkersOf(State().workers, user) && w in times.born
          ensures times.clock - times.born[w] < MAX_DELAY
        {
          assert Dated(State(), times, w);
        }
        LiveAreFew(State(), times, user, MAX_DELAY, 12);
      }
    }
  }

  // Whether an empty set is stored or not makes no difference.
  lemma SamePendingKeepsTimed(t: Tables, c: Times, t': Tables)
    requires Timed(t, c) && Coherent(t') && t'.active == t.active && t'.workers == t.workers
    ensures Timed(t', c)
  {
    forall w ensures Dated(t', c, w) { assert Dated(t, c, w); }
    forall u ensures Tidy(t', c, u) {
      assert Tidy(t, c, u);
      forall time ensures LostAt(t', c, u, time) == LostAt(t, c, u, time) {}
    }
  }

  // All live workers are this user's, with messages below n, and all with the same delay and
  // due between two times; and nobody was ever late.
  ghost predicate Own(t: Tables, c: Times, user: UserId, n: nat, delay: int, early: int, late: int) {
    && c.prompt && |WorkersOf(t.workers, user)| == |t.workers| && Below(c.gone, n)
    && forall w {:trigger OwnWorker(t, c, user, n, delay, early, late, w)} ::
         OwnWorker(t, c, user, n, delay, early, late, w)
  }

  predicate Below(bots: set<BotId>, n: nat) {
    forall b :: b in bots ==> 0 <= b < n
  }

  ghost predicate OwnWorker(t: Tables, c: Times, user: UserId, n: nat, delay: int, early: int, late: int, w: WorkerId) {
    && (w in t.workers ==> w < n && t.workers[w].user == user && t.workers[w].message < n)
    && (w in c.due ==> w in t.workers && early <= c.due[w] <= late)
    && (w in c.due && w in c.born ==> c.due[w] == c.born[w] + delay)
  }

  // Starting the next one.
  lemma StartOwn(t: Tables, c: Times, user: UserId, message: int, bot: BotId, n: nat, delay: int, early: int, late: int,
                 now: int)
    requires Own(t, c, user, n, delay, early, late) && now <= early <= now + delay <= late && message <= n
    ensures var k := TaskKey(user, message);
            && Own(Added(t, k, bot, n), Started(t, c, k, delay, n, now), user, n + 1, delay, early, late)
            && |Added(t, k, bot, n).workers| == |t.workers| + 1
            && (message == n ==> Started(t, c, k, delay, n, now).reusers == c.reusers)
  {
    var k := TaskKey(user, message);
    var t', c' := Added(t, k, bot, n), Started(t, c, k, delay, n, now);
    assert OwnWorker(t, c, user, n, delay, early, late, n);
    OneMoreWorker(t.workers, n, k, user);
    assert t'.workers.Keys == t.workers.Keys + {n};
    var n' := n + 1;
    forall w ensures OwnWorker(t', c', user, n', delay, early, late, w) {
      assert OwnWorker(t, c, user, n, delay, early, late, w);
    }
    forall w | w in c.due ensures now <= c.due[w] { assert OwnWorker(t, c, user, n, delay, early, late, w); }
    forall w | w in t.workers ensures t.workers[w].message < n {
      assert OwnWorker(t, c, user, n, delay, early, late, w);
    }
  }

  // A cleanup changes nothing about that.
  lemma SweepOwn(t: Tables, c: Times, t': Tables, dead: set<BotId>, user: UserId, n: nat, delay: int, early: int,
                 late: int, now: int)
    requires Own(t, c, user, n, delay, early, late) && CleansUp(t, t', dead) && now <= early && Below(dead, n)
    ensures Own(t', Swept(t, c, dead, now), user, n, delay, early, late)
  {
    var c' := Swept(t, c, dead, now);
    forall w ensures OwnWorker(t', c', user, n, delay, early, late, w) {
      assert OwnWorker(t, c, user, n, delay, early, late, w);
    }
    forall w | w in c.due ensures now <= c.due[w] { assert OwnWorker(t, c, user, n, delay, early, late, w); }
  }

  // Only tasks of this bot are active, and of the user so many are pending.
  ghost predicate Dying(t: Tables, user: UserId, bot: BotId, count: nat) {
    |Pending(t.pending, user)| == count && forall k :: k in t.active ==> t.active[k] == bot
  }

  // The next task, of a bot that is to die.
  method ScheduleNext(s: TimedScheduler, user: UserId, bot: BotId, n: nat, delay: int, ghost count: nat,
                      ghost early: int, ghost late: int, ghost now: int)
    requires s.Valid() && Own(s.State(), s.times, user, n, delay, early, late) && Dying(s.State(), user, bot, count)
    requires s.times.clock <= now <= early <= now + delay <= late && bot !in s.times.gone
    requires count < MAX_PENDING && MIN_DELAY <= delay <= MAX_DELAY
    modifies s, s.scheduler
    ensures s.Valid() && Own(s.State(), s.times, user, n + 1, delay, early, late)
    ensures Dying(s.State(), user, bot, count + 1)
    ensures |s.State().workers| == |old(s.State()).workers| + 1
    ensures s.times.clock == now && s.times.sweeps == old(s.times.sweeps) && s.times.reusers == old(s.times.reusers)
    ensures s.times.gone == old(s.times.gone)
  {
    ghost var t, k := s.State(), TaskKey(user, n);
    assert OwnWorker(t, s.times, user, n, delay, early, late, n);
    forall w | w in t.workers ensures t.workers[w] != k {
      assert OwnWorker(t, s.times, user, n, delay, early, late, w);
    }
    assert Agree(t, k);
    StartOwn(t, s.times, user, n, bot, n, delay, early, late, now);
    var status := s.Schedule(user, n, bot, delay, n, now);
  }

  // Three tasks of the bot that bears the next number.
  method ThreeTasks(s: TimedScheduler, user: UserId, n: nat, delay: int, ghost early: int, ghost late: int,
                    ghost now: int)
    requires s.Valid() && Own(s.State(), s.times, user, n, delay, early, late) && s.scheduler.active == map[]
    requires s.times.clock <= now <= early <= now + delay <= late && MIN_DELAY <= delay <= MAX_DELAY
    modifies s, s.scheduler
    ensures s.Valid() && Own(s.State(), s.times, user, n + 3, delay, early, late)
    ensures Dying(s.State(), user, n, MAX_PENDING)
    ensures |s.State().workers| == |old(s.State()).workers| + 3
    ensures s.times.clock == now && s.times.sweeps == old(s.times.sweeps) && s.times.reusers == old(s.times.reusers)
    ensures s.times.gone == old(s.times.gone)
  {
    NothingPending(s.State(), user);
    ScheduleNext(s, user, n, n, delay, 0, early, late, now);
    ScheduleNext(s, user, n, n + 1, delay, 1, early, late, now);
    ScheduleNext(s, user, n, n + 2, delay, 2, early, late, now);
  }

  // Three tasks of one bot, which then dies.
  method ThreeOrphans(s: TimedScheduler, user: UserId, n: nat, dead: set<BotId>, delay: int, ghost early: int,
                      ghost late: int, ghost now: int)
    returns (dead': set<BotId>)
    requires s.Valid() && Own(s.State(), s.times, user, n, delay, early, late) && s.scheduler.active == map[]
    requires s.times.clock <= now <= early <= now + delay <= late && MIN_DELAY <= delay <= MAX_DELAY
    requires s.times.sweeps == [] || s.times.sweeps[|s.times.sweeps| - 1] + PAUSE <= now
    requires dead == s.times.gone
    modifies s, s.scheduler
    ensures s.Valid() && Own(s.State(), s.times, user, n + 3, delay, early, late) && s.scheduler.active == map[]
    ensures |s.State().workers| == |old(s.State()).workers| + 3
    ensures s.times.clock == now && s.times.sweeps == old(s.times.sweeps) + [now]
    ensures s.times.reusers == old(s.times.reusers) && dead' == s.times.gone
  {
    ThreeTasks(s, user, n, delay, early, late, now);
    ghost var t, c := s.State(), s.times;
    dead' := dead + {n};
    s.CleanupStale(dead', now);
    SweepOwn(t, c, s.State(), dead', user, n + 3, delay, early, late, now);
  }

  lemma NothingPending(t: Tables, user: UserId)
    requires Coherent(t) && t.active == map[]
    ensures Pending(t.pending, user) == {}
  {
    forall m ensures m !in Pending(t.pending, user) { assert Agree(t, TaskKey(user, m)); }
  }

  // Rounds of three orphans, a pause apart.
  method OrphanRounds(user: UserId, delay: int, rounds: nat) returns (s: TimedScheduler, dead: set<BotId>)
    requires MIN_DELAY <= delay <= MAX_DELAY && PAUSE * rounds <= PAUSE + delay
    ensures fresh(s) && fresh(s.scheduler) && s.Valid() && s.scheduler.active == map[]
    ensures Own(s.State(), s.times, user, 3 * rounds, delay, PAUSE + delay, PAUSE * (rounds + 1) + delay)
    ensures s.times.gone == dead && s.times.reusers == {}
    ensures s.times.clock <= PAUSE * rounds && |s.State().workers| == 3 * rounds
  {
    s := new TimedScheduler(0);
    dead := {};
    ghost var early, late := PAUSE + delay, PAUSE * (rounds + 1) + delay;
    NobodyYet(s.State(), s.times, user, delay, early, late);
    for i := 0 to rounds
      invariant fresh(s) && fresh(s.scheduler) && s.Valid() && s.scheduler.active == map[]
      invariant Own(s.State(), s.times, user, 3 * i, delay, early, late)
      invariant s.times.gone == dead && s.times.reusers == {}
      invariant s.times.clock <= PAUSE * i && |s.State().workers| == 3 * i
      invariant s.times.sweeps == [] || s.times.sweeps[|s.times.sweeps| - 1] <= PAUSE * i
    {
      dead := ThreeOrphans(s, user, 3 * i, dead, delay, early, late, PAUSE * (i + 1));
    }
  }

  lemma NobodyYet(t: Tables, c: Times, user: UserId, delay: int, early: int, late: int)
    requires t.workers == map[] && c.due == map[] && c.gone == {} && c.prompt
    ensures Own(t, c, user, 0, delay, early, late)
  {
    assert WorkersOf(t.workers, user) == {};
    forall w ensures OwnWorker(t, c, user, 0, delay, early, late, w) {}
  }

  lemma OwnAreYoung(t: Tables, c: Times, user: UserId, n: nat, delay: int, early: int, late: int)
    requires Timed(t, c) && Own(t, c, user, n, delay, early, late) && c.clock < early && 0 <= delay
    ensures Younger(t, c, user, delay) && Punctual(t, c, user)
  {
    forall w: WorkerId | w in c.born || w in c.due
      ensures w in c.born && w in c.due && c.clock < c.due[w] == c.born[w] + delay
    {
      assert Dated(t, c, w) && OwnWorker(t, c, user, n, delay, early, late, w);
    }
  }

  // The bound is reached for every delay, with nobody late and no message scheduled twice.
  method BoundIsReached(user: UserId, delay: int) returns (s: TimedScheduler)
    requires 1 <= delay <= 3600
    ensures fresh(s) && s.Valid() && s.times.prompt && user !in s.times.reusers
    ensures Younger(s.State(), s.times, user, delay) && Punctual(s.State(), s.times, user)
    ensures |WorkersOf(s.scheduler.workers, user)| == 3 * ((delay + 299) / 300 + 1)
  {
    var rounds := (delay + PAUSE - 1) / PAUSE;
    assert PAUSE * rounds < PAUSE + delay;
    var dead;
    s, dead := OrphanRounds(user, delay, rounds);
    ghost var early, late := PAUSE + delay, PAUSE * (rounds + 1) + delay;
    ThreeTasks(s, user, 3 * rounds, delay, early, late, PAUSE * rounds);
    OwnAreYoung(s.State(), s.times, user, 3 * rounds + 3, delay, early, late);
  }

  lemma OwnWithin(t: Tables, c: Times, user: UserId, n: nat, delay: int, early: int, late: int, early': int, late': int)
    requires Own(t, c, user, n, delay, early, late)
    requires forall w :: w in c.due ==> early' <= c.due[w] <= late'
    ensures Own(t, c, user, n, delay, early', late')
  {
    forall w ensures OwnWorker(t, c, user, n, delay, early', late', w) {
      assert OwnWorker(t, c, user, n, delay, early, late, w);
    }
  }

  lemma EndOwn(t: Tables, c: Times, user: UserId, n: nat, delay: int, early: int, late: int, worker: WorkerId, now: int)
    requires Own(t, c, user, n, delay, early, late) && worker in t.workers && now <= early
    ensures Own(Finished(t, worker), Ended(c, worker, now), user, n, delay, early, late)
    ensures |Finished(t, worker).workers| == |t.workers| - 1
  {
    var t', c' := Finished(t, worker), Ended(c, worker, now);
    assert OwnWorker(t, c, user, n, delay, early, late, worker);
    OneWorkerLess(t.workers, worker, user);
    assert t'.workers.Keys == t.workers.Keys - {worker};
    forall w ensures OwnWorker(t', c', user, n, delay, early, late, w) {
      assert OwnWorker(t, c, user, n, delay, early, late, w);
    }
    forall w | w in c.due ensures now <= c.due[w] { assert OwnWorker(t, c, user, n, delay, early, late, w); }
  }

  // Some workers are due now, and all others a pause later.
  ghost predicate Halfway(t: Tables, c: Times, user: UserId, n: nat, now: int, todo: set<WorkerId>) {
    && Own(t, c, user, n, PAUSE, now, now + PAUSE) && t.active == map[] && c.clock <= now && todo <= t.workers.Keys
    && forall w {:trigger DueInTurn(c, now, todo, w)} :: DueInTurn(c, now, todo, w)
  }

  ghost predicate DueInTurn(c: Times, now: int, todo: set<WorkerId>, w: WorkerId) {
    w in c.due ==> c.due[w] == if w in todo then now else now + PAUSE
  }

  function RenewedTables(t: Tables, worker: WorkerId, n: nat): Tables
    requires worker in t.workers
  {
    Finished(Added(t, t.workers[worker], -1, n), worker)
  }

  function RenewedTimes(t: Tables, c: Times, worker: WorkerId, n: nat, now: int): Times
    requires worker in t.workers
  {
    Ended(Started(t, c, t.workers[worker], PAUSE, n, now), worker, now)
  }

  lemma RenewGoesOn(t: Tables, c: Times, user: UserId, n: nat, now: int, todo: set<WorkerId>, worker: WorkerId)
    requires Timed(t, c) && Halfway(t, c, user, n, now, todo) && worker in todo
    ensures Halfway(RenewedTables(t, worker, n), RenewedTimes(t, c, worker, n, now), user, n + 1, now, todo - {worker})
    ensures |RenewedTables(t, worker, n).workers| == |t.workers|
    ensures t.workers[worker].user == user && n !in t.workers && worker in c.due && c.due[worker] == now
  {
    var t', c' := RenewedTables(t, worker, n), RenewedTimes(t, c, worker, n, now);
    assert OwnWorker(t, c, user, n, PAUSE, now, now + PAUSE, worker) && Dated(t, c, worker);
    assert OwnWorker(t, c, user, n, PAUSE, now, now + PAUSE, n);
    var k := t.workers[worker];
    StartOwn(t, c, user, k.message, -1, n, PAUSE, now, now + PAUSE, now);
    EndOwn(Added(t, k, -1, n), Started(t, c, k, PAUSE, n, now), user, n + 1, PAUSE, now, now + PAUSE, worker, now);
    assert DueInTurn(c, now, todo, worker);
    var left := todo - {worker};
    forall w ensures DueInTurn(c', now, left, w) { assert DueInTurn(c, now, todo, w); }
  }

  // The message of a lost worker is scheduled once more just before that worker finishes,
  // which untracks the new worker's task.
  method Renew(s: TimedScheduler, user: UserId, worker: WorkerId, n: nat, ghost now: int, ghost todo: set<WorkerId>)
    requires s.Valid() && Halfway(s.State(), s.times, user, n, now, todo) && worker in todo
    modifies s, s.scheduler
    ensures s.Valid() && Halfway(s.State(), s.times, user, n + 1, now, todo - {worker})
    ensures |s.State().workers| == |old(s.State()).workers|
    ensures s.times.sweeps == old(s.times.sweeps) && s.times.gone == old(s.times.gone)
  {
    RenewGoesOn(s.State(), s.times, user, n, now, todo, worker);
    NothingPending(s.State(), user);
    var message := s.scheduler.workers[worker].message;
    var status := s.Schedule(user, message, -1, PAUSE, n, now);
    s.FinishWorker(worker, now);
  }

  lemma HalfwayEnds(t: Tables, c: Times, user: UserId, n: nat, now: int)
    requires Timed(t, c)
    ensures Own(t, c, user, n, PAUSE, now, now) && t.active == map[] && c.clock <= now ==>
              Halfway(t, c, user, n, now, t.workers.Keys)
    ensures Halfway(t, c, user, n, now, {}) ==> Own(t, c, user, n, PAUSE, now + PAUSE, now + PAUSE)
  {
    if Own(t, c, user, n, PAUSE, now, now) && t.active == map[] && c.clock <= now {
      forall w: WorkerId | w in c.due ensures c.due[w] == now && w in t.workers {
        assert OwnWorker(t, c, user, n, PAUSE, now, now, w);
      }
      OwnWithin(t, c, user, n, PAUSE, now, now, now, now + PAUSE);
      forall w ensures DueInTurn(c, now, t.workers.Keys, w) {}
    }
    if Halfway(t, c, user, n, now, {}) {
      forall w | w in c.due ensures c.due[w] == now + PAUSE { assert DueInTurn(c, now, {}, w); }
      OwnWithin(t, c, user, n, PAUSE, now, now + PAUSE, now + PAUSE, now + PAUSE);
    }
  }

  // All lost workers at once.
  method RenewAll(s: TimedScheduler, user: UserId, n: nat, ghost now: int) returns (m: nat)
    requires s.Valid() && Own(s.State(), s.times, user, n, PAUSE, now, now) && s.scheduler.active == map[]
    requires s.times.clock <= now
    modifies s, s.scheduler
    ensures s.Valid() && Own(s.State(), s.times, user, m, PAUSE, now + PAUSE, now + PAUSE)
    ensures s.scheduler.active == map[] && |s.State().workers| == |old(s.State()).workers|
    ensures s.times.clock <= now && s.times.sweeps == old(s.times.sweeps) && s.times.gone == old(s.times.gone)
  {
    m := n;
    var todo := s.scheduler.workers.Keys;
    HalfwayEnds(s.State(), s.times, user, n, now);
    while todo != {}
      invariant s.Valid() && Halfway(s.State(), s.times, user, m, now, todo)
      invariant |s.State().workers| == |old(s.State()).workers|
      invariant s.times.sweeps == old(s.times.sweeps) && s.times.gone == old(s.times.gone)
      decreases todo
    {
      var w := AnyOf(todo);
      Renew(s, user, w, m, now, todo);
      m, todo := m + 1, todo - {w};
    }
    HalfwayEnds(s.State(), s.times, user, m, now);
  }

  // With messages scheduled twice there is no bound, though nobody is ever late.
  method ManyWorkers(user: UserId, rounds: nat) returns (s: TimedScheduler)
    ensures fresh(s) && s.Valid() && s.times.prompt
    ensures |WorkersOf(s.State().workers, user)| == 3 * rounds && s.scheduler.active == map[]
  {
    s := new TimedScheduler(0);
    var n, dead := 0, {};
    NobodyYet(s.State(), s.times, user, PAUSE, PAUSE, PAUSE);
    for i := 0 to rounds
      invariant fresh(s) && fresh(s.scheduler) && s.Valid() && s.scheduler.active == map[]
      invariant Own(s.State(), s.times, user, n, PAUSE, PAUSE * (i + 1), PAUSE * (i + 1))
      invariant s.times.gone == dead && s.times.clock <= PAUSE * i && |s.State().workers| == 3 * i
      invariant s.times.sweeps == [] || s.times.sweeps[|s.times.sweeps| - 1] <= PAUSE * i
    {
      ghost var now := PAUSE * (i + 1);
      n := RenewAll(s, user, n, now);
      dead := ThreeOrphans(s, user, n, dead, PAUSE, now + PAUSE, now + PAUSE, now);
      n := n + 3;
    }
  }
}
