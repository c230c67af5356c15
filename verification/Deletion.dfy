// The message-deletion scheduler: a table of active tasks and per-user sets of pending
// messages, changed by schedule calls, by finishing workers and by the cleanup of tasks
// whose bot is gone.  Each method is one section under the deletion lock; a run is any
// interleaving of them.
module Deletion {
  import opened Common

  type UserId = int
  type MessageId = int
  type WorkerId = nat
  type BotId = int

  const MAX_PENDING := 3
  const MIN_DELAY := 1
  const MAX_DELAY := 3600

  datatype TaskKey = TaskKey(user: UserId, message: MessageId)
  datatype Status = Scheduled | AlreadyScheduled | LimitExceeded | BadDelay

  function Pending(pending: map<UserId, set<MessageId>>, user: UserId): set<MessageId> {
    if user in pending then pending[user] else {}
  }

  // The workers that were started for a user and have not finished.
  function WorkersOf(workers: map<WorkerId, TaskKey>, user: UserId): set<WorkerId> {
    set w | w in workers && workers[w].user == user
  }

  datatype Tables = Tables(active: map<TaskKey, BotId>, pending: map<UserId, set<MessageId>>,
                           workers: map<WorkerId, TaskKey>)

  // Both tables say the same, every tracked task has a live worker, and no user has more
  // than three pending messages.
  ghost predicate Coherent(t: Tables) {
    && (forall k {:trigger Agree(t, k)} :: Agree(t, k))
    && (forall u {:trigger Few(t, u)} :: Few(t, u))
  }

  ghost predicate Agree(t: Tables, k: TaskKey) {
    && (k in t.active <==> k.message in Pending(t.pending, k.user))
    && (k in t.active ==> HasWorker(t.workers, k))
  }

  ghost predicate HasWorker(workers: map<WorkerId, TaskKey>, k: TaskKey) {
    exists w :: w in workers && workers[w] == k
  }

  ghost predicate Few(t: Tables, user: UserId) {
    |Pending(t.pending, user)| <= MAX_PENDING
  }

  // By how many the live workers of a user outnumber the pending messages.
  function Surplus(t: Tables, user: UserId): int {
    |WorkersOf(t.workers, user)| - |Pending(t.pending, user)|
  }

  lemma OneMoreWorker(workers: map<WorkerId, TaskKey>, worker: WorkerId, k: TaskKey, user: UserId)
    requires worker !in workers
    ensures |WorkersOf(workers[worker := k], user)| == |WorkersOf(workers, user)| + One(user == k.user)
  {
    assert WorkersOf(workers[worker := k], user) == WorkersOf(workers, user) + if user == k.user then {worker} else {};
  }

  lemma OneWorkerLess(workers: map<WorkerId, TaskKey>, worker: WorkerId, user: UserId)
    requires worker in workers
    ensures |WorkersOf(workers - {worker}, user)| == |WorkersOf(workers, user)| - One(user == workers[worker].user)
  {
    assert WorkersOf(workers - {worker}, user) == WorkersOf(workers, user) - {worker};
    assert worker in WorkersOf(workers, user) <==> user == workers[worker].user;
  }

  function Untracked(pending: map<UserId, set<MessageId>>, k: TaskKey): map<UserId, set<MessageId>> {
    pending[k.user := Pending(pending, k.user) - {k.message}]
  }

  lemma OneMessageLess(pending: map<UserId, set<MessageId>>, k: TaskKey, user: UserId)
    ensures |Pending(Untracked(pending, k), user)|
            == |Pending(pending, user)| - One(user == k.user && k.message in Pending(pending, k.user))
  {
  }

  function Added(t: Tables, k: TaskKey, bot: BotId, worker: WorkerId): Tables {
    Tables(t.active[k := bot], t.pending[k.user := Pending(t.pending, k.user) + {k.message}], t.workers[worker := k])
  }

  // Scheduling a message adds a worker and a pending message.
  lemma AddKeepsCoherent(t: Tables, k: TaskKey, bot: BotId, worker: WorkerId)
    requires Coherent(t) && worker !in t.workers
    requires k !in t.active && |Pending(t.pending, k.user)| < MAX_PENDING
    ensures Coherent(Added(t, k, bot, worker))
  {
    var n := Added(t, k, bot, worker);
    assert Agree(t, k);
    assert n.workers[worker] == k;
    forall j ensures Agree(n, j) {
      assert Agree(t, j);
      if j in t.active {
        var w :| w in t.workers && t.workers[w] == j;
        assert n.workers[w] == j;
      }
    }
    forall u ensures Few(n, u) { assert Few(t, u); }
  }

  lemma AddKeepsSurplus(t: Tables, k: TaskKey, bot: BotId, worker: WorkerId, user: UserId)
    requires Coherent(t) && worker !in t.workers && k !in t.active
    ensures Surplus(Added(t, k, bot, worker), user) == Surplus(t, user)
  {
    assert Agree(t, k);
    OneMoreWorker(t.workers, worker, k, user);
  }

  // The end of a worker: its key is untracked, whoever tracks it by now.
  function Finished(t: Tables, worker: WorkerId): Tables
    requires worker in t.workers
  {
    Tables(t.active - {t.workers[worker]}, Untracked(t.pending, t.workers[worker]), t.workers - {worker})
  }

  lemma FinishKeepsCoherent(t: Tables, worker: WorkerId)
    requires Coherent(t) && worker in t.workers
    ensures Coherent(Finished(t, worker))
  {
    var n := Finished(t, worker);
    forall j ensures Agree(n, j) {
      assert Agree(t, j);
      if j in n.active {
        var w :| w in t.workers && t.workers[w] == j;
        assert n.workers[w] == j;
      }
    }
    forall u ensures Few(n, u) {
      assert Few(t, u);
      OneMessageLess(t.pending, t.workers[worker], u);
    }
  }

  // A worker that finishes lowers its user's surplus exactly if its task was taken away.
  lemma FinishLowersSurplus(t: Tables, worker: WorkerId, user: UserId)
    requires Coherent(t) && worker in t.workers
    ensures var k := t.workers[worker];
            Surplus(Finished(t, worker), user) == Surplus(t, user) - One(user == k.user && k !in t.active)
  {
    assert Agree(t, t.workers[worker]);
    OneWorkerLess(t.workers, worker, user);
    OneMessageLess(t.pending, t.workers[worker], user);
  }

  // A task whose bot is gone is untracked while its worker still sleeps.
  function Purged(t: Tables, k: TaskKey): Tables {
    Tables(t.active - {k}, Untracked(t.pending, k), t.workers)
  }

  lemma PurgeKeepsCoherent(t: Tables, k: TaskKey)
    requires Coherent(t)
    ensures Coherent(Purged(t, k))
  {
    var n := Purged(t, k);
    forall j ensures Agree(n, j) { assert Agree(t, j); }
    forall u ensures Few(n, u) {
      assert Few(t, u);
      OneMessageLess(t.pending, k, u);
    }
  }

  // Only this raises a surplus, by one for the user of the task.
  lemma PurgeRaisesSurplus(t: Tables, k: TaskKey, user: UserId)
    requires Coherent(t) && k in t.active
    ensures Surplus(Purged(t, k), user) == Surplus(t, user) + One(user == k.user)
  {
    assert Agree(t, k);
    OneMessageLess(t.pending, k, user);
  }

  // Whether an empty set is stored or not makes no difference.
  lemma SamePending(t: Tables, pending: map<UserId, set<MessageId>>)
    requires Coherent(t) && forall u :: Pending(pending, u) == Pending(t.pending, u)
    ensures Coherent(t.(pending := pending))
    ensures forall u :: Surplus(t.(pending := pending), u) == Surplus(t, u)
  {
    var n := t.(pending := pending);
    forall j ensures Agree(n, j) { assert Agree(t, j); }
    forall u ensures Few(n, u) { assert Few(t, u); }
  }

  lemma OneOf<T>(s: set<T>) returns (x: T)
    requires s != {}
    ensures x in s && 0 < |s|
  {
    x :| x in s;
  }

  // Where every message has a worker there are no more messages than workers; and if
  // there are no more workers either, every worker has its own message.
  lemma {:induction false} OneToOne(workers: set<WorkerId>, messages: set<MessageId>, keys: map<WorkerId, TaskKey>)
    requires workers <= keys.Keys
    requires forall m :: m in messages ==> exists w :: w in workers && keys[w].message == m
    ensures |messages| <= |workers|
    ensures |messages| == |workers| ==> forall w :: w in workers ==> keys[w].message in messages
    ensures |messages| == |workers| ==> AllDiffer(workers, keys)
    decreases messages
  {
    if messages != {} {
      var m := OneOf(messages);
      var w :| w in workers && keys[w].message == m;
      forall m' | m' in messages - {m} ensures exists w' :: w' in workers - {w} && keys[w'].message == m' {
        var w' :| w' in workers && keys[w'].message == m';
        assert w' in workers - {w};
      }
      OneToOne(workers - {w}, messages - {m}, keys);
      if |messages| == |workers| {
        forall a, b | a in workers && b in workers && a != b ensures keys[a].message != keys[b].message {
          assert Different(keys, a, b) || a == w || b == w;
        }
      }
    }
  }

  ghost predicate AllDiffer(workers: set<WorkerId>, keys: map<WorkerId, TaskKey>)
    requires workers <= keys.Keys
  {
    forall a, b {:trigger Different(keys, a, b)} :: a in workers && b in workers && a != b ==> Different(keys, a, b)
  }

  ghost predicate Different(keys: map<WorkerId, TaskKey>, a: WorkerId, b: WorkerId) {
    a in keys && b in keys ==> keys[a].message != keys[b].message
  }

  lemma {:induction false} DistinctFit(workers: set<WorkerId>, messages: set<MessageId>, keys: map<WorkerId, TaskKey>)
    requires workers <= keys.Keys && AllDiffer(workers, keys)
    requires forall w :: w in workers ==> keys[w].message in messages
    ensures |workers| <= |messages|
    decreases workers
  {
    if workers != {} {
      var w := OneOf(workers);
      var m := keys[w].message;
      forall w' | w' in workers - {w} ensures keys[w'].message in messages - {m} { assert Different(keys, w, w'); }
      forall a, b | a in workers - {w} && b in workers - {w} && a != b ensures Different(keys, a, b) {
        assert a in workers && b in workers;
      }
      DistinctFit(workers - {w}, messages - {m}, keys);
    }
  }

  // Every pending message has a worker, so that a surplus is never negative; and it is
  // zero exactly if workers and tracked tasks of the user correspond one to one.
  lemma SurplusMeans(t: Tables, user: UserId)
    requires Coherent(t)
    ensures Surplus(t, user) >= 0
    ensures Surplus(t, user) == 0 <==>
              (forall w :: w in WorkersOf(t.workers, user) ==> t.workers[w] in t.active)
              && AllDiffer(WorkersOf(t.workers, user), t.workers)
  {
    var workers, messages := WorkersOf(t.workers, user), Pending(t.pending, user);
    forall m | m in messages ensures exists w :: w in workers && t.workers[w].message == m {
      assert Agree(t, TaskKey(user, m));
      var w :| w in t.workers && t.workers[w] == TaskKey(user, m);
      assert w in workers;
    }
    OneToOne(workers, messages, t.workers);
    forall w | w in workers ensures t.workers[w] in t.active <==> t.workers[w].message in messages {
      assert Agree(t, t.workers[w]);
    }
    if (forall w :: w in workers ==> t.workers[w] in t.active) && AllDiffer(workers, t.workers) {
      DistinctFit(workers, messages, t.workers);
    }
  }

  // A call to schedule a message, with the worker that would be started for it.
  function Scheduled(t: Tables, user: UserId, message: MessageId, bot: BotId, worker: WorkerId): Tables {
    var k := TaskKey(user, message);
    if k in t.active || |Pending(t.pending, user)| >= MAX_PENDING || worker in t.workers then t
    else Added(t, k, bot, worker)
  }

  datatype Call = Call(message: MessageId, bot: BotId, worker: WorkerId)

  function AfterCalls(t: Tables, user: UserId, calls: seq<Call>): Tables
    decreases |calls|
  {
    if calls == [] then t
    else
      var c := calls[0];
      AfterCalls(Scheduled(t, user, c.message, c.bot, c.worker), user, calls[1..])
  }

  lemma {:induction false} CallsKeepSurplus(t: Tables, user: UserId, calls: seq<Call>)
    requires Coherent(t)
    ensures Coherent(AfterCalls(t, user, calls)) && Surplus(AfterCalls(t, user, calls), user) == Surplus(t, user)
    decreases |calls|
  {
    if calls != [] {
      var c := calls[0];
      var k := TaskKey(user, c.message);
      if !(k in t.active || |Pending(t.pending, user)| >= MAX_PENDING || c.worker in t.workers) {
        AddKeepsCoherent(t, k, c.bot, c.worker);
        AddKeepsSurplus(t, k, c.bot, c.worker, user);
      }
      CallsKeepSurplus(Scheduled(t, user, c.message, c.bot, c.worker), user, calls[1..]);
    }
  }

  // No set has all numbers.
  lemma {:induction false} Unused(s: set<int>) returns (n: nat)
    ensures forall x :: x in s ==> x < n
    decreases s
  {
    if s == {} {
      n := 0;
    } else {
      var x := OneOf(s);
      var m := Unused(s - {x});
      n := if x < m then m else x + 1;
      forall y | y in s ensures y < n { assert y == x || y in s - {x}; }
    }
  }

  // A user can always be brought to three pending messages.
  lemma {:induction false} FillUp(t: Tables, user: UserId) returns (calls: seq<Call>)
    requires Coherent(t)
    ensures |Pending(AfterCalls(t, user, calls).pending, user)| == MAX_PENDING
    decreases MAX_PENDING - |Pending(t.pending, user)|
  {
    assert Few(t, user);
    if |Pending(t.pending, user)| == MAX_PENDING {
      calls := [];
    } else {
      var message := Unused(Pending(t.pending, user));
      var worker := Unused(t.workers.Keys);
      var k := TaskKey(user, message);
      assert k !in t.active by { assert Agree(t, k); }
      assert worker !in t.workers;
      AddKeepsCoherent(t, k, 0, worker);
      var rest := FillUp(Added(t, k, 0, worker), user);
      calls := [Call(message, 0, worker)] + rest;
      assert calls[1..] == rest;
    }
  }

  // The exact condition under which scheduling can bring a user above three live workers.
  lemma ExceedsIffSurplus(t: Tables, user: UserId)
    requires Coherent(t)
    ensures (exists calls :: |WorkersOf(AfterCalls(t, user, calls).workers, user)| > 3)
            <==> |WorkersOf(t.workers, user)| > |Pending(t.pending, user)|
  {
    SurplusMeans(t, user);
    var calls := FillUp(t, user);
    CallsKeepSurplus(t, user, calls);
    if Surplus(t, user) == 0 {
      forall cs ensures |WorkersOf(AfterCalls(t, user, cs).workers, user)| <= MAX_PENDING {
        CallsKeepSurplus(t, user, cs);
        assert Few(AfterCalls(t, user, cs), user);
      }
    } else {
      assert |WorkersOf(AfterCalls(t, user, calls).workers, user)| > MAX_PENDING;
    }
  }

  // The tracked tasks of a user whose bot is gone.
  function Orphans(active: map<TaskKey, BotId>, dead: set<BotId>, user: UserId): set<TaskKey> {
    set k | k in active && active[k] in dead && k.user == user
  }

  class Scheduler {
    var active: map<TaskKey, BotId>
    var pending: map<UserId, set<MessageId>>
    // One live worker for every scheduled task that has not finished yet.
    var workers: map<WorkerId, TaskKey>

    ghost function State(): Tables
      reads this
    {
      Tables(active, pending, workers)
    }

    ghost predicate Valid()
      reads this
    {
      Coherent(State())
    }

    constructor ()
      ensures Valid()
      ensures active == map[] && pending == map[] && workers == map[]
    {
      active, pending, workers := map[], map[], map[];
    }

    // The number of pending messages; asking for a new user leaves an empty set behind.
    method PendingCount(user: UserId) returns (count: nat)
      requires Valid()
      modifies this`pending
      ensures Valid() && user in pending && count == |Pending(pending, user)|
      ensures pending == old(pending)[user := Pending(old(pending), user)]
    {
      SamePending(State(), pending[user := Pending(pending, user)]);
      if user !in pending { pending := pending[user := {}]; }
      assert pending == old(pending)[user := Pending(old(pending), user)];
      count := |pending[user]|;
    }

    // Scheduling a message: refused when it is already scheduled or the user has three
    // pending messages, and otherwise tracked and given a worker of its own.
    method Schedule(user: UserId, message: MessageId, bot: BotId, delay: int, worker: WorkerId)
      returns (status: Status, pendingCount: nat)
      requires Valid() && worker !in workers
      modifies this`active, this`pending, this`workers
      ensures Valid()
      ensures status.BadDelay? <==> !(1 <= delay <= 3600)
      ensures !status.BadDelay? ==> (status.AlreadyScheduled? <==> TaskKey(user, message) in old(active))
      ensures status.LimitExceeded? ==> |Pending(old(pending), user)| == 3
      ensures status.Scheduled? ==> |Pending(old(pending), user)| < 3
      ensures status.Scheduled? ==>
                && active == old(active)[TaskKey(user, message) := bot]
                && workers == old(workers)[worker := TaskKey(user, message)]
                && pending == old(pending)[user := Pending(old(pending), user) + {message}]
                && State() == Added(old(State()), TaskKey(user, message), bot, worker)
      ensures !status.Scheduled? ==>
                && active == old(active) && workers == old(workers)
                && pending == if status.BadDelay? then old(pending)
                              else old(pending)[user := Pending(old(pending), user)]
      ensures !status.BadDelay? ==> pendingCount == |Pending(pending, user)|
      ensures forall u :: Surplus(State(), u) == Surplus(old(State()), u)
    {
      if !(MIN_DELAY <= delay <= MAX_DELAY) { return BadDelay, 0; }
      pendingCount := PendingCount(user);
      var key := TaskKey(user, message);
      assert Agree(State(), key) && Few(State(), user);
      if key in active { return AlreadyScheduled, pendingCount; }
      if pendingCount >= MAX_PENDING { return LimitExceeded, pendingCount; }

      AddKeepsCoherent(State(), key, bot, worker);
      forall u ensures Surplus(Added(State(), key, bot, worker), u) == Surplus(State(), u) {
        AddKeepsSurplus(State(), key, bot, worker, u);
      }
      active := active[key := bot];
      pending := pending[user := pending[user] + {message}];
      workers := workers[worker := key];
      assert State() == Added(old(State()), key, bot, worker);
      return Status.Scheduled, pendingCount + 1;
    }

    // A worker that is done, one way or the other, untracks its key.
    method FinishWorker(worker: WorkerId)
      requires Valid() && worker in workers
      modifies this`active, this`pending, this`workers
      ensures Valid() && State() == Finished(old(State()), worker)
      ensures var k := old(workers)[worker];
              && active == old(active) - {k} && workers == old(workers) - {worker}
              && pending == old(pending)[k.user := Pending(old(pending), k.user) - {k.message}]
      ensures forall u :: Surplus(State(), u) <= Surplus(old(State()), u)
    {
      FinishKeepsCoherent(State(), worker);
      forall u ensures Surplus(Finished(State(), worker), u) <= Surplus(State(), u) {
        FinishLowersSurplus(State(), worker, u);
      }
      var key := workers[worker];
      active := active - {key};
      pending := pending[key.user := Pending(pending, key.user) - {key.message}];
      workers := workers - {worker};
    }

    method Untrack(key: TaskKey)
      requires Valid()
      modifies this`active, this`pending
      ensures Valid() && State() == Purged(old(State()), key)
    {
      PurgeKeepsCoherent(State(), key);
      active := active - {key};
      pending := pending[key.user := Pending(pending, key.user) - {key.message}];
    }

    // Untracks exactly the tasks of dead bots; their workers sleep on, so that each user's
    // surplus grows by the number of that user's tasks among them.
    method CleanupStale(dead: set<BotId>)
      requires Valid()
      modifies this`active, this`pending
      ensures Valid()
      ensures active == map k | k in old(active) && old(active)[k] !in dead :: old(active)[k]
      ensures forall u :: Surplus(State(), u) == Surplus(old(State()), u) + |Orphans(old(active), dead, u)|
      ensures forall u :: u in pending ==> pending[u] != {}
    {
      UntrackOrphans(dead);
      var kept := map u | u in pending && pending[u] != {} :: pending[u];
      SamePending(State(), kept);
      pending := kept;
    }

    method UntrackOrphans(dead: set<BotId>)
      requires Valid()
      modifies this`active, this`pending
      ensures Valid()
      ensures active == map k | k in old(active) && old(active)[k] !in dead :: old(active)[k]
      ensures forall u :: Surplus(State(), u) == Surplus(old(State()), u) + |Orphans(old(active), dead, u)|
    {
      ghost var before := State();
      var stale := set k | k in active && active[k] in dead;
      var todo := stale;
      while todo != {}
        invariant Valid() && todo <= stale
        invariant active == before.active - (stale - todo)
        invariant forall u {:trigger Grown(before, State(), stale - todo, u)} :: Grown(before, State(), stale - todo, u)
        decreases todo
      {
        var key :| key in todo;
        ghost var mid := State();
        Untrack(key);
        forall u ensures Grown(before, State(), stale - (todo - {key}), u) {
          assert Grown(before, mid, stale - todo, u);
          assert stale - (todo - {key}) == stale - todo + {key};
          PurgeGrows(before, mid, stale - todo, key, u);
        }
        todo := todo - {key};
      }
      forall u ensures Surplus(State(), u) == Surplus(before, u) + |Orphans(before.active, dead, u)| {
        assert Grown(before, State(), stale - todo, u);
        assert OfUser(stale - todo, u) == Orphans(before.active, dead, u);
      }
    }

    // In every reachable state: a message is pending exactly when its task is active, and
    // then has a live worker; no user has more than three pending messages; and scheduling
    // can bring a user above three live workers exactly if the live workers outnumber the
    // pending messages already.
    lemma TablesAgree(user: UserId, message: MessageId)
      requires Valid()
      ensures message in Pending(pending, user) <==> TaskKey(user, message) in active
      ensures TaskKey(user, message) in active ==> HasWorker(workers, TaskKey(user, message))
      ensures |Pending(pending, user)| <= 3 && |Pending(pending, user)| <= |WorkersOf(workers, user)|
      ensures (exists calls :: |WorkersOf(AfterCalls(State(), user, calls).workers, user)| > 3)
              <==> |WorkersOf(workers, user)| > |Pending(pending, user)|
    {
      assert Agree(State(), TaskKey(user, message)) && Few(State(), user);
      SurplusMeans(State(), user);
      ExceedsIffSurplus(State(), user);
    }

    // Live workers and tracked tasks of a user correspond one to one exactly as long as
    // there are as many of one as of the other, and then there are at most three.
    lemma WorkersMatchTasks(user: UserId)
      requires Valid()
      ensures |WorkersOf(workers, user)| == |Pending(pending, user)| <==>
                (forall w :: w in WorkersOf(workers, user) ==> workers[w] in active)
                && AllDiffer(WorkersOf(workers, user), workers)
      ensures |WorkersOf(workers, user)| == |Pending(pending, user)| ==> |WorkersOf(workers, user)| <= 3
    {
      assert Few(State(), user);
      SurplusMeans(State(), user);
    }
  }

  function OfUser(keys: set<TaskKey>, user: UserId): set<TaskKey> {
    set k | k in keys && k.user == user
  }

  ghost predicate Grown(before: Tables, after: Tables, gone: set<TaskKey>, user: UserId) {
    Surplus(after, user) == Surplus(before, user) + |OfUser(gone, user)|
  }

  lemma PurgeGrows(before: Tables, mid: Tables, gone: set<TaskKey>, key: TaskKey, user: UserId)
    requires Coherent(mid) && key in mid.active && key !in gone && Grown(before, mid, gone, user)
    ensures Grown(before, Purged(mid, key), gone + {key}, user)
  {
    PurgeRaisesSurplus(mid, key, user);
    OneMoreOf(gone, key, user);
  }

  lemma OneMoreOf(keys: set<TaskKey>, key: TaskKey, user: UserId)
    requires key !in keys
    ensures |OfUser(keys + {key}, user)| == |OfUser(keys, user)| + One(user == key.user)
  {
    assert OfUser(keys + {key}, user) == OfUser(keys, user) + if user == key.user then {key} else {};
  }
}
