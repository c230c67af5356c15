// Rotation of the webhook path and secret by a background worker, against requests that
// are counted and looked up at the same time.  Each method is one section under the
// rotation lock (or one unlocked action of the worker); a run is any interleaving.
module Rotation {
  import opened Common

  type WorkerId = nat

  datatype Token = Token(text: string)

  const THRESHOLD := 10_000
  const GRACE := 300

  // A secret and, once its path was replaced, the end of its grace period.
  datatype Credential = Credential(secret: Token, deadline: Option<Time>)

  // Where a worker stands: started; holding the pair it replaces; done either way.
  datatype Stage = Started | Holding(path: Token, secret: Token) | Finishing

  // What was issued under a path: its secret, when it was replaced, and whether some
  // lookup since then read a clock at or past its deadline.
  datatype Issue = Issue(secret: Token, replacedAt: Option<Time>, passed: bool)

  function Shown(i: Issue): Credential {
    Credential(i.secret, if i.replacedAt.None? then None else Some(i.replacedAt.value + GRACE))
  }

  // A lookup with this clock reading.
  function Looked(i: Issue, now: Time): Issue {
    i.(passed := i.passed || (i.replacedAt.Some? && now >= i.replacedAt.value + GRACE))
  }

  predicate IsExpired(c: Credential, now: Time) {
    c.deadline.Some? && now >= c.deadline.value
  }

  // An entry is there, with its own secret and deadline, exactly while it has not been
  // seen past its deadline; and only a reading that late can have seen it so.
  ghost predicate Kept(accepted: map<Token, Credential>, issued: map<Token, Issue>, latest: Option<Time>, p: Token) {
    && (p in accepted <==> p in issued && !issued[p].passed)
    && (p in accepted && p in issued ==> accepted[p] == Shown(issued[p]))
    && (p in issued && issued[p].passed ==>
          && issued[p].replacedAt.Some? && latest.Some?
          && issued[p].replacedAt.value + GRACE <= latest.value)
  }

  function Cleaned(accepted: map<Token, Credential>, now: Time): map<Token, Credential> {
    map p | p in accepted && !IsExpired(accepted[p], now) :: accepted[p]
  }

  function AllLooked(issued: map<Token, Issue>, now: Time): map<Token, Issue> {
    map p | p in issued :: Looked(issued[p], now)
  }

  function Later(latest: Option<Time>, now: Time): Option<Time> {
    if latest.None? || latest.value < now then Some(now) else latest
  }

  // A lookup forgets a path exactly when it sees the deadline passed.
  lemma LookupKeeps(accepted: map<Token, Credential>, issued: map<Token, Issue>, latest: Option<Time>, now: Time,
                    p: Token)
    requires Kept(accepted, issued, latest, p)
    ensures Kept(Cleaned(accepted, now), AllLooked(issued, now), Later(latest, now), p)
  {
  }

  // The answer of a lookup with the newest reading.
  lemma LookupIsExact(accepted: map<Token, Credential>, issued: map<Token, Issue>, latest: Option<Time>, now: Time,
                      p: Token)
    requires Kept(accepted, issued, latest, p) && p in issued && (latest.Some? ==> latest.value <= now)
    ensures !Looked(issued[p], now).passed <==> issued[p].replacedAt.None? || now < issued[p].replacedAt.value + GRACE
  {
  }

  // The accepted pairs after a rotation.
  function Rotated(accepted: map<Token, Credential>, path: Token, secret: Token, newPath: Token, newSecret: Token,
                   rotatedAt: Time): map<Token, Credential> {
    accepted[path := Credential(secret, Some(rotatedAt + GRACE))][newPath := Credential(newSecret, None)]
  }

  function Issued(issued: map<Token, Issue>, path: Token, secret: Token, newPath: Token, newSecret: Token,
                  rotatedAt: Time): map<Token, Issue> {
    issued[path := Issue(secret, Some(rotatedAt), false)][newPath := Issue(newSecret, None, false)]
  }

  lemma RotationKeeps(accepted: map<Token, Credential>, issued: map<Token, Issue>, latest: Option<Time>, path: Token,
                      secret: Token, newPath: Token, newSecret: Token, rotatedAt: Time, p: Token)
    requires Kept(accepted, issued, latest, p)
    ensures Kept(Rotated(accepted, path, secret, newPath, newSecret, rotatedAt),
                 Issued(issued, path, secret, newPath, newSecret, rotatedAt), latest, p)
  {
  }

  class Rotation {
    var pathToken: Token
    var secret: Token
    var accepted: map<Token, Credential>
    var requestCounter: nat
    var inProgress: bool
    var workers: map<WorkerId, Stage>
    // All paths ever issued, the latest clock reading of a lookup, and totals.
    ghost var issued: map<Token, Issue>
    ghost var latest: Option<Time>
    ghost var counted: nat
    ghost var commits: nat

    ghost predicate Valid()
      reads this
    {
      Workers() && Credentials() && THRESHOLD * commits + requestCounter <= counted
    }

    // At most one worker, and the flag says whether there is one.  Until it has
    // committed, the counter stays at the threshold or above, and the pair it holds is
    // the current one.
    ghost predicate Workers()
      reads this`workers, this`inProgress, this`requestCounter, this`pathToken, this`secret
    {
      && (if inProgress then exists w :: workers.Keys == {w} else workers == map[])
      && (forall w :: w in workers ==> WorkerFits(workers[w]))
    }

    ghost predicate WorkerFits(stage: Stage)
      reads this`requestCounter, this`pathToken, this`secret
    {
      && (!stage.Finishing? ==> requestCounter >= THRESHOLD)
      && (stage.Holding? ==> stage.path == pathToken && stage.secret == secret)
    }

    // The current path has the current secret and is the only one without a deadline.
    ghost predicate Credentials()
      reads this`pathToken, this`secret, this`accepted, this`issued, this`latest
    {
      && pathToken in issued && issued[pathToken] == Issue(secret, None, false)
      && (forall p :: p in issued && p != pathToken ==> issued[p].replacedAt.Some?)
      && (forall p {:trigger Kept(accepted, issued, latest, p)} :: Kept(accepted, issued, latest, p))
    }

    constructor (pathToken: Token, secret: Token)
      ensures Valid()
      ensures this.pathToken == pathToken && this.secret == secret
      ensures issued == map[pathToken := Issue(secret, None, false)] && workers == map[]
      ensures latest == None && counted == commits == requestCounter == 0
    {
      this.pathToken, this.secret := pathToken, secret;
      accepted := map[pathToken := Credential(secret, None)];
      requestCounter, inProgress, workers := 0, false, map[];
      issued, latest, counted, commits := map[pathToken := Issue(secret, None, false)], None, 0, 0;
    }

    // A request that passed all checks.
    method Count()
      requires Valid()
      modifies this`requestCounter, this`counted
      ensures Valid() && requestCounter == old(requestCounter) + 1 && counted == old(counted) + 1
    {
      requestCounter := requestCounter + 1;
      counted := counted + 1;
    }

    // Forgets every credential whose deadline the reading has reached.
    method CleanupExpired(now: Time)
      modifies this`accepted
      ensures accepted == Cleaned(old(accepted), now)
    {
      var expired := set p | p in accepted && IsExpired(accepted[p], now);
      accepted := accepted - expired;
    }

    // The secret a request under this path must show.  A path that was issued yields its
    // own secret until some lookup saw its deadline pass; if this reading is not older
    // than those before, that is: exactly until its deadline.
    method ResolveExpectedSecret(path: Token, now: Time) returns (expected: Option<Token>)
      requires Valid()
      modifies this`accepted, this`issued, this`latest
      ensures Valid()
      ensures issued == AllLooked(old(issued), now) && latest == Later(old(latest), now)
      ensures issued.Keys == old(issued).Keys
      ensures forall p :: p in issued ==>
                && issued[p].secret == old(issued)[p].secret && issued[p].replacedAt == old(issued)[p].replacedAt
                && (issued[p].passed <==>
                      old(issued)[p].passed
                      || (issued[p].replacedAt.Some? && now >= issued[p].replacedAt.value + 300))
      ensures expected.Some? <==> path in issued && !issued[path].passed
      ensures expected.Some? ==> expected.value == old(issued)[path].secret
      ensures old(latest).None? || old(latest).value <= now ==>
                (expected.Some? <==>
                  path in issued && (path == pathToken || now < issued[path].replacedAt.value + 300))
    {
      assert Kept(accepted, issued, latest, path);
      if path in issued && (latest.None? || latest.value <= now) { LookupIsExact(accepted, issued, latest, now, path); }
      Look(now);
      assert Kept(accepted, issued, latest, path);
      expected := if path in accepted then Some(accepted[path].secret) else None;
    }

    method Look(now: Time)
      requires Valid()
      modifies this`accepted, this`issued, this`latest
      ensures Valid()
      ensures issued == AllLooked(old(issued), now) && latest == Later(old(latest), now)
    {
      forall p ensures Kept(Cleaned(accepted, now), AllLooked(issued, now), Later(latest, now), p) {
        assert Kept(accepted, issued, latest, p);
        LookupKeeps(accepted, issued, latest, now, p);
      }
      CleanupExpired(now);
      issued := AllLooked(issued, now);
      latest := Later(latest, now);
    }

    // After enough requests one rotation is started, unless one is on its way.
    method MaybeRotate(worker: WorkerId) returns (started: bool)
      requires Valid() && worker !in workers
      modifies this`inProgress, this`workers
      ensures Valid()
      ensures started <==> old(requestCounter) >= 10_000 && !old(inProgress)
      ensures inProgress == (old(inProgress) || started)
      ensures workers == if started then old(workers)[worker := Started] else old(workers)
    {
      if requestCounter < THRESHOLD || inProgress { return false; }
      inProgress := true;
      workers := workers[worker := Started];
      assert workers.Keys == {worker};
      return true;
    }

    // The worker notes the pair it is going to replace.
    method WorkerBegin(worker: WorkerId)
      requires Valid() && worker in workers && workers[worker].Started?
      modifies this`workers
      ensures Valid() && workers == old(workers)[worker := Holding(pathToken, secret)]
    {
      ghost var before := workers;
      workers := workers[worker := Holding(pathToken, secret)];
      assert workers.Keys == before.Keys;
    }

    // Registration succeeded: the new pair becomes current, the held one gets its grace
    // period, and the counter starts again.  Paths are drawn so that none repeats.
    method WorkerCommit(worker: WorkerId, newPath: Token, newSecret: Token, rotatedAt: Time)
      requires Valid() && worker in workers && workers[worker].Holding?
      requires newPath !in issued
      modifies this
      ensures Valid()
      ensures pathToken == newPath && secret == newSecret && requestCounter == 0
      ensures issued == old(issued)[old(pathToken) := Issue(old(secret), Some(rotatedAt), false)]
                                   [newPath := Issue(newSecret, None, false)]
      ensures forall p :: p in old(issued) ==> issued[p].secret == old(issued)[p].secret
      ensures workers == old(workers)[worker := Finishing]
      ensures commits == old(commits) + 1 && counted == old(counted) && latest == old(latest)
    {
      var previous := workers[worker];
      assert WorkerFits(previous);
      ghost var before := workers;
      Replace(previous.path, previous.secret, newPath, newSecret, rotatedAt);
      requestCounter, commits := 0, commits + 1;
      workers := workers[worker := Finishing];
      assert workers.Keys == before.Keys;
    }

    // The credential part of a rotation, for the current pair.
    method Replace(path: Token, oldSecret: Token, newPath: Token, newSecret: Token, rotatedAt: Time)
      requires Credentials() && path == pathToken && oldSecret == secret && newPath !in issued
      modifies this`pathToken, this`secret, this`accepted, this`issued
      ensures Credentials() && pathToken == newPath && secret == newSecret
      ensures issued == Issued(old(issued), path, oldSecret, newPath, newSecret, rotatedAt)
    {
      forall p ensures Kept(Rotated(accepted, path, oldSecret, newPath, newSecret, rotatedAt),
                            Issued(issued, path, oldSecret, newPath, newSecret, rotatedAt), latest, p) {
        assert Kept(accepted, issued, latest, p);
        RotationKeeps(accepted, issued, latest, path, oldSecret, newPath, newSecret, rotatedAt, p);
      }
      accepted := accepted[path := Credential(oldSecret, Some(rotatedAt + GRACE))];
      accepted := accepted[newPath := Credential(newSecret, None)];
      issued := Issued(issued, path, oldSecret, newPath, newSecret, rotatedAt);
      pathToken, secret := newPath, newSecret;
      assert accepted == Rotated(old(accepted), path, oldSecret, newPath, newSecret, rotatedAt);
    }

    // Registration failed: no credential changes.
    method WorkerFail(worker: WorkerId)
      requires Valid() && worker in workers && !workers[worker].Finishing?
      modifies this`workers
      ensures Valid() && workers == old(workers)[worker := Finishing]
    {
      ghost var before := workers;
      workers := workers[worker := Finishing];
      assert workers.Keys == before.Keys;
    }

    method WorkerFinish(worker: WorkerId)
      requires Valid() && worker in workers && workers[worker].Finishing?
      modifies this`workers, this`inProgress
      ensures Valid() && !inProgress && workers == old(workers) - {worker}
    {
      workers := workers - {worker};
      inProgress := false;
    }

    // In every reachable state there is at most one worker, rotations are paid for by
    // counted requests, and the current path is accepted with the current secret and is
    // the only accepted path without a deadline.
    lemma RotationIsSafe(a: WorkerId, b: WorkerId, p: Token)
      requires Valid()
      ensures a in workers && b in workers ==> a == b && inProgress
      ensures 10_000 * commits + requestCounter <= counted
      ensures pathToken in accepted && accepted[pathToken] == Credential(secret, None)
      ensures p in accepted && accepted[p].deadline.None? ==> p == pathToken
      ensures p in accepted ==>
                && p in issued && accepted[p].secret == issued[p].secret
                && (p != pathToken ==> accepted[p].deadline == Some(issued[p].replacedAt.value + 300))
    {
      assert Kept(accepted, issued, latest, pathToken) && Kept(accepted, issued, latest, p);
    }
  }
}
