// The check of a code in a handler is the replay guard's: what its one-time use means for
// the log-ins of a user whose messages overlap.
module LogIns {
  import opened Common
  import opened Sessions
  import opened OverlapWorld
  import opened Overlap
  import opened Text
  import Totp

  ghost predicate AllDistinct(steps: seq<int>) {
    forall i, j {:trigger steps[i], steps[j]} :: 0 <= i < j < |steps| ==> steps[i] != steps[j]
  }

  // The user spent a marker of every step.
  ghost predicate AllSpent(steps: seq<int>, spent: Totp.Markers, user: nat) {
    forall i :: 0 <= i < |steps| ==> StepSpent(spent, user, steps[i])
  }

  ghost predicate StepSpent(spent: Totp.Markers, user: nat, step: int) {
    exists m :: Totp.Holds(spent, user, m) && m.step == step
  }

  // A step of which nothing was spent before is a new one.
  lemma NewStep(steps: seq<int>, step: int, spent: Totp.Markers, more: Totp.Markers, user: nat)
    requires AllSpent(steps, spent, user) && StepSpent(more, user, step)
    requires forall s :: StepSpent(spent, user, s) ==> StepSpent(more, user, s)
    ensures AllSpent(steps + [step], more, user)
    ensures AllDistinct(steps) && !StepSpent(spent, user, step) ==> AllDistinct(steps + [step])
  {
  }

  // The observed step has fallen back by at most three.
  predicate InReach(time: nat, observed: seq<int>) {
    forall k :: 0 <= k < |observed| ==> observed[k] - 3 <= time / 30
  }

  // The guard had forgotten nothing, and the observed step falls back by at most three.
  ghost predicate Ready(guard: Totp.ReplayGuard, time: nat)
    reads guard
  {
    guard.Alert() && guard.Spelled() && guard.FallsLittle(time / 30)
  }

  // The text is six digits between blanks that are this user's code at one of the three steps
  // around the present one.
  ghost predicate OwnCode(guard: Totp.ReplayGuard, user: nat, text: string, time: nat) {
    var code := Strip(text, guard.blank);
    && |code| == 6 && (forall c :: c in code ==> guard.digit(c))
    && exists s {:trigger guard.codeOf(user, s)} ::
         time / 30 - 1 <= s <= time / 30 + 1 && guard.normal(code) == guard.codeOf(user, s)
  }

  // What a check by the guard means for steps: a guard that is ready accepts a code spelled
  // normally only if its step is a new one.
  method Verify(guard: Totp.ReplayGuard, user: nat, text: string, time: nat, write: Totp.Write)
    returns (ok: bool, ghost step: int)
    requires guard.Valid()
    modifies guard
    ensures guard.Valid()
    ensures forall s :: StepSpent(old(guard.spent), user, s) ==> StepSpent(guard.spent, user, s)
    ensures forall u :: u != user && u in old(guard.spent) ==>
                          u in guard.spent && guard.spent[u] == old(guard.spent[u])
    ensures ok ==> OwnCode(guard, user, text, time) && StepSpent(guard.spent, user, step)
    ensures old(Ready(guard, time)) ==> guard.Alert()
    ensures old(Ready(guard, time)) && ok && guard.IsPlain(text) ==> !StepSpent(old(guard.spent), user, step)
    ensures guard.Spelled() == (old(guard.Spelled()) && (ok ==> guard.IsPlain(text)))
    ensures old(guard.Durable()) && guard.Alert() && (ok ==> write.Written?) ==> guard.Durable()
  {
    ghost var matched;
    ghost var spent := guard.spent;
    ghost var ready := Ready(guard, time);
    assert forall m :: Totp.Holds(spent, user, m) ==> guard.Fits(user, m);
    ok, matched := guard.Verify(user, text, time, write);
    step := if ok then matched.value else 0;
    if ok { assert guard.normal(Strip(text, guard.blank)) == guard.codeOf(user, step); }
    assert ok ==> Totp.Holds(guard.spent, user, guard.MarkerAt(text, step));
    forall s | StepSpent(spent, user, s) ensures StepSpent(guard.spent, user, s) {
      var m :| Totp.Holds(spent, user, m) && m.step == s;
      assert Totp.Holds(guard.spent, user, m);
    }
  }

  class LogIns {
    const overlap: Overlap
    const guard: Totp.ReplayGuard
    const user: nat
    // The steps of the user's successful checks.
    ghost var steps: seq<int>
    // Whether at every check of this user the guard had forgotten nothing in reach, the
    // observed step had fallen back by at most three, and codes were spelled normally.
    ghost var alert: bool
    // A condition on readings, texts and writes only: the run began with all that was spent
    // in the state file, the observed step fell back by at most three at every check of any
    // user, and every check that succeeded had a code spelled normally and wrote the file.
    ghost var steady: bool

    // What the guard knows of the steps.
    ghost predicate Known()
      reads this, guard
    {
      && guard.Valid() && AllSpent(steps, guard.spent, user)
      && (alert ==> AllDistinct(steps))
      && (steady ==> alert && guard.Alert() && guard.Spelled() && guard.Durable())
    }

    ghost predicate Valid()
      reads this, overlap, overlap.burst, guard
    {
      overlap.Valid() && overlap.user == user && |steps| == |overlap.verified| && Known()
    }

    constructor (overlap: Overlap, guard: Totp.ReplayGuard, user: nat)
      requires overlap.Valid() && guard.Valid() && overlap.user == user && overlap.verified == []
      ensures Valid() && steps == [] && alert
      ensures steady == (guard.Alert() && guard.Spelled() && guard.Durable())
      ensures this.overlap == overlap && this.guard == guard && this.user == user
    {
      this.overlap, this.guard, this.user := overlap, guard, user;
      steps, alert := [], true;
      steady := guard.Alert() && guard.Spelled() && guard.Durable();
    }

    // The guard's part of a check: its step is spent, and if the guard knew all in reach it
    // is a new one.
    method Judge(text: string, time: nat, write: Totp.Write) returns (ok: bool)
      requires Known()
      modifies this`steps, this`alert, this`steady, guard
      ensures Known() && |steps| == |old(steps)| + if ok then 1 else 0
      ensures alert == (old(alert && Ready(guard, time)) && (ok ==> guard.IsPlain(text)))
      ensures alert ==> guard.Alert() && guard.Spelled()
      ensures steady == (old(steady) && InReach(time, old(guard.steps))
                         && (ok ==> guard.IsPlain(text) && write.Written?))
      ensures ok ==> OwnCode(guard, user, text, time)
    {
      ghost var step;
      ghost var spent, ready := guard.spent, Ready(guard, time);
      ok, step := Verify(guard, user, text, time, write);
      ghost var plain := ok ==> guard.IsPlain(text);
      ghost var after := steps;
      if ok {
        NewStep(steps, step, spent, guard.spent, user);
        after := steps + [step];
      }
      assert AllSpent(after, guard.spent, user) && (alert && ready && plain ==> AllDistinct(after));
      steps, alert, steady := after, alert && ready && plain, steady && ready && plain && (ok ==> write.Written?);
    }

    // The check of a code of this user.
    method Check(h: HandlerId, text: string, time: nat, write: Totp.Write) returns (ok: bool)
      requires Valid() && h in overlap.handlers && overlap.handlers[h].Checking?
      modifies this, overlap, guard
      ensures Valid()
      ensures overlap.verified == old(overlap.verified) + if ok then [time] else []
      ensures alert == (old(alert && Ready(guard, time)) && (ok ==> guard.IsPlain(text)))
      ensures alert ==> guard.Alert() && guard.Spelled()
      ensures steady == (old(steady) && InReach(time, old(guard.steps))
                         && (ok ==> guard.IsPlain(text) && write.Written?))
      ensures ok ==> OwnCode(guard, user, text, time)
    {
      ok := Judge(text, time, write);
      overlap.Check(h, if ok then Good else Bad, time);
    }

    // The check of another user's code meanwhile.
    method OtherCheck(other: nat, text: string, time: nat, write: Totp.Write) returns (ok: bool)
      requires Valid() && other != user
      modifies this`steady, guard
      ensures Valid() && (ok ==> OwnCode(guard, other, text, time))
      ensures old(Ready(guard, time)) ==> guard.Alert()
      ensures guard.Spelled() == (old(guard.Spelled()) && (ok ==> guard.IsPlain(text)))
      ensures steady == (old(steady) && InReach(time, old(guard.steps))
                         && (ok ==> guard.IsPlain(text) && write.Written?))
    {
      ghost var step;
      ghost var spent, reach := guard.spent, InReach(time, guard.steps);
      ok, step := Verify(guard, other, text, time, write);
      assert forall s :: StepSpent(spent, user, s) ==> StepSpent(guard.spent, user, s);
      steady := steady && reach && (ok ==> guard.IsPlain(text) && write.Written?);
    }

    // A restart of the guard, which the run goes on after.
    method Restart()
      requires Valid()
      modifies guard
      ensures Valid() && steady == old(steady)
      ensures old(guard.Durable()) ==> guard.Alert() && guard.Durable()
    {
      guard.Restart();
    }

    // Every log-in of the user has a successful check of its own, and every successful
    // check has spent a time step that no other one has spent; across restarts too.
    lemma EachLogInSpendsAStep()
      requires Valid() && steady
      ensures overlap.logins <= |overlap.verified| == |steps|
      ensures AllDistinct(steps) && AllSpent(steps, guard.spent, user)
    {
      overlap.OverlapIsSafe(0, 0);
    }
  }
}
