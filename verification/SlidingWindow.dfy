// Sliding windows over the full history of admission times.  The limiters of the
// program keep only a short trimmed queue; the definitions here talk about the
// whole history, so that a limiter can be compared with "count what was admitted".
module SlidingWindow {
  import opened Common

  // No entry is earlier than one before it by more than this.
  ghost predicate LateBy(h: seq<Time>, late: nat) {
    forall i, j {:trigger NotLater(h, i, j, late)} :: 0 <= i < j < |h| ==> NotLater(h, i, j, late)
  }

  ghost predicate NotLater(h: seq<Time>, i: nat, j: nat, late: nat)
    requires i < j < |h|
  {
    h[i] <= h[j] + late
  }

  ghost predicate Ordered(h: seq<Time>) {
    LateBy(h, 0)
  }

  lemma LateAppend(h: seq<Time>, now: Time, late: nat)
    ensures LateBy(h + [now], late) <==> LateBy(h, late) && NoneAfter(h, now + late)
  {
    var g := h + [now];
    if LateBy(g, late) {
      forall i, j | 0 <= i < j < |h| ensures NotLater(h, i, j, late) { assert NotLater(g, i, j, late); }
      forall i | 0 <= i < |h| ensures h[i] <= now + late { assert NotLater(g, i, |h|, late); }
    }
    if LateBy(h, late) && NoneAfter(h, now + late) {
      forall i, j | 0 <= i < j < |g| ensures NotLater(g, i, j, late) {
        if j < |h| { assert NotLater(h, i, j, late); }
      }
    }
  }

  lemma OrderedAppend(h: seq<Time>, now: Time)
    ensures Ordered(h + [now]) <==> Ordered(h) && (h != [] ==> h[|h| - 1] <= now)
  {
    LateAppend(h, now, 0);
    if Ordered(h) && h != [] && h[|h| - 1] <= now {
      forall i | 0 <= i < |h| - 1 ensures h[i] <= now { assert NotLater(h, i, |h| - 1, 0); }
    }
  }

  // How many entries of h lie in the closed interval [lo, hi].
  function CountIn(h: seq<Time>, lo: Time, hi: Time): nat {
    if h == [] then 0
    else CountIn(h[..|h| - 1], lo, hi) + if lo <= h[|h| - 1] <= hi then 1 else 0
  }

  // Every entry was admitted while fewer than `limit` earlier entries lay in the closed
  // period that ends with it, or, if readings can be late, in the part of that period that
  // a late reading leaves.
  ghost predicate Throttled(h: seq<Time>, period: int, limit: int, late: nat) {
    forall i :: 0 <= i < |h| ==> AdmittedWithin(h, i, period, limit, late)
  }

  ghost predicate AdmittedWithin(h: seq<Time>, i: nat, period: int, limit: int, late: nat)
    requires i < |h|
  {
    CountIn(h[..i], h[i] + late - period, h[i] + late) < limit
  }

  // d is what is left of h once everything older than the cutoff may be forgotten.
  ghost predicate IsTail(d: seq<Time>, h: seq<Time>, cutoff: Time) {
    && |d| <= |h|
    && d == h[|h| - |d|..]
    && AllBefore(h, |h| - |d|, cutoff)
  }

  // The first n entries are older than the cutoff.
  ghost predicate AllBefore(h: seq<Time>, n: nat, cutoff: Time)
    requires n <= |h|
  {
    forall i :: 0 <= i < n ==> h[i] < cutoff
  }

  ghost predicate NoneAfter(h: seq<Time>, last: Time) {
    forall i :: 0 <= i < |h| ==> h[i] <= last
  }

  // What popping from the front while the front is older than the cutoff leaves.
  function Trim(d: seq<Time>, cutoff: Time): (r: seq<Time>)
    ensures |r| <= |d|
  {
    if d == [] || d[0] >= cutoff then d else Trim(d[1..], cutoff)
  }

  lemma {:induction false} TrimSplits(d: seq<Time>, cutoff: Time)
    ensures var r := Trim(d, cutoff);
            && r == d[|d| - |r|..]
            && AllBefore(d, |d| - |r|, cutoff)
            && (r != [] ==> r[0] >= cutoff)
  {
    if d != [] && d[0] < cutoff { TrimSplits(d[1..], cutoff); }
  }

  lemma {:induction false} CountIncludes(h: seq<Time>, lo: Time, hi: Time, lo': Time, hi': Time)
    requires forall i :: 0 <= i < |h| && lo <= h[i] <= hi ==> lo' <= h[i] <= hi'
    ensures CountIn(h, lo, hi) <= CountIn(h, lo', hi')
  {
    if h != [] { CountIncludes(h[..|h| - 1], lo, hi, lo', hi'); }
  }

  // Entries below the interval do not count.
  lemma {:induction false} CountSkips(h: seq<Time>, k: nat, lo: Time, hi: Time)
    requires k <= |h| && AllBefore(h, k, lo)
    ensures CountIn(h, lo, hi) <= |h| - k
  {
    if |h| > k {
      CountSkips(h[..|h| - 1], k, lo, hi);
    } else if h != [] {
      CountSkips(h[..|h| - 1], k - 1, lo, hi);
    }
  }

  lemma {:induction false} CountAll(h: seq<Time>, k: nat, lo: Time, hi: Time)
    requires k <= |h| && forall i :: k <= i < |h| ==> lo <= h[i] <= hi
    ensures CountIn(h, lo, hi) >= |h| - k
  {
    if |h| > k { CountAll(h[..|h| - 1], k, lo, hi); }
  }

  // The kept queue is what is left of a history that ends no later than the highest
  // reading so far.
  ghost predicate Tailed(d: seq<Time>, h: seq<Time>, top: Time, period: int) {
    NoneAfter(h, top) && IsTail(d, h, top - period)
  }

  // How many entries a window that ends now has, if readings are late by no more than this:
  // at least those of its later part, at most those of a longer one.  In order, exactly
  // its own.
  ghost predicate Counts(n: nat, h: seq<Time>, period: int, now: Time, late: nat) {
    CountIn(h, now + late - period, now + late) <= n <= CountIn(h, now - late - period, now + late)
  }

  // What that means for the answer: refused if the later part of the window is full, and
  // only if the longer one is.
  ghost predicate Decides(refused: bool, h: seq<Time>, readings: seq<Time>, limit: nat, period: int, now: Time,
                          late: nat)
  {
    LateBy(readings, late) ==>
      && (CountIn(h, now + late - period, now + late) >= limit ==> refused)
      && (refused ==> CountIn(h, now - late - period, now + late) >= limit)
  }

  lemma TrimTails(d: seq<Time>, h: seq<Time>, top: Time, period: int, now: Time)
    requires Tailed(d, h, top, period)
    ensures var q := Trim(d, now - period);
            && Tailed(q, h, Max(top, now), period)
            && (q != [] ==> now - period <= q[0])
  {
    var q := Trim(d, now - period);
    var k := |h| - |q|;
    TrimSplits(d, now - period);
    forall i | 0 <= i < k ensures h[i] < Max(top, now) - period {
      if i >= |h| - |d| { assert h[i] == d[i - (|h| - |d|)]; }
    }
    assert q == h[k..];
  }

  // Trimming the kept queue loses nothing that a later window could ask for, and the
  // length of the trimmed queue is the window's count over the whole history.
  lemma TrimCounts(d: seq<Time>, h: seq<Time>, top: Time, period: int, now: Time, late: nat)
    requires LateBy(h, late) && Tailed(d, h, top, period) && top <= now + late
    ensures Counts(|Trim(d, now - period)|, h, period, now, late)
    ensures late == 0 ==> |Trim(d, now - period)| == CountIn(h, now - period, now)
  {
    var q := Trim(d, now - period);
    var k := |h| - |q|;
    TrimTails(d, h, top, period, now);
    CountSkips(h, k, now + late - period, now + late);
    forall i | k <= i < |h| ensures now - late - period <= h[i] {
      if i > k { assert NotLater(h, k, i, late); }
      assert h[k] == q[0];
    }
    CountAll(h, k, now - late - period, now + late);
  }

  lemma ThrottledAppend(h: seq<Time>, period: int, limit: int, now: Time, late: nat)
    requires Throttled(h, period, limit, late)
    requires CountIn(h, now + late - period, now + late) < limit
    ensures Throttled(h + [now], period, limit, late)
  {
    var g := h + [now];
    forall i | 0 <= i < |g| ensures AdmittedWithin(g, i, period, limit, late) {
      assert g[..i] == h[..i];
      if i == |h| {
        assert h[..i] == h;
      } else {
        assert AdmittedWithin(h, i, period, limit, late);
      }
    }
  }

  // The point of a sliding window: no closed interval as long as the period, less what
  // readings can be late by, ever holds more than `limit` admissions, wherever it starts.
  lemma {:induction false} WindowBound(h: seq<Time>, period: int, limit: nat, late: nat, start: Time)
    requires LateBy(h, late) && Throttled(h, period, limit, late)
    ensures CountIn(h, start, start + period - late) <= limit
  {
    if h != [] {
      var n := |h| - 1;
      assert h == h[..n] + [h[n]];
      LateAppend(h[..n], h[n], late);
      if start <= h[n] <= start + period - late {
        assert AdmittedWithin(h, n, period, limit, late);
        CountIncludes(h[..n], start, start + period - late, h[n] + late - period, h[n] + late);
      } else {
        forall i | 0 <= i < n ensures AdmittedWithin(h[..n], i, period, limit, late) {
          assert AdmittedWithin(h, i, period, limit, late);
          assert h[..n][..i] == h[..i];
        }
        WindowBound(h[..n], period, limit, late, start);
      }
    }
  }

  // What a trimmed queue says about the full history h of admissions, given every clock
  // reading so far: the queue is the part of the history that the next window can still
  // see, and whatever the readings are late by, the history obeys the limit as far as that
  // allows.
  ghost predicate Windowed(queue: seq<Time>, h: seq<Time>, readings: seq<Time>, limit: nat, period: int) {
    && |queue| <= limit
    && (if readings == [] then queue == [] && h == [] else Tailed(queue, h, Highest(readings), period))
    && forall late {:trigger Obeys(h, readings, limit, period, late)} :: Obeys(h, readings, limit, period, late)
  }

  ghost predicate Obeys(h: seq<Time>, readings: seq<Time>, limit: nat, period: int, late: nat) {
    LateBy(readings, late) ==> LateBy(h, late) && Throttled(h, period, limit, late)
  }

  lemma HighestIsLast(readings: seq<Time>, now: Time)
    ensures Highest(readings + [now]) == if readings == [] then now else Max(Highest(readings), now)
  {
    assert (readings + [now])[..|readings|] == readings;
  }

  lemma LateReading(readings: seq<Time>, now: Time, late: nat)
    requires LateBy(readings + [now], late)
    ensures LateBy(readings, late) && (readings != [] ==> Highest(readings) <= now + late)
  {
    LateAppend(readings, now, late);
    if readings != [] { HighestIsReached(readings); }
  }

  // A reading that concerns somebody else changes nothing.
  lemma ReadingPasses(queue: seq<Time>, h: seq<Time>, readings: seq<Time>, limit: nat, period: int, now: Time)
    requires Windowed(queue, h, readings, limit, period)
    ensures Windowed(queue, h, readings + [now], limit, period)
  {
    var rs := readings + [now];
    HighestIsLast(readings, now);
    forall late ensures Obeys(h, rs, limit, period, late) {
      assert Obeys(h, readings, limit, period, late);
      if LateBy(rs, late) { LateReading(readings, now, late); }
    }
  }

  // Trimming at the latest reading changes nothing either.
  lemma TrimKeepsWindowed(queue: seq<Time>, h: seq<Time>, readings: seq<Time>, limit: nat, period: int)
    requires Windowed(queue, h, readings, limit, period) && readings != []
    ensures Windowed(Trim(queue, readings[|readings| - 1] - period), h, readings, limit, period)
  {
    var now := readings[|readings| - 1];
    HighestIsReached(readings);
    TrimTails(queue, h, Highest(readings), period, now);
  }

  // One request, if readings are late by no more than this.
  lemma StepObeys(queue: seq<Time>, h: seq<Time>, readings: seq<Time>, limit: nat, period: int, now: Time, late: nat)
    requires Windowed(queue, h, readings, limit, period) && LateBy(readings + [now], late)
    ensures var q := Trim(queue, now - period);
            && Counts(|q|, h, period, now, late) && (late == 0 ==> |q| == CountIn(h, now - period, now))
            && LateBy(h, late) && Throttled(h, period, limit, late)
            && (|q| < limit ==> LateBy(h + [now], late) && Throttled(h + [now], period, limit, late))
  {
    var top := if readings == [] then now else Highest(readings);
    assert Obeys(h, readings, limit, period, late);
    LateReading(readings, now, late);
    TrimCounts(queue, h, top, period, now, late);
    LateAppend(h, now, late);
    if |Trim(queue, now - period)| < limit { ThrottledAppend(h, period, limit, now, late); }
  }

  // One request: the trimmed queue is as long as the number of admissions in the closed
  // window that ends now, and stays faithful whether or not the request is admitted.
  lemma WindowStep(queue: seq<Time>, h: seq<Time>, readings: seq<Time>, limit: nat, period: int, now: Time)
    requires Windowed(queue, h, readings, limit, period)
    ensures var q := Trim(queue, now - period);
            && (Ordered(readings + [now]) ==> |q| == CountIn(h, now - period, now))
            && Windowed(q, h, readings + [now], limit, period)
            && (|q| < limit ==> Windowed(q + [now], h + [now], readings + [now], limit, period))
    ensures var refused, rs := |Trim(queue, now - period)| >= limit, readings + [now];
            forall late {:trigger Decides(refused, h, rs, limit, period, now, late)} ::
              Decides(refused, h, rs, limit, period, now, late)
  {
    var q, rs := Trim(queue, now - period), readings + [now];
    HighestIsLast(readings, now);
    TrimTails(queue, h, if readings == [] then now else Highest(readings), period, now);
    if Ordered(rs) { StepObeys(queue, h, readings, limit, period, now, 0); }
    forall late ensures Obeys(h, rs, limit, period, late) {
      if LateBy(rs, late) { StepObeys(queue, h, readings, limit, period, now, late); }
    }
    var refused := |q| >= limit;
    forall late ensures Decides(refused, h, rs, limit, period, now, late) {
      if LateBy(rs, late) { StepObeys(queue, h, readings, limit, period, now, late); }
    }
    if |q| < limit {
      var more := h + [now];
      forall late ensures Obeys(more, rs, limit, period, late) {
        if LateBy(rs, late) { StepObeys(queue, h, readings, limit, period, now, late); }
      }
    }
  }
}
