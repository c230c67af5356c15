// The duplicate-update filter: a map from key to expiry, and a queue of the same
// records that is pruned lazily from the front.
module UpdateDedup {
  import opened Common
  import opened SlidingWindow

  // The three shapes of key the filter builds from an update.
  datatype Key = CallbackKey(id: string) | UpdateKey(updateId: nat) | MessageKey(chatId: int, messageId: int)

  datatype Record = Record(key: Key, expiry: Time)

  // What the filter is meant to remember, said over everything it ever accepted: the
  // key is among the last `cap` accepted records and its time to live is not over.
  ghost predicate Remembered(h: seq<Record>, key: Key, now: Time, cap: nat) {
    exists i :: 0 <= i < |h| && |h| - cap <= i && h[i].key == key && h[i].expiry > now
  }

  // The longest suffix of h that has at most `cap` records, all of them alive.
  ghost predicate IsLiveSuffix(q: seq<Record>, h: seq<Record>, now: Time, cap: nat) {
    && IsSuffix(q, h)
    && |q| <= cap
    && (forall i :: 0 <= i < |q| ==> q[i].expiry > now)
    && (|q| < |h| ==> |q| == cap || h[|h| - |q| - 1].expiry <= now)
  }

  ghost predicate Mentions(q: seq<Record>, key: Key) {
    exists i :: 0 <= i < |q| && q[i].key == key
  }

  ghost predicate IsSuffix(q: seq<Record>, h: seq<Record>) {
    |q| <= |h| && q == h[|h| - |q|..]
  }

  // Map and queue agree, whatever the clock did: every queued key is in the map, the
  // records of a key have strictly increasing expiries, and the map holds the last one.
  ghost predicate Coherent(c: Cache) {
    && (forall i {:trigger Backed(c, i)} :: 0 <= i < |c.queue| ==> Backed(c, i))
    && (forall k {:trigger Queued(c, k)} :: k in c.entries ==> Queued(c, k))
    && Increasing(c.queue)
  }

  ghost predicate Backed(c: Cache, i: nat)
    requires i < |c.queue|
  {
    c.queue[i].key in c.entries && c.queue[i].expiry <= c.entries[c.queue[i].key]
  }

  ghost predicate Queued(c: Cache, k: Key)
    requires k in c.entries
  {
    exists i :: 0 <= i < |c.queue| && c.queue[i] == Record(k, c.entries[k])
  }

  ghost predicate Increasing(q: seq<Record>) {
    forall i, j {:trigger Renewed(q, i, j)} :: 0 <= i < j < |q| ==> Renewed(q, i, j)
  }

  // Two records of one key: the later one expires later.
  ghost predicate Renewed(q: seq<Record>, i: nat, j: nat)
    requires i < j < |q|
  {
    q[i].key == q[j].key ==> q[i].expiry < q[j].expiry
  }

  ghost predicate DistinctKeys(q: seq<Record>) {
    forall i, j {:trigger KeysDiffer(q, i, j)} :: 0 <= i < j < |q| ==> KeysDiffer(q, i, j)
  }

  ghost predicate KeysDiffer(q: seq<Record>, i: nat, j: nat)
    requires i < j < |q|
  {
    q[i].key != q[j].key
  }

  ghost predicate OldestFirst(q: seq<Record>) {
    forall i, j {:trigger NotAfter(q, i, j)} :: 0 <= i < j < |q| ==> NotAfter(q, i, j)
  }

  ghost predicate NotAfter(q: seq<Record>, i: nat, j: nat)
    requires i < j < |q|
  {
    q[i].expiry <= q[j].expiry
  }

  // A history in which no record was accepted while its key was still remembered.
  ghost predicate FairHistory(h: seq<Record>, ttl: int, cap: nat) {
    forall j :: 0 <= j < |h| ==> AcceptedFairly(h, j, ttl, cap)
  }

  ghost predicate AcceptedFairly(h: seq<Record>, j: nat, ttl: int, cap: nat)
    requires j < |h|
  {
    !Remembered(h[..j], h[j].key, h[j].expiry - ttl, cap)
  }

  datatype Cache = Cache(entries: map<Key, Time>, queue: seq<Record>)

  // The front record no longer speaks for its key.
  predicate Stale(c: Cache)
    requires c.queue != []
  {
    c.queue[0].key !in c.entries || c.entries[c.queue[0].key] != c.queue[0].expiry
  }

  predicate MustPop(c: Cache, now: Time, cap: nat)
    requires c.queue != []
  {
    Stale(c) || c.queue[0].expiry <= now || |c.entries| > cap
  }

  function PopFront(c: Cache): Cache
    requires c.queue != []
  {
    Cache(if Stale(c) then c.entries else c.entries - {c.queue[0].key}, c.queue[1..])
  }

  function Prune(c: Cache, now: Time, cap: nat): Cache
    decreases |c.queue|
  {
    if c.queue != [] && MustPop(c, now, cap) then Prune(PopFront(c), now, cap) else c
  }

  function Push(c: Cache, r: Record): Cache {
    Cache(c.entries[r.key := r.expiry], c.queue + [r])
  }

  // One call: prune, refuse a key whose entry is alive, otherwise record it and prune.
  function Register(c: Cache, key: Key, now: Time, ttl: int, cap: nat): (Cache, bool) {
    var p := Prune(c, now, cap);
    if key in p.entries && p.entries[key] > now then (p, false)
    else (Prune(Push(p, Record(key, now + ttl)), now, cap), true)
  }

  lemma SuffixKeepsOrder(q: seq<Record>, k: nat)
    requires k <= |q|
    ensures Increasing(q) ==> Increasing(q[k..])
    ensures DistinctKeys(q) ==> DistinctKeys(q[k..])
    ensures OldestFirst(q) ==> OldestFirst(q[k..])
  {
    forall i, j | 0 <= i < j < |q[k..]|
      ensures Increasing(q) ==> Renewed(q[k..], i, j)
      ensures DistinctKeys(q) ==> KeysDiffer(q[k..], i, j)
      ensures OldestFirst(q) ==> NotAfter(q[k..], i, j)
    {
      assert Increasing(q) ==> Renewed(q, k + i, k + j);
      assert DistinctKeys(q) ==> KeysDiffer(q, k + i, k + j);
      assert OldestFirst(q) ==> NotAfter(q, k + i, k + j);
    }
  }

  lemma AppendKeepsOrder(q: seq<Record>, x: Record)
    ensures Increasing(q) && (forall i :: 0 <= i < |q| && q[i].key == x.key ==> q[i].expiry < x.expiry) ==>
              Increasing(q + [x])
    ensures DistinctKeys(q) && !Mentions(q, x.key) ==> DistinctKeys(q + [x])
    ensures OldestFirst(q) && (forall i :: 0 <= i < |q| ==> q[i].expiry <= x.expiry) ==> OldestFirst(q + [x])
  {
    forall i, j | 0 <= i < j < |q|
      ensures Increasing(q) ==> Renewed(q + [x], i, j)
      ensures DistinctKeys(q) ==> KeysDiffer(q + [x], i, j)
      ensures OldestFirst(q) ==> NotAfter(q + [x], i, j)
    {
      assert Increasing(q) ==> Renewed(q, i, j);
      assert DistinctKeys(q) ==> KeysDiffer(q, i, j);
      assert OldestFirst(q) ==> NotAfter(q, i, j);
    }
  }

  lemma PopKeepsCoherent(c: Cache)
    requires Coherent(c) && c.queue != []
    ensures Coherent(PopFront(c))
    ensures |PopFront(c).entries| == |c.entries| - if Stale(c) then 0 else 1
  {
    var p := PopFront(c);
    var front := c.queue[0];
    SuffixKeepsOrder(c.queue, 1);
    assert Backed(c, 0);
    assert !Stale(c) ==> p.entries.Keys == c.entries.Keys - {front.key};
    forall i | 0 <= i < |p.queue| ensures Backed(p, i) {
      assert Backed(c, i + 1) && Renewed(c.queue, 0, i + 1);
    }
    forall k | k in p.entries ensures Queued(p, k) {
      assert Queued(c, k);
      var i :| 0 <= i < |c.queue| && c.queue[i] == Record(k, c.entries[k]);
      assert p.queue[i - 1] == c.queue[i];
    }
  }

  lemma PushKeepsBacked(c: Cache, x: Record, i: nat)
    requires Coherent(c) && i <= |c.queue|
    requires x.key in c.entries ==> c.entries[x.key] < x.expiry
    ensures Backed(Push(c, x), i)
    ensures i < |c.queue| && c.queue[i].key == x.key ==> c.queue[i].expiry < x.expiry
  {
    if i < |c.queue| { assert Backed(c, i); }
  }

  lemma PushKeepsQueued(c: Cache, x: Record, k: Key)
    requires Coherent(c) && (k in c.entries || k == x.key)
    ensures Queued(Push(c, x), k)
  {
    var p := Push(c, x);
    if k == x.key {
      assert p.queue[|c.queue|] == Record(k, p.entries[k]);
    } else {
      assert Queued(c, k);
      var i :| 0 <= i < |c.queue| && c.queue[i] == Record(k, c.entries[k]);
      assert p.queue[i] == c.queue[i];
    }
  }

  lemma PushKeepsCoherent(c: Cache, x: Record)
    requires Coherent(c)
    requires x.key in c.entries ==> c.entries[x.key] < x.expiry
    ensures Coherent(Push(c, x))
    ensures |Push(c, x).entries| == |c.entries| + if x.key in c.entries then 0 else 1
  {
    var p := Push(c, x);
    forall i | 0 <= i < |p.queue| ensures Backed(p, i) { PushKeepsBacked(c, x, i); }
    forall i | 0 <= i < |c.queue| ensures c.queue[i].key == x.key ==> c.queue[i].expiry < x.expiry {
      PushKeepsBacked(c, x, i);
    }
    AppendKeepsOrder(c.queue, x);
    assert p.entries.Keys == c.entries.Keys + {x.key};
    forall k | k in p.entries ensures Queued(p, k) { PushKeepsQueued(c, x, k); }
  }

  // Whatever the clock does: pruning keeps map and queue in agreement, ends within the
  // cap, leaves a live current record in front, and takes nothing alive from a map
  // that was within the cap.
  lemma {:induction false} PruneAlways(c: Cache, now: Time, cap: nat)
    requires Coherent(c)
    ensures var p := Prune(c, now, cap);
            && Coherent(p) && |p.entries| <= cap
            && (p.queue != [] ==> !MustPop(p, now, cap))
            && p.entries.Keys <= c.entries.Keys
            && (forall k :: k in p.entries ==> p.entries[k] == c.entries[k])
            && (forall k :: k in c.entries && c.entries[k] > now && |c.entries| <= cap ==> k in p.entries)
    decreases |c.queue|
  {
    if c.queue == [] {
      assert forall k :: k in c.entries ==> Queued(c, k);
      assert c.entries.Keys == {};
    } else if MustPop(c, now, cap) {
      PopKeepsCoherent(c);
      PruneAlways(PopFront(c), now, cap);
    }
  }

  lemma OnlyOneKeyQueued(c: Cache)
    requires Coherent(c) && |c.queue| == 1
    ensures |c.entries| == 1 && !Stale(c)
  {
    assert Backed(c, 0) && Queued(c, c.queue[0].key);
    assert c.entries.Keys == {c.queue[0].key} by {
      assert Backed(c, 0);
      assert forall k :: k in c.entries ==> Queued(c, k);
    }
  }

  // With at most one entry too many, the newest record stays if it is alive.
  lemma {:induction false} PruneSparesNewest(c: Cache, now: Time, cap: nat)
    requires Coherent(c) && |c.entries| <= cap + 1
    requires cap > 0 && c.queue != [] && c.queue[|c.queue| - 1].expiry > now
    ensures var p := Prune(c, now, cap); p.queue != [] && p.queue[|p.queue| - 1] == c.queue[|c.queue| - 1]
    decreases |c.queue|
  {
    if MustPop(c, now, cap) {
      PopSparesNewest(c, now, cap);
      PruneSparesNewest(PopFront(c), now, cap);
    }
  }

  lemma PopSparesNewest(c: Cache, now: Time, cap: nat)
    requires Coherent(c) && |c.entries| <= cap + 1
    requires cap > 0 && c.queue != [] && c.queue[|c.queue| - 1].expiry > now && MustPop(c, now, cap)
    ensures var n := PopFront(c);
            && Coherent(n) && |n.entries| <= cap + 1
            && n.queue != [] && n.queue[|n.queue| - 1] == c.queue[|c.queue| - 1]
  {
    PopKeepsCoherent(c);
    if |c.queue| == 1 { OnlyOneKeyQueued(c); }
  }

  // With at most one entry too many, at most one live entry is lost.
  lemma {:induction false} PruneLosesOne(c: Cache, now: Time, cap: nat, k: Key, k': Key)
    requires Coherent(c) && |c.entries| <= cap + 1
    requires k in c.entries && c.entries[k] > now && k !in Prune(c, now, cap).entries
    requires k' in c.entries && c.entries[k'] > now && k' !in Prune(c, now, cap).entries
    ensures k == k'
    decreases |c.queue|
  {
    if c.queue != [] && MustPop(c, now, cap) {
      PopKeepsCoherent(c);
      PruneAlways(PopFront(c), now, cap);
      if k in PopFront(c).entries && k' in PopFront(c).entries {
        PruneLosesOne(PopFront(c), now, cap, k, k');
      }
    }
  }

  // Recording a fresh record and pruning: the record stays, as the newest.
  lemma PushAndPrune(p: Cache, x: Record, now: Time, cap: nat)
    requires Coherent(p) && |p.entries| <= cap && 0 < cap && now < x.expiry
    requires x.key in p.entries ==> p.entries[x.key] < x.expiry
    ensures var n := Prune(Push(p, x), now, cap);
            && Coherent(n) && |n.entries| <= cap
            && n.queue != [] && n.queue[|n.queue| - 1] == x
            && n.entries.Keys <= p.entries.Keys + {x.key}
            && (forall k :: k in n.entries ==> n.entries[k] == if k == x.key then x.expiry else p.entries[k])
            && (forall k :: k in p.entries && p.entries[k] > now && |p.entries| < cap ==> k in n.entries)
  {
    var c := Push(p, x);
    assert Coherent(c) && |c.entries| <= cap + 1 && (|p.entries| < cap ==> |c.entries| <= cap) by {
      PushKeepsCoherent(p, x);
    }
    assert c.queue[|c.queue| - 1] == x && c.entries == p.entries[x.key := x.expiry];
    PruneAlways(c, now, cap);
    PruneSparesNewest(c, now, cap);
  }

  // For every clock, even one that runs backwards: a key is refused exactly while its
  // entry is alive; a newly accepted key is kept with its full time to live, as the
  // newest record; other live entries go only when the cap was reached.
  lemma RegisterAlways(c: Cache, key: Key, now: Time, ttl: int, cap: nat)
    requires Coherent(c) && |c.entries| <= cap && 0 < cap && 0 < ttl
    ensures var (n, ok) := Register(c, key, now, ttl, cap);
            && Coherent(n) && |n.entries| <= cap
            && (ok <==> !(key in c.entries && c.entries[key] > now))
            && key in n.entries && n.entries[key] == (if ok then now + ttl else c.entries[key])
            && (ok ==> n.queue != [] && n.queue[|n.queue| - 1] == Record(key, now + ttl))
            && (forall k :: k in n.entries && k != key ==> k in c.entries && n.entries[k] == c.entries[k])
            && (forall k :: k in c.entries && c.entries[k] > now && k !in n.entries ==> ok && |c.entries| == cap)
  {
    var p := Prune(c, now, cap);
    var x := Record(key, now + ttl);
    PruneAlways(c, now, cap);
    if key in p.entries && p.entries[key] > now {
      assert Register(c, key, now, ttl, cap) == (p, false);
    } else {
      var n := Prune(Push(p, x), now, cap);
      assert Register(c, key, now, ttl, cap) == (n, true);
      PushAndPrune(p, x, now, cap);
      assert key in n.entries by { assert Backed(n, |n.queue| - 1); }
      SubsetIsSmaller(p.entries.Keys, c.entries.Keys);
    }
  }

  // Of the other live entries, at most one makes room for an accepted key.
  lemma RegisterLosesOne(c: Cache, key: Key, now: Time, ttl: int, cap: nat, k: Key, k': Key)
    requires Coherent(c) && |c.entries| <= cap && 0 < cap && 0 < ttl
    requires k in c.entries && c.entries[k] > now && k !in Register(c, key, now, ttl, cap).0.entries
    requires k' in c.entries && c.entries[k'] > now && k' !in Register(c, key, now, ttl, cap).0.entries
    ensures k == k'
  {
    var p := Prune(c, now, cap);
    var x := Record(key, now + ttl);
    PruneAlways(c, now, cap);
    if Register(c, key, now, ttl, cap).1 {
      PushKeepsCoherent(p, x);
      PruneLosesOne(Push(p, x), now, cap, k, k');
    }
  }

  // What is kept, for any clock: the key with its expiry, and all others but those that are
  // over and, if the cap was reached, at most one.
  ghost predicate Keeps(before: map<Key, Time>, after: map<Key, Time>, key: Key, ok: bool, now: Time, ttl: int,
                        cap: nat)
  {
    && |after| <= cap && key in after
    && (ok ==> after[key] == now + ttl)
    && (!ok ==> key in before && now < before[key] == after[key])
    && (forall k :: k in after && k != key ==> k in before && after[k] == before[k])
    && (forall k :: Lost(before, after, k, now) ==> ok && |before| == cap)
    && (forall k, k' {:trigger Lost(before, after, k, now), Lost(before, after, k', now)} ::
          Lost(before, after, k, now) && Lost(before, after, k', now) ==> k == k')
  }

  // Alive before, and not kept.
  predicate Lost(before: map<Key, Time>, after: map<Key, Time>, k: Key, now: Time) {
    k in before && before[k] > now && k !in after
  }

  lemma RegisterKeeps(c: Cache, key: Key, now: Time, ttl: int, cap: nat)
    requires Coherent(c) && |c.entries| <= cap && 0 < cap && 0 < ttl
    ensures var (n, ok) := Register(c, key, now, ttl, cap); Keeps(c.entries, n.entries, key, ok, now, ttl, cap)
  {
    var (n, ok) := Register(c, key, now, ttl, cap);
    RegisterAlways(c, key, now, ttl, cap);
    forall k, k' | Lost(c.entries, n.entries, k, now) && Lost(c.entries, n.entries, k', now) ensures k == k' {
      RegisterLosesOne(c, key, now, ttl, cap, k, k');
    }
  }

  // What the filter knows when every clock reading so far came in order: one record per
  // key, so none is ever stale, and the queue is the live suffix of all it accepted.
  ghost predicate Exact(c: Cache, h: seq<Record>, last: Time, ttl: int, cap: nat) {
    && OneRecordPerKey(c)
    && IsLiveSuffix(c.queue, h, last, cap)
    && OrderlyHistory(h, last, ttl, cap)
  }

  ghost predicate OrderlyHistory(h: seq<Record>, last: Time, ttl: int, cap: nat) {
    && OldestFirst(h)
    && (forall i :: 0 <= i < |h| ==> h[i].expiry <= last + ttl)
    && FairHistory(h, ttl, cap)
  }

  ghost predicate OneRecordPerKey(c: Cache) {
    DistinctKeys(c.queue) && |c.entries| == |c.queue|
  }

  lemma NeverStale(c: Cache)
    requires Coherent(c) && DistinctKeys(c.queue) && c.queue != []
    ensures !Stale(c)
  {
    var front := c.queue[0];
    assert Backed(c, 0) && Queued(c, front.key);
    var i :| 0 <= i < |c.queue| && c.queue[i] == Record(front.key, c.entries[front.key]);
    assert i > 0 ==> KeysDiffer(c.queue, 0, i);
  }

  lemma LiveFront(q: seq<Record>, now: Time)
    requires OldestFirst(q) && q != [] && q[0].expiry > now
    ensures forall i :: 0 <= i < |q| ==> q[i].expiry > now
  {
    forall i | 0 < i < |q| ensures q[i].expiry > now {
      assert NotAfter(q, 0, i);
    }
  }

  // In order, pruning leaves exactly the live suffix of the history, if what is already
  // gone from the history's front is dead or beyond the cap.
  lemma {:induction false} PruneIsLiveSuffix(c: Cache, gone: seq<Record>, now: Time, cap: nat)
    requires Coherent(c) && OneRecordPerKey(c) && OldestFirst(c.queue)
    requires gone != [] ==> |c.queue| >= cap || gone[|gone| - 1].expiry <= now
    ensures OneRecordPerKey(Prune(c, now, cap))
    ensures IsLiveSuffix(Prune(c, now, cap).queue, gone + c.queue, now, cap)
    decreases |c.queue|
  {
    if c.queue != [] {
      NeverStale(c);
      if MustPop(c, now, cap) {
        PopKeepsCoherent(c);
        SuffixKeepsOrder(c.queue, 1);
        assert gone + c.queue == (gone + [c.queue[0]]) + c.queue[1..];
        PruneIsLiveSuffix(PopFront(c), gone + [c.queue[0]], now, cap);
      } else {
        LiveFront(c.queue, now);
      }
    }
  }

  // The live suffix decides membership exactly as the whole history does.
  lemma SuffixDecides(q: seq<Record>, h: seq<Record>, key: Key, now: Time, cap: nat)
    requires OldestFirst(h) && IsLiveSuffix(q, h, now, cap)
    ensures Remembered(h, key, now, cap) <==> Mentions(q, key)
  {
    var k := |h| - |q|;
    forall i | 0 <= i < k && |h| - cap <= i ensures h[i].expiry <= now {
      if i < k - 1 { assert NotAfter(h, i, k - 1); }
    }
    if Mentions(q, key) {
      var i :| 0 <= i < |q| && q[i].key == key;
      assert h[k + i] == q[i];
    }
    if Remembered(h, key, now, cap) {
      var i :| 0 <= i < |h| && |h| - cap <= i && h[i].key == key && h[i].expiry > now;
      assert q[i - k] == h[i];
    }
  }

  lemma OrderlyAppend(h: seq<Record>, x: Record, now: Time, ttl: int, cap: nat)
    requires OrderlyHistory(h, now, ttl, cap)
    requires !Remembered(h, x.key, now, cap) && x.expiry == now + ttl
    ensures OrderlyHistory(h + [x], now, ttl, cap)
  {
    FairAppend(h, x.key, now, ttl, cap);
    AppendKeepsOrder(h, x);
  }

  lemma FairAppend(h: seq<Record>, key: Key, now: Time, ttl: int, cap: nat)
    requires FairHistory(h, ttl, cap) && !Remembered(h, key, now, cap)
    ensures FairHistory(h + [Record(key, now + ttl)], ttl, cap)
  {
    var g := h + [Record(key, now + ttl)];
    forall j | 0 <= j < |g| ensures AcceptedFairly(g, j, ttl, cap) {
      if j == |h| {
        assert g[..j] == h;
      } else {
        assert g[..j] == h[..j];
        assert AcceptedFairly(h, j, ttl, cap);
      }
    }
  }

  lemma PushIsLiveSuffix(p: Cache, h: seq<Record>, x: Record, now: Time, cap: nat)
    requires Coherent(Push(p, x)) && OneRecordPerKey(Push(p, x))
    requires IsLiveSuffix(p.queue, h, now, cap) && OldestFirst(h + [x])
    ensures OneRecordPerKey(Prune(Push(p, x), now, cap))
    ensures IsLiveSuffix(Prune(Push(p, x), now, cap).queue, h + [x], now, cap)
  {
    PushKeepsSuffix(p.queue, h, x);
    var gone := h[..|h| - |p.queue|];
    assert gone + Push(p, x).queue == h + [x];
    PruneIsLiveSuffix(Push(p, x), gone, now, cap);
  }

  lemma PushKeepsSuffix(q: seq<Record>, h: seq<Record>, x: Record)
    requires IsSuffix(q, h) && OldestFirst(h + [x])
    ensures IsSuffix(q + [x], h + [x]) && OldestFirst(q + [x])
  {
    SuffixKeepsOrder(h + [x], |h| - |q|);
  }

  lemma PushKeepsOneRecord(p: Cache, x: Record)
    requires Coherent(p) && OneRecordPerKey(p) && x.key !in p.entries
    ensures Coherent(Push(p, x)) && OneRecordPerKey(Push(p, x))
  {
    PushKeepsCoherent(p, x);
    HasEntryIffQueued(p, x.key);
    AppendKeepsOrder(p.queue, x);
  }

  lemma HasEntryIffQueued(c: Cache, key: Key)
    requires Coherent(c)
    ensures key in c.entries <==> Mentions(c.queue, key)
    ensures key in c.entries ==> exists i :: 0 <= i < |c.queue| && c.queue[i].expiry == c.entries[key]
  {
    if key in c.entries { assert Queued(c, key); }
    if Mentions(c.queue, key) {
      var i :| 0 <= i < |c.queue| && c.queue[i].key == key;
      assert Backed(c, i);
    }
  }

  lemma AcceptIsExact(p: Cache, h: seq<Record>, x: Record, now: Time, ttl: int, cap: nat)
    requires Coherent(p) && 0 < cap && 0 < ttl
    requires Exact(p, h, now, ttl, cap) && x.expiry == now + ttl
    requires x.key !in p.entries && !Remembered(h, x.key, now, cap)
    ensures Exact(Prune(Push(p, x), now, cap), h + [x], now, ttl, cap)
  {
    OrderlyAppend(h, x, now, ttl, cap);
    PushKeepsOneRecord(p, x);
    PushIsLiveSuffix(p, h, x, now, cap);
  }

  // Pruning at a newer reading stays exact, and then having an entry means to be remembered.
  lemma PruneIsExact(c: Cache, h: seq<Record>, last: Time, now: Time, ttl: int, cap: nat)
    requires Coherent(c) && Exact(c, h, last, ttl, cap) && last <= now
    ensures Coherent(Prune(c, now, cap)) && Exact(Prune(c, now, cap), h, now, ttl, cap)
  {
    SuffixKeepsOrder(h, |h| - |c.queue|);
    var gone := h[..|h| - |c.queue|];
    assert gone + c.queue == h;
    PruneIsLiveSuffix(c, gone, now, cap);
    PruneAlways(c, now, cap);
  }

  lemma EntryMeansRemembered(p: Cache, h: seq<Record>, key: Key, now: Time, ttl: int, cap: nat)
    requires Coherent(p) && Exact(p, h, now, ttl, cap)
    ensures key in p.entries <==> Remembered(h, key, now, cap)
    ensures key in p.entries ==> p.entries[key] > now
  {
    SuffixDecides(p.queue, h, key, now, cap);
    HasEntryIffQueued(p, key);
  }

  // In order, the bounded filter is the unbounded one: it refuses exactly the keys that
  // are among the last `cap` accepted and still inside their time to live.
  lemma RegisterIsExact(c: Cache, h: seq<Record>, last: Time, key: Key, now: Time, ttl: int, cap: nat)
    requires Coherent(c) && 0 < cap && 0 < ttl
    requires Exact(c, h, last, ttl, cap) && last <= now
    ensures Register(c, key, now, ttl, cap).1 <==> !Remembered(h, key, now, cap)
    ensures Exact(Register(c, key, now, ttl, cap).0, Accepted(c, h, key, now, ttl, cap), now, ttl, cap)
  {
    var p := Prune(c, now, cap);
    PruneIsExact(c, h, last, now, ttl, cap);
    EntryMeansRemembered(p, h, key, now, ttl, cap);
    if key !in p.entries {
      AcceptIsExact(p, h, Record(key, now + ttl), now, ttl, cap);
    }
  }

  // The history after a call.
  function Accepted(c: Cache, h: seq<Record>, key: Key, now: Time, ttl: int, cap: nat): seq<Record> {
    if Register(c, key, now, ttl, cap).1 then h + [Record(key, now + ttl)] else h
  }

  // What holds in every reachable state, given the accepted history and all readings.
  ghost predicate Knows(c: Cache, h: seq<Record>, readings: seq<Time>, ttl: int, cap: nat) {
    && Coherent(c) && |c.entries| <= cap
    && (if readings == [] then c.queue == [] && h == []
        else Ordered(readings) ==> Exact(c, h, readings[|readings| - 1], ttl, cap))
  }

  lemma RegisterKnows(c: Cache, h: seq<Record>, readings: seq<Time>, key: Key, now: Time, ttl: int, cap: nat)
    requires Knows(c, h, readings, ttl, cap) && 0 < cap && 0 < ttl
    ensures Knows(Register(c, key, now, ttl, cap).0, Accepted(c, h, key, now, ttl, cap), readings + [now], ttl, cap)
    ensures Ordered(readings + [now]) ==> (Register(c, key, now, ttl, cap).1 <==> !Remembered(h, key, now, cap))
    ensures Register(c, key, now, ttl, cap).1 <==> !(key in c.entries && c.entries[key] > now)
  {
    RegisterAlways(c, key, now, ttl, cap);
    var rs := readings + [now];
    if Ordered(rs) {
      OrderedAppend(readings, now);
      var last := if readings == [] then now else readings[|readings| - 1];
      if readings == [] { NothingKnown(c, now, ttl, cap); }
      RegisterIsExact(c, h, last, key, now, ttl, cap);
    }
  }

  lemma NothingKnown(c: Cache, now: Time, ttl: int, cap: nat)
    requires Coherent(c) && c.queue == []
    ensures Exact(c, [], now, ttl, cap)
  {
    assert forall k :: k in c.entries ==> Queued(c, k);
    assert c.entries.Keys == {};
  }

  // In a fair history a key comes back only after its time to live, or after at least
  // `cap` other updates were accepted in between.
  lemma RepeatsAreFarApart(h: seq<Record>, ttl: int, cap: nat, i: nat, j: nat)
    requires FairHistory(h, ttl, cap)
    requires i < j < |h| && h[i].key == h[j].key
    ensures h[j].expiry >= h[i].expiry + ttl || j - i - 1 >= cap
  {
    assert AcceptedFairly(h, j, ttl, cap);
    assert h[..j][i] == h[i];
  }

  class UpdateDedup {
    const ttl: int
    const maxEntries: nat
    var entries: map<Key, Time>
    var queue: seq<Record>
    var dropped: nat
    var accepted: nat
    // Since construction or the last cleanup: all accepted records and all clock readings.
    ghost var history: seq<Record>
    ghost var readings: seq<Time>

    ghost predicate Valid()
      reads this
    {
      ttl > 0 && maxEntries > 0 && Knows(Cache(entries, queue), history, readings, ttl, maxEntries)
    }

    constructor (ttl: int, maxEntries: nat)
      requires ttl > 0 && maxEntries > 0
      ensures Valid() && this.ttl == ttl && this.maxEntries == maxEntries
      ensures entries == map[] && queue == [] && dropped == accepted == 0
      ensures history == [] && readings == []
    {
      this.ttl, this.maxEntries := ttl, maxEntries;
      entries, queue := map[], [];
      dropped, accepted := 0, 0;
      history, readings := [], [];
    }

    method PruneLocked(now: Time)
      modifies this`entries, this`queue
      ensures Cache(entries, queue) == Prune(old(Cache(entries, queue)), now, maxEntries)
    {
      while queue != []
        invariant Prune(Cache(entries, queue), now, maxEntries) == Prune(old(Cache(entries, queue)), now, maxEntries)
        decreases |queue|
      {
        var front := queue[0];
        var stale := front.key !in entries || entries[front.key] != front.expiry;
        var expired := !stale && entries[front.key] <= now;
        var overCapacity := |entries| > maxEntries;
        if !(stale || expired || overCapacity) { break; }

        queue := queue[1..];
        if expired || (overCapacity && !stale) {
          entries := entries - {front.key};
        }
      }
    }

    method CheckAndRegister(key: Key, now: Time) returns (ok: bool)
      modifies this`entries, this`queue, this`dropped, this`accepted
      ensures (Cache(entries, queue), ok) == Register(old(Cache(entries, queue)), key, now, ttl, maxEntries)
      ensures accepted == old(accepted) + (if ok then 1 else 0)
      ensures dropped == old(dropped) + (if ok then 0 else 1)
    {
      ghost var c := Cache(entries, queue);
      PruneLocked(now);
      ghost var p := Cache(entries, queue);
      if key in entries && entries[key] > now {
        dropped := dropped + 1;
        return false;
      }
      entries := entries[key := now + ttl];
      queue := queue + [Record(key, now + ttl)];
      accepted := accepted + 1;
      assert Cache(entries, queue) == Push(p, Record(key, now + ttl));
      PruneLocked(now);
      assert p == Prune(c, now, maxEntries);
      return true;
    }

    // An update without a key passes; any other is cancelled exactly when it is a
    // duplicate.  The reading `now` may be older than that of an earlier call.
    method PreProcess(update: Option<Key>, now: Time) returns (cancel: bool)
      requires Valid()
      modifies this
      ensures Valid()
      ensures update.None? ==> !cancel && unchanged(this)
      ensures update.Some? ==>
                && (cancel <==> update.value in old(entries) && old(entries[update.value]) > now)
                && (Ordered(readings) ==> (cancel <==> Remembered(old(history), update.value, now, maxEntries)))
                && history == (if cancel then old(history) else old(history) + [Record(update.value, now + ttl)])
                && readings == old(readings) + [now]
                && accepted + dropped == old(accepted) + old(dropped) + 1
                && accepted - old(accepted) == |history| - |old(history)|
      ensures update.Some? ==> Keeps(old(entries), entries, update.value, !cancel, now, ttl, maxEntries)
      // And in order: the last of the accepted records, as many as there is room for and are
      // not over.
      ensures update.Some? && Ordered(readings) ==>
                && |queue| <= |history| && queue == history[|history| - |queue|..] && |queue| <= maxEntries
                && (forall i :: 0 <= i < |queue| ==> queue[i].expiry > now)
                && (|queue| < |history| ==>
                      |queue| == maxEntries || history[|history| - |queue| - 1].expiry <= now)
    {
      match update
      case None => cancel := false;
      case Some(key) =>
        RegisterKnows(Cache(entries, queue), history, readings, key, now, ttl, maxEntries);
        RegisterKeeps(Cache(entries, queue), key, now, ttl, maxEntries);
        history := Accepted(Cache(entries, queue), history, key, now, ttl, maxEntries);
        readings := readings + [now];
        var ok := CheckAndRegister(key, now);
        cancel := !ok;
    }

    // In every reachable state, if the clock never ran backwards: between two acceptances
    // of one key lies its whole time to live, or at least `maxEntries` other updates.
    lemma RepeatsAreRare(i: nat, j: nat)
      requires Valid() && Ordered(readings)
      requires i < j < |history| && history[i].key == history[j].key
      ensures history[j].expiry - history[i].expiry >= ttl || j - i - 1 >= maxEntries
    {
      RepeatsAreFarApart(history, ttl, maxEntries, i, j);
    }

    method Cleanup()
      requires Valid()
      modifies this`entries, this`queue, this`history, this`readings
      ensures Valid()
      ensures entries == map[] && queue == [] && history == [] && readings == []
    {
      entries, queue := map[], [];
      history, readings := [], [];
    }
  }
}
