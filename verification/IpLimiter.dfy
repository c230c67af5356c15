// The webhook's limiter per IP address: a window of request times, temporary bans, and
// a bound on the number of tracked addresses enforced by dropping the least recently
// seen one from all three maps.
module IpLimiter {
  import opened Common
  import opened SlidingWindow

  datatype Ip = Ip(text: string)

  const CLEANUP_INTERVAL := 60

  // The three maps, and the times of the requests admitted since an address was last
  // dropped.
  datatype Maps = Maps(requests: map<Ip, seq<Time>>, banned: map<Ip, Time>, lastSeen: map<Ip, Time>,
                       admitted: map<Ip, seq<Time>>)

  // What an instance is configured with; requests beyond either bound are turned away.
  datatype Config = Config(limit: int, period: int, banThreshold: int, maxTracked: nat, banTtl: int)

  function Cap(c: Config): nat {
    Max(0, Min(c.limit, c.banThreshold))
  }

  function QueueOf(m: Maps, ip: Ip): seq<Time> {
    Lookup(m.requests, ip, [])
  }

  function AdmittedOf(m: Maps, ip: Ip): seq<Time> {
    Lookup(m.admitted, ip, [])
  }

  // The queue carries what was admitted.  It is kept empty only where nothing ever is.
  ghost predicate Carries(m: Maps, ip: Ip, readings: seq<Time>, c: Config) {
    && Windowed(QueueOf(m, ip), AdmittedOf(m, ip), readings, Cap(c), c.period)
    && (ip in m.requests && m.requests[ip] == [] ==> Cap(c) == 0)
    && (Cap(c) == 0 ==> AdmittedOf(m, ip) == [])
  }

  // If anything can be admitted at all, a known address is tracked.
  predicate Tracked(m: Maps, ip: Ip, c: Config) {
    0 < Cap(c) && (ip in m.requests || ip in m.banned) ==> ip in m.lastSeen
  }

  ghost predicate SoundFor(m: Maps, ip: Ip, readings: seq<Time>, c: Config) {
    Carries(m, ip, readings, c) && Tracked(m, ip, c)
  }

  // Unfolded only where `SoundFor` itself is mentioned.
  ghost predicate Sound(m: Maps, readings: seq<Time>, c: Config) {
    forall ip {:trigger SoundFor(m, ip, readings, c)} :: SoundFor(m, ip, readings, c)
  }

  function Without(m: Maps, gone: set<Ip>): Maps {
    Maps(m.requests - gone, m.banned - gone, m.lastSeen - gone, m.admitted - gone)
  }

  lemma WithoutTwice(m: Maps, a: set<Ip>, b: set<Ip>)
    ensures Without(Without(m, a), b) == Without(m, a + b)
  {
  }

  lemma JoinsNothing(a: set<Ip>, b: set<Ip>)
    ensures (a == {} ==> a + b == b) && (b == {} ==> a + b == a)
  {
  }

  lemma WithoutKeeps(m: Maps, gone: set<Ip>, readings: seq<Time>, c: Config)
    requires Sound(m, readings, c)
    ensures Sound(Without(m, gone), readings, c)
  {
    forall ip ensures SoundFor(Without(m, gone), ip, readings, c) { assert SoundFor(m, ip, readings, c); }
  }

  // The maps once the bans that have run out are lifted.
  function Lifted(m: Maps, now: Time, c: Config): Maps {
    m.(banned := map ip | ip in m.banned && now - m.banned[ip] <= c.banTtl :: m.banned[ip])
  }

  // The addresses with an empty queue that are not banned.
  function Idle(m: Maps): set<Ip> {
    set ip | ip in m.requests && m.requests[ip] == [] && ip !in m.banned
  }

  lemma FewerBansKeep(m: Maps, banned: map<Ip, Time>, readings: seq<Time>, c: Config)
    requires Sound(m, readings, c) && banned.Keys <= m.banned.Keys
    ensures Sound(m.(banned := banned), readings, c)
  {
    forall ip ensures SoundFor(m.(banned := banned), ip, readings, c) { assert SoundFor(m, ip, readings, c); }
  }

  lemma IdleOnlyWithoutCap(m: Maps, readings: seq<Time>, c: Config)
    requires Sound(m, readings, c) && 0 < Cap(c)
    ensures Idle(m) == {}
  {
    forall ip ensures ip !in Idle(m) { assert SoundFor(m, ip, readings, c); }
  }

  function Seen(m: Maps, ip: Ip, now: Time): Maps {
    m.(lastSeen := m.lastSeen[ip := now])
  }

  lemma SeenKeeps(m: Maps, ip: Ip, now: Time, readings: seq<Time>, c: Config)
    requires Sound(m, readings, c)
    ensures Sound(Seen(m, ip, now), readings, c)
  {
    forall i ensures SoundFor(Seen(m, ip, now), i, readings, c) { assert SoundFor(m, i, readings, c); }
  }

  lemma SeenSize(m: Maps, ip: Ip, now: Time)
    ensures |Seen(m, ip, now).lastSeen| == |m.lastSeen| + if ip in m.lastSeen then 0 else 1
  {
    assert Seen(m, ip, now).lastSeen.Keys == m.lastSeen.Keys + {ip};
  }

  // A request, counted before it is noted.
  function Requested(m: Maps, ip: Ip, c: Config, now: Time): Maps {
    var q := Trim(QueueOf(m, ip), now - c.period);
    if |q| < Cap(c) then
      m.(requests := m.requests[ip := q + [now]], admitted := m.admitted[ip := AdmittedOf(m, ip) + [now]])
    else
      m.(requests := m.requests[ip := q])
  }

  function CountOf(m: Maps, ip: Ip, c: Config, now: Time): nat {
    |Trim(QueueOf(m, ip), now - c.period)|
  }

  lemma RequestKeepsOwn(m: Maps, ip: Ip, readings: seq<Time>, c: Config, now: Time)
    requires SoundFor(m, ip, readings, c) && (0 < Cap(c) ==> ip in m.lastSeen)
    ensures SoundFor(Requested(m, ip, c, now), ip, readings + [now], c)
    ensures CountOf(m, ip, c, now) <= Cap(c)
    ensures Ordered(readings + [now]) ==>
              CountOf(m, ip, c, now) == CountIn(AdmittedOf(m, ip), now - c.period, now)
  {
    WindowStep(QueueOf(m, ip), AdmittedOf(m, ip), readings, Cap(c), c.period, now);
  }

  lemma RequestKeepsOther(m: Maps, ip: Ip, other: Ip, readings: seq<Time>, c: Config, now: Time)
    requires SoundFor(m, other, readings, c) && other != ip
    ensures SoundFor(Requested(m, ip, c, now), other, readings + [now], c)
  {
    ReadingPasses(QueueOf(m, other), AdmittedOf(m, other), readings, Cap(c), c.period, now);
    assert QueueOf(Requested(m, ip, c, now), other) == QueueOf(m, other);
    assert AdmittedOf(Requested(m, ip, c, now), other) == AdmittedOf(m, other);
  }

  // The trimmed queue is as long as the window's count of admitted requests.
  lemma RequestKeeps(m: Maps, ip: Ip, readings: seq<Time>, c: Config, now: Time)
    requires Sound(m, readings, c) && (0 < Cap(c) ==> ip in m.lastSeen)
    ensures Sound(Requested(m, ip, c, now), readings + [now], c)
    ensures CountOf(m, ip, c, now) <= Cap(c)
    ensures Ordered(readings + [now]) ==>
              CountOf(m, ip, c, now) == CountIn(AdmittedOf(m, ip), now - c.period, now)
  {
    assert SoundFor(m, ip, readings, c);
    RequestKeepsOwn(m, ip, readings, c, now);
    forall i | i != ip ensures SoundFor(Requested(m, ip, c, now), i, readings + [now], c) {
      assert SoundFor(m, i, readings, c);
      RequestKeepsOther(m, ip, i, readings, c, now);
    }
  }

  lemma BanKeeps(m: Maps, ip: Ip, now: Time, readings: seq<Time>, c: Config)
    requires Sound(m, readings, c) && (0 < Cap(c) ==> ip in m.lastSeen)
    ensures Sound(m.(banned := m.banned[ip := now]), readings, c)
  {
    var m' := m.(banned := m.banned[ip := now]);
    forall i ensures SoundFor(m', i, readings, c) { assert SoundFor(m, i, readings, c); }
  }

  // Nothing that is gone was seen after something that was kept.
  ghost predicate LeastRecent(gone: set<Ip>, before: map<Ip, Time>) {
    forall g, k {:trigger SeenNoLater(before, g, k)} :: g in gone && k !in gone ==> SeenNoLater(before, g, k)
  }

  ghost predicate SeenNoLater(before: map<Ip, Time>, ip: Ip, ip': Ip) {
    ip in before && ip' in before ==> before[ip] <= before[ip']
  }

  lemma LeastRecentJoins(gone: set<Ip>, more: set<Ip>, before: map<Ip, Time>)
    requires LeastRecent(gone, before) && LeastRecent(more, before - gone)
    ensures LeastRecent(gone + more, before)
  {
    forall g, k | g in gone + more && k !in gone + more ensures SeenNoLater(before, g, k) {
      assert g in gone ==> SeenNoLater(before, g, k);
      assert g in more ==> SeenNoLater(before - gone, g, k);
    }
  }

  lemma FewerAfterRemoval(before: map<Ip, Time>, gone: set<Ip>)
    ensures |before - gone| <= |before|
  {
    assert before.Keys == (before - gone).Keys + (before.Keys * gone);
  }

  lemma WithoutNothing(m: Maps)
    ensures Without(m, {}) == m
  {
  }

  // The clock readings of one call, in the order in which they are taken.
  datatype Clock = Clock(current: Time, sweep: Time, again: Time, againSweep: Time, check: Time, ban: Time)

  // What a sweep lifts, and what it then drops as idle, if there is one.
  function Swept(m: Maps, due: bool, now: Time, c: Config): Maps {
    if due then Lifted(m, now, c) else m
  }

  function IdleThen(m: Maps, due: bool, now: Time, c: Config): set<Ip> {
    if due then Idle(Lifted(m, now, c)) else {}
  }

  // The address is known already, or fits in.
  predicate HasRoom(lastSeen: map<Ip, Time>, ip: Ip, c: Config) {
    |lastSeen| < c.maxTracked || (ip in lastSeen && |lastSeen| == c.maxTracked)
  }

  // A call up to its second sweep: the first one lifts bans, addresses are dropped by it
  // (`gone`) and to make room, and the caller is seen.
  function Entered(m: Maps, due: bool, ip: Ip, clock: Clock, gone: set<Ip>, room: set<Ip>, c: Config): Maps {
    Seen(Without(Without(Swept(m, due, clock.sweep, c), gone), room), ip, clock.current)
  }

  // The second sweep, which drops some more.
  function Asked(m: Maps, due: bool, clock: Clock, later: set<Ip>, c: Config): Maps {
    Without(Swept(m, due, clock.againSweep, c), later)
  }

  predicate Runs(m: Maps, ip: Ip, clock: Clock, c: Config) {
    ip in m.banned && clock.check - m.banned[ip] <= c.banTtl
  }

  function Unbanned(m: Maps, ip: Ip): Maps {
    m.(banned := m.banned - {ip})
  }

  lemma UnbannedAlready(m: Maps, ip: Ip)
    requires ip !in m.banned
    ensures Unbanned(m, ip) == m
  {
  }

  // The decision for an address without a running ban.  A request beyond the window bans
  // the address exactly when the ban threshold can be reached at all.
  function Decided(m: Maps, ip: Ip, clock: Clock, c: Config): Maps {
    var r := Requested(m, ip, c, clock.current);
    if CountOf(m, ip, c, clock.current) >= Cap(c) && c.banThreshold <= Max(0, c.limit)
    then r.(banned := r.banned[ip := clock.ban]) else r
  }

  function Answered(m: Maps, ip: Ip, clock: Clock, c: Config): Maps {
    if Runs(m, ip, clock, c) then m else Decided(Unbanned(m, ip), ip, clock, c)
  }

  // How a call goes: which of its sweeps are due, and who is dropped by the first one, to
  // make room, and by the second one.
  datatype Course = Course(due: bool, dueAgain: bool, gone: set<Ip>, room: set<Ip>, later: set<Ip>)

  // Before the decision.
  function Met(m: Maps, ip: Ip, clock: Clock, how: Course, c: Config): Maps {
    Asked(Entered(m, how.due, ip, clock, how.gone, how.room, c), how.dueAgain, clock, how.later, c)
  }

  // What two maps say about one address.
  function At<V>(m: map<Ip, V>, ip: Ip): Option<V> {
    if ip in m then Some(m[ip]) else None
  }

  // What a call means for somebody else: queue and history are as they were and a ban ends
  // by the sweeps alone, unless the address is dropped.
  ghost predicate Stays(m: Maps, n: Maps, ip: Ip, banOver: bool, dropped: bool) {
    && At(n.requests, ip) == (if dropped then None else At(m.requests, ip))
    && At(n.admitted, ip) == (if dropped then None else At(m.admitted, ip))
    && At(n.banned, ip) == (if dropped || banOver then None else At(m.banned, ip))
    && At(n.lastSeen, ip) == (if dropped then None else At(m.lastSeen, ip))
  }

  // A sweep that is due finds the ban over.
  predicate BanOver(m: Maps, ip: Ip, due: bool, now: Time, c: Config) {
    due && ip in m.banned && now - m.banned[ip] > c.banTtl
  }

  lemma EnterStays(m: Maps, due: bool, ip: Ip, clock: Clock, gone: set<Ip>, room: set<Ip>, c: Config, other: Ip)
    requires other != ip
    ensures Stays(m, Entered(m, due, ip, clock, gone, room, c), other, BanOver(m, other, due, clock.sweep, c),
                  other in gone + room)
  {
  }

  lemma AskStays(m: Maps, due: bool, clock: Clock, later: set<Ip>, c: Config, other: Ip)
    ensures Stays(m, Asked(m, due, clock, later, c), other, BanOver(m, other, due, clock.againSweep, c), other in later)
  {
  }

  lemma AnswerStays(m: Maps, ip: Ip, clock: Clock, c: Config, other: Ip)
    requires other != ip
    ensures Stays(m, Answered(m, ip, clock, c), other, false, false)
  {
  }

  // A sweep of the call finds the ban over.
  predicate BanEnds(m: Maps, ip: Ip, clock: Clock, how: Course, c: Config) {
    BanOver(m, ip, how.due, clock.sweep, c) || BanOver(m, ip, how.dueAgain, clock.againSweep, c)
  }

  function Dropped(how: Course): set<Ip> {
    how.gone + how.room + how.later
  }

  predicate NothingButIdle(m: Maps, ip: Ip, clock: Clock, how: Course, c: Config) {
    var entered := Entered(m, how.due, ip, clock, how.gone, {}, c);
    && how.room == {} && how.gone == IdleThen(m, how.due, clock.sweep, c)
    && how.later == IdleThen(entered, how.dueAgain, clock.againSweep, c)
  }

  lemma OthersStay(m: Maps, ip: Ip, clock: Clock, how: Course, c: Config, other: Ip)
    requires other != ip
    ensures Stays(m, Answered(Met(m, ip, clock, how, c), ip, clock, c), other,
                  BanEnds(m, other, clock, how, c), other in Dropped(how))
  {
    EnterStays(m, how.due, ip, clock, how.gone, how.room, c, other);
    AskStays(Entered(m, how.due, ip, clock, how.gone, how.room, c), how.dueAgain, clock, how.later, c, other);
    AnswerStays(Met(m, ip, clock, how, c), ip, clock, c, other);
  }

  // What the caller meets: its ban, unless a sweep found it over or the address was dropped.
  lemma CallerMeets(m: Maps, ip: Ip, clock: Clock, how: Course, c: Config)
    ensures var met := Met(m, ip, clock, how, c);
            && met.lastSeen == (m.lastSeen - how.gone - how.room)[ip := clock.current] - how.later
            && met.admitted == m.admitted - how.gone - how.room - how.later
            && (Runs(met, ip, clock, c) ==> ip in m.banned && clock.check - m.banned[ip] <= c.banTtl)
  {
  }

  // What the decision does to the caller.
  lemma CallerIsDecided(m: Maps, ip: Ip, clock: Clock, c: Config)
    requires !Runs(m, ip, clock, c)
    ensures var n, full := Answered(m, ip, clock, c), CountOf(m, ip, c, clock.current) >= Cap(c);
            && n.lastSeen == m.lastSeen && ip in n.requests
            && (ip in n.banned <==> full && c.banThreshold <= Max(0, c.limit))
            && (ip in n.banned ==> n.banned[ip] == clock.ban)
            && n.admitted == if full then m.admitted else m.admitted[ip := AdmittedOf(m, ip) + [clock.current]]
  {
  }

  lemma RoomStays(before: map<Ip, Time>, gone: set<Ip>, ip: Ip, c: Config)
    requires HasRoom(before, ip, c)
    ensures ip in before - gone || |before - gone| < c.maxTracked
  {
    assert before.Keys == (before - gone).Keys + (before.Keys * gone);
  }

  // With room for the caller: the sweeps take the addresses that have an empty queue and no
  // ban that they do not find over, and nobody else goes.
  ghost predicate OnlyIdle(m: Maps, clock: Clock, how: Course, c: Config) {
    && how.room == {}
    && (forall i :: i in how.gone <==> how.due && i in m.requests && m.requests[i] == []
                                       && (i in m.banned ==> clock.sweep - m.banned[i] > c.banTtl))
    && (forall i :: i in how.later <==>
          how.dueAgain && i in m.requests && i !in how.gone && m.requests[i] == []
          && (i in m.banned ==> (how.due && clock.sweep - m.banned[i] > c.banTtl)
                                || clock.againSweep - m.banned[i] > c.banTtl))
  }

  lemma OnlyIdleGo(m: Maps, ip: Ip, clock: Clock, how: Course, c: Config)
    requires NothingButIdle(m, ip, clock, how, c)
    ensures OnlyIdle(m, clock, how, c)
  {
  }

  // A ban holds if its address stays and no reading that is taken finds it over.
  ghost predicate BanHolds(m: Maps, ip: Ip, clock: Clock, how: Course, c: Config) {
    && ip in m.banned && ip !in how.gone + how.room + how.later
    && (how.due ==> clock.sweep - m.banned[ip] <= c.banTtl)
    && (how.dueAgain ==> clock.againSweep - m.banned[ip] <= c.banTtl)
    && clock.check - m.banned[ip] <= c.banTtl
  }

  lemma BanIsExact(m: Maps, ip: Ip, clock: Clock, how: Course, c: Config)
    ensures Runs(Met(m, ip, clock, how, c), ip, clock, c) <==> BanHolds(m, ip, clock, how, c)
  {
  }

  // Of another address: it is dropped, or only its ban can have ended.
  ghost predicate OtherReads(m: Maps, n: Maps, i: Ip, clock: Clock, how: Course, c: Config) {
    if i in how.gone + how.room + how.later then i !in n.requests && i !in n.banned && i !in n.lastSeen
    else
      && At(n.requests, i) == At(m.requests, i) && At(n.lastSeen, i) == At(m.lastSeen, i)
      && (i in n.banned <==> i in m.banned && !(how.due && clock.sweep - m.banned[i] > c.banTtl)
                                           && !(how.dueAgain && clock.againSweep - m.banned[i] > c.banTtl))
      && (i in n.banned ==> n.banned[i] == m.banned[i])
  }

  lemma StaysReads(m: Maps, n: Maps, i: Ip, clock: Clock, how: Course, c: Config)
    requires Stays(m, n, i, BanEnds(m, i, clock, how, c), i in Dropped(how))
    ensures OtherReads(m, n, i, clock, how, c)
  {
  }

  lemma AllOthersRead(m: Maps, ip: Ip, clock: Clock, how: Course, c: Config)
    ensures var n := Answered(Met(m, ip, clock, how, c), ip, clock, c);
            forall i {:trigger OtherReads(m, n, i, clock, how, c)} :: i != ip ==> OtherReads(m, n, i, clock, how, c)
  {
    var n := Answered(Met(m, ip, clock, how, c), ip, clock, c);
    forall i | i != ip ensures OtherReads(m, n, i, clock, how, c) {
      OthersStay(m, ip, clock, how, c, i);
      StaysReads(m, n, i, clock, how, c);
    }
  }

  lemma CapIsPositive(c: Config)
    ensures 0 < Cap(c) <==> 0 < c.limit && 0 < c.banThreshold
  {
  }

  class IpLimiter {
    const config: Config
    var requests: map<Ip, seq<Time>>
    var banned: map<Ip, Time>
    var lastSeen: map<Ip, Time>
    var lastCleanup: Time
    ghost var admitted: map<Ip, seq<Time>>
    // The readings at which windows were looked at.
    ghost var readings: seq<Time>

    ghost function State(): Maps
      reads this`requests, this`banned, this`lastSeen, this`admitted
    {
      Maps(requests, banned, lastSeen, admitted)
    }

    ghost predicate Coherent()
      reads this`requests, this`banned, this`lastSeen, this`admitted, this`readings
    {
      0 < config.maxTracked && Sound(State(), readings, config)
    }

    ghost predicate Valid()
      reads this`requests, this`banned, this`lastSeen, this`admitted, this`readings
    {
      Coherent() && |lastSeen| <= config.maxTracked
    }

    // The bans of the state file that are still running come back, however many.
    constructor (limit: int, period: int, banThreshold: int, maxTracked: int, banTtl: int, stored: map<Ip, Time>,
                 now: Time)
      ensures Coherent() && config == Config(limit, period, banThreshold, Max(128, maxTracked), banTtl)
      ensures banned == map ip | ip in stored && now - stored[ip] <= banTtl :: stored[ip]
      ensures lastSeen == map ip | ip in banned :: now
      ensures requests == map[] && admitted == map[] && readings == [] && lastCleanup == 0
    {
      config := Config(limit, period, banThreshold, Max(128, maxTracked), banTtl);
      var live := map ip | ip in stored && now - stored[ip] <= banTtl :: stored[ip];
      banned, lastSeen := live, map ip | ip in live :: now;
      requests, lastCleanup := map[], 0;
      admitted, readings := map[], [];
    }

    method Drop(ips: set<Ip>)
      requires Coherent()
      modifies this`requests, this`banned, this`lastSeen, this`admitted
      ensures Coherent() && State() == Without(old(State()), ips)
    {
      WithoutKeeps(State(), ips, readings, config);
      requests, banned, lastSeen, admitted := requests - ips, banned - ips, lastSeen - ips, admitted - ips;
    }

    method FindOldest() returns (oldest: Ip)
      requires lastSeen != map[]
      ensures oldest in lastSeen
      ensures forall ip :: ip in lastSeen ==> lastSeen[oldest] <= lastSeen[ip]
    {
      oldest := AnyOf(lastSeen.Keys);
      var todo := lastSeen.Keys - {oldest};
      while todo != {}
        invariant todo <= lastSeen.Keys && oldest in lastSeen
        invariant forall ip :: ip in lastSeen && ip !in todo ==> lastSeen[oldest] <= lastSeen[ip]
        decreases todo
      {
        var ip := AnyOf(todo);
        if lastSeen[ip] < lastSeen[oldest] { oldest := ip; }
        todo := todo - {ip};
      }
    }

    // Drops an address that was seen least recently.
    method EvictOldest() returns (oldest: Ip)
      requires Coherent() && lastSeen != map[]
      modifies this`requests, this`banned, this`lastSeen, this`admitted
      ensures Coherent() && State() == Without(old(State()), {oldest})
      ensures oldest in old(lastSeen) && LeastRecent({oldest}, old(lastSeen))
      ensures |lastSeen| == |old(lastSeen)| - 1
    {
      oldest := FindOldest();
      Drop({oldest});
      assert lastSeen.Keys == old(lastSeen).Keys - {oldest};
    }

    // Drops the least recently seen addresses beyond the bound, and nothing else.
    method EvictDownTo(bound: nat) returns (ghost gone: set<Ip>)
      requires Coherent()
      modifies this`requests, this`banned, this`lastSeen, this`admitted
      ensures Coherent() && State() == Without(old(State()), gone)
      ensures LeastRecent(gone, old(lastSeen)) && |lastSeen| <= bound
      ensures if |old(lastSeen)| <= bound then gone == {} else |lastSeen| == bound
    {
      gone := {};
      ghost var before := State();
      WithoutNothing(before);
      while |lastSeen| > bound
        invariant Coherent() && State() == Without(before, gone)
        invariant LeastRecent(gone, before.lastSeen)
        invariant if |before.lastSeen| <= bound then gone == {} else |lastSeen| >= bound
        decreases |lastSeen|
      {
        var oldest := EvictOldest();
        LeastRecentJoins(gone, {oldest}, before.lastSeen);
        WithoutTwice(before, gone, {oldest});
        gone := gone + {oldest};
      }
    }

    predicate MustSweep(current: Time)
      reads this`lastCleanup, this`lastSeen
    {
      current - lastCleanup >= CLEANUP_INTERVAL || |lastSeen| > config.maxTracked
    }

    // When the last sweep was, after a chance to sweep.
    function CleanedAt(current: Time): Time
      reads this`lastCleanup, this`lastSeen
    {
      if MustSweep(current) then current else lastCleanup
    }

    // The first two thirds of a sweep: every ban that is over is lifted, idle addresses
    // go.
    method SweepIdle(now: Time) returns (ghost idle: set<Ip>)
      requires Coherent()
      modifies this`requests, this`banned, this`lastSeen, this`admitted
      ensures Coherent() && (0 < Cap(config) ==> idle == {})
      ensures var lifted := Lifted(old(State()), now, config);
              idle == Idle(lifted) && State() == Without(lifted, idle)
    {
      ghost var lifted := Lifted(State(), now, config);
      FewerBansKeep(State(), lifted.banned, readings, config);
      banned := banned - set ip | ip in banned && now - banned[ip] > config.banTtl;
      assert State() == lifted;
      var stale := set ip | ip in requests && requests[ip] == [] && ip !in banned;
      if 0 < Cap(config) { IdleOnlyWithoutCap(lifted, readings, config); }
      idle := stale;
      assert idle == Idle(lifted);
      Drop(stale);
    }

    // At most once a minute, unless too many addresses are tracked: bans that are over
    // are lifted, idle addresses go, and then the least recently seen ones beyond the
    // bound.
    method CleanupState(current: Time, now: Time) returns (ghost left: set<Ip>)
      requires Coherent()
      modifies this`requests, this`banned, this`lastSeen, this`lastCleanup, this`admitted
      ensures Valid()
      ensures lastCleanup == old(CleanedAt(current))
      ensures State() == Without(Swept(old(State()), old(MustSweep(current)), now, config), left)
      ensures |old(lastSeen)| <= config.maxTracked ==>
                left == IdleThen(old(State()), old(MustSweep(current)), now, config)
      ensures 0 < Cap(config) ==> LeastRecent(left, old(lastSeen))
      ensures 0 < Cap(config) ==> if |old(lastSeen)| <= config.maxTracked then left == {}
                                  else |lastSeen| == config.maxTracked
    {
      WithoutNothing(State());
      left := {};
      if MustSweep(current) {
        lastCleanup := current;
        left := Sweep(now);
      }
    }

    method Sweep(now: Time) returns (ghost left: set<Ip>)
      requires Coherent()
      modifies this`requests, this`banned, this`lastSeen, this`admitted
      ensures Valid() && State() == Without(Lifted(old(State()), now, config), left)
      ensures |old(lastSeen)| <= config.maxTracked ==> left == Idle(Lifted(old(State()), now, config))
      ensures 0 < Cap(config) ==> LeastRecent(left, old(lastSeen))
      ensures 0 < Cap(config) ==> if |old(lastSeen)| <= config.maxTracked then left == {}
                                  else |lastSeen| == config.maxTracked
    {
      ghost var lifted := Lifted(State(), now, config);
      ghost var idle := SweepIdle(now);
      FewerAfterRemoval(lifted.lastSeen, idle);
      WithoutNothing(lifted);
      ghost var gone := EvictDownTo(config.maxTracked);
      WithoutTwice(lifted, idle, gone);
      JoinsNothing(idle, gone);
      left := idle + gone;
    }

    // A ban holds until its time to live is over.  The call sweeps as well.
    method IsBanned(ip: Ip, clock: Clock) returns (ban: bool, ghost later: set<Ip>)
      requires Coherent()
      modifies this`requests, this`banned, this`lastSeen, this`lastCleanup, this`admitted
      ensures Valid()
      ensures lastCleanup == old(CleanedAt(clock.again))
      ensures |old(lastSeen)| <= config.maxTracked ==>
                later == IdleThen(old(State()), old(MustSweep(clock.again)), clock.againSweep, config)
      ensures 0 < Cap(config) && |old(lastSeen)| <= config.maxTracked ==> later == {}
      ensures var m := Asked(old(State()), old(MustSweep(clock.again)), clock, later, config);
              && (ban <==> Runs(m, ip, clock, config))
              && State() == if ban then m else Unbanned(m, ip)
    {
      later := CleanupState(clock.again, clock.againSweep);
      ghost var m := State();
      if ip !in banned {
        UnbannedAlready(m, ip);
        return false, later;
      }
      if clock.check - banned[ip] > config.banTtl {
        FewerBansKeep(State(), banned - {ip}, readings, config);
        banned := banned - {ip};
        return false, later;
      }
      return true, later;
    }

    // Makes room for an address that is not known yet.
    method MakeRoom(ip: Ip) returns (ghost gone: set<Ip>)
      requires Valid()
      modifies this`requests, this`banned, this`lastSeen, this`admitted
      ensures Valid() && State() == Without(old(State()), gone)
      ensures LeastRecent(gone, old(lastSeen))
      ensures ip in old(requests) || ip in old(lastSeen) || |old(lastSeen)| < config.maxTracked ==> gone == {}
      ensures 0 < Cap(config) ==> ip in lastSeen || |lastSeen| < config.maxTracked
    {
      gone := {};
      WithoutNothing(State());
      assert SoundFor(State(), ip, readings, config);
      if ip !in requests && ip !in lastSeen && |lastSeen| >= config.maxTracked {
        var oldest := EvictOldest();
        gone := {oldest};
      }
    }

    // Sweep and make room.
    method Prepare(ip: Ip, current: Time, sweep: Time) returns (ghost gone: set<Ip>, ghost room: set<Ip>)
      requires Coherent()
      modifies this`requests, this`banned, this`lastSeen, this`lastCleanup, this`admitted
      ensures Valid()
      ensures 0 < Cap(config) ==> ip in lastSeen || |lastSeen| < config.maxTracked
      ensures lastCleanup == old(CleanedAt(current))
      ensures State() == Without(Without(Swept(old(State()), old(MustSweep(current)), sweep, config), gone), room)
      ensures 0 < Cap(config) ==> LeastRecent(gone, old(lastSeen)) && LeastRecent(room, old(lastSeen) - gone)
      ensures HasRoom(old(lastSeen), ip, config) ==>
                && room == {} && gone == IdleThen(old(State()), old(MustSweep(current)), sweep, config)
                && (ip in lastSeen || |lastSeen| < config.maxTracked)
      ensures 0 < Cap(config) && HasRoom(old(lastSeen), ip, config) ==> gone == {}
    {
      ghost var before := lastSeen;
      gone := CleanupState(current, sweep);
      if HasRoom(before, ip, config) { RoomStays(before, gone, ip, config); }
      WithoutNothing(State());
      room := MakeRoom(ip);
    }

    // The first half of a call: sweep, make room, note when the address was seen.
    method Enter(ip: Ip, clock: Clock) returns (ghost gone: set<Ip>, ghost room: set<Ip>)
      requires Coherent()
      modifies this`requests, this`banned, this`lastSeen, this`lastCleanup, this`admitted
      ensures Coherent() && ip in lastSeen
      ensures 0 < Cap(config) || HasRoom(old(lastSeen), ip, config) ==> |lastSeen| <= config.maxTracked
      ensures lastCleanup == old(CleanedAt(clock.current))
      ensures State() == Entered(old(State()), old(MustSweep(clock.current)), ip, clock, gone, room, config)
      ensures 0 < Cap(config) ==> LeastRecent(gone, old(lastSeen)) && LeastRecent(room, old(lastSeen) - gone)
      ensures HasRoom(old(lastSeen), ip, config) ==>
                room == {} && gone == IdleThen(old(State()), old(MustSweep(clock.current)), clock.sweep, config)
      ensures 0 < Cap(config) && HasRoom(old(lastSeen), ip, config) ==> gone == {}
    {
      gone, room := Prepare(ip, clock.current, clock.sweep);
      SeenKeeps(State(), ip, clock.current, readings, config);
      SeenSize(State(), ip, clock.current);
      lastSeen := lastSeen[ip := clock.current];
    }

    method TrimTimes(ip: Ip, now: Time)
      modifies this`requests
      ensures requests == old(requests)[ip := Trim(Lookup(old(requests), ip, []), now - config.period)]
    {
      if ip !in requests { requests := requests[ip := []]; }
      var times := requests[ip];
      while times != [] && times[0] < now - config.period
        invariant Trim(times, now - config.period) == Trim(requests[ip], now - config.period)
      {
        times := times[1..];
      }
      requests := requests[ip := times];
    }

    // The count is taken before the request itself, which is noted below both bounds.
    method CountAndNote(ip: Ip, now: Time) returns (count: nat)
      modifies this`requests, this`admitted
      ensures count == CountOf(old(State()), ip, config, now)
      ensures requests == Requested(old(State()), ip, config, now).requests
      ensures admitted == Requested(old(State()), ip, config, now).admitted
    {
      TrimTimes(ip, now);
      count := |requests[ip]|;
      if count < config.banThreshold && count < config.limit {
        requests := requests[ip := requests[ip] + [now]];
        admitted := admitted[ip := Lookup(admitted, ip, []) + [now]];
      }
    }

    // The window of one address.
    method Track(ip: Ip, now: Time) returns (count: nat)
      requires Valid() && (0 < Cap(config) ==> ip in lastSeen)
      modifies this`requests, this`admitted, this`readings
      ensures Valid() && readings == old(readings) + [now]
      ensures State() == Requested(old(State()), ip, config, now) && count == CountOf(old(State()), ip, config, now)
      ensures count <= Cap(config)
      ensures Ordered(readings) ==> count == CountIn(Lookup(old(admitted), ip, []), now - config.period, now)
    {
      RequestKeeps(State(), ip, readings, config, now);
      readings := readings + [now];
      count := CountAndNote(ip, now);
    }

    // The closed window that ends now holds as many admitted requests as one of the bounds.
    predicate Full(admitted: seq<Time>, now: Time) {
      var count := CountIn(admitted, now - config.period, now);
      count >= config.limit || count >= config.banThreshold
    }

    // An address without a running ban: beyond its window, or admitted.  A request beyond
    // the window bans the address exactly when the ban threshold can be reached at all.
    method Decide(ip: Ip, clock: Clock) returns (limited: bool)
      requires Valid() && (0 < Cap(config) ==> ip in lastSeen)
      modifies this`requests, this`admitted, this`readings, this`banned
      ensures Valid() && readings == old(readings) + [clock.current]
      ensures limited <==> CountOf(old(State()), ip, config, clock.current) >= Cap(config)
      ensures Ordered(readings) ==> (limited <==> Full(Lookup(old(admitted), ip, []), clock.current))
      ensures State() == Decided(old(State()), ip, clock, config)
    {
      var count := Track(ip, clock.current);
      if count >= config.banThreshold {
        BanKeeps(State(), ip, clock.ban, readings, config);
        banned := banned[ip := clock.ban];
        return true;
      }
      return count >= config.limit;
    }

    // The second half: banned, or decided by the window.
    method Answer(ip: Ip, clock: Clock) returns (limited: bool, ghost ban: bool, ghost later: set<Ip>)
      requires Coherent() && (0 < Cap(config) ==> |lastSeen| <= config.maxTracked && ip in lastSeen)
      modifies this
      ensures Valid() && lastCleanup == old(CleanedAt(clock.again))
      ensures var m := Asked(old(State()), old(MustSweep(clock.again)), clock, later, config);
              && State() == Answered(m, ip, clock, config) && (ban <==> Runs(m, ip, clock, config))
              && (limited <==> ban || CountOf(m, ip, config, clock.current) >= Cap(config))
              && (Ordered(readings) ==> (limited <==> ban || Full(AdmittedOf(m, ip), clock.current)))
      ensures |old(lastSeen)| <= config.maxTracked ==>
                later == IdleThen(old(State()), old(MustSweep(clock.again)), clock.againSweep, config)
      ensures 0 < Cap(config) ==> later == {}
      ensures readings == if ban then old(readings) else old(readings) + [clock.current]
    {
      var isBanned;
      isBanned, later := IsBanned(ip, clock);
      ban := isBanned;
      if isBanned {
        limited := true;
      } else {
        limited := Decide(ip, clock);
      }
    }

    // Both halves of a call.
    method Call(ip: Ip, clock: Clock) returns (limited: bool, ghost ban: bool, ghost how: Course)
      requires Coherent()
      modifies this
      ensures Valid() && State() == Answered(Met(old(State()), ip, clock, how, config), ip, clock, config)
      ensures var m := Met(old(State()), ip, clock, how, config);
              && (ban <==> Runs(m, ip, clock, config))
              && (limited <==> ban || CountOf(m, ip, config, clock.current) >= Cap(config))
              && (Ordered(readings) ==> (limited <==> ban || Full(AdmittedOf(m, ip), clock.current)))
      ensures 0 < Cap(config) ==>
                && LeastRecent(how.gone, old(lastSeen)) && LeastRecent(how.room, old(lastSeen) - how.gone)
                && how.later == {}
      ensures 0 < Cap(config) && HasRoom(old(lastSeen), ip, config) ==> how.gone == how.room == {}
      ensures how.due == old(MustSweep(clock.current))
      ensures var first := old(CleanedAt(clock.current));
              && lastCleanup == (if how.dueAgain then clock.again else first)
              && (HasRoom(old(lastSeen), ip, config) ==> how.dueAgain == (clock.again - first >= CLEANUP_INTERVAL))
      ensures HasRoom(old(lastSeen), ip, config) ==> NothingButIdle(old(State()), ip, clock, how, config)
      ensures readings == if ban then old(readings) else old(readings) + [clock.current]
    {
      ghost var due := MustSweep(clock.current);
      ghost var gone, room := Enter(ip, clock);
      ghost var dueAgain := MustSweep(clock.again);
      ghost var later;
      limited, ban, later := Answer(ip, clock);
      how := Course(due, dueAgain, gone, room, later);
    }

    // A call, as the caller and the others see it.
    method Limit(ip: Ip, clock: Clock) returns (limited: bool, ghost ban: bool, ghost how: Course)
      requires Coherent()
      modifies this
      ensures Valid() && readings == if ban then old(readings) else old(readings) + [clock.current]
      ensures 0 < Cap(config) ==>
                && LeastRecent(how.gone, old(lastSeen)) && LeastRecent(how.room, old(lastSeen) - how.gone)
                && how.later == {}
      ensures 0 < Cap(config) && HasRoom(old(lastSeen), ip, config) ==> how.gone == how.room == {}
      ensures how.due == old(MustSweep(clock.current))
      ensures var first := old(CleanedAt(clock.current));
              && lastCleanup == (if how.dueAgain then clock.again else first)
              && (HasRoom(old(lastSeen), ip, config) ==> how.dueAgain == (clock.again - first >= CLEANUP_INTERVAL))
      ensures HasRoom(old(lastSeen), ip, config) ==> NothingButIdle(old(State()), ip, clock, how, config)
      ensures var before := old(admitted) - how.gone - how.room - how.later;
              var h := Lookup(before, ip, []);
              && (Ordered(readings) ==> (limited <==> ban || Full(h, clock.current)))
              && (admitted == if limited then before else before[ip := h + [clock.current]])
      ensures ban <==> Runs(Met(old(State()), ip, clock, how, config), ip, clock, config)
      ensures ban ==> ip in old(banned) && clock.check - old(banned)[ip] <= config.banTtl
      ensures !ban ==> ip in requests && (ip in banned <==> limited && config.banThreshold <= Max(0, config.limit))
      ensures !ban && ip in banned ==> banned[ip] == clock.ban
      ensures lastSeen == (old(lastSeen) - how.gone - how.room)[ip := clock.current] - how.later
      ensures forall other {:trigger BanEnds(old(State()), other, clock, how, config)} :: other != ip ==>
                Stays(old(State()), State(), other, BanEnds(old(State()), other, clock, how, config),
                      other in Dropped(how))
    {
      ghost var m, c := State(), config;
      limited, ban, how := Call(ip, clock);
      CallerMeets(m, ip, clock, how, c);
      if !ban { CallerIsDecided(Met(m, ip, clock, how, c), ip, clock, c); }
      forall other | other != ip
        ensures Stays(m, State(), other, BanEnds(m, other, clock, how, c), other in Dropped(how))
      {
        OthersStay(m, ip, clock, how, c, other);
      }
    }

    // Turned away exactly when banned, or when the closed window that ends now already
    // holds as many admitted requests of the address as one of the bounds.  A ban holds
    // exactly if no reading that was taken found it over.  What was dropped before that was
    // seen no later than anything kept, and nothing is dropped after it, unless no request is
    // admitted at all; with room for the caller only idle addresses are dropped.  For
    // everybody else nothing changes but that bans end.
    method IsRateLimited(ip: Ip, clock: Clock) returns (limited: bool, ghost ban: bool, ghost how: Course)
      requires Coherent()
      modifies this
      ensures Valid() && readings == if ban then old(readings) else old(readings) + [clock.current]
      // The two sweeps: when there were sixty seconds or too many addresses.
      ensures how.due <==> clock.current - old(lastCleanup) >= 60 || |old(lastSeen)| > config.maxTracked
      ensures var first := if how.due then clock.current else old(lastCleanup);
              && lastCleanup == (if how.dueAgain then clock.again else first)
              && (Fits(old(lastSeen), ip) ==> (how.dueAgain <==> clock.again - first >= 60))
      // Who is dropped.
      ensures 0 < config.limit && 0 < config.banThreshold ==>
                && how.later == {} && (Fits(old(lastSeen), ip) ==> how.gone == how.room == {})
                && LeastRecent(how.gone, old(lastSeen)) && LeastRecent(how.room, old(lastSeen) - how.gone)
      ensures Fits(old(lastSeen), ip) ==> OnlyIdle(old(State()), clock, how, config)
      // The answer.
      ensures ban <==> BanHolds(old(State()), ip, clock, how, config)
      ensures var before := old(admitted) - how.gone - how.room - how.later;
              var h := Lookup(before, ip, []);
              && (Ordered(readings) ==> (limited <==> ban || Full(h, clock.current)))
              && (admitted == if limited then before else before[ip := h + [clock.current]])
      // The caller afterwards.
      ensures !ban ==> ip in requests && (ip in banned <==> limited && config.banThreshold <= Max(0, config.limit))
      ensures !ban && ip in banned ==> banned[ip] == clock.ban
      ensures lastSeen == (old(lastSeen) - how.gone - how.room)[ip := clock.current] - how.later
      // Everybody else.
      ensures forall i {:trigger OtherReads(old(State()), State(), i, clock, how, config)} ::
                i != ip ==> OtherReads(old(State()), State(), i, clock, how, config)
    {
      ghost var m, c := State(), config;
      limited, ban, how := Call(ip, clock);
      CapIsPositive(c);
      CallerMeets(m, ip, clock, how, c);
      if !ban { CallerIsDecided(Met(m, ip, clock, how, c), ip, clock, c); }
      if HasRoom(m.lastSeen, ip, c) { OnlyIdleGo(m, ip, clock, how, c); }
      BanIsExact(m, ip, clock, how, c);
      AllOthersRead(m, ip, clock, how, c);
    }

    // The address is tracked, or there is room for one more.
    predicate Fits(lastSeen: map<Ip, Time>, ip: Ip) {
      |lastSeen| < config.maxTracked || (ip in lastSeen && |lastSeen| == config.maxTracked)
    }

    // Between two drops of an address, no closed window of one period holds more of its
    // requests than either bound allows.
    lemma WindowHoldsAtMostCap(ip: Ip, start: Time, late: nat)
      requires Coherent() && LateBy(readings, late)
      ensures var count := CountIn(Lookup(admitted, ip, []), start, start + config.period - late);
              count <= Max(0, config.limit) && count <= Max(0, config.banThreshold)
    {
      assert SoundFor(State(), ip, readings, config);
      assert Obeys(Lookup(admitted, ip, []), readings, Cap(config), config.period, late);
      WindowBound(Lookup(admitted, ip, []), config.period, Cap(config), late, start);
    }

    // In every reachable state all known addresses are tracked, no more than there is
    // room for, if only something can be admitted.
    lemma KnownIsTracked(ip: Ip)
      requires Valid()
      ensures 0 < config.limit && 0 < config.banThreshold && (ip in requests || ip in banned) ==> ip in lastSeen
      ensures ip in requests && requests[ip] == [] ==> config.limit <= 0 || config.banThreshold <= 0
      ensures |lastSeen| <= config.maxTracked
    {
      assert SoundFor(State(), ip, readings, config);
    }
  }

  // A call whose readings are all the same.
  function Moment(t: Time): Clock {
    Clock(t, t, t, t, t, t)
  }

  // The address is known, tracked and has an empty queue.
  predicate Waits(m: Maps, ip: Ip) {
    ip in m.requests && m.requests[ip] == [] && ip in m.lastSeen
  }

  // The first sweep of a call is not due, and the second one takes the caller for idle.
  method LoseTrack(limiter: IpLimiter, ip: Ip, swept: Time)
    requires limiter.Valid() && Cap(limiter.config) == 0 && Waits(limiter.State(), ip)
    requires limiter.lastCleanup == swept
    requires ip in limiter.banned ==> swept + CLEANUP_INTERVAL - limiter.banned[ip] > limiter.config.banTtl
    modifies limiter
    ensures limiter.Valid() && ip in limiter.requests && ip !in limiter.lastSeen
    ensures limiter.readings == old(limiter.readings) + [swept + CLEANUP_INTERVAL - 1]
  {
    ghost var m, c := limiter.State(), limiter.config;
    var before, after := swept + CLEANUP_INTERVAL - 1, swept + CLEANUP_INTERVAL;
    var clock := Clock(before, before, after, after, after, after);
    var limited, ban, how := limiter.Limit(ip, clock);
    IsTakenForIdle(m, ip, clock, how, c);
  }

  lemma IsTakenForIdle(m: Maps, ip: Ip, clock: Clock, how: Course, c: Config)
    requires Waits(m, ip) && NothingButIdle(m, ip, clock, how, c) && !how.due && how.dueAgain
    requires ip in m.banned ==> clock.againSweep - m.banned[ip] > c.banTtl
    ensures ip in how.later
  {
  }

  // That condition is exact: whatever the bounds, if nothing can be admitted then a run
  // with its readings in order leaves an address that is known and not tracked.  An address
  // that is banned outlives a sweep that another address brings about shortly before its
  // ban ends, and the next sweep finds it idle.
  method UntrackedWithoutCap(c: Config) returns (limiter: IpLimiter, ip: Ip)
    requires c.limit <= 0 || c.banThreshold <= 0
    ensures fresh(limiter) && limiter.Valid() && limiter.config == c.(maxTracked := Max(128, c.maxTracked))
    ensures ip in limiter.requests && ip !in limiter.lastSeen && Ordered(limiter.readings)
  {
    limiter := new IpLimiter(c.limit, c.period, c.banThreshold, c.maxTracked, c.banTtl, map[], 0);
    ip := Ip("198.51.100.7");
    FirstCall(limiter, ip);
    var swept := 60;
    if ip in limiter.banned && CLEANUP_INTERVAL <= c.banTtl {
      swept := 60 + c.banTtl;
      OrderedAppend(limiter.readings, swept);
      OutliveSweep(limiter, ip, Ip("198.51.100.8"));
    }
    OrderedAppend(limiter.readings, swept + CLEANUP_INTERVAL - 1);
    LoseTrack(limiter, ip, swept);
  }

  method FirstCall(limiter: IpLimiter, ip: Ip)
    requires limiter.Valid() && Cap(limiter.config) == 0 && limiter.State() == Maps(map[], map[], map[], map[])
    requires limiter.lastCleanup == 0 && limiter.readings == []
    modifies limiter
    ensures limiter.Valid() && Waits(limiter.State(), ip) && |limiter.lastSeen| == 1
    ensures ip in limiter.banned ==> limiter.banned[ip] == 60
    ensures limiter.lastCleanup == 60 && limiter.readings == [60]
  {
    var limited, ban, how := limiter.Limit(ip, Moment(60));
    assert SoundFor(limiter.State(), ip, limiter.readings, limiter.config);
    assert limiter.lastSeen == map[ip := 60];
  }

  method OutliveSweep(limiter: IpLimiter, ip: Ip, other: Ip)
    requires limiter.Valid() && Cap(limiter.config) == 0 && Waits(limiter.State(), ip) && other != ip
    requires |limiter.lastSeen| == 1 < limiter.config.maxTracked && ip in limiter.banned && limiter.banned[ip] == 60
    requires CLEANUP_INTERVAL <= limiter.config.banTtl && limiter.lastCleanup == 60
    modifies limiter
    ensures limiter.Valid() && Waits(limiter.State(), ip)
    ensures ip in limiter.banned && limiter.banned[ip] == 60
    ensures limiter.lastCleanup == 60 + limiter.config.banTtl
    ensures limiter.readings == old(limiter.readings)
            || limiter.readings == old(limiter.readings) + [60 + limiter.config.banTtl]
  {
    ghost var m := limiter.State();
    ghost var how := Pass(limiter, ip, other, 60 + limiter.config.banTtl);
    Outlives(m, limiter.State(), ip, other, Moment(60 + limiter.config.banTtl), how, limiter.config);
  }

  // A call of another address, with a first sweep.
  method Pass(limiter: IpLimiter, ip: Ip, other: Ip, now: Time) returns (ghost how: Course)
    requires limiter.Valid() && other != ip && HasRoom(limiter.lastSeen, other, limiter.config)
    requires now - limiter.lastCleanup >= CLEANUP_INTERVAL
    modifies limiter
    ensures limiter.Valid() && limiter.lastCleanup == now
    ensures NothingButIdle(old(limiter.State()), other, Moment(now), how, limiter.config) && !how.dueAgain
    ensures Stays(old(limiter.State()), limiter.State(), ip,
                  BanEnds(old(limiter.State()), ip, Moment(now), how, limiter.config), ip in Dropped(how))
    ensures limiter.readings == old(limiter.readings) || limiter.readings == old(limiter.readings) + [now]
  {
    var limited, ban, how' := limiter.Limit(other, Moment(now));
    how := how';
  }

  lemma Outlives(m: Maps, n: Maps, ip: Ip, other: Ip, clock: Clock, how: Course, c: Config)
    requires Waits(m, ip) && ip in m.banned && m.banned[ip] == 60 && clock == Moment(60 + c.banTtl)
    requires NothingButIdle(m, other, clock, how, c) && !how.dueAgain
    requires Stays(m, n, ip, BanEnds(m, ip, clock, how, c), ip in Dropped(how))
    ensures Waits(n, ip) && ip in n.banned && n.banned[ip] == 60
  {
    assert ip !in Idle(Lifted(m, clock.sweep, c)) && ip !in Idle(m);
    assert At(n.requests, ip) == At(m.requests, ip);
    assert At(n.banned, ip) == At(m.banned, ip) && At(n.lastSeen, ip) == At(m.lastSeen, ip);
  }
}
