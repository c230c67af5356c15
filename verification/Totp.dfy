// One-time use of time-based codes (RFC 6238, section 5.2): a window of acceptance of
// one step either way, a window of remembered markers of four steps, a cap of 64
// markers per user, and a state file that carries the markers across restarts.
module Totp {
  import opened Common
  import opened Text

  type UserId = nat

  const INTERVAL := 30
  const REPLAY_WINDOW := 4
  const MAX_TRACKED := 64

  // A code together with the time step it matched.
  datatype Marker = Marker(code: string, step: int)

  // What the state file may hold (a parsed object has each key once), and what writing
  // it may come to.
  datatype Json = JText(text: string) | JNumber(number: int) | JList(items: seq<Json>) |
                  JObject(fields: seq<(string, Json)>) | JOther
  datatype Write = NoDirectory | WriteFailed | Written

  type Markers = map<UserId, set<Marker>>

  function Keep(markers: set<Marker>, minStep: int): set<Marker> {
    set m | m in markers && m.step >= minStep
  }

  // Every user's markers from minStep on; users without any are dropped.
  function Pruned(all: Markers, minStep: int): Markers {
    map u | u in all && Keep(all[u], minStep) != {} :: Keep(all[u], minStep)
  }

  predicate IsMarker(j: Json, minStep: int) {
    && j.JList? && |j.items| == 2
    && j.items[0].JText? && j.items[1].JNumber? && j.items[1].number >= minStep
  }

  function MarkersIn(items: seq<Json>, minStep: int): set<Marker> {
    set j | j in items && IsMarker(j, minStep) :: Marker(j.items[0].text, j.items[1].number)
  }

  // The markers of all well-formed entries; of two entries for one user the later wins.
  function LoadedFrom(fields: seq<(string, Json)>, minStep: int): Markers {
    if fields == [] then map[]
    else
      var before := LoadedFrom(fields[..|fields| - 1], minStep);
      var (key, value) := fields[|fields| - 1];
      if IsDigits(key) && value.JList? && MarkersIn(value.items, minStep) != {}
      then before[NatValue(key) := MarkersIn(value.items, minStep)]
      else before
  }

  // The value of a key of a parsed object.
  function Member(fields: seq<(string, Json)>, key: string): Json {
    if fields == [] then JOther
    else if fields[|fields| - 1].0 == key then fields[|fields| - 1].1
    else Member(fields[..|fields| - 1], key)
  }

  // What the state file says; a missing or unreadable file says nothing.
  function Load(file: Option<Json>, minStep: int): Markers {
    if file.None? || !file.value.JObject? then map[]
    else
      var replay := Member(file.value.fields, "replay");
      if replay.JObject? then LoadedFrom(replay.fields, minStep) else map[]
  }

  function MarkerJson(m: Marker): Json {
    JList([JText(m.code), JNumber(m.step)])
  }

  function ListJson(list: seq<Marker>): Json {
    JList(seq(|list|, i requires 0 <= i < |list| => MarkerJson(list[i])))
  }

  lemma MarkersRoundTrip(list: seq<Marker>, minStep: int)
    ensures MarkersIn(ListJson(list).items, minStep) == Keep((set m | m in list), minStep)
  {
    var items := ListJson(list).items;
    forall m | m in list && m.step >= minStep ensures m in MarkersIn(items, minStep) {
      var i :| 0 <= i < |list| && list[i] == m;
      assert items[i] in items && IsMarker(items[i], minStep);
    }
  }

  // What the file looks like: under "replay", for each user's decimal id, a list of pairs of
  // a code and a step.
  lemma PairIsRead(user: UserId, code: string, step: int, minStep: int)
    ensures var pair := JList([JText(code), JNumber(step)]);
            && ListJson([Marker(code, step)]) == JList([pair])
            && Load(Some(JObject([("replay", JObject([(NatText(user), JList([pair]))]))])), minStep)
               == if minStep <= step then map[user := {Marker(code, step)}] else map[]
  {
    var pair := JList([JText(code), JNumber(step)]);
    var users := [(NatText(user), JList([pair]))];
    var fields := [("replay", JObject(users))];
    NatTextValue(user);
    assert ListJson([Marker(code, step)]).items == [pair];
    assert users[..0] == [] && fields[|fields| - 1].0 == "replay";
    assert MarkersIn([pair], minStep) == if minStep <= step then {Marker(code, step)} else {} by {
      assert pair in [pair] && forall j :: j in [pair] ==> j == pair;
      assert IsMarker(pair, minStep) <==> minStep <= step;
    }
    assert LoadedFrom([], minStep) == map[];
  }

  // The file holds exactly these markers, whatever step loading starts from.
  ghost predicate Saves(fields: seq<(string, Json)>, all: Markers) {
    forall minStep :: LoadedFrom(fields, minStep) == Pruned(all, minStep)
  }

  // One more user in the file: what loading yields grows by that user's markers.
  lemma SavesOneMore(fields: seq<(string, Json)>, all: Markers, user: UserId, list: seq<Marker>, markers: set<Marker>)
    requires Saves(fields, all) && user !in all
    requires markers == set m | m in list
    ensures Saves(fields + [(NatText(user), ListJson(list))], all[user := markers])
  {
    var grown := fields + [(NatText(user), ListJson(list))];
    NatTextValue(user);
    forall minStep ensures LoadedFrom(grown, minStep) == Pruned(all[user := markers], minStep) {
      MarkersRoundTrip(list, minStep);
      assert grown[..|grown| - 1] == fields;
      assert LoadedFrom(fields, minStep) == Pruned(all, minStep);
    }
  }

  predicate Holds(all: Markers, user: UserId, m: Marker) {
    user in all && m in all[user]
  }

  // Everything in `part` is in `all`.
  ghost predicate Within(part: Markers, all: Markers) {
    forall u, m {:trigger Holds(part, u, m)} :: Holds(part, u, m) ==> Holds(all, u, m)
  }

  // `part` has forgotten nothing of `all` from step `floor` on.
  ghost predicate Remembers(part: Markers, all: Markers, floor: int) {
    forall u, m {:trigger Holds(all, u, m)} :: Holds(all, u, m) && m.step >= floor ==> Holds(part, u, m)
  }

  lemma PrunedHolds(all: Markers, minStep: int, user: UserId, m: Marker)
    ensures Holds(Pruned(all, minStep), user, m) <==> Holds(all, user, m) && m.step >= minStep
  {
    if Holds(all, user, m) && m.step >= minStep { assert m in Keep(all[user], minStep); }
  }

  // Pruning below the floor forgets nothing that matters.
  lemma PrunedRemembers(part: Markers, all: Markers, floor: int, minStep: int)
    requires Within(part, all)
    ensures Within(Pruned(part, minStep), all)
    ensures minStep <= floor && Remembers(part, all, floor) ==> Remembers(Pruned(part, minStep), all, floor)
  {
    forall u, m | Holds(Pruned(part, minStep), u, m) ensures Holds(all, u, m) {
      PrunedHolds(part, minStep, u, m);
      assert Holds(part, u, m);
    }
    if minStep <= floor && Remembers(part, all, floor) {
      forall u, m | Holds(all, u, m) && m.step >= floor ensures Holds(Pruned(part, minStep), u, m) {
        PrunedHolds(part, minStep, u, m);
      }
    }
  }

  // Markers whose codes are determined by their steps are at most as many as the steps.
  lemma {:induction false} FewMarkers(markers: set<Marker>, codeOf: int -> string, lo: int, hi: int)
    requires lo <= hi + 1
    requires forall m :: m in markers ==> lo <= m.step <= hi && m.code == codeOf(m.step)
    ensures |markers| <= hi - lo + 1
    decreases hi - lo + 1
  {
    var top := Marker(codeOf(hi), hi);
    if lo <= hi {
      FewMarkers(markers - {top}, codeOf, lo, hi - 1);
    } else if m :| m in markers {
      assert false;
    }
  }

  // Of more markers than fit, one of the lowest step goes first.
  method FindLowest(markers: set<Marker>) returns (lowest: Marker)
    requires markers != {}
    ensures lowest in markers && forall m :: m in markers ==> lowest.step <= m.step
  {
    lowest := AnyOf(markers);
    var todo := markers - {lowest};
    while todo != {}
      invariant todo <= markers && lowest in markers
      invariant forall m :: m in markers && m !in todo ==> lowest.step <= m.step
      decreases todo
    {
      var m := AnyOf(todo);
      if m.step < lowest.step { lowest := m; }
      todo := todo - {m};
    }
  }

  method CapNewest(markers: set<Marker>) returns (kept: set<Marker>)
    ensures kept <= markers && |kept| <= 64
    ensures if |markers| <= 64 then kept == markers else |kept| == 64
    ensures forall gone, m :: gone in markers && gone !in kept && m in kept ==> gone.step <= m.step
  {
    kept := markers;
    while |kept| > MAX_TRACKED
      invariant kept <= markers
      invariant if |markers| <= MAX_TRACKED then kept == markers else |kept| >= MAX_TRACKED
      invariant forall gone, m :: gone in markers && gone !in kept && m in kept ==> gone.step <= m.step
      decreases |kept|
    {
      var lowest := FindLowest(kept);
      kept := kept - {lowest};
    }
  }

  method ListMarkers(markers: set<Marker>) returns (list: seq<Marker>)
    ensures markers == set m | m in list
  {
    list := [];
    var todo := markers;
    while todo != {}
      invariant todo <= markers && forall m :: m in list <==> m in markers && m !in todo
      decreases todo
    {
      var m := AnyOf(todo);
      list := list + [m];
      todo := todo - {m};
    }
  }

  // Writing the markers of all users and reading them back, from whatever step, gives
  // the markers from that step on.
  method Serialize(all: Markers) returns (file: Json)
    ensures forall minStep {:trigger LoadsAs(Some(file), all, minStep)} :: LoadsAs(Some(file), all, minStep)
  {
    var fields: seq<(string, Json)> := [];
    var todo := all.Keys;
    ghost var done: Markers := map[];
    while todo != {}
      invariant todo <= all.Keys && done == map u | u in all && u !in todo :: all[u]
      invariant Saves(fields, done)
      decreases todo
    {
      var user := AnyOf(todo);
      var list := ListMarkers(all[user]);
      SavesOneMore(fields, done, user, list, all[user]);
      fields := fields + [(NatText(user), ListJson(list))];
      done := done[user := all[user]];
      todo := todo - {user};
    }
    assert done == all;
    file := JObject([("replay", JObject(fields))]);
    assert Member([("replay", JObject(fields))], "replay") == JObject(fields);
  }

  // Replacing one user's markers by those from minStep on, with at most `extra` added.
  lemma RefreshUser(used: Markers, spent: Markers, user: UserId, entries: set<Marker>, extra: set<Marker>,
                    floor: int, minStep: int)
    requires Within(used, spent)
    requires Keep(Lookup(used, user, {}), minStep) + extra == entries
    ensures var spent' := spent[user := Lookup(spent, user, {}) + extra];
            && Within(used[user := entries], spent')
            && (minStep <= floor && Remembers(used, spent, floor) ==> Remembers(used[user := entries], spent', floor))
  {
    var spent' := spent[user := Lookup(spent, user, {}) + extra];
    forall u, m | Holds(used[user := entries], u, m) ensures Holds(spent', u, m) {
      assert Holds(used, u, m) || (u == user && m in extra);
      assert Holds(used, u, m) ==> Holds(spent, u, m);
    }
    if minStep <= floor && Remembers(used, spent, floor) {
      forall u, m | Holds(spent', u, m) && m.step >= floor ensures Holds(used[user := entries], u, m) {
        assert Holds(spent, u, m) || (u == user && m in extra);
        assert Holds(spent, u, m) ==> Holds(used, u, m);
      }
    }
  }

  // Dropping markers of one user never adds any.
  lemma SmallerIsWithin(used: Markers, spent: Markers, user: UserId, entries: set<Marker>, fewer: set<Marker>)
    requires Within(used[user := entries], spent) && fewer <= entries
    ensures Within(used[user := fewer], spent)
  {
    forall u, m | Holds(used[user := fewer], u, m) ensures Holds(spent, u, m) {
      assert Holds(used[user := entries], u, m);
    }
  }

  // From this step on the file says what was saved.
  predicate LoadsAs(file: Option<Json>, saved: Markers, minStep: int) {
    Load(file, minStep) == Pruned(saved, minStep)
  }

  ghost predicate AllSpelled(spent: Markers, normal: string -> string) {
    forall u, m {:trigger Holds(spent, u, m)} :: Holds(spent, u, m) ==> normal(m.code) == m.code
  }

  lemma SpelledGrows(spent: Markers, user: UserId, marker: Marker, normal: string -> string)
    ensures AllSpelled(spent[user := Lookup(spent, user, {}) + {marker}], normal)
            <==> AllSpelled(spent, normal) && normal(marker.code) == marker.code
  {
    var more := spent[user := Lookup(spent, user, {}) + {marker}];
    assert Holds(more, user, marker);
    assert forall u, m :: Holds(more, u, m) <==> Holds(spent, u, m) || (u == user && m == marker);
    if AllSpelled(more, normal) {
      forall u, m | Holds(spent, u, m) ensures normal(m.code) == m.code { assert Holds(more, u, m); }
    }
  }

  class ReplayGuard {
    // The code of a user at a step: each user's secret is fixed.
    const codeOf: (UserId, int) -> string
    // What is stripped from a code's ends, what counts as a digit, and the normal form in
    // which codes are compared: other scripts have digits too, and other spellings of these.
    const blank: char -> bool
    const digit: char -> bool
    const normal: string -> string
    var used: Markers
    var loaded: bool
    var file: Option<Json>
    // Every marker ever accepted, what the file holds, every step observed.
    ghost var spent: Markers
    ghost var saved: Markers
    ghost var steps: seq<int>

    // The markers this process knows, or will know once it has loaded the file.
    ghost function Known(): Markers
      reads this`used, this`loaded, this`saved
    {
      if loaded then used else saved
    }

    ghost predicate Valid()
      reads this`used, this`loaded, this`file, this`spent, this`saved, this`steps
    {
      && (!loaded ==> used == map[])
      && (forall minStep {:trigger LoadsAs(file, saved, minStep)} :: LoadsAs(file, saved, minStep))
      && Within(used, spent) && Within(saved, spent)
      && (forall u, m {:trigger Holds(spent, u, m)} :: Holds(spent, u, m) ==>
            steps != [] && Fits(u, m) && m.step <= Highest(steps) + 1)
    }

    // The user's code at the marker's step, in some spelling.
    predicate Fits(user: UserId, marker: Marker) {
      normal(marker.code) == codeOf(user, marker.step)
    }

    // Every code accepted so far was spelled normally.
    ghost predicate Spelled()
      reads this`spent
    {
      AllSpelled(spent, normal)
    }

    // Nothing accepted is forgotten while a later step could still match it.
    ghost predicate Alert()
      reads this`used, this`loaded, this`saved, this`spent, this`steps
    {
      steps != [] ==> Remembers(Known(), spent, Highest(steps) - REPLAY_WINDOW)
    }

    ghost predicate BelowFloor(minStep: int)
      reads this`steps
    {
      steps != [] ==> minStep <= Highest(steps) - REPLAY_WINDOW
    }

    // The same of the state file, so that a restart forgets nothing either.
    ghost predicate Durable()
      reads this`saved, this`spent, this`steps
    {
      steps != [] ==> Remembers(saved, spent, Highest(steps) - REPLAY_WINDOW)
    }

    constructor (codeOf: (UserId, int) -> string, blank: char -> bool, digit: char -> bool,
                 normal: string -> string)
      ensures Valid() && Alert() && Durable() && Spelled()
      ensures this.codeOf == codeOf && this.blank == blank && this.digit == digit && this.normal == normal
      ensures used == map[] && !loaded && file == None
      ensures spent == map[] && saved == map[] && steps == []
    {
      this.codeOf, this.blank, this.digit, this.normal := codeOf, blank, digit, normal;
      used, loaded, file := map[], false, None;
      spent, saved, steps := map[], map[], [];
    }

    // Reads the file once per process; entries below minStep are of no use any more.
    method LoadReplayState(minStep: int)
      requires Valid()
      modifies this`used, this`loaded
      ensures Valid() && loaded
      ensures used == if old(loaded) then old(used) else Pruned(saved, minStep)
      ensures old(Alert()) && BelowFloor(minStep) ==> Alert()
    {
      PrunedRemembers(saved, spent, if steps == [] then 0 else Highest(steps) - REPLAY_WINDOW, minStep);
      if loaded { return; }
      loaded := true;
      assert LoadsAs(file, saved, minStep);
      used := used + Load(file, minStep);
      assert used == Pruned(saved, minStep);
    }

    // Prunes everybody's markers and writes the rest.  Without a directory nothing
    // happens, and a failed write leaves the old file.
    method PersistReplayState(minStep: int, write: Write)
      requires Valid() && loaded
      modifies this`used, this`file, this`saved
      ensures Valid()
      ensures used == if write.NoDirectory? then old(used) else Pruned(old(used), minStep)
      ensures saved == if write.Written? then used else old(saved)
      ensures !write.Written? ==> file == old(file)
      ensures old(Alert()) && BelowFloor(minStep) ==> Alert()
      ensures !write.NoDirectory? ==> forall u, m :: Holds(used, u, m) ==> m.step >= minStep
    {
      PrunedRemembers(used, spent, if steps == [] then 0 else Highest(steps) - REPLAY_WINDOW, minStep);
      if write.NoDirectory? { return; }
      forall u, m ensures Holds(Pruned(used, minStep), u, m) ==> m.step >= minStep {
        PrunedHolds(used, minStep, u, m);
      }
      used := Pruned(used, minStep);
      var payload := Serialize(used);
      if write.Written? {
        file := Some(payload);
        saved := used;
      }
    }

    // Marks a step as observed; what was remembered before is still remembered, since
    // the window only moves up.
    ghost method Observe(current: int)
      requires Valid()
      modifies this`steps
      ensures Valid() && steps == old(steps) + [current]
      ensures old(Alert()) ==> Alert()
      ensures old(Durable()) ==> Durable()
    {
      HighestGrows(steps, current);
      assert steps == [] ==> forall u, m :: !Holds(spent, u, m);
      steps := steps + [current];
    }

    // A replayed marker: the user's markers from minStep on are kept, nothing is spent.
    method Refuse(user: UserId, minStep: int)
      requires Valid() && loaded && steps != []
      modifies this`used
      ensures Valid()
      ensures old(Alert()) && BelowFloor(minStep) ==> Alert()
      ensures used == old(used)[user := Keep(Lookup(old(used), user, {}), minStep)]
    {
      RefreshUser(used, spent, user, Keep(Lookup(used, user, {}), minStep), {}, Highest(steps) - REPLAY_WINDOW,
                  minStep);
      SpendNothing(spent, user);
      used := used[user := Keep(Lookup(used, user, {}), minStep)];
    }

    // A new marker is spent and joins the user's markers, the newest of which are kept.
    method Accept(user: UserId, marker: Marker, minStep: int)
      requires Valid() && loaded && steps != []
      requires Fits(user, marker) && marker.step <= Highest(steps) + 1
      modifies this`used, this`spent
      ensures Valid()
      ensures spent == old(spent)[user := Lookup(old(spent), user, {}) + {marker}]
      ensures var entries := Keep(Lookup(old(used), user, {}), minStep) + {marker};
              && (if |entries| <= MAX_TRACKED then used == old(used)[user := entries]
                  else user in used && used == old(used)[user := used[user]] && used[user] <= entries)
              && (old(Alert()) && BelowFloor(minStep) && |entries| <= MAX_TRACKED ==> Alert())
    {
      var entries := Keep(Lookup(used, user, {}), minStep) + {marker};
      RefreshUser(used, spent, user, entries, {marker}, Highest(steps) - REPLAY_WINDOW, minStep);
      var kept := CapNewest(entries);
      SpendOne(spent, user, marker);
      ghost var spent' := spent[user := Lookup(spent, user, {}) + {marker}];
      SmallerIsWithin(used, spent', user, entries, kept);
      WithinGrows(saved, spent, spent');
      spent := spent';
      used := used[user := kept];
    }

    static lemma WithinGrows(part: Markers, spent: Markers, spent': Markers)
      requires Within(part, spent) && Within(spent, spent')
      ensures Within(part, spent')
    {
      forall u, m | Holds(part, u, m) ensures Holds(spent', u, m) { assert Holds(spent, u, m); }
    }

    static lemma SpendOne(spent: Markers, user: UserId, marker: Marker)
      ensures var spent' := spent[user := Lookup(spent, user, {}) + {marker}];
              && Within(spent, spent')
              && forall u, m {:trigger Holds(spent', u, m)} ::
                   Holds(spent', u, m) ==> Holds(spent, u, m) || (u == user && m == marker)
    {
    }

    static lemma SpendNothing(spent: Markers, user: UserId)
      ensures forall u, m :: Holds(spent[user := Lookup(spent, user, {}) + {}], u, m) <==> Holds(spent, u, m)
    {
    }

    // In a steady run nothing in reach of the current step is forgotten, and only nine
    // steps are in reach, so that the cap of 64 never discards anything, not even if this
    // code is the first in another spelling.
    lemma ReachIsExact(user: UserId, marker: Marker, current: int)
      requires Valid() && loaded && Alert() && Spelled()
      requires steps != [] && Highest(steps) - (REPLAY_WINDOW - 1) <= current
      requires current - 1 <= marker.step <= current + 1 && Fits(user, marker)
      ensures var entries := Keep(Lookup(used, user, {}), current - REPLAY_WINDOW);
              && (marker in entries <==> Holds(spent, user, marker))
              && |entries| <= 9 && |entries + {marker}| <= 10 <= MAX_TRACKED
              && (normal(marker.code) == marker.code ==> |entries + {marker}| <= 9)
    {
      var entries := Keep(Lookup(used, user, {}), current - REPLAY_WINDOW);
      assert Holds(used, user, marker) <==> Holds(spent, user, marker);
      forall m | m in entries ensures m.step <= current + 4 && m.code == codeOf(user, m.step) {
        assert Holds(used, user, m);
        assert Holds(spent, user, m);
      }
      FewMarkers(entries, step => codeOf(user, step), current - 4, current + 4);
      if normal(marker.code) == marker.code {
        FewMarkers(entries + {marker}, step => codeOf(user, step), current - 4, current + 4);
      }
    }

    // Spends the marker unless the user already holds it.
    method Spend(user: UserId, marker: Marker, current: int) returns (ok: bool)
      requires Valid() && loaded && steps != [] && BelowFloor(current - REPLAY_WINDOW)
      requires Fits(user, marker) && current - 1 <= marker.step <= current + 1
      requires marker.step <= Highest(steps) + 1
      modifies this`used, this`spent
      ensures Valid()
      ensures ok <==> marker !in Keep(Lookup(old(used), user, {}), current - REPLAY_WINDOW)
      ensures spent == if ok then old(spent)[user := Lookup(old(spent), user, {}) + {marker}] else old(spent)
      ensures old(Alert() && Spelled()) && Highest(steps) - (REPLAY_WINDOW - 1) <= current ==>
                Alert() && (ok <==> !Holds(old(spent), user, marker))
    {
      var entries := Keep(Lookup(used, user, {}), current - REPLAY_WINDOW);
      ok := marker !in entries;
      if Alert() && Spelled() && Highest(steps) - (REPLAY_WINDOW - 1) <= current {
        ReachIsExact(user, marker, current);
      }
      if ok {
        Accept(user, marker, current - REPLAY_WINDOW);
      } else {
        Refuse(user, current - REPLAY_WINDOW);
      }
    }

    // The step is observed, and the state file read if it was not yet.
    method Open(current: int)
      requires Valid()
      modifies this`used, this`loaded, this`steps
      ensures Valid() && loaded && steps == old(steps) + [current] && BelowFloor(current - REPLAY_WINDOW)
      ensures old(Alert()) ==> Alert()
      ensures old(Durable()) ==> Durable()
      ensures used == old(Known()) || used == Pruned(old(Known()), current - REPLAY_WINDOW)
    {
      Observe(current);
      HighestGrows(old(steps), current);
      LoadReplayState(current - REPLAY_WINDOW);
    }

    // Spends the marker if it is new, and writes what is left.
    method Settle(user: UserId, marker: Marker, current: int, write: Write) returns (ok: bool)
      requires Valid() && loaded && steps != [] && BelowFloor(current - REPLAY_WINDOW)
      requires Fits(user, marker) && current - 1 <= marker.step <= current + 1
      requires marker.step <= Highest(steps) + 1
      modifies this`used, this`spent, this`file, this`saved
      ensures Valid()
      ensures ok <==> !Holds(old(used), user, marker)
      ensures spent == if ok then old(spent)[user := Lookup(old(spent), user, {}) + {marker}] else old(spent)
      ensures !write.NoDirectory? ==> forall u, m :: Holds(used, u, m) ==> m.step >= current - REPLAY_WINDOW
      ensures old(Alert() && Spelled()) && Highest(steps) - (REPLAY_WINDOW - 1) <= current ==>
                Alert() && (ok <==> !Holds(old(spent), user, marker))
      ensures saved == if write.Written? then used else old(saved)
      ensures !write.Written? ==> file == old(file)
    {
      ok := Spend(user, marker, current);
      PersistReplayState(current - REPLAY_WINDOW, write);
    }

    // A marker is accepted exactly when its user never spent it, provided nothing was
    // forgotten so far and this step is at most three behind the highest step observed.  The
    // pruning of all users at the current step and the cap lose nothing that matters.
    method RegisterCodeUsage(user: UserId, code: string, matched: int, current: int, write: Write) returns (ok: bool)
      requires Valid()
      requires Fits(user, Marker(code, matched)) && current - 1 <= matched <= current + 1
      modifies this
      ensures Valid() && loaded && steps == old(steps) + [current]
      ensures spent == if ok then old(spent)[user := Lookup(old(spent), user, {}) + {Marker(code, matched)}]
                       else old(spent)
      ensures ok <==> !Holds(old(Known()), user, Marker(code, matched))
      ensures !write.NoDirectory? ==> forall u, m :: Holds(used, u, m) ==> m.step >= current - REPLAY_WINDOW
      ensures old(Alert() && Spelled()) && Highest(steps) - (REPLAY_WINDOW - 1) <= current ==>
                Alert() && (ok <==> !Holds(old(spent), user, Marker(code, matched)))
      ensures Alert() && write.Written? ==> Durable()
      ensures !write.Written? ==> saved == old(saved) && file == old(file)
      ensures old(Durable()) && !ok && !write.Written? ==> Durable()
    {
      PrunedHolds(Known(), current - REPLAY_WINDOW, user, Marker(code, matched));
      HighestGrows(steps, current);
      Open(current);
      ok := Settle(user, Marker(code, matched), current, write);
    }

    // The earliest step of the three in reach whose code it is.
    ghost predicate FirstMatch(user: UserId, code: string, current: int, matched: Option<int>) {
      match matched
      case None => forall s :: current - 1 <= s <= current + 1 ==> !Fits(user, Marker(code, s))
      case Some(step) =>
        && current - 1 <= step <= current + 1 && Fits(user, Marker(code, step))
        && forall s :: current - 1 <= s < step ==> !Fits(user, Marker(code, s))
    }

    lemma OneFirstMatch(user: UserId, code: string, current: int, a: Option<int>, b: Option<int>)
      requires FirstMatch(user, code, current, a) && FirstMatch(user, code, current, b)
      ensures a == b
    {
    }

    method ResolveMatchingStep(user: UserId, code: string, current: int) returns (matched: Option<int>)
      ensures FirstMatch(user, code, current, matched)
    {
      for step := current - 1 to current + 2
        invariant forall s :: current - 1 <= s < step ==> !Fits(user, Marker(code, s))
      {
        if Fits(user, Marker(code, step)) { return Some(step); }
      }
      return None;
    }

    lemma DigitsThroughout(code: string)
      ensures SixDigits(code) <==> |code| == 6 && forall c :: c in code ==> digit(c)
    {
    }

    predicate SixDigits(code: string) {
      |code| == 6 && forall i :: 0 <= i < 6 ==> digit(code[i])
    }

    // Six digits between blanks.
    predicate IsCode(text: string) {
      SixDigits(Strip(text, blank))
    }

    // Six digits between blanks, as the program itself spells them.
    predicate IsPlain(text: string) {
      normal(Strip(text, blank)) == Strip(text, blank)
    }

    // The marker that a code stands for if it matches at this step.
    function MarkerAt(text: string, step: int): Marker {
      Marker(Strip(text, blank), step)
    }

    // A match is the user's code at one of three steps, and the earliest of them.
    lemma MatchMeans(user: UserId, code: string, current: int, matched: Option<int>)
      requires FirstMatch(user, code, current, matched)
      ensures matched.Some? ==>
                current - 1 <= matched.value <= current + 1 && normal(code) == codeOf(user, matched.value)
      ensures forall s {:trigger codeOf(user, s)} ::
                current - 1 <= s <= current + 1 && normal(code) == codeOf(user, s) ==>
                  matched.Some? && matched.value <= s
    {
      forall s | current - 1 <= s <= current + 1 && normal(code) == codeOf(user, s)
        ensures matched.Some? && matched.value <= s
      {
        assert Fits(user, Marker(code, s));
      }
    }

    // The step is the number of whole intervals of 30 seconds (RFC 6238, section 4.2).
    method CheckCode(user: UserId, text: string, time: nat, write: Write) returns (ok: bool, ghost matched: Option<int>)
      requires Valid()
      modifies this
      ensures Valid()
      ensures FirstMatch(user, Strip(text, blank), time / INTERVAL, matched)
      ensures matched.None? || !IsCode(text) ==> !ok && unchanged(this)
      ensures matched.Some? && IsCode(text) ==>
                && steps == old(steps) + [time / INTERVAL]
                && (ok <==> !Holds(old(Known()), user, MarkerAt(text, matched.value)))
                && (!write.NoDirectory? ==>
                      forall u, m :: Holds(Known(), u, m) ==> m.step >= time / INTERVAL - REPLAY_WINDOW)
      ensures spent == if ok then old(spent)[user := Lookup(old(spent), user, {}) + {MarkerAt(text, matched.value)}]
                       else old(spent)
      ensures old(Alert() && Spelled()) && (steps == [] || Highest(steps) - (REPLAY_WINDOW - 1) <= time / INTERVAL) ==>
                && Alert()
                && (ok <==> IsCode(text) && matched.Some? && !Holds(old(spent), user, MarkerAt(text, matched.value)))
      // So that a run stays durable, restarts included, if every accepting write succeeds.
      ensures old(Durable()) && Alert() && (ok ==> write.Written?) ==> Durable()
      ensures Alert() && ok && write.Written? ==> Durable()
      ensures Spelled() == (old(Spelled()) && (ok ==> IsPlain(text)))
      ensures !write.Written? ==> saved == old(saved)
    {
      var code := Strip(text, blank);
      var current := time / INTERVAL;
      var step := ResolveMatchingStep(user, code, current);
      matched := step;
      if !SixDigits(code) || step.None? { return false, matched; }
      SpelledGrows(spent, user, Marker(code, step.value), normal);
      ok := RegisterCodeUsage(user, code, step.value, current, write);
    }

    // No observed step is more than three ahead of this one.
    ghost predicate FallsLittle(current: int)
      reads this`steps
    {
      forall k :: 0 <= k < |steps| ==> steps[k] - 3 <= current
    }

    // Accepted exactly if the text is six digits between blanks, if it is this user's code
    // at one of the three steps around the present one, and if the user has not spent it
    // at the earliest of these.
    method Verify(user: UserId, text: string, time: nat, write: Write) returns (ok: bool, ghost matched: Option<int>)
      requires Valid()
      modifies this
      ensures Valid()
      ensures FirstMatch(user, Strip(text, blank), time / 30, matched)
      ensures matched.Some? ==>
                && time / 30 - 1 <= matched.value <= time / 30 + 1
                && normal(Strip(text, blank)) == codeOf(user, matched.value)
      ensures forall s {:trigger codeOf(user, s)} ::
                time / 30 - 1 <= s <= time / 30 + 1 && normal(Strip(text, blank)) == codeOf(user, s) ==>
                  matched.Some? && matched.value <= s
      ensures ok ==> matched.Some? && |Strip(text, blank)| == 6 && forall c :: c in Strip(text, blank) ==> digit(c)
      ensures matched.None? || !IsCode(text) ==> !ok && unchanged(this)
      ensures matched.Some? && IsCode(text) ==>
                && steps == old(steps) + [time / 30]
                && (ok <==> Marker(Strip(text, blank), matched.value) !in Lookup(old(Known()), user, {}))
                && (!write.NoDirectory? ==> forall u, m :: Holds(Known(), u, m) ==> m.step >= time / 30 - 4)
      ensures !ok ==> spent == old(spent)
      ensures ok ==>
                var marker := Marker(Strip(text, blank), matched.value);
                spent == old(spent)[user := Lookup(old(spent), user, {}) + {marker}]
      ensures old(Alert() && Spelled() && FallsLittle(time / 30)) ==>
                && Alert()
                && (ok <==>
                      && matched.Some? && |Strip(text, blank)| == 6
                      && (forall c :: c in Strip(text, blank) ==> digit(c))
                      && Marker(Strip(text, blank), matched.value) !in Lookup(old(spent), user, {}))
      ensures old(Durable()) && Alert() && (ok ==> write.Written?) ==> Durable()
      ensures Alert() && ok && write.Written? ==> Durable()
      ensures Spelled() == (old(Spelled()) && (ok ==> normal(Strip(text, blank)) == Strip(text, blank)))
      ensures !write.Written? ==> saved == old(saved)
    {
      ghost var code := Strip(text, blank);
      if steps != [] { HighestIsReached(steps); }
      HighestGrows(steps, time / INTERVAL);
      ok, matched := CheckCode(user, text, time, write);
      MatchMeans(user, code, time / INTERVAL, matched);
      DigitsThroughout(code);
    }

    // A new process knows only what the file says.
    method Restart()
      requires Valid()
      modifies this`used, this`loaded
      ensures Valid() && !loaded
      ensures old(Durable()) ==> Alert() && Durable()
      ensures Known() == saved
    {
      used, loaded := map[], false;
    }
  }

  // One use across a restart, exactly: whatever was used and observed before, a marker not
  // yet used is accepted, and after a restart, at any other step in reach, it is accepted
  // once more precisely if the write of the first time did not succeed.
  method RestartDecides(guard: ReplayGuard, user: UserId, marker: Marker, current: int, write: Write, later: int,
                        write': Write)
    returns (first: bool, again: bool)
    requires guard.Valid() && guard.Alert() && guard.Spelled() && marker !in Lookup(guard.spent, user, {})
    requires guard.FallsLittle(current)
    requires guard.normal(marker.code) == guard.codeOf(user, marker.step) && current - 1 <= marker.step <= current + 1
    requires later - 1 <= marker.step <= later + 1
    modifies guard
    ensures guard.Valid()
    ensures first && (again <==> !write.Written?)
  {
    assert guard.Known() == guard.used || guard.Known() == guard.saved;
    if guard.steps != [] { HighestIsReached(guard.steps); }
    HighestGrows(guard.steps, current);
    first := guard.RegisterCodeUsage(user, marker.code, marker.step, current, write);
    assert Holds(guard.spent, user, marker);
    guard.Restart();
    again := guard.RegisterCodeUsage(user, marker.code, marker.step, later, write');
  }

  // A code is as good in another spelling: the marker keeps the spelling that was sent, so
  // that within one step the same code is accepted a second time, in the program's own
  // spelling, exactly if the first time it was not spelled so.
  method SpellingDecides(guard: ReplayGuard, user: UserId, code: string, step: int, time: nat, write: Write,
                         write': Write)
    returns (first: bool, again: bool)
    requires guard.Valid() && guard.Alert() && guard.Spelled()
    requires guard.FallsLittle(time / 30)
    requires guard.FirstMatch(user, code, time / INTERVAL, Some(step))
    requires guard.normal(guard.normal(code)) == guard.normal(code)
    requires forall c :: c == code || c == guard.normal(code) ==>
               guard.SixDigits(c) && Strip(c, guard.blank) == c && !Holds(guard.spent, user, Marker(c, step))
    modifies guard
    ensures guard.Valid()
    ensures first && (again <==> guard.normal(code) != code)
  {
    ghost var matched;
    HighestGrows(guard.steps, time / INTERVAL);
    first, matched := guard.Verify(user, code, time, write);
    guard.OneFirstMatch(user, code, time / INTERVAL, matched, Some(step));
    assert forall m :: Holds(guard.Known(), user, m) ==> Holds(guard.spent, user, m);
    assert guard.FallsLittle(time / INTERVAL);
    assert Holds(guard.Known(), user, Marker(guard.normal(code), step)) <==>
             Marker(guard.normal(code), step) in Lookup(guard.Known(), user, {});
    assert forall s :: guard.Fits(user, Marker(guard.normal(code), s)) <==> guard.Fits(user, Marker(code, s));
    again, matched := guard.Verify(user, guard.normal(code), time, write');
    guard.OneFirstMatch(user, guard.normal(code), time / INTERVAL, matched, Some(step));
  }

  ghost predicate IsAscii(guard: ReplayGuard) {
    && guard.blank == AsciiBlanks() && (forall c :: guard.digit(c) <==> IsDigit(c))
    && forall code :: guard.normal(code) == code
  }

  // One code at step 0 and another at all other steps.
  function ZeroThenOnes(): (UserId, int) -> string {
    (user, step) => if step == 0 then "000000" else "111111"
  }

  lemma TwoCodes()
    ensures ZeroThenOnes()(1, 0) == "000000" && forall s :: s != 0 ==> ZeroThenOnes()(1, s) == "111111"
    ensures "000000" != "111111" && IsDigits("000000") && IsDigits("111111")
    ensures Strip("000000", AsciiBlanks()) == "000000" && Strip("111111", AsciiBlanks()) == "111111"
  {
    assert "000000"[0] != "111111"[0];
    StripKeeps("000000", AsciiBlanks());
    StripKeeps("111111", AsciiBlanks());
  }

  lemma WhatFits(guard: ReplayGuard)
    requires guard.codeOf == ZeroThenOnes() && IsAscii(guard)
    ensures forall s :: guard.Fits(1, Marker("000000", s)) <==> s == 0
    ensures forall s :: guard.Fits(1, Marker("111111", s)) <==> s != 0
    ensures guard.IsCode("000000") && guard.IsCode("111111")
  {
    TwoCodes();
  }

  // The bound of three steps is exact: for every larger fall there is a run in which the
  // same code of the same user is verified twice.
  method LargerFallReplays(fall: nat) returns (first: bool, again: bool)
    requires fall > 3
    ensures first && again
  {
    TwoCodes();
    var guard;
    guard, first := SpendAndMoveOn(fall);
    ghost var matched;
    WhatFits(guard);
    again, matched := guard.Verify(1, "000000", INTERVAL, Written);
    guard.OneFirstMatch(1, "000000", 1, matched, Some(0));
  }

  method SpendAndMoveOn(fall: nat) returns (guard: ReplayGuard, first: bool)
    requires fall > 3
    ensures fresh(guard) && guard.Valid() && guard.codeOf == ZeroThenOnes() && IsAscii(guard)
    ensures first && !Holds(guard.Known(), 1, Marker("000000", 0))
  {
    TwoCodes();
    guard, first := SpendZero();
    ghost var matched;
    var other;
    other, matched := guard.Verify(1, "111111", (1 + fall) * INTERVAL, Written);
    WhatFits(guard);
    guard.OneFirstMatch(1, "111111", 1 + fall, matched, Some(fall));
  }

  method SpendZero() returns (guard: ReplayGuard, first: bool)
    ensures fresh(guard) && guard.Valid() && guard.codeOf == ZeroThenOnes() && IsAscii(guard)
    ensures first
  {
    TwoCodes();
    guard := new ReplayGuard(ZeroThenOnes(), AsciiBlanks(), c => IsDigit(c), code => code);
    ghost var matched;
    first, matched := guard.Verify(1, "000000", 0, Written);
    WhatFits(guard);
    guard.OneFirstMatch(1, "000000", 0, matched, Some(0));
  }
}
