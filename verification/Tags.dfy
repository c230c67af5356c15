// Ordering of image tags and selection of the updates to report.  Tags come classified:
// a version tag carries its release numbers, a date tag its date.
module Tags {
  import opened Common

  datatype Kind = Semver | Date | Latest | Sha | Custom | Invalid

  // `created` is the creation time if its text can be read as one.
  datatype Tag = Tag(name: string, kind: Kind, release: Option<seq<nat>>, date: Option<int>,
                     createdAt: string, created: Option<int>, digest: string, parseError: bool)

  datatype Update = Update(currentTag: string, newerTag: string, createdLocal: string,
                           createdRemote: string, currentDigest: string)

  const MAX_UPDATES := 10

  function Priority(k: Kind): nat {
    match k
    case Semver => 100
    case Date => 80
    case Latest => 60
    case Sha => 40
    case Custom => 20
    case Invalid => 0
  }

  // The i-th release number; a shorter release is padded with zeros (PEP 440).
  function At(r: seq<nat>, i: nat): (v: nat)
    ensures i < |r| ==> v == r[i]
    ensures |r| <= i ==> v == 0
  {
    if i < |r| then r[i] else 0
  }

  function Tail(r: seq<nat>): seq<nat> {
    if r == [] then [] else r[1..]
  }

  // Negative, zero or positive as the first release is before, equal to or after the second.
  function CompareReleases(a: seq<nat>, b: seq<nat>): int
    decreases |a| + |b|
  {
    if a == [] && b == [] then 0
    else if At(a, 0) != At(b, 0) then At(a, 0) - At(b, 0)
    else CompareReleases(Tail(a), Tail(b))
  }

  predicate NameLess(a: string, b: string) {
    b != "" && (a == "" || a[0] < b[0] || (a[0] == b[0] && NameLess(a[1..], b[1..])))
  }

  // Names are compared character by character, and the shorter one is first.
  lemma {:induction false} NamesCompareAtFirstDifference(a: string, b: string, i: nat)
    requires i <= |a| && i <= |b| && a[..i] == b[..i]
    ensures i < |a| && i < |b| && a[i] < b[i] ==> NameLess(a, b) && !NameLess(b, a)
    ensures i == |a| < |b| ==> NameLess(a, b) && !NameLess(b, a)
  {
    if i > 0 {
      assert a[0] == a[..i][0] == b[..i][0] == b[0];
      assert a[1..][..i - 1] == a[..i][1..] == b[..i][1..] == b[1..][..i - 1];
      NamesCompareAtFirstDifference(a[1..], b[1..], i - 1);
    }
  }

  // The order used for sorting: by kind, then by version or date, otherwise by creation
  // time, and by name if one of the two times cannot be read.
  predicate Less(a: Tag, b: Tag) {
    if Priority(a.kind) != Priority(b.kind) then Priority(a.kind) < Priority(b.kind)
    else if a.kind.Semver? && a.release.Some? && b.release.Some? then
      CompareReleases(a.release.value, b.release.value) < 0
    else if a.kind.Date? && a.date.Some? && b.date.Some? then a.date.value < b.date.value
    else if a.created.Some? && b.created.Some? then a.created.value < b.created.value
    else NameLess(a.name, b.name)
  }

  // A tag that has what its kind is ordered by.
  predicate WellFormed(t: Tag) {
    match t.kind
    case Semver => t.release.Some?
    case Date => t.date.Some?
    case _ => t.created.Some?
  }

  // The comparison is decided by the first position where the padded releases differ.
  lemma {:induction false} ComparesAtFirstDifference(a: seq<nat>, b: seq<nat>, i: nat)
    requires forall j :: 0 <= j < i ==> At(a, j) == At(b, j)
    ensures At(a, i) < At(b, i) ==> CompareReleases(a, b) < 0
    ensures At(a, i) > At(b, i) ==> CompareReleases(a, b) > 0
    decreases i
  {
    if i > 0 && At(a, i) != At(b, i) {
      assert At(a, 0) == At(b, 0);
      forall j | 0 <= j < i - 1 ensures At(Tail(a), j) == At(Tail(b), j) {
        assert At(a, j + 1) == At(b, j + 1);
      }
      ComparesAtFirstDifference(Tail(a), Tail(b), i - 1);
    }
  }

  // Release b is later: at the first position where the padded releases differ it has the
  // greater number (PEP 440, "Final releases").
  ghost predicate ReleaseBefore(a: seq<nat>, b: seq<nat>) {
    exists i: nat :: At(a, i) < At(b, i) && forall j: nat :: j < i ==> At(a, j) == At(b, j)
  }

  lemma {:induction false} FirstDifference(a: seq<nat>, b: seq<nat>) returns (i: nat)
    requires CompareReleases(a, b) != 0
    ensures At(a, i) != At(b, i) && forall j: nat :: j < i ==> At(a, j) == At(b, j)
    decreases |a| + |b|
  {
    if At(a, 0) != At(b, 0) {
      i := 0;
    } else {
      var k := FirstDifference(Tail(a), Tail(b));
      i := k + 1;
      forall j: nat | j < i ensures At(a, j) == At(b, j) {
        if j > 0 { assert At(Tail(a), j - 1) == At(Tail(b), j - 1); }
      }
    }
  }

  lemma BeforeMeansLess(a: seq<nat>, b: seq<nat>)
    ensures ReleaseBefore(a, b) <==> CompareReleases(a, b) < 0
  {
    if CompareReleases(a, b) != 0 {
      var i := FirstDifference(a, b);
      ComparesAtFirstDifference(a, b, i);
    } else {
      EqualMeansPaddedEqual(a, b);
    }
    if ReleaseBefore(a, b) {
      var i: nat :| At(a, i) < At(b, i) && forall j: nat :: j < i ==> At(a, j) == At(b, j);
      ComparesAtFirstDifference(a, b, i);
    }
  }

  // Tag b is later than tag a of the same kind: versions by their releases, dates by their
  // dates, all others by their times.
  ghost predicate Before(a: Tag, b: Tag) {
    match b.kind
    case Semver => a.release.Some? && b.release.Some? && ReleaseBefore(a.release.value, b.release.value)
    case Date => a.date.Some? && b.date.Some? && a.date.value < b.date.value
    case _ => a.created.Some? && b.created.Some? && a.created.value < b.created.value
  }

  // Versions come before dates, and these before the latest tag, digests and any others.
  predicate KindBefore(k: Kind, k': Kind) {
    match k'
    case Semver => k != Semver
    case Date => k != Semver && k != Date
    case Latest => k == Sha || k == Custom || k == Invalid
    case Sha => k == Custom || k == Invalid
    case Custom => k == Invalid
    case Invalid => false
  }

  // What may be reported for a local tag.
  ghost predicate Reportable(local: Tag, remote: Tag) {
    && remote.kind != Invalid && !remote.parseError
    && if remote.name == local.name then local.digest != "" && remote.digest != "" && local.digest != remote.digest
       else
         && remote.kind == local.kind && Before(local, remote)
         && (local.kind == Semver ==> At(local.release.value, 0) == At(remote.release.value, 0))
  }

  lemma BeforeIsLess(a: Tag, b: Tag)
    requires a.kind == b.kind && WellFormed(a) && WellFormed(b)
    ensures Before(a, b) <==> Less(a, b)
  {
    if a.kind.Semver? { BeforeMeansLess(a.release.value, b.release.value); }
  }

  lemma KindsDecide(a: Tag, b: Tag)
    ensures KindBefore(a.kind, b.kind) ==> Less(a, b)
  {
  }

  lemma ReportableIsUpdate(local: Tag, remote: Tag)
    ensures Reportable(local, remote) <==> IsUpdate(local, remote)
  {
    if local.kind == remote.kind && WellFormed(local) && WellFormed(remote) { BeforeIsLess(local, remote); }
  }

  lemma {:induction false} EqualMeansPaddedEqual(a: seq<nat>, b: seq<nat>)
    ensures CompareReleases(a, b) == 0 <==> forall i: nat :: At(a, i) == At(b, i)
    decreases |a| + |b|
  {
    if a != [] || b != [] {
      EqualMeansPaddedEqual(Tail(a), Tail(b));
      forall i: nat ensures At(Tail(a), i) == At(a, i + 1) && At(Tail(b), i) == At(b, i + 1) {}
      if CompareReleases(a, b) == 0 {
        forall i: nat ensures At(a, i) == At(b, i) {
          assert i > 0 ==> At(Tail(a), i - 1) == At(Tail(b), i - 1);
        }
      }
    }
  }

  lemma {:induction false} CompareIsTotalPreorder(a: seq<nat>, b: seq<nat>, c: seq<nat>)
    ensures CompareReleases(a, a) == 0
    ensures CompareReleases(a, b) == -CompareReleases(b, a)
    ensures CompareReleases(a, b) <= 0 && CompareReleases(b, c) <= 0 ==> CompareReleases(a, c) <= 0
    ensures CompareReleases(a, b) <= 0 && CompareReleases(b, c) < 0 ==> CompareReleases(a, c) < 0
    ensures CompareReleases(a, b) < 0 && CompareReleases(b, c) <= 0 ==> CompareReleases(a, c) < 0
    decreases |a| + |b| + |c|
  {
    if a != [] || b != [] || c != [] {
      CompareIsTotalPreorder(Tail(a), Tail(b), Tail(c));
      assert Tail([]) == [];
    }
  }

  // On well-formed tags the order is a strict weak order: nothing is less than itself, it
  // is transitive, and so is being not less.
  lemma LessIsStrictWeakOrder(a: Tag, b: Tag, c: Tag)
    requires WellFormed(a) && WellFormed(b) && WellFormed(c)
    ensures !Less(a, a)
    ensures Less(a, b) ==> !Less(b, a)
    ensures Less(a, b) && Less(b, c) ==> Less(a, c)
    ensures !Less(a, b) && !Less(b, c) ==> !Less(a, c)
  {
    if a.kind.Semver? && b.kind.Semver? && c.kind.Semver? {
      CompareIsTotalPreorder(a.release.value, b.release.value, c.release.value);
      CompareIsTotalPreorder(c.release.value, b.release.value, a.release.value);
      CompareIsTotalPreorder(a.release.value, c.release.value, b.release.value);
    } else if a.kind.Semver? && b.kind.Semver? {
      CompareIsTotalPreorder(a.release.value, b.release.value, a.release.value);
    } else if a.kind.Semver? {
      CompareIsTotalPreorder(a.release.value, a.release.value, a.release.value);
    }
  }

  // The condition matters: the fallback to names mixes two orders, and goes in a circle.
  lemma MixedOrderIsCircular() returns (a: Tag, b: Tag, c: Tag)
    ensures a.kind == b.kind == c.kind == Custom && Classified(a) && Classified(b) && Classified(c)
    ensures Less(a, b) && Less(b, c) && Less(c, a)
  {
    a := Tag("a", Custom, None, None, "2025", Some(2025), "", false);
    b := Tag("b", Custom, None, None, "?", None, "", false);
    c := Tag("c", Custom, None, None, "2024", Some(2024), "", false);
  }

  // What classification promises: versions have a release and dates have a date, while
  // any other tag may lack a readable time.
  predicate Classified(t: Tag) {
    (t.kind.Semver? ==> t.release.Some?) && (t.kind.Date? ==> t.date.Some?)
  }

  ghost predicate AllClassified(tags: seq<Tag>) {
    forall t :: t in tags ==> Classified(t)
  }

  // The two laws of a strict weak order, besides that nothing is less than itself.
  ghost predicate Laws(a: Tag, b: Tag, c: Tag) {
    && (Less(a, b) && Less(b, c) ==> Less(a, c))
    && (!Less(a, b) && !Less(b, c) ==> !Less(a, c))
  }

  ghost predicate Lawful(tags: seq<Tag>) {
    forall a, b, c {:trigger Laws(a, b, c)} :: a in tags && b in tags && c in tags ==> Laws(a, b, c)
  }

  predicate MissesTime(t: Tag) {
    !t.kind.Semver? && !t.kind.Date? && t.created.None?
  }

  predicate HasTime(t: Tag) {
    !t.kind.Semver? && !t.kind.Date? && t.created.Some?
  }

  // A tag without a time does no harm between two with a time if its name is before both
  // or after both, or if the two times are in the order of the names.
  predicate Harmless(a: Tag, b: Tag, c: Tag) {
    a.kind == b.kind == c.kind && HasTime(a) && MissesTime(b) && HasTime(c) ==>
      || (NameLess(b.name, a.name) && NameLess(b.name, c.name))
      || (NameLess(a.name, b.name) && NameLess(c.name, b.name))
      || ((a.created.value < c.created.value <==> NameLess(a.name, c.name))
          && (c.created.value < a.created.value <==> NameLess(c.name, a.name)))
  }

  ghost predicate AllHarmless(tags: seq<Tag>) {
    forall a, b, c {:trigger Harmless(a, b, c)} :: a in tags && b in tags && c in tags ==> Harmless(a, b, c)
  }

  lemma {:induction false} NamesAreOrdered(a: string, b: string, c: string)
    ensures !NameLess(a, a)
    ensures NameLess(a, b) ==> !NameLess(b, a)
    ensures !NameLess(a, b) && !NameLess(b, a) ==> a == b
    ensures NameLess(a, b) && NameLess(b, c) ==> NameLess(a, c)
    decreases |a| + |b| + |c|
  {
    if a != "" { NamesAreOrdered(a[1..], if b == "" then b else b[1..], if c == "" then c else c[1..]); }
    assert a != "" && b != "" && a[0] == b[0] && a[1..] == b[1..] ==> a == [a[0]] + a[1..] == b;
  }

  // Three names are ordered like three numbers.
  lemma NamesOfThree(a: string, b: string, c: string) returns (x: int, y: int, z: int)
    ensures (NameLess(a, b) <==> x < y) && (NameLess(b, a) <==> y < x)
    ensures (NameLess(b, c) <==> y < z) && (NameLess(c, b) <==> z < y)
    ensures (NameLess(a, c) <==> x < z) && (NameLess(c, a) <==> z < x)
  {
    x := (if NameLess(b, a) then 1 else 0) + if NameLess(c, a) then 1 else 0;
    y := (if NameLess(a, b) then 1 else 0) + if NameLess(c, b) then 1 else 0;
    z := (if NameLess(a, c) then 1 else 0) + if NameLess(b, c) then 1 else 0;
    NamesAreOrdered(a, b, c);
    NamesAreOrdered(a, c, b);
    NamesAreOrdered(b, a, c);
    NamesAreOrdered(b, c, a);
    NamesAreOrdered(c, a, b);
    NamesAreOrdered(c, b, a);
  }

  lemma HarmlessMeansLaws(a: Tag, b: Tag, c: Tag)
    requires Classified(a) && Classified(b) && Classified(c)
    requires Harmless(a, b, c) && Harmless(b, a, c) && Harmless(a, c, b)
    requires Harmless(c, b, a) && Harmless(c, a, b) && Harmless(b, c, a)
    ensures Laws(a, b, c)
  {
    if WellFormed(a) && WellFormed(b) && WellFormed(c) {
      LessIsStrictWeakOrder(a, b, c);
    } else if a.kind == b.kind == c.kind {
      var x, y, z := NamesOfThree(a.name, b.name, c.name);
    }
  }

  lemma LawsMeanHarmless(a: Tag, b: Tag, c: Tag)
    requires Laws(a, b, c) && Laws(c, b, a)
    requires Laws(b, a, c) && Laws(c, a, b)
    requires Laws(a, c, b) && Laws(b, c, a)
    ensures Harmless(a, b, c)
  {
    var x, y, z := NamesOfThree(a.name, b.name, c.name);
  }

  lemma NothingIsLessThanItself(t: Tag)
    ensures !Less(t, t)
  {
    NamesAreOrdered(t.name, t.name, t.name);
    if t.release.Some? { CompareIsTotalPreorder(t.release.value, t.release.value, t.release.value); }
  }

  // On classified tags the order is a strict weak order exactly if no tag without a
  // readable time stands, by its name, between two whose times contradict their names.
  lemma OrderIsWeakExactly(tags: seq<Tag>)
    requires AllClassified(tags)
    ensures Lawful(tags) <==> AllHarmless(tags)
  {
    if AllHarmless(tags) {
      forall a, b, c | a in tags && b in tags && c in tags ensures Laws(a, b, c) {
        assert Harmless(a, b, c) && Harmless(b, a, c) && Harmless(a, c, b);
        assert Harmless(c, b, a) && Harmless(c, a, b) && Harmless(b, c, a);
        HarmlessMeansLaws(a, b, c);
      }
    }
    if Lawful(tags) {
      forall a, b, c | a in tags && b in tags && c in tags ensures Harmless(a, b, c) {
        assert Laws(a, b, c) && Laws(c, b, a) && Laws(b, a, c) && Laws(c, a, b) && Laws(a, c, b) && Laws(b, c, a);
        LawsMeanHarmless(a, b, c);
      }
    }
  }

  function Order(): (Tag, Tag) -> bool {
    (a, b) => Less(a, b)
  }

  // Sorted by the order above, greatest first, equal tags in their original order.
  function Rank(tags: seq<Tag>): seq<Tag> {
    Sort(Order(), tags)
  }

  // Where the order obeys its laws, sorting ranks.
  lemma RankSorts(tags: seq<Tag>)
    ensures multiset(Rank(tags)) == multiset(tags)
    ensures forall t :: t in Rank(tags) <==> t in tags
    ensures Lawful(tags) ==> Sorted(Order(), Rank(tags))
  {
    SortSorts(Order(), tags);
    forall t | t in tags ensures !Less(t, t) { NothingIsLessThanItself(t); }
    if Lawful(tags) {
      forall a, b, c | a in tags && b in tags && c in tags && Less(a, b) && Less(b, c) ensures Less(a, c) {
        assert Laws(a, b, c);
      }
    }
  }

  predicate Alike(t: Tag, u: Tag) {
    !Less(t, u) && !Less(u, t)
  }

  // And it is stable: tags of which neither is greater keep their order.
  lemma RankIsStable(tags: seq<Tag>, t: Tag)
    requires Lawful(tags) && t in tags
    ensures Filter(u => Alike(t, u), Rank(tags)) == Filter(u => Alike(t, u), tags)
  {
    forall a, b | a in tags && b in tags && Alike(t, a) && Alike(t, b) ensures !Less(a, b) {
      assert Laws(a, t, b);
    }
    forall a, b, c | a in tags && b in tags && c in tags && !Less(a, b) && !Less(b, c) ensures !Less(a, c) {
      assert Laws(a, b, c);
    }
    RankSorts(tags);
    forall x | x in tags ensures !Less(x, x) { NothingIsLessThanItself(x); }
    forall a, b, c | a in tags && b in tags && c in tags && Less(a, b) && Less(b, c) ensures Less(a, c) {
      assert Laws(a, b, c);
    }
    SortIsStable(Order(), u => Alike(t, u), tags);
  }

  predicate IsValid(t: Tag) {
    !t.kind.Invalid? && !t.parseError
  }

  // The first release number.
  function Major(t: Tag): nat
    requires t.release.Some?
  {
    At(t.release.value, 0)
  }

  // Whether the remote tag is newer, judged by what the shared kind is ordered by.
  predicate IsNewer(local: Tag, remote: Tag) {
    if local.kind != remote.kind then false
    else match local.kind
      case Semver =>
        local.release.Some? && remote.release.Some? && CompareReleases(remote.release.value, local.release.value) > 0
      case Date => local.date.Some? && remote.date.Some? && remote.date.value > local.date.value
      case _ => local.created.Some? && remote.created.Some? && remote.created.value > local.created.value
  }

  predicate DigestsEqual(local: Tag, remote: Tag) {
    local.digest != "" && remote.digest != "" && local.digest == remote.digest
  }

  // What may be reported for a local tag: the same name with another digest, or a tag of
  // the same kind that is greater in the sorting order, and for versions has the same
  // major number.
  ghost predicate IsUpdate(local: Tag, remote: Tag) {
    && IsValid(remote)
    && if local.name == remote.name then local.digest != "" && remote.digest != "" && local.digest != remote.digest
       else
         && local.kind == remote.kind
         && (local.kind.Semver? ==> local.release.Some? && remote.release.Some? && Major(local) == Major(remote))
         && WellFormed(local) && WellFormed(remote)
         && Less(local, remote)
  }

  ghost function UpdatesAmong(local: Tag, remotes: seq<Tag>): seq<Tag> {
    if remotes == [] then []
    else
      var before := UpdatesAmong(local, remotes[..|remotes| - 1]);
      if IsUpdate(local, remotes[|remotes| - 1]) then before + [remotes[|remotes| - 1]] else before
  }

  lemma {:induction false} UpdatesAreCounted(local: Tag, remotes: seq<Tag>, t: Tag)
    ensures multiset(UpdatesAmong(local, remotes))[t] == if IsUpdate(local, t) then multiset(remotes)[t] else 0
  {
    if remotes != [] {
      UpdatesAreCounted(local, remotes[..|remotes| - 1], t);
      assert remotes == remotes[..|remotes| - 1] + [remotes[|remotes| - 1]];
    }
  }

  // Newer, as the selection asks, is greater, as the sorting sees it.
  lemma NewerIsGreater(local: Tag, remote: Tag)
    requires local.kind == remote.kind
    ensures IsNewer(local, remote) <==> WellFormed(local) && WellFormed(remote) && Less(local, remote)
  {
    if local.kind.Semver? && local.release.Some? && remote.release.Some? {
      CompareIsTotalPreorder(local.release.value, remote.release.value, local.release.value);
    }
  }

  function Report(local: Tag, remote: Tag): Update {
    Update(local.name, remote.name, local.createdAt, remote.createdAt, local.digest)
  }

  // The updates of a valid local tag: the first ten of all remote tags that may be reported,
  // each as often as it is listed, the latest first.
  method FindUpdates(local: Tag, remotes: seq<Tag>) returns (updates: seq<Update>, ghost ranked: seq<Tag>)
    ensures local.kind == Invalid || local.parseError ==> updates == [] && ranked == []
    ensures local.kind != Invalid && !local.parseError ==>
              forall t {:trigger Reportable(local, t)} ::
                multiset(ranked)[t] == if Reportable(local, t) then multiset(remotes)[t] else 0
    ensures AllClassified(remotes) && SameNameHarmless(local, remotes) ==>
              forall i, j {:trigger ranked[i], ranked[j]} :: 0 <= i < j < |ranked| ==>
                !KindBefore(ranked[i].kind, ranked[j].kind)
                && (ranked[i].kind == ranked[j].kind ==> !Before(ranked[i], ranked[j]))
    ensures |updates| == Min(|ranked|, 10)
    ensures forall i :: 0 <= i < |updates| ==>
              updates[i] == Update(local.name, ranked[i].name, local.createdAt, ranked[i].createdAt, local.digest)
  {
    ranked := [];
    if !IsValid(local) { return [], []; }
    updates, ranked := SelectUpdates(local, remotes);
    forall t ensures multiset(ranked)[t] == if Reportable(local, t) then multiset(remotes)[t] else 0 {
      ReportableIsUpdate(local, t);
      UpdatesAreCounted(local, remotes, t);
      RankSorts(UpdatesAmong(local, remotes));
    }
    if AllClassified(remotes) && SameNameHarmless(local, remotes) {
      forall i, j | 0 <= i < j < |ranked|
        ensures !KindBefore(ranked[i].kind, ranked[j].kind)
                && (ranked[i].kind == ranked[j].kind ==> !Before(ranked[i], ranked[j]))
      {
        RankingIsGreatestFirst(local, remotes, i, j);
        KindsDecide(ranked[i], ranked[j]);
        if ranked[i].kind == ranked[j].kind && Before(ranked[i], ranked[j]) { LaterIsGreater(ranked[i], ranked[j]); }
      }
    }
  }

  lemma LaterIsGreater(a: Tag, b: Tag)
    requires a.kind == b.kind && Before(a, b)
    ensures Less(a, b)
  {
    BeforeIsLess(a, b);
  }

  // The selection itself, for a valid local tag.
  method SelectUpdates(local: Tag, remotes: seq<Tag>) returns (updates: seq<Update>, ghost ranked: seq<Tag>)
    requires IsValid(local)
    ensures ranked == Rank(UpdatesAmong(local, remotes))
    ensures |updates| == Min(|ranked|, MAX_UPDATES)
    ensures forall i :: 0 <= i < |updates| ==> updates[i] == Report(local, ranked[i])
  {
    updates, ranked := [], [];
    var compatible: seq<Tag> := [];
    for i := 0 to |remotes|
      invariant compatible == UpdatesAmong(local, remotes[..i])
    {
      var remote := remotes[i];
      assert remotes[..i + 1][..i] == remotes[..i];
      if local.kind == remote.kind { NewerIsGreater(local, remote); }
      if !IsValid(remote) { continue; }
      if local.name == remote.name {
        if DigestsEqual(local, remote) { continue; }
        if local.digest != "" && remote.digest != "" { compatible := compatible + [remote]; }
        continue;
      }
      if local.kind.Semver? && remote.kind.Semver? {
        if local.release.Some? && remote.release.Some? && Major(local) == Major(remote) && IsNewer(local, remote) {
          compatible := compatible + [remote];
        }
      } else if local.kind == remote.kind && IsNewer(local, remote) {
        compatible := compatible + [remote];
      }
    }
    assert remotes[..|remotes|] == remotes;

    var sorted := Rank(compatible);
    ranked := sorted;
    for i := 0 to Min(|sorted|, MAX_UPDATES)
      invariant |updates| == i && forall j :: 0 <= j < i ==> updates[j] == Report(local, sorted[j])
    {
      updates := updates + [Report(local, sorted[i])];
    }
  }

  lemma {:induction false} UpdatesAmongMeans(local: Tag, remotes: seq<Tag>)
    ensures forall t :: t in UpdatesAmong(local, remotes) <==> t in remotes && IsUpdate(local, t)
  {
    if remotes != [] {
      UpdatesAmongMeans(local, remotes[..|remotes| - 1]);
      assert remotes == remotes[..|remotes| - 1] + [remotes[|remotes| - 1]];
    }
  }

  // What can stand in the way of a ranking: only a remote tag of the local name can be
  // an update without a readable time.
  ghost predicate SameNameHarmless(local: Tag, remotes: seq<Tag>) {
    forall a, b, c {:trigger Harmless(a, b, c)} ::
      a in remotes && b in remotes && c in remotes && b.name == local.name ==> Harmless(a, b, c)
  }

  // The ranking lists exactly the updates among the remote tags, and no tag of it is
  // greater than one before it: the first ten are the greatest ten.
  lemma RankingIsGreatestFirst(local: Tag, remotes: seq<Tag>, i: nat, j: nat)
    requires AllClassified(remotes) && SameNameHarmless(local, remotes)
    requires i < j < |Rank(UpdatesAmong(local, remotes))|
    ensures var ranked := Rank(UpdatesAmong(local, remotes));
            && (forall t :: t in ranked <==> t in remotes && IsUpdate(local, t))
            && !Less(ranked[i], ranked[j])
  {
    var updates := UpdatesAmong(local, remotes);
    UpdatesAmongMeans(local, remotes);
    forall a, b, c | a in updates && b in updates && c in updates ensures Harmless(a, b, c) {
      assert b.name != local.name ==> WellFormed(b);
    }
    OrderIsWeakExactly(updates);
    RankSorts(updates);
    SortedPairs(Order(), Rank(updates), i, j);
  }
}
