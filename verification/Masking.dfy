// Masking of sensitive values: container logs in one pass that takes the leftmost match
// and there the longest value, exception texts value by value, longest first.
module Masking {
  import opened Common

  predicate OccursAt(v: string, t: string, p: nat) {
    p + |v| <= |t| && t[p..p + |v|] == v
  }

  // The text reads v from p on, character by character.
  ghost predicate Reads(v: string, t: string, p: nat) {
    p + |v| <= |t| && forall i :: 0 <= i < |v| ==> t[p + i] == v[i]
  }

  lemma OccurrenceReads(v: string, t: string, p: nat)
    ensures OccursAt(v, t, p) <==> Reads(v, t, p)
  {
    if p + |v| <= |t| {
      var part := t[p..p + |v|];
      forall i | 0 <= i < |v| ensures part[i] == t[p + i] {}
    }
  }

  predicate Occurs(v: string, t: string) {
    exists p :: 0 <= p <= |t| && OccursAt(v, t, p)
  }

  function Stars(n: nat): (s: string)
    ensures |s| == n && forall i :: 0 <= i < n ==> s[i] == '*'
  {
    seq(n, _ => '*')
  }

  // The length of the first value in the list that occurs at p, or 0.
  function MatchLength(values: seq<string>, t: string, p: nat): (n: nat)
    requires p <= |t|
    ensures p + n <= |t|
  {
    if values == [] then 0
    else if OccursAt(values[0], t, p) then |values[0]|
    else MatchLength(values[1..], t, p)
  }

  // One pass from position p on: every match is replaced by as many stars.
  function Mask(values: seq<string>, t: string, p: nat): (out: string)
    requires p <= |t|
    ensures |out| == |t| - p
    decreases |t| - p
  {
    if p == |t| then ""
    else
      var n := MatchLength(values, t, p);
      if n > 0 then Stars(n) + Mask(values, t, p + n)
      else [t[p]] + Mask(values, t, p + 1)
  }

  function ByLength(): (string, string) -> bool {
    (v, w) => |v| < |w|
  }

  function LongestFirst(values: seq<string>): seq<string> {
    Sort(ByLength(), values)
  }

  ghost predicate Descending(values: seq<string>) {
    Sorted(ByLength(), values)
  }

  // The non-empty values that occur in the text at all, each once.
  function Relevant(values: seq<string>, t: string): seq<string> {
    if values == [] then []
    else
      var rest := Relevant(values[1..], t);
      if values[0] != "" && values[0] !in rest && Occurs(values[0], t) then [values[0]] + rest else rest
  }

  // Container logs: without a user or a message nothing is masked.
  function SanitizeLogs(logs: string, known: bool, values: seq<string>): string {
    if !known then logs
    else
      var relevant := Relevant(values, logs);
      if relevant == [] then logs else Mask(LongestFirst(relevant), logs, 0)
  }

  lemma LongestIsFirst(values: seq<string>)
    requires Descending(values) && values != []
    ensures Descending(values[1..]) && forall v :: v in values ==> |v| <= |values[0]|
  {
    assert values == [values[0]] + values[1..];
  }

  lemma LongestFirstSorts(values: seq<string>)
    ensures Descending(LongestFirst(values))
    ensures forall v :: v in LongestFirst(values) <==> v in values
  {
    SortSorts(ByLength(), values);
  }

  lemma {:induction false} RelevantMeans(values: seq<string>, t: string)
    ensures forall v :: v in Relevant(values, t) <==> v in values && v != "" && Occurs(v, t)
  {
    if values != [] { RelevantMeans(values[1..], t); }
  }

  // A match is an occurrence, there is one wherever a value occurs, and in a list with
  // the longest first it is a longest one.
  lemma {:induction false} MatchMeans(values: seq<string>, t: string, p: nat)
    requires p <= |t| && "" !in values
    ensures MatchLength(values, t, p) > 0 <==> exists v :: v in values && OccursAt(v, t, p)
    ensures MatchLength(values, t, p) > 0 ==>
              exists v :: v in values && OccursAt(v, t, p) && |v| == MatchLength(values, t, p)
    ensures Descending(values) ==> forall v :: v in values && OccursAt(v, t, p) ==> |v| <= MatchLength(values, t, p)
  {
    if values != [] {
      MatchMeans(values[1..], t, p);
      assert values == [values[0]] + values[1..];
    }
  }

  // The output at one position, one step of the scan further.
  lemma MaskAt(values: seq<string>, t: string, p: nat, k: nat)
    requires p <= k < |t|
    ensures var n, out := MatchLength(values, t, p), Mask(values, t, p);
            && (k < p + n ==> out[k - p] == '*')
            && (n > 0 && p + n <= k ==> out[k - p] == Mask(values, t, p + n)[k - (p + n)])
            && (n == 0 && k == p ==> out[0] == t[p])
            && (n == 0 && p < k ==> out[k - p] == Mask(values, t, p + 1)[k - (p + 1)])
  {
  }

  // Position k of the text lies in an occurrence of some value.
  ghost predicate Covered(values: seq<string>, t: string, k: nat) {
    exists v, q :: v in values && 0 <= q <= k < q + |v| && OccursAt(v, t, q)
  }

  // The character at position k stays, or is starred inside an occurrence.
  ghost predicate Kept(values: seq<string>, t: string, k: nat, out: char)
    requires k < |t|
  {
    out == t[k] || (out == '*' && Covered(values, t, k))
  }

  // One step of the scan, as seen from one position.
  lemma ScanStep(values: seq<string>, t: string, p: nat, k: nat) returns (next: nat)
    requires p <= k < |t| && "" !in values
    ensures p < next <= |t|
    ensures k < next ==> Kept(values, t, k, Mask(values, t, p)[k - p])
    ensures next <= k ==> Mask(values, t, p)[k - p] == Mask(values, t, next)[k - next]
  {
    var n := MatchLength(values, t, p);
    next := if n > 0 then p + n else p + 1;
    MaskAt(values, t, p, k);
    if k < p + n { MatchCovers(values, t, p, k); }
  }

  lemma MatchCovers(values: seq<string>, t: string, p: nat, k: nat)
    requires p <= |t| && "" !in values && p <= k < p + MatchLength(values, t, p)
    ensures Covered(values, t, k)
  {
    MatchMeans(values, t, p);
    var v :| v in values && OccursAt(v, t, p) && |v| == MatchLength(values, t, p);
    assert p <= k < p + |v|;
  }

  // Only characters inside an occurrence are changed, and they become stars.
  lemma {:induction false} MaskChangesOnlyMatches(values: seq<string>, t: string, p: nat, k: nat)
    requires p <= k < |t| && "" !in values
    ensures Kept(values, t, k, Mask(values, t, p)[k - p])
    decreases |t| - p
  {
    var next := ScanStep(values, t, p, k);
    if next <= k { MaskChangesOnlyMatches(values, t, next, k); }
  }

  // Wherever a value occurs in the text, the pass masks something of it: the scan either
  // stops there or has jumped into it.
  lemma {:induction false} OccurrenceIsTouched(values: seq<string>, t: string, p: nat, v: string, q: nat)
    returns (k: nat)
    requires p <= q <= |t| && "" !in values && v in values && OccursAt(v, t, q)
    ensures q <= k < q + |v| && Mask(values, t, p)[k - p] == '*'
    decreases |t| - p
  {
    var n := MatchLength(values, t, p);
    MatchMeans(values, t, p);
    assert v != "";
    if n > 0 && q < p + n {
      k := q;
    } else {
      k := OccurrenceIsTouched(values, t, if n > 0 then p + n else p + 1, v, q);
    }
    MaskAt(values, t, p, k);
  }

  // Between two texts of which the second only has more stars.
  ghost predicate OnlyMoreStars(t: string, out: string) {
    |out| == |t| && forall k :: 0 <= k < |t| ==> out[k] == t[k] || out[k] == '*'
  }

  // What shows after starring and holds no star was there before.
  lemma OccurrenceWasThere(t: string, out: string, v: string, q: nat)
    requires OnlyMoreStars(t, out) && OccursAt(v, out, q)
    ensures OccursAt(v, t, q) || '*' in v
  {
    if t[q..q + |v|] != v {
      var i :| 0 <= i < |v| && t[q..q + |v|][i] != v[i];
      assert out[q..q + |v|][i] == out[q + i];
      assert v[i] == '*';
    }
  }

  lemma MaskOnlyStars(values: seq<string>, t: string)
    requires "" !in values
    ensures OnlyMoreStars(t, Mask(values, t, 0))
  {
    forall k | 0 <= k < |t| ensures Mask(values, t, 0)[k] == t[k] || Mask(values, t, 0)[k] == '*' {
      MaskChangesOnlyMatches(values, t, 0, k);
    }
  }

  // A value that still occurs after the pass contains a star itself.
  lemma SurvivorHasStar(values: seq<string>, t: string, v: string, q: nat)
    requires "" !in values && v in values && OccursAt(v, Mask(values, t, 0), q)
    ensures '*' in v
  {
    var out := Mask(values, t, 0);
    MaskOnlyStars(values, t);
    OccurrenceWasThere(t, out, v, q);
    if OccursAt(v, t, q) {
      var k := OccurrenceIsTouched(values, t, 0, v, q);
      assert v[k - q] == out[q..q + |v|][k - q] == out[k];
    }
  }

  // Logs: the output is as long as the text, differs from it only inside occurrences of
  // the values, where it shows stars, and no value free of stars is left in it.
  lemma LogsShowNoValue(logs: string, values: seq<string>)
    ensures var out := SanitizeLogs(logs, true, values);
            && |out| == |logs|
            && (forall k :: 0 <= k < |logs| && out[k] != logs[k] ==> out[k] == '*' && Covered(values, logs, k))
            && (forall v :: v in values && v != "" && '*' !in v ==> !Occurs(v, out))
  {
    var relevant := Relevant(values, logs);
    var sorted := LongestFirst(relevant);
    var out := SanitizeLogs(logs, true, values);
    RelevantMeans(values, logs);
    LongestFirstSorts(relevant);
    if relevant != [] {
      forall k | 0 <= k < |logs| ensures out[k] == logs[k] || (out[k] == '*' && Covered(values, logs, k)) {
        MaskChangesOnlyMatches(sorted, logs, 0, k);
        assert Covered(sorted, logs, k) ==> Covered(values, logs, k);
      }
      MaskOnlyStars(sorted, logs);
      forall v, q | v in values && v != "" && OccursAt(v, out, q) ensures '*' in v {
        OccurrenceWasThere(logs, out, v, q);
        if v in sorted { SurvivorHasStar(sorted, logs, v, q); }
      }
    }
  }

  // The text with every star replaced by some other character.
  function Hidden(v: string, c: char): string {
    seq(|v|, i requires 0 <= i < |v| => if v[i] == '*' then c else v[i])
  }

  lemma {:induction false} MaskingUncovers(v: string, c: char, p: nat)
    requires p <= |v| && c !in v
    ensures Mask([[c]], Hidden(v, c), p) == v[p..]
    decreases |v| - p
  {
    var t := Hidden(v, c);
    if p < |v| {
      MaskingUncovers(v, c, p + 1);
      assert t[p..p + 1] == [t[p]];
      assert MatchLength([[c]], t, p) == if v[p] == '*' then 1 else 0;
    }
  }

  // The condition matters, and is exact: a value can be left in some output, next to some
  // other values, precisely if it holds a star itself.
  lemma SurvivesIffStarred(v: string, c: char)
    requires v != "" && c !in v
    ensures (exists logs, values :: v in values && Occurs(v, SanitizeLogs(logs, true, values))) <==> '*' in v
  {
    if '*' !in v {
      forall logs, values | v in values ensures !Occurs(v, SanitizeLogs(logs, true, values)) {
        LogsShowNoValue(logs, values);
      }
    } else {
      var k :| 0 <= k < |v| && v[k] == '*';
      var t, values := Hidden(v, c), [v, [c]];
      assert t[k..k + 1] == [c];
      assert OccursAt([c], t, k);
      forall p: nat | p + |v| <= |t| ensures !OccursAt(v, t, p) { assert t[p..p + |v|][k] == t[p + k] != '*'; }
      assert Relevant([[c]], t) == [[c]] by { assert Relevant([[c]][1..], t) == []; }
      assert values[1..] == [[c]];
      assert Relevant(values, t) == [[c]];
      LongestOfOne([c]);
      MaskingUncovers(v, c, 0);
      assert SanitizeLogs(t, true, values) == v;
      assert OccursAt(v, v, 0);
    }
  }

  lemma LongestOfOne(v: string)
    ensures LongestFirst([v]) == [v]
  {
    assert [v][..0] == [];
    assert Sort(ByLength(), [v][..0]) == [];
  }

  // Exception texts: one pass per secret.
  function MaskEach(secrets: seq<string>, t: string): string {
    if secrets == [] then t else MaskEach(secrets[1..], Mask([secrets[0]], t, 0))
  }

  lemma {:induction false} MaskEachOnlyStars(secrets: seq<string>, t: string)
    requires "" !in secrets
    ensures OnlyMoreStars(t, MaskEach(secrets, t))
  {
    if secrets != [] {
      MaskOnlyStars([secrets[0]], t);
      MaskEachOnlyStars(secrets[1..], Mask([secrets[0]], t, 0));
    }
  }

  // A secret that is left at the end contains a star: its own pass left none, and later
  // passes, which only add stars, cannot bring it back.
  lemma {:induction false} LeftoverHasStar(secrets: seq<string>, t: string, v: string, q: nat)
    requires "" !in secrets && v in secrets && OccursAt(v, MaskEach(secrets, t), q)
    ensures '*' in v
  {
    var once := Mask([secrets[0]], t, 0);
    if v == secrets[0] {
      MaskEachOnlyStars(secrets[1..], once);
      OccurrenceWasThere(once, MaskEach(secrets, t), v, q);
      if OccursAt(v, once, q) { SurvivorHasStar([v], t, v, q); }
    } else {
      LeftoverHasStar(secrets[1..], once, v, q);
    }
  }

  // Every occurrence that starts before q has ended by q.
  ghost predicate NothingRunsInto(values: seq<string>, t: string, q: nat) {
    forall u, r: nat {:trigger OccursAt(u, t, r)} :: u in values && r < q && OccursAt(u, t, r) ==> r + |u| <= q
  }

  // No match that the scan can take from p on jumps over q.
  ghost predicate NoJumpOver(values: seq<string>, t: string, p: nat, q: nat)
    requires q <= |t|
  {
    forall r :: p <= r < q ==> r + MatchLength(values, t, r) <= q
  }

  lemma {:induction false} ReachedMatchIsMasked(values: seq<string>, t: string, p: nat, q: nat, k: nat)
    requires p <= q < |t| && NoJumpOver(values, t, p, q)
    requires q <= k < q + MatchLength(values, t, q)
    ensures Mask(values, t, p)[k - p] == '*'
    decreases |t| - p
  {
    if p == q {
      MaskAt(values, t, p, k);
    } else {
      var next := SkipTo(values, t, p, k, q);
      ReachedMatchIsMasked(values, t, next, q, k);
    }
  }

  // The scan goes on at or before q.
  lemma SkipTo(values: seq<string>, t: string, p: nat, k: nat, q: nat) returns (next: nat)
    requires p < q <= k < |t| && p + MatchLength(values, t, p) <= q
    ensures p < next <= q && Mask(values, t, p)[k - p] == Mask(values, t, next)[k - next]
  {
    var n := MatchLength(values, t, p);
    next := if n > 0 then p + n else p + 1;
    MaskAt(values, t, p, k);
  }

  // In one pass with the longest value first, an occurrence that none before it runs
  // into is masked to its end.
  lemma FirstOccurrenceIsMasked(values: seq<string>, t: string, v: string, q: nat, k: nat)
    requires "" !in values && Descending(values) && v in values && OccursAt(v, t, q)
    requires q <= k < q + |v| && NothingRunsInto(values, t, q)
    ensures Mask(values, t, 0)[k] == '*'
  {
    forall r | 0 <= r < q ensures r + MatchLength(values, t, r) <= q {
      MatchMeans(values, t, r);
    }
    MatchMeans(values, t, q);
    ReachedMatchIsMasked(values, t, 0, q, k);
  }

  // In the logs, too, a value that no occurrence of another runs into is masked to its end:
  // of the values that occur at one place the longest counts.
  lemma LogsMaskWhole(logs: string, values: seq<string>, v: string, q: nat, k: nat)
    requires v in values && OccursAt(v, logs, q) && q <= k < q + |v| && NothingRunsInto(values, logs, q)
    ensures SanitizeLogs(logs, true, values)[k] == '*'
  {
    LogsShowNoValue(logs, values);
    var relevant := Relevant(values, logs);
    RelevantMeans(values, logs);
    LongestFirstSorts(relevant);
    assert Occurs(v, logs);
    FirstOccurrenceIsMasked(LongestFirst(relevant), logs, v, q, k);
  }

  // Logs: without a user or a message nothing changes.  Otherwise the text keeps its length,
  // changes only inside occurrences of values, where it shows stars, no value free of stars
  // is left, and an occurrence that no other one runs into is stars to its end.
  lemma LogsAreMasked(logs: string, values: seq<string>)
    ensures SanitizeLogs(logs, false, values) == logs
    ensures var out := SanitizeLogs(logs, true, values);
            && |out| == |logs|
            && (forall k :: 0 <= k < |logs| && out[k] != logs[k] ==>
                  out[k] == '*' && exists v, q :: v in values && 0 <= q <= k < q + |v| && Reads(v, logs, q))
            && (forall v, q: nat :: v in values && v != "" && '*' !in v ==> !Reads(v, out, q))
            && (forall v, q: nat, k: nat {:trigger Reads(v, logs, q), out[k]} ::
                  v in values && Reads(v, logs, q) && q <= k < q + |v|
                  && (forall u, p: nat :: u in values && p < q && Reads(u, logs, p) ==> p + |u| <= q) ==>
                    out[k] == '*')
  {
    var out := SanitizeLogs(logs, true, values);
    LogsShowNoValue(logs, values);
    forall v, q: nat
      ensures (OccursAt(v, logs, q) <==> Reads(v, logs, q)) && (OccursAt(v, out, q) <==> Reads(v, out, q))
    {
      OccurrenceReads(v, logs, q);
      OccurrenceReads(v, out, q);
    }
    forall v, q: nat | v in values && v != "" && '*' !in v ensures !Reads(v, out, q) {
      assert OccursAt(v, out, q) ==> Occurs(v, out);
    }
    forall k | 0 <= k < |logs| && out[k] != logs[k]
      ensures exists v, q :: v in values && 0 <= q <= k < q + |v| && Reads(v, logs, q)
    {
      var v, q :| v in values && 0 <= q <= k < q + |v| && OccursAt(v, logs, q);
      assert Reads(v, logs, q);
    }
    forall v, q: nat, k: nat | v in values && Reads(v, logs, q) && q <= k < q + |v|
                     && (forall u, p: nat :: u in values && p < q && Reads(u, logs, p) ==> p + |u| <= q)
      ensures out[k] == '*'
    {
      LogsMaskWhole(logs, values, v, q, k);
    }
  }

  // No other occurrence of a secret at least as long overlaps the one of v at q.
  ghost predicate Alone(secrets: seq<string>, t: string, v: string, q: nat) {
    forall u, r: nat {:trigger OccursAt(u, t, r)} ::
      u in secrets && |u| >= |v| && r < q + |v| && q < r + |u| && OccursAt(u, t, r) ==> u == v && r == q
  }

  // This is what going from the longest to the shortest is for: no shorter secret can
  // break up a longer one, so that an occurrence that stands alone is masked entirely.
  lemma {:induction false} LongestFirstMasksWhole(secrets: seq<string>, t: string, v: string, q: nat, k: nat)
    requires "" !in secrets && Descending(secrets) && v in secrets
    requires forall u :: u in secrets && |u| >= |v| ==> '*' !in u
    requires OccursAt(v, t, q) && Alone(secrets, t, v, q) && q <= k < q + |v|
    ensures |MaskEach(secrets, t)| == |t| && MaskEach(secrets, t)[k] == '*'
  {
    var u := secrets[0];
    var once := Mask([u], t, 0);
    LongestIsFirst(secrets);
    MaskOnlyStars([u], t);
    MaskEachOnlyStars(secrets[1..], once);
    if u == v {
      assert NothingRunsInto([v], t, q);
      FirstOccurrenceIsMasked([v], t, v, q, k);
    } else {
      forall i | q <= i < q + |v| ensures once[i] == t[i] {
        MaskChangesOnlyMatches([u], t, 0, i);
      }
      assert once[q..q + |v|] == t[q..q + |v|];
      forall w, r: nat | w in secrets[1..] && |w| >= |v| && r < q + |v| && q < r + |w| && OccursAt(w, once, r)
        ensures w == v && r == q
      {
        OccurrenceWasThere(t, once, w, r);
      }
      LongestFirstMasksWhole(secrets[1..], once, v, q, k);
    }
  }

  // The secrets that are not blank, each once, and then one replacement per secret, from
  // the longest to the shortest.  What counts as a blank is left open.  The text keeps its
  // length; whatever changes becomes a star and lies where a secret can be read; no secret
  // is left that is free of stars; and a reading that stands alone is stars entirely.
  method SanitizeException(message: string, secrets: seq<string>, blank: char -> bool) returns (out: string)
    ensures out == MaskEach(LongestFirst(NotBlank(secrets, blank)), message)
    ensures |out| == |message|
    ensures forall k :: 0 <= k < |out| && out[k] != message[k] ==>
              out[k] == '*'
              && exists v, q :: IsSecret(secrets, v, blank) && 0 <= q <= k < q + |v| && MayRead(v, message, q)
    ensures forall v, q: nat :: IsSecret(secrets, v, blank) && '*' !in v ==> !Reads(v, out, q)
    ensures forall v, q: nat, k: nat {:trigger Reads(v, message, q), out[k]} ::
              IsSecret(secrets, v, blank) && Reads(v, message, q) && q <= k < q + |v|
              && StandsAlone(secrets, message, v, q) ==>
                out[k] == '*'
  {
    var toMask: seq<string> := [];
    for i := 0 to |secrets|
      invariant toMask == NotBlank(secrets[..i], blank)
    {
      assert secrets[..i + 1][..i] == secrets[..i];
      if !AllBlank(secrets[i], blank) && secrets[i] !in toMask { toMask := toMask + [secrets[i]]; }
    }
    assert secrets[..|secrets|] == secrets;
    var sorted := LongestFirst(toMask);
    out := message;
    for i := 0 to |sorted|
      invariant MaskEach(sorted[i..], out) == MaskEach(sorted, message)
    {
      assert sorted[i..][1..] == sorted[i + 1..];
      out := Mask([sorted[i]], out, 0);
    }
    ExceptionsAreMasked(message, secrets, blank);
    forall k | 0 <= k < |out|
      ensures out[k] == message[k]
              || (out[k] == '*'
                  && exists v, q :: IsSecret(secrets, v, blank) && 0 <= q <= k < q + |v| && MayRead(v, message, q))
    {
      OnlyReadingsChange(message, secrets, blank, k);
    }
    forall v, q: nat | IsSecret(secrets, v, blank) && '*' !in v ensures !Reads(v, out, q) {
      NoSecretIsLeft(message, secrets, blank, v, q);
    }
    forall v, q: nat, k: nat | IsSecret(secrets, v, blank) && Reads(v, message, q) && q <= k < q + |v|
                               && StandsAlone(secrets, message, v, q)
      ensures out[k] == '*'
    {
      AloneIsMasked(message, secrets, blank, v, q, k);
    }
  }

  // The text reads v at q, as far as v holds no stars.
  ghost predicate MayRead(v: string, t: string, q: nat) {
    q + |v| <= |t| && forall i :: 0 <= i < |v| ==> v[i] == '*' || t[q + i] == v[i]
  }

  // Whatever becomes a star lies where some secret could be read.
  lemma {:induction false} EachChangesOnlyReadings(secrets: seq<string>, message: string, t: string, k: nat)
    requires "" !in secrets && OnlyMoreStars(message, t) && k < |t|
    ensures |MaskEach(secrets, t)| == |t|
    ensures MaskEach(secrets, t)[k] != t[k] ==>
              exists v, q :: v in secrets && 0 <= q <= k < q + |v| && MayRead(v, message, q)
  {
    if secrets != [] {
      var once := Mask([secrets[0]], t, 0);
      MaskOnlyStars([secrets[0]], t);
      EachChangesOnlyReadings(secrets[1..], message, once, k);
      MaskChangesOnlyMatches([secrets[0]], t, 0, k);
      if once[k] != t[k] {
        var v, q :| v in [secrets[0]] && 0 <= q <= k < q + |v| && OccursAt(v, t, q);
        forall i | 0 <= i < |v| ensures v[i] == '*' || message[q + i] == v[i] {
          assert t[q..q + |v|][i] == t[q + i];
        }
        assert MayRead(v, message, q) && v in secrets;
      }
    }
  }

  // Worth masking: not blank throughout.
  ghost predicate IsSecret(secrets: seq<string>, v: string, blank: char -> bool) {
    v in secrets && exists c :: c in v && !blank(c)
  }

  // No other reading of a secret at least as long overlaps the one of v at q, and none of
  // these secrets holds a star.
  ghost predicate StandsAlone(secrets: seq<string>, t: string, v: string, q: nat) {
    && (forall u :: u in secrets && |u| >= |v| ==> '*' !in u)
    && (forall u, p: nat {:trigger Reads(u, t, p)} ::
          (u in secrets && |u| >= |v| && p < q + |v| && q < p + |u| && Reads(u, t, p)) ==> u == v && p == q)
  }

  lemma AloneIsMasked(message: string, secrets: seq<string>, blank: char -> bool, v: string, q: nat, k: nat)
    requires IsSecret(secrets, v, blank) && Reads(v, message, q) && q <= k < q + |v|
    requires StandsAlone(secrets, message, v, q)
    ensures |MaskEach(LongestFirst(NotBlank(secrets, blank)), message)| == |message|
    ensures MaskEach(LongestFirst(NotBlank(secrets, blank)), message)[k] == '*'
  {
    var sorted := LongestFirst(NotBlank(secrets, blank));
    NotBlankMeans(secrets, blank);
    LongestFirstSorts(NotBlank(secrets, blank));
    OccurrenceReads(v, message, q);
    forall u, r: nat | u in sorted && |u| >= |v| && r < q + |v| && q < r + |u| && OccursAt(u, message, r)
      ensures u == v && r == q
    {
      OccurrenceReads(u, message, r);
    }
    LongestFirstMasksWhole(sorted, message, v, q, k);
  }

  lemma NoSecretIsLeft(message: string, secrets: seq<string>, blank: char -> bool, v: string, q: nat)
    requires IsSecret(secrets, v, blank) && '*' !in v
    ensures !Reads(v, MaskEach(LongestFirst(NotBlank(secrets, blank)), message), q)
  {
    var out := MaskEach(LongestFirst(NotBlank(secrets, blank)), message);
    ExceptionsAreMasked(message, secrets, blank);
    OccurrenceReads(v, out, q);
    assert OccursAt(v, out, q) ==> Occurs(v, out);
  }

  lemma OnlyReadingsChange(message: string, secrets: seq<string>, blank: char -> bool, k: nat)
    requires k < |message|
    ensures var out := MaskEach(LongestFirst(NotBlank(secrets, blank)), message);
            && |out| == |message|
            && (out[k] == message[k]
                || (out[k] == '*'
                    && exists v, q :: IsSecret(secrets, v, blank) && 0 <= q <= k < q + |v| && MayRead(v, message, q)))
  {
    var sorted := LongestFirst(NotBlank(secrets, blank));
    NotBlankMeans(secrets, blank);
    LongestFirstSorts(NotBlank(secrets, blank));
    ExceptionsAreMasked(message, secrets, blank);
    EachChangesOnlyReadings(sorted, message, message, k);
    if MaskEach(sorted, message)[k] != message[k] {
      var v, q :| v in sorted && 0 <= q <= k < q + |v| && MayRead(v, message, q);
      assert IsSecret(secrets, v, blank);
    }
  }

  predicate AllBlank(s: string, blank: char -> bool) {
    forall i :: 0 <= i < |s| ==> blank(s[i])
  }

  function NotBlank(secrets: seq<string>, blank: char -> bool): seq<string> {
    if secrets == [] then []
    else
      var before := NotBlank(secrets[..|secrets| - 1], blank);
      var last := secrets[|secrets| - 1];
      if !AllBlank(last, blank) && last !in before then before + [last] else before
  }

  lemma {:induction false} NotBlankMeans(secrets: seq<string>, blank: char -> bool)
    ensures forall v :: v in NotBlank(secrets, blank) <==> v in secrets && !AllBlank(v, blank)
  {
    if secrets != [] {
      NotBlankMeans(secrets[..|secrets| - 1], blank);
      assert secrets == secrets[..|secrets| - 1] + [secrets[|secrets| - 1]];
    }
  }

  // Exceptions: the text keeps its length, only gains stars, and no secret free of stars
  // is left, in whatever order the secrets overlap.
  lemma ExceptionsAreMasked(message: string, secrets: seq<string>, blank: char -> bool)
    ensures var out := MaskEach(LongestFirst(NotBlank(secrets, blank)), message);
            && OnlyMoreStars(message, out)
            && (forall v :: v in secrets && !AllBlank(v, blank) && '*' !in v ==> !Occurs(v, out))
  {
    var sorted := LongestFirst(NotBlank(secrets, blank));
    var out := MaskEach(sorted, message);
    NotBlankMeans(secrets, blank);
    LongestFirstSorts(NotBlank(secrets, blank));
    MaskEachOnlyStars(sorted, message);
    forall v, q | v in sorted && OccursAt(v, out, q) ensures '*' in v {
      LeftoverHasStar(sorted, message, v, q);
    }
  }

  lemma {:induction false} NothingToMask(v: string, t: string, p: nat)
    requires p <= |t| && v != "" && forall q: nat :: q <= |t| ==> !OccursAt(v, t, q)
    ensures Mask([v], t, p) == t[p..]
    decreases |t| - p
  {
    if p < |t| {
      NothingToMask(v, t, p + 1);
      assert MatchLength([v], t, p) == 0;
    }
  }

  // The condition is exact here, too.
  lemma SecretSurvivesIffStarred(v: string, c: char, blank: char -> bool)
    requires !AllBlank(v, blank) && c !in v && !blank(c)
    ensures (exists message, secrets :: v in secrets
              && Occurs(v, MaskEach(LongestFirst(NotBlank(secrets, blank)), message))) <==> '*' in v
  {
    if '*' !in v {
      forall message, secrets | v in secrets
        ensures !Occurs(v, MaskEach(LongestFirst(NotBlank(secrets, blank)), message))
      {
        ExceptionsAreMasked(message, secrets, blank);
      }
    } else {
      UncoveredSecret(v, c, blank);
      assert OccursAt(v, v, 0) && v in [v, [c]];
    }
  }

  // Masking the replacement alone brings the secret to light.
  lemma UncoveredSecret(v: string, c: char, blank: char -> bool)
    requires !AllBlank(v, blank) && c !in v && !blank(c) && '*' in v
    ensures MaskEach(LongestFirst(NotBlank([v, [c]], blank)), Hidden(v, c)) == v
  {
    var k :| 0 <= k < |v| && v[k] == '*';
    var t := Hidden(v, c);
    forall p: nat | p + |v| <= |t| ensures !OccursAt(v, t, p) { assert t[p..p + |v|][k] == t[p + k] != '*'; }
    TwoSecrets(v, c, blank);
    NothingToMask(v, t, 0);
    assert Mask([v], t, 0) == t;
    MaskingUncovers(v, c, 0);
    assert [v, [c]][1..] == [[c]] && [[c]][1..] == [];
    assert MaskEach([[c]], t) == v;
  }

  lemma TwoSecrets(v: string, c: char, blank: char -> bool)
    requires !AllBlank(v, blank) && c !in v && !blank(c)
    ensures NotBlank([v, [c]], blank) == LongestFirst([v, [c]]) == [v, [c]]
  {
    LongestOfOne(v);
    assert [v, [c]][..1] == [v] && [v][..0] == [];
    assert NotBlank([v][..0], blank) == [];
    assert !AllBlank([c], blank) by { assert [c][0] == c; }
    assert NotBlank([v], blank) == [v];
    assert [c] != v by { assert [c][0] == c; }
    assert Insert(ByLength(), [c], [v]) == [v] + Insert(ByLength(), [c], []);
  }
}
