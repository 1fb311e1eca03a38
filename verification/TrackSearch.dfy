/**
 The track limiter of the track search: keeps the tracks whose names sort
 first, and one more.  A track is named by its first metadata item; names are
 ordered byte by byte.  An index out of range, which the code reaches when it
 compares a track without metadata, is modelled by the result `ok`.
 */
module TrackSearch {
  import opened Common

  datatype Track = Track(id: string, registryId: string, metadata: seq<string>)

  predicate Named(t: Track) {
    t.metadata != []
  }

  function Name(t: Track): (n: string) {
    if Named(t) then t.metadata[0] else ""
  }

  function Id(t: Track): (id: string) {
    t.id
  }

  // ---------- the order of names ----------

  predicate Less(a: string, b: string) {
    b != [] && (a == [] || a[0] < b[0] || (a[0] == b[0] && Less(a[1..], b[1..])))
  }

  predicate Leq(a: string, b: string) {
    !Less(b, a)
  }

  lemma {:induction false} LessIsStrict(a: string, b: string)
    ensures !(Less(a, b) && Less(b, a))
    ensures Less(a, b) || Less(b, a) || a == b
  {
    if a != [] && b != [] {
      LessIsStrict(a[1..], b[1..]);
      assert a == [a[0]] + a[1..] && b == [b[0]] + b[1..];
    }
  }

  lemma {:induction false} LessIsTransitive(a: string, b: string, c: string)
    requires Less(a, b) && Less(b, c)
    ensures Less(a, c)
  {
    if a != [] {
      if a[0] == b[0] == c[0] {
        LessIsTransitive(a[1..], b[1..], c[1..]);
      }
    }
  }

  lemma LeqIsTotalOrder(a: string, b: string, c: string)
    ensures Leq(a, a)
    ensures Leq(a, b) || Leq(b, a)
    ensures Leq(a, b) && Leq(b, a) ==> a == b
    ensures Leq(a, b) && Leq(b, c) ==> Leq(a, c)
  {
    LessIsStrict(a, a);
    LessIsStrict(a, b);
    LessIsStrict(b, c);
    LessIsStrict(a, c);
    if Leq(a, b) && Leq(b, c) && a != b && b != c {
      LessIsTransitive(a, b, c);
    }
  }

  /** The two agree up to position `i`, where the first has the smaller character. */
  ghost predicate SmallerAt(a: string, b: string, i: nat) {
    i < |a| && i < |b| && a[..i] == b[..i] && a[i] < b[i]
  }

  lemma SmallerBehind(a: string, b: string, i: nat)
    requires a != [] && b != [] && a[0] == b[0]
    ensures SmallerAt(a[1..], b[1..], i) <==> SmallerAt(a, b, i + 1)
  {
    if i < |a| - 1 && i < |b| - 1 {
      assert a[..i + 1] == [a[0]] + a[1..][..i] && b[..i + 1] == [b[0]] + b[1..][..i];
      assert a[..i + 1] == b[..i + 1] ==> a[..i + 1][1..] == b[..i + 1][1..];
    }
  }

  /**
   The order is that of dictionaries: a name is before another one exactly if it
   is a proper prefix of it, or has the smaller character where they first differ.
   */
  lemma {:induction false} LessIsByFirstDifference(a: string, b: string)
    ensures Less(a, b) <==> a < b || exists i: nat :: SmallerAt(a, b, i)
  {
    if a != [] && b != [] {
      if a[0] == b[0] {
        LessIsByFirstDifference(a[1..], b[1..]);
        assert a == [a[0]] + a[1..] && b == [b[0]] + b[1..];
        assert a < b <==> a[1..] < b[1..];
        if i: nat :| SmallerAt(a[1..], b[1..], i) {
          SmallerBehind(a, b, i);
        }
        if i: nat :| SmallerAt(a, b, i) {
          assert i > 0;
          SmallerBehind(a, b, i - 1);
        }
      } else {
        assert a[0] < b[0] ==> SmallerAt(a, b, 0);
        forall i: nat | SmallerAt(a, b, i) ensures a[0] < b[0] {
          assert i > 0 ==> a[..i][0] == b[..i][0];
        }
      }
    }
  }

  /** So a name may stand before another one exactly if it is a prefix of it, or that. */
  lemma LeqIsByFirstDifference(a: string, b: string)
    ensures Leq(a, b) <==> a <= b || exists i: nat :: SmallerAt(a, b, i)
  {
    LessIsStrict(a, b);
    LessIsByFirstDifference(a, b);
    if a == b {
      forall i: nat ensures !SmallerAt(a, b, i) {
      }
    }
  }

  lemma LeqTransitive(a: string, b: string, c: string)
    requires Leq(a, b) && Leq(b, c)
    ensures Leq(a, c)
  {
    LeqIsTotalOrder(a, b, c);
  }

  ghost predicate Sorted(ns: seq<string>) {
    forall i, j :: 0 <= i < j < |ns| ==> Leq(ns[i], ns[j])
  }

  function Names(ts: seq<Track>): (ns: seq<string>)
    ensures |ns| == |ts| && forall i :: 0 <= i < |ts| ==> ns[i] == Name(ts[i])
  {
    seq(|ts|, i requires 0 <= i < |ts| => Name(ts[i]))
  }

  // ---------- sorted sequences ----------

  lemma HeadIsLeast(ns: seq<string>, bag: multiset<string>)
    requires Sorted(ns) && ns != [] && multiset(ns) == bag
    ensures ns[0] in bag && forall x :: x in bag ==> Leq(ns[0], x)
  {
    forall x | x in bag ensures Leq(ns[0], x) {
      var i :| 0 <= i < |ns| && ns[i] == x;
      LeqIsTotalOrder(ns[0], x, x);
    }
  }

  /** Two sorted sequences of the same names are the same. */
  lemma {:induction false} SortedIsUnique(a: seq<string>, b: seq<string>)
    requires Sorted(a) && Sorted(b) && multiset(a) == multiset(b)
    ensures a == b
  {
    assert |a| == |multiset(a)| == |multiset(b)| == |b|;
    if a != [] {
      HeadIsLeast(a, multiset(a));
      HeadIsLeast(b, multiset(b));
      LeqIsTotalOrder(a[0], b[0], a[0]);
      assert a == [a[0]] + a[1..] && b == [b[0]] + b[1..];
      assert multiset(a[1..]) == multiset(a) - multiset{a[0]};
      assert multiset(b[1..]) == multiset(b) - multiset{b[0]};
      SortedIsUnique(a[1..], b[1..]);
    }
  }

  // ---------- permutations ----------

  /** How often a function takes a value on a sequence. */
  ghost function Times<T>(ts: seq<T>, f: T -> string, x: string): (n: nat) {
    if ts == [] then 0 else Times(ts[..|ts| - 1], f, x) + One(f(ts[|ts| - 1]) == x)
  }

  lemma {:induction false} TimesInConcat<T>(a: seq<T>, b: seq<T>, f: T -> string, x: string)
    ensures Times(a + b, f, x) == Times(a, f, x) + Times(b, f, x)
  {
    if b == [] {
      assert a + b == a;
    } else {
      var n := |b| - 1;
      assert (a + b)[..|a| + n] == a + b[..n] && (a + b)[|a| + n] == b[n];
      TimesInConcat(a, b[..n], f, x);
    }
  }

  lemma TimesWithout<T>(ts: seq<T>, f: T -> string, x: string, k: nat)
    requires k < |ts|
    ensures Times(ts, f, x) == Times(ts[..k] + ts[k + 1..], f, x) + One(f(ts[k]) == x)
  {
    var a, b, t := ts[..k], ts[k + 1..], ts[k];
    assert ts == (a + [t]) + b;
    TimesInConcat(a + [t], b, f, x);
    assert (a + [t])[..k] == a;
    TimesInConcat(a, b, f, x);
  }

  lemma MultisetWithout<T>(ts: seq<T>, k: nat)
    requires k < |ts|
    ensures multiset(ts[..k] + ts[k + 1..]) == multiset(ts) - multiset{ts[k]}
  {
    assert ts == ts[..k] + [ts[k]] + ts[k + 1..];
  }

  lemma IndexIn<T>(ts: seq<T>, t: T) returns (k: nat)
    requires t in multiset(ts)
    ensures k < |ts| && ts[k] == t
  {
    k :| 0 <= k < |ts| && ts[k] == t;
  }

  lemma WithoutSame<T>(a: seq<T>, b: seq<T>, n: nat, k: nat)
    requires multiset(a) == multiset(b) && n == |a| - 1 && k < |b| && b[k] == a[n]
    ensures multiset(a[..n]) == multiset(b[..k] + b[k + 1..])
  {
    MultisetWithout(b, k);
    MultisetWithout(a, n);
    assert a[..n] + a[n + 1..] == a[..n];
  }

  /** Reordering a sequence changes no frequency. */
  lemma {:induction false} TimesInPermutation<T>(a: seq<T>, b: seq<T>, f: T -> string, x: string)
    requires multiset(a) == multiset(b)
    ensures Times(a, f, x) == Times(b, f, x)
    decreases |a|
  {
    if a == [] {
      assert |b| == |multiset(b)| == 0;
    } else {
      var n := |a| - 1;
      var k := IndexIn(b, a[n]);
      WithoutSame(a, b, n, k);
      TimesInPermutation(a[..n], b[..k] + b[k + 1..], f, x);
      TimesWithout(b, f, x, k);
    }
  }

  lemma PermutedLength<T>(a: seq<T>, b: seq<T>)
    requires multiset(a) == multiset(b)
    ensures |a| == |b|
  {
    assert |a| == |multiset(a)| == |multiset(b)| == |b|;
  }

  lemma PermutedMember<T>(a: seq<T>, b: seq<T>, i: nat) returns (j: nat)
    requires multiset(a) == multiset(b) && i < |a|
    ensures j < |b| && b[j] == a[i]
  {
    assert a[i] in multiset(a);
    j := IndexIn(b, a[i]);
  }

  ghost predicate NoRepeats<T(!new)>(s: seq<T>) {
    forall i, j :: 0 <= i < j < |s| ==> s[i] != s[j]
  }

  lemma {:induction false} CountedOnce(s: seq<string>, x: string)
    requires NoRepeats(s)
    ensures multiset(s)[x] == if x in s then 1 else 0
  {
    if s != [] {
      var n := |s| - 1;
      CountedOnce(s[..n], x);
      assert s == s[..n] + [s[n]];
      assert forall y :: y in s[..n] <==> exists i :: 0 <= i < n && s[i] == y;
    }
  }

  /** Sequences without repeats over the same elements are permutations of each other. */
  lemma SameElements(a: seq<string>, b: seq<string>)
    requires NoRepeats(a) && NoRepeats(b) && forall x :: x in a <==> x in b
    ensures multiset(a) == multiset(b)
  {
    forall x ensures multiset(a)[x] == multiset(b)[x] {
      CountedOnce(a, x);
      CountedOnce(b, x);
    }
  }

  // ---------- the limiter ----------

  predicate HasId(ts: seq<Track>, id: string) {
    exists i :: 0 <= i < |ts| && ts[i].id == id
  }

  /** A full limiter turns away a track that sorts behind its last one. */
  predicate TurnsAway(max: nat, ts: seq<Track>, t: Track) {
    |ts| > max && Less(Name(ts[max]), Name(t))
  }

  function Replaced(ts: seq<Track>, t: Track): (r: seq<Track>)
    ensures |r| == |ts|
  {
    if ts == [] then [] else if ts[0].id == t.id then [t] + ts[1..] else [ts[0]] + Replaced(ts[1..], t)
  }

  /** The list with a new track, before it is sorted. */
  function Placed(max: nat, ts: seq<Track>, t: Track): (r: seq<Track>) {
    if |ts| > max then ts[max := t] else ts + [t]
  }

  /** What adding a named track does; which of several tracks with equal names comes first is left open. */
  ghost predicate Added(max: nat, ts: seq<Track>, t: Track, after: seq<Track>) {
    if TurnsAway(max, ts, t) then after == ts
    else if HasId(ts, t.id) then after == Replaced(ts, t)
    else multiset(after) == multiset(Placed(max, ts, t)) && Sorted(Names(after))
  }

  /** The code compares the name of a track that has none. */
  ghost predicate Panics(max: nat, ts: seq<Track>, t: Track) {
    && Named(t)
    && (|| (|ts| > max && !Named(ts[max]))
        || (!TurnsAway(max, ts, t) && !HasId(ts, t.id) && |Placed(max, ts, t)| > 1 && exists x :: x in Placed(max, ts, t) && !Named(x)))
  }

  class TrackLimiter {
    const max: nat
    var tracks: seq<Track>

    ghost predicate Valid()
      reads this
    {
      |tracks| <= max + 1
    }

    constructor (max: nat)
      ensures Valid() && this.max == max && tracks == []
    {
      this.max := max;
      tracks := [];
    }

    method Add(t: Track) returns (ok: bool)
      requires Valid()
      modifies this
      ensures Valid()
      ensures ok <==> !Panics(max, old(tracks), t)
      ensures ok && Named(t) ==> Added(max, old(tracks), t, tracks)
      ensures ok && !Named(t) ==>
                tracks == if HasId(old(tracks), t.id) then Replaced(old(tracks), t) else Placed(max, old(tracks), t)
    {
      if Named(t) && |tracks| > max {
        if !Named(tracks[max]) {
          return false;
        }
        if Less(Name(tracks[max]), Name(t)) {
          return true;
        }
      }
      for i := 0 to |tracks|
        invariant tracks == old(tracks)
        invariant forall j :: 0 <= j < i ==> tracks[j].id != t.id
      {
        if tracks[i].id == t.id {
          ReplacedAt(tracks, t, i);
          tracks := tracks[i := t];
          return true;
        }
      }
      if |tracks| > max {
        tracks := tracks[max := t];
      } else {
        tracks := tracks + [t];
      }
      if Named(t) {
        if |tracks| > 1 && exists x :: x in tracks && !Named(x) {
          return false;
        }
        tracks := SortByName(tracks);
      }
      return true;
    }

    /**
     Any additions to a fresh limiter.  Named tracks never make it panic, and
     if each identifier keeps its name it holds, sorted, the max + 1 first names
     of the distinct identifiers added.
     */
    method AddAll(adds: seq<Track>) returns (ok: bool, ghost lists: seq<seq<Track>>)
      requires Valid() && tracks == []
      modifies this
      ensures Valid()
      ensures AllNamed(adds) ==> ok && Run(max, adds, lists) && lists[|adds|] == tracks
      ensures Consistent(adds) ==>
                forall ids :: Ranking(Seen(adds), ids) ==>
                                && |tracks| == (if |ids| <= max then |ids| else max + 1)
                                && Names(tracks) == NamesIn(Seen(adds), ids)[..|tracks|]
    {
      lists := [[]];
      for i := 0 to |adds|
        invariant Valid() && Followed(max, adds[..i], lists, tracks)
      {
        assert adds[..i + 1] == adds[..i] + [adds[i]];
        ghost var before := tracks;
        ok := Add(adds[i]);
        if !ok {
          PanicsUnnamed(max, adds[..i], lists, before, adds[i], adds);
          return;
        }
        FollowedOn(max, adds[..i], lists, before, adds[i], tracks);
        lists := lists + [tracks];
      }
      ok := true;
      assert adds[..|adds|] == adds;
      if Consistent(adds) {
        forall ids | Ranking(Seen(adds), ids)
          ensures |tracks| == (if |ids| <= max then |ids| else max + 1) && Names(tracks) == NamesIn(Seen(adds), ids)[..|tracks|]
        {
          HoldsFirstNames(max, adds, lists, ids);
        }
      }
    }

    method GetTracks() returns (r: seq<Track>)
      requires Valid()
      ensures r <= tracks && |r| == if |tracks| < max then |tracks| else max
    {
      if |tracks| > max {
        return tracks[..max];
      }
      return tracks;
    }
  }

  lemma {:induction false} ReplacedAt(ts: seq<Track>, t: Track, i: nat)
    requires i < |ts| && ts[i].id == t.id && forall j :: 0 <= j < i ==> ts[j].id != t.id
    ensures Replaced(ts, t) == ts[i := t]
  {
    if i > 0 {
      ReplacedAt(ts[1..], t, i - 1);
    }
  }

  /** A sort by name, in place of the library's. */
  method SortByName(ts: seq<Track>) returns (r: seq<Track>)
    ensures |r| == |ts| && multiset(r) == multiset(ts) && Sorted(Names(r))
  {
    r := [];
    for i := 0 to |ts|
      invariant |r| == i && multiset(r) == multiset(ts[..i]) && Sorted(Names(r))
    {
      r := InsertByName(r, ts[i]);
      assert ts[..i + 1] == ts[..i] + [ts[i]];
    }
    assert ts[..|ts|] == ts;
  }

  method InsertByName(ts: seq<Track>, t: Track) returns (r: seq<Track>)
    requires Sorted(Names(ts))
    ensures |r| == |ts| + 1 && multiset(r) == multiset(ts) + multiset{t} && Sorted(Names(r))
  {
    var k := |ts|;
    while k > 0 && Less(Name(t), Name(ts[k - 1]))
      invariant 0 <= k <= |ts|
      invariant forall j :: k <= j < |ts| ==> Less(Name(t), Name(ts[j]))
    {
      k := k - 1;
    }
    InsertTrack(ts, k, t);
    InsertedMultiset(ts, k, t);
    r := ts[..k] + [t] + ts[k..];
  }

  lemma InsertSorted(ns: seq<string>, k: nat, x: string)
    requires k <= |ns| && Sorted(ns)
    requires forall i :: 0 <= i < k ==> Leq(ns[i], x)
    requires forall i :: k <= i < |ns| ==> Leq(x, ns[i])
    ensures Sorted(ns[..k] + [x] + ns[k..])
  {
    var s := ns[..k] + [x] + ns[k..];
    forall i, j | 0 <= i < j < |s| ensures Leq(s[i], s[j]) {
      assert s[i] == if i < k then ns[i] else if i == k then x else ns[i - 1];
      assert s[j] == if j < k then ns[j] else if j == k then x else ns[j - 1];
    }
  }

  lemma InsertTrack(r: seq<Track>, k: nat, t: Track)
    requires k <= |r| && Sorted(Names(r))
    requires k > 0 ==> Leq(Name(r[k - 1]), Name(t))
    requires forall j :: k <= j < |r| ==> Less(Name(t), Name(r[j]))
    ensures Sorted(Names(r[..k] + [t] + r[k..]))
  {
    var ns := Names(r);
    forall i | 0 <= i < k ensures Leq(ns[i], Name(t)) {
      if i < k - 1 {
        LeqTransitive(ns[i], ns[k - 1], Name(t));
      }
    }
    forall i | k <= i < |ns| ensures Leq(Name(t), ns[i]) {
      LessIsStrict(Name(t), Name(r[i]));
    }
    InsertSorted(ns, k, Name(t));
    assert Names(r[..k] + [t] + r[k..]) == ns[..k] + [Name(t)] + ns[k..];
  }

  lemma InsertedMultiset(r: seq<Track>, k: nat, t: Track)
    requires k <= |r|
    ensures multiset(r[..k] + [t] + r[k..]) == multiset(r) + multiset{t}
  {
    assert r == r[..k] + r[k..];
  }

  // ---------- what the limiter holds ----------

  function Ids(ts: seq<Track>): (ids: seq<string>)
    ensures |ids| == |ts| && forall i :: 0 <= i < |ts| ==> ids[i] == ts[i].id
  {
    seq(|ts|, i requires 0 <= i < |ts| => ts[i].id)
  }

  lemma HasIdIsIn(ts: seq<Track>, id: string)
    ensures HasId(ts, id) <==> id in Ids(ts)
  {
    assert forall i :: 0 <= i < |ts| ==> Ids(ts)[i] == ts[i].id;
  }

  /** The name under which each identifier was added. */
  function Seen(adds: seq<Track>): (m: map<string, string>) {
    if adds == [] then map[] else Seen(adds[..|adds| - 1])[adds[|adds| - 1].id := Name(adds[|adds| - 1])]
  }

  /** Every track is named, and an identifier always carries the same name. */
  ghost predicate Consistent(adds: seq<Track>) {
    && (forall i :: 0 <= i < |adds| ==> Named(adds[i]))
    && (forall i, j :: 0 <= i < j < |adds| && adds[i].id == adds[j].id ==> Name(adds[i]) == Name(adds[j]))
  }

  /** Full, with a last name that is not behind `x`. */
  ghost predicate Excludes(max: nat, ts: seq<Track>, x: string) {
    |ts| == max + 1 && Leq(Name(ts[max]), x)
  }

  ghost predicate Agrees(seen: map<string, string>, ts: seq<Track>) {
    forall i :: 0 <= i < |ts| ==> ts[i].id in seen && seen[ts[i].id] == Name(ts[i])
  }

  /** Whatever was seen is held, or is behind all that is held. */
  ghost predicate Covers(max: nat, seen: map<string, string>, ts: seq<Track>) {
    forall id :: id in seen ==> HasId(ts, id) || Excludes(max, ts, seen[id])
  }

  /** The limiter holds distinct tracks among those seen, sorted by name, and no other seen is before any of them. */
  ghost predicate Holds(max: nat, seen: map<string, string>, ts: seq<Track>) {
    && |ts| <= max + 1 && NoRepeats(Ids(ts)) && Sorted(Names(ts))
    && Agrees(seen, ts) && Covers(max, seen, ts)
  }

  /** A track turned away is behind all the limiter holds. */
  lemma TurnedAwayKeeps(max: nat, seen: map<string, string>, ts: seq<Track>, t: Track)
    requires Holds(max, seen, ts) && TurnsAway(max, ts, t) && (t.id in seen ==> seen[t.id] == Name(t))
    ensures Holds(max, seen[t.id := Name(t)], ts)
  {
    LessIsStrict(Name(ts[max]), Name(t));
    assert Excludes(max, ts, Name(t));
  }

  lemma FirstWithId(ts: seq<Track>, id: string) returns (i: nat)
    requires HasId(ts, id)
    ensures i < |ts| && ts[i].id == id && forall j :: 0 <= j < i ==> ts[j].id != id
  {
    i := 0;
    while ts[i].id != id
      invariant i < |ts| && forall j :: 0 <= j < i ==> ts[j].id != id
      invariant exists j :: i <= j < |ts| && ts[j].id == id
      decreases |ts| - i
    {
      i := i + 1;
    }
  }

  /** A track that is held already takes its own place. */
  lemma ReplacedKeeps(max: nat, seen: map<string, string>, ts: seq<Track>, t: Track)
    requires Holds(max, seen, ts) && HasId(ts, t.id) && (t.id in seen ==> seen[t.id] == Name(t))
    ensures Holds(max, seen[t.id := Name(t)], Replaced(ts, t))
  {
    var i := FirstWithId(ts, t.id);
    ReplacedAt(ts, t, i);
    assert seen[t.id := Name(t)] == seen;
    SameNamesAndIds(max, seen, ts, ts[i := t]);
  }

  lemma SameNamesAndIds(max: nat, seen: map<string, string>, ts: seq<Track>, ts': seq<Track>)
    requires Holds(max, seen, ts) && |ts'| == |ts|
    requires forall i :: 0 <= i < |ts| ==> ts'[i].id == ts[i].id && Name(ts'[i]) == Name(ts[i])
    ensures Holds(max, seen, ts')
  {
    assert Names(ts') == Names(ts) && Ids(ts') == Ids(ts);
    forall id | HasId(ts, id) ensures HasId(ts', id) {
      var i :| 0 <= i < |ts| && ts[i].id == id;
      assert ts'[i].id == id;
    }
  }

  lemma {:induction false} TimesOfId(ts: seq<Track>, x: string)
    ensures multiset(Ids(ts))[x] == Times(ts, Id, x)
  {
    if ts != [] {
      TimesOfId(ts[..|ts| - 1], x);
      assert Ids(ts) == Ids(ts[..|ts| - 1]) + [ts[|ts| - 1].id];
    }
  }

  lemma {:induction false} OnceIsNoRepeats(s: seq<string>)
    requires forall x :: multiset(s)[x] <= 1
    ensures NoRepeats(s)
  {
    if s != [] {
      var n := |s| - 1;
      assert s == s[..n] + [s[n]];
      assert forall x :: multiset(s)[x] == multiset(s[..n])[x] + multiset{s[n]}[x];
      OnceIsNoRepeats(s[..n]);
      assert multiset(s[..n])[s[n]] == 0;
      assert s[n] !in s[..n];
    }
  }

  lemma PermutedDistinct(a: seq<Track>, b: seq<Track>)
    requires multiset(a) == multiset(b) && NoRepeats(Ids(a))
    ensures NoRepeats(Ids(b))
  {
    forall x ensures multiset(Ids(b))[x] <= 1 {
      TimesInPermutation(a, b, Id, x);
      TimesOfId(a, x);
      TimesOfId(b, x);
      CountedOnce(Ids(a), x);
    }
    OnceIsNoRepeats(Ids(b));
  }

  lemma PermutedIds(a: seq<Track>, b: seq<Track>, id: string)
    requires multiset(a) == multiset(b) && HasId(a, id)
    ensures HasId(b, id)
  {
    var i :| 0 <= i < |a| && a[i].id == id;
    var j := PermutedMember(a, b, i);
  }

  lemma PermutedAgrees(seen: map<string, string>, a: seq<Track>, b: seq<Track>)
    requires multiset(a) == multiset(b) && Agrees(seen, a)
    ensures Agrees(seen, b)
  {
    forall j | 0 <= j < |b| ensures b[j].id in seen && seen[b[j].id] == Name(b[j]) {
      var i := PermutedMember(b, a, j);
    }
  }

  /** With room left, a new track joins. */
  lemma JoinedKeeps(max: nat, seen: map<string, string>, ts: seq<Track>, t: Track, ts': seq<Track>)
    requires Holds(max, seen, ts) && |ts| <= max && !HasId(ts, t.id)
    requires multiset(ts') == multiset(ts + [t]) && Sorted(Names(ts'))
    ensures Holds(max, seen[t.id := Name(t)], ts')
  {
    var placed, seen' := ts + [t], seen[t.id := Name(t)];
    PermutedLength(placed, ts');
    JoinedAgrees(seen, ts, t);
    PermutedDistinct(placed, ts');
    PermutedAgrees(seen', placed, ts');
    forall id | id in seen' ensures HasId(ts', id) {
      HasIdInAppended(ts, t, id);
      PermutedIds(placed, ts', id);
    }
  }

  lemma JoinedAgrees(seen: map<string, string>, ts: seq<Track>, t: Track)
    requires Agrees(seen, ts) && NoRepeats(Ids(ts)) && !HasId(ts, t.id)
    ensures Agrees(seen[t.id := Name(t)], ts + [t]) && NoRepeats(Ids(ts + [t]))
  {
    var placed := ts + [t];
    assert forall i :: 0 <= i < |placed| ==> placed[i] == if i < |ts| then ts[i] else t;
    forall i, j | 0 <= i < j < |placed| ensures placed[i].id != placed[j].id {
      assert j < |ts| ==> Ids(ts)[i] != Ids(ts)[j];
    }
  }

  lemma HasIdInAppended(ts: seq<Track>, t: Track, id: string)
    requires HasId(ts, id) || t.id == id
    ensures HasId(ts + [t], id)
  {
    if HasId(ts, id) {
      var i :| 0 <= i < |ts| && ts[i].id == id;
      assert (ts + [t])[i].id == id;
    } else {
      assert (ts + [t])[|ts|].id == id;
    }
  }

  /** In a full limiter a new track takes the place of the last one, and then nothing held is behind that one. */
  lemma LastNameShrinks(max: nat, ts: seq<Track>, t: Track, ts': seq<Track>, x: string)
    requires |ts| == max + 1 && Sorted(Names(ts)) && Leq(Name(t), Name(ts[max]))
    requires multiset(ts') == multiset(ts[max := t]) && Leq(Name(ts[max]), x)
    ensures Excludes(max, ts', x)
  {
    PermutedLength(ts', ts[max := t]);
    var j := PermutedMember(ts', ts[max := t], max);
    if j < max {
      assert Leq(Names(ts)[j], Names(ts)[max]);
    }
    LeqTransitive(Name(ts'[max]), Name(ts[max]), x);
  }

  lemma DisplacedCovers(max: nat, seen: map<string, string>, ts: seq<Track>, t: Track, ts': seq<Track>)
    requires |ts| == max + 1 && Sorted(Names(ts)) && Leq(Name(t), Name(ts[max]))
    requires Agrees(seen, ts) && Covers(max, seen, ts) && multiset(ts') == multiset(ts[max := t])
    ensures Covers(max, seen[t.id := Name(t)], ts')
  {
    var placed, seen' := ts[max := t], seen[t.id := Name(t)];
    forall id | id in seen' ensures HasId(ts', id) || Excludes(max, ts', seen'[id]) {
      if id == t.id {
        assert placed[max].id == id;
        PermutedIds(placed, ts', id);
      } else if HasId(ts, id) {
        var i :| 0 <= i < |ts| && ts[i].id == id;
        if i == max {
          LeqIsTotalOrder(Name(ts[max]), Name(ts[max]), Name(ts[max]));
          LastNameShrinks(max, ts, t, ts', Name(ts[max]));
        } else {
          assert placed[i].id == id;
          PermutedIds(placed, ts', id);
        }
      } else {
        LastNameShrinks(max, ts, t, ts', seen[id]);
      }
    }
  }

  lemma DisplacedAgrees(max: nat, seen: map<string, string>, ts: seq<Track>, t: Track)
    requires |ts| == max + 1 && Agrees(seen, ts) && NoRepeats(Ids(ts)) && !HasId(ts, t.id)
    ensures Agrees(seen[t.id := Name(t)], ts[max := t]) && NoRepeats(Ids(ts[max := t]))
  {
    var placed := ts[max := t];
    assert forall i :: 0 <= i < |placed| ==> placed[i] == if i < max then ts[i] else t;
    forall i, j | 0 <= i < j < |placed| ensures placed[i].id != placed[j].id {
      assert Ids(ts)[i] != Ids(ts)[j];
    }
  }

  lemma DisplacedKeeps(max: nat, seen: map<string, string>, ts: seq<Track>, t: Track, ts': seq<Track>)
    requires Holds(max, seen, ts) && |ts| == max + 1 && !HasId(ts, t.id) && Leq(Name(t), Name(ts[max]))
    requires multiset(ts') == multiset(ts[max := t]) && Sorted(Names(ts'))
    ensures Holds(max, seen[t.id := Name(t)], ts')
  {
    var placed, seen' := ts[max := t], seen[t.id := Name(t)];
    PermutedLength(placed, ts');
    DisplacedAgrees(max, seen, ts, t);
    PermutedDistinct(placed, ts');
    PermutedAgrees(seen', placed, ts');
    DisplacedCovers(max, seen, ts, t, ts');
  }

  /** The step of the limiter: nothing it should hold gets lost. */
  lemma AddKeeps(max: nat, seen: map<string, string>, ts: seq<Track>, t: Track, ts': seq<Track>)
    requires Holds(max, seen, ts) && Added(max, ts, t, ts') && (t.id in seen ==> seen[t.id] == Name(t))
    ensures Holds(max, seen[t.id := Name(t)], ts')
  {
    if TurnsAway(max, ts, t) {
      TurnedAwayKeeps(max, seen, ts, t);
    } else if HasId(ts, t.id) {
      ReplacedKeeps(max, seen, ts, t);
    } else if |ts| <= max {
      JoinedKeeps(max, seen, ts, t, ts');
    } else {
      DisplacedKeeps(max, seen, ts, t, ts');
    }
  }

  /** A name put at one place of a sorted sequence keeps it sorted exactly if it fits between its neighbours. */
  lemma SortedUpdate(ns: seq<string>, i: nat, x: string)
    requires Sorted(ns) && i < |ns|
    ensures Sorted(ns[i := x]) <==> (i > 0 ==> Leq(ns[i - 1], x)) && (i + 1 < |ns| ==> Leq(x, ns[i + 1]))
  {
    var r := ns[i := x];
    if (i > 0 ==> Leq(ns[i - 1], x)) && (i + 1 < |ns| ==> Leq(x, ns[i + 1])) {
      forall a, b | 0 <= a < b < |r| ensures Leq(r[a], r[b]) {
        if b == i && a < i - 1 {
          LeqTransitive(ns[a], ns[i - 1], x);
        } else if a == i && b > i + 1 {
          LeqTransitive(x, ns[i + 1], ns[b]);
        }
      }
    } else if i > 0 && !Leq(ns[i - 1], x) {
      assert r[i - 1] == ns[i - 1] && r[i] == x;
    } else {
      assert r[i + 1] == ns[i + 1] && r[i] == x;
    }
  }

  /** The place of this identifier in the list. */
  ghost predicate Stands(ts: seq<Track>, t: Track, i: nat) {
    i < |ts| && ts[i].id == t.id && forall j :: 0 <= j < i ==> ts[j].id != t.id
  }

  /** A track that is held already comes with a name that fits where the old one stood. */
  ghost predicate FitsIn(ts: seq<Track>, t: Track) {
    forall i :: 0 <= i < |ts| && Stands(ts, t, i) ==>
                  (i > 0 ==> Leq(Name(ts[i - 1]), Name(t))) && (i + 1 < |ts| ==> Leq(Name(t), Name(ts[i + 1])))
  }

  /** An addition keeps the list sorted exactly if the track is turned away, is new, or fits where it stood. */
  lemma SortedKeptIff(max: nat, ts: seq<Track>, t: Track, after: seq<Track>)
    requires Sorted(Names(ts)) && Added(max, ts, t, after)
    ensures Sorted(Names(after)) <==> TurnsAway(max, ts, t) || !HasId(ts, t.id) || FitsIn(ts, t)
  {
    if !TurnsAway(max, ts, t) && HasId(ts, t.id) {
      var i := FirstWithId(ts, t.id);
      ReplacedAt(ts, t, i);
      assert Names(after) == Names(ts)[i := Name(t)];
      SortedUpdate(Names(ts), i, Name(t));
      assert Stands(ts, t, i);
      assert forall j :: 0 <= j < |ts| && Stands(ts, t, j) ==> j == i;
    }
  }

  /** A track that changes its name from the first to the last is left where it was, and the list is not sorted any more. */
  lemma RenamedUnsorts() returns (ts: seq<Track>, t: Track, after: seq<Track>)
    ensures Sorted(Names(ts)) && Added(2, ts, t, after) && !Sorted(Names(after))
  {
    ts, t := [Track("1", "", ["a"]), Track("2", "", ["b"])], Track("1", "", ["c"]);
    assert ts[0].id == t.id;
    after := Replaced(ts, t);
    assert Less("a", "b") && Less("b", "c");
    assert Names(ts) == ["a", "b"] && Sorted(Names(ts));
    LessIsStrict("b", "c");
    assert Stands(ts, t, 0);
    SortedKeptIff(2, ts, t, after);
  }

  /** The lists a limiter goes through. */
  ghost predicate Run(max: nat, adds: seq<Track>, lists: seq<seq<Track>>) {
    && |lists| == |adds| + 1 && lists[0] == []
    && forall k :: 0 <= k < |adds| ==> Added(max, lists[k], adds[k], lists[k + 1])
  }

  lemma {:induction false} SeenComesFrom(adds: seq<Track>, id: string) returns (i: nat)
    requires id in Seen(adds)
    ensures i < |adds| && adds[i].id == id && Seen(adds)[id] == Name(adds[i])
  {
    var n := |adds| - 1;
    i := n;
    if adds[n].id != id {
      i := SeenComesFrom(adds[..n], id);
    }
  }

  lemma {:induction false} HoldsAlways(max: nat, adds: seq<Track>, lists: seq<seq<Track>>, k: nat)
    requires Run(max, adds, lists) && Consistent(adds) && k <= |adds|
    ensures Holds(max, Seen(adds[..k]), lists[k])
  {
    if k > 0 {
      var init, t := adds[..k - 1], adds[k - 1];
      assert adds[..k][..k - 1] == init;
      HoldsAlways(max, adds, lists, k - 1);
      if t.id in Seen(init) {
        var i := SeenComesFrom(init, t.id);
      }
      AddKeeps(max, Seen(init), lists[k - 1], t, lists[k]);
    }
  }

  // ---------- sort, then take the first ----------

  function NameIn(seen: map<string, string>): (f: string -> string) {
    id => if id in seen then seen[id] else ""
  }

  function NamesIn(seen: map<string, string>, ids: seq<string>): (ns: seq<string>)
    ensures |ns| == |ids| && forall i :: 0 <= i < |ids| ==> ns[i] == NameIn(seen)(ids[i])
  {
    seq(|ids|, i requires 0 <= i < |ids| => NameIn(seen)(ids[i]))
  }

  /** All identifiers seen, each once, in the order of their names. */
  ghost predicate Ranking(seen: map<string, string>, ids: seq<string>) {
    NoRepeats(ids) && (forall id :: id in ids <==> id in seen) && Sorted(NamesIn(seen, ids))
  }

  lemma {:induction false} TimesOfName(seen: map<string, string>, ids: seq<string>, x: string)
    ensures multiset(NamesIn(seen, ids))[x] == Times(ids, NameIn(seen), x)
  {
    if ids != [] {
      var n := |ids| - 1;
      TimesOfName(seen, ids[..n], x);
      assert NamesIn(seen, ids) == NamesIn(seen, ids[..n]) + [NameIn(seen)(ids[n])];
    }
  }

  /** Two rankings of the same identifiers give the same names. */
  lemma RankingsAgree(seen: map<string, string>, a: seq<string>, b: seq<string>)
    requires Ranking(seen, a) && Ranking(seen, b)
    ensures NamesIn(seen, a) == NamesIn(seen, b)
  {
    SameElements(a, b);
    forall x ensures multiset(NamesIn(seen, a))[x] == multiset(NamesIn(seen, b))[x] {
      TimesInPermutation(a, b, NameIn(seen), x);
      TimesOfName(seen, a, x);
      TimesOfName(seen, b, x);
    }
    SortedIsUnique(NamesIn(seen, a), NamesIn(seen, b));
  }

  /** The identifiers of a ranking that are not held, in order. */
  function Left(ids: seq<string>, held: seq<string>): (r: seq<string>)
    ensures forall x :: x in r <==> x in ids && x !in held
  {
    if ids == [] then []
    else
      var n := |ids| - 1;
      assert ids == ids[..n] + [ids[n]];
      Left(ids[..n], held) + if ids[n] in held then [] else [ids[n]]
  }

  lemma SortedAppends(ns: seq<string>, x: string)
    requires Sorted(ns) && forall y :: y in ns ==> Leq(y, x)
    ensures Sorted(ns + [x])
  {
    assert forall i :: 0 <= i < |ns| ==> ns[i] in ns;
  }

  /** Every name left in front of the last identifier is not behind it. */
  lemma LeftIsBefore(seen: map<string, string>, ids: seq<string>, held: seq<string>, y: string)
    requires ids != [] && Sorted(NamesIn(seen, ids)) && y in NamesIn(seen, Left(ids[..|ids| - 1], held))
    ensures Leq(y, NameIn(seen)(ids[|ids| - 1]))
  {
    var n := |ids| - 1;
    var r := Left(ids[..n], held);
    var i :| 0 <= i < |r| && NamesIn(seen, r)[i] == y;
    assert r[i] in r;
    var j :| 0 <= j < n && ids[j] == r[i];
    assert Leq(NamesIn(seen, ids)[j], NamesIn(seen, ids)[n]);
  }

  lemma NoRepeatsAppends(r: seq<string>, x: string)
    requires NoRepeats(r) && x !in r
    ensures NoRepeats(r + [x])
  {
  }

  lemma {:induction false} LeftIsRanked(seen: map<string, string>, ids: seq<string>, held: seq<string>)
    requires NoRepeats(ids) && Sorted(NamesIn(seen, ids))
    ensures NoRepeats(Left(ids, held)) && Sorted(NamesIn(seen, Left(ids, held)))
  {
    if ids != [] {
      var n := |ids| - 1;
      var r, x := Left(ids[..n], held), ids[n];
      assert NamesIn(seen, ids[..n]) == NamesIn(seen, ids)[..n];
      LeftIsRanked(seen, ids[..n], held);
      if x !in held {
        assert x !in ids[..n];
        NoRepeatsAppends(r, x);
        forall y | y in NamesIn(seen, r) ensures Leq(y, NameIn(seen)(x)) {
          LeftIsBefore(seen, ids, held, y);
        }
        SortedAppends(NamesIn(seen, r), NameIn(seen)(x));
        assert NamesIn(seen, r + [x]) == NamesIn(seen, r) + [NameIn(seen)(x)];
      }
    }
  }

  lemma SortedJoins(a: seq<string>, b: seq<string>)
    requires Sorted(a) && Sorted(b) && forall i, j :: 0 <= i < |a| && 0 <= j < |b| ==> Leq(a[i], b[j])
    ensures Sorted(a + b)
  {
  }

  lemma NoRepeatsJoins(a: seq<string>, b: seq<string>)
    requires NoRepeats(a) && NoRepeats(b) && forall x :: x in a ==> x !in b
    ensures NoRepeats(a + b)
  {
    forall i, j | 0 <= i < |a| && 0 <= j < |b| ensures a[i] != b[j] {
      assert a[i] in a && b[j] in b;
    }
  }

  /** What is held, followed by the rest in order, is a ranking. */
  lemma HeldThenLeft(max: nat, seen: map<string, string>, ts: seq<Track>, ids: seq<string>)
    requires Holds(max, seen, ts) && Ranking(seen, ids)
    ensures Ranking(seen, Ids(ts) + Left(ids, Ids(ts)))
    ensures NamesIn(seen, Ids(ts) + Left(ids, Ids(ts)))[..|ts|] == Names(ts)
  {
    var held := Ids(ts);
    var left := Left(ids, held);
    LeftIsRanked(seen, ids, held);
    assert NamesIn(seen, held) == Names(ts);
    assert NamesIn(seen, held + left) == Names(ts) + NamesIn(seen, left);
    forall i, j | 0 <= i < |ts| && 0 <= j < |left| ensures Leq(Names(ts)[i], NamesIn(seen, left)[j]) {
      HeldIsBefore(max, seen, ts, i, left[j]);
    }
    SortedJoins(Names(ts), NamesIn(seen, left));
    NoRepeatsJoins(held, left);
    forall id | id in held ensures id in seen {
      var i :| 0 <= i < |ts| && held[i] == id;
    }
  }

  lemma HeldIsBefore(max: nat, seen: map<string, string>, ts: seq<Track>, i: nat, id: string)
    requires Holds(max, seen, ts) && i < |ts| && id in seen && id !in Ids(ts)
    ensures Leq(Name(ts[i]), seen[id])
  {
    HasIdIsIn(ts, id);
    if i < max {
      assert Leq(Names(ts)[i], Names(ts)[max]);
      LeqTransitive(Name(ts[i]), Name(ts[max]), seen[id]);
    }
  }

  lemma LeftOnlyIfFull(max: nat, seen: map<string, string>, ts: seq<Track>, ids: seq<string>)
    requires Holds(max, seen, ts) && Ranking(seen, ids) && Left(ids, Ids(ts)) != []
    ensures |ts| == max + 1
  {
    var id := Left(ids, Ids(ts))[0];
    assert id in Left(ids, Ids(ts));
    HasIdIsIn(ts, id);
  }

  /** A limiter that holds what it should holds the first names of any ranking. */
  lemma HoldsFirstOf(max: nat, seen: map<string, string>, ts: seq<Track>, ids: seq<string>)
    requires Holds(max, seen, ts) && Ranking(seen, ids)
    ensures |ts| == if |ids| <= max then |ids| else max + 1
    ensures Names(ts) == NamesIn(seen, ids)[..|ts|]
  {
    var left := Left(ids, Ids(ts));
    HeldThenLeft(max, seen, ts, ids);
    RankingsAgree(seen, Ids(ts) + left, ids);
    assert |ids| == |ts| + |left|;
    if left != [] {
      LeftOnlyIfFull(max, seen, ts, ids);
    }
  }

  /**
   After any sequence of additions the limiter holds, sorted, the max + 1
   first names among those of the distinct identifiers seen.
   */
  lemma HoldsFirstNames(max: nat, adds: seq<Track>, lists: seq<seq<Track>>, ids: seq<string>)
    requires Run(max, adds, lists) && Consistent(adds) && Ranking(Seen(adds), ids)
    ensures |lists[|adds|]| == if |ids| <= max then |ids| else max + 1
    ensures Names(lists[|adds|]) == NamesIn(Seen(adds), ids)[..|lists[|adds|]|]
  {
    assert adds[..|adds|] == adds;
    HoldsAlways(max, adds, lists, |adds|);
    HoldsFirstOf(max, Seen(adds), lists[|adds|], ids);
  }

  /** What a search returns is sort-then-take-max, at the level of names. */
  lemma ReturnsFirstNames(max: nat, adds: seq<Track>, lists: seq<seq<Track>>, ids: seq<string>, r: seq<Track>)
    requires Run(max, adds, lists) && Consistent(adds) && Ranking(Seen(adds), ids)
    requires r <= lists[|adds|] && |r| == if |lists[|adds|]| < max then |lists[|adds|]| else max
    ensures Names(r) == if |ids| <= max then NamesIn(Seen(adds), ids) else NamesIn(Seen(adds), ids)[..max]
  {
    HoldsFirstNames(max, adds, lists, ids);
  }

  lemma ReturnsForAll(max: nat, adds: seq<Track>, lists: seq<seq<Track>>, r: seq<Track>)
    requires Run(max, adds, lists) && Consistent(adds)
    requires r <= lists[|adds|] && |r| == if |lists[|adds|]| < max then |lists[|adds|]| else max
    ensures forall ids :: Ranking(Seen(adds), ids) ==>
                            Names(r) == var ns := NamesIn(Seen(adds), ids); if |ns| <= max then ns else ns[..max]
  {
    forall ids | Ranking(Seen(adds), ids)
      ensures Names(r) == var ns := NamesIn(Seen(adds), ids); if |ns| <= max then ns else ns[..max]
    {
      ReturnsFirstNames(max, adds, lists, ids, r);
    }
  }

  /** There is a ranking of whatever was seen. */
  lemma {:induction false} Ranked(seen: map<string, string>) returns (ids: seq<string>)
    ensures Ranking(seen, ids)
    decreases |seen|
  {
    if seen == map[] {
      ids := [];
    } else {
      var id :| id in seen;
      var rest := Ranked(seen - {id});
      assert NamesIn(seen - {id}, rest) == NamesIn(seen, rest);
      var k := PlaceFor(NamesIn(seen, rest), seen[id]);
      ids := rest[..k] + [id] + rest[k..];
      RankedInsert(seen, rest, k, id);
    }
  }

  lemma {:induction false} PlaceFor(ns: seq<string>, x: string) returns (k: nat)
    requires Sorted(ns)
    ensures k <= |ns| && (forall i :: 0 <= i < k ==> Leq(ns[i], x)) && (forall i :: k <= i < |ns| ==> Leq(x, ns[i]))
  {
    k := |ns|;
    if ns != [] {
      var n := |ns| - 1;
      LeqIsTotalOrder(ns[n], x, x);
      if Leq(ns[n], x) {
        forall i | 0 <= i < |ns| ensures Leq(ns[i], x) {
          LeqTransitive(ns[i], ns[n], x);
        }
      } else {
        k := PlaceFor(ns[..n], x);
      }
    }
  }

  lemma RankedInsert(seen: map<string, string>, rest: seq<string>, k: nat, id: string)
    requires id in seen && NoRepeats(rest) && (forall x :: x in rest <==> x in seen && x != id)
    requires Sorted(NamesIn(seen, rest)) && k <= |rest|
    requires (forall i :: 0 <= i < k ==> Leq(NamesIn(seen, rest)[i], seen[id]))
    requires (forall i :: k <= i < |rest| ==> Leq(seen[id], NamesIn(seen, rest)[i]))
    ensures Ranking(seen, rest[..k] + [id] + rest[k..])
  {
    var ids := rest[..k] + [id] + rest[k..];
    var ns := NamesIn(seen, rest);
    InsertSorted(ns, k, seen[id]);
    assert NamesIn(seen, ids) == ns[..k] + [seen[id]] + ns[k..];
    forall x ensures x in ids <==> x in seen {
      assert rest == rest[..k] + rest[k..];
    }
    NoRepeatsInsert(rest, k, id);
  }

  lemma NoRepeatsInsert(rest: seq<string>, k: nat, id: string)
    requires NoRepeats(rest) && id !in rest && k <= |rest|
    ensures NoRepeats(rest[..k] + [id] + rest[k..])
  {
    var ids := rest[..k] + [id] + rest[k..];
    assert forall i :: 0 <= i < |ids| ==> ids[i] == if i < k then rest[i] else if i == k then id else rest[i - 1];
  }

  // ---------- searches ----------

  ghost predicate AllNamed(ts: seq<Track>) {
    forall x :: x in ts ==> Named(x)
  }

  /** Among named tracks the code never compares a missing name. */
  lemma NamedNeverPanics(max: nat, ts: seq<Track>, t: Track)
    requires AllNamed(ts) && Named(t)
    ensures !Panics(max, ts, t)
  {
    if |ts| > max {
      assert ts[max] in ts;
    }
  }

  lemma {:induction false} ReplacedNamed(ts: seq<Track>, t: Track)
    requires AllNamed(ts) && Named(t)
    ensures AllNamed(Replaced(ts, t))
  {
    if ts != [] && ts[0].id != t.id {
      ReplacedNamed(ts[1..], t);
    }
  }

  lemma AddedNamed(max: nat, ts: seq<Track>, t: Track, after: seq<Track>)
    requires AllNamed(ts) && Named(t) && Added(max, ts, t, after)
    ensures AllNamed(after)
  {
    ReplacedNamed(ts, t);
    forall x | x in after && !TurnsAway(max, ts, t) && !HasId(ts, t.id)
      ensures Named(x)
    {
      assert x in multiset(after);
      assert x in Placed(max, ts, t);
    }
  }

  /** What a searcher reads: timeouts and updates without a track are skipped. */
  datatype Update = Update(timedOut: bool, track: Option<Track>)

  /** The additions an update causes: one for each time its registry identifier is asked for. */
  function Matches(u: Update, wanted: seq<string>): (adds: seq<Track>) {
    if wanted == [] || u.timedOut || u.track.None? then []
    else
      var n := |wanted| - 1;
      Matches(u, wanted[..n]) + if wanted[n] == u.track.value.registryId then [u.track.value] else []
  }

  function Wanted(updates: seq<Update>, wanted: seq<string>): (adds: seq<Track>) {
    if updates == [] then [] else Wanted(updates[..|updates| - 1], wanted) + Matches(updates[|updates| - 1], wanted)
  }

  lemma {:induction false} MatchesIff(u: Update, wanted: seq<string>, t: Track)
    ensures t in Matches(u, wanted) <==> !u.timedOut && u.track == Some(t) && t.registryId in wanted
  {
    if wanted != [] {
      var n := |wanted| - 1;
      MatchesIff(u, wanted[..n], t);
      assert wanted == wanted[..n] + [wanted[n]];
    }
  }

  /** What a search adds: exactly the tracks of updates that are no timeouts, with a registry identifier asked for. */
  lemma {:induction false} WantedIff(updates: seq<Update>, wanted: seq<string>, t: Track)
    ensures t in Wanted(updates, wanted) <==> t.registryId in wanted && Update(false, Some(t)) in updates
  {
    if updates != [] {
      var n := |updates| - 1;
      WantedIff(updates[..n], wanted, t);
      MatchesIff(updates[n], wanted, t);
      assert updates == updates[..n] + [updates[n]];
    }
  }

  lemma {:induction false} MatchesPrefix(u: Update, wanted: seq<string>, j: nat)
    requires j <= |wanted|
    ensures Matches(u, wanted[..j]) <= Matches(u, wanted)
  {
    if j < |wanted| {
      var init := wanted[..|wanted| - 1];
      MatchesPrefix(u, init, j);
      assert init[..j] == wanted[..j];
    } else {
      assert wanted[..j] == wanted;
    }
  }

  lemma {:induction false} WantedPrefix(updates: seq<Update>, wanted: seq<string>, i: nat)
    requires i <= |updates|
    ensures Wanted(updates[..i], wanted) <= Wanted(updates, wanted)
  {
    if i < |updates| {
      var init := updates[..|updates| - 1];
      WantedPrefix(init, wanted, i);
      assert init[..i] == updates[..i];
    } else {
      assert updates[..i] == updates;
    }
  }

  lemma WantedNext(updates: seq<Update>, wanted: seq<string>, i: nat, j: nat)
    requires i < |updates| && j <= |wanted|
    ensures Wanted(updates[..i], wanted) + Matches(updates[i], wanted[..j]) <= Wanted(updates, wanted)
    ensures Wanted(updates[..i + 1], wanted) == Wanted(updates[..i], wanted) + Matches(updates[i], wanted)
  {
    assert updates[..i + 1][..i] == updates[..i];
    WantedPrefix(updates, wanted, i + 1);
    MatchesPrefix(updates[i], wanted, j);
  }

  /** The additions so far, the lists they went through, and the list at the end. */
  ghost predicate Followed(max: nat, adds: seq<Track>, lists: seq<seq<Track>>, tracks: seq<Track>) {
    AllNamed(adds) ==> Run(max, adds, lists) && lists[|adds|] == tracks && AllNamed(tracks)
  }

  lemma FollowedOn(max: nat, adds: seq<Track>, lists: seq<seq<Track>>, tracks: seq<Track>, t: Track, after: seq<Track>)
    requires Followed(max, adds, lists, tracks) && (Named(t) ==> Added(max, tracks, t, after))
    ensures Followed(max, adds + [t], lists + [after], after)
  {
    if AllNamed(adds + [t]) {
      assert t in adds + [t];
      assert forall x :: x in adds ==> x in adds + [t];
      AddedNamed(max, tracks, t, after);
    }
  }

  /** A search that is asked for tracks by their registry identifiers. */
  class TrackSearcher {
    const limiter: TrackLimiter
    const tracks: seq<string>

    constructor (limit: nat, tracks: seq<string>)
      ensures limiter.Valid() && fresh(limiter) && limiter.tracks == [] && this.tracks == tracks
      ensures limiter.max == if limit == 0 then 1 else limit
    {
      this.limiter := new TrackLimiter(if limit == 0 then 1 else limit);
      this.tracks := tracks;
    }

    /** Add the track of an update as often as it is asked for. */
    method Offer(u: Update, ghost adds: seq<Track>, ghost before: seq<seq<Track>>) returns (ok: bool, ghost lists: seq<seq<Track>>)
      requires limiter.Valid() && !u.timedOut && u.track.Some? && Followed(limiter.max, adds, before, limiter.tracks)
      modifies limiter
      ensures ok ==> limiter.Valid() && Followed(limiter.max, adds + Matches(u, tracks), lists, limiter.tracks)
      ensures !ok ==> !AllNamed(adds + Matches(u, tracks))
    {
      var t := u.track.value;
      lists := before;
      assert adds + Matches(u, tracks[..0]) == adds;
      for j := 0 to |tracks|
        invariant limiter.Valid() && Followed(limiter.max, adds + Matches(u, tracks[..j]), lists, limiter.tracks)
      {
        assert tracks[..j + 1][..j] == tracks[..j];
        ghost var sofar := adds + Matches(u, tracks[..j]);
        if tracks[j] == t.registryId {
          assert adds + Matches(u, tracks[..j + 1]) == sofar + [t];
          ghost var held := limiter.tracks;
          var done := limiter.Add(t);
          if !done {
            MatchesPrefix(u, tracks, j + 1);
            PanicsUnnamed(limiter.max, sofar, lists, held, t, adds + Matches(u, tracks));
            return false, lists;
          }
          FollowedOn(limiter.max, sofar, lists, held, t, limiter.tracks);
          lists := lists + [limiter.tracks];
        } else {
          assert adds + Matches(u, tracks[..j + 1]) == sofar;
        }
      }
      assert tracks[..|tracks|] == tracks;
      return true, lists;
    }

    /**
     A whole search.  If every track asked for has a name it does not panic,
     and if each identifier keeps its name the results are the first names, in
     order, of the distinct identifiers asked for.
     */
    method Handle(updates: seq<Update>) returns (ok: bool, out: seq<Track>)
      requires limiter.Valid() && limiter.tracks == []
      modifies limiter
      ensures AllNamed(Wanted(updates, tracks)) ==> ok
      ensures ok && Consistent(Wanted(updates, tracks)) ==>
                forall ids :: Ranking(Seen(Wanted(updates, tracks)), ids) ==>
                                Names(out) == var ns := NamesIn(Seen(Wanted(updates, tracks)), ids);
                                              if |ns| <= limiter.max then ns else ns[..limiter.max]
    {
      ghost var lists: seq<seq<Track>> := [[]];
      for i := 0 to |updates|
        invariant limiter.Valid() && Followed(limiter.max, Wanted(updates[..i], tracks), lists, limiter.tracks)
      {
        ghost var adds := Wanted(updates[..i], tracks);
        WantedNext(updates, tracks, i, |tracks|);
        if updates[i].timedOut || updates[i].track.None? {
          assert adds + [] == adds;
          continue;
        }
        assert tracks[..|tracks|] == tracks;
        var done;
        done, lists := Offer(updates[i], adds, lists);
        if !done {
          UnnamedWithin(adds + Matches(updates[i], tracks), Wanted(updates, tracks));
          return false, [];
        }
      }
      assert updates[..|updates|] == updates;
      ok := true;
      out := limiter.GetTracks();
      ghost var adds := Wanted(updates, tracks);
      if Consistent(adds) {
        ReturnsForAll(limiter.max, adds, lists, out);
      }
    }
  }

  lemma UnnamedWithin(some: seq<Track>, all: seq<Track>)
    requires !AllNamed(some) && some <= all
    ensures !AllNamed(all)
  {
    var x :| x in some && !Named(x);
    assert x in all;
  }

  lemma PanicsUnnamed(max: nat, adds: seq<Track>, lists: seq<seq<Track>>, tracks: seq<Track>, t: Track, all: seq<Track>)
    requires Followed(max, adds, lists, tracks) && Panics(max, tracks, t) && adds + [t] <= all
    ensures !AllNamed(all)
  {
    if AllNamed(all) {
      assert forall x :: x in adds + [t] ==> x in all;
      assert forall x :: x in adds ==> x in adds + [t];
      NamedNeverPanics(max, tracks, t);
    }
  }
}
