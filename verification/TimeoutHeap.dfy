/**
 A priority queue of things that can time out: an array heap ordered by
 deadline together with an index from identifier to array position.

 The heap algorithms are those of Go's container/heap package; they touch the
 structure only through Less, Swap, Push and Pop, as there.  The abstract value
 of the structure is `contents`, a plain map from identifier to entry.
 */
module TimeoutHeaps {
  import opened Common

  /** An object which can time out: its identifier, its deadline and what it is about. */
  datatype Info<K, V> = Info(id: K, deadline: int, obj: V)

  function Parent(j: nat): (p: nat)
    requires j > 0
    ensures p < j
  {
    (j - 1) / 2
  }

  /** The heap edge above position `j` is in order. */
  ghost predicate Edge<K, V>(h: seq<Info<K, V>>, j: nat)
    requires 0 < j < |h|
  {
    h[Parent(j)].deadline <= h[j].deadline
  }

  /** The first `n` positions form a binary heap. */
  ghost predicate Ordered<K, V>(h: seq<Info<K, V>>, n: nat)
    requires n <= |h|
  {
    forall j {:trigger Edge(h, j)} :: 0 < j < n ==> Edge(h, j)
  }

  /** Every edge is in order except possibly the one above `i`. */
  ghost predicate OrderedAbove<K, V>(h: seq<Info<K, V>>, n: nat, i: nat)
    requires n <= |h|
  {
    forall j {:trigger Edge(h, j)} :: 0 < j < n && j != i ==> Edge(h, j)
  }

  /** Every edge is in order except possibly those touching `i`. */
  ghost predicate OrderedAround<K, V>(h: seq<Info<K, V>>, n: nat, i: nat)
    requires n <= |h|
  {
    forall j {:trigger Edge(h, j)} :: 0 < j < n && j != i && Parent(j) != i ==> Edge(h, j)
  }

  /** The children of `i` are in order with the parent of `i`. */
  ghost predicate Bridged<K, V>(h: seq<Info<K, V>>, n: nat, i: nat)
    requires i < n <= |h| || i == n <= |h|
  {
    0 < i ==> forall j {:trigger Parent(j)} :: 0 < j < n && Parent(j) == i ==> h[Parent(i)].deadline <= h[j].deadline
  }

  /** In a heap the root has a least deadline. */
  lemma {:induction false} RootIsLeast<K, V>(h: seq<Info<K, V>>, j: nat)
    requires Ordered(h, |h|)
    requires j < |h|
    ensures h[0].deadline <= h[j].deadline
  {
    if j > 0 {
      assert Edge(h, j);
      RootIsLeast(h, Parent(j));
    }
  }

  function Swapped<T>(h: seq<T>, i: nat, j: nat): (r: seq<T>)
    requires i < |h| && j < |h|
    ensures |r| == |h| && multiset(r) == multiset(h)
  {
    h[i := h[j]][j := h[i]]
  }

  /** Replacing one entry of a heap leaves every edge not touching it in order. */
  lemma ReplaceKeepsAround<K, V>(h: seq<Info<K, V>>, i: nat, info: Info<K, V>)
    requires i < |h| && Ordered(h, |h|)
    ensures OrderedAround(h[i := info], |h|, i) && Bridged(h[i := info], |h|, i)
  {
    var h' := h[i := info];
    forall j | 0 < j < |h| && j != i && Parent(j) != i ensures Edge(h', j) {
      assert Edge(h, j);
    }
    forall j | 0 < i && 0 < j < |h| && Parent(j) == i ensures h'[Parent(i)].deadline <= h'[j].deadline {
      assert Edge(h, j) && Edge(h, i);
    }
  }

  /** One step up: the disorder above `j` moves to above its parent. */
  lemma StepUp<K, V>(h: seq<Info<K, V>>, j: nat)
    requires 0 < j < |h| && OrderedAbove(h, |h|, j) && Bridged(h, |h|, j)
    requires h[j].deadline < h[Parent(j)].deadline
    ensures OrderedAbove(Swapped(h, Parent(j), j), |h|, Parent(j))
    ensures Bridged(Swapped(h, Parent(j), j), |h|, Parent(j))
  {
    var i := Parent(j);
    var h' := Swapped(h, i, j);
    assert i > 0 ==> Edge(h, i);
    forall k | 0 < k < |h| && k != i ensures Edge(h', k) {
      assert k != j ==> Edge(h, k);
    }
    forall k | 0 < i && 0 < k < |h| && Parent(k) == i ensures h'[Parent(i)].deadline <= h'[k].deadline {
      assert k != j ==> Edge(h, k);
    }
  }

  /** One step down: the disorder around `i` moves to around its smaller child `j`. */
  lemma StepDown<K, V>(h: seq<Info<K, V>>, n: nat, i: nat, j: nat)
    requires i < j < n <= |h| && Parent(j) == i
    requires OrderedAround(h, n, i) && Bridged(h, n, i)
    requires h[j].deadline < h[i].deadline
    requires forall k {:trigger Parent(k)} :: 0 < k < n && Parent(k) == i ==> h[j].deadline <= h[k].deadline
    ensures OrderedAround(Swapped(h, i, j), n, j) && Bridged(Swapped(h, i, j), n, j)
    ensures Edge(Swapped(h, i, j), j)
  {
    var h' := Swapped(h, i, j);
    forall k | 0 < k < n && k != j && Parent(k) != j ensures Edge(h', k) {
      if k != i && Parent(k) != i {
        assert Edge(h, k);
      }
    }
    forall k | 0 < k < n && Parent(k) == j ensures h'[i].deadline <= h'[k].deadline {
      assert Edge(h, k);
    }
  }

  /** The child of `i` that `down` compares with: one with a least deadline. */
  function LesserChild<K, V>(h: seq<Info<K, V>>, n: nat, i: nat): (j: nat)
    requires 2 * i + 1 < n <= |h|
    ensures i < j < n
  {
    if 2 * i + 2 < n && h[2 * i + 2].deadline < h[2 * i + 1].deadline then 2 * i + 2 else 2 * i + 1
  }

  lemma LesserChildIsLeast<K, V>(h: seq<Info<K, V>>, n: nat, i: nat)
    requires 2 * i + 1 < n <= |h|
    ensures Parent(LesserChild(h, n, i)) == i
    ensures forall k {:trigger Parent(k)} :: 0 < k < n && Parent(k) == i ==>
                                               h[LesserChild(h, n, i)].deadline <= h[k].deadline
  {
    assert forall k :: 0 < k < n && Parent(k) == i ==> k == 2 * i + 1 || k == 2 * i + 2;
  }

  /** What `up` does to the array. */
  function SiftUp<K, V>(h: seq<Info<K, V>>, j: nat): (r: seq<Info<K, V>>)
    requires j < |h|
    decreases j
  {
    if j > 0 && h[j].deadline < h[Parent(j)].deadline then SiftUp(Swapped(h, Parent(j), j), Parent(j)) else h
  }

  /** Does `down` move the entry at `i`? */
  predicate Sinks<K, V>(h: seq<Info<K, V>>, n: nat, i: nat)
    requires i <= n <= |h|
  {
    2 * i + 1 < n && h[LesserChild(h, n, i)].deadline < h[i].deadline
  }

  /** What `down` does to the array. */
  function SiftDown<K, V>(h: seq<Info<K, V>>, n: nat, i: nat): (r: seq<Info<K, V>>)
    requires i <= n <= |h|
    ensures |r| == |h| && r[n..] == h[n..]
    decreases n - i
  {
    if Sinks(h, n, i) then var j := LesserChild(h, n, i); SiftDown(Swapped(h, i, j), n, j) else h
  }

  lemma {:induction false} SiftUpOrders<K, V>(h: seq<Info<K, V>>, j: nat)
    requires j < |h| && OrderedAbove(h, |h|, j) && Bridged(h, |h|, j)
    ensures |SiftUp(h, j)| == |h| && Ordered(SiftUp(h, j), |h|)
    decreases j
  {
    if j > 0 && h[j].deadline < h[Parent(j)].deadline {
      StepUp(h, j);
      SiftUpOrders(Swapped(h, Parent(j), j), Parent(j));
    }
  }

  /** Sifting down repairs everything below `i`, and the edge above it too once something moved. */
  lemma {:induction false} SiftDownOrders<K, V>(h: seq<Info<K, V>>, n: nat, i: nat)
    requires i <= n <= |h| && OrderedAround(h, n, i) && Bridged(h, n, i)
    ensures OrderedAbove(SiftDown(h, n, i), n, i)
    ensures Sinks(h, n, i) || i == 0 || (i < n && Edge(h, i)) ==> Ordered(SiftDown(h, n, i), n)
    decreases n - i
  {
    if 2 * i + 1 < n {
      LesserChildIsLeast(h, n, i);
    }
    if Sinks(h, n, i) {
      var j := LesserChild(h, n, i);
      StepDown(h, n, i, j);
      SiftDownOrders(Swapped(h, i, j), n, j);
    } else {
      forall k | 0 < k < n && Parent(k) == i ensures Edge(h, k) {
        assert 2 * i + 1 <= k;
      }
    }
  }

  /** Swapping the root with the last entry and sifting down leaves a heap in front of it. */
  lemma PopOrders<K, V>(h: seq<Info<K, V>>)
    requires |h| > 0 && Ordered(h, |h|)
    ensures Ordered(SiftDown(Swapped(h, 0, |h| - 1), |h| - 1, 0), |h| - 1)
    ensures Ordered(SiftDown(Swapped(h, 0, |h| - 1), |h| - 1, 0)[..|h| - 1], |h| - 1)
  {
    var n := |h| - 1;
    var h' := Swapped(h, 0, n);
    forall j | 0 < j < n && Parent(j) != 0 ensures Edge(h', j) {
      assert Edge(h, j);
    }
    SiftDownOrders(h', n, 0);
    var r := SiftDown(h', n, 0);
    forall j | 0 < j < n ensures Edge(r[..n], j) {
      assert Edge(r, j);
    }
  }

  /** The identifiers of a series of entries. */
  ghost function Ids<K, V>(s: seq<Info<K, V>>): (ids: set<K>)
    ensures forall i :: 0 <= i < |s| ==> s[i].id in ids
  {
    set e <- s :: e.id
  }

  /**
   Popping from `before` gave `sent` and left `rest`: entries leave at most
   once, in deadline order, none before one that stays, and nothing is lost.
   */
  ghost predicate Drained<K, V>(before: map<K, Info<K, V>>, sent: seq<Info<K, V>>, rest: map<K, Info<K, V>>) {
    && (forall i :: 0 <= i < |sent| ==> sent[i].id in before && before[sent[i].id] == sent[i])
    && (forall i, j :: 0 <= i < j < |sent| ==> sent[i].id != sent[j].id && sent[i].deadline <= sent[j].deadline)
    && rest == before - Ids(sent)
    && (forall i, k :: 0 <= i < |sent| && k in rest ==> sent[i].deadline <= rest[k].deadline)
  }

  /** An entry with a least deadline. */
  ghost predicate IsLeast<K, V>(info: Info<K, V>, m: map<K, Info<K, V>>) {
    && info.id in m && m[info.id] == info
    && forall k :: k in m ==> info.deadline <= m[k].deadline
  }

  /** Popping a least entry extends a drain. */
  lemma DrainOne<K, V>(before: map<K, Info<K, V>>, sent: seq<Info<K, V>>, rest: map<K, Info<K, V>>, info: Info<K, V>)
    requires Drained(before, sent, rest)
    requires IsLeast(info, rest)
    ensures Drained(before, sent + [info], rest - {info.id})
  {
    assert Ids(sent + [info]) == Ids(sent) + {info.id};
    assert info.id !in Ids(sent);
  }

  class TimeoutHeap<K(==), V> {
    var idxs: map<K, nat>
    var heap: seq<Info<K, V>>

    /** The abstract value: what is stored under each identifier. */
    ghost var contents: map<K, Info<K, V>>

    /** `idxs` is the exact inverse of the heap positions, and `contents` says what is there. */
    ghost predicate Indexed()
      reads this
    {
      && contents.Keys == idxs.Keys
      && (forall k :: k in idxs ==> idxs[k] < |heap| && heap[idxs[k]].id == k && heap[idxs[k]] == contents[k])
      && (forall i :: 0 <= i < |heap| ==> heap[i].id in idxs && idxs[heap[i].id] == i)
    }

    ghost predicate Valid()
      reads this
    {
      Indexed() && Ordered(heap, |heap|)
    }

    lemma RootIsLeastEntry()
      requires Valid() && |heap| > 0
      ensures IsLeast(heap[0], contents)
    {
      forall k | k in contents ensures heap[0].deadline <= contents[k].deadline {
        RootIsLeast(heap, idxs[k]);
      }
      assert heap[0].id in contents;
    }

    constructor ()
      ensures Valid() && contents == map[]
    {
      idxs := map[];
      heap := [];
      contents := map[];
    }

    /** The next entry to time out, one with a least deadline, if there is any. */
    method Peek() returns (next: Option<Info<K, V>>)
      requires Valid()
      ensures next.None? <==> heap == []
      ensures next.None? <==> contents == map[]
      ensures next.Some? ==> |heap| > 0 && heap[0] == next.value && IsLeast(next.value, contents)
    {
      if |heap| == 0 {
        return None;
      }
      RootIsLeastEntry();
      return Some(heap[0]);
    }

    /** Insert or replace the entry under `info.id`, whichever way its deadline moves. */
    method Upsert(info: Info<K, V>) returns (updated: bool)
      requires Valid()
      modifies this
      ensures Valid()
      ensures updated <==> info.id in old(contents)
      ensures contents == old(contents)[info.id := info]
    {
      if info.id in idxs {
        var idx := idxs[info.id];
        assert heap[idx].id == info.id;  // the fatal error of the source is unreachable
        ReplaceKeepsAround(heap, idx, info);
        heap := heap[idx := info];
        contents := contents[info.id := info];
        Fix(idx);
        return true;
      } else {
        HeapPush(info);
        return false;
      }
    }

    /** Is there an entry under this identifier? */
    method Exists(id: K) returns (found: bool)
      requires Valid()
      ensures found <==> id in contents
    {
      found := id in idxs;
    }

    predicate Less(i: nat, j: nat)
      requires i < |heap| && j < |heap|
      reads this
    {
      heap[i].deadline < heap[j].deadline
    }

    method Swap(i: nat, j: nat)
      requires Indexed() && i < |heap| && j < |heap|
      modifies this
      ensures Indexed() && contents == old(contents)
      ensures heap == Swapped(old(heap), i, j)
    {
      heap := Swapped(heap, i, j);
      idxs := idxs[heap[i].id := i];
      idxs := idxs[heap[j].id := j];
    }

    method Push(info: Info<K, V>)
      requires Indexed() && info.id !in idxs
      modifies this
      ensures Indexed() && heap == old(heap) + [info]
      ensures contents == old(contents)[info.id := info]
    {
      idxs := idxs[info.id := |heap|];
      heap := heap + [info];
      contents := contents[info.id := info];
    }

    method Pop() returns (info: Info<K, V>)
      requires Indexed() && |heap| > 0
      modifies this
      ensures Indexed() && heap == old(heap)[..|old(heap)| - 1]
      ensures info == old(heap)[|old(heap)| - 1]
      ensures contents == old(contents) - {info.id}
    {
      var n := |heap|;
      info := heap[n - 1];
      idxs := idxs - {info.id};
      heap := heap[..n - 1];
      contents := contents - {info.id};
    }

    // container/heap

    method HeapPush(info: Info<K, V>)
      requires Valid() && info.id !in idxs
      modifies this
      ensures Valid() && contents == old(contents)[info.id := info]
    {
      label before:
      Push(info);
      assert OrderedAbove(heap, |heap|, |heap| - 1) by {
        forall j | 0 < j < |heap| && j != |heap| - 1 ensures Edge(heap, j) {
          assert old@before(Edge(heap, j));
        }
      }
      SiftUpOrders(heap, |heap| - 1);
      Up(|heap| - 1);
    }

    /** Remove and return an entry with a least deadline. */
    method HeapPop() returns (info: Info<K, V>)
      requires Valid() && |heap| > 0
      modifies this
      ensures Valid()
      ensures info == old(heap)[0] && IsLeast(info, old(contents))
      ensures contents == old(contents) - {info.id}
      ensures |heap| == |old(heap)| - 1
    {
      RootIsLeastEntry();
      var n := |heap| - 1;
      PopOrders(heap);
      Swap(0, n);
      var moved := Down(0, n);
      assert heap[n] == heap[n..][0];
      info := Pop();
    }

    /** Pop everything that is due before `bound`. */
    method PopBefore(bound: int) returns (sent: seq<Info<K, V>>)
      requires Valid()
      modifies this
      ensures Valid() && Drained(old(contents), sent, contents)
      ensures forall e :: e in sent ==> e.deadline < bound
      ensures forall k :: k in contents ==> contents[k].deadline >= bound
    {
      sent := [];
      var next := Peek();
      while next.Some? && next.value.deadline < bound
        invariant Valid()
        invariant if next.None? then heap == [] else |heap| > 0 && heap[0] == next.value && IsLeast(next.value, contents)
        invariant Drained(old(contents), sent, contents)
        invariant forall e :: e in sent ==> e.deadline < bound
        decreases |heap|
      {
        DrainOne(old(contents), sent, contents, next.value);
        var _ := HeapPop();
        sent := sent + [next.value];
        next := Peek();
      }
    }

    method Fix(i: nat)
      requires Indexed() && i < |heap|
      requires OrderedAround(heap, |heap|, i) && Bridged(heap, |heap|, i)
      modifies this
      ensures Valid() && contents == old(contents)
    {
      SiftDownOrders(heap, |heap|, i);
      var moved := Down(i, |heap|);
      if !moved {
        SiftUpOrders(heap, i);
        Up(i);
      }
    }

    method Up(j0: nat)
      requires Indexed() && j0 < |heap|
      modifies this
      ensures Indexed() && contents == old(contents)
      ensures heap == SiftUp(old(heap), j0)
    {
      var j := j0;
      while j > 0 && Less(j, Parent(j))
        invariant 0 <= j < |heap| && Indexed() && contents == old(contents)
        invariant SiftUp(heap, j) == SiftUp(old(heap), j0)
        decreases j
      {
        var i := Parent(j);
        Swap(i, j);
        j := i;
      }
    }

    method Down(i0: nat, n: nat) returns (moved: bool)
      requires Indexed() && i0 <= n <= |heap|
      modifies this
      ensures Indexed() && contents == old(contents)
      ensures heap == SiftDown(old(heap), n, i0)
      ensures moved == Sinks(old(heap), n, i0)
    {
      var i := i0;
      while 2 * i + 1 < n
        invariant i0 <= i <= n <= |heap| && Indexed() && contents == old(contents)
        invariant SiftDown(heap, n, i) == SiftDown(old(heap), n, i0)
        invariant if i == i0 then heap == old(heap) else Sinks(old(heap), n, i0)
        decreases n - i
      {
        var j := 2 * i + 1;
        ghost var least := LesserChild(heap, n, i);
        if j + 1 < n && Less(j + 1, j) {
          j := j + 1;
        }
        assert j == least;
        if !Less(j, i) {
          break;
        }
        Swap(i, j);
        i := j;
      }
      moved := i > i0;
    }
  }
}
