/** Counting and adding up over the threads of a protocol. */
module Tallies {
  import opened Common

  function HowMany<T>(ts: seq<T>, p: T -> bool): (n: nat) {
    if ts == [] then 0 else HowMany(ts[1..], p) + One(p(ts[0]))
  }

  lemma {:induction false} HowManyChange<T>(ts: seq<T>, p: T -> bool, i: nat, t: T)
    requires i < |ts|
    ensures HowMany(ts[i := t], p) == HowMany(ts, p) - One(p(ts[i])) + One(p(t))
  {
    if i == 0 {
      assert ts[i := t][1..] == ts[1..];
    } else {
      assert ts[i := t][1..] == ts[1..][i - 1 := t];
      HowManyChange(ts[1..], p, i - 1, t);
    }
  }

  lemma {:induction false} HowManyNone<T>(ts: seq<T>, p: T -> bool)
    ensures HowMany(ts, p) == 0 <==> forall i :: 0 <= i < |ts| ==> !p(ts[i])
  {
    if ts != [] {
      HowManyNone(ts[1..], p);
      assert forall i :: 0 <= i < |ts| - 1 ==> ts[1..][i] == ts[i + 1];
      assert forall i :: 0 < i < |ts| ==> ts[i] == ts[1..][i - 1];
    }
  }

  function Total(ns: seq<nat>): (n: nat) {
    if ns == [] then 0 else ns[0] + Total(ns[1..])
  }

  lemma {:induction false} TotalChange(ns: seq<nat>, i: nat, n: nat)
    requires i < |ns|
    ensures Total(ns[i := n]) == Total(ns) - ns[i] + n
  {
    if i == 0 {
      assert ns[i := n][1..] == ns[1..];
    } else {
      assert ns[i := n][1..] == ns[1..][i - 1 := n];
      TotalChange(ns[1..], i - 1, n);
    }
  }

  /** How far a sequence goes on with a property. */
  function While<T>(s: seq<T>, p: T -> bool): (k: nat)
    ensures k <= |s| && (forall j :: 0 <= j < k ==> p(s[j])) && (k < |s| ==> !p(s[k]))
  {
    if s == [] || !p(s[0]) then 0 else 1 + While(s[1..], p)
  }

  /** Numbers that go down at every step. */
  ghost predicate CountingDown(ranks: seq<nat>) {
    forall k :: 0 < k < |ranks| ==> ranks[k] < ranks[k - 1]
  }

  lemma {:induction false} CountdownIsShort(ranks: seq<nat>, k: nat)
    requires CountingDown(ranks) && k < |ranks|
    ensures ranks[k] + k <= ranks[0]
  {
    if k > 0 {
      CountdownIsShort(ranks, k - 1);
    }
  }
}
