/** The order in which waiting tracks leave the stream compressor, over every run. */
module StreamOrder {
  import opened Common
  import opened StreamCompress

  predicate Waits(q: Queue, id: string) {
    id in q.latest
  }

  /** The round since which an identifier has been waiting without a break; another track of it changes nothing. */
  ghost function Since(trace: seq<Queue>, mids: seq<Queue>, i: nat, id: string): (n: nat)
    requires i < |trace| == |mids| + 1 && Waits(trace[i], id)
    ensures n <= i
  {
    if i == 0 || !Waits(mids[i - 1], id) || !Waits(trace[i - 1], id) then i else Since(trace, mids, i - 1, id)
  }

  /** The order is that of the rounds since which its identifiers have been waiting. */
  ghost predicate InOrder(trace: seq<Queue>, mids: seq<Queue>, i: nat)
    requires i < |trace| == |mids| + 1
  {
    && Listed(trace[i])
    && forall m, n :: 0 <= m < n < |trace[i].order| ==>
                        Since(trace, mids, i, trace[i].order[m]) < Since(trace, mids, i, trace[i].order[n])
  }

  /** Whoever waits in the middle of a round has a place in the order before it. */
  lemma TakesPlace(q: Queue, n: nat) returns (m: nat)
    requires Listed(q) && n < |Takes(q).order|
    ensures m < |q.order| && m == n + |q.order| - |Takes(q).order| && Takes(q).order[n] == q.order[m]
    ensures Waits(q, q.order[m]) && Waits(Takes(q), q.order[m])
  {
    m := if Takes(q) == q then n else n + 1;
    assert q.order[m] in q.order;
  }

  /** What waits after a round waited in its middle, but for what has just joined at the end. */
  lemma OrderGrows(mid: Queue, choice: Choice, n: nat)
    requires Listed(mid) && n < |Meets(mid, choice).order|
    ensures var id := Meets(mid, choice).order[n];
      if n < |mid.order| then id == mid.order[n] && Waits(mid, id) else n == |mid.order| && !Waits(mid, id)
  {
    assert n < |mid.order| ==> mid.order[n] in mid.order;
  }

  lemma MeetsPlace(mid: Queue, choice: Choice, n: nat)
    requires Listed(mid) && n < |mid.order|
    ensures n < |Meets(mid, choice).order| && Meets(mid, choice).order[n] == mid.order[n] && Waits(Meets(mid, choice), mid.order[n])
  {
    assert mid.order[n] in mid.order;
  }

  lemma SinceSame(trace: seq<Queue>, mids: seq<Queue>, i: nat, id: string)
    requires i + 1 < |trace| == |mids| + 1 && Waits(trace[i], id) && Waits(mids[i], id) && Waits(trace[i + 1], id)
    ensures Since(trace, mids, i + 1, id) == Since(trace, mids, i, id)
  {
  }

  /** The place of an identifier in a middle state and in the state after it is as long held as before. */
  lemma SinceStays(trace: seq<Queue>, mids: seq<Queue>, i: nat, choice: Choice, n: nat) returns (m: nat)
    requires i + 1 < |trace| == |mids| + 1 && Listed(trace[i]) && IsRound(trace[i], mids[i], choice, trace[i + 1])
    requires n < |mids[i].order|
    ensures m < |trace[i].order| && m == n + |trace[i].order| - |mids[i].order| && n < |trace[i + 1].order|
    ensures var id := trace[i + 1].order[n];
      && id == trace[i].order[m] && Waits(trace[i], id) && Waits(trace[i + 1], id)
      && Since(trace, mids, i + 1, id) == Since(trace, mids, i, id)
  {
    TakesListed(trace[i]);
    m := TakesPlace(trace[i], n);
    MeetsPlace(mids[i], choice, n);
    SinceSame(trace, mids, i, trace[i + 1].order[n]);
  }

  lemma RoundInOrder(trace: seq<Queue>, mids: seq<Queue>, i: nat, choice: Choice)
    requires i + 1 < |trace| == |mids| + 1 && InOrder(trace, mids, i) && IsRound(trace[i], mids[i], choice, trace[i + 1])
    ensures InOrder(trace, mids, i + 1)
  {
    TakesListed(trace[i]);
    MeetsListed(mids[i], choice);
    var order := trace[i + 1].order;
    forall m, n | 0 <= m < n < |order| ensures Since(trace, mids, i + 1, order[m]) < Since(trace, mids, i + 1, order[n]) {
      assert order[m] in order && order[n] in order;
      OrderGrows(mids[i], choice, n);
      var m' := SinceStays(trace, mids, i, choice, m);
      if n < |mids[i].order| {
        var n' := SinceStays(trace, mids, i, choice, n);
      }
    }
  }

  lemma {:induction false} InOrderAlways(choices: seq<Choice>, trace: seq<Queue>, mids: seq<Queue>, i: nat)
    requires IsRun(choices, trace, mids) && i < |trace|
    ensures InOrder(trace, mids, i)
  {
    if i > 0 {
      InOrderAlways(choices, trace, mids, i - 1);
      RoundInOrder(trace, mids, i - 1, choices[i - 1]);
    }
  }

  /**
   In every run waiting identifiers leave in the order in which they began to
   wait: when one is taken nothing was being sent, now its latest track is, and
   every other one began later and goes on waiting.  Otherwise nothing stops
   waiting.
   */
  lemma LeavesInTurn(choices: seq<Choice>, trace: seq<Queue>, mids: seq<Queue>, i: nat, a: string)
    requires IsRun(choices, trace, mids) && i < |choices|
    ensures Waits(mids[i], a) ==> Waits(trace[i + 1], a)
    ensures Waits(trace[i], a) && !Waits(mids[i], a) ==>
              && trace[i].toSend.None? && mids[i].toSend == Some(trace[i].latest[a]) && trace[i].latest[a].id == a
              && forall b :: Waits(trace[i], b) && b != a ==>
                               Waits(mids[i], b) && Since(trace, mids, i, a) < Since(trace, mids, i, b)
  {
    InOrderAlways(choices, trace, mids, i);
    assert IsRound(trace[i], mids[i], choices[i], trace[i + 1]);
    if Waits(trace[i], a) && !Waits(mids[i], a) {
      FrontLeaves(trace, mids, i, a);
    }
  }

  lemma FrontLeaves(trace: seq<Queue>, mids: seq<Queue>, i: nat, a: string)
    requires i + 1 < |trace| == |mids| + 1 && InOrder(trace, mids, i) && mids[i] == Takes(trace[i])
    requires Waits(trace[i], a) && !Waits(mids[i], a)
    ensures trace[i].toSend.None? && mids[i].toSend == Some(trace[i].latest[a]) && trace[i].latest[a].id == a
    ensures forall b :: Waits(trace[i], b) && b != a ==>
                          Waits(mids[i], b) && Since(trace, mids, i, a) < Since(trace, mids, i, b)
  {
    var order := trace[i].order;
    forall b | Waits(trace[i], b) && b != a ensures Waits(mids[i], b) && Since(trace, mids, i, a) < Since(trace, mids, i, b) {
      assert b in order;
      var n :| 0 <= n < |order| && order[n] == b;
    }
  }

  /**
   In every run the output gets one track whenever it has room and something is
   pending, or when it takes an arrival at once and nothing is; and only then.
   */
  lemma SendsWheneverPossible(choices: seq<Choice>, trace: seq<Queue>, mids: seq<Queue>, i: nat)
    requires IsRun(choices, trace, mids) && i < |choices|
    ensures var q, r, c := trace[i], trace[i + 1], choices[i];
      if c.OutputFrees? && Load(q) > 0 then |r.output| == |q.output| + 1 && q.output <= r.output
      else if c.Arrives? && c.ready && Load(q) == 0 then r.output == q.output + [c.track]
      else r.output == q.output
  {
    InOrderAlways(choices, trace, mids, i);
    assert IsRound(trace[i], mids[i], choices[i], trace[i + 1]);
    TakesKeepsLoad(trace[i]);
  }

  /** How often the output has room in rounds `i` to `j`. */
  function Rooms(choices: seq<Choice>, i: nat, j: nat): (n: nat)
    requires i <= j <= |choices|
    decreases j - i
  {
    if i == j then 0 else One(choices[i].OutputFrees?) + Rooms(choices, i + 1, j)
  }

  lemma {:induction false} OutputGrows(choices: seq<Choice>, trace: seq<Queue>, mids: seq<Queue>, i: nat, j: nat)
    requires IsRun(choices, trace, mids) && i <= j <= |choices|
    ensures trace[i].output <= trace[j].output
    decreases j - i
  {
    if i < j {
      assert IsRound(trace[i], mids[i], choices[i], trace[i + 1]);
      OutputGrows(choices, trace, mids, i + 1, j);
    }
  }

  /** What is being sent in the middle of a round goes out with the next room. */
  lemma {:induction false} GoesOut(choices: seq<Choice>, trace: seq<Queue>, mids: seq<Queue>, i: nat, j: nat)
    requires IsRun(choices, trace, mids) && i < j <= |choices| && mids[i].toSend.Some? && Rooms(choices, i, j) > 0
    ensures |mids[i].output| < |trace[j].output| && trace[j].output[|mids[i].output|] == mids[i].toSend
    decreases j - i
  {
    assert IsRound(trace[i], mids[i], choices[i], trace[i + 1]);
    if choices[i].OutputFrees? {
      OutputGrows(choices, trace, mids, i + 1, j);
    } else {
      assert IsRound(trace[i + 1], mids[i + 1], choices[i + 1], trace[i + 2]);
      GoesOut(choices, trace, mids, i + 1, j);
    }
  }

  /** One round brings what waits one place nearer if nothing is being sent, and a room frees the output. */
  lemma ComesNearer(q: Queue, mid: Queue, choice: Choice, r: Queue, k: nat)
    requires Listed(q) && IsRound(q, mid, choice, r) && k < |q.order| && (q.toSend.None? ==> k > 0)
    ensures var k' := if q.toSend.None? then k - 1 else k;
      && k' < |r.order| && r.order[k'] == q.order[k]
      && k' + One(r.toSend.Some?) + One(choice.OutputFrees?) == k + One(q.toSend.Some?)
      && |r.output| + One(r.toSend.Some?) >= |q.output| + One(q.toSend.Some?)
  {
    assert q.order[0] in q.order;
  }

  /** What waits at place `k` goes out after at most `k + 1` rooms, and one more if something is being sent. */
  lemma {:induction false} Served(choices: seq<Choice>, trace: seq<Queue>, mids: seq<Queue>, i: nat, j: nat, k: nat)
    returns (m: nat, p: nat)
    requires IsRun(choices, trace, mids) && i <= j <= |choices| && k < |trace[i].order|
    requires Rooms(choices, i, j) >= k + 1 + One(trace[i].toSend.Some?)
    ensures i <= m < j && Waits(trace[m], trace[i].order[k])
    ensures |trace[i].output| + One(trace[i].toSend.Some?) <= p < |trace[j].output|
    ensures trace[j].output[p] == Some(trace[m].latest[trace[i].order[k]])
    decreases j - i
  {
    InOrderAlways(choices, trace, mids, i);
    assert IsRound(trace[i], mids[i], choices[i], trace[i + 1]);
    assert trace[i].order[k] in trace[i].order;
    if trace[i].toSend.None? && k == 0 {
      m, p := i, |trace[i].output|;
      GoesOut(choices, trace, mids, i, j);
    } else {
      ComesNearer(trace[i], mids[i], choices[i], trace[i + 1], k);
      m, p := Served(choices, trace, mids, i + 1, j, if trace[i].toSend.None? then k - 1 else k);
    }
  }

  /** The identifiers that have been waiting for longer. */
  ghost function Ahead(trace: seq<Queue>, mids: seq<Queue>, i: nat, id: string): (ids: set<string>)
    requires i < |trace| == |mids| + 1 && Waits(trace[i], id)
  {
    set a | a in trace[i].latest && Since(trace, mids, i, a) < Since(trace, mids, i, id)
  }

  lemma {:induction false} DistinctCount(s: seq<string>, ids: set<string>)
    requires (forall m, n :: 0 <= m < n < |s| ==> s[m] != s[n]) && forall a :: a in ids <==> a in s
    ensures |ids| == |s|
  {
    if s == [] {
      assert ids == {};
    } else {
      var n := |s| - 1;
      assert s == s[..n] + [s[n]];
      DistinctCount(s[..n], ids - {s[n]});
    }
  }

  lemma PlaceIsAhead(trace: seq<Queue>, mids: seq<Queue>, i: nat, k: nat)
    requires i < |trace| == |mids| + 1 && InOrder(trace, mids, i) && k < |trace[i].order|
    ensures Waits(trace[i], trace[i].order[k]) && |Ahead(trace, mids, i, trace[i].order[k])| == k
  {
    var order, id := trace[i].order, trace[i].order[k];
    assert id in order;
    forall a ensures a in Ahead(trace, mids, i, id) <==> a in order[..k] {
      if a in trace[i].latest {
        assert a in order;
        var n :| 0 <= n < |order| && order[n] == a;
      }
    }
    DistinctCount(order[..k], Ahead(trace, mids, i, id));
  }

  /**
   Whatever arrives, an identifier with `k` others waiting for longer is sent
   before the output has had room `k + 2` times: a track of it that was waiting
   then or later, behind what was being sent.
   */
  lemma ServedInTime(choices: seq<Choice>, trace: seq<Queue>, mids: seq<Queue>, i: nat, j: nat, id: string)
    returns (m: nat, p: nat)
    requires IsRun(choices, trace, mids) && i <= j <= |choices| && Waits(trace[i], id)
    requires Rooms(choices, i, j) >= |Ahead(trace, mids, i, id)| + 2
    ensures i <= m < j && Waits(trace[m], id)
    ensures |trace[i].output| + One(trace[i].toSend.Some?) <= p < |trace[j].output|
    ensures trace[j].output[p] == Some(trace[m].latest[id])
  {
    InOrderAlways(choices, trace, mids, i);
    assert id in trace[i].order;
    var k :| 0 <= k < |trace[i].order| && trace[i].order[k] == id;
    PlaceIsAhead(trace, mids, i, k);
    m, p := Served(choices, trace, mids, i, j, k);
  }
}
