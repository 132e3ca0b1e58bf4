/** `Torrent::TryConnect` when it waits for all trackers: it takes the answer with the most
    peers, and moves trackers to the front of the list while it looks for it. */
module BestTracker {
  import opened Common

  /** An answer of a tracker; `rest` stands for whatever it holds besides the peers. */
  datatype Response = Response(peers: seq<nat>, rest: nat)

  datatype Result = Exception | Answer(response: Response)

  function PeersOf(r: Result): nat {
    if r.Answer? then |r.response.peers| else 0
  }

  /** More peers than every result before it, and at least one. */
  predicate Leads(results: seq<Result>, i: nat)
    requires i < |results|
  {
    PeersOf(results[i]) > 0 && forall k :: 0 <= k < i ==> PeersOf(results[k]) < PeersOf(results[i])
  }

  /** The first of the results with the most peers. */
  predicate Best(results: seq<Result>, i: nat) {
    && i < |results| && Leads(results, i)
    && forall k :: 0 <= k < |results| ==> PeersOf(results[k]) <= PeersOf(results[i])
  }

  /** Of the first n trackers, those whose results led, the last one first. */
  function Leaders(trackers: seq<nat>, results: seq<Result>, n: nat): seq<nat>
    requires n <= |trackers| == |results|
  {
    if n == 0 then []
    else if Leads(results, n - 1) then [trackers[n - 1]] + Leaders(trackers, results, n - 1)
    else Leaders(trackers, results, n - 1)
  }

  /** The others of the first n, in their order. */
  function Followers(trackers: seq<nat>, results: seq<Result>, n: nat): seq<nat>
    requires n <= |trackers| == |results|
  {
    if n == 0 then []
    else if Leads(results, n - 1) then Followers(trackers, results, n - 1)
    else Followers(trackers, results, n - 1) + [trackers[n - 1]]
  }

  function Reordered(trackers: seq<nat>, results: seq<Result>): seq<nat>
    requires |trackers| == |results|
  {
    Leaders(trackers, results, |results|) + Followers(trackers, results, |results|)
  }

  lemma {:induction false} Count(trackers: seq<nat>, results: seq<Result>, n: nat)
    requires n <= |trackers| == |results|
    ensures |Leaders(trackers, results, n)| + |Followers(trackers, results, n)| == n
  {
    hide Leads;
    if n > 0 {
      Count(trackers, results, n - 1);
    }
  }

  ghost predicate Parted(a: seq<nat>, b: seq<nat>, all: seq<nat>) {
    multiset(a) + multiset(b) == multiset(all)
  }

  lemma {:induction false} SameTrackers(trackers: seq<nat>, results: seq<Result>, n: nat)
    requires n <= |trackers| == |results|
    ensures Parted(Leaders(trackers, results, n), Followers(trackers, results, n), trackers[..n])
  {
    if n == 0 {
      assert trackers[..0] == [];
    } else {
      hide Leads, Parted;
      SameTrackers(trackers, results, n - 1);
      assert trackers[..n] == trackers[..n - 1] + [trackers[n - 1]];
      var (leaders, followers) := (Leaders(trackers, results, n - 1), Followers(trackers, results, n - 1));
      Gather(leaders, followers, trackers[..n - 1], trackers[n - 1]);
    }
  }

  lemma Gather(a: seq<nat>, b: seq<nat>, all: seq<nat>, t: nat)
    requires Parted(a, b, all)
    ensures Parted([t] + a, b, all + [t])
    ensures Parted(a, b + [t], all + [t])
  {
    assert multiset([t] + a) == multiset{t} + multiset(a);
    assert multiset(b + [t]) == multiset(b) + multiset{t};
    assert multiset(all + [t]) == multiset(all) + multiset{t};
  }

  /** The best result so far: the last that led. */
  predicate BestOf(results: seq<Result>, n: nat, i: nat) {
    n <= |results| && Best(results[..n], i)
  }

  lemma NewBest(results: seq<Result>, n: nat)
    requires n < |results| && Leads(results, n)
    ensures BestOf(results, n + 1, n)
  {
    assert forall k :: 0 <= k <= n ==> results[..n + 1][k] == results[k];
  }

  lemma SameBest(results: seq<Result>, n: nat, i: nat)
    requires n < |results| && BestOf(results, n, i) && !Leads(results, n)
    ensures BestOf(results, n + 1, i)
  {
    var r := results[..n + 1];
    assert forall k :: 0 <= k < n ==> r[k] == results[..n][k] == results[k];
    assert r[n] == results[n];
    if PeersOf(results[n]) > 0 {
      var k :| 0 <= k < n && PeersOf(results[n]) <= PeersOf(results[k]);
    }
  }

  lemma {:induction false} FrontLeader(trackers: seq<nat>, results: seq<Result>, n: nat, i: nat)
    requires n <= |trackers| == |results| && BestOf(results, n, i)
    ensures Leaders(trackers, results, n) != [] && Leaders(trackers, results, n)[0] == trackers[i]
  {
    assert forall k :: 0 <= k < n ==> results[..n][k] == results[k];
    if i < n - 1 {
      assert PeersOf(results[n - 1]) <= PeersOf(results[i]);
      assert !Leads(results, n - 1);
      assert forall k :: 0 <= k < n - 1 ==> results[..n - 1][k] == results[k];
      FrontLeader(trackers, results, n - 1, i);
    }
  }

  lemma {:induction false} NoLeaders(trackers: seq<nat>, results: seq<Result>, n: nat)
    requires n <= |trackers| == |results| && forall k :: 0 <= k < n ==> PeersOf(results[k]) == 0
    ensures Leaders(trackers, results, n) == [] && Followers(trackers, results, n) == trackers[..n]
  {
    if n > 0 {
      NoLeaders(trackers, results, n - 1);
      assert trackers[..n] == trackers[..n - 1] + [trackers[n - 1]];
    }
  }

  /** After the loop: the same trackers, the one with the best result in front if any had peers,
      and nothing moved if none had. */
  lemma ReorderedIsPermutation(trackers: seq<nat>, results: seq<Result>)
    requires |trackers| == |results|
    ensures multiset(Reordered(trackers, results)) == multiset(trackers)
    ensures forall i: nat :: Best(results, i) ==>
      Reordered(trackers, results) != [] && Reordered(trackers, results)[0] == trackers[i]
    ensures (forall k :: 0 <= k < |results| ==> PeersOf(results[k]) == 0) ==> Reordered(trackers, results) == trackers
  {
    var n := |results|;
    SameTrackers(trackers, results, n);
    assert trackers[..n] == trackers && results[..n] == results;
    forall i: nat | Best(results, i)
      ensures Reordered(trackers, results) != [] && Reordered(trackers, results)[0] == trackers[i]
    {
      FrontLeader(trackers, results, n, i);
    }
    if forall k :: 0 <= k < n ==> PeersOf(results[k]) == 0 {
      NoLeaders(trackers, results, n);
    }
  }

  const NO_RESPONSE := Response([], 0)

  /** No answer has more peers, and the response is one of them if it has any. */
  ghost predicate NoneHasMore(results: seq<Result>, response: Response) {
    && (forall k :: 0 <= k < |results| && results[k].Answer? ==> |results[k].response.peers| <= |response.peers|)
    && (response.peers != [] ==> exists k :: 0 <= k < |results| && results[k] == Answer(response))
  }

  lemma KeptHasMost(results: seq<Result>, at: Option<nat>, resp: Response)
    requires Kept(results, |results|, at, resp)
    ensures NoneHasMore(results, resp)
  {
    assert results[..|results|] == results;
  }

  /** The answer kept after n results, and whose it is. */
  predicate Kept(results: seq<Result>, n: nat, at: Option<nat>, resp: Response) {
    && n <= |results|
    && if at.None? then resp == NO_RESPONSE && forall k :: 0 <= k < n ==> PeersOf(results[k]) == 0
       else BestOf(results, n, at.value) && results[at.value] == Answer(resp)
  }

  lemma KeptAtStart(results: seq<Result>)
    ensures Kept(results, 0, None, NO_RESPONSE)
  {
  }

  lemma KeptStep(results: seq<Result>, n: nat, at: Option<nat>, resp: Response)
    requires n < |results| && Kept(results, n, at, resp)
    ensures PeersOf(results[n]) > |resp.peers| ==>
      Leads(results, n) && results[n].Answer? && Kept(results, n + 1, Some(n), results[n].response)
    ensures PeersOf(results[n]) <= |resp.peers| ==> !Leads(results, n) && Kept(results, n + 1, at, resp)
  {
    assert forall k :: 0 <= k < n ==> results[..n][k] == results[k];
    if PeersOf(results[n]) > |resp.peers| {
      NewBest(results, n);
    } else if at.Some? {
      assert PeersOf(results[at.value]) == |resp.peers|;
      SameBest(results, n, at.value);
    }
  }

  lemma KeptAtEnd(results: seq<Result>, at: Option<nat>, resp: Response)
    requires Kept(results, |results|, at, resp)
    ensures forall i: nat :: Best(results, i) ==> results[i] == Answer(resp)
    ensures resp == NO_RESPONSE || exists i: nat :: Best(results, i)
  {
    assert results[..|results|] == results;
    forall i: nat | Best(results, i) ensures at == Some(i) {
      assert PeersOf(results[i]) > 0;
    }
  }

  /** The list after n results: leaders, followers, and what was not visited in its place. */
  predicate Arranged(list: seq<nat>, trackers: seq<nat>, results: seq<Result>, n: nat) {
    && n <= |trackers| == |results|
    && list == Leaders(trackers, results, n) + Followers(trackers, results, n) + trackers[n..]
  }

  lemma ArrangedStep(list: seq<nat>, trackers: seq<nat>, results: seq<Result>, n: nat)
    requires Arranged(list, trackers, results, n) && n < |results|
    ensures |list| == |results| && list[n..] == trackers[n..]
    ensures Arranged(if Leads(results, n) then [list[n]] + list[..n] + list[n + 1..] else list,
                     trackers, results, n + 1)
  {
    hide Leads;
    var a, b, rest := Leaders(trackers, results, n), Followers(trackers, results, n), trackers[n..];
    Count(trackers, results, n);
    assert list[..n] == a + b && list[n..] == rest;
    assert rest == [trackers[n]] + trackers[n + 1..] && list[n] == rest[0];
    assert list[n + 1..] == list[n..][1..];
    assert [trackers[n]] + (a + b) == [trackers[n]] + a + b;
    assert a + b + ([trackers[n]] + trackers[n + 1..]) == a + (b + [trackers[n]]) + trackers[n + 1..];
  }

  lemma ArrangedEnds(list: seq<nat>, trackers: seq<nat>, results: seq<Result>)
    requires |trackers| == |results|
    ensures Arranged(trackers, trackers, results, 0)
    ensures Arranged(list, trackers, results, |results|) ==> list == Reordered(trackers, results)
  {
    hide Leads;
    assert trackers[0..] == trackers && trackers[|trackers|..] == [];
    assert [] + [] + trackers == trackers;
  }

  class Torrent {
    var activeTrackers: seq<nat>

    constructor (trackers: seq<nat>)
      ensures activeTrackers == trackers
    {
      activeTrackers := trackers;
    }

    /** `None` where the loop throws. */
    method TryConnectBest(results: seq<Result>) returns (best: Option<Response>)
      requires |results| == |activeTrackers|
      modifies this
      ensures activeTrackers == Reordered(old(activeTrackers), results)
      ensures best == None <==> forall k :: 0 <= k < |results| ==> results[k].Exception?
      ensures best.Some? ==> forall i: nat :: Best(results, i) ==> results[i] == Answer(best.value)
      ensures best.Some? ==> best.value == NO_RESPONSE || exists i: nat :: Best(results, i)
      ensures best.Some? ==> NoneHasMore(results, best.value)
    {
      hide Leads, Best, Kept, Arranged, Leaders, Followers, Reordered;
      ghost var trackers := activeTrackers;
      var resp := NO_RESPONSE;
      ghost var at: Option<nat> := None;
      KeptAtStart(results);
      ArrangedEnds(activeTrackers, trackers, results);
      var i, j := 0, 0;
      while i < |results|
        invariant 0 <= i <= |results| && j <= i
        invariant j == i <==> forall k :: 0 <= k < i ==> results[k].Exception?
        invariant Arranged(activeTrackers, trackers, results, i)
        invariant Kept(results, i, at, resp)
      {
        KeptStep(results, i, at, resp);
        ArrangedStep(activeTrackers, trackers, results, i);
        if results[i].Answer? {
          var response := results[i].response;
          if |response.peers| > |resp.peers| {
            resp := response;
            at := Some(i);
            activeTrackers := [activeTrackers[i]] + activeTrackers[..i] + activeTrackers[i + 1..];
          }
        } else {
          j := j + 1;
        }
        i := i + 1;
      }
      ArrangedEnds(activeTrackers, trackers, results);
      KeptAtEnd(results, at, resp);
      KeptHasMost(results, at, resp);
      if j == |results| {
        return None;
      }
      return Some(resp);
    }
  }
}
