/** The DHT routing table: buckets of at most 8 nodes, bucket i for nodes that share i leading
    bits with our identifier, the last one for all that share more, splitting when it is full.
    See BEP 5, section "Routing Table". */
module Routing {
  import opened Distance

  const KBUCKETS_DEEP: nat := 8

  /** A node is told apart by its address; two nodes may claim one identifier. */
  datatype Node = Node(id: Guid, address: nat)

  type Table = seq<seq<Node>>

  /** The nodes for which p holds, in their order. */
  function Filter(nodes: seq<Node>, p: Node -> bool): (r: seq<Node>)
    ensures forall n :: n in r <==> n in nodes && p(n)
    ensures |r| <= |nodes|
  {
    if nodes == [] then []
    else Filter(nodes[..|nodes| - 1], p) + if p(nodes[|nodes| - 1]) then [nodes[|nodes| - 1]] else []
  }

  /** `update_nodes`: the dead are dropped (pings are disabled and answer nothing). */
  function Alive(nodes: seq<Node>, dead: set<Node>): seq<Node> {
    Filter(nodes, (n: Node) => n !in dead)
  }

  /** `Kbucket::AddNode`: when the bucket is full, only after dropping the dead makes room. */
  function Added(nodes: seq<Node>, n: Node, dead: set<Node>): (seq<Node>, bool) {
    if |nodes| < KBUCKETS_DEEP then (nodes + [n], true)
    else if |Alive(nodes, dead)| < KBUCKETS_DEEP then (Alive(nodes, dead) + [n], true)
    else (Alive(nodes, dead), false)
  }

  /** `Kbucket::Kick`: the first node with this identifier. */
  function Kicked(nodes: seq<Node>, id: Guid): seq<Node> {
    if nodes == [] then []
    else if nodes[0].id == id then nodes[1..]
    else [nodes[0]] + Kicked(nodes[1..], id)
  }

  function Stay(nodes: seq<Node>, master: Guid, i: nat): seq<Node> {
    Filter(nodes, (n: Node) => SharedBits(n.id, master) == i)
  }

  function Move(nodes: seq<Node>, master: Guid, i: nat): seq<Node> {
    Filter(nodes, (n: Node) => SharedBits(n.id, master) != i)
  }

  /** The first lookup creates the first bucket. */
  function Started(t: Table): (r: Table)
    ensures |r| > 0
  {
    if t == [] then [[]] else t
  }

  /** `FindBucket` among n buckets. */
  function BucketOf(n: nat, master: Guid, id: Guid): (i: nat)
    requires n > 0
    ensures i < n
  {
    if SharedBits(master, id) < n - 1 then SharedBits(master, id) else n - 1
  }

  /** `try_to_split`. */
  predicate CanSplit(t: Table) {
    0 < |t| < SHA1_SIZE_BITS - 1 && |t[|t| - 1]| > 0
  }

  function SplitLast(t: Table, master: Guid): Table
    requires |t| > 0
  {
    var last := |t| - 1;
    t[last := Stay(t[last], master, last)] + [Move(t[last], master, last)]
  }

  /** `InsertNode`: after a split the node is offered to the old bucket again, whatever number
      of bits it shares. */
  function Inserted(t: Table, master: Guid, n: Node, dead: set<Node>): Table {
    var t0 := Started(t);
    var i := BucketOf(|t0|, master, n.id);
    var (nodes, ok) := Added(t0[i], n, dead);
    var t1 := t0[i := nodes];
    if !ok && i == |t1| - 1 && CanSplit(t1) then
      var t2 := SplitLast(t1, master);
      t2[i := Added(t2[i], n, dead).0]
    else t1
  }

  function KickedFrom(t: Table, master: Guid, id: Guid): Table {
    var t0 := Started(t);
    var i := BucketOf(|t0|, master, id);
    t0[i := Kicked(t0[i], id)]
  }

  /** The refresh timer of bucket i. */
  function Refreshed(t: Table, i: nat, dead: set<Node>): Table {
    if i < |t| then t[i := Alive(t[i], dead)] else t
  }

  /** Few enough buckets never to outgrow the reserved vector, none with more than 8 nodes, and
      every node of bucket i shares at least i leading bits with us. */
  ghost predicate TableOk(t: Table, master: Guid) {
    && |t| < SHA1_SIZE_BITS
    && (forall i :: 0 <= i < |t| ==> |t[i]| <= KBUCKETS_DEEP)
    && forall i, n :: 0 <= i < |t| && n in t[i] ==> SharedBits(master, n.id) >= i
  }

  lemma AddedOk(nodes: seq<Node>, n: Node, dead: set<Node>)
    requires |nodes| <= KBUCKETS_DEEP
    ensures |Added(nodes, n, dead).0| <= KBUCKETS_DEEP
    ensures forall x :: x in Added(nodes, n, dead).0 ==> x == n || x in nodes
  {
  }

  lemma SplitOk(t: Table, master: Guid)
    requires TableOk(t, master) && CanSplit(t)
    ensures TableOk(SplitLast(t, master), master)
    ensures forall n :: n in SplitLast(t, master)[|t| - 1] ==> SharedBits(master, n.id) == |t| - 1
    ensures forall n :: n in SplitLast(t, master)[|t|] ==> SharedBits(master, n.id) >= |t|
  {
    hide SharedBits;
    forall n: Node
      ensures SharedBits(master, n.id) == SharedBits(n.id, master)
    {
      SharedEnd(master, n.id);
    }
  }

  lemma AddedKeepsOk(t: Table, master: Guid, i: nat, n: Node, dead: set<Node>)
    requires TableOk(t, master) && i < |t| && SharedBits(master, n.id) >= i
    ensures TableOk(t[i := Added(t[i], n, dead).0], master)
  {
    hide SharedBits, Added;
    AddedOk(t[i], n, dead);
  }

  lemma StartedOk(t: Table, master: Guid, n: Node)
    requires TableOk(t, master)
    ensures TableOk(Started(t), master) && SharedBits(master, n.id) >= BucketOf(|Started(t)|, master, n.id)
  {
    hide SharedBits;
  }

  lemma InsertedOk(t: Table, master: Guid, n: Node, dead: set<Node>)
    requires TableOk(t, master)
    ensures TableOk(Inserted(t, master, n, dead), master)
  {
    StartedOk(t, master, n);
    var t0 := Started(t);
    var i := BucketOf(|t0|, master, n.id);
    hide SharedBits, Added, SplitLast, TableOk, BucketOf, Started;
    AddedKeepsOk(t0, master, i, n, dead);
    var t1 := t0[i := Added(t0[i], n, dead).0];
    if !Added(t0[i], n, dead).1 && i == |t1| - 1 && CanSplit(t1) {
      SplitOk(t1, master);
      SplitLength(t1, master);
      AddedKeepsOk(SplitLast(t1, master), master, i, n, dead);
    }
  }

  lemma SplitLength(t: Table, master: Guid)
    requires |t| > 0
    ensures |SplitLast(t, master)| == |t| + 1
  {
  }

  lemma {:induction false} KickedSubset(nodes: seq<Node>, id: Guid)
    ensures |Kicked(nodes, id)| <= |nodes|
    ensures forall x :: x in Kicked(nodes, id) ==> x in nodes
  {
    if nodes != [] && nodes[0].id != id {
      KickedSubset(nodes[1..], id);
    }
  }

  datatype Op =
    | Insert(node: Node, dead: set<Node>)
    | Kick(id: Guid)
    | Refresh(bucket: nat, dead: set<Node>)

  function Apply(t: Table, master: Guid, op: Op): Table {
    match op
    case Insert(n, dead) => Inserted(t, master, n, dead)
    case Kick(id) => KickedFrom(t, master, id)
    case Refresh(i, dead) => Refreshed(t, i, dead)
  }

  function Run(master: Guid, ops: seq<Op>): Table {
    if ops == [] then [] else Apply(Run(master, ops[..|ops| - 1]), master, ops[|ops| - 1])
  }

  lemma {:induction false} ApplyOk(t: Table, master: Guid, op: Op)
    requires TableOk(t, master)
    ensures TableOk(Apply(t, master, op), master)
  {
    match op
    case Insert(n, dead) => InsertedOk(t, master, n, dead);
    case Kick(id) => KickedSubset(Started(t)[BucketOf(|Started(t)|, master, id)], id);
    case Refresh(i, dead) =>
  }

  /** Whatever is inserted, kicked and found dead, in any order, the table stays in order. */
  lemma {:induction false} RunOk(master: Guid, ops: seq<Op>)
    ensures TableOk(Run(master, ops), master)
  {
    if ops != [] {
      RunOk(master, ops[..|ops| - 1]);
      ApplyOk(Run(master, ops[..|ops| - 1]), master, ops[|ops| - 1]);
    }
  }

  /** All nodes of the table, with multiplicity. */
  ghost function Contents(t: Table): multiset<Node> {
    if t == [] then multiset{} else Contents(t[..|t| - 1]) + multiset(t[|t| - 1])
  }

  lemma {:induction false} ContentsSwap(t: Table, i: nat, nodes: seq<Node>)
    requires i < |t|
    ensures Contents(t[i := nodes]) + multiset(t[i]) == Contents(t) + multiset(nodes)
  {
    var last := |t| - 1;
    if i < last {
      ContentsSwap(t[..last], i, nodes);
      assert t[i := nodes][..last] == t[..last][i := nodes] && t[..last][i] == t[i];
      var x, y, rest := Contents(t[..last][i := nodes]), Contents(t[..last]), multiset(t[last]);
      assert Contents(t[i := nodes]) == x + rest && Contents(t) == y + rest;
      assert x + rest + multiset(t[i]) == x + multiset(t[i]) + rest;
    } else {
      assert t[i := nodes][..last] == t[..last];
    }
  }

  lemma {:induction false} FilterParts(nodes: seq<Node>, p: Node -> bool, q: Node -> bool)
    requires forall n :: n in nodes ==> p(n) == !q(n)
    ensures multiset(Filter(nodes, p)) + multiset(Filter(nodes, q)) == multiset(nodes)
  {
    if nodes != [] {
      var front, n := nodes[..|nodes| - 1], nodes[|nodes| - 1];
      FilterParts(front, p, q);
      assert multiset(nodes) == multiset(front) + multiset{n} by {
        assert nodes == front + [n];
      }
      assert Filter(nodes, p) == Filter(front, p) + if p(n) then [n] else [];
      assert Filter(nodes, q) == Filter(front, q) + if q(n) then [n] else [];
    }
  }

  /** A split moves every node to one of the two buckets and loses or copies none. */
  lemma {:induction false} SplitConserves(t: Table, master: Guid)
    requires |t| > 0
    ensures Contents(SplitLast(t, master)) == Contents(t)
  {
    var last := |t| - 1;
    FilterParts(t[last], (n: Node) => SharedBits(n.id, master) == last, (n: Node) => SharedBits(n.id, master) != last);
    ContentsSwap(t, last, Stay(t[last], master, last));
    var t' := SplitLast(t, master);
    assert t'[..|t'| - 1] == t[last := Stay(t[last], master, last)];
  }

  /** This insertion splits the last bucket. */
  predicate Splits(t: Table, master: Guid, n: Node, dead: set<Node>) {
    var t0 := Started(t);
    var i := BucketOf(|t0|, master, n.id);
    !Added(t0[i], n, dead).1 && i == |t0| - 1 && |t0| < SHA1_SIZE_BITS - 1
  }

  /** This insertion stores the node. */
  predicate Stores(t: Table, master: Guid, n: Node, dead: set<Node>) {
    var t0 := Started(t);
    var i := BucketOf(|t0|, master, n.id);
    || Added(t0[i], n, dead).1
    || (Splits(t, master, n, dead) && Added(Stay(Alive(t0[i], dead), master, i), n, dead).1)
  }

  /** `after` is `before` with one n more if `plus`, and possibly fewer dead nodes. */
  ghost predicate Grown(before: multiset<Node>, after: multiset<Node>, n: Node, plus: bool, dead: set<Node>) {
    forall x :: && after[x] <= before[x] + (if plus && x == n then 1 else 0)
                && (x !in dead ==> after[x] == before[x] + if plus && x == n then 1 else 0)
  }

  lemma {:induction false} AliveBag(nodes: seq<Node>, dead: set<Node>)
    ensures forall x :: multiset(Alive(nodes, dead))[x] == if x in dead then 0 else multiset(nodes)[x]
  {
    FilterParts(nodes, (n: Node) => n !in dead, (n: Node) => n in dead);
    var kept, lost := Alive(nodes, dead), Filter(nodes, (n: Node) => n in dead);
    forall x
      ensures multiset(kept)[x] == if x in dead then 0 else multiset(nodes)[x]
    {
      assert x in multiset(kept) <==> x in kept;
      assert x in multiset(lost) <==> x in lost;
    }
  }

  lemma AddedBag(nodes: seq<Node>, n: Node, dead: set<Node>)
    ensures Grown(multiset(nodes), multiset(Added(nodes, n, dead).0), n, Added(nodes, n, dead).1, dead)
  {
    AliveBag(nodes, dead);
  }

  lemma SwapGrown(t: Table, i: nat, nodes: seq<Node>, n: Node, plus: bool, dead: set<Node>)
    requires i < |t| && Grown(multiset(t[i]), multiset(nodes), n, plus, dead)
    ensures Grown(Contents(t), Contents(t[i := nodes]), n, plus, dead)
  {
    ContentsSwap(t, i, nodes);
    var a, b := Contents(t), Contents(t[i := nodes]);
    forall x
      ensures b[x] + multiset(t[i])[x] == a[x] + multiset(nodes)[x]
    {
      assert (b + multiset(t[i]))[x] == (a + multiset(nodes))[x];
    }
  }

  lemma StartedContents(t: Table)
    ensures Contents(Started(t)) == Contents(t)
  {
    if t == [] {
      assert Started(t)[..0] == [];
    }
  }

  lemma GrownTwice(a: multiset<Node>, b: multiset<Node>, c: multiset<Node>, n: Node, plus: bool, dead: set<Node>)
    requires Grown(a, b, n, false, dead) && Grown(b, c, n, plus, dead)
    ensures Grown(a, c, n, plus, dead)
  {
  }

  /** The table before the node is offered again. */
  function FirstTry(t: Table, master: Guid, n: Node, dead: set<Node>): Table {
    var t0 := Started(t);
    var i := BucketOf(|t0|, master, n.id);
    t0[i := Added(t0[i], n, dead).0]
  }

  lemma InsertCases(t: Table, master: Guid, n: Node, dead: set<Node>)
    ensures var t0 := Started(t);
            var i := BucketOf(|t0|, master, n.id);
            var t1 := FirstTry(t, master, n, dead);
            if Splits(t, master, n, dead) then
              && !Added(t0[i], n, dead).1
              && i == |t0| - 1 == |t1| - 1
              && SplitLast(t1, master)[i] == Stay(Alive(t0[i], dead), master, i)
              && Stores(t, master, n, dead) == Added(SplitLast(t1, master)[i], n, dead).1
              && Inserted(t, master, n, dead) ==
                 SplitLast(t1, master)[i := Added(SplitLast(t1, master)[i], n, dead).0]
            else
              Inserted(t, master, n, dead) == t1 && Stores(t, master, n, dead) == Added(t0[i], n, dead).1
  {
  }

  /** An insertion adds the node at most once, exactly when it stores it, and takes away none but
      dead nodes, splits included. */
  lemma InsertConserves(t: Table, master: Guid, n: Node, dead: set<Node>)
    ensures Grown(Contents(t), Contents(Inserted(t, master, n, dead)), n, Stores(t, master, n, dead), dead)
  {
    InsertCases(t, master, n, dead);
    StartedContents(t);
    var t0 := Started(t);
    var i := BucketOf(|t0|, master, n.id);
    var t1 := FirstTry(t, master, n, dead);
    assert t1 == t0[i := Added(t0[i], n, dead).0];
    hide Contents, Added, SplitLast, Alive, Started, BucketOf, Splits, Stores, Inserted, FirstTry, Grown;
    AddedBag(t0[i], n, dead);
    SwapGrown(t0, i, Added(t0[i], n, dead).0, n, Added(t0[i], n, dead).1, dead);
    if Splits(t, master, n, dead) {
      SplitConserves(t1, master);
      var t2 := SplitLast(t1, master);
      AddedBag(t2[i], n, dead);
      SwapGrown(t2, i, Added(t2[i], n, dead).0, n, Added(t2[i], n, dead).1, dead);
      GrownTwice(Contents(t0), Contents(t2), Contents(t2[i := Added(t2[i], n, dead).0]), n,
                 Added(t2[i], n, dead).1, dead);
    }
  }

  lemma {:induction false} FilterAll(nodes: seq<Node>, p: Node -> bool)
    ensures |Filter(nodes, p)| == |nodes| <==> forall x :: x in nodes ==> p(x)
  {
    if nodes != [] {
      var front, last := nodes[..|nodes| - 1], nodes[|nodes| - 1];
      FilterAll(front, p);
      assert nodes == front + [last];
    }
  }

  lemma AliveRoom(nodes: seq<Node>, dead: set<Node>)
    requires |nodes| <= KBUCKETS_DEEP
    ensures |Alive(nodes, dead)| < KBUCKETS_DEEP <==> |nodes| < KBUCKETS_DEEP || exists x :: x in nodes && x in dead
    ensures |Alive(nodes, dead)| == KBUCKETS_DEEP ==> Alive(nodes, dead) == nodes
    ensures |Alive(nodes, dead)| <= KBUCKETS_DEEP
  {
    FilterAll(nodes, (n: Node) => n !in dead);
    if |Alive(nodes, dead)| == KBUCKETS_DEEP {
      AllAlive(nodes, dead);
    }
  }

  lemma {:induction false} AllAlive(nodes: seq<Node>, dead: set<Node>)
    requires forall x :: x in nodes ==> x !in dead
    ensures Alive(nodes, dead) == nodes
  {
    if nodes != [] {
      AllAlive(nodes[..|nodes| - 1], dead);
      assert nodes == nodes[..|nodes| - 1] + [nodes[|nodes| - 1]];
    }
  }

  /** A node is turned away exactly if the bucket of its lookup is full of live nodes and cannot be
      split with a gain: it is not the last, there are 159 buckets, or its nodes all share just the
      bits it stands for. */
  lemma InsertStores(t: Table, master: Guid, n: Node, dead: set<Node>)
    requires TableOk(t, master)
    ensures !Stores(t, master, n, dead) <==>
            var home := Home(t, master, n.id);
            && |home| == 8 && (forall x :: x in home ==> x !in dead)
            && (|| BucketOf(|Started(t)|, master, n.id) != |Started(t)| - 1
                || |Started(t)| >= 159
                || forall x :: x in home ==> SharedBits(x.id, master) == |Started(t)| - 1)
  {
    hide SharedBits, Alive, Filter;
    StartedOk(t, master, n);
    var home, i := Home(t, master, n.id), BucketOf(|Started(t)|, master, n.id);
    AliveRoom(home, dead);
    if |Alive(home, dead)| == KBUCKETS_DEEP {
      StayRoom(home, master, i, dead);
      hide Stay;
    }
  }

  lemma StayRoom(nodes: seq<Node>, master: Guid, i: nat, dead: set<Node>)
    requires forall x :: x in nodes ==> x !in dead
    ensures Alive(Stay(nodes, master, i), dead) == Stay(nodes, master, i)
    ensures |Stay(nodes, master, i)| == |nodes| <==> forall x :: x in nodes ==> SharedBits(x.id, master) == i
    ensures |Stay(nodes, master, i)| <= |nodes|
  {
    AllAlive(Stay(nodes, master, i), dead);
    FilterAll(nodes, (x: Node) => SharedBits(x.id, master) == i);
  }

  /** The refresh of a bucket takes away its dead nodes and nothing else. */
  lemma RefreshTakesDead(t: Table, i: nat, dead: set<Node>)
    requires i < |t|
    ensures var r := Refreshed(t, i, dead);
      && |r| == |t| && (forall j :: 0 <= j < |t| && j != i ==> r[j] == t[j])
      && forall x :: multiset(r[i])[x] == if x in dead then 0 else multiset(t[i])[x]
  {
    AliveBag(t[i], dead);
  }

  predicate Has(nodes: seq<Node>, id: Guid) {
    exists k :: 0 <= k < |nodes| && nodes[k].id == id
  }

  /** A kick takes one node with the identifier out of a bucket that has any. */
  lemma {:induction false} KickedBag(nodes: seq<Node>, id: Guid) returns (n: Node)
    requires Has(nodes, id)
    ensures n.id == id && multiset(nodes) == multiset(Kicked(nodes, id)) + multiset{n}
  {
    assert nodes == [nodes[0]] + nodes[1..];
    n := nodes[0];
    if nodes[0].id != id {
      var k :| 0 <= k < |nodes| && nodes[k].id == id;
      assert nodes[1..][k - 1] == nodes[k];
      n := KickedBag(nodes[1..], id);
    }
  }

  lemma {:induction false} KickedNone(nodes: seq<Node>, id: Guid)
    requires !Has(nodes, id)
    ensures Kicked(nodes, id) == nodes
  {
    if nodes != [] {
      assert forall k :: 0 <= k < |nodes[1..]| ==> nodes[1..][k] == nodes[k + 1];
      KickedNone(nodes[1..], id);
    }
  }

  /** The bucket a lookup of the identifier gives. */
  function Home(t: Table, master: Guid, id: Guid): seq<Node> {
    Started(t)[BucketOf(|Started(t)|, master, id)]
  }

  lemma Cancel(before: multiset<Node>, after: multiset<Node>, a: multiset<Node>, b: multiset<Node>, n: Node)
    requires after + a == before + b && a == b + multiset{n}
    ensures before == after + multiset{n}
  {
    forall x ensures before[x] == (after + multiset{n})[x] {
      assert (after + a)[x] == (before + b)[x];
    }
  }

  /** `KickNode` takes exactly one node out of the table, one with the identifier, if the bucket
      of the lookup has any; otherwise it changes no bucket. */
  lemma {:induction false} KickTakesOne(t: Table, master: Guid, id: Guid) returns (n: Node)
    ensures Has(Home(t, master, id), id) ==>
              n.id == id && Contents(t) == Contents(KickedFrom(t, master, id)) + multiset{n}
    ensures !Has(Home(t, master, id), id) ==> KickedFrom(t, master, id) == Started(t)
  {
    var t0 := Started(t);
    var i := BucketOf(|t0|, master, id);
    StartedContents(t);
    n := Node(id, 0);
    if Has(t0[i], id) {
      n := KickedBag(t0[i], id);
      ContentsSwap(t0, i, Kicked(t0[i], id));
      hide Contents, Kicked;
      Cancel(Contents(t), Contents(KickedFrom(t, master, id)), multiset(t0[i]), multiset(Kicked(t0[i], id)), n);
    } else {
      KickedNone(t0[i], id);
    }
  }

  lemma {:induction false} KickLast(nodes: seq<Node>, n: Node)
    requires forall x :: x in nodes ==> x.id != n.id
    ensures Kicked(nodes + [n], n.id) == nodes
  {
    if nodes != [] {
      assert (nodes + [n])[1..] == nodes[1..] + [n];
      KickLast(nodes[1..], n);
    } else {
      assert (nodes + [n])[1..] == [];
    }
  }

  predicate In(t: Table, n: Node) {
    exists i :: 0 <= i < |t| && n in t[i]
  }

  /** Kicking a node that was just stored, the only one with its identifier, takes it out again
      exactly if the insertion did not split, or split at the very number of bits the node
      shares: otherwise the lookup goes to a bucket the node is not in. */
  lemma {:induction false} KickUndoesInsert(t: Table, master: Guid, n: Node, dead: set<Node>)
    requires Stores(t, master, n, dead)
    requires forall i, x :: 0 <= i < |t| && x in t[i] ==> x.id != n.id
    ensures In(Inserted(t, master, n, dead), n)
    ensures In(KickedFrom(Inserted(t, master, n, dead), master, n.id), n) <==>
            Splits(t, master, n, dead) && SharedBits(master, n.id) >= |Started(t)|
  {
    InsertCases(t, master, n, dead);
    var t0 := Started(t);
    var i := BucketOf(|t0|, master, n.id);
    var t1 := FirstTry(t, master, n, dead);
    var t' := Inserted(t, master, n, dead);
    OthersKeepAway(t, master, n, dead);
    var front := if Splits(t, master, n, dead) then SplitLast(t1, master)[i] else t0[i];
    var kept := if |front| < KBUCKETS_DEEP then front else Alive(front, dead);
    assert t'[i] == kept + [n];
    hide Splits, Stores, Inserted, FirstTry, Added, SplitLast, Alive, Started;
    KickFinds(t', master, i, kept, n);
  }

  /** No other bucket gets a node with this identifier, and the node's bucket has it last. */
  lemma OthersKeepAway(t: Table, master: Guid, n: Node, dead: set<Node>)
    requires forall i, x :: 0 <= i < |t| && x in t[i] ==> x.id != n.id
    ensures var t' := Inserted(t, master, n, dead);
            forall j, x :: 0 <= j < |t'| && j != BucketOf(|Started(t)|, master, n.id) && x in t'[j] ==> x.id != n.id
  {
  }

  lemma {:induction false} KickFinds(t: Table, master: Guid, i: nat, kept: seq<Node>, n: Node)
    requires i < |t| && t[i] == kept + [n]
    requires forall x :: x in kept ==> x.id != n.id
    requires forall j, x :: 0 <= j < |t| && j != i && x in t[j] ==> x.id != n.id
    ensures In(KickedFrom(t, master, n.id), n) <==> BucketOf(|t|, master, n.id) != i
  {
    KickLast(kept, n);
    var t' := KickedFrom(t, master, n.id);
    if BucketOf(|t|, master, n.id) != i {
      assert n in t'[i];
    }
  }

  /** The identifier with bit k alone set. */
  function OneBit(k: nat): Guid {
    seq(SHA1_SIZE_BITS, i => i == k)
  }

  function NoBits(): Guid {
    seq(SHA1_SIZE_BITS, _ => false)
  }

  lemma OneBitShares(k: nat)
    requires k < SHA1_SIZE_BITS
    ensures SharedBits(NoBits(), OneBit(k)) == SharedBits(OneBit(k), NoBits()) == k
  {
    hide SharedBits;
    SharedEnd(NoBits(), OneBit(k));
    SharedAgree(NoBits(), OneBit(k), k);
  }

  lemma {:induction false} NoneDead(nodes: seq<Node>)
    ensures Alive(nodes, {}) == nodes
  {
    if nodes != [] {
      NoneDead(nodes[..|nodes| - 1]);
      assert nodes == nodes[..|nodes| - 1] + [nodes[|nodes| - 1]];
    }
  }

  /** Seven nodes that share no bit with an identifier of zeros and one that shares three. */
  function EightNodes(): (nodes: seq<Node>)
    ensures |nodes| == 8 && nodes[7] == Node(OneBit(3), 7)
    ensures forall x :: x in nodes ==> x.id == OneBit(0) || x.id == OneBit(3)
  {
    seq(7, a requires 0 <= a => Node(OneBit(0), a)) + [Node(OneBit(3), 7)]
  }

  lemma StayIsSmall(nodes: seq<Node>, x: Node, master: Guid, i: nat)
    requires x in nodes && SharedBits(x.id, master) != i
    ensures |Stay(nodes, master, i)| < |nodes|
  {
    FilterParts(nodes, (x: Node) => SharedBits(x.id, master) == i, (x: Node) => SharedBits(x.id, master) != i);
    var stay, move := Stay(nodes, master, i), Move(nodes, master, i);
    assert x in move;
    assert |stay| + |move| == |multiset(stay) + multiset(move)| == |multiset(nodes)| == |nodes|;
  }

  function Inserts(nodes: seq<Node>): seq<Op> {
    seq(|nodes|, k requires 0 <= k < |nodes| => Insert(nodes[k], {}))
  }

  lemma FirstBucketTakes(master: Guid, nodes: seq<Node>, n: Node)
    requires |nodes| < KBUCKETS_DEEP
    ensures Inserted(if nodes == [] then [] else [nodes], master, n, {}) == [nodes + [n]]
  {
    hide SharedBits, Alive;
    var t0 := Started(if nodes == [] then [] else [nodes]);
    assert t0 == [nodes] && BucketOf(1, master, n.id) == 0;
    assert t0[0 := nodes + [n]] == [nodes + [n]];
  }

  /** The first eight nodes go to the first bucket, whatever they share. */
  lemma {:induction false} FirstBucketFills(master: Guid, nodes: seq<Node>)
    requires |nodes| <= KBUCKETS_DEEP
    ensures Run(master, Inserts(nodes)) == if nodes == [] then [] else [nodes]
  {
    hide Inserted;
    if nodes != [] {
      var last := |nodes| - 1;
      FirstBucketFills(master, nodes[..last]);
      FirstBucketTakes(master, nodes[..last], nodes[last]);
      assert Inserts(nodes)[..last] == Inserts(nodes[..last]);
      assert Inserts(nodes)[last] == Insert(nodes[last], {});
      assert nodes == nodes[..last] + [nodes[last]];
    }
  }

  /** What is special about these nodes and a ninth that shares one bit. */
  lemma NinthNode()
    ensures SharedBits(NoBits(), OneBit(1)) == 1 && SharedBits(OneBit(3), NoBits()) == 3
    ensures forall x :: x in EightNodes() ==> x.id != OneBit(1)
    ensures |Stay(EightNodes(), NoBits(), 0)| < KBUCKETS_DEEP && Alive(EightNodes(), {}) == EightNodes()
  {
    OneBitShares(1);
    OneBitShares(3);
    assert OneBit(1)[1] && !OneBit(0)[1] && !OneBit(3)[1];
    NoneDead(EightNodes());
    hide OneBit, NoBits, SharedBits, Filter;
    StayIsSmall(EightNodes(), EightNodes()[7], NoBits(), 0);
  }

  /** A node that cannot be kicked, in a table that eight insertions lead to: the ninth node
      shares one bit, its insertion splits the bucket, and it stays in the old one, where no
      lookup goes any more. */
  lemma StrandedNode() returns (t: Table, master: Guid, n: Node)
    ensures t == Run(master, Inserts(EightNodes()))
    ensures TableOk(t, master) && Stores(t, master, n, {})
    ensures forall i, x :: 0 <= i < |t| && x in t[i] ==> x.id != n.id
    ensures In(KickedFrom(Inserted(t, master, n, {}), master, n.id), n)
  {
    hide OneBit, NoBits, EightNodes, SharedBits, Filter, Run, Stay, Inserted, KickedFrom, In, Alive, TableOk;
    master, n, t := NoBits(), Node(OneBit(1), 8), [EightNodes()];
    SizeOfEight();
    FirstBucketFills(master, EightNodes());
    RunOk(master, Inserts(EightNodes()));
    NinthNode();
    KickUndoesInsert(t, master, n, {});
  }

  lemma SizeOfEight()
    ensures |EightNodes()| == KBUCKETS_DEEP
  {
  }

  /** Which identifiers a lookup sends to which of n buckets, as ranges of the XOR distance: the
      ranges are disjoint and cover all, and one more bucket only cuts the last of them in two. */
  lemma BucketRange(n: nat, master: Guid, id: Guid, i: nat)
    requires i < n <= SHA1_SIZE_BITS
    ensures var x := Value(Xor(master, id));
            BucketOf(n, master, id) == i <==>
            (if i < n - 1 then Pow2(SHA1_SIZE_BITS - 1 - i) else 0) <= x < Pow2(SHA1_SIZE_BITS - i)
  {
    var r := SharedBits(master, id);
    XorRange(master, id);
    assert r <= SHA1_SIZE_BITS;
    hide Pow2, Value, Xor, SharedBits;
    if r < i {
      Pow2Mono(SHA1_SIZE_BITS - i, SHA1_SIZE_BITS - 1 - r);
    } else if i < r {
      Pow2Mono(SHA1_SIZE_BITS - r, SHA1_SIZE_BITS - 1 - i);
      Pow2Mono(SHA1_SIZE_BITS - r, SHA1_SIZE_BITS - i);
    }
  }
}
