/** `Kbucket` and `RouteTable` as objects, each method proved to do what the table functions say. */
module Buckets {
  import opened Common
  import opened Distance
  import opened Routing

  lemma {:induction false} KickedAt(nodes: seq<Node>, id: Guid, k: nat)
    requires k <= |nodes| && forall m :: 0 <= m < k ==> nodes[m].id != id
    requires k < |nodes| ==> nodes[k].id == id
    ensures Kicked(nodes, id) == if k < |nodes| then nodes[..k] + nodes[k + 1..] else nodes
  {
    if k > 0 {
      KickedAt(nodes[1..], id, k - 1);
      if k < |nodes| {
        assert nodes[..k] + nodes[k + 1..] == [nodes[0]] + (nodes[1..][..k - 1] + nodes[1..][k..]);
      }
    }
  }

  lemma FilterNext(nodes: seq<Node>, k: nat, p: Node -> bool)
    requires k < |nodes|
    ensures Filter(nodes[..k + 1], p) == Filter(nodes[..k], p) + if p(nodes[k]) then [nodes[k]] else []
  {
    assert nodes[..k + 1][..k] == nodes[..k];
  }

  class Kbucket {
    var nodes: seq<Node>

    constructor ()
      ensures nodes == []
    {
      nodes := [];
    }

    /** Erases the dead; whether a node is alive is asked once per node. */
    method UpdateNodes(dead: set<Node>) returns (size: nat)
      modifies this
      ensures nodes == Alive(old(nodes), dead) && size == |nodes|
    {
      var kept := [];
      for k := 0 to |nodes|
        invariant nodes == old(nodes)
        invariant kept == Alive(nodes[..k], dead)
      {
        FilterNext(nodes, k, (n: Node) => n !in dead);
        if nodes[k] !in dead {
          kept := kept + [nodes[k]];
        }
      }
      assert nodes[..|nodes|] == nodes;
      nodes := kept;
      size := |nodes|;
    }

    method AddNode(n: Node, dead: set<Node>) returns (ok: bool)
      modifies this
      ensures (nodes, ok) == Added(old(nodes), n, dead)
    {
      if |nodes| < KBUCKETS_DEEP {
        nodes := nodes + [n];
        return true;
      }
      var size := UpdateNodes(dead);
      if size < KBUCKETS_DEEP {
        nodes := nodes + [n];
        return true;
      }
      return false;
    }

    method Kick(id: Guid)
      modifies this
      ensures nodes == Kicked(old(nodes), id)
    {
      var k := 0;
      while k < |nodes| && nodes[k].id != id
        invariant k <= |nodes|
        invariant forall m :: 0 <= m < k ==> nodes[m].id != id
      {
        k := k + 1;
      }
      KickedAt(nodes, id, k);
      if k < |nodes| {
        nodes := nodes[..k] + nodes[k + 1..];
      }
    }

    /** Keeps the nodes that share exactly byId bits with the master; the others go to the new
        bucket. */
    method SplitTheBucket(master: Guid, byId: nat) returns (created: Kbucket)
      requires byId < SHA1_SIZE_BITS
      modifies this
      ensures fresh(created)
      ensures nodes == Stay(old(nodes), master, byId) && created.nodes == Move(old(nodes), master, byId)
    {
      hide Filter, SharedBits;
      created := new Kbucket();
      var kept, moved := [], [];
      for k := 0 to |nodes|
        invariant nodes == old(nodes)
        invariant kept == Stay(nodes[..k], master, byId) && moved == Move(nodes[..k], master, byId)
      {
        FilterNext(nodes, k, (n: Node) => SharedBits(n.id, master) == byId);
        FilterNext(nodes, k, (n: Node) => SharedBits(n.id, master) != byId);
        var d := BucketDistance(nodes[k].id, master);
        DistanceGivesSharedBits(nodes[k].id, master);
        if Wrap64(SHA1_SIZE_BITS - 1 - d) != byId {
          moved := moved + [nodes[k]];
        } else {
          kept := kept + [nodes[k]];
        }
      }
      assert nodes[..|nodes|] == nodes;
      nodes := kept;
      created.nodes := moved;
    }
  }

  class RouteTable {
    const master: Guid
    var buckets: seq<Kbucket>

    /** The buckets are different objects. */
    ghost predicate Valid()
      reads this
    {
      forall i, j :: 0 <= i < j < |buckets| ==> buckets[i] != buckets[j]
    }

    /** What the table holds. */
    ghost function View(): (t: Table)
      reads this, buckets
      ensures |t| == |buckets|
      ensures forall i :: 0 <= i < |t| ==> t[i] == buckets[i].nodes
    {
      seq(|buckets|, i requires 0 <= i < |buckets| reads this, buckets => buckets[i].nodes)
    }

    constructor (master: Guid)
      ensures this.master == master && Valid() && View() == []
    {
      this.master := master;
      this.buckets := [];
    }

    method FindBucket(id: Guid) returns (i: nat)
      requires Valid() && |buckets| <= SHA1_SIZE_BITS
      modifies this
      ensures Valid() && View() == Started(old(View()))
      ensures forall k :: k in buckets ==> k in old(buckets) || fresh(k)
      ensures i == BucketOf(|buckets|, master, id)
    {
      if |buckets| == 0 {
        var first := new Kbucket();
        buckets := [first];
      }
      var d := BucketDistance(master, id);
      DistanceGivesSharedBits(master, id);
      var shared := Wrap64(SHA1_SIZE_BITS - 1 - d);
      i := if shared <= |buckets| - 1 then shared else |buckets| - 1;
    }

    method InsertNode(n: Node, dead: set<Node>)
      requires Valid() && TableOk(View(), master)
      modifies this, buckets
      ensures Valid() && View() == Inserted(old(View()), master, n, dead) && TableOk(View(), master)
    {
      ghost var t := View();
      InsertedOk(t, master, n, dead);
      hide Added, SplitLast, TableOk, CanSplit, BucketOf;
      assert |buckets| < SHA1_SIZE_BITS by { FewBuckets(t, master); }
      var i := FindBucket(n.id);
      assert buckets[i] in buckets;
      var ok := AddTo(i, n, dead);
      if !ok && i == |buckets| - 1 {
        var split := TryToSplit();
        if split {
          ok := AddTo(i, n, dead);
        }
      }
    }

    /** `AddNode` on bucket i, which the other buckets do not notice. */
    method AddTo(i: nat, n: Node, dead: set<Node>) returns (ok: bool)
      requires Valid() && i < |buckets|
      modifies buckets[i]
      ensures ok == Added(old(View())[i], n, dead).1
      ensures View() == old(View())[i := Added(old(View())[i], n, dead).0]
    {
      ok := buckets[i].AddNode(n, dead);
    }

    lemma FewBuckets(t: Table, master: Guid)
      requires TableOk(t, master)
      ensures |t| < SHA1_SIZE_BITS && |Started(t)| < SHA1_SIZE_BITS
    {
    }

    method TryToSplit() returns (split: bool)
      requires Valid() && 0 < |buckets| < SHA1_SIZE_BITS
      modifies this, buckets[|buckets| - 1]
      ensures Valid() && split == CanSplit(old(View()))
      ensures View() == if split then SplitLast(old(View()), master) else old(View())
      ensures old(buckets) <= buckets
      ensures forall k :: k in buckets ==> k in old(buckets) || fresh(k)
    {
      hide Stay, Move;
      if |buckets| < SHA1_SIZE_BITS - 1 && |buckets[|buckets| - 1].nodes| > 0 {
        var last := |buckets| - 1;
        ghost var t := View();
        var moved := buckets[last].SplitTheBucket(master, last);
        assert View() == t[last := Stay(t[last], master, last)];
        buckets := buckets + [moved];
        assert View() == t[last := Stay(t[last], master, last)] + [Move(t[last], master, last)];
        return true;
      }
      return false;
    }

    method KickNode(id: Guid)
      requires Valid() && TableOk(View(), master)
      modifies this, buckets
      ensures Valid() && View() == KickedFrom(old(View()), master, id) && TableOk(View(), master)
    {
      ApplyOk(View(), master, Op.Kick(id));
      var i := FindBucket(id);
      ghost var t0 := View();
      assert buckets[i] in buckets;
      buckets[i].Kick(id);
      assert View() == t0[i := Kicked(t0[i], id)];
    }
  }
}
