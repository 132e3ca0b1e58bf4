/** `AsyncWorker`: a list of jobs, an index from the number of a job to its list node, and
    worker threads that take jobs from the front. Each critical section is one step of the
    machine of `AsyncRuns`. */
module AsyncWorkers {
  import opened Common
  import opened AsyncQueue
  import opened AsyncRuns

  /** A node of the list; its identity is what an iterator refers to. */
  class ListNode {
    const func: nat
    const id: nat
    ghost const ticket: nat

    constructor (func: nat, id: nat, ghost ticket: nat)
      ensures this.func == func && this.id == id && this.ticket == ticket
    {
      this.func, this.id, this.ticket := func, id, ticket;
    }
  }

  ghost function JobOf(node: ListNode): Job {
    Job(node.id, node.ticket)
  }

  ghost function JobsOf(nodes: seq<ListNode>): (jobs: seq<Job>)
    ensures |jobs| == |nodes| && forall i :: 0 <= i < |nodes| ==> jobs[i] == JobOf(nodes[i])
  {
    if nodes == [] then [] else [JobOf(nodes[0])] + JobsOf(nodes[1..])
  }

  /** `list::erase`. */
  function Removed(nodes: seq<ListNode>, node: ListNode): (r: seq<ListNode>)
    ensures forall n :: n in r ==> n in nodes
  {
    if nodes == [] then []
    else if nodes[0] == node then nodes[1..]
    else [nodes[0]] + Removed(nodes[1..], node)
  }

  lemma {:induction false} RemovedIsWithout(nodes: seq<ListNode>, node: ListNode)
    requires node in nodes && DistinctIds(JobsOf(nodes))
    ensures JobsOf(Removed(nodes, node)) == Without(JobsOf(nodes), node.id)
  {
    var jobs := JobsOf(nodes);
    assert jobs[1..] == JobsOf(nodes[1..]);
    var k :| 0 <= k < |nodes| && nodes[k] == node;
    if nodes[0] != node {
      assert jobs[0].id != jobs[k].id;
      assert nodes[1..][k - 1] == node;
      RemovedIsWithout(nodes[1..], node);
      assert ([nodes[0]] + Removed(nodes[1..], node))[1..] == Removed(nodes[1..], node);
    } else {
      assert jobs[0].id == node.id;
    }
  }

  /** The index holds exactly the numbers of the queued jobs, each with its own node. */
  ghost predicate Indexed(nodes: seq<ListNode>, index: map<nat, ListNode>) {
    && DistinctIds(JobsOf(nodes))
    && (forall n :: n in nodes ==> n.id in index && index[n.id] == n)
    && (forall id :: id in index ==> index[id] in nodes && index[id].id == id)
  }

  lemma IndexHoldsQueued(nodes: seq<ListNode>, index: map<nat, ListNode>, id: nat)
    requires Indexed(nodes, index)
    ensures id in index <==> Queued(JobsOf(nodes), id)
    ensures id in index ==> index[id] in nodes && index[id].id == id
  {
    if id in index {
      InJobs(nodes, index[id]);
    }
    if Queued(JobsOf(nodes), id) {
      var i :| 0 <= i < |nodes| && JobsOf(nodes)[i].id == id;
      assert nodes[i] in nodes;
    }
  }

  lemma PushKeepsIndexed(nodes: seq<ListNode>, index: map<nat, ListNode>, node: ListNode)
    requires Indexed(nodes, index) && node.id !in index
    ensures Indexed(nodes + [node], index[node.id := node])
    ensures JobsOf(nodes + [node]) == JobsOf(nodes) + [JobOf(node)]
  {
    IndexHoldsQueued(nodes, index, node.id);
    Appended(nodes, node);
  }

  lemma EraseKeepsIndexed(nodes: seq<ListNode>, index: map<nat, ListNode>, id: nat)
    requires Indexed(nodes, index) && id in index
    ensures Indexed(Removed(nodes, index[id]), index - {id})
    ensures JobsOf(Removed(nodes, index[id])) == Without(JobsOf(nodes), id)
  {
    hide Without, Removed, JobsOf, DistinctIds;
    IndexHoldsQueued(nodes, index, id);
    var left := Removed(nodes, index[id]);
    RemovedIsWithout(nodes, index[id]);
    WithoutIsExact(JobsOf(nodes), id);
    forall n | n in left ensures n in nodes && n.id != id {
      OnlyRemoves(nodes, index[id], n);
      InJobs(left, n);
      assert JobOf(n).id != id;
    }
    forall k | k in index && k != id ensures index[k] in left {
      InJobs(nodes, index[k]);
      assert JobOf(index[k]) in JobsOf(left);
      var n := NodeOf(left, JobOf(index[k]));
      OnlyRemoves(nodes, index[id], n);
      assert n.id == k;
    }
  }

  lemma NodeOf(nodes: seq<ListNode>, job: Job) returns (n: ListNode)
    requires job in JobsOf(nodes)
    ensures n in nodes && JobOf(n) == job
  {
    var i :| 0 <= i < |nodes| && JobsOf(nodes)[i] == job;
    n := nodes[i];
  }

  lemma OnlyRemoves(nodes: seq<ListNode>, node: ListNode, n: ListNode)
    requires n in Removed(nodes, node)
    ensures n in nodes
  {
  }

  lemma PopKeepsIndexed(nodes: seq<ListNode>, index: map<nat, ListNode>)
    requires nodes != [] && Indexed(nodes, index)
    ensures Indexed(nodes[1..], index - {nodes[0].id})
    ensures JobsOf(nodes) == [JobOf(nodes[0])] + JobsOf(nodes[1..])
  {
    IndexHoldsQueued(nodes, index, nodes[0].id);
    assert nodes[0] in nodes;
    EraseKeepsIndexed(nodes, index, nodes[0].id);
    assert Removed(nodes, nodes[0]) == nodes[1..];
  }

  /** Each node holds the callback that was enqueued with its ticket. */
  ghost predicate Calls(nodes: seq<ListNode>, callbacks: seq<nat>) {
    forall n :: n in nodes ==> n.ticket < |callbacks| && callbacks[n.ticket] == n.func
  }

  class AsyncWorker {
    var queue: seq<ListNode>
    var executing: map<nat, ListNode>
    var stopped: bool
    var quit: bool
    /** Every callback that was enqueued, by ticket, and what became of them. */
    ghost var callbacks: seq<nat>
    ghost var started: seq<nat>
    ghost var erased: set<nat>

    constructor ()
      ensures Valid() && View() == Initial() && callbacks == [] && !quit
    {
      queue, executing, stopped, quit := [], map[], true, false;
      callbacks, started, erased := [], [], {};
      new;
      InitialInv();
    }

    ghost function View(): State
      reads this
    {
      State(JobsOf(queue), |callbacks|, started, erased, stopped)
    }

    /** The index is exact, and the books are kept. */
    ghost predicate Valid()
      reads this
    {
      Indexed(queue, executing) && Calls(queue, callbacks) && Inv(View())
    }

    /** Numbers are drawn until one is not in use; with `None` all of these were, and the drawing
        goes on. */
    method Enqueue(func: nat, draws: seq<nat>) returns (id: Option<nat>)
      requires Valid()
      modifies this`queue, this`executing, this`callbacks
      ensures Valid()
      ensures id.None? ==>
                && (forall k :: 0 <= k < |draws| ==> Queued(old(View()).queue, draws[k]))
                && View() == old(View()) && callbacks == old(callbacks)
      ensures id.Some? ==>
                && id.value in draws && !Queued(old(View()).queue, id.value)
                && View() == Step(old(View()), Op.Enqueue(id.value)) && callbacks == old(callbacks) + [func]
    {
      hide Indexed, Queued, JobsOf, Inv, Calls;
      assert Indexed(queue, executing);
      var k := 0;
      while k < |draws| && draws[k] in executing
        invariant 0 <= k <= |draws| && Indexed(queue, executing) && unchanged(this)
        invariant forall m :: 0 <= m < k ==> Queued(View().queue, draws[m])
      {
        IndexHoldsQueued(queue, executing, draws[k]);
        k := k + 1;
      }
      if k == |draws| {
        return None;
      }
      IndexHoldsQueued(queue, executing, draws[k]);
      StepKeeps(View(), Op.Enqueue(draws[k]));
      var node := new ListNode(func, draws[k], |callbacks|);
      PushKeepsIndexed(queue, executing, node);
      CallsGrow(queue, callbacks, node);
      queue := queue + [node];
      executing := executing[draws[k] := node];
      callbacks := callbacks + [func];
      return Some(draws[k]);
    }

    method Erase(id: nat)
      requires Valid()
      modifies this`queue, this`executing, this`erased
      ensures Valid() && View() == Step(old(View()), Op.Erase(id))
    {
      hide Indexed, Queued, JobsOf, Without, Removed, Inv, Calls;
      IndexHoldsQueued(queue, executing, id);
      ghost var s := View();
      StepKeeps(s, Op.Erase(id));
      EraseChangesOnlyQueued(s, id);
      if id !in executing {
        return;
      }
      EraseKeepsIndexed(queue, executing, id);
      CallsShrink(queue, Removed(queue, executing[id]), callbacks);
      queue := Removed(queue, executing[id]);
      executing := executing - {id};
      erased := Step(s, Op.Erase(id)).erased;
    }

    /** One turn of a worker thread: the callback it goes on to call, if it gets one. */
    method Take() returns (func: Option<nat>)
      requires Valid()
      modifies this`queue, this`executing, this`started
      ensures Valid()
      ensures View() == if quit then old(View()) else Step(old(View()), Op.Take)
      ensures func.Some? <==> old(View()).queue != [] && !stopped && !quit
      ensures func.Some? ==> var ticket := old(View()).queue[0].ticket;
                             ticket < |callbacks| && func.value == callbacks[ticket]
    {
      hide Indexed, Inv, JobsOf, Calls;
      ghost var s := View();
      StepKeeps(s, Op.Take);
      NothingQueued(queue);
      FrontCalls(queue, callbacks);
      if queue == [] || stopped || quit {
        return None;
      }
      PopKeepsIndexed(queue, executing);
      var front := queue[0];
      queue := queue[1..];
      executing := executing - {front.id};
      started := started + [front.ticket];
      return Some(front.func);
    }

    method Start()
      requires Valid()
      modifies this`stopped
      ensures Valid() && View() == Step(old(View()), Op.Start)
    {
      hide Indexed, Inv;
      StepKeeps(View(), Op.Start);
      stopped := false;
    }

    method Stop()
      requires Valid()
      modifies this`stopped
      ensures Valid() && View() == Step(old(View()), Op.Stop)
    {
      hide Indexed, Inv;
      StepKeeps(View(), Op.Stop);
      stopped := true;
    }
  }

  lemma CallsGrow(nodes: seq<ListNode>, callbacks: seq<nat>, node: ListNode)
    requires Calls(nodes, callbacks) && node.ticket == |callbacks|
    ensures Calls(nodes + [node], callbacks + [node.func])
  {
  }

  lemma NothingQueued(nodes: seq<ListNode>)
    ensures JobsOf(nodes) == [] <==> nodes == []
  {
  }

  lemma FrontCalls(nodes: seq<ListNode>, callbacks: seq<nat>)
    requires Calls(nodes, callbacks)
    ensures nodes != [] ==>
      && nodes[0].ticket < |callbacks| && callbacks[nodes[0].ticket] == nodes[0].func
      && Calls(nodes[1..], callbacks) && |JobsOf(nodes)| > 0 && JobsOf(nodes)[0] == JobOf(nodes[0])
  {
  }

  lemma CallsShrink(nodes: seq<ListNode>, left: seq<ListNode>, callbacks: seq<nat>)
    requires Calls(nodes, callbacks) && forall n :: n in left ==> n in nodes
    ensures Calls(left, callbacks)
  {
  }

  lemma InJobs(nodes: seq<ListNode>, node: ListNode)
    requires node in nodes
    ensures JobOf(node) in JobsOf(nodes)
  {
    var i :| 0 <= i < |nodes| && nodes[i] == node;
    assert JobsOf(nodes)[i] == JobOf(node);
  }

  lemma Appended(nodes: seq<ListNode>, node: ListNode)
    ensures JobsOf(nodes + [node]) == JobsOf(nodes) + [JobOf(node)]
  {
  }
}
