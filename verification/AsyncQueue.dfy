/** The queue of an `AsyncWorker` as a list of numbered jobs. */
module AsyncQueue {

  /** A queued job: the number handed out for it, and which job it is. */
  datatype Job = Job(id: nat, ticket: nat)

  predicate Queued(queue: seq<Job>, id: nat) {
    exists i :: 0 <= i < |queue| && queue[i].id == id
  }

  predicate DistinctIds(queue: seq<Job>) {
    forall i, j :: 0 <= i < j < |queue| ==> queue[i].id != queue[j].id
  }

  /** The queue without the job of the given number. */
  function Without(queue: seq<Job>, id: nat): (r: seq<Job>) {
    if queue == [] then []
    else if queue[0].id == id then queue[1..]
    else [queue[0]] + Without(queue[1..], id)
  }

  lemma {:induction false} WithoutIsExact(queue: seq<Job>, id: nat)
    requires DistinctIds(queue)
    ensures forall job :: job in Without(queue, id) <==> job in queue && job.id != id
    ensures DistinctIds(Without(queue, id))
  {
    if queue != [] {
      WithoutIsExact(queue[1..], id);
      var tail := Without(queue[1..], id);
      assert forall job :: job in queue <==> job == queue[0] || job in queue[1..];
      if queue[0].id != id {
        var r := [queue[0]] + tail;
        forall i, j | 0 <= i < j < |r| ensures r[i].id != r[j].id {
          assert r[j] == tail[j - 1] && r[j] in tail;
          assert i > 0 ==> r[i] == tail[i - 1];
        }
      }
    }
  }

  lemma {:induction false} WithoutAbsent(queue: seq<Job>, id: nat)
    requires !Queued(queue, id)
    ensures Without(queue, id) == queue
  {
    if queue != [] {
      forall i | 0 <= i < |queue[1..]| ensures queue[1..][i].id != id {
        assert queue[1..][i] == queue[i + 1];
      }
      WithoutAbsent(queue[1..], id);
    }
  }
}
