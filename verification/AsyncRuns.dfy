/** Whole runs of an `AsyncWorker` before its destruction, under any interleaving of callers and
    worker threads. Every job gets a ticket, in the order of the calls to `Enqueue`. */
module AsyncRuns {
  import opened Common
  import opened AsyncQueue

  datatype State = State(queue: seq<Job>, next: nat, started: seq<nat>, erased: set<nat>, stopped: bool)

  datatype Op = Enqueue(draw: nat) | Erase(id: nat) | Take | Start | Stop

  function Initial(): State {
    State([], 0, [], {}, true)
  }

  /** A number in use is not accepted, and another is drawn. */
  function Step(s: State, op: Op): State {
    match op
    case Enqueue(draw) =>
      if Queued(s.queue, draw) then s else s.(queue := s.queue + [Job(draw, s.next)], next := s.next + 1)
    case Erase(id) =>
      s.(queue := Without(s.queue, id), erased := s.erased + set job | job in s.queue && job.id == id :: job.ticket)
    case Take =>
      if s.queue == [] || s.stopped then s
      else s.(queue := s.queue[1..], started := s.started + [s.queue[0].ticket])
    case Start => s.(stopped := false)
    case Stop => s.(stopped := true)
  }

  function Run(s: State, ops: seq<Op>): State
    decreases ops
  {
    if ops == [] then s else Run(Step(s, ops[0]), ops[1..])
  }

  function Tickets(queue: seq<Job>): (r: seq<nat>)
    ensures |r| == |queue| && forall i :: 0 <= i < |r| ==> r[i] == queue[i].ticket
  {
    seq(|queue|, i requires 0 <= i < |queue| => queue[i].ticket)
  }

  predicate Rising(tickets: seq<nat>) {
    forall i, j :: 0 <= i < j < |tickets| ==> tickets[i] < tickets[j]
  }

  /** The jobs not erased: those started, in that order, and then those queued. */
  function Line(s: State): seq<nat> {
    s.started + Tickets(s.queue)
  }

  /** Every ticket handed out is once in line or erased, and the line is in order. */
  ghost predicate Accounts(line: seq<nat>, next: nat, erased: set<nat>) {
    && Rising(line)
    && (forall t: nat :: t in line ==> t < next && t !in erased)
    && (forall t: nat :: t in erased ==> t < next)
    && (forall t: nat :: t < next ==> t in line || t in erased)
  }

  ghost predicate Inv(s: State) {
    DistinctIds(s.queue) && Accounts(Line(s), s.next, s.erased)
  }

  lemma AccountsGrow(line: seq<nat>, next: nat, erased: set<nat>)
    requires Accounts(line, next, erased)
    ensures Accounts(line + [next], next + 1, erased)
  {
    var r := line + [next];
    assert forall t: nat :: t in r <==> t in line || t == next;
    forall i, j | 0 <= i < j < |r| ensures r[i] < r[j] {
      assert r[i] in line;
    }
  }

  lemma RisingWithout(before: seq<nat>, t: nat, after: seq<nat>)
    requires Rising(before + ([t] + after))
    ensures Rising(before + after)
  {
    var line, left := before + ([t] + after), before + after;
    forall i, j | 0 <= i < j < |left| ensures left[i] < left[j] {
      assert left[i] == line[if i < |before| then i else i + 1];
      assert left[j] == line[if j < |before| then j else j + 1];
    }
  }

  lemma TicketsSplit(queue: seq<Job>)
    requires queue != []
    ensures Tickets(queue) == [queue[0].ticket] + Tickets(queue[1..])
  {
  }

  lemma {:induction false} WithoutIsRising(before: seq<nat>, queue: seq<Job>, id: nat)
    requires Rising(before + Tickets(queue))
    ensures Rising(before + Tickets(Without(queue, id)))
    decreases queue
  {
    hide Rising, Tickets;
    if queue == [] {
    } else {
      TicketsSplit(queue);
      if queue[0].id == id {
        RisingWithout(before, queue[0].ticket, Tickets(queue[1..]));
      } else {
        var head := before + [queue[0].ticket];
        var left := [queue[0]] + Without(queue[1..], id);
        assert before + ([queue[0].ticket] + Tickets(queue[1..])) == head + Tickets(queue[1..]);
        WithoutIsRising(head, queue[1..], id);
        TicketsSplit(left);
        assert left[1..] == Without(queue[1..], id);
        assert head + Tickets(left[1..]) == before + ([queue[0].ticket] + Tickets(left[1..]));
      }
    }
  }

  lemma InLine(s: State, t: nat)
    ensures t in Line(s) <==> t in s.started || exists job :: job in s.queue && job.ticket == t
  {
    if t in Tickets(s.queue) {
      var i :| 0 <= i < |s.queue| && s.queue[i].ticket == t;
      assert s.queue[i] in s.queue;
    }
    if job :| job in s.queue && job.ticket == t {
      var i :| 0 <= i < |s.queue| && s.queue[i] == job;
      assert Tickets(s.queue)[i] == t;
    }
  }

  lemma RisingIsInjective(tickets: seq<nat>, i: nat, j: nat)
    requires Rising(tickets) && i < |tickets| && j < |tickets| && tickets[i] == tickets[j]
    ensures i == j
  {
  }

  lemma OneJobPerTicket(s: State, a: Job, b: Job)
    requires Inv(s) && a in s.queue && b in s.queue && a.ticket == b.ticket
    ensures a == b
  {
    var i :| 0 <= i < |s.queue| && s.queue[i] == a;
    var j :| 0 <= j < |s.queue| && s.queue[j] == b;
    RisingIsInjective(Line(s), |s.started| + i, |s.started| + j);
  }

  lemma QueuedNotStarted(s: State, job: Job)
    requires Inv(s) && job in s.queue
    ensures job.ticket !in s.started
  {
    var i :| 0 <= i < |s.queue| && s.queue[i] == job;
    if k :| 0 <= k < |s.started| && s.started[k] == job.ticket {
      RisingIsInjective(Line(s), k, |s.started| + i);
    }
  }

  lemma EraseKeeps(s: State, id: nat)
    requires Inv(s)
    ensures Inv(Step(s, Erase(id)))
  {
    var r := Step(s, Erase(id));
    WithoutIsExact(s.queue, id);
    WithoutIsRising(s.started, s.queue, id);
    forall t: nat ensures t in Line(r) <==> t in Line(s) && t !in r.erased {
      InLine(s, t);
      InLine(r, t);
      forall job | job in s.queue && job.ticket == t ensures t !in s.started {
        QueuedNotStarted(s, job);
      }
      forall a, b | a in s.queue && b in s.queue && a.ticket == t && b.ticket == t ensures a == b {
        OneJobPerTicket(s, a, b);
      }
    }
  }

  lemma TicketsSnoc(queue: seq<Job>, job: Job)
    ensures Tickets(queue + [job]) == Tickets(queue) + [job.ticket]
  {
  }

  /** A step other than an erasure keeps the line or adds the new ticket at its end. */
  lemma LineGrows(s: State, op: Op)
    requires !op.Erase?
    ensures Step(s, op).erased == s.erased
    ensures if op.Enqueue? && !Queued(s.queue, op.draw)
            then Line(Step(s, op)) == Line(s) + [s.next] && Step(s, op).next == s.next + 1
            else Line(Step(s, op)) == Line(s) && Step(s, op).next == s.next
  {
    hide Queued, Tickets;
    if op.Take? && s.queue != [] && !s.stopped {
      TicketsSplit(s.queue);
      Regroup(s.started, [s.queue[0].ticket], Tickets(s.queue[1..]));
    } else if op.Enqueue? {
      TicketsSnoc(s.queue, Job(op.draw, s.next));
      Regroup(s.started, Tickets(s.queue), [s.next]);
    }
  }

  lemma StepKeeps(s: State, op: Op)
    requires Inv(s)
    ensures Inv(Step(s, op))
  {
    hide Accounts, Line;
    if op.Erase? {
      EraseKeeps(s, op.id);
    } else {
      LineGrows(s, op);
      AccountsGrow(Line(s), s.next, s.erased);
    }
  }

  lemma {:induction false} RunKeeps(s: State, ops: seq<Op>)
    requires Inv(s)
    ensures Inv(Run(s, ops))
    decreases ops
  {
    hide Inv, Step;
    if ops != [] {
      StepKeeps(s, ops[0]);
      RunKeeps(Step(s, ops[0]), ops[1..]);
    }
  }

  lemma InitialInv()
    ensures Inv(Initial())
  {
  }

  lemma {:induction false} StartedGrows(s: State, ops: seq<Op>)
    ensures s.started <= Run(s, ops).started && s.erased <= Run(s, ops).erased && s.next <= Run(s, ops).next
    decreases ops
  {
    hide Queued, Without;
    if ops != [] {
      StartedGrows(Step(s, ops[0]), ops[1..]);
    }
  }

  predicate IsQueued(s: State, t: nat) {
    exists job :: job in s.queue && job.ticket == t
  }

  /** After any run from the beginning: every job is queued, started or erased, and only one of
      these; no job started twice; jobs started in the order in which they were enqueued, and
      none that is queued still was enqueued before one that started; the queue is in order. */
  lemma EveryJobOnce(ops: seq<Op>)
    ensures var s := Run(Initial(), ops);
      && (forall t: nat :: t < s.next <==> t in s.started || t in s.erased || IsQueued(s, t))
      && (forall t: nat :: t in s.started ==> t !in s.erased && !IsQueued(s, t))
      && (forall t: nat :: IsQueued(s, t) ==> t !in s.erased)
      && (forall i, j :: 0 <= i < j < |s.started| ==> s.started[i] < s.started[j])
      && (forall i, j :: 0 <= i < |s.started| && 0 <= j < |s.queue| ==> s.started[i] < s.queue[j].ticket)
      && (forall i, j :: 0 <= i < j < |s.queue| ==> s.queue[i].ticket < s.queue[j].ticket)
  {
    var s := Run(Initial(), ops);
    InitialInv();
    RunKeeps(Initial(), ops);
    forall t: nat ensures t in Line(s) <==> t in s.started || IsQueued(s, t) {
      InLine(s, t);
    }
    forall t: nat | t in s.started ensures !IsQueued(s, t) {
      forall job | job in s.queue ensures job.ticket != t {
        QueuedNotStarted(s, job);
      }
    }
    LineOrder(s);
  }

  lemma LineOrder(s: State)
    requires Inv(s)
    ensures Rising(s.started)
    ensures forall i, j :: 0 <= i < |s.started| && 0 <= j < |s.queue| ==> s.started[i] < s.queue[j].ticket
    ensures forall i, j :: 0 <= i < j < |s.queue| ==> s.queue[i].ticket < s.queue[j].ticket
  {
    RisingParts(s.started, Tickets(s.queue));
    var tickets := Tickets(s.queue);
    assert forall j :: 0 <= j < |s.queue| ==> tickets[j] == s.queue[j].ticket;
  }

  lemma RisingParts(a: seq<nat>, b: seq<nat>)
    requires Rising(a + b)
    ensures Rising(a) && Rising(b)
    ensures forall i, j :: 0 <= i < |a| && 0 <= j < |b| ==> a[i] < b[j]
  {
    var line := a + b;
    assert forall i :: 0 <= i < |a| ==> line[i] == a[i];
    forall j | 0 <= j < |b| ensures line[|a| + j] == b[j] && forall i :: 0 <= i < |a| ==> a[i] < b[j] {
    }
    forall i, j | 0 <= i < j < |b| ensures b[i] < b[j] {
      assert line[|a| + i] < line[|a| + j];
    }
  }

  /** What is erased stays so: it never starts. */
  lemma ErasedNeverStarts(s: State, ops: seq<Op>, t: nat)
    requires Inv(s) && t in s.erased
    ensures t !in Run(s, ops).started && !IsQueued(Run(s, ops), t)
  {
    RunKeeps(s, ops);
    StartedGrows(s, ops);
    InLine(Run(s, ops), t);
  }

  /** Whatever else happens, a queued job is there still or has started unless its number is
      erased. */
  lemma {:induction false} OnlyItsNumberErasesAJob(s: State, ops: seq<Op>, job: Job)
    requires Inv(s) && job in s.queue && Erase(job.id) !in ops
    ensures job in Run(s, ops).queue || job.ticket in Run(s, ops).started
    decreases ops
  {
    hide Accounts;
    if ops != [] {
      var r := Step(s, ops[0]);
      StepKeeps(s, ops[0]);
      assert ops[0] in ops && forall op :: op in ops[1..] ==> op in ops;
      if ops[0].Erase? {
        WithoutIsExact(s.queue, ops[0].id);
      }
      if job in r.queue {
        OnlyItsNumberErasesAJob(r, ops[1..], job);
      } else {
        assert r.started[|r.started| - 1] == job.ticket;
        StartedGrows(r, ops[1..]);
      }
    }
  }

  /** While the workers are stopped no job starts, whatever is enqueued, erased or tried. */
  lemma {:induction false} StoppedStartsNothing(s: State, ops: seq<Op>)
    requires s.stopped && Start !in ops
    ensures Run(s, ops).started == s.started && Run(s, ops).stopped
    decreases |ops|
  {
    hide Queued, Without;
    if ops != [] {
      assert ops[0] != Start;
      StoppedStartsNothing(Step(s, ops[0]), ops[1..]);
    }
  }

  /** They are stopped from a `Stop` on, until the next `Start`. */
  lemma StopStops(s: State, ops: seq<Op>)
    requires Start !in ops
    ensures Run(Step(s, Stop), ops).started == s.started
  {
    StoppedStartsNothing(Step(s, Stop), ops);
  }

  /** Left alone, the workers start everything that is queued, in order. */
  lemma {:induction false} QueueDrains(s: State)
    requires !s.stopped
    ensures var r := Run(s, seq(|s.queue|, _ => Take));
      r.queue == [] && r.started == s.started + Tickets(s.queue)
    decreases |s.queue|
  {
    hide Tickets, Queued;
    if s.queue == [] {
      NoTickets();
    } else {
      var r := Step(s, Take);
      QueueDrains(r);
      var ops := seq(|s.queue|, _ => Take);
      assert ops[0] == Take && ops[1..] == seq(|r.queue|, _ => Take);
      TicketsSplit(s.queue);
      Regroup(s.started, [s.queue[0].ticket], Tickets(r.queue));
    }
  }

  lemma NoTickets()
    ensures Tickets([]) == []
  {
  }

  /** Numbers are drawn again once their jobs have started, so an `Erase` that comes late can
      hit another caller's job. */
  lemma LateEraseHitsAnotherJob()
    ensures var s := Run(Initial(), [Start, Enqueue(7), Take, Enqueue(7), Erase(7)]);
      s.started == [0] && s.erased == {1}
  {
    var a := State([Job(7, 0)], 1, [], {}, false);
    var b := State([Job(7, 1)], 2, [0], {}, false);
    EnqueueFirst(State([], 0, [], {}, false));
    EnqueueFirst(State([], 1, [0], {}, false));
    EraseOnly(b);
    var ops := [Start, Enqueue(7), Take, Enqueue(7), Erase(7)];
    assert ops[1..] == [Enqueue(7), Take, Enqueue(7), Erase(7)];
    assert ops[1..][1..] == [Take, Enqueue(7), Erase(7)];
    assert ops[1..][1..][1..] == [Enqueue(7), Erase(7)];
    assert ops[1..][1..][1..][1..] == [Erase(7)];
    hide Queued, Without;
    assert Run(Initial(), ops) == Run(a, [Take, Enqueue(7), Erase(7)]);
    assert Run(a, [Take, Enqueue(7), Erase(7)]) == Run(b, [Erase(7)]);
  }

  lemma EnqueueFirst(s: State)
    requires s.queue == []
    ensures Step(s, Enqueue(7)) == s.(queue := [Job(7, s.next)], next := s.next + 1)
  {
  }

  lemma EraseOnly(s: State)
    requires |s.queue| == 1
    ensures Step(s, Erase(s.queue[0].id)) == s.(queue := [], erased := s.erased + {s.queue[0].ticket})
  {
    assert forall job :: job in s.queue <==> job == s.queue[0];
  }

  /** Apart from that an `Erase` after the start does nothing. */
  lemma EraseChangesOnlyQueued(s: State, id: nat)
    ensures Step(s, Erase(id)) == s <==> !Queued(s.queue, id)
  {
    if Queued(s.queue, id) {
      WithoutIsShorter(s.queue, id);
    } else {
      WithoutAbsent(s.queue, id);
    }
  }

  lemma {:induction false} WithoutIsShorter(queue: seq<Job>, id: nat)
    requires Queued(queue, id)
    ensures |Without(queue, id)| == |queue| - 1
  {
    if queue[0].id != id {
      var i :| 0 <= i < |queue| && queue[i].id == id;
      assert queue[1..][i - 1].id == id;
      WithoutIsShorter(queue[1..], id);
    }
  }
}
