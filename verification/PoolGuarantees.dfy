/** What the worker pool guarantees over whole runs, for every interleaving of its
    goroutines (scheduler/internal/workerpool/pool.go). */
module PoolGuarantees {
  import opened Common
  import opened WorkerPool

  /** `s` is the state after the run `steps` of a pool built by New. */
  ghost predicate RunsTo(queueSize: int, concurrency: int, steps: seq<Step>, s: State) {
    Exec(Init(queueSize, concurrency), steps) == Some(s)
  }

  lemma {:induction false} RunKeepsInv(queueSize: int, concurrency: int, steps: seq<Step>, s: State)
    requires RunsTo(queueSize, concurrency, steps, s)
    ensures Inv(s) && s.capacity == Clamp(queueSize, 0) && |s.workers| == Clamp(concurrency, 1)
    ensures s.capacity == if queueSize < 0 then 0 else queueSize
    ensures |s.workers| == if concurrency < 1 then 1 else concurrency
  {
    if steps == [] {
      InitInv(queueSize, concurrency);
    } else {
      var before := Exec(Init(queueSize, concurrency), steps[..|steps| - 1]).value;
      RunKeepsInv(queueSize, concurrency, steps[..|steps| - 1], before);
      StepKeepsInv(before, steps[|steps| - 1]);
    }
  }

  // ------------------------------------------- conservation and exactly-once

  /** In every reachable state every accepted request is in exactly one place: queued,
      in one worker's hands, or answered once.  Others are nowhere, and both bounds of
      the pool hold. */
  lemma ExactlyOnePlace(queueSize: int, concurrency: int, steps: seq<Step>, s: State, id: RequestId)
    requires RunsTo(queueSize, concurrency, steps, s)
    ensures One(id in s.queue) + Count(Has(id), s.workers) + s.sent[id] == One(id in s.accepted)
    ensures |s.queue| <= Clamp(queueSize, 0)
    ensures Count(InCall, s.workers) <= Clamp(concurrency, 1)
    ensures Distinct(s.accepted) && s.accepted == s.taken + s.queue
  {
    RunKeepsInv(queueSize, concurrency, steps, s);
    WhereIs(s, id);
  }

  /** A rejected request never reaches a worker, Predict or its result channel. */
  lemma RejectedNeverServed(queueSize: int, concurrency: int, steps: seq<Step>, s: State, id: RequestId)
    requires RunsTo(queueSize, concurrency, steps, s)
    requires id in s.rejected
    ensures id !in s.queue && id !in s.taken && id !in s.started && s.sent[id] == 0
    ensures id !in s.returned && id !in s.received && id !in s.channels
  {
    RunKeepsInv(queueSize, concurrency, steps, s);
    WhereIs(s, id);
    assert Placed(s, id);
  }

  /** Predict is called at most once for a request, and only the reply of that call can
      reach the request's handler. */
  lemma OwnReplyOnly(queueSize: int, concurrency: int, steps: seq<Step>, s: State, id: RequestId)
    requires RunsTo(queueSize, concurrency, steps, s)
    ensures Distinct(s.started)
    ensures id in s.received ==>
              s.sent[id] == 1 && id in s.started && id in s.returned && s.received[id] == s.returned[id]
    ensures s.sent[id] == 1 && id !in s.received ==>
              id in s.channels && id in s.returned && s.channels[id] == [s.returned[id]]
  {
    RunKeepsInv(queueSize, concurrency, steps, s);
    WhereIs(s, id);
    assert id in s.accepted ==> ChannelOk(s, id);
  }

  // ------------------------------------------------------------- admission

  /** Submit accepts exactly when there is room: buffer space, or with an unbuffered
      queue a worker blocked in its receive. */
  lemma AdmissionRule(s: State, id: RequestId, partner: nat)
    requires Inv(s) && Enabled(s, Submit(id, partner))
    ensures var t := Apply(s, Submit(id, partner));
            && (id in t.accepted <==> if s.capacity == 0 then HasParked(s) else |s.queue| < s.capacity)
            && (id in t.rejected <==> id !in t.accepted)
            && (id in t.rejected ==> t == s.(rejected := s.rejected + [id]))
            && (id in t.accepted ==> t.accepted == s.accepted + [id])
  {
    if HasParked(s) {
      assert s.queue == [];
    }
  }

  /** A rejection means a full queue and no worker waiting for work. */
  lemma RejectionMeansFull(s: State, id: RequestId, partner: nat)
    requires Inv(s) && Enabled(s, Submit(id, partner)) && id in Apply(s, Submit(id, partner)).rejected
    ensures |s.queue| == s.capacity && !HasParked(s)
  {
  }

  // ------------------------------------------------------ order of service

  /** Predict calls start almost in acceptance order: the k-th one serves one of the
      first k + concurrency accepted requests. */
  lemma OvertakingIsBounded(queueSize: int, concurrency: int, steps: seq<Step>, s: State, k: nat)
    requires RunsTo(queueSize, concurrency, steps, s) && k < |s.started|
    ensures exists i :: 0 <= i < k + Clamp(concurrency, 1) && i < |s.accepted| && s.accepted[i] == s.started[k]
  {
    RunKeepsInv(queueSize, concurrency, steps, s);
    assert AmongFirst(s.accepted, k + |s.workers|, s.started[k]);
  }

  /** With one worker Predict calls start exactly in acceptance order. */
  lemma {:induction false} OneWorkerInOrder(s: State, k: nat)
    requires Inv(s) && |s.workers| == 1 && k < |s.started|
    ensures k < |s.accepted| && s.started[k] == s.accepted[k]
    decreases k
  {
    assert AmongFirst(s.accepted, k + 1, s.started[k]);
    forall j | 0 <= j < k ensures j < |s.accepted| && s.accepted[j] != s.started[k] {
      OneWorkerInOrder(s, j);
    }
  }

  /** The run in which two workers receive in order and call Predict in the other order. */
  const SWAP: seq<Step> := [Receive(0), Receive(1), Submit(0, 0), Submit(1, 1), CallPredict(1), CallPredict(0)]

  lemma ExecNext(s: State, steps: seq<Step>, n: nat, t: State) returns (u: State)
    requires n < |steps| && Exec(s, steps[..n]) == Some(t) && Enabled(t, steps[n])
    ensures u == Apply(t, steps[n]) && Exec(s, steps[..n + 1]) == Some(u)
  {
    assert steps[..n + 1][..n] == steps[..n];
    u := Apply(t, steps[n]);
  }

  /** Both workers park. */
  lemma TwoWorkersPark(queueSize: int, concurrency: int) returns (s: State)
    requires 2 <= concurrency
    ensures Exec(Init(queueSize, concurrency), SWAP[..2]) == Some(s)
    ensures var start := Init(queueSize, concurrency);
            s == start.(workers := start.workers[0 := Parked][1 := Parked])
  {
    s := Init(queueSize, concurrency);
    s := ExecNext(Init(queueSize, concurrency), SWAP, 0, s);
    s := ExecNext(Init(queueSize, concurrency), SWAP, 1, s);
  }

  /** The first is handed one request. */
  lemma FirstIsServed(queueSize: int, concurrency: int) returns (s: State)
    requires 2 <= concurrency
    ensures Exec(Init(queueSize, concurrency), SWAP[..3]) == Some(s)
    ensures |s.workers| == concurrency && s.workers[0] == Holding(0) && s.workers[1] == Parked
    ensures s.accepted == [0] && s.rejected == [] && s.started == [] && s.channels == map[0 := []] && !s.closed
  {
    s := TwoWorkersPark(queueSize, concurrency);
    assert s.workers[0].Parked? && s.workers[1].Parked?;
    s := ExecNext(Init(queueSize, concurrency), SWAP, 2, s);
  }

  /** And the second another one. */
  lemma TwoWorkersServe(queueSize: int, concurrency: int) returns (s: State)
    requires 2 <= concurrency
    ensures Exec(Init(queueSize, concurrency), SWAP[..4]) == Some(s)
    ensures |s.workers| == concurrency && s.accepted == [0, 1] && s.started == []
    ensures s.workers[0] == Holding(0) && s.workers[1] == Holding(1)
  {
    s := FirstIsServed(queueSize, concurrency);
    assert s.workers[1].Parked?;
    s := ExecNext(Init(queueSize, concurrency), SWAP, 3, s);
  }

  lemma TwoWorkersSwap(queueSize: int, concurrency: int) returns (s: State)
    requires 2 <= concurrency
    ensures RunsTo(queueSize, concurrency, SWAP, s) && s.accepted == [0, 1] && s.started == [1, 0]
  {
    s := TwoWorkersServe(queueSize, concurrency);
    s := ExecNext(Init(queueSize, concurrency), SWAP, 4, s);
    s := ExecNext(Init(queueSize, concurrency), SWAP, 5, s);
    assert SWAP[..6] == SWAP;
  }

  ghost predicate AlwaysInOrder(queueSize: int, concurrency: int) {
    forall steps, s | RunsTo(queueSize, concurrency, steps, s) :: s.started <= s.accepted
  }

  /** Predict starts in acceptance order in every run exactly when there is one worker. */
  lemma InOrderIffOneWorker(queueSize: int, concurrency: int)
    ensures AlwaysInOrder(queueSize, concurrency) <==> concurrency <= 1
  {
    if concurrency <= 1 {
      forall steps, s | RunsTo(queueSize, concurrency, steps, s)
        ensures s.started <= s.accepted
      {
        RunKeepsInv(queueSize, concurrency, steps, s);
        forall k | 0 <= k < |s.started| ensures k < |s.accepted| && s.started[k] == s.accepted[k] {
          OneWorkerInOrder(s, k);
        }
      }
    } else {
      var s := TwoWorkersSwap(queueSize, concurrency);
      assert !(s.started <= s.accepted) by {
        assert s.started[0] != s.accepted[0];
      }
    }
  }

  // ------------------------------------------------- no blocking, and draining

  /** A worker with a result to send can always send it: the result channel is empty,
      whether its handler is still waiting or has left. */
  lemma SendNeverBlocks(s: State, w: nat)
    requires Inv(s) && w < |s.workers| && s.workers[w].Sending?
    ensures Enabled(s, SendResult(w))
  {
    Serving(s, w);
    assert ChannelOk(s, s.workers[w].id);
  }

  /** Worker steps left for one worker before it blocks or exits. */
  function Work(w: Worker): nat {
    match w
    case Ready => 1
    case Parked => 0
    case Holding(_) => 4
    case Predicting(_) => 3
    case Sending(_, _) => 2
    case Exited => 0
  }

  /** Worker steps left in the pool. */
  function Remaining(s: State): nat {
    4 * |s.queue| + Sum(Work, s.workers)
  }

  lemma WorkerStepDecreases(s: State, step: Step)
    requires Enabled(s, step) && IsWorkerStep(step)
    ensures Remaining(Apply(s, step)) < Remaining(s)
  {
    var w := step.w;
    var x := Apply(s, step).workers[w];
    assert Apply(s, step).workers == s.workers[w := x];
    SumUpdate(Work, s.workers, w, x);
  }

  /** Steps of workers, and of handlers that read their results. */
  ghost predicate OnlyServes(steps: seq<Step>) {
    forall i | 0 <= i < |steps| :: IsWorkerStep(steps[i]) || steps[i].TakeResult?
  }

  /** Without new requests, and in any run at all once the pool is closed, workers make at
      most Remaining(s) steps, however handlers read in between, and no accepted request is
      added or dropped. */
  lemma {:induction false} WorkersRunDry(s: State, steps: seq<Step>, t: State)
    requires Inv(s) && (s.closed || OnlyServes(steps)) && Exec(s, steps) == Some(t)
    ensures Count(IsWorkerStep, steps) + Remaining(t) <= Remaining(s)
    ensures Inv(t) && t.closed == s.closed && t.accepted == s.accepted && t.rejected == s.rejected
  {
    if steps != [] {
      var front, step := steps[..|steps| - 1], steps[|steps| - 1];
      var before := Exec(s, front).value;
      assert forall i | 0 <= i < |front| :: front[i] == steps[i];
      WorkersRunDry(s, front, before);
      ServingStep(before, step);
      StepKeepsInv(before, step);
    }
  }

  lemma ServingStep(s: State, step: Step)
    requires Enabled(s, step) && (s.closed || IsWorkerStep(step) || step.TakeResult?)
    ensures var t := Apply(s, step);
            && One(IsWorkerStep(step)) + Remaining(t) <= Remaining(s)
            && t.closed == s.closed && t.accepted == s.accepted && t.rejected == s.rejected
  {
    if IsWorkerStep(step) {
      WorkerStepDecreases(s, step);
    }
  }

  ghost predicate NoWorkerStep(s: State) {
    forall step | IsWorkerStep(step) :: !Enabled(s, step)
  }

  ghost predicate AllAnswered(s: State) {
    forall id | id in s.accepted :: s.sent[id] == 1 && id in s.returned
  }

  /** When no worker can move, the queue is empty, every accepted request has been
      answered, and the workers are parked (open pool) or gone (closed pool). */
  lemma QuietMeansDrained(s: State)
    requires Inv(s) && NoWorkerStep(s)
    ensures s.queue == [] && AllAnswered(s)
    ensures forall w | 0 <= w < |s.workers| :: if s.closed then s.workers[w].Exited? else s.workers[w].Parked?
  {
    forall w | 0 <= w < |s.workers|
      ensures s.workers[w].Exited? || s.workers[w].Parked?
    {
      assert !Enabled(s, Receive(w)) && !Enabled(s, CallPredict(w));
      assert !Enabled(s, PredictReturns(w, Response(0))) && !Enabled(s, SendResult(w));
      if s.workers[w].Sending? {
        SendNeverBlocks(s, w);
      }
    }
    assert s.workers[0].Exited? || s.workers[0].Parked?;
    forall id | id in s.accepted ensures s.sent[id] == 1 && id in s.returned {
      CountZero(Has(id), s.workers);
      WhereIs(s, id);
      assert ChannelOk(s, id);
    }
  }

  /** Close returns: in any run after it the workers make at most Remaining(s) steps, and
      once none is left every worker has exited (the WaitGroup is at zero) and every request
      accepted before Close has been answered. */
  lemma CloseDrains(s: State, steps: seq<Step>, t: State)
    requires Inv(s) && s.closed && Exec(s, steps) == Some(t)
    ensures Count(IsWorkerStep, steps) <= Remaining(s)
    ensures NoWorkerStep(t) ==>
              && (forall w | 0 <= w < |t.workers| :: t.workers[w].Exited?)
              && t.accepted == s.accepted && AllAnswered(t)
    ensures (forall w | 0 <= w < |t.workers| :: t.workers[w].Exited?) ==> NoWorkerStep(t)
  {
    WorkersRunDry(s, steps, t);
    if NoWorkerStep(t) {
      QuietMeansDrained(t);
    }
  }

  /** Requests whose result waits to be read. */
  function Unread(s: State): set<RequestId> {
    set id | id in s.channels && s.channels[id] != []
  }

  /** A read empties one result channel and leaves the workers alone. */
  lemma ReadShrinks(s: State, id: RequestId)
    requires ChannelsSound(s) && Enabled(s, TakeResult(id))
    ensures Unread(Apply(s, TakeResult(id))) < Unread(s)
    ensures Remaining(Apply(s, TakeResult(id))) == Remaining(s)
  {
    assert ChannelOk(s, id);
    assert id in Unread(s);
  }

  // ------------------------------------------------------- the object itself

  /** The pool as an object.  Its real fields are the channel and the goroutines' places;
      `h` carries the history and is moved only by Apply, so each method is tied to its
      step of the state machine. */
  class Pool {
    const capacity: nat
    var queue: seq<RequestId>
    var workers: seq<Worker>
    var closed: bool
    var channels: map<RequestId, seq<Reply>>
    ghost var h: State

    ghost predicate Valid()
      reads this
    {
      && Inv(h)
      && h.capacity == capacity && h.queue == queue && h.workers == workers
      && h.closed == closed && h.channels == channels
    }

    constructor New(queueSize: int, concurrency: int)
      ensures Valid() && h == Init(queueSize, concurrency)
    {
      var n := concurrency;
      if n < 1 {
        n := 1;
      }
      var size := queueSize;
      if size < 0 {
        size := 0;
      }
      capacity := size;
      queue, closed, channels := [], false, map[];
      h := Init(queueSize, concurrency);
      var started: seq<Worker> := [];
      for i := 0 to n
        invariant started == seq(i, k => Ready)
      {
        started := started + [Ready];
      }
      workers := started;
      new;
      InitInv(queueSize, concurrency);
    }

    /** Submit: never blocks; the result says whether the queue took the request. */
    method Submit(id: RequestId) returns (ok: bool)
      requires Valid() && !closed && Fresh(h, id)
      modifies this
      ensures Valid()
      ensures exists partner ::
                Enabled(old(h), Step.Submit(id, partner)) && h == Apply(old(h), Step.Submit(id, partner))
      ensures ok <==> id in h.accepted
      ensures ok <==> if capacity == 0 then old(HasParked(h)) else |old(queue)| < capacity
    {
      var parked := set w | 0 <= w < |workers| && workers[w].Parked?;
      ghost var before := h;
      if parked != {} {
        var w :| w in parked;
        workers := workers[w := Holding(id)];
        channels := channels[id := []];
        h := Apply(h, Step.Submit(id, w));
        AdmissionRule(before, id, w);
        StepKeepsInv(before, Step.Submit(id, w));
        ok := true;
      } else {
        assert !HasParked(before) by {
          forall w | 0 <= w < |before.workers| ensures !before.workers[w].Parked? {
            assert w !in parked;
          }
        }
        if |queue| < capacity {
          queue := queue + [id];
          channels := channels[id := []];
          ok := true;
        } else {
          ok := false;
        }
        h := Apply(h, Step.Submit(id, 0));
        AdmissionRule(before, id, 0);
        StepKeepsInv(before, Step.Submit(id, 0));
      }
    }

    /** QueueDepth counts the waiting requests: those accepted and not yet received. */
    method QueueDepth() returns (n: nat)
      requires Valid()
      ensures n == |h.accepted| - |h.taken| && n <= capacity
    {
      n := |queue|;
    }

    /** The receive of the worker's range loop. */
    method Next(w: nat)
      requires Valid() && w < |workers| && workers[w].Ready?
      modifies this
      ensures Valid() && h == Apply(old(h), Receive(w))
    {
      StepKeepsInv(h, Receive(w));
      h := Apply(h, Receive(w));
      if queue != [] {
        workers, queue := workers[w := Holding(queue[0])], queue[1..];
      } else if closed {
        workers := workers[w := Exited];
      } else {
        workers := workers[w := Parked];
      }
    }

    /** The call of Predict, and later its return with `answer`. */
    method Call(w: nat)
      requires Valid() && w < |workers| && workers[w].Holding?
      modifies this
      ensures Valid() && h == Apply(old(h), CallPredict(w))
    {
      StepKeepsInv(h, CallPredict(w));
      h := Apply(h, CallPredict(w));
      workers := workers[w := Predicting(workers[w].id)];
    }

    method Return(w: nat, answer: Reply)
      requires Valid() && w < |workers| && workers[w].Predicting?
      modifies this
      ensures Valid() && h == Apply(old(h), PredictReturns(w, answer))
    {
      StepKeepsInv(h, PredictReturns(w, answer));
      h := Apply(h, PredictReturns(w, answer));
      workers := workers[w := Sending(workers[w].id, answer)];
    }

    /** The send of the result, which always finds room in the result channel. */
    method Deliver(w: nat)
      requires Valid() && w < |workers| && workers[w].Sending?
      modifies this
      ensures Valid() && Enabled(old(h), SendResult(w)) && h == Apply(old(h), SendResult(w))
    {
      SendNeverBlocks(h, w);
      StepKeepsInv(h, SendResult(w));
      h := Apply(h, SendResult(w));
      var id := workers[w].id;
      channels := channels[id := channels[id] + [workers[w].reply]];
      workers := workers[w := Ready];
    }

    /** The next action of worker goroutine w, `answer` being what Predict returns if it
        is in that call. */
    method WorkerAction(w: nat, answer: Reply) returns (ghost step: Step)
      requires Valid() && w < |workers| && !workers[w].Parked? && !workers[w].Exited?
      modifies this
      ensures Valid() && IsWorkerStep(step)
      ensures Enabled(old(h), step) && h == Apply(old(h), step)
    {
      match workers[w]
      case Ready =>
        step := Receive(w);
        Next(w);
      case Holding(_) =>
        step := CallPredict(w);
        Call(w);
      case Predicting(_) =>
        step := PredictReturns(w, answer);
        Return(w, answer);
      case Sending(_, _) =>
        step := SendResult(w);
        Deliver(w);
    }

    /** A handler reads its result. */
    method Read(id: RequestId) returns (reply: Reply)
      requires Valid() && id in channels && channels[id] != []
      modifies this
      ensures Valid() && h == Apply(old(h), TakeResult(id))
      ensures reply == old(channels[id])[0] && workers == old(workers)
    {
      StepKeepsInv(h, TakeResult(id));
      h := Apply(h, TakeResult(id));
      reply := channels[id][0];
      channels := channels[id := channels[id][1..]];
    }

    /** While the closed pool drains, either some handler reads its result or worker w, which
        has not exited, does its next action. */
    method Progress(w: nat)
      requires Valid() && closed && w < |workers| && !workers[w].Exited?
      modifies this
      ensures Valid() && closed && h.accepted == old(h.accepted) && h.rejected == old(h.rejected)
      ensures Remaining(h) < old(Remaining(h)) || (Remaining(h) == old(Remaining(h)) && Unread(h) < old(Unread(h)))
    {
      ghost var earlier := h;
      var unread := set id | id in channels && channels[id] != [];
      if * {
        if unread != {} {
          var id :| id in unread;
          ReadShrinks(earlier, id);
          var _ := Read(id);
          return;
        }
      }
      var answer: Reply := *;
      ghost var step := WorkerAction(w, answer);
      ServingStep(earlier, step);
    }

    /** Close closes the queue and waits until every worker has exited, under any
        scheduling of the workers and of handlers that read meanwhile, and any answers of
        Predict. */
    method Close()
      requires Valid() && !closed
      modifies this
      ensures Valid() && closed && queue == []
      ensures forall w | 0 <= w < |workers| :: workers[w].Exited?
      ensures h.accepted == old(h.accepted) && h.rejected == old(h.rejected)
      ensures forall id | id in h.accepted :: h.sent[id] == 1 && id in h.returned
    {
      ghost var before := h;
      closed := true;
      workers := WakeAll(workers);
      h := Apply(h, CloseQueue);
      StepKeepsInv(before, CloseQueue);
      var running := set w | 0 <= w < |workers| && !workers[w].Exited?;
      while running != {}
        invariant Valid() && closed
        invariant running == set w | 0 <= w < |workers| && !workers[w].Exited?
        invariant h.accepted == old(h.accepted) && h.rejected == old(h.rejected)
        decreases Remaining(h), Unread(h)
      {
        var w: nat :| w in running;
        Progress(w);
        running := set v | 0 <= v < |workers| && !workers[v].Exited?;
      }
      forall w | 0 <= w < |workers| ensures workers[w].Exited? {
        assert w !in running;
      }
      QuietMeansDrained(h);
    }
  }
}
