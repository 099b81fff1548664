/** The bounded worker pool of one engine as a concurrent state machine
    (scheduler/internal/workerpool/pool.go).

    One step is one atomic action of one goroutine: a Submit, a worker's channel
    receive, the call of Predict, its return, the send of the result, a handler's
    read of its result channel, or Close.  Go's channel rules are modelled as they
    are: a send meets a parked receiver first, then free buffer space, and otherwise
    does not happen; with capacity 0 only the first case exists. */
module WorkerPool {
  import opened Common

  type RequestId = nat

  /** What Predict returns: a response or an error. */
  datatype Reply = Response(body: int) | Failure(message: string)

  /** Where a worker goroutine is. */
  datatype Worker =
    | Ready                                     // about to receive from the queue
    | Parked                                    // blocked in the receive
    | Holding(id: RequestId)                    // has received, has not called Predict yet
    | Predicting(id: RequestId)                 // inside Predict
    | Sending(id: RequestId, reply: Reply)      // about to send the result
    | Exited

  datatype State = State(
    capacity: nat,
    queue: seq<RequestId>,
    workers: seq<Worker>,
    closed: bool,
    channels: map<RequestId, seq<Reply>>,       // buffer of each request's result channel
    // history
    accepted: seq<RequestId>,                   // Submit returned true, in this order
    rejected: seq<RequestId>,                   // Submit returned false
    taken: seq<RequestId>,                      // received by a worker
    started: seq<RequestId>,                    // Predict called
    returned: map<RequestId, Reply>,            // what Predict returned
    sent: multiset<RequestId>,                  // result sent, with multiplicity
    received: map<RequestId, Reply>             // result read by its handler
  )

  datatype Step =
    | Submit(id: RequestId, partner: nat)       // partner: the parked worker a hand-off would wake
    | Receive(w: nat)
    | CallPredict(w: nat)
    | PredictReturns(w: nat, answer: Reply)
    | SendResult(w: nat)
    | TakeResult(reader: RequestId)
    | CloseQueue

  /** The capacity of every result channel: its handler makes it with make(chan Result, 1). */
  const RESULT_CAPACITY := 1

  function Clamp(x: int, least: nat): nat {
    if x < least then least else x
  }

  function Init(queueSize: int, concurrency: int): State {
    State(Clamp(queueSize, 0), [], seq(Clamp(concurrency, 1), i => Ready), false, map[],
          [], [], [], [], map[], multiset{}, map[])
  }

  predicate HasParked(s: State) {
    exists w | 0 <= w < |s.workers| :: s.workers[w].Parked?
  }

  /** The select of Submit takes the send case. */
  predicate Admits(s: State) {
    HasParked(s) || |s.queue| < s.capacity
  }

  predicate Fresh(s: State, id: RequestId) {
    id !in s.channels && id !in s.accepted && id !in s.rejected
  }

  /** A step of a worker goroutine. */
  predicate IsWorkerStep(step: Step) {
    step.Receive? || step.CallPredict? || step.PredictReturns? || step.SendResult?
  }

  predicate Enabled(s: State, step: Step) {
    match step
    case Submit(id, partner) =>
      !s.closed && Fresh(s, id) && (HasParked(s) ==> partner < |s.workers| && s.workers[partner].Parked?)
    case Receive(w) => w < |s.workers| && s.workers[w].Ready?
    case CallPredict(w) => w < |s.workers| && s.workers[w].Holding?
    case PredictReturns(w, _) => w < |s.workers| && s.workers[w].Predicting?
    case SendResult(w) =>
      w < |s.workers| && s.workers[w].Sending? && s.workers[w].id in s.channels
      && |s.channels[s.workers[w].id]| < RESULT_CAPACITY
    case TakeResult(id) => id in s.channels && s.channels[id] != []
    case CloseQueue => !s.closed
  }

  function Apply(s: State, step: Step): State
    requires Enabled(s, step)
  {
    match step
    case Submit(id, partner) =>
      if HasParked(s) then
        s.(workers := s.workers[partner := Holding(id)], channels := s.channels[id := []],
           accepted := s.accepted + [id], taken := s.taken + [id])
      else if |s.queue| < s.capacity then
        s.(queue := s.queue + [id], channels := s.channels[id := []], accepted := s.accepted + [id])
      else
        s.(rejected := s.rejected + [id])
    case Receive(w) =>
      if s.queue != [] then
        s.(workers := s.workers[w := Holding(s.queue[0])], queue := s.queue[1..], taken := s.taken + [s.queue[0]])
      else
        s.(workers := s.workers[w := if s.closed then Exited else Parked])
    case CallPredict(w) =>
      s.(workers := s.workers[w := Predicting(s.workers[w].id)], started := s.started + [s.workers[w].id])
    case PredictReturns(w, answer) =>
      s.(workers := s.workers[w := Sending(s.workers[w].id, answer)],
         returned := s.returned[s.workers[w].id := answer])
    case SendResult(w) =>
      var id, reply := s.workers[w].id, s.workers[w].reply;
      s.(workers := s.workers[w := Ready], channels := s.channels[id := s.channels[id] + [reply]],
         sent := s.sent + multiset{id})
    case TakeResult(id) =>
      s.(channels := s.channels[id := s.channels[id][1..]], received := s.received[id := s.channels[id][0]])
    case CloseQueue =>
      // close wakes every parked receiver; each then finds the queue empty and closed
      s.(closed := true, workers := WakeAll(s.workers))
  }

  function Woken(w: Worker): Worker {
    if w.Parked? then Ready else w
  }

  function WakeAll(ws: seq<Worker>): (woken: seq<Worker>)
    ensures |woken| == |ws| && forall w | 0 <= w < |ws| :: woken[w] == Woken(ws[w])
  {
    seq(|ws|, w requires 0 <= w < |ws| => Woken(ws[w]))
  }

  /** The state after a whole run, if every step of it was enabled. */
  function Exec(s: State, steps: seq<Step>): Option<State> {
    if steps == [] then Some(s)
    else
      match Exec(s, steps[..|steps| - 1])
      case None => None
      case Some(t) =>
        var step := steps[|steps| - 1];
        if Enabled(t, step) then Some(Apply(t, step)) else None
  }

  // -------------------------------------------------------------- invariant

  predicate Busy(w: Worker) {
    w.Holding? || w.Predicting? || w.Sending?
  }

  predicate InCall(w: Worker) {
    w.Predicting? || w.Sending?
  }

  /** Workers responsible for one request, and those that have called Predict for it. */
  function Has(id: RequestId): Worker -> bool {
    (w: Worker) => Busy(w) && w.id == id
  }

  function HasCalled(id: RequestId): Worker -> bool {
    (w: Worker) => InCall(w) && w.id == id
  }

  ghost predicate Bounded(s: State) {
    && 1 <= |s.workers|
    && |s.queue| <= s.capacity
    && (forall w | 0 <= w < |s.workers| ::
          && (s.workers[w].Parked? ==> s.queue == [] && !s.closed)
          && (s.workers[w].Exited? ==> s.queue == [] && s.closed))
  }

  /** A request a worker has received is in one worker's hands or was answered once;
      a request Predict was called for is in that call or was answered once. */
  ghost predicate Placed(s: State, id: RequestId) {
    && One(id in s.taken) == Count(Has(id), s.workers) + s.sent[id]
    && One(id in s.started) == Count(HasCalled(id), s.workers) + s.sent[id]
  }

  ghost predicate Conserved(s: State) {
    && Distinct(s.accepted)
    && Distinct(s.started)
    && s.accepted == s.taken + s.queue
    && (forall id :: Placed(s, id))
    && Totals(s)
  }

  /** As many requests were received, and as many calls made, as are answered or still
      in a worker's hands. */
  ghost predicate Totals(s: State) {
    && |s.taken| == Count(Busy, s.workers) + |s.sent|
    && |s.started| == Count(InCall, s.workers) + |s.sent|
  }

  ghost predicate AmongFirst(s: seq<RequestId>, n: nat, id: RequestId) {
    exists i :: 0 <= i < n && i < |s| && s[i] == id
  }

  /** The k-th Predict call serves one of the first k + |workers| accepted requests. */
  ghost predicate NearlyInOrder(s: State) {
    forall k | 0 <= k < |s.started| :: AmongFirst(s.accepted, k + |s.workers|, s.started[k])
  }

  /** A result channel holds at most the one reply that Predict gave for its request,
      and what was sent is still in the channel or was read by the handler. */
  ghost predicate ChannelOk(s: State, id: RequestId) {
    && id in s.channels
    && |s.channels[id]| <= RESULT_CAPACITY
    && s.sent[id] == |s.channels[id]| + (if id in s.received then 1 else 0)
    && (s.channels[id] != [] ==> id in s.returned && s.channels[id][0] == s.returned[id])
    && (id in s.received ==> id in s.returned && s.received[id] == s.returned[id])
  }

  ghost predicate ChannelsSound(s: State) {
    && (forall id | id in s.accepted :: ChannelOk(s, id))
    && (forall id | id in s.channels :: id in s.accepted)
    && (forall id | id in s.received :: id in s.accepted)
    && (forall id | id in s.rejected :: id !in s.accepted)
    && RepliesSound(s)
  }

  /** What a worker is about to send is what Predict returned for that request. */
  ghost predicate RepliesSound(s: State) {
    && (forall id | id in s.returned :: id in s.started)
    && (forall w | 0 <= w < |s.workers| && s.workers[w].Sending? ::
          s.workers[w].id in s.returned && s.workers[w].reply == s.returned[s.workers[w].id])
  }

  ghost predicate Inv(s: State) {
    Bounded(s) && Conserved(s) && NearlyInOrder(s) && ChannelsSound(s)
  }

  // ---------------------------------------------- every step keeps the invariant

  lemma InitInv(queueSize: int, concurrency: int)
    ensures Inv(Init(queueSize, concurrency))
  {
    var s := Init(queueSize, concurrency);
    CountZero(Busy, s.workers);
    CountZero(InCall, s.workers);
    forall id ensures Placed(s, id) {
      CountZero(Has(id), s.workers);
      CountZero(HasCalled(id), s.workers);
    }
  }

  lemma DistinctParts(a: seq<RequestId>, b: seq<RequestId>, id: RequestId)
    requires Distinct(a + b)
    ensures !(id in a && id in b)
  {
    forall i, j | 0 <= i < |a| && 0 <= j < |b| ensures a[i] != b[j] {
      assert (a + b)[i] == a[i] && (a + b)[|a| + j] == b[j];
    }
  }

  /** Each accepted request is in exactly one of the queue, one worker's hands, or the
      answered ones, and every other request is in none of them. */
  lemma WhereIs(s: State, id: RequestId)
    requires Conserved(s)
    ensures One(id in s.queue) + Count(Has(id), s.workers) + s.sent[id] == One(id in s.accepted)
    ensures Count(HasCalled(id), s.workers) <= Count(Has(id), s.workers)
  {
    assert Placed(s, id);
    CountImplies(HasCalled(id), Has(id), s.workers);
    DistinctParts(s.taken, s.queue, id);
  }

  /** What conservation says of the request a worker is serving. */
  lemma Serving(s: State, w: nat)
    requires Conserved(s) && w < |s.workers| && Busy(s.workers[w])
    ensures s.workers[w].id in s.taken && s.workers[w].id in s.accepted && s.sent[s.workers[w].id] == 0
    ensures s.workers[w].id in s.started <==> InCall(s.workers[w])
    ensures forall v | 0 <= v < |s.workers| && v != w && Busy(s.workers[v]) :: s.workers[v].id != s.workers[w].id
  {
    var id := s.workers[w].id;
    var rest := s.workers[w := Ready];
    assert Placed(s, id);
    CountUpdate(Has(id), s.workers, w, Ready);
    CountUpdate(HasCalled(id), s.workers, w, Ready);
    CountImplies(HasCalled(id), Has(id), rest);
    CountZero(Has(id), rest);
    forall v | 0 <= v < |s.workers| && v != w && Busy(s.workers[v])
      ensures s.workers[v].id != id
    {
      assert rest[v] == s.workers[v];
    }
  }

  /** Worker w moves to state x: how the counts of one request's workers change. */
  lemma MoveCounts(s: State, w: nat, x: Worker, id: RequestId)
    requires w < |s.workers| && Placed(s, id)
    ensures One(id in s.taken) + One(Has(id)(x))
            == Count(Has(id), s.workers[w := x]) + s.sent[id] + One(Has(id)(s.workers[w]))
    ensures One(id in s.started) + One(HasCalled(id)(x))
            == Count(HasCalled(id), s.workers[w := x]) + s.sent[id] + One(HasCalled(id)(s.workers[w]))
  {
    CountUpdate(Has(id), s.workers, w, x);
    CountUpdate(HasCalled(id), s.workers, w, x);
  }

  lemma HandOffKeepsPlaced(s: State, submitted: RequestId, partner: nat, id: RequestId)
    requires Bounded(s) && Conserved(s) && Enabled(s, Submit(submitted, partner)) && HasParked(s)
    ensures Placed(Apply(s, Submit(submitted, partner)), id)
  {
    assert Placed(s, id);
    assert s.accepted == s.taken;
    MoveCounts(s, partner, Holding(submitted), id);
  }

  lemma SubmitKeepsPlaced(s: State, submitted: RequestId, partner: nat, id: RequestId)
    requires Bounded(s) && Conserved(s) && Enabled(s, Submit(submitted, partner))
    ensures Placed(Apply(s, Submit(submitted, partner)), id)
  {
    assert Placed(s, id);
    if HasParked(s) {
      HandOffKeepsPlaced(s, submitted, partner, id);
    }
  }

  lemma ReceiveKeepsPlaced(s: State, w: nat, id: RequestId)
    requires Conserved(s) && Enabled(s, Receive(w))
    ensures Placed(Apply(s, Receive(w)), id)
  {
    assert Placed(s, id);
    if s.queue == [] {
      MoveCounts(s, w, if s.closed then Exited else Parked, id);
    } else {
      MoveCounts(s, w, Holding(s.queue[0]), id);
      WhereIs(s, s.queue[0]);
    }
  }

  lemma ServeStepKeepsPlaced(s: State, step: Step, id: RequestId)
    requires Conserved(s) && Enabled(s, step)
    requires step.CallPredict? || step.PredictReturns? || step.SendResult?
    ensures Placed(Apply(s, step), id)
  {
    assert Placed(s, id);
    match step
    case CallPredict(w) =>
      Serving(s, w);
      MoveCounts(s, w, Predicting(s.workers[w].id), id);
    case PredictReturns(w, answer) =>
      MoveCounts(s, w, Sending(s.workers[w].id, answer), id);
    case SendResult(w) =>
      MoveCounts(s, w, Ready, id);
    case _ =>
  }

  lemma StepKeepsPlaced(s: State, step: Step, id: RequestId)
    requires Bounded(s) && Conserved(s) && Enabled(s, step)
    ensures Placed(Apply(s, step), id)
  {
    assert Placed(s, id);
    match step
    case TakeResult(_) =>
    case CloseQueue =>
      CountWoken(Has(id), s.workers);
      CountWoken(HasCalled(id), s.workers);
    case Submit(submitted, partner) => SubmitKeepsPlaced(s, submitted, partner, id);
    case Receive(w) => ReceiveKeepsPlaced(s, w, id);
    case _ => ServeStepKeepsPlaced(s, step, id);
  }

  lemma {:induction false} CountWoken(p: Worker -> bool, ws: seq<Worker>)
    requires !p(Ready) && !p(Parked)
    ensures Count(p, WakeAll(ws)) == Count(p, ws)
  {
    if ws != [] {
      CountWoken(p, ws[..|ws| - 1]);
      assert WakeAll(ws)[..|ws| - 1] == WakeAll(ws[..|ws| - 1]);
    }
  }

  lemma MoveTotals(s: State, w: nat, x: Worker)
    requires w < |s.workers|
    ensures Count(Busy, s.workers[w := x]) + One(Busy(s.workers[w])) == Count(Busy, s.workers) + One(Busy(x))
    ensures Count(InCall, s.workers[w := x]) + One(InCall(s.workers[w])) == Count(InCall, s.workers) + One(InCall(x))
  {
    CountUpdate(Busy, s.workers, w, x);
    CountUpdate(InCall, s.workers, w, x);
  }

  lemma QueueKeepsTotals(s: State, step: Step)
    requires Totals(s) && Enabled(s, step) && (step.Submit? || step.Receive?)
    ensures Totals(Apply(s, step))
  {
    match step
    case Submit(id, partner) =>
      if HasParked(s) {
        MoveTotals(s, partner, Holding(id));
      }
    case Receive(w) =>
      MoveTotals(s, w, if s.queue != [] then Holding(s.queue[0]) else if s.closed then Exited else Parked);
  }

  lemma StepKeepsTotals(s: State, step: Step)
    requires Totals(s) && Enabled(s, step)
    ensures Totals(Apply(s, step))
  {
    match step
    case Submit(_, _) => QueueKeepsTotals(s, step);
    case Receive(_) => QueueKeepsTotals(s, step);
    case CallPredict(w) => MoveTotals(s, w, Predicting(s.workers[w].id));
    case PredictReturns(w, answer) => MoveTotals(s, w, Sending(s.workers[w].id, answer));
    case SendResult(w) => MoveTotals(s, w, Ready);
    case TakeResult(_) =>
    case CloseQueue =>
      CountWoken(Busy, s.workers);
      CountWoken(InCall, s.workers);
  }

  lemma DistinctAppend(s: seq<RequestId>, id: RequestId)
    requires Distinct(s) && id !in s
    ensures Distinct(s + [id])
  {
  }

  lemma StepKeepsSequences(s: State, step: Step)
    requires Bounded(s) && Conserved(s) && Enabled(s, step)
    ensures var t := Apply(s, step);
            Distinct(t.accepted) && Distinct(t.started) && t.accepted == t.taken + t.queue
  {
    match step
    case Submit(id, partner) =>
      DistinctAppend(s.accepted, id);
      if HasParked(s) {
        assert s.queue == [];
        assert s.accepted + [id] == s.taken + [id] + s.queue;
      } else {
        assert s.accepted + [id] == s.taken + (s.queue + [id]);
      }
    case Receive(w) =>
      if s.queue != [] {
        assert s.taken + s.queue == s.taken + [s.queue[0]] + s.queue[1..];
      }
    case CallPredict(w) =>
      Serving(s, w);
      DistinctAppend(s.started, s.workers[w].id);
    case _ =>
  }

  lemma StepKeepsConserved(s: State, step: Step)
    requires Bounded(s) && Conserved(s) && Enabled(s, step)
    ensures Conserved(Apply(s, step))
  {
    forall id ensures Placed(Apply(s, step), id) {
      StepKeepsPlaced(s, step, id);
    }
    StepKeepsTotals(s, step);
    StepKeepsSequences(s, step);
  }

  lemma StepKeepsBounded(s: State, step: Step)
    requires Bounded(s) && Enabled(s, step)
    ensures Bounded(Apply(s, step))
    ensures |Apply(s, step).workers| == |s.workers| && Apply(s, step).capacity == s.capacity
  {
  }

  /** A request that calls Predict now is at most |workers| places ahead of its turn:
      the only requests it can overtake are in the hands of the other workers. */
  lemma CalledAlmostInTurn(s: State, w: nat)
    requires Conserved(s) && Enabled(s, CallPredict(w))
    ensures AmongFirst(s.accepted, |s.started| + |s.workers|, s.workers[w].id)
  {
    Serving(s, w);
    var i :| 0 <= i < |s.taken| && s.taken[i] == s.workers[w].id;
    assert s.accepted[i] == s.workers[w].id;
  }

  lemma StepKeepsOrder(s: State, step: Step)
    requires Conserved(s) && NearlyInOrder(s) && Enabled(s, step)
    ensures NearlyInOrder(Apply(s, step))
  {
    var t := Apply(s, step);
    if step.CallPredict? {
      CalledAlmostInTurn(s, step.w);
    }
    forall k | 0 <= k < |t.started|
      ensures AmongFirst(t.accepted, k + |t.workers|, t.started[k])
    {
      if k < |s.started| {
        assert AmongFirst(s.accepted, k + |s.workers|, s.started[k]);
        assert s.accepted <= t.accepted;
      }
    }
  }

  lemma SendKeepsChannelOk(s: State, w: nat, id: RequestId)
    requires Conserved(s) && ChannelsSound(s) && Enabled(s, SendResult(w)) && id in s.accepted
    ensures ChannelOk(Apply(s, SendResult(w)), id)
  {
    assert ChannelOk(s, id);
    Serving(s, w);
  }

  lemma SubmitKeepsChannelOk(s: State, submitted: RequestId, partner: nat, id: RequestId)
    requires ChannelsSound(s) && Enabled(s, Submit(submitted, partner)) && id in s.accepted
    ensures ChannelOk(Apply(s, Submit(submitted, partner)), id)
  {
    assert ChannelOk(s, id);
  }

  lemma TakeKeepsChannelOk(s: State, reader: RequestId, id: RequestId)
    requires Conserved(s) && ChannelsSound(s) && Enabled(s, TakeResult(reader)) && id in s.accepted
    ensures ChannelOk(Apply(s, TakeResult(reader)), id)
  {
    assert ChannelOk(s, id);
    assert Placed(s, id);
  }

  lemma StepKeepsChannelOk(s: State, step: Step, id: RequestId)
    requires Conserved(s) && ChannelsSound(s) && Enabled(s, step) && id in s.accepted
    ensures ChannelOk(Apply(s, step), id)
  {
    assert ChannelOk(s, id);
    match step
    case Submit(submitted, partner) => SubmitKeepsChannelOk(s, submitted, partner, id);
    case PredictReturns(w, _) => Serving(s, w);
    case SendResult(w) => SendKeepsChannelOk(s, w, id);
    case TakeResult(reader) => TakeKeepsChannelOk(s, reader, id);
    case _ =>
  }

  lemma NewChannelOk(s: State, id: RequestId, partner: nat)
    requires Inv(s) && Enabled(s, Submit(id, partner)) && Admits(s)
    ensures ChannelOk(Apply(s, Submit(id, partner)), id)
  {
    WhereIs(s, id);
  }

  lemma ReturnKeepsReplies(s: State, w: nat, answer: Reply)
    requires Conserved(s) && RepliesSound(s) && Enabled(s, PredictReturns(w, answer))
    ensures RepliesSound(Apply(s, PredictReturns(w, answer)))
  {
    Serving(s, w);
  }

  lemma StepKeepsReplies(s: State, step: Step)
    requires Conserved(s) && RepliesSound(s) && Enabled(s, step)
    ensures RepliesSound(Apply(s, step))
  {
    match step
    case PredictReturns(w, answer) => ReturnKeepsReplies(s, w, answer);
    case CloseQueue =>
    case _ =>
  }

  lemma StepKeepsChannels(s: State, step: Step)
    requires Inv(s) && Enabled(s, step)
    ensures ChannelsSound(Apply(s, step))
  {
    var t := Apply(s, step);
    forall id | id in t.accepted ensures ChannelOk(t, id) {
      if id in s.accepted {
        StepKeepsChannelOk(s, step, id);
      } else {
        NewChannelOk(s, id, step.partner);
      }
    }
    StepKeepsReplies(s, step);
  }

  lemma StepKeepsInv(s: State, step: Step)
    requires Inv(s) && Enabled(s, step)
    ensures Inv(Apply(s, step))
    ensures |Apply(s, step).workers| == |s.workers| && Apply(s, step).capacity == s.capacity
  {
    StepKeepsBounded(s, step);
    StepKeepsConserved(s, step);
    StepKeepsOrder(s, step);
    StepKeepsChannels(s, step);
  }
}
