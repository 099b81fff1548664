/** What HandlePredict guarantees over whole runs of interleaved requests, workers and
    health pollers (scheduler/internal/api/handlers.go:163-292). */
module ServerGuarantees {
  import opened Common
  import opened Routing
  import opened Server
  import P = WorkerPool

  /** `s` is reached by the run `steps` from the state that main sets up. */
  ghost predicate RunsTo(names: set<string>, queueSize: int, concurrency: int, policy: Policy, steps: seq<Step>,
      s: System) {
    Exec(Init(names, queueSize, concurrency, policy), steps) == Some(s)
  }

  // ------------------------------------------------------------ bookkeeping

  function AcceptedBy(e: string): Handler -> bool {
    (x: Handler) => x.engine == e && WasAccepted(x)
  }

  function RejectedBy(e: string): Handler -> bool {
    (x: Handler) => x.engine == e && WasRejected(x)
  }

  function Ended(e: string, status: Status): Handler -> bool {
    (x: Handler) => x.engine == e && x.status == status
  }

  function CountedAs(e: string, status: Status): Handler -> bool {
    (x: Handler) => x.pc.Done? && x.engine == e && e != "" && x.status == status
  }

  /** The pools' histories and the metrics agree with the handlers, for one engine name
      and one status label. */
  ghost predicate BooksAt(s: System, e: string, status: Status) {
    && (e in s.pools ==> |s.pools[e].accepted| == Count(AcceptedBy(e), s.handlers))
    && (e in s.pools ==> |s.pools[e].rejected| == Count(RejectedBy(e), s.handlers))
    && Tally(s.rejections, e) == Count(Ended(e, Rejected), s.handlers)
    && Tally(s.totals, e) == Count(Ended(e, Success), s.handlers)
    && Tally(s.requests, (e, status)) == Count(CountedAs(e, status), s.handlers)
  }

  ghost predicate Books(s: System) {
    forall e, status :: BooksAt(s, e, status)
  }

  /** The five counts of BooksAt when handler h moves from x to y. */
  lemma MoveCounts(hs: seq<Handler>, h: nat, y: Handler, e: string, status: Status)
    requires h < |hs|
    ensures Count(AcceptedBy(e), hs[h := y]) + One(AcceptedBy(e)(hs[h]))
        == Count(AcceptedBy(e), hs) + One(AcceptedBy(e)(y))
    ensures Count(RejectedBy(e), hs[h := y]) + One(RejectedBy(e)(hs[h]))
        == Count(RejectedBy(e), hs) + One(RejectedBy(e)(y))
    ensures Count(Ended(e, Rejected), hs[h := y]) + One(Ended(e, Rejected)(hs[h]))
            == Count(Ended(e, Rejected), hs) + One(Ended(e, Rejected)(y))
    ensures Count(Ended(e, Success), hs[h := y]) + One(Ended(e, Success)(hs[h]))
            == Count(Ended(e, Success), hs) + One(Ended(e, Success)(y))
    ensures Count(CountedAs(e, status), hs[h := y]) + One(CountedAs(e, status)(hs[h]))
            == Count(CountedAs(e, status), hs) + One(CountedAs(e, status)(y))
  {
    CountUpdate(AcceptedBy(e), hs, h, y);
    CountUpdate(RejectedBy(e), hs, h, y);
    CountUpdate(Ended(e, Rejected), hs, h, y);
    CountUpdate(Ended(e, Success), hs, h, y);
    CountUpdate(CountedAs(e, status), hs, h, y);
  }

  /** Moving one handler to y keeps the books if the pools and the metrics move with it. */
  lemma MoveKeepsBooks(s: System, t: System, h: nat, y: Handler, e: string, status: Status)
    requires BooksAt(s, e, status) && h < |s.handlers| && t.handlers == s.handlers[h := y]
    requires PoolsMove(s, t, s.handlers[h], y, e) && MetricsMove(s, t, s.handlers[h], y, e, status)
    ensures BooksAt(t, e, status)
  {
    MoveCounts(s.handlers, h, y, e, status);
  }

  ghost predicate PoolsMove(s: System, t: System, x: Handler, y: Handler, e: string) {
    && (e in t.pools ==> e in s.pools)
    && (e in t.pools ==>
          && |t.pools[e].accepted| + One(AcceptedBy(e)(x)) == |s.pools[e].accepted| + One(AcceptedBy(e)(y))
          && |t.pools[e].rejected| + One(RejectedBy(e)(x)) == |s.pools[e].rejected| + One(RejectedBy(e)(y)))
  }

  ghost predicate MetricsMove(s: System, t: System, x: Handler, y: Handler, e: string, status: Status) {
    && Tally(t.rejections, e) + One(Ended(e, Rejected)(x)) == Tally(s.rejections, e) + One(Ended(e, Rejected)(y))
    && Tally(t.totals, e) + One(Ended(e, Success)(x)) == Tally(s.totals, e) + One(Ended(e, Success)(y))
    && Tally(t.requests, (e, status)) + One(CountedAs(e, status)(x))
       == Tally(s.requests, (e, status)) + One(CountedAs(e, status)(y))
  }

  /** A move that the books do not see. */
  ghost predicate Silent(x: Handler, y: Handler) {
    && !WasAccepted(x) && !WasAccepted(y) && !WasRejected(x) && !WasRejected(y)
    && !x.status.Success? && !y.status.Success? && !x.pc.Done? && !y.pc.Done?
  }

  lemma SilentMoveKeepsBooks(s: System, t: System, h: nat, y: Handler, e: string, status: Status)
    requires BooksAt(s, e, status) && h < |s.handlers| && t.handlers == s.handlers[h := y]
    requires t.pools == s.pools && t.rejections == s.rejections && t.totals == s.totals && t.requests == s.requests
    requires Silent(s.handlers[h], y)
    ensures BooksAt(t, e, status)
  {
    MoveKeepsBooks(s, t, h, y, e, status);
  }

  lemma TallyIncrement<K>(m: map<K, nat>, k: K, k': K)
    ensures Tally(Increment(m, k), k') == Tally(m, k') + One(k' == k)
  {
  }

  lemma RejectionKeepsBooks(s: System, h: nat, e: string, status: Status)
    requires BooksAt(s, e, status) && Enabled(s, Advance(h)) && s.handlers[h].pc.CountRejection?
        && s.handlers[h].status.Unknown?
    ensures BooksAt(Advanced(s, h), e, status)
  {
    TallyIncrement(s.rejections, s.handlers[h].engine, e);
    MoveKeepsBooks(s, Advanced(s, h), h, Leave(s.handlers[h], Rejected), e, status);
  }

  lemma DeferredKeepsBooks(s: System, h: nat, e: string, status: Status)
    requires BooksAt(s, e, status) && Enabled(s, Advance(h)) && s.handlers[h].pc.Deferred?
    ensures BooksAt(Advanced(s, h), e, status)
  {
    TallyIncrement(s.requests, (s.handlers[h].engine, s.handlers[h].status), (e, status));
    MoveKeepsBooks(s, Advanced(s, h), h, s.handlers[h].(pc := Done), e, status);
  }

  lemma AdvanceKeepsBooks(s: System, h: nat, e: string, status: Status)
    requires BooksAt(s, e, status) && Enabled(s, Advance(h)) && LocalsOk(s.pools.Keys, s.handlers[h])
    ensures BooksAt(Advanced(s, h), e, status)
  {
    var x := s.handlers[h];
    if x.pc.CountRejection? {
      RejectionKeepsBooks(s, h, e, status);
    } else if x.pc.Deferred? {
      DeferredKeepsBooks(s, h, e, status);
    } else {
      SilentMoveKeepsBooks(s, Advanced(s, h), h, Moved(s, x), e, status);
    }
  }

  lemma FailureKeepsBooks(s: System, h: nat, e: string, status: Status)
    requires BooksAt(s, e, status) && Enabled(s, Publish(h)) && s.handlers[h].status.Unknown?
    requires s.handlers[h].reply.value.Failure?
    ensures BooksAt(Published(s, h), e, status)
  {
    MoveKeepsBooks(s, Published(s, h), h, Leave(s.handlers[h], Error), e, status);
  }

  lemma SuccessKeepsBooks(s: System, h: nat, e: string, status: Status)
    requires BooksAt(s, e, status) && Enabled(s, Publish(h)) && s.handlers[h].status.Unknown?
    requires s.handlers[h].reply.value.Response?
    ensures BooksAt(Published(s, h), e, status)
  {
    TallyIncrement(s.totals, s.handlers[h].engine, e);
    MoveKeepsBooks(s, Published(s, h), h, Leave(s.handlers[h], Success), e, status);
  }

  lemma TimeOutKeepsBooks(s: System, h: nat, e: string, status: Status)
    requires BooksAt(s, e, status) && Enabled(s, TimeOut(h)) && s.handlers[h].status.Unknown?
    ensures BooksAt(Apply(s, TimeOut(h)), e, status)
  {
    MoveKeepsBooks(s, Apply(s, TimeOut(h)), h, Leave(s.handlers[h], Timeout), e, status);
  }

  /** A handler moves from x to y, and its engine's pool gains what the handler gains. */
  lemma NewPoolKeepsBooks(s: System, t: System, p: P.State, h: nat, y: Handler, e: string, status: Status)
    requires BooksAt(s, e, status) && h < |s.handlers| && s.handlers[h].engine in s.pools
    requires t.pools == s.pools[s.handlers[h].engine := p] && t.handlers == s.handlers[h := y]
    requires t.rejections == s.rejections && t.totals == s.totals && t.requests == s.requests
    requires y.engine == s.handlers[h].engine && s.handlers[h].status.Unknown? && y.status.Unknown?
    requires !s.handlers[h].pc.Done? && !y.pc.Done?
    requires var x, pool := s.handlers[h], s.pools[s.handlers[h].engine];
             && |p.accepted| + One(WasAccepted(x)) == |pool.accepted| + One(WasAccepted(y))
             && |p.rejected| + One(WasRejected(x)) == |pool.rejected| + One(WasRejected(y))
    ensures BooksAt(t, e, status)
  {
    MoveKeepsBooks(s, t, h, y, e, status);
  }

  lemma SubmitGrows(pool: P.State, h: nat, partner: nat)
    requires P.Enabled(pool, P.Submit(h, partner))
    ensures var p := P.Apply(pool, P.Submit(h, partner));
            && |p.accepted| == |pool.accepted| + One(P.Admits(pool))
            && |p.rejected| == |pool.rejected| + One(!P.Admits(pool))
  {
  }

  lemma SubmitKeepsBooks(s: System, h: nat, partner: nat, e: string, status: Status)
    requires BooksAt(s, e, status) && Enabled(s, Submit(h, partner)) && s.handlers[h].status.Unknown?
    ensures BooksAt(Submitted(s, h, partner), e, status)
  {
    var x := s.handlers[h];
    var pool := s.pools[x.engine];
    SubmitGrows(pool, h, partner);
    NewPoolKeepsBooks(s, Submitted(s, h, partner), P.Apply(pool, P.Submit(h, partner)), h, Tried(x, P.Admits(pool)),
        e, status);
  }

  lemma TakeKeepsBooks(s: System, h: nat, e: string, status: Status)
    requires BooksAt(s, e, status) && Enabled(s, Take(h)) && s.handlers[h].status.Unknown?
    ensures BooksAt(Taken(s, h), e, status)
  {
    var x := s.handlers[h];
    var pool := s.pools[x.engine];
    NewPoolKeepsBooks(s, Taken(s, h), P.Apply(pool, P.TakeResult(h)), h, Got(x, pool.channels[h][0]), e, status);
  }

  lemma QuietStepKeepsBooks(s: System, step: Step, e: string, status: Status)
    requires BooksAt(s, e, status) && Enabled(s, step)
    requires (step.ReadDepth? || step.ReadHealth? || step.Select? || step.Body?) && s.handlers[step.h].status.Unknown?
    ensures BooksAt(Apply(s, step), e, status)
  {
    var t := Apply(s, step);
    SilentMoveKeepsBooks(s, t, step.h, t.handlers[step.h], e, status);
  }

  lemma ArriveKeepsBooks(s: System, query: string, budgetOk: bool, e: string, status: Status)
    requires BooksAt(s, e, status)
    ensures BooksAt(Apply(s, Arrive(query, budgetOk)), e, status)
  {
    var x := NewHandler.(query := query, budgetOk := budgetOk);
    CountAppend(AcceptedBy(e), s.handlers, x);
    CountAppend(RejectedBy(e), s.handlers, x);
    CountAppend(Ended(e, Rejected), s.handlers, x);
    CountAppend(Ended(e, Success), s.handlers, x);
    CountAppend(CountedAs(e, status), s.handlers, x);
  }

  lemma WorkerKeepsBooks(s: System, engine: string, action: P.Step, e: string, status: Status)
    requires BooksAt(s, e, status) && Enabled(s, Worker(engine, action))
    ensures BooksAt(Apply(s, Worker(engine, action)), e, status)
  {
  }

  lemma StepKeepsBooksAt(s: System, step: Step, e: string, status: Status)
    requires BooksAt(s, e, status) && Enabled(s, step)
    requires forall h | 0 <= h < |s.handlers| :: LocalsOk(s.pools.Keys, s.handlers[h])
    ensures BooksAt(Apply(s, step), e, status)
  {
    match step
    case Arrive(query, budgetOk) => ArriveKeepsBooks(s, query, budgetOk, e, status);
    case Advance(h) => AdvanceKeepsBooks(s, h, e, status);
    case Submit(h, partner) => SubmitKeepsBooks(s, h, partner, e, status);
    case Take(h) => TakeKeepsBooks(s, h, e, status);
    case Publish(h) =>
      if s.handlers[h].reply.value.Failure? {
        FailureKeepsBooks(s, h, e, status);
      } else {
        SuccessKeepsBooks(s, h, e, status);
      }
    case TimeOut(h) => TimeOutKeepsBooks(s, h, e, status);
    case Worker(engine, action) => WorkerKeepsBooks(s, engine, action, e, status);
    case SetHealth(_, _) =>
    case _ => QuietStepKeepsBooks(s, step, e, status);
  }

  lemma AllLocals(s: System)
    requires Inv(s)
    ensures forall g | 0 <= g < |s.handlers| :: LocalsOk(s.pools.Keys, s.handlers[g])
  {
    forall g | 0 <= g < |s.handlers| ensures LocalsOk(s.pools.Keys, s.handlers[g]) {
      assert HandlerOk(s.pools, s.capacity, g, s.handlers[g]);
    }
  }

  lemma {:induction false} RunKeepsInv(names: set<string>, queueSize: int, concurrency: int, policy: Policy,
                                       steps: seq<Step>, s: System)
    requires RunsTo(names, queueSize, concurrency, policy, steps, s)
    ensures Inv(s) && Books(s) && s.pools.Keys == names && s.capacity == P.Clamp(queueSize, 0)
  {
    if steps == [] {
      InitInv(names, queueSize, concurrency, policy);
    } else {
      var before := Exec(Init(names, queueSize, concurrency, policy), steps[..|steps| - 1]).value;
      var step := steps[|steps| - 1];
      RunKeepsInv(names, queueSize, concurrency, policy, steps[..|steps| - 1], before);
      StepKeepsInv(before, step);
      StepKeepsConfiguration(before, step);
      AllLocals(before);
      forall e, status ensures BooksAt(s, e, status) {
        assert BooksAt(before, e, status);
        StepKeepsBooksAt(before, step, e, status);
      }
    }
  }

  lemma StepKeepsSize(s: System, step: Step, e: string)
    requires Enabled(s, step) && e in s.pools
    ensures var t := Apply(s, step);
            && e in t.pools && t.pools[e].capacity == s.pools[e].capacity
            && |t.pools[e].workers| == |s.pools[e].workers|
  {
    match step
    case Advance(_) =>
    case Select(_, _) =>
    case Submit(h, partner) => ActionKeepsSize(s.pools[s.handlers[h].engine], P.Submit(h, partner));
    case Take(h) => ActionKeepsSize(s.pools[s.handlers[h].engine], P.TakeResult(h));
    case Publish(_) =>
    case Worker(engine, action) => ActionKeepsSize(s.pools[engine], action);
    case _ =>
  }

  lemma ActionKeepsSize(pool: P.State, action: P.Step)
    requires P.Enabled(pool, action)
    ensures var pool' := P.Apply(pool, action);
            pool'.capacity == pool.capacity && |pool'.workers| == |pool.workers|
  {
  }

  /** In every run each configured engine has one queue of the configured size, at least 0,
      and the configured number of workers, at least 1, and nobody else has any. */
  lemma {:induction false} RunKeepsSizes(names: set<string>, queueSize: int, concurrency: int, policy: Policy,
                                         steps: seq<Step>, s: System, e: string)
    requires RunsTo(names, queueSize, concurrency, policy, steps, s)
    ensures e in s.pools <==> e in names
    ensures e in names ==>
              && s.pools[e].capacity == (if queueSize < 0 then 0 else queueSize)
              && |s.pools[e].workers| == if concurrency < 1 then 1 else concurrency
  {
    if steps != [] {
      var front, step := steps[..|steps| - 1], steps[|steps| - 1];
      var before := Exec(Init(names, queueSize, concurrency, policy), front).value;
      RunKeepsSizes(names, queueSize, concurrency, policy, front, before, e);
      StepKeepsConfiguration(before, step);
      assert e in s.pools <==> e in before.pools;
      if e in names {
        StepKeepsSize(before, step, e);
      }
    }
  }

  lemma RunKeepsBooks(names: set<string>, queueSize: int, concurrency: int, policy: Policy, steps: seq<Step>, s: System)
    requires RunsTo(names, queueSize, concurrency, policy, steps, s)
    ensures Books(s) && s.pools.Keys == names
  {
    RunKeepsInv(names, queueSize, concurrency, policy, steps, s);
  }

  // ------------------------------------------------------------- accounting

  ghost predicate AllDone(s: System) {
    forall h | 0 <= h < |s.handlers| :: s.handlers[h].pc.Done?
  }

  /** With no handler in flight, an engine's accepted requests are its success, error and
      timeout counts, exactly when its name is not empty or nothing was accepted: the
      deferred count of HandlePredict skips the empty engine name. */
  lemma AccountingBalances(names: set<string>, queueSize: int, concurrency: int, policy: Policy,
                           steps: seq<Step>, s: System, e: string)
    requires RunsTo(names, queueSize, concurrency, policy, steps, s) && AllDone(s) && e in names
    ensures e in s.pools
    ensures |s.pools[e].accepted|
            == Tally(s.requests, (e, Success)) + Tally(s.requests, (e, Error)) + Tally(s.requests, (e, Timeout))
            <==> e != "" || s.pools[e].accepted == []
  {
    RunKeepsBooks(names, queueSize, concurrency, policy, steps, s);
    assert BooksAt(s, e, Success) && BooksAt(s, e, Error) && BooksAt(s, e, Timeout);
    if e == "" {
      NoneCountedAs(s, e, Success);
      NoneCountedAs(s, e, Error);
      NoneCountedAs(s, e, Timeout);
    } else {
      CountSplit3(AcceptedBy(e), CountedAs(e, Success), CountedAs(e, Error), CountedAs(e, Timeout), s.handlers);
    }
  }

  /** Nothing is counted under the empty engine name. */
  lemma NoneCountedAs(s: System, e: string, status: Status)
    requires e == ""
    ensures Count(CountedAs(e, status), s.handlers) == 0
  {
    CountZero(CountedAs(e, status), s.handlers);
  }

  /** With no handler in flight, AdmissionRejections, the rejected count and the pool's own
      rejections agree, and so do the "total" duration observations and the successes. */
  lemma RejectionsAndDurationsBalance(names: set<string>, queueSize: int, concurrency: int, policy: Policy,
                                      steps: seq<Step>, s: System, e: string)
    requires RunsTo(names, queueSize, concurrency, policy, steps, s) && AllDone(s) && e in names
    ensures e in s.pools && Tally(s.rejections, e) == |s.pools[e].rejected|
    ensures e != "" ==> Tally(s.requests, (e, Rejected)) == |s.pools[e].rejected|
    ensures e != "" ==> Tally(s.totals, e) == Tally(s.requests, (e, Success))
  {
    RunKeepsBooks(names, queueSize, concurrency, policy, steps, s);
    assert BooksAt(s, e, Success) && BooksAt(s, e, Rejected);
    CountEqual(RejectedBy(e), Ended(e, Rejected), s.handlers);
    if e != "" {
      CountEqual(CountedAs(e, Rejected), Ended(e, Rejected), s.handlers);
      CountEqual(CountedAs(e, Success), Ended(e, Success), s.handlers);
    }
  }

  /** At any time, no request has been counted as "unknown" or as "routing_failed". */
  lemma NeverCountedUnknown(names: set<string>, queueSize: int, concurrency: int, policy: Policy,
                            steps: seq<Step>, s: System, e: string)
    requires RunsTo(names, queueSize, concurrency, policy, steps, s)
    ensures Tally(s.requests, (e, Unknown)) == 0 && Tally(s.requests, (e, RoutingFailed)) == 0
  {
    RunKeepsInv(names, queueSize, concurrency, policy, steps, s);
    assert BooksAt(s, e, Unknown) && BooksAt(s, e, RoutingFailed);
    forall h | 0 <= h < |s.handlers|
      ensures !CountedAs(e, Unknown)(s.handlers[h]) && !CountedAs(e, RoutingFailed)(s.handlers[h])
    {
      assert HandlerOk(s.pools, s.capacity, h, s.handlers[h]);
    }
    CountZero(CountedAs(e, Unknown), s.handlers);
    CountZero(CountedAs(e, RoutingFailed), s.handlers);
  }

  /** Which finished requests RequestsTotal counts: those with a good latency budget that
      name an engine, or for which some engine was read as healthy and the one picked has a
      name that is not empty. */
  lemma CountedIff(names: set<string>, queueSize: int, concurrency: int, policy: Policy,
                   steps: seq<Step>, s: System, h: nat)
    requires RunsTo(names, queueSize, concurrency, policy, steps, s)
    requires h < |s.handlers| && s.handlers[h].pc.Done?
    ensures var x := s.handlers[h];
            && (CountedAs(x.engine, x.status)(x)
                <==> x.budgetOk && (x.query != "" || (SomeHealthy(x.readings) && x.engine != "")))
            && ("" !in names ==>
                  (CountedAs(x.engine, x.status)(x) <==> x.budgetOk && (x.query != "" || SomeHealthy(x.readings))))
  {
    RunKeepsInv(names, queueSize, concurrency, policy, steps, s);
    assert HandlerOk(s.pools, s.capacity, h, s.handlers[h]);
    FinishedIsCountedIff(s.pools.Keys, s.capacity, s.handlers[h]);
  }

  lemma FinishedIsCountedIff(names: set<string>, capacity: nat, x: Handler)
    requires LocalsOk(names, x) && ChoiceOk(names, capacity, x) && x.pc.Done?
    ensures CountedAs(x.engine, x.status)(x)
            <==> x.budgetOk && (x.query != "" || (SomeHealthy(x.readings) && x.engine != ""))
    ensures x.budgetOk && x.query == "" && SomeHealthy(x.readings) ==> x.engine in names
  {
    if Routed(x) {
      var c :| c in x.candidates && c.name == x.engine;
      assert c in x.readings && c.healthy;
    }
  }

  // ---------------------------------------------------------------- outcomes

  /** The pool lookup never misses, on either routing path. */
  lemma LookupNeverMisses(names: set<string>, queueSize: int, concurrency: int, policy: Policy,
                          steps: seq<Step>, s: System, h: nat)
    requires RunsTo(names, queueSize, concurrency, policy, steps, s)
    requires h < |s.handlers| && s.handlers[h].pc.Lookup?
    ensures s.handlers[h].engine in s.pools && Moved(s, s.handlers[h]).pc.ReadBody?
  {
    RunKeepsInv(names, queueSize, concurrency, policy, steps, s);
    assert HandlerOk(s.pools, s.capacity, h, s.handlers[h]);
  }

  /** So a request that names an unconfigured engine is answered "engine_unhealthy", not
      "bad_request". */
  lemma UnknownEngineIsUnhealthy(names: set<string>, queueSize: int, concurrency: int, policy: Policy,
                                 steps: seq<Step>, s: System, h: nat)
    requires RunsTo(names, queueSize, concurrency, policy, steps, s)
    requires h < |s.handlers| && s.handlers[h].pc.Done? && s.handlers[h].budgetOk
    requires s.handlers[h].query != "" && s.handlers[h].query !in names
    ensures s.handlers[h].status == EngineUnhealthy
  {
    RunKeepsInv(names, queueSize, concurrency, policy, steps, s);
    assert HandlerOk(s.pools, s.capacity, h, s.handlers[h]);
  }

  // --------------------------------------------------------- the router's answer

  /** What SelectEngine of a policy may answer. */
  ghost predicate PolicyAnswer(policy: Policy, sys: SystemView, engines: seq<EngineState>, ticket: nat,
      r: Result<string>) {
    match policy
    case LeastQueue => LeastQueueAnswer(engines, ticket, r)
    case ThermalAware(tiers, threshold, count) =>
      ThermalAnswer(sys.valid && sys.maxTempC >= threshold, CheapNames(tiers, count), engines, ticket, r)
  }

  lemma AnswerIsTicketEntry(policy: Policy, sys: SystemView, engines: seq<EngineState>, ticket: nat, r: Result<string>)
    requires PolicyAnswer(policy, sys, engines, ticket, r)
    ensures var candidates := Candidates(policy, sys, engines);
            if candidates == [] then r.Err?
            else
              var names := TiedNames(candidates);
              names != [] && r == Ok(names[ticket % |names|])
  {
    var candidates := Candidates(policy, sys, engines);
    if candidates != [] {
      PickIsTicketEntry(candidates, ticket, r.value);
    }
  }

  /** The step that routes a request answers as the policy's SelectEngine does on the
      readings: it fails exactly when the policy errs, and otherwise names the engine that
      the policy's tie breaker picks at the present counter. */
  lemma SelectAnswersAsPolicy(s: System, h: nat, sys: SystemView, r: Result<string>)
    requires Enabled(s, Select(h, sys)) && PolicyAnswer(s.policy, sys, s.handlers[h].readings, s.counter, r)
    ensures var x := Selected(s, h, sys).handlers[h];
            if r.Err? then x.status == RoutingFailed else x.pc.Lookup? && x.engine == r.value
  {
    AnswerIsTicketEntry(s.policy, sys, s.handlers[h].readings, s.counter, r);
    assert Selected(s, h, sys).handlers[h]
        == Chosen(s.handlers[h], Candidates(s.policy, sys, s.handlers[h].readings), s.counter);
  }

  // ------------------------------------------------------- a handler's own steps

  /** A step of handler h itself. */
  predicate IsOwn(step: Step, h: nat) {
    !step.Arrive? && !step.Worker? && !step.SetHealth? && step.h == h
  }

  function OwnOf(h: nat): Step -> bool {
    (step: Step) => IsOwn(step, h)
  }

  /** Nobody else touches a handler. */
  lemma OthersLeaveIt(s: System, step: Step, h: nat)
    requires Enabled(s, step) && h < |s.handlers| && !IsOwn(step, h)
    ensures h < |Apply(s, step).handlers| && Apply(s, step).handlers[h] == s.handlers[h]
  {
    match step
    case Advance(g) =>
    case Select(g, _) =>
    case Submit(g, _) =>
    case Publish(g) =>
    case _ =>
  }

  /** What a step of its own makes of a handler. */
  function Next(s: System, step: Step, h: nat): Handler
    requires Enabled(s, step) && IsOwn(step, h) && h < |s.handlers|
  {
    var x := s.handlers[h];
    match step
    case Advance(_) => Moved(s, x)
    case ReadDepth(_, name) => x.(half := Some((name, |s.pools[name].queue|)))
    case ReadHealth(_) => Noted(x, IsHealthy(s, x.half.value.0))
    case Select(_, sys) => Chosen(x, Candidates(s.policy, sys, x.readings), s.counter)
    case Body(_, readable) => if readable then x.(pc := SubmitJob) else Leave(x, BadRequest)
    case Submit(_, _) => Tried(x, P.Admits(s.pools[x.engine]))
    case Take(_) => Got(x, s.pools[x.engine].channels[h][0])
    case TimeOut(_) => Leave(x, Timeout)
    case Publish(_) => Answered(x)
  }

  lemma OwnStepGives(s: System, step: Step, h: nat)
    requires Enabled(s, step) && IsOwn(step, h) && h < |s.handlers|
    ensures h < |Apply(s, step).handlers| && Apply(s, step).handlers[h] == Next(s, step, h)
  {
    match step
    case Advance(_) =>
    case Select(_, _) =>
    case Submit(_, _) =>
    case Publish(_) =>
    case _ =>
  }

  // --------------------------------------------------- routing follows the health checks

  /** A health check of this engine has failed during the run. */
  ghost predicate FailureReported(steps: seq<Step>, name: string) {
    SetHealth(name, false) in steps
  }

  lemma {:induction false} UnhealthyStatusWasReported(names: set<string>, queueSize: int, concurrency: int,
                                                      policy: Policy, steps: seq<Step>, s: System, name: string)
    requires RunsTo(names, queueSize, concurrency, policy, steps, s) && name in names
    ensures name in s.health && (!s.health[name] ==> FailureReported(steps, name))
  {
    if steps != [] {
      var before := Exec(Init(names, queueSize, concurrency, policy), steps[..|steps| - 1]).value;
      UnhealthyStatusWasReported(names, queueSize, concurrency, policy, steps[..|steps| - 1], before, name);
      StepKeepsStatus(before, steps[|steps| - 1], name);
    }
  }

  /** Only a health poller changes a status. */
  lemma StepKeepsStatus(s: System, step: Step, name: string)
    requires Enabled(s, step) && name in s.health
    ensures name in Apply(s, step).health
    ensures Apply(s, step).health[name] == s.health[name] || step == SetHealth(name, !s.health[name])
  {
  }

  /** A configured engine is never refused as unhealthy unless one of its checks failed. */
  lemma {:induction false} RefusalWasReported(names: set<string>, queueSize: int, concurrency: int, policy: Policy,
                                              steps: seq<Step>, s: System, h: nat)
    requires RunsTo(names, queueSize, concurrency, policy, steps, s)
    requires h < |s.handlers| && s.handlers[h].status.EngineUnhealthy? && s.handlers[h].engine in names
    ensures FailureReported(steps, s.handlers[h].engine)
  {
    if steps != [] {
      var before := Exec(Init(names, queueSize, concurrency, policy), steps[..|steps| - 1]).value;
      var step := steps[|steps| - 1];
      if h < |before.handlers| {
        RunKeepsInv(names, queueSize, concurrency, policy, steps[..|steps| - 1], before);
        HandlerFacts(before, h);
        RefusalStep(before, step, h);
      }
      if h < |before.handlers| && before.handlers[h].status.EngineUnhealthy? {
        RefusalWasReported(names, queueSize, concurrency, policy, steps[..|steps| - 1], before, h);
      } else {
        UnhealthyStatusWasReported(names, queueSize, concurrency, policy, steps[..|steps| - 1], before,
                                   s.handlers[h].engine);
      }
    }
  }

  /** A handler is refused as unhealthy only by its own routing step. */
  lemma RefusalStep(s: System, step: Step, h: nat)
    requires Enabled(s, step) && h < |s.handlers| && LocalsOk(s.pools.Keys, s.handlers[h])
    requires Apply(s, step).handlers[h].status.EngineUnhealthy?
    ensures if s.handlers[h].status.EngineUnhealthy? then Apply(s, step).handlers[h].engine == s.handlers[h].engine
            else step == Advance(h) && !IsHealthy(s, Apply(s, step).handlers[h].engine)
  {
    if !IsOwn(step, h) {
      OthersLeaveIt(s, step, h);
    } else {
      var x := s.handlers[h];
      match step
      case Advance(_) => assert Apply(s, step).handlers[h] == Moved(s, x);
      case Select(_, _) =>
      case Submit(_, _) =>
      case Publish(_) =>
      case _ =>
    }
  }

  /** An explicitly routed request that has not passed its health check, to an engine that
      is unhealthy now. */
  ghost predicate TurnedAway(s: System, h: nat)
    requires h < |s.handlers|
  {
    var x := s.handlers[h];
    && x.query != "" && !IsHealthy(s, x.query)
    && (|| (x.pc.ParseBudget? && x.status.Unknown?)
        || (x.pc.Route? && x.status.Unknown? && x.budgetOk && x.engine == x.query)
        || ((x.pc.Deferred? || x.pc.Done?) && x.status == if x.budgetOk then EngineUnhealthy else BadRequest))
  }

  lemma StaysUnhealthy(s: System, step: Step, name: string)
    requires Enabled(s, step) && !IsHealthy(s, name) && step != SetHealth(name, true)
    ensures !IsHealthy(Apply(s, step), name)
  {
  }

  lemma StepKeepsTurnedAway(s: System, step: Step, h: nat)
    requires Enabled(s, step) && h < |s.handlers| && TurnedAway(s, h) && step != SetHealth(s.handlers[h].query, true)
    ensures var t := Apply(s, step);
            h < |t.handlers| && TurnedAway(t, h) && t.handlers[h].query == s.handlers[h].query
  {
    StaysUnhealthy(s, step, s.handlers[h].query);
    if !IsOwn(step, h) {
      OthersLeaveIt(s, step, h);
    }
  }

  /** As long as an engine is reported unhealthy, a request that names it and has yet to be
      routed reaches no pool; if it finishes, it is refused as unhealthy, or for its bad
      budget. */
  lemma {:induction false} UnhealthyGetsNothing(s: System, steps: seq<Step>, t: System, h: nat)
    requires h < |s.handlers|
    requires s.handlers[h] == NewHandler.(query := s.handlers[h].query, budgetOk := s.handlers[h].budgetOk)
    requires s.handlers[h].query != "" && !IsHealthy(s, s.handlers[h].query)
    requires Exec(s, steps) == Some(t) && SetHealth(s.handlers[h].query, true) !in steps
    ensures h < |t.handlers| && t.handlers[h].query == s.handlers[h].query && TurnedAway(t, h)
    ensures !WasAccepted(t.handlers[h]) && !WasRejected(t.handlers[h])
  {
    if steps != [] {
      var before := Exec(s, steps[..|steps| - 1]).value;
      UnhealthyGetsNothing(s, steps[..|steps| - 1], before, h);
      StepKeepsTurnedAway(before, steps[|steps| - 1], h);
    }
  }

  /** What a finished request was told is true: a success carries the response, and an
      error the failure, that Predict returned for this very request at the engine it was
      routed to; a rejected request never reached Predict anywhere. */
  ghost predicate Truthful(pools: map<string, P.State>, h: nat, x: Handler) {
    && (x.status.Success? || x.status.Error? ==>
          && x.engine in pools && h in pools[x.engine].returned && h in pools[x.engine].started
          && x.reply == Some(pools[x.engine].returned[h])
          && (x.status.Success? <==> x.reply.value.Response?))
    && (x.status.Rejected? ==> forall e | e in pools :: h !in pools[e].started)
    && (x.status.Timeout? ==> x.engine in pools && h in pools[x.engine].accepted)
  }

  lemma OutcomesAreTrue(names: set<string>, queueSize: int, concurrency: int, policy: Policy,
                        steps: seq<Step>, s: System, h: nat)
    requires RunsTo(names, queueSize, concurrency, policy, steps, s) && h < |s.handlers|
    ensures Truthful(s.pools, h, s.handlers[h])
  {
    RunKeepsInv(names, queueSize, concurrency, policy, steps, s);
    assert HandlerOk(s.pools, s.capacity, h, s.handlers[h]);
    forall e | e in s.pools ensures P.Conserved(s.pools[e]) && P.ChannelsSound(s.pools[e]) {
      assert PoolOk(s.pools[e], s.capacity, |s.handlers|);
    }
    OutcomeIsTrue(s.pools, h, s.handlers[h]);
  }

  lemma OutcomeIsTrue(pools: map<string, P.State>, h: nat, x: Handler)
    requires OutcomeOk(pools, h, x) && LocalsOk(pools.Keys, x)
    requires forall e | e in pools :: P.Conserved(pools[e]) && P.ChannelsSound(pools[e])
    ensures Truthful(pools, h, x)
  {
    if x.status.Success? || x.status.Error? {
      ReceivedIsReturned(pools[x.engine], h);
    } else if x.status.Rejected? {
      forall e | e in pools ensures h !in pools[e].started {
        UnacceptedNeverStarted(pools[e], h);
      }
    }
  }

  lemma ReceivedIsReturned(pool: P.State, id: nat)
    requires P.ChannelsSound(pool) && id in pool.received
    ensures id in pool.returned && id in pool.started && pool.received[id] == pool.returned[id]
  {
    assert P.ChannelOk(pool, id);
  }

  lemma UnacceptedNeverStarted(pool: P.State, id: nat)
    requires P.Conserved(pool) && id !in pool.accepted
    ensures id !in pool.started
  {
    P.WhereIs(pool, id);
    assert P.Placed(pool, id);
  }

  /** A fresh request can always be offered to an open pool. */
  lemma SubmitCanRun(pool: P.State, id: nat) returns (partner: nat)
    requires P.ChannelsSound(pool) && !pool.closed && id !in pool.accepted && id !in pool.rejected
    ensures P.Enabled(pool, P.Submit(id, partner))
  {
    partner := 0;
    if w: nat :| w < |pool.workers| && pool.workers[w].Parked? {
      partner := w;
    }
  }

  /** A handler that has not finished can always take a step of its own: nothing in
      HandlePredict waits without a way out. */
  lemma HandlerNeverStuck(s: System, h: nat) returns (step: Step)
    requires Inv(s) && h < |s.handlers| && !s.handlers[h].pc.Done?
    ensures Enabled(s, step) && !step.Arrive? && !step.Worker? && !step.SetHealth? && step.h == h
  {
    HandlerFacts(s, h);
    if s.handlers[h].pc.SubmitJob? {
      step := SubmitStep(s, h);
    } else {
      step := OtherStep(s, h);
    }
  }

  lemma HandlerFacts(s: System, h: nat)
    requires Inv(s) && h < |s.handlers|
    ensures var x := s.handlers[h];
            && OutcomeOk(s.pools, h, x) && LocalsOk(s.pools.Keys, x)
            && (x.engine in s.pools ==> P.ChannelsSound(s.pools[x.engine]) && !s.pools[x.engine].closed)
  {
    assert HandlerOk(s.pools, s.capacity, h, s.handlers[h]);
    if s.handlers[h].engine in s.pools {
      assert PoolOk(s.pools[s.handlers[h].engine], s.capacity, |s.handlers|);
    }
  }

  lemma SubmitStep(s: System, h: nat) returns (step: Step)
    requires h < |s.handlers| && s.handlers[h].pc.SubmitJob?
    requires OutcomeOk(s.pools, h, s.handlers[h]) && LocalsOk(s.pools.Keys, s.handlers[h])
    requires s.handlers[h].engine in s.pools ==>
               P.ChannelsSound(s.pools[s.handlers[h].engine]) && !s.pools[s.handlers[h].engine].closed
    ensures Enabled(s, step) && step.Submit? && step.h == h
  {
    var partner := SubmitCanRun(s.pools[s.handlers[h].engine], h);
    step := Submit(h, partner);
  }

  lemma OtherStep(s: System, h: nat) returns (step: Step)
    requires h < |s.handlers| && !s.handlers[h].pc.Done? && !s.handlers[h].pc.SubmitJob?
    requires OutcomeOk(s.pools, h, s.handlers[h]) && LocalsOk(s.pools.Keys, s.handlers[h])
    ensures Enabled(s, step) && !step.Arrive? && !step.Worker? && !step.SetHealth? && step.h == h
  {
    var x := s.handlers[h];
    match x.pc
    case ReadStates =>
      if x.half.Some? {
        step := ReadHealth(h);
      } else if name :| name in s.pools && !HasRead(x.readings, name) {
        step := ReadDepth(h, name);
      } else {
        step := Select(h, SystemView(false, 0.0));
      }
    case ReadBody => step := Body(h, true);
    case AwaitResult => step := TimeOut(h);
    case GotResult => step := Publish(h);
    case _ => step := Advance(h);
  }

  /** Engines whose state handler x has not read completely. */
  function Unread(names: set<string>, x: Handler): set<string> {
    set name | name in names && !HasRead(x.readings, name)
  }

  /** How many steps of its own a handler can still take, at most. */
  function Rank(names: set<string>, x: Handler): nat {
    match x.pc
    case ParseBudget => 9 + 2 * |names|
    case Route => 8 + 2 * |names|
    case ReadStates => 7 + 2 * |Unread(names, x)| - One(x.half.Some? && x.half.value.0 in Unread(names, x))
    case Lookup => 6
    case ReadBody => 5
    case SubmitJob => 4
    case AwaitResult => 3
    case GotResult => 2
    case CountRejection => 2
    case Deferred => 1
    case Done => 0
  }

  lemma SubsetSize(a: set<string>, b: set<string>)
    requires a <= b
    ensures |a| <= |b|
  {
    if a != b {
      assert b == a + (b - a);
    }
  }

  /** Completing a reading leaves one engine less to read. */
  lemma NotedShrinks(names: set<string>, x: Handler, healthy: bool)
    requires x.half.Some? && x.half.value.0 in Unread(names, x)
    ensures |Unread(names, Noted(x, healthy))| < |Unread(names, x)|
  {
    var name, y := x.half.value.0, Noted(x, healthy);
    assert y.readings[|x.readings|].name == name;
    assert forall i | 0 <= i < |x.readings| :: y.readings[i] == x.readings[i];
    SubsetSize(Unread(names, y), Unread(names, x) - {name});
  }

  /** Each step that a handler takes brings it nearer to its end. */
  lemma OwnStepLowersRank(s: System, step: Step, h: nat)
    requires Enabled(s, step) && h < |s.handlers| && IsOwn(step, h)
    requires ChoiceOk(s.pools.Keys, s.capacity, s.handlers[h])
    ensures Rank(s.pools.Keys, Apply(s, step).handlers[h]) < Rank(s.pools.Keys, s.handlers[h])
  {
    OwnStepGives(s, step, h);
    NextLowersRank(s, step, h);
  }

  lemma NextLowersRank(s: System, step: Step, h: nat)
    requires Enabled(s, step) && h < |s.handlers| && IsOwn(step, h)
    requires ChoiceOk(s.pools.Keys, s.capacity, s.handlers[h])
    ensures Rank(s.pools.Keys, Next(s, step, h)) < Rank(s.pools.Keys, s.handlers[h])
  {
    var names, x := s.pools.Keys, s.handlers[h];
    match step
    case Advance(_) => AdvanceLowersRank(s, names, x);
    case ReadDepth(_, name) => DepthLowersRank(names, x, name, |s.pools[name].queue|);
    case ReadHealth(_) => NotedShrinks(names, x, IsHealthy(s, x.half.value.0));
    case Select(_, sys) => ChoiceLowersRank(names, x, Candidates(s.policy, sys, x.readings), s.counter);
    case _ =>
  }

  lemma DepthLowersRank(names: set<string>, x: Handler, name: string, depth: nat)
    requires x.pc.ReadStates? && x.half.None? && name in names && !HasRead(x.readings, name)
    ensures Rank(names, x.(half := Some((name, depth)))) < Rank(names, x)
  {
    assert name in Unread(names, x);
    assert Unread(names, x.(half := Some((name, depth)))) == Unread(names, x);
  }

  lemma ChoiceLowersRank(names: set<string>, x: Handler, candidates: seq<EngineState>, ticket: nat)
    requires x.pc.ReadStates? && x.half.None?
    ensures Rank(names, Chosen(x, candidates, ticket)) < Rank(names, x)
  {
  }

  lemma AdvanceLowersRank(s: System, names: set<string>, x: Handler)
    requires OnItsOwn(x.pc)
    ensures Rank(names, Moved(s, x)) < Rank(names, x)
  {
    SubsetSize(Unread(names, x), names);
  }

  /** In any run a handler takes at most Rank of its steps: what it has taken and what is
      left never add up to more than it started with. */
  lemma {:induction false} OwnStepsAreBounded(s: System, steps: seq<Step>, t: System, h: nat)
    requires Inv(s) && h < |s.handlers| && Exec(s, steps) == Some(t)
    ensures Inv(t) && h < |t.handlers| && t.pools.Keys == s.pools.Keys
    ensures Count(OwnOf(h), steps) + Rank(t.pools.Keys, t.handlers[h]) <= Rank(s.pools.Keys, s.handlers[h])
  {
    if steps != [] {
      var front, step := steps[..|steps| - 1], steps[|steps| - 1];
      var before := Exec(s, front).value;
      OwnStepsAreBounded(s, front, before, h);
      StepKeepsInv(before, step);
      StepKeepsConfiguration(before, step);
      HandlerChoice(before, h);
      StepLowersRank(before, step, h);
    }
  }

  lemma StepLowersRank(s: System, step: Step, h: nat)
    requires Enabled(s, step) && h < |s.handlers| && ChoiceOk(s.pools.Keys, s.capacity, s.handlers[h])
    ensures h < |Apply(s, step).handlers|
    ensures One(IsOwn(step, h)) + Rank(s.pools.Keys, Apply(s, step).handlers[h]) <= Rank(s.pools.Keys, s.handlers[h])
  {
    if IsOwn(step, h) {
      OwnStepLowersRank(s, step, h);
    } else {
      OthersLeaveIt(s, step, h);
    }
  }

  lemma HandlerChoice(s: System, h: nat)
    requires Inv(s) && h < |s.handlers|
    ensures ChoiceOk(s.pools.Keys, s.capacity, s.handlers[h])
  {
    assert HandlerOk(s.pools, s.capacity, h, s.handlers[h]);
  }

  lemma RankZeroIff(names: set<string>, x: Handler)
    ensures Rank(names, x) == 0 <==> x.pc.Done?
  {
  }

  /** What OwnStepsAreBounded says of a handler that starts at the beginning. */
  lemma RankFromStart(names: set<string>, x: Handler, y: Handler, taken: nat)
    requires x.pc.ParseBudget? && taken + Rank(names, y) <= Rank(names, x)
    ensures taken <= 9 + 2 * |names| && (taken == 9 + 2 * |names| ==> y.pc.Done?)
  {
    RankZeroIff(names, y);
  }

  /** So a handler that arrives takes at most 9 + 2n steps of its own with n engines, and
      has finished when it has taken that many. */
  lemma EveryHandlerFinishes(s: System, steps: seq<Step>, t: System, h: nat)
    requires Inv(s) && h < |s.handlers| && s.handlers[h].pc.ParseBudget? && Exec(s, steps) == Some(t)
    ensures Count(OwnOf(h), steps) <= 9 + 2 * |s.pools.Keys|
    ensures h < |t.handlers| && (Count(OwnOf(h), steps) == 9 + 2 * |s.pools.Keys| ==> t.handlers[h].pc.Done?)
  {
    OwnStepsAreBounded(s, steps, t, h);
    RankFromStart(s.pools.Keys, s.handlers[h], t.handlers[h], Count(OwnOf(h), steps));
  }

  // -------------------------------------------- what a rejection says of the load

  /** The depth of this engine was read when its queue was at most `slack` shorter. */
  ghost predicate DepthHolds(s: System, name: string, depth: int, slack: nat) {
    name in s.pools && |s.pools[name].queue| <= depth + slack
  }

  /** Every queue handler h has read is now at most `slack` longer than it read. */
  ghost predicate ReadingsHold(s: System, h: nat, slack: nat)
    requires h < |s.handlers|
  {
    && (forall r | r in s.handlers[h].readings :: DepthHolds(s, r.name, r.depth, slack))
    && (s.handlers[h].half.Some? ==> DepthHolds(s, s.handlers[h].half.value.0, s.handlers[h].half.value.1, slack))
  }

  lemma QueueGrowth(pool: P.State, action: P.Step)
    requires P.Enabled(pool, action)
    ensures |P.Apply(pool, action).queue| <= |pool.queue| + One(action.Submit?)
  {
  }

  lemma StepGrowsQueues(s: System, step: Step, e: string)
    requires Enabled(s, step) && e in s.pools
    ensures e in Apply(s, step).pools && |Apply(s, step).pools[e].queue| <= |s.pools[e].queue| + One(step.Submit?)
  {
    match step
    case Submit(h, partner) => QueueGrowth(s.pools[s.handlers[h].engine], P.Submit(h, partner));
    case Take(h) => QueueGrowth(s.pools[s.handlers[h].engine], P.TakeResult(h));
    case Worker(engine, action) => QueueGrowth(s.pools[engine], action);
    case _ =>
  }

  /** A step leaves a handler's readings alone, or reads one depth, or completes the reading
      of the depth read last. */
  lemma StepKeepsReads(s: System, step: Step, h: nat)
    requires Enabled(s, step) && h < |s.handlers|
    ensures h < |Apply(s, step).handlers|
    ensures var x, y := s.handlers[h], Apply(s, step).handlers[h];
            || (y.readings == x.readings && y.half == x.half)
            || (step.ReadDepth? && step.h == h && step.name in s.pools && y.readings == x.readings
                && y.half == Some((step.name, |s.pools[step.name].queue|)))
            || (step == ReadHealth(h) && x.half.Some? && y.half.None?
                && var (name, depth) := x.half.value;
                   y.readings == x.readings + [EngineState(name, depth, IsHealthy(s, name))])
  {
    if !IsOwn(step, h) {
      OthersLeaveIt(s, step, h);
    } else {
      OwnStepReads(s, step, h);
    }
  }

  lemma OwnStepReads(s: System, step: Step, h: nat)
    requires Enabled(s, step) && h < |s.handlers| && IsOwn(step, h)
    ensures var x, y := s.handlers[h], Apply(s, step).handlers[h];
            match step
            case ReadDepth(_, name) => y == x.(half := Some((name, |s.pools[name].queue|)))
            case ReadHealth(_) =>
              y == x.(half := None, readings := x.readings
                        + [EngineState(x.half.value.0, x.half.value.1, IsHealthy(s, x.half.value.0))])
            case _ => y.readings == x.readings && y.half == x.half
  {
    OwnStepGives(s, step, h);
  }

  lemma StepKeepsDepth(s: System, step: Step, name: string, depth: int, slack: nat)
    requires Enabled(s, step) && DepthHolds(s, name, depth, slack)
    ensures DepthHolds(Apply(s, step), name, depth, slack + One(step.Submit?))
  {
    StepGrowsQueues(s, step, name);
  }

  lemma StepKeepsReadings(s: System, step: Step, h: nat, slack: nat)
    requires Enabled(s, step) && h < |s.handlers| && ReadingsHold(s, h, slack)
    ensures h < |Apply(s, step).handlers| && ReadingsHold(Apply(s, step), h, slack + One(step.Submit?))
  {
    var x := s.handlers[h];
    StepKeepsReads(s, step, h);
    forall r | r in x.readings
      ensures DepthHolds(Apply(s, step), r.name, r.depth, slack + One(step.Submit?))
    {
      StepKeepsDepth(s, step, r.name, r.depth, slack);
    }
    if x.half.Some? {
      StepKeepsDepth(s, step, x.half.value.0, x.half.value.1, slack);
    }
    if step.ReadDepth? && step.h == h {
      StepKeepsDepth(s, step, step.name, |s.pools[step.name].queue|, slack);
    }
  }

  function IsSubmit(step: Step): bool {
    step.Submit?
  }

  lemma {:induction false} RunKeepsReadings(s: System, steps: seq<Step>, t: System, h: nat)
    requires Exec(s, steps) == Some(t) && h < |s.handlers| && s.handlers[h].readings == [] && s.handlers[h].half.None?
    ensures h < |t.handlers| && ReadingsHold(t, h, Count(IsSubmit, steps))
  {
    if steps != [] {
      var before := Exec(s, steps[..|steps| - 1]).value;
      RunKeepsReadings(s, steps[..|steps| - 1], before, h);
      StepKeepsReadings(before, steps[|steps| - 1], h, Count(IsSubmit, steps[..|steps| - 1]));
    }
  }

  lemma {:induction false} ExecKeepsInv(s: System, steps: seq<Step>, t: System)
    requires Inv(s) && Exec(s, steps) == Some(t)
    ensures Inv(t)
  {
    if steps != [] {
      var before := Exec(s, steps[..|steps| - 1]).value;
      ExecKeepsInv(s, steps[..|steps| - 1], before);
      StepKeepsInv(before, steps[|steps| - 1]);
    }
  }

  /** If an auto-routed request is rejected and only k other Submits landed between its
      first depth reading and its own Submit, then every engine the router could have
      chosen was read at k or less below the full queue.  With k = 0, whatever the workers
      did meanwhile, every candidate was read full. */
  lemma RejectionMeansSaturation(s: System, steps: seq<Step>, t: System, h: nat, partner: nat)
    requires Inv(s) && h < |s.handlers| && s.handlers[h].pc.ReadStates?
    requires s.handlers[h].readings == [] && s.handlers[h].half.None?
    requires Exec(s, steps) == Some(t) && Enabled(t, Submit(h, partner)) && t.handlers[h].query == ""
        && t.handlers[h].budgetOk
    requires Submitted(t, h, partner).handlers[h].pc.CountRejection?
    ensures t.handlers[h].candidates != []
    ensures forall c | c in t.handlers[h].candidates ::
              c.healthy && t.capacity - Count(IsSubmit, steps) <= c.depth <= t.capacity
  {
    ExecKeepsInv(s, steps, t);
    RunKeepsReadings(s, steps, t, h);
    var x := t.handlers[h];
    assert HandlerOk(t.pools, t.capacity, h, x);
    assert Routed(x);
    var chosen :| chosen in x.candidates && chosen.name == x.engine
        && forall f | f in x.candidates :: chosen.depth <= f.depth;
    assert chosen in x.readings;
    assert PoolOk(t.pools[x.engine], t.capacity, |t.handlers|);
    assert |t.pools[x.engine].queue| == t.capacity;
    assert DepthHolds(t, chosen.name, chosen.depth, Count(IsSubmit, steps));
    forall c | c in x.candidates ensures c.healthy && t.capacity - Count(IsSubmit, steps) <= c.depth <= t.capacity {
      assert c in x.readings;
    }
  }

  // ------------------------------------------------------- the cached last result

  /** The success that was cached at step i is the last one: every later reply was a
      failure. */
  ghost predicate CachedAt(steps: seq<Step>, s: System, h: nat, i: nat) {
    && i < |steps| && steps[i] == Publish(h) && HasStatus(s, h, Success)
    && forall j | i < j < |steps| && steps[j].Publish? :: HasStatus(s, steps[j].h, Error)
  }

  predicate HasStatus(s: System, h: nat, status: Status) {
    h < |s.handlers| && s.handlers[h].status == status
  }

  /** The cache behind /last-result is empty until some request succeeds, and then holds the
      result of the request that succeeded last. */
  ghost predicate CacheOk(steps: seq<Step>, s: System) {
    match s.lastResult
    case None => forall h :: !HasStatus(s, h, Success)
    case Some(h) => exists i :: CachedAt(steps, s, h, i)
  }

  lemma {:induction false} CacheHoldsLastSuccess(names: set<string>, queueSize: int, concurrency: int, policy: Policy,
                                                 steps: seq<Step>, s: System)
    requires RunsTo(names, queueSize, concurrency, policy, steps, s)
    ensures CacheOk(steps, s)
  {
    if steps == [] {
      assert s == Init(names, queueSize, concurrency, policy);
    } else {
      var front, step := steps[..|steps| - 1], steps[|steps| - 1];
      var before := Exec(Init(names, queueSize, concurrency, policy), front).value;
      CacheHoldsLastSuccess(names, queueSize, concurrency, policy, front, before);
      RunHasLocals(names, queueSize, concurrency, policy, front, before);
      StepKeepsCache(front, before, step);
      assert steps == front + [step];
    }
  }

  lemma RunHasLocals(names: set<string>, queueSize: int, concurrency: int, policy: Policy, steps: seq<Step>, s: System)
    requires RunsTo(names, queueSize, concurrency, policy, steps, s)
    ensures forall g | 0 <= g < |s.handlers| :: LocalsOk(s.pools.Keys, s.handlers[g])
  {
    RunKeepsInv(names, queueSize, concurrency, policy, steps, s);
    AllLocals(s);
  }

  /** A status, once set, stays; and only Publish makes a success. */
  lemma StepKeepsFinal(s: System, step: Step, h: nat)
    requires Enabled(s, step) && h < |s.handlers| && LocalsOk(s.pools.Keys, s.handlers[h])
    ensures h < |Apply(s, step).handlers|
    ensures !s.handlers[h].status.Unknown? ==> Apply(s, step).handlers[h].status == s.handlers[h].status
    ensures Apply(s, step).handlers[h].status.Success? ==> s.handlers[h].status.Success? || step == Publish(h)
  {
    if !IsOwn(step, h) {
      OthersLeaveIt(s, step, h);
    } else {
      match step
      case Advance(_) =>
      case Select(_, _) =>
      case Submit(_, _) =>
      case Publish(_) =>
      case _ =>
    }
  }

  /** What Publish does to its handler and the cache. */
  lemma PublishSets(s: System, h: nat)
    requires Enabled(s, Publish(h))
    ensures var t := Published(s, h);
            if s.handlers[h].reply.value.Failure? then HasStatus(t, h, Error) && t.lastResult == s.lastResult
            else HasStatus(t, h, Success) && t.lastResult == Some(h)
  {
  }

  lemma OthersKeepCache(s: System, step: Step)
    requires Enabled(s, step) && !step.Publish?
    ensures Apply(s, step).lastResult == s.lastResult && |s.handlers| <= |Apply(s, step).handlers|
    ensures forall h | |s.handlers| <= h < |Apply(s, step).handlers| :: Apply(s, step).handlers[h].status.Unknown?
  {
    match step
    case Advance(_) =>
    case Select(_, _) =>
    case Submit(_, _) =>
    case _ =>
  }

  /** What is known of finished handlers stays known. */
  lemma CachedStays(steps: seq<Step>, s: System, t: System, step: Step, h: nat, i: nat)
    requires CachedAt(steps, s, h, i)
    requires forall g, status | HasStatus(s, g, status) && status != Unknown :: HasStatus(t, g, status)
    requires step.Publish? ==> HasStatus(t, step.h, Error)
    ensures CachedAt(steps + [step], t, h, i)
  {
    var more := steps + [step];
    forall j | i < j < |more| && more[j].Publish? ensures HasStatus(t, more[j].h, Error) {
      if j < |steps| {
        assert more[j] == steps[j];
      }
    }
  }

  lemma StepKeepsCache(steps: seq<Step>, s: System, step: Step)
    requires CacheOk(steps, s) && Enabled(s, step)
    requires forall g | 0 <= g < |s.handlers| :: LocalsOk(s.pools.Keys, s.handlers[g])
    ensures CacheOk(steps + [step], Apply(s, step))
  {
    var t := Apply(s, step);
    forall g, status | HasStatus(s, g, status) && status != Unknown ensures HasStatus(t, g, status) {
      StepKeepsFinal(s, step, g);
    }
    if step.Publish? {
      PublishSets(s, step.h);
    } else {
      OthersKeepCache(s, step);
    }
    if step.Publish? && s.handlers[step.h].reply.value.Response? {
      assert CachedAt(steps + [step], t, step.h, |steps|);
    } else if s.lastResult.Some? {
      var i :| CachedAt(steps, s, s.lastResult.value, i);
      CachedStays(steps, s, t, step, s.lastResult.value, i);
    } else {
      forall h: nat ensures !HasStatus(t, h, Success) {
        if h < |s.handlers| {
          StepKeepsFinal(s, step, h);
          assert !HasStatus(s, h, Success);
        }
      }
    }
  }
}
