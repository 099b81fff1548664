/** The request path as one step system: handlers, router, pools and health statuses
    interleaved (scheduler/internal/api/handlers.go, HandlePredict).

    A handler's number is its request's identity in the pools.  One step is one action
    of one goroutine on shared state: a handler reading one queue depth, submitting,
    taking its result, timing out, counting; a pool worker's action; a health poller's
    write. */
module Server {
  import opened Common
  import opened Routing
  import P = WorkerPool

  /** The values of HandlePredict's local `status`. */
  datatype Status = Unknown | BadRequest | RoutingFailed | EngineUnhealthy | Rejected | Success | Error | Timeout

  /** Where a handler is in HandlePredict. */
  datatype Pc = ParseBudget | Route | ReadStates | Lookup | ReadBody | SubmitJob
              | CountRejection | AwaitResult | GotResult | Deferred | Done

  datatype Handler = Handler(
    pc: Pc,
    query: string,                       // the engine parameter, "" if absent
    budgetOk: bool,                      // parseLatencyBudget succeeds
    engine: string,                      // engineName
    status: Status,
    readings: seq<EngineState>,          // what engineStates has read so far
    half: Option<(string, nat)>,         // an engine whose depth is read and whose health is not
    candidates: seq<EngineState>,        // what the policy chose among
    reply: Option<P.Reply>)

  datatype Policy = LeastQueue | ThermalAware(tiers: seq<string>, tempThresholdC: real, cheapTierCount: int)

  datatype System = System(
    capacity: nat,                       // the one queue size of all pools
    policy: Policy,
    pools: map<string, P.State>,
    health: map<string, bool>,           // the health monitor's statuses
    handlers: seq<Handler>,
    counter: uint64,                     // the tie breaker's counter
    requests: map<(string, Status), nat>,   // RequestsTotal
    rejections: map<string, nat>,           // AdmissionRejections
    totals: map<string, nat>,               // RequestDuration, stage "total": observations
    lastResult: Option<nat>)             // the handler whose result is cached

  datatype Step =
    | Arrive(query: string, budgetOk: bool)
    | Advance(h: nat)                    // ParseBudget, Route, Lookup, CountRejection, Deferred
    | ReadDepth(h: nat, name: string)    // one iteration of engineStates: the queue depth,
    | ReadHealth(h: nat)                 // and then the health status
    | Select(h: nat, sys: SystemView)
    | Body(h: nat, readable: bool)       // the body was read and is not empty, or not
    | Submit(h: nat, partner: nat)
    | Take(h: nat)                       // the select of HandlePredict takes the result
    | TimeOut(h: nat)                    // or the context's end
    | Publish(h: nat)
    | Worker(engine: string, action: P.Step)
    | SetHealth(name: string, healthy: bool)

  const NewHandler: Handler :=
    Handler(ParseBudget, "", true, "", Unknown, [], None, [], None)

  /** main: one pool and one health status per configured engine. */
  function Init(names: set<string>, queueSize: int, concurrency: int, policy: Policy): System {
    System(P.Clamp(queueSize, 0), policy,
           map name | name in names :: P.Init(queueSize, concurrency),
           map name | name in names :: true,
           [], 0, map[], map[], map[], None)
  }

  /** A client of one engine, known by its address. */
  datatype Client = Client(name: string, address: string)

  /** main: one client and one pool per configured engine, and a monitor over the clients. */
  method Configure(engines: map<string, string>, queueSize: int, concurrency: int, policy: Policy)
    returns (clients: map<string, Client>, s: System)
    ensures clients == map name | name in engines :: Client(name, engines[name])
    ensures s == Init(engines.Keys, queueSize, concurrency, policy)
    ensures clients.Keys == s.pools.Keys == s.health.Keys
  {
    clients := map[];
    var pools: map<string, P.State> := map[];
    var rest := engines.Keys;
    while rest != {}
      invariant rest <= engines.Keys
      invariant clients == map name | name in engines.Keys - rest :: Client(name, engines[name])
      invariant pools == map name | name in engines.Keys - rest :: P.Init(queueSize, concurrency)
      decreases rest
    {
      var name :| name in rest;
      clients := clients[name := Client(name, engines[name])];
      pools := pools[name := P.Init(queueSize, concurrency)];
      rest := rest - {name};
    }
    var health := Statuses(clients.Keys);
    s := System(P.Clamp(queueSize, 0), policy, pools, health, [], 0, map[], map[], map[], None);
  }

  /** healthcheck.New: every client's engine is assumed healthy. */
  method Statuses(clients: set<string>) returns (health: map<string, bool>)
    ensures health == map name | name in clients :: true
  {
    health := map[];
    var rest := clients;
    while rest != {}
      invariant rest <= clients && health == map name | name in clients - rest :: true
      decreases rest
    {
      var name :| name in rest;
      health := health[name := true];
      rest := rest - {name};
    }
  }

  /** Healthy: false for an engine the monitor does not know. */
  predicate IsHealthy(s: System, name: string) {
    name in s.health && s.health[name]
  }

  function Increment<K>(m: map<K, nat>, k: K): map<K, nat> {
    m[k := Tally(m, k) + 1]
  }

  function Candidates(policy: Policy, sys: SystemView, engines: seq<EngineState>): seq<EngineState> {
    match policy
    case LeastQueue => Filter(Healthy, engines)
    case ThermalAware(tiers, threshold, count) =>
      ThermalCandidates(sys.valid && sys.maxTempC >= threshold, CheapNames(tiers, count), engines)
  }

  predicate HasRead(readings: seq<EngineState>, name: string) {
    exists i | 0 <= i < |readings| :: readings[i].name == name
  }

  /** The places from which a handler moves on by itself, without a choice. */
  predicate OnItsOwn(pc: Pc) {
    pc.ParseBudget? || pc.Route? || pc.Lookup? || pc.CountRejection? || pc.Deferred?
  }

  predicate Enabled(s: System, step: Step) {
    match step
    case Arrive(_, _) => true
    case Advance(h) => h < |s.handlers| && OnItsOwn(s.handlers[h].pc)
    case ReadDepth(h, name) =>
      && h < |s.handlers| && s.handlers[h].pc == ReadStates && s.handlers[h].half.None?
      && name in s.pools && !HasRead(s.handlers[h].readings, name)
    case ReadHealth(h) => h < |s.handlers| && s.handlers[h].pc == ReadStates && s.handlers[h].half.Some?
    case Select(h, _) =>
      && h < |s.handlers| && s.handlers[h].pc == ReadStates && s.handlers[h].half.None?
      && forall name | name in s.pools :: HasRead(s.handlers[h].readings, name)
    case Body(h, _) => h < |s.handlers| && s.handlers[h].pc == ReadBody
    case Submit(h, partner) =>
      h < |s.handlers| && s.handlers[h].pc == SubmitJob && s.handlers[h].engine in s.pools
      && P.Enabled(s.pools[s.handlers[h].engine], P.Submit(h, partner))
    case Take(h) =>
      h < |s.handlers| && s.handlers[h].pc == AwaitResult && s.handlers[h].engine in s.pools
      && P.Enabled(s.pools[s.handlers[h].engine], P.TakeResult(h))
    case TimeOut(h) => h < |s.handlers| && s.handlers[h].pc == AwaitResult
    case Publish(h) => h < |s.handlers| && s.handlers[h].pc == GotResult && s.handlers[h].reply.Some?
    case Worker(engine, action) => engine in s.pools && P.IsWorkerStep(action) && P.Enabled(s.pools[engine], action)
    case SetHealth(name, _) => name in s.health
  }

  function Put(s: System, h: nat, x: Handler): System
    requires h < |s.handlers|
  {
    s.(handlers := s.handlers[h := x])
  }

  /** Return from the handler with this status; the deferred count is still to come. */
  function Leave(x: Handler, status: Status): Handler {
    x.(pc := Deferred, status := status)
  }

  /** Where a handler is after a step it takes on its own. */
  function Moved(s: System, x: Handler): Handler
    requires OnItsOwn(x.pc)
  {
    match x.pc
    case ParseBudget =>
      if x.budgetOk then x.(pc := Route, engine := x.query) else Leave(x, BadRequest)
    case Route =>
      if x.engine == "" then x.(pc := ReadStates)
      else if !IsHealthy(s, x.engine) then Leave(x, EngineUnhealthy)
      else x.(pc := Lookup)
    case Lookup =>
      if x.engine in s.pools then x.(pc := ReadBody) else Leave(x, BadRequest)
    case CountRejection => Leave(x, Rejected)
    case Deferred => x.(pc := Done)
  }

  function Advanced(s: System, h: nat): System
    requires Enabled(s, Advance(h))
  {
    var x := s.handlers[h];
    Put(s, h, Moved(s, x)).(
      rejections := if x.pc.CountRejection? then Increment(s.rejections, x.engine) else s.rejections,
      requests := if x.pc.Deferred? && x.engine != "" then Increment(s.requests, (x.engine, x.status)) else s.requests)
  }

  /** Where a handler is after the router has answered. */
  function Chosen(x: Handler, candidates: seq<EngineState>, ticket: nat): Handler {
    if candidates == [] then Leave(x, RoutingFailed)
    else
      var names := TiedNames(candidates);
      x.(pc := Lookup, candidates := candidates, engine := if names == [] then "" else names[ticket % |names|])
  }

  function Selected(s: System, h: nat, sys: SystemView): System
    requires Enabled(s, Select(h, sys))
  {
    var candidates := Candidates(s.policy, sys, s.handlers[h].readings);
    Put(s, h, Chosen(s.handlers[h], candidates, s.counter)).(
      counter := if candidates == [] then s.counter else (s.counter + 1) % TWO64)
  }

  /** Where a handler is after Submit, and after its select took a result. */
  function Tried(x: Handler, admitted: bool): Handler {
    x.(pc := if admitted then AwaitResult else CountRejection)
  }

  function Got(x: Handler, reply: P.Reply): Handler {
    x.(pc := GotResult, reply := Some(reply))
  }

  /** Where a handler is after one iteration of engineStates. */
  function Noted(x: Handler, healthy: bool): Handler
    requires x.half.Some?
  {
    x.(half := None, readings := x.readings + [EngineState(x.half.value.0, x.half.value.1, healthy)])
  }

  function Submitted(s: System, h: nat, partner: nat): System
    requires Enabled(s, Submit(h, partner))
  {
    var x := s.handlers[h];
    var pool := P.Apply(s.pools[x.engine], P.Submit(h, partner));
    Put(s, h, Tried(x, P.Admits(s.pools[x.engine]))).(
      pools := s.pools[x.engine := pool])
  }

  function Taken(s: System, h: nat): System
    requires Enabled(s, Take(h))
  {
    var x := s.handlers[h];
    var pool := s.pools[x.engine];
    Put(s, h, Got(x, pool.channels[h][0])).(
      pools := s.pools[x.engine := P.Apply(pool, P.TakeResult(h))])
  }

  /** Where a handler is after it has dealt with its reply. */
  function Answered(x: Handler): Handler
    requires x.reply.Some?
  {
    if x.reply.value.Failure? then Leave(x, Error) else Leave(x, Success)
  }

  function Published(s: System, h: nat): System
    requires Enabled(s, Publish(h))
  {
    var x := s.handlers[h];
    if x.reply.value.Failure? then Put(s, h, Answered(x))
    else Put(s, h, Answered(x)).(totals := Increment(s.totals, x.engine), lastResult := Some(h))
  }

  function Apply(s: System, step: Step): System
    requires Enabled(s, step)
  {
    match step
    case Arrive(query, budgetOk) =>
      s.(handlers := s.handlers + [NewHandler.(query := query, budgetOk := budgetOk)])
    case Advance(h) => Advanced(s, h)
    case ReadDepth(h, name) => Put(s, h, s.handlers[h].(half := Some((name, |s.pools[name].queue|))))
    case ReadHealth(h) => Put(s, h, Noted(s.handlers[h], IsHealthy(s, s.handlers[h].half.value.0)))
    case Select(h, sys) => Selected(s, h, sys)
    case Body(h, readable) =>
      var x := s.handlers[h];
      Put(s, h, if readable then x.(pc := SubmitJob) else Leave(x, BadRequest))
    case Submit(h, partner) => Submitted(s, h, partner)
    case Take(h) => Taken(s, h)
    case TimeOut(h) => Put(s, h, Leave(s.handlers[h], Timeout))
    case Publish(h) => Published(s, h)
    case Worker(engine, action) => s.(pools := s.pools[engine := P.Apply(s.pools[engine], action)])
    case SetHealth(name, healthy) => s.(health := s.health[name := healthy])
  }

  function Exec(s: System, steps: seq<Step>): Option<System> {
    if steps == [] then Some(s)
    else
      match Exec(s, steps[..|steps| - 1])
      case None => None
      case Some(t) =>
        var step := steps[|steps| - 1];
        if Enabled(t, step) then Some(Apply(t, step)) else None
  }

  // -------------------------------------------------------------- invariant

  /** The handler's request was accepted, or rejected, by the pool of its engine. */
  predicate WasAccepted(x: Handler) {
    x.pc.AwaitResult? || x.pc.GotResult? || x.status.Success? || x.status.Error? || x.status.Timeout?
  }

  predicate WasRejected(x: Handler) {
    x.pc.CountRejection? || x.status.Rejected?
  }

  /** Pools and health statuses have one key set, fixed at start; the pools share one
      capacity, are open, and know only requests of existing handlers. */
  ghost predicate PoolsOk(s: System) {
    && s.health.Keys == s.pools.Keys
    && forall e | e in s.pools :: PoolOk(s.pools[e], s.capacity, |s.handlers|)
  }

  ghost predicate PoolOk(pool: P.State, capacity: nat, arrived: nat) {
    && P.Inv(pool) && pool.capacity == capacity && !pool.closed
    && (forall id | id in pool.accepted :: id < arrived)
    && (forall id | id in pool.rejected :: id < arrived)
  }

  /** Which pool knows handler h's request, and with what outcome. */
  ghost predicate OutcomeOk(pools: map<string, P.State>, h: nat, x: Handler) {
    && (forall e | e in pools ::
          && (h in pools[e].accepted <==> e == x.engine && WasAccepted(x))
          && (h in pools[e].rejected <==> e == x.engine && WasRejected(x)))
    && (WasAccepted(x) || WasRejected(x) ==> x.engine in pools)
    && (WasAccepted(x) && x.engine in pools ==> ReplyOk(pools[x.engine], h, x))
  }

  /** What an accepted request's handler has seen of its reply. */
  ghost predicate ReplyOk(pool: P.State, h: nat, x: Handler) {
    if x.pc.AwaitResult? || x.status.Timeout? then h !in pool.received
    else
      && h in pool.received && x.reply == Some(pool.received[h])
      && (x.status.Success? ==> x.reply.value.Response?)
      && (x.status.Error? ==> x.reply.value.Failure?)
  }

  /** The handler's own variables fit the place it has reached. */
  ghost predicate LocalsOk(names: set<string>, x: Handler) {
    && (x.status.Unknown? <==> !(x.pc.Deferred? || x.pc.Done?))
    && (x.pc.ParseBudget? || !x.budgetOk ==> x.engine == "")
    && (!x.budgetOk ==> x.pc.ParseBudget? || x.status.BadRequest?)
    && (x.pc.Lookup? || x.pc.ReadBody? || x.pc.SubmitJob? ==> x.engine in names)
    && (x.status.BadRequest? && x.budgetOk ==> x.engine in names)
    && (x.pc.Route? ==> x.engine == x.query)
    && (x.budgetOk && x.query != "" && !x.pc.ParseBudget? ==> x.engine == x.query)
    && (x.pc.ReadStates? || x.status.RoutingFailed? ==> x.engine == "" && x.query == "")
    && (x.status.EngineUnhealthy? ==> x.query != "")
  }

  /** The router has chosen an engine for this handler. */
  predicate Routed(x: Handler) {
    x.budgetOk && x.query == "" && !x.pc.ParseBudget? && !x.pc.Route? && !x.pc.ReadStates? && !x.status.RoutingFailed?
  }

  /** Some engine was read as healthy. */
  predicate SomeHealthy(readings: seq<EngineState>) {
    exists r :: r in readings && r.healthy
  }

  /** An auto-routed handler goes to a least-depth engine among the candidates it read. */
  ghost predicate ChoiceOk(names: set<string>, capacity: nat, x: Handler) {
    && (forall r | r in x.readings :: r.name in names && 0 <= r.depth <= capacity)
    && (x.half.Some? ==>
          && x.pc.ReadStates? && x.half.value.0 in names && x.half.value.1 <= capacity
          && !HasRead(x.readings, x.half.value.0))
    && (x.status.RoutingFailed? ==>
          && !SomeHealthy(x.readings)
          && forall name | name in names :: HasRead(x.readings, name))
    && (!Routed(x) ==> x.candidates == [])
    && (Routed(x) ==>
          && (forall c | c in x.candidates :: c in x.readings && c.healthy)
          && (forall name | name in names :: HasRead(x.readings, name))
          && exists c :: c in x.candidates && c.name == x.engine && forall f | f in x.candidates :: c.depth <= f.depth)
  }

  ghost predicate HandlerOk(pools: map<string, P.State>, capacity: nat, h: nat, x: Handler) {
    OutcomeOk(pools, h, x) && LocalsOk(pools.Keys, x) && ChoiceOk(pools.Keys, capacity, x)
  }

  ghost predicate Inv(s: System) {
    PoolsOk(s) && forall h | 0 <= h < |s.handlers| :: HandlerOk(s.pools, s.capacity, h, s.handlers[h])
  }

  // ------------------------------------------- every step keeps the invariant

  lemma InitInv(names: set<string>, queueSize: int, concurrency: int, policy: Policy)
    ensures Inv(Init(names, queueSize, concurrency, policy))
  {
    P.InitInv(queueSize, concurrency);
  }

  /** Steps that move one handler to y and leave the pools and the health keys alone. */
  lemma LocalStepKeepsInv(s: System, t: System, h: nat, y: Handler)
    requires Inv(s) && h < |s.handlers|
    requires t.capacity == s.capacity && t.pools == s.pools && t.health == s.health && t.handlers == s.handlers[h := y]
    requires HandlerOk(s.pools, s.capacity, h, y)
    ensures Inv(t)
  {
    forall g | 0 <= g < |t.handlers| ensures HandlerOk(t.pools, t.capacity, g, t.handlers[g]) {
      assert HandlerOk(s.pools, s.capacity, g, s.handlers[g]);
    }
  }

  /** A move that leaves the request's standing with the pools as it was. */
  lemma SameStanding(pools: map<string, P.State>, h: nat, x: Handler, y: Handler)
    requires OutcomeOk(pools, h, x)
    requires WasAccepted(y) == WasAccepted(x) && WasRejected(y) == WasRejected(x)
    requires WasAccepted(x) || WasRejected(x) ==> y.engine == x.engine
    requires WasAccepted(x) && x.engine in pools ==> ReplyOk(pools[x.engine], h, y)
    ensures OutcomeOk(pools, h, y)
  {
  }

  lemma SameChoice(names: set<string>, capacity: nat, x: Handler, y: Handler)
    requires ChoiceOk(names, capacity, x)
    requires y.readings == x.readings && y.candidates == x.candidates && y.half == x.half
    requires !x.pc.ReadStates? && (y.status.RoutingFailed? ==> x.status.RoutingFailed?)
    requires Routed(y) <==> Routed(x)
    requires Routed(y) ==> y.engine == x.engine
    ensures ChoiceOk(names, capacity, y)
  {
  }

  lemma MoveKeepsHandler(s: System, h: nat, x: Handler)
    requires HandlerOk(s.pools, s.capacity, h, x) && OnItsOwn(x.pc) && s.health.Keys == s.pools.Keys
    ensures HandlerOk(s.pools, s.capacity, h, Moved(s, x))
  {
    var y := Moved(s, x);
    assert LocalsOk(s.pools.Keys, y);
    SameStanding(s.pools, h, x, y);
    SameChoice(s.pools.Keys, s.capacity, x, y);
  }

  lemma AdvanceKeepsInv(s: System, h: nat)
    requires Inv(s) && Enabled(s, Advance(h))
    ensures Inv(Advanced(s, h))
  {
    var x := s.handlers[h];
    assert HandlerOk(s.pools, s.capacity, h, x);
    MoveKeepsHandler(s, h, x);
    LocalStepKeepsInv(s, Advanced(s, h), h, Moved(s, x));
  }

  lemma DepthKeepsHandler(s: System, h: nat, x: Handler, name: string)
    requires HandlerOk(s.pools, s.capacity, h, x) && x.pc.ReadStates? && name in s.pools && !HasRead(x.readings, name)
    requires PoolOk(s.pools[name], s.capacity, |s.handlers|)
    ensures HandlerOk(s.pools, s.capacity, h, x.(half := Some((name, |s.pools[name].queue|))))
  {
    SameStanding(s.pools, h, x, x.(half := Some((name, |s.pools[name].queue|))));
  }

  lemma ReadDepthKeepsInv(s: System, h: nat, name: string)
    requires Inv(s) && Enabled(s, ReadDepth(h, name))
    ensures Inv(Apply(s, ReadDepth(h, name)))
  {
    assert HandlerOk(s.pools, s.capacity, h, s.handlers[h]);
    DepthKeepsHandler(s, h, s.handlers[h], name);
    LocalStepKeepsInv(s, Apply(s, ReadDepth(h, name)), h, s.handlers[h].(half := Some((name, |s.pools[name].queue|))));
  }

  lemma HealthKeepsHandler(pools: map<string, P.State>, capacity: nat, h: nat, x: Handler, healthy: bool)
    requires HandlerOk(pools, capacity, h, x) && x.pc.ReadStates? && x.half.Some?
    ensures HandlerOk(pools, capacity, h, Noted(x, healthy))
  {
    SameStanding(pools, h, x, Noted(x, healthy));
  }

  lemma ReadHealthKeepsInv(s: System, h: nat)
    requires Inv(s) && Enabled(s, ReadHealth(h))
    ensures Inv(Apply(s, ReadHealth(h)))
  {
    var healthy := IsHealthy(s, s.handlers[h].half.value.0);
    assert HandlerOk(s.pools, s.capacity, h, s.handlers[h]);
    HealthKeepsHandler(s.pools, s.capacity, h, s.handlers[h], healthy);
    LocalStepKeepsInv(s, Apply(s, ReadHealth(h)), h, Noted(s.handlers[h], healthy));
  }

  lemma CandidatesFacts(policy: Policy, sys: SystemView, engines: seq<EngineState>, c: EngineState)
    requires c in Candidates(policy, sys, engines)
    ensures c in engines && c.healthy
  {
    FilterMembers(Healthy, engines, c);
    if policy.ThermalAware? {
      FilterMembers(NamedIn(CheapNames(policy.tiers, policy.cheapTierCount)), Filter(Healthy, engines), c);
    }
  }

  /** There is a candidate exactly when some engine was read as healthy. */
  lemma NoCandidatesIff(policy: Policy, sys: SystemView, engines: seq<EngineState>)
    ensures Candidates(policy, sys, engines) == [] <==> !SomeHealthy(engines)
  {
    var healthy := Filter(Healthy, engines);
    assert Candidates(policy, sys, engines) == [] <==> healthy == [];
    if healthy != [] {
      FilterMembers(Healthy, engines, healthy[0]);
      assert healthy[0] in healthy;
    }
    forall r | r in engines && r.healthy ensures r in healthy {
      FilterMembers(Healthy, engines, r);
    }
  }

  /** The routed handler goes to a least-depth engine among its candidates. */
  lemma ChosenIsLeast(names: set<string>, capacity: nat, x: Handler, candidates: seq<EngineState>, ticket: nat)
    requires ChoiceOk(names, capacity, x) && x.half.None?
    requires forall c | c in candidates :: c in x.readings && c.healthy
    requires forall name | name in names :: HasRead(x.readings, name)
    requires candidates == [] ==> !SomeHealthy(x.readings)
    requires x.pc.ReadStates? && x.budgetOk && x.query == "" && !x.status.RoutingFailed?
    ensures ChoiceOk(names, capacity, Chosen(x, candidates, ticket))
    ensures candidates != [] ==> Chosen(x, candidates, ticket).engine in names
  {
    if candidates != [] {
      var engine := Chosen(x, candidates, ticket).engine;
      PickIsTicketEntry(candidates, ticket, engine);
      PickIsMinimal(candidates, ticket, engine);
      var c :| c in candidates && c.name == engine && forall f | f in candidates :: c.depth <= f.depth;
      assert c in x.readings;
    }
  }

  lemma ChoiceKeepsHandler(s: System, h: nat, x: Handler, candidates: seq<EngineState>, ticket: nat)
    requires HandlerOk(s.pools, s.capacity, h, x) && x.pc.ReadStates?
    requires forall c | c in candidates :: c in x.readings && c.healthy
    requires forall name | name in s.pools.Keys :: HasRead(x.readings, name)
    requires x.half.None? && (candidates == [] ==> !SomeHealthy(x.readings))
    ensures HandlerOk(s.pools, s.capacity, h, Chosen(x, candidates, ticket))
  {
    ChosenIsLeast(s.pools.Keys, s.capacity, x, candidates, ticket);
    SameStanding(s.pools, h, x, Chosen(x, candidates, ticket));
  }

  lemma SelectKeepsInv(s: System, h: nat, sys: SystemView)
    requires Inv(s) && Enabled(s, Select(h, sys))
    ensures Inv(Selected(s, h, sys))
  {
    var x := s.handlers[h];
    var candidates := Candidates(s.policy, sys, x.readings);
    assert HandlerOk(s.pools, s.capacity, h, x);
    forall c | c in candidates ensures c in x.readings && c.healthy {
      CandidatesFacts(s.policy, sys, x.readings, c);
    }
    NoCandidatesIff(s.policy, sys, x.readings);
    ChoiceKeepsHandler(s, h, x, candidates, s.counter);
    LocalStepKeepsInv(s, Selected(s, h, sys), h, Chosen(x, candidates, s.counter));
  }

  lemma AnswerKeepsHandler(s: System, h: nat, x: Handler)
    requires HandlerOk(s.pools, s.capacity, h, x) && x.pc.GotResult? && x.reply.Some?
    ensures HandlerOk(s.pools, s.capacity, h, Answered(x))
  {
    SameStanding(s.pools, h, x, Answered(x));
    SameChoice(s.pools.Keys, s.capacity, x, Answered(x));
  }

  lemma PublishKeepsInv(s: System, h: nat)
    requires Inv(s) && Enabled(s, Publish(h))
    ensures Inv(Published(s, h))
  {
    assert HandlerOk(s.pools, s.capacity, h, s.handlers[h]);
    AnswerKeepsHandler(s, h, s.handlers[h]);
    LocalStepKeepsInv(s, Published(s, h), h, Answered(s.handlers[h]));
  }

  lemma TimeOutKeepsHandler(s: System, h: nat, x: Handler)
    requires HandlerOk(s.pools, s.capacity, h, x) && x.pc.AwaitResult?
    ensures HandlerOk(s.pools, s.capacity, h, Leave(x, Timeout))
  {
    SameStanding(s.pools, h, x, Leave(x, Timeout));
    SameChoice(s.pools.Keys, s.capacity, x, Leave(x, Timeout));
  }

  lemma TimeOutKeepsInv(s: System, h: nat)
    requires Inv(s) && Enabled(s, TimeOut(h))
    ensures Inv(Apply(s, TimeOut(h)))
  {
    assert HandlerOk(s.pools, s.capacity, h, s.handlers[h]);
    TimeOutKeepsHandler(s, h, s.handlers[h]);
    LocalStepKeepsInv(s, Apply(s, TimeOut(h)), h, Leave(s.handlers[h], Timeout));
  }

  lemma BodyKeepsHandler(s: System, h: nat, x: Handler)
    requires HandlerOk(s.pools, s.capacity, h, x) && x.pc.ReadBody?
    ensures HandlerOk(s.pools, s.capacity, h, x.(pc := SubmitJob))
        && HandlerOk(s.pools, s.capacity, h, Leave(x, BadRequest))
  {
    SameStanding(s.pools, h, x, x.(pc := SubmitJob));
    SameStanding(s.pools, h, x, Leave(x, BadRequest));
    SameChoice(s.pools.Keys, s.capacity, x, x.(pc := SubmitJob));
    SameChoice(s.pools.Keys, s.capacity, x, Leave(x, BadRequest));
  }

  lemma BodyKeepsInv(s: System, h: nat, readable: bool)
    requires Inv(s) && Enabled(s, Body(h, readable))
    ensures Inv(Apply(s, Body(h, readable)))
  {
    var x := s.handlers[h];
    assert HandlerOk(s.pools, s.capacity, h, x);
    BodyKeepsHandler(s, h, x);
    LocalStepKeepsInv(s, Apply(s, Body(h, readable)), h, if readable then x.(pc := SubmitJob) else Leave(x,
        BadRequest));
  }

  // steps of the pools

  /** What a pool has recorded of request g. */
  ghost predicate SameRecord(pool: P.State, pool': P.State, g: nat) {
    && (g in pool'.accepted <==> g in pool.accepted)
    && (g in pool'.rejected <==> g in pool.rejected)
    && (g in pool'.received <==> g in pool.received)
    && (g in pool.received && g in pool'.received ==> pool'.received[g] == pool.received[g])
  }

  lemma RecordKeepsHandler(s: System, t: System, e: string, p: P.State, g: nat, x: Handler)
    requires HandlerOk(s.pools, s.capacity, g, x) && e in s.pools && t.capacity == s.capacity
    requires t.pools == s.pools[e := p] && SameRecord(s.pools[e], p, g)
    ensures HandlerOk(t.pools, t.capacity, g, x)
  {
    assert t.pools.Keys == s.pools.Keys;
    assert OutcomeOk(t.pools, g, x);
  }

  lemma PoolActionKeepsPoolOk(pool: P.State, action: P.Step, capacity: nat, arrived: nat)
    requires PoolOk(pool, capacity, arrived) && P.Enabled(pool, action) && !action.CloseQueue?
    requires action.Submit? ==> action.id < arrived
    ensures PoolOk(P.Apply(pool, action), capacity, arrived)
  {
    P.StepKeepsInv(pool, action);
  }

  lemma NewPoolKeepsPools(s: System, t: System, e: string, p: P.State)
    requires PoolsOk(s) && e in s.pools && PoolOk(p, s.capacity, |s.handlers|)
    requires t.pools == s.pools[e := p] && t.health == s.health && t.capacity == s.capacity
    requires |t.handlers| == |s.handlers|
    ensures PoolsOk(t)
  {
    forall d | d in t.pools ensures PoolOk(t.pools[d], t.capacity, |t.handlers|) {
      assert d != e ==> PoolOk(s.pools[d], s.capacity, |s.handlers|);
    }
  }

  /** Replacing one pool keeps the invariant if it changes the record of handler h at
      most, and h moves to a fitting y.  (With h past the last handler, of none.) */
  lemma NewPoolKeepsInv(s: System, t: System, e: string, p: P.State, h: nat, y: Handler)
    requires Inv(s) && e in s.pools && PoolOk(p, s.capacity, |s.handlers|)
    requires t.pools == s.pools[e := p] && t.health == s.health && t.capacity == s.capacity
    requires t.handlers == if h < |s.handlers| then s.handlers[h := y] else s.handlers
    requires forall g: nat | g < |s.handlers| && g != h :: SameRecord(s.pools[e], p, g)
    requires h < |s.handlers| ==> HandlerOk(t.pools, t.capacity, h, y)
    ensures Inv(t)
  {
    NewPoolKeepsPools(s, t, e, p);
    forall g | 0 <= g < |t.handlers| ensures HandlerOk(t.pools, t.capacity, g, t.handlers[g]) {
      if g != h {
        assert HandlerOk(s.pools, s.capacity, g, s.handlers[g]);
        RecordKeepsHandler(s, t, e, p, g, s.handlers[g]);
      }
    }
  }

  lemma SubmitRecords(pool: P.State, h: nat, partner: nat, g: nat)
    requires P.Inv(pool) && P.Enabled(pool, P.Submit(h, partner))
    ensures g != h ==> SameRecord(pool, P.Apply(pool, P.Submit(h, partner)), g)
    ensures var p := P.Apply(pool, P.Submit(h, partner));
            && (h in p.accepted <==> P.Admits(pool)) && (h in p.rejected <==> !P.Admits(pool)) && h !in p.received
  {
  }

  lemma SubmittedOutcome(pools: map<string, P.State>, p: P.State, h: nat, x: Handler, admitted: bool)
    requires OutcomeOk(pools, h, x) && x.pc.SubmitJob? && x.status.Unknown? && x.engine in pools
    requires (h in p.accepted <==> admitted) && (h in p.rejected <==> !admitted) && h !in p.received
    ensures OutcomeOk(pools[x.engine := p], h, Tried(x, admitted))
  {
  }

  lemma SubmitKeepsHandler(pools: map<string, P.State>, capacity: nat, p: P.State, h: nat, x: Handler, admitted: bool)
    requires HandlerOk(pools, capacity, h, x) && x.pc.SubmitJob? && x.engine in pools
    requires (h in p.accepted <==> admitted) && (h in p.rejected <==> !admitted) && h !in p.received
    ensures HandlerOk(pools[x.engine := p], capacity, h, Tried(x, admitted))
  {
    SubmittedOutcome(pools, p, h, x, admitted);
    SameChoice(pools.Keys, capacity, x, Tried(x, admitted));
    assert pools[x.engine := p].Keys == pools.Keys;
  }

  lemma SubmitKeepsInv(s: System, h: nat, partner: nat)
    requires Inv(s) && Enabled(s, Submit(h, partner))
    ensures Inv(Submitted(s, h, partner))
  {
    var t := Submitted(s, h, partner);
    var e := s.handlers[h].engine;
    assert PoolOk(s.pools[e], s.capacity, |s.handlers|);
    PoolActionKeepsPoolOk(s.pools[e], P.Submit(h, partner), s.capacity, |s.handlers|);
    forall g: nat | g < |s.handlers| && g != h ensures SameRecord(s.pools[e], t.pools[e], g) {
      SubmitRecords(s.pools[e], h, partner, g);
    }
    assert HandlerOk(s.pools, s.capacity, h, s.handlers[h]);
    SubmitRecords(s.pools[e], h, partner, h);
    SubmitKeepsHandler(s.pools, s.capacity, t.pools[e], h, s.handlers[h], P.Admits(s.pools[e]));
    NewPoolKeepsInv(s, t, e, t.pools[e], h, Tried(s.handlers[h], P.Admits(s.pools[e])));
  }

  lemma TakeRecords(pool: P.State, h: nat, g: nat)
    requires P.Enabled(pool, P.TakeResult(h))
    ensures var p := P.Apply(pool, P.TakeResult(h));
            && (g != h ==> SameRecord(pool, p, g))
            && (h in p.accepted <==> h in pool.accepted) && (h in p.rejected <==> h in pool.rejected)
            && h in p.received && p.received[h] == pool.channels[h][0]
  {
  }

  lemma TakenOutcome(pools: map<string, P.State>, p: P.State, h: nat, x: Handler)
    requires OutcomeOk(pools, h, x) && x.pc.AwaitResult? && x.status.Unknown? && x.engine in pools
    requires (h in p.accepted <==> h in pools[x.engine].accepted)
        && (h in p.rejected <==> h in pools[x.engine].rejected)
    requires h in p.received
    ensures OutcomeOk(pools[x.engine := p], h, Got(x, p.received[h]))
  {
  }

  lemma TakeKeepsHandler(pools: map<string, P.State>, capacity: nat, h: nat, x: Handler)
    requires HandlerOk(pools, capacity, h, x) && x.pc.AwaitResult? && x.engine in pools
    requires P.Enabled(pools[x.engine], P.TakeResult(h))
    ensures HandlerOk(pools[x.engine := P.Apply(pools[x.engine], P.TakeResult(h))], capacity, h,
                      Got(x, pools[x.engine].channels[h][0]))
  {
    var p := P.Apply(pools[x.engine], P.TakeResult(h));
    TakeRecords(pools[x.engine], h, h);
    TakenOutcome(pools, p, h, x);
    SameChoice(pools.Keys, capacity, x, Got(x, p.received[h]));
    assert pools[x.engine := p].Keys == pools.Keys;
  }

  lemma TakeKeepsInv(s: System, h: nat)
    requires Inv(s) && Enabled(s, Take(h))
    ensures Inv(Taken(s, h))
  {
    var t := Taken(s, h);
    var e := s.handlers[h].engine;
    assert PoolOk(s.pools[e], s.capacity, |s.handlers|);
    PoolActionKeepsPoolOk(s.pools[e], P.TakeResult(h), s.capacity, |s.handlers|);
    forall g: nat | g < |s.handlers| && g != h ensures SameRecord(s.pools[e], t.pools[e], g) {
      TakeRecords(s.pools[e], h, g);
    }
    assert HandlerOk(s.pools, s.capacity, h, s.handlers[h]);
    TakeKeepsHandler(s.pools, s.capacity, h, s.handlers[h]);
    NewPoolKeepsInv(s, t, e, t.pools[e], h, Got(s.handlers[h], s.pools[e].channels[h][0]));
  }

  lemma WorkerRecords(pool: P.State, action: P.Step, g: nat)
    requires P.IsWorkerStep(action) && P.Enabled(pool, action)
    ensures SameRecord(pool, P.Apply(pool, action), g)
  {
  }

  lemma WorkerKeepsInv(s: System, e: string, action: P.Step)
    requires Inv(s) && Enabled(s, Worker(e, action))
    ensures Inv(Apply(s, Worker(e, action)))
  {
    var t := Apply(s, Worker(e, action));
    assert PoolOk(s.pools[e], s.capacity, |s.handlers|);
    PoolActionKeepsPoolOk(s.pools[e], action, s.capacity, |s.handlers|);
    forall g: nat | g < |s.handlers| ensures SameRecord(s.pools[e], t.pools[e], g) {
      WorkerRecords(s.pools[e], action, g);
    }
    NewPoolKeepsInv(s, t, e, t.pools[e], |s.handlers|, NewHandler);
  }

  lemma ArriveKeepsPools(s: System, t: System)
    requires PoolsOk(s) && t.pools == s.pools && t.health == s.health && t.capacity == s.capacity
    requires |s.handlers| <= |t.handlers|
    ensures PoolsOk(t)
    ensures forall e | e in s.pools :: |s.handlers| !in s.pools[e].accepted && |s.handlers| !in s.pools[e].rejected
  {
    forall e | e in t.pools
      ensures PoolOk(t.pools[e], t.capacity, |t.handlers|)
      ensures |s.handlers| !in s.pools[e].accepted && |s.handlers| !in s.pools[e].rejected
    {
      assert PoolOk(s.pools[e], s.capacity, |s.handlers|);
    }
  }

  lemma NewHandlerOk(pools: map<string, P.State>, capacity: nat, h: nat, query: string, budgetOk: bool)
    requires forall e | e in pools :: h !in pools[e].accepted && h !in pools[e].rejected
    ensures HandlerOk(pools, capacity, h, NewHandler.(query := query, budgetOk := budgetOk))
  {
  }

  lemma ArriveKeepsInv(s: System, query: string, budgetOk: bool)
    requires Inv(s)
    ensures Inv(Apply(s, Arrive(query, budgetOk)))
  {
    var t := Apply(s, Arrive(query, budgetOk));
    ArriveKeepsPools(s, t);
    NewHandlerOk(s.pools, s.capacity, |s.handlers|, query, budgetOk);
    forall g | 0 <= g < |t.handlers| ensures HandlerOk(t.pools, t.capacity, g, t.handlers[g]) {
      if g < |s.handlers| {
        assert HandlerOk(s.pools, s.capacity, g, s.handlers[g]);
      }
    }
  }

  lemma SetHealthKeepsPools(s: System, name: string, healthy: bool)
    requires PoolsOk(s) && name in s.health
    ensures PoolsOk(s.(health := s.health[name := healthy]))
  {
    var t := s.(health := s.health[name := healthy]);
    assert t.health.Keys == s.health.Keys;
    forall e | e in t.pools ensures PoolOk(t.pools[e], t.capacity, |t.handlers|) {
      assert PoolOk(s.pools[e], s.capacity, |s.handlers|);
    }
  }

  lemma SetHealthKeepsInv(s: System, name: string, healthy: bool)
    requires Inv(s) && Enabled(s, SetHealth(name, healthy))
    ensures Inv(Apply(s, SetHealth(name, healthy)))
  {
    SetHealthKeepsPools(s, name, healthy);
    var t := Apply(s, SetHealth(name, healthy));
    forall g | 0 <= g < |t.handlers| ensures HandlerOk(t.pools, t.capacity, g, t.handlers[g]) {
      assert HandlerOk(s.pools, s.capacity, g, s.handlers[g]);
    }
  }

  lemma StepKeepsInv(s: System, step: Step)
    requires Inv(s) && Enabled(s, step)
    ensures Inv(Apply(s, step))
  {
    match step
    case Arrive(query, budgetOk) => ArriveKeepsInv(s, query, budgetOk);
    case Advance(h) => AdvanceKeepsInv(s, h);
    case ReadDepth(h, name) => ReadDepthKeepsInv(s, h, name);
    case ReadHealth(h) => ReadHealthKeepsInv(s, h);
    case Select(h, sys) => SelectKeepsInv(s, h, sys);
    case Body(h, readable) => BodyKeepsInv(s, h, readable);
    case Submit(h, partner) => SubmitKeepsInv(s, h, partner);
    case Take(h) => TakeKeepsInv(s, h);
    case TimeOut(h) => TimeOutKeepsInv(s, h);
    case Publish(h) => PublishKeepsInv(s, h);
    case Worker(engine, action) => WorkerKeepsInv(s, engine, action);
    case SetHealth(name, healthy) => SetHealthKeepsInv(s, name, healthy);
  }

  /** The engine names, the queue size and the policy never change. */
  lemma StepKeepsConfiguration(s: System, step: Step)
    requires Enabled(s, step)
    ensures var t := Apply(s, step);
            t.pools.Keys == s.pools.Keys && t.capacity == s.capacity && t.policy == s.policy
  {
    match step
    case Advance(h) =>
    case Select(h, sys) =>
    case Submit(h, partner) => SameKeys(s.pools, s.handlers[h].engine, Submitted(s, h, partner).pools);
    case Take(h) => SameKeys(s.pools, s.handlers[h].engine, Taken(s, h).pools);
    case Publish(h) =>
    case Worker(engine, action) => SameKeys(s.pools, engine, Apply(s, step).pools);
    case _ =>
  }

  lemma SameKeys(pools: map<string, P.State>, e: string, pools': map<string, P.State>)
    requires e in pools && e in pools' && pools' == pools[e := pools'[e]]
    ensures pools'.Keys == pools.Keys
  {
  }
}
