/** Routing follows the health checks, over whole runs: what a request has read of an engine
    was true when it read it, and an engine that is reported unhealthy gets nothing
    (scheduler/internal/api/handlers.go:140-206). */
module HealthRouting {
  import opened Common
  import opened Routing
  import opened Server
  import opened ServerGuarantees
  import P = WorkerPool

  // ------------------------------------------------- statuses are the last reports

  /** The last status reported for an engine in a run, true before the first. */
  function LastReport(steps: seq<Step>, name: string): bool {
    if steps == [] then true
    else
      match steps[|steps| - 1]
      case SetHealth(reported, healthy) =>
        if reported == name then healthy else LastReport(steps[..|steps| - 1], name)
      case _ => LastReport(steps[..|steps| - 1], name)
  }

  /** A configured engine has the status last reported for it: a later good check restores
      it, and other engines' checks do not matter. */
  lemma {:induction false} StatusIsLastReport(names: set<string>, queueSize: int, concurrency: int, policy: Policy,
                                              steps: seq<Step>, s: System, name: string)
    requires RunsTo(names, queueSize, concurrency, policy, steps, s)
    ensures name in s.health <==> name in names
    ensures name in names ==> s.health[name] == LastReport(steps, name)
  {
    if steps != [] {
      var front := steps[..|steps| - 1];
      var before := Exec(Init(names, queueSize, concurrency, policy), front).value;
      StatusIsLastReport(names, queueSize, concurrency, policy, front, before, name);
      StepSetsStatus(before, steps[|steps| - 1], name);
    }
  }

  lemma StepSetsStatus(s: System, step: Step, name: string)
    requires Enabled(s, step)
    ensures name in Apply(s, step).health <==> name in s.health
    ensures name in s.health ==>
              Apply(s, step).health[name]
              == if step.SetHealth? && step.name == name then step.healthy else s.health[name]
  {
    match step
    case Advance(_) =>
    case Select(_, _) =>
    case Submit(_, _) =>
    case Take(_) =>
    case Publish(_) =>
    case _ =>
  }

  /** Step n refuses handler h, after a bad last report on its engine. */
  ghost predicate RefusedAt(steps: seq<Step>, h: nat, e: string, n: nat) {
    n < |steps| && steps[n] == Advance(h) && !LastReport(steps[..n], e)
  }

  lemma StillRefused(steps: seq<Step>, step: Step, h: nat, e: string, n: nat)
    requires RefusedAt(steps, h, e, n)
    ensures RefusedAt(steps + [step], h, e, n)
  {
    assert (steps + [step])[..n] == steps[..n];
  }

  lemma RefusedNow(names: set<string>, queueSize: int, concurrency: int, policy: Policy,
                   steps: seq<Step>, s: System, h: nat, e: string)
    requires RunsTo(names, queueSize, concurrency, policy, steps, s) && e in names && !IsHealthy(s, e)
    ensures RefusedAt(steps + [Advance(h)], h, e, |steps|)
  {
    StatusIsLastReport(names, queueSize, concurrency, policy, steps, s, e);
    assert (steps + [Advance(h)])[..|steps|] == steps;
  }

  /** Which step refused a handler, if it is refused after one more step. */
  lemma RefusalMoment(names: set<string>, queueSize: int, concurrency: int, policy: Policy,
                      steps: seq<Step>, s: System, step: Step, h: nat)
    requires RunsTo(names, queueSize, concurrency, policy, steps, s) && Enabled(s, step)
    requires h < |Apply(s, step).handlers| && Apply(s, step).handlers[h].status.EngineUnhealthy?
    ensures h < |s.handlers|
    ensures if s.handlers[h].status.EngineUnhealthy? then Apply(s, step).handlers[h].engine == s.handlers[h].engine
            else step == Advance(h) && !IsHealthy(s, Apply(s, step).handlers[h].engine)
  {
    if h < |s.handlers| {
      RunHasLocals(names, queueSize, concurrency, policy, steps, s);
      RefusalStep(s, step, h);
    } else {
      NewHasNothing(s, step, h);
    }
  }

  /** A request that names a configured engine is refused as unhealthy at the moment of its
      routing step, and only if the last report on the engine before that was bad. */
  lemma {:induction false} RefusedAfterBadReport(names: set<string>, queueSize: int, concurrency: int, policy: Policy,
                                                 steps: seq<Step>, s: System, h: nat)
    requires RunsTo(names, queueSize, concurrency, policy, steps, s)
    requires h < |s.handlers| && s.handlers[h].status.EngineUnhealthy? && s.handlers[h].engine in names
    ensures exists n :: RefusedAt(steps, h, s.handlers[h].engine, n)
  {
    if steps != [] {
      var front, step := steps[..|steps| - 1], steps[|steps| - 1];
      var before := Exec(Init(names, queueSize, concurrency, policy), front).value;
      var e := s.handlers[h].engine;
      assert steps == front + [step];
      RefusalMoment(names, queueSize, concurrency, policy, front, before, step, h);
      if before.handlers[h].status.EngineUnhealthy? {
        RefusedAfterBadReport(names, queueSize, concurrency, policy, front, before, h);
        var n :| RefusedAt(front, h, e, n);
        StillRefused(front, step, h, e, n);
      } else {
        RefusedNow(names, queueSize, concurrency, policy, front, before, h, e);
      }
    }
  }

  // ----------------------------------------------------------- readings are true

  /** After the first n steps of a run engine `name` had this queue depth, or this status. */
  ghost predicate DepthWas(start: System, steps: seq<Step>, n: nat, name: string, depth: int) {
    && n <= |steps| && Exec(start, steps[..n]).Some?
    && var s := Exec(start, steps[..n]).value;
       name in s.pools && |s.pools[name].queue| == depth
  }

  ghost predicate HealthWas(start: System, steps: seq<Step>, n: nat, name: string, healthy: bool) {
    n <= |steps| && Exec(start, steps[..n]).Some? && IsHealthy(Exec(start, steps[..n]).value, name) == healthy
  }

  /** The depth was the queue's at some time, and the status the monitor's at a later one. */
  ghost predicate WasTrue(start: System, steps: seq<Step>, r: EngineState) {
    exists n: nat, m: nat ::
      n <= m && DepthWas(start, steps, n, r.name, r.depth) && HealthWas(start, steps, m, r.name, r.healthy)
  }

  ghost predicate HalfWasTrue(start: System, steps: seq<Step>, half: (string, nat)) {
    exists n: nat :: DepthWas(start, steps, n, half.0, half.1)
  }

  lemma StillTrue(start: System, steps: seq<Step>, step: Step, r: EngineState)
    requires WasTrue(start, steps, r)
    ensures WasTrue(start, steps + [step], r)
  {
    var n: nat, m: nat :| n <= m && DepthWas(start, steps, n, r.name, r.depth)
                          && HealthWas(start, steps, m, r.name, r.healthy);
    assert (steps + [step])[..n] == steps[..n] && (steps + [step])[..m] == steps[..m];
    assert DepthWas(start, steps + [step], n, r.name, r.depth);
    assert HealthWas(start, steps + [step], m, r.name, r.healthy);
  }

  lemma StillHalfTrue(start: System, steps: seq<Step>, step: Step, half: (string, nat))
    requires HalfWasTrue(start, steps, half)
    ensures HalfWasTrue(start, steps + [step], half)
  {
    var n: nat :| DepthWas(start, steps, n, half.0, half.1);
    assert (steps + [step])[..n] == steps[..n];
    assert DepthWas(start, steps + [step], n, half.0, half.1);
  }

  /** All that a handler has read was so when it read it. */
  ghost predicate ReadsTrue(start: System, steps: seq<Step>, x: Handler) {
    && (forall r | r in x.readings :: WasTrue(start, steps, r))
    && (x.half.Some? ==> HalfWasTrue(start, steps, x.half.value))
  }

  lemma NoteIsTrue(start: System, steps: seq<Step>, s: System, half: (string, nat))
    requires Exec(start, steps) == Some(s) && HalfWasTrue(start, steps, half)
    ensures WasTrue(start, steps, EngineState(half.0, half.1, IsHealthy(s, half.0)))
  {
    var n: nat :| DepthWas(start, steps, n, half.0, half.1);
    assert steps[..|steps|] == steps;
    assert HealthWas(start, steps, |steps|, half.0, IsHealthy(s, half.0));
  }

  lemma StepReadsTrue(start: System, steps: seq<Step>, s: System, step: Step, h: nat)
    requires Exec(start, steps) == Some(s) && Enabled(s, step) && h < |s.handlers|
    requires ReadsTrue(start, steps, s.handlers[h])
    ensures h < |Apply(s, step).handlers| && ReadsTrue(start, steps + [step], Apply(s, step).handlers[h])
  {
    var x, more := s.handlers[h], steps + [step];
    StepKeepsReads(s, step, h);
    forall r | r in x.readings ensures WasTrue(start, more, r) {
      StillTrue(start, steps, step, r);
    }
    if x.half.Some? {
      StillHalfTrue(start, steps, step, x.half.value);
      NoteIsTrue(start, steps, s, x.half.value);
      StillTrue(start, steps, step, EngineState(x.half.value.0, x.half.value.1, IsHealthy(s, x.half.value.0)));
    }
    if step.ReadDepth? && step.h == h {
      DepthIsTrue(start, steps, s, step.name, step);
    }
  }

  lemma DepthIsTrue(start: System, steps: seq<Step>, s: System, name: string, step: Step)
    requires Exec(start, steps) == Some(s) && name in s.pools
    ensures HalfWasTrue(start, steps + [step], (name, |s.pools[name].queue|))
  {
    assert steps[..|steps|] == steps;
    assert DepthWas(start, steps, |steps|, name, |s.pools[name].queue|);
    StillHalfTrue(start, steps, step, (name, |s.pools[name].queue|));
  }

  /** In any run every reading of every request is an engine's queue depth at one time and
      its health status at a later one. */
  lemma {:induction false} ReadingsWereTrue(names: set<string>, queueSize: int, concurrency: int, policy: Policy,
                                            steps: seq<Step>, s: System, h: nat)
    requires RunsTo(names, queueSize, concurrency, policy, steps, s) && h < |s.handlers|
    ensures ReadsTrue(Init(names, queueSize, concurrency, policy), steps, s.handlers[h])
  {
    if steps != [] {
      var start := Init(names, queueSize, concurrency, policy);
      var front, step := steps[..|steps| - 1], steps[|steps| - 1];
      var before := Exec(start, front).value;
      assert steps == front + [step];
      if h < |before.handlers| {
        ReadingsWereTrue(names, queueSize, concurrency, policy, front, before, h);
        StepReadsTrue(start, front, before, step, h);
      } else {
        NewHasNothing(before, step, h);
      }
    }
  }

  lemma NewHasNothing(s: System, step: Step, h: nat)
    requires Enabled(s, step) && |s.handlers| <= h < |Apply(s, step).handlers|
    ensures step.Arrive? && Apply(s, step).handlers[h] == NewHandler.(query := step.query, budgetOk := step.budgetOk)
  {
    match step
    case Advance(_) =>
    case Select(_, _) =>
    case Submit(_, _) =>
    case Publish(_) =>
    case _ =>
  }

  // ------------------------------------------- unhealthy engines get no traffic

  /** No reading says that this engine is healthy. */
  ghost predicate NotReadHealthy(x: Handler, e: string) {
    forall r | r in x.readings && r.name == e :: !r.healthy
  }

  lemma StepReadsUnhealthy(s: System, step: Step, h: nat, e: string)
    requires Enabled(s, step) && h < |s.handlers| && !IsHealthy(s, e) && NotReadHealthy(s.handlers[h], e)
    ensures h < |Apply(s, step).handlers| && NotReadHealthy(Apply(s, step).handlers[h], e)
  {
    StepKeepsReads(s, step, h);
  }

  lemma {:induction false} NewRequestsReadUnhealthy(s: System, steps: seq<Step>, t: System, h: nat, e: string)
    requires Exec(s, steps) == Some(t) && |s.handlers| <= h < |t.handlers|
    requires !IsHealthy(s, e) && SetHealth(e, true) !in steps
    ensures NotReadHealthy(t.handlers[h], e)
  {
    if steps != [] {
      var front, step := steps[..|steps| - 1], steps[|steps| - 1];
      var before := Exec(s, front).value;
      RemainsUnhealthy(s, front, before, e);
      if h < |before.handlers| {
        NewRequestsReadUnhealthy(s, front, before, h, e);
        StepReadsUnhealthy(before, step, h, e);
      } else {
        NewHasNothing(before, step, h);
      }
    }
  }

  lemma {:induction false} RemainsUnhealthy(s: System, steps: seq<Step>, t: System, e: string)
    requires Exec(s, steps) == Some(t) && !IsHealthy(s, e) && SetHealth(e, true) !in steps
    ensures !IsHealthy(t, e)
  {
    if steps != [] {
      var front := steps[..|steps| - 1];
      RemainsUnhealthy(s, front, Exec(s, front).value, e);
      StaysUnhealthy(Exec(s, front).value, steps[|steps| - 1], e);
    }
  }

  /** What follows for one auto-routed handler. */
  lemma NotReadNotChosen(pools: map<string, P.State>, capacity: nat, h: nat, x: Handler, e: string)
    requires HandlerOk(pools, capacity, h, x) && NotReadHealthy(x, e) && x.query == ""
    ensures forall c | c in x.candidates :: c.name != e
    ensures e in pools ==> h !in pools[e].accepted && h !in pools[e].rejected
  {
    if Routed(x) {
      var c :| c in x.candidates && c.name == x.engine;
    }
  }

  /** From the time an engine is reported unhealthy until a good check, no request that then
      arrives without naming an engine has it among its candidates, and none is ever offered
      to its pool. */
  lemma UnhealthyIsNeverPicked(s: System, steps: seq<Step>, t: System, h: nat, e: string)
    requires Inv(s) && Exec(s, steps) == Some(t) && !IsHealthy(s, e) && SetHealth(e, true) !in steps
    requires |s.handlers| <= h < |t.handlers| && t.handlers[h].query == ""
    ensures forall c | c in t.handlers[h].candidates :: c.name != e
    ensures e in t.pools ==> h !in t.pools[e].accepted && h !in t.pools[e].rejected
  {
    ExecKeepsInv(s, steps, t);
    assert HandlerOk(t.pools, t.capacity, h, t.handlers[h]);
    NewRequestsReadUnhealthy(s, steps, t, h, e);
    NotReadNotChosen(t.pools, t.capacity, h, t.handlers[h], e);
  }

  /** A reading of an engine as unhealthy comes after a bad report on it. */
  lemma {:induction false} BadReadingWasReported(names: set<string>, queueSize: int, concurrency: int, policy: Policy,
                                                 steps: seq<Step>, s: System, h: nat, r: EngineState)
    requires RunsTo(names, queueSize, concurrency, policy, steps, s) && h < |s.handlers|
    requires r in s.handlers[h].readings && r.name in names && !r.healthy
    ensures FailureReported(steps, r.name)
  {
    if steps != [] {
      var front, step := steps[..|steps| - 1], steps[|steps| - 1];
      var before := Exec(Init(names, queueSize, concurrency, policy), front).value;
      if h < |before.handlers| {
        StepKeepsReads(before, step, h);
        if r in before.handlers[h].readings {
          BadReadingWasReported(names, queueSize, concurrency, policy, front, before, h, r);
        } else {
          UnhealthyStatusWasReported(names, queueSize, concurrency, policy, front, before, r.name);
        }
      } else {
        NewHasNothing(before, step, h);
      }
    }
  }

  /** Routing fails only after a failed check was reported for every configured engine. */
  lemma FailureMeansAllReported(names: set<string>, queueSize: int, concurrency: int, policy: Policy,
                                steps: seq<Step>, s: System, h: nat, name: string)
    requires RunsTo(names, queueSize, concurrency, policy, steps, s)
    requires h < |s.handlers| && s.handlers[h].status.RoutingFailed? && name in names
    ensures FailureReported(steps, name)
  {
    RunKeepsInv(names, queueSize, concurrency, policy, steps, s);
    HandlerChoice(s, h);
    assert HasRead(s.handlers[h].readings, name);
    var i :| 0 <= i < |s.handlers[h].readings| && s.handlers[h].readings[i].name == name;
    var r := s.handlers[h].readings[i];
    assert r in s.handlers[h].readings;
    BadReadingWasReported(names, queueSize, concurrency, policy, steps, s, h, r);
  }

  // ------------------------------------------------------ the hot system's choice

  /** In a valid state at or above the threshold, a request without an engine goes to a
      least-depth healthy engine of the leading tiers, if it has read any as healthy. */
  lemma HotRequestsGoToLeadingTiers(s: System, h: nat, sys: SystemView)
    requires Enabled(s, Select(h, sys)) && s.policy.ThermalAware?
    requires sys.valid && sys.maxTempC >= s.policy.tempThresholdC
    requires exists e :: CheapHealthy(s.handlers[h].readings, s.policy.tiers, s.policy.cheapTierCount, e)
    ensures var x := Selected(s, h, sys).handlers[h];
            x.pc.Lookup? && IsCheapest(s.handlers[h].readings, s.policy.tiers, s.policy.cheapTierCount, Ok(x.engine))
  {
    var readings := s.handlers[h].readings;
    var candidates := Candidates(s.policy, sys, readings);
    NoCandidatesIff(s.policy, sys, readings);
    var e :| CheapHealthy(readings, s.policy.tiers, s.policy.cheapTierCount, e);
    assert SomeHealthy(readings);
    var name := PickExists(candidates, s.counter);
    AnswerOf(true, s.policy.tiers, s.policy.cheapTierCount, readings, candidates, s.counter, Ok(name));
    SelectAnswersAsPolicy(s, h, sys, Ok(name));
  }

  // --------------------------------------------- where a finished request turned off

  /** What a handler's own choices in the run say of where it is: it was offered to a pool
      only after its body was read, it is a bad request with a good budget only after its
      body was not, and it timed out only by its deadline. */
  ghost predicate Decided(steps: seq<Step>, h: nat, x: Handler) {
    && (x.pc.SubmitJob? || WasAccepted(x) || WasRejected(x) ==> Body(h, true) in steps)
    && (x.status.BadRequest? && x.budgetOk ==> Body(h, false) in steps)
    && (x.status.Timeout? ==> TimeOut(h) in steps)
    && (x.pc.GotResult? || x.status.Success? || x.status.Error? ==> Take(h) in steps)
  }

  lemma StepDecides(steps: seq<Step>, s: System, step: Step, h: nat)
    requires Enabled(s, step) && h < |s.handlers| && LocalsOk(s.pools.Keys, s.handlers[h])
    requires Decided(steps, h, s.handlers[h])
    ensures h < |Apply(s, step).handlers| && Decided(steps + [step], h, Apply(s, step).handlers[h])
  {
    if !IsOwn(step, h) {
      OthersLeaveIt(s, step, h);
    } else {
      OwnStepGives(s, step, h);
      NextDecides(steps, s, step, h);
    }
  }

  lemma NextDecides(steps: seq<Step>, s: System, step: Step, h: nat)
    requires Enabled(s, step) && IsOwn(step, h) && h < |s.handlers| && LocalsOk(s.pools.Keys, s.handlers[h])
    requires Decided(steps, h, s.handlers[h])
    ensures Decided(steps + [step], h, Next(s, step, h))
  {
    assert step in steps + [step];
  }

  lemma {:induction false} EveryTurnWasTaken(names: set<string>, queueSize: int, concurrency: int, policy: Policy,
                                             steps: seq<Step>, s: System, h: nat)
    requires RunsTo(names, queueSize, concurrency, policy, steps, s) && h < |s.handlers|
    ensures Decided(steps, h, s.handlers[h])
  {
    if steps != [] {
      var front, step := steps[..|steps| - 1], steps[|steps| - 1];
      var before := Exec(Init(names, queueSize, concurrency, policy), front).value;
      assert steps == front + [step];
      if h < |before.handlers| {
        EveryTurnWasTaken(names, queueSize, concurrency, policy, front, before, h);
        RunHasLocals(names, queueSize, concurrency, policy, front, before);
        StepDecides(front, before, step, h);
      } else {
        NewHasNothing(before, step, h);
      }
    }
  }
}
