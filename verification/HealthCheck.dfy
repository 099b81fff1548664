/** Background health polling (scheduler/internal/healthcheck/monitor.go): the shared
    status map, and each engine's poller as a timed state machine with a one-slot ticker. */
module HealthCheck {
  import opened Common

  // ------------------------------------------------------------- the object

  class Monitor {
    var statuses: map<string, bool>

    /** New: every configured engine is assumed healthy. */
    constructor New(clients: set<string>)
      ensures statuses == map name | name in clients :: true
    {
      var all: map<string, bool> := map[];
      var rest := clients;
      while rest != {}
        invariant rest <= clients && all == map name | name in clients - rest :: true
        decreases rest
      {
        var name :| name in rest;
        all := all[name := true];
        rest := rest - {name};
      }
      statuses := all;
    }

    /** check: an answer counts as healthy only if there was no error and it is serving. */
    method Check(name: string, answer: Result<bool>)
      modifies this
      ensures statuses == old(statuses)[name := answer == Ok(true)]
    {
      var healthy := answer.Ok? && answer.value;
      statuses := statuses[name := healthy];
    }

    /** Healthy: an unknown name is not healthy. */
    method Healthy(name: string) returns (healthy: bool)
      ensures healthy <==> name in statuses && statuses[name]
    {
      healthy := false;
      if name in statuses {
        healthy := statuses[name];
      }
    }
  }

  // -------------------------------------------------------- pollers over time

  /** Where a poll loop is: inside check, or in its select. */
  datatype Phase = Checking | Waiting

  datatype Poller = Poller(
    phase: Phase,
    started: real,            // start of the latest check
    slot: bool,               // a tick waits in the ticker's channel
    nextTick: real,
    last: Option<bool>,       // result of the last completed check
    // the engine
    serving: bool,            // whether it answers checks now
    changed: real,            // since when
    sinceChange: bool)        // the latest check started after that change

  datatype System = System(
    interval: real, timeout: real,
    now: real,
    pollers: map<string, Poller>,
    statuses: map<string, bool>)

  datatype Step =
    | Elapse(dt: real)
    | Tick(name: string)
    | Begin(name: string)
    | Finish(name: string, healthy: bool)
    | Change(name: string)    // the engine goes down, or comes back

  /** Run at time 0: the ticker is made, then the first check starts at once.  An engine
      may be down from the start. */
  function Init(interval: real, timeout: real, serving: map<string, bool>): System {
    System(interval, timeout, 0.0,
           map name | name in serving :: Poller(Checking, 0.0, false, interval, None, serving[name], 0.0, true),
           map name | name in serving :: true)
  }

  /** Time passes only up to the next thing that must happen: a due tick fires on time, a
      waiting loop takes a tick at once, and a check ends within its timeout. */
  predicate MayElapse(s: System, p: Poller, dt: real) {
    && s.now + dt <= p.nextTick
    && (p.phase.Checking? ==> s.now + dt <= p.started + s.timeout)
    && (p.phase.Waiting? && p.slot ==> dt == 0.0)
  }

  predicate Enabled(s: System, step: Step) {
    match step
    case Elapse(dt) => 0.0 <= dt && forall name | name in s.pollers :: MayElapse(s, s.pollers[name], dt)
    case Tick(name) => name in s.pollers && s.pollers[name].nextTick == s.now
    case Begin(name) => name in s.pollers && s.pollers[name].phase.Waiting? && s.pollers[name].slot
    // a check that starts after the engine's last change sees the engine as it is
    case Finish(name, healthy) =>
      name in s.pollers && s.pollers[name].phase.Checking?
      && (s.pollers[name].sinceChange ==> healthy == s.pollers[name].serving)
    case Change(name) => name in s.pollers
  }

  function Put(s: System, name: string, p: Poller): System {
    s.(pollers := s.pollers[name := p])
  }

  function Apply(s: System, step: Step): System
    requires Enabled(s, step)
  {
    match step
    case Elapse(dt) => s.(now := s.now + dt)
    case Tick(name) =>
      // a tick that finds the slot full is dropped
      var p := s.pollers[name];
      Put(s, name, p.(slot := true, nextTick := p.nextTick + s.interval))
    case Begin(name) =>
      Put(s, name, s.pollers[name].(phase := Checking, started := s.now, slot := false, sinceChange := true))
    case Finish(name, healthy) =>
      Put(s, name, s.pollers[name].(phase := Waiting, last := Some(healthy))).(
        statuses := s.statuses[name := healthy])
    case Change(name) =>
      Put(s, name, s.pollers[name].(serving := !s.pollers[name].serving, changed := s.now, sinceChange := false))
  }

  function Exec(s: System, steps: seq<Step>): Option<System> {
    if steps == [] then Some(s)
    else
      match Exec(s, steps[..|steps| - 1])
      case None => None
      case Some(t) =>
        var step := steps[|steps| - 1];
        if Enabled(t, step) then Some(Apply(t, step)) else None
  }

  // -------------------------------------------------------------- invariant

  function Max(a: real, b: real): real {
    if a < b then b else a
  }

  /** The status a poller has earned: healthy until its first check completes. */
  function Earned(p: Poller): bool {
    match p.last
    case None => true
    case Some(healthy) => healthy
  }

  /** The ticker's clockwork: the next check starts at most max(interval, timeout) after
      the latest one did. */
  ghost predicate Punctual(s: System, p: Poller) {
    && p.started <= s.now <= p.nextTick <= s.now + s.interval && p.changed <= s.now
    && (!p.slot ==> p.nextTick <= p.started + s.interval)
    && (p.phase.Checking? ==> s.now <= p.started + s.timeout)
    && (p.phase.Waiting? && p.slot ==> s.now <= p.started + Max(s.interval, s.timeout))
  }

  /** A status that is wrong about the engine is about to be corrected: the first check
      after the change has not ended, and started soon after it. */
  ghost predicate Converging(s: System, p: Poller) {
    && (!p.sinceChange ==> p.started <= p.changed)
    && (p.sinceChange && Earned(p) != p.serving ==>
          p.phase.Checking? && p.started <= p.changed + Max(s.interval, s.timeout))
  }

  ghost predicate Inv(s: System) {
    && 0.0 < s.interval && 0.0 <= s.timeout
    && s.statuses.Keys == s.pollers.Keys
    && forall name | name in s.pollers ::
         && Punctual(s, s.pollers[name]) && Converging(s, s.pollers[name])
         && s.statuses[name] == Earned(s.pollers[name])
  }

  lemma ElapseKeepsInv(s: System, dt: real)
    requires Inv(s) && Enabled(s, Elapse(dt))
    ensures Inv(Apply(s, Elapse(dt)))
  {
    var t := Apply(s, Elapse(dt));
    forall name | name in t.pollers
      ensures Punctual(t, t.pollers[name]) && Converging(t, t.pollers[name])
    {
      assert Punctual(s, s.pollers[name]) && Converging(s, s.pollers[name]) && MayElapse(s, s.pollers[name], dt);
    }
  }

  lemma OwnStepKeepsPoller(s: System, step: Step)
    requires !step.Elapse? && Enabled(s, step) && 0.0 < s.interval && 0.0 <= s.timeout
    requires Punctual(s, s.pollers[step.name]) && Converging(s, s.pollers[step.name])
    ensures var t := Apply(s, step);
            Punctual(t, t.pollers[step.name]) && Converging(t, t.pollers[step.name])
  {
  }

  /** A step of one poller leaves every other poller and status alone. */
  lemma StepKeepsInv(s: System, step: Step)
    requires Inv(s) && Enabled(s, step)
    ensures Inv(Apply(s, step))
    ensures var t := Apply(s, step);
            t.interval == s.interval && t.timeout == s.timeout && t.pollers.Keys == s.pollers.Keys
  {
    if step.Elapse? {
      ElapseKeepsInv(s, step.dt);
    } else {
      var t := Apply(s, step);
      var p := s.pollers[step.name];
      assert Punctual(s, p) && Converging(s, p);
      OwnStepKeepsPoller(s, step);
      forall name | name in t.pollers && name != step.name
        ensures Punctual(t, t.pollers[name]) && Converging(t, t.pollers[name])
      {
        assert Punctual(s, s.pollers[name]) && Converging(s, s.pollers[name]);
      }
    }
  }

  lemma {:induction false} RunKeepsInv(interval: real, timeout: real, serving: map<string, bool>, steps: seq<Step>,
      s: System)
    requires 0.0 < interval && 0.0 <= timeout && Exec(Init(interval, timeout, serving), steps) == Some(s)
    ensures Inv(s) && s.interval == interval && s.timeout == timeout && s.pollers.Keys == serving.Keys
  {
    if steps != [] {
      var before := Exec(Init(interval, timeout, serving), steps[..|steps| - 1]).value;
      RunKeepsInv(interval, timeout, serving, steps[..|steps| - 1], before);
      StepKeepsInv(before, steps[|steps| - 1]);
    }
  }

  // -------------------------------------------------------------- guarantees

  /** An engine that has been down since d is reported unhealthy at every time after
      d + max(interval, timeout) + timeout, for as long as it stays down; and one that has
      been serving since d is reported healthy at every time after that bound. */
  lemma DetectionBound(interval: real, timeout: real, serving: map<string, bool>, steps: seq<Step>, s: System,
      name: string)
    requires 0.0 < interval && 0.0 <= timeout && Exec(Init(interval, timeout, serving), steps) == Some(s)
    requires name in serving
    ensures name in s.pollers && name in s.statuses
    ensures s.pollers[name].changed + Max(interval, timeout) + timeout < s.now ==>
              s.statuses[name] == s.pollers[name].serving
  {
    RunKeepsInv(interval, timeout, serving, steps, s);
    assert Punctual(s, s.pollers[name]) && Converging(s, s.pollers[name]);
  }

  /** The answer of an engine's last completed check in a run, true before the first. */
  function LastFinish(steps: seq<Step>, name: string): bool {
    if steps == [] then true
    else
      match steps[|steps| - 1]
      case Finish(finished, healthy) =>
        if finished == name then healthy else LastFinish(steps[..|steps| - 1], name)
      case _ => LastFinish(steps[..|steps| - 1], name)
  }

  /** Whatever the other pollers do, a status is the answer of that engine's own last
      completed check in the run, or true before the first; the names never change. */
  lemma {:induction false} StatusIsOwnLastCheck(interval: real, timeout: real, serving: map<string, bool>,
                                                steps: seq<Step>, s: System, name: string)
    requires 0.0 < interval && 0.0 <= timeout && Exec(Init(interval, timeout, serving), steps) == Some(s)
    ensures name in s.statuses <==> name in serving
    ensures name in s.statuses ==>
              name in s.pollers && s.statuses[name] == LastFinish(steps, name) == Earned(s.pollers[name])
  {
    RunKeepsInv(interval, timeout, serving, steps, s);
    if steps != [] {
      var front := steps[..|steps| - 1];
      var before := Exec(Init(interval, timeout, serving), front).value;
      RunKeepsInv(interval, timeout, serving, front, before);
      StatusIsOwnLastCheck(interval, timeout, serving, front, before, name);
    }
  }

  ghost predicate Reaches(interval: real, timeout: real, serving: map<string, bool>, steps: seq<Step>, s: System) {
    0.0 < interval && 0.0 <= timeout && Exec(Init(interval, timeout, serving), steps) == Some(s)
  }

  /** A check of this engine has been completed in the run. */
  ghost predicate Checked(steps: seq<Step>, name: string) {
    exists healthy :: Finish(name, healthy) in steps
  }

  /** A poller that has not completed a check is in its first one, which began at time 0. */
  lemma {:induction false} FirstCheckIsRunning(interval: real, timeout: real, serving: map<string, bool>,
                                               steps: seq<Step>, s: System, name: string)
    requires Reaches(interval, timeout, serving, steps, s) && name in serving
    ensures name in s.pollers
    ensures Checked(steps, name) || (s.pollers[name].phase.Checking? && s.pollers[name].started == 0.0)
  {
    if steps != [] {
      var front, step := steps[..|steps| - 1], steps[|steps| - 1];
      FirstCheckIsRunning(interval, timeout, serving, front, Exec(Init(interval, timeout, serving), front).value, name);
      assert steps == front + [step];
      if healthy :| Finish(name, healthy) in front {
        assert Finish(name, healthy) in steps;
      }
    }
  }

  /** Each engine's first check starts at once: at every time after the timeout one of its
      checks has been completed. */
  lemma FirstCheckEndsByTimeout(interval: real, timeout: real, serving: map<string, bool>,
                                steps: seq<Step>, s: System, name: string)
    requires Reaches(interval, timeout, serving, steps, s) && name in serving && timeout < s.now
    ensures Checked(steps, name)
  {
    RunKeepsInv(interval, timeout, serving, steps, s);
    FirstCheckIsRunning(interval, timeout, serving, steps, s, name);
    assert Punctual(s, s.pollers[name]);
  }

  /** The run in which an engine goes down at the very start, while its first check still
      answers that it serves, and the next check takes all of its timeout. */
  function LateRun(name: string, interval: real, timeout: real): seq<Step> {
    [Change(name), Finish(name, true), Elapse(interval), Tick(name), Begin(name), Elapse(timeout)]
  }

  /** The system with one engine, whose poller is p. */
  function Single(interval: real, timeout: real, now: real, name: string, p: Poller): System {
    System(interval, timeout, now, map[name := p], map[name := true])
  }

  lemma OneMore(start: System, steps: seq<Step>, s: System, step: Step, t: System)
    requires Exec(start, steps) == Some(s) && Enabled(s, step) && Apply(s, step) == t
    ensures Exec(start, steps + [step]) == Some(t)
  {
    assert (steps + [step])[..|steps|] == steps;
  }

  /** The first half of that run: the engine is down, and no check has seen it. */
  lemma LateRunBefore(start: System, name: string, interval: real, timeout: real, p: Poller)
    requires 0.0 < interval && p == Poller(Checking, 0.0, false, interval, None, true, 0.0, true)
    requires 0.0 <= timeout && start == Single(interval, timeout, 0.0, name, p)
    ensures Exec(start, [] + [Change(name)] + [Finish(name, true)] + [Elapse(interval)]) ==
            Some(Single(interval, timeout, interval, name,
                        Poller(Waiting, 0.0, false, interval, Some(true), false, 0.0, false)))
  {
    var q := p.(serving := false, sinceChange := false);
    var r := q.(phase := Waiting, last := Some(true));
    OneMore(start, [], start, Change(name), Single(interval, timeout, 0.0, name, q));
    OneMore(start, [] + [Change(name)], Single(interval, timeout, 0.0, name, q), Finish(name, true),
            Single(interval, timeout, 0.0, name, r));
    OneMore(start, [] + [Change(name)] + [Finish(name, true)], Single(interval, timeout, 0.0, name, r),
            Elapse(interval), Single(interval, timeout, interval, name, r));
  }

  /** The second half: the check that will see it takes all of its timeout. */
  lemma LateRunAfter(start: System, steps: seq<Step>, name: string, interval: real, timeout: real, p: Poller)
    requires 0.0 <= timeout <= interval && p.phase.Waiting? && p.nextTick == interval
    requires Exec(start, steps) == Some(Single(interval, timeout, interval, name, p))
    ensures Exec(start, steps + [Tick(name)] + [Begin(name)] + [Elapse(timeout)]) ==
            Some(Single(interval, timeout, interval + timeout, name,
                        p.(phase := Checking, started := interval, nextTick := interval + interval,
                           slot := false, sinceChange := true)))
  {
    var q := p.(slot := true, nextTick := interval + interval);
    var r := q.(phase := Checking, started := interval, slot := false, sinceChange := true);
    OneMore(start, steps, Single(interval, timeout, interval, name, p), Tick(name),
            Single(interval, timeout, interval, name, q));
    OneMore(start, steps + [Tick(name)], Single(interval, timeout, interval, name, q), Begin(name),
            Single(interval, timeout, interval, name, r));
    OneMore(start, steps + [Tick(name)] + [Begin(name)], Single(interval, timeout, interval, name, r), Elapse(timeout),
            Single(interval, timeout, interval + timeout, name, r));
  }

  /** The detection bound is attained, so it cannot be improved where the interval is at
      least the timeout: an engine that is down since 0 is still reported healthy at
      max(interval, timeout) + timeout. */
  lemma BoundIsAttained(name: string, interval: real, timeout: real) returns (s: System)
    requires 0.0 < interval && 0.0 <= timeout <= interval
    ensures Reaches(interval, timeout, map[name := true], LateRun(name, interval, timeout), s)
    ensures name in s.pollers && !s.pollers[name].serving && s.pollers[name].changed == 0.0
    ensures name in s.statuses && s.statuses[name]
    ensures s.now == s.pollers[name].changed + Max(interval, timeout) + timeout
  {
    var start := Init(interval, timeout, map[name := true]);
    var p := Poller(Checking, 0.0, false, interval, None, true, 0.0, true);
    var q := Poller(Waiting, 0.0, false, interval, Some(true), false, 0.0, false);
    assert start == Single(interval, timeout, 0.0, name, p);
    LateRunBefore(start, name, interval, timeout, p);
    var front := [] + [Change(name)] + [Finish(name, true)] + [Elapse(interval)];
    LateRunAfter(start, front, name, interval, timeout, q);
    assert front + [Tick(name)] + [Begin(name)] + [Elapse(timeout)] == LateRun(name, interval, timeout);
    s := Exec(start, LateRun(name, interval, timeout)).value;
  }

  /** The poller of an engine that has not changed, and what its checks have said. */
  ghost predicate Steady(steps: seq<Step>, p: Poller, name: string, serving: bool) {
    p.serving == serving && p.sinceChange && (Checked(steps, name) ==> p.last == Some(serving))
  }

  lemma StepKeepsSteady(steps: seq<Step>, s: System, step: Step, name: string, serving: bool)
    requires Enabled(s, step) && step != Change(name) && name in s.pollers
    requires Steady(steps, s.pollers[name], name, serving)
    ensures name in Apply(s, step).pollers && Steady(steps + [step], Apply(s, step).pollers[name], name, serving)
  {
    if healthy :| Finish(name, healthy) in steps + [step] {
      assert step == Finish(name, healthy) || Finish(name, healthy) in steps;
    }
  }

  /** What is known of an engine that does not change. */
  lemma {:induction false} SteadyEngine(interval: real, timeout: real, serving: map<string, bool>,
                                        steps: seq<Step>, s: System, name: string)
    requires Reaches(interval, timeout, serving, steps, s) && name in serving && Change(name) !in steps
    ensures name in s.pollers && Steady(steps, s.pollers[name], name, serving[name])
  {
    if steps != [] {
      var front, step := steps[..|steps| - 1], steps[|steps| - 1];
      var before := Exec(Init(interval, timeout, serving), front).value;
      SteadyEngine(interval, timeout, serving, front, before, name);
      assert steps == front + [step];
      assert step in steps;
      StepKeepsSteady(front, before, step, name, serving[name]);
    }
  }

  /** So an engine that has been as it is from the start is so reported after the timeout. */
  lemma SteadyEngineIsKnown(interval: real, timeout: real, serving: map<string, bool>,
                            steps: seq<Step>, s: System, name: string)
    requires Reaches(interval, timeout, serving, steps, s) && name in serving && Change(name) !in steps
    requires timeout < s.now
    ensures name in s.statuses && s.statuses[name] == serving[name]
  {
    RunKeepsInv(interval, timeout, serving, steps, s);
    FirstCheckEndsByTimeout(interval, timeout, serving, steps, s, name);
    SteadyEngine(interval, timeout, serving, steps, s, name);
  }

  /** When the last check of an engine began in a run: at the start, or by a Begin step. */
  function LastStart(start: System, steps: seq<Step>, name: string): real
    requires Exec(start, steps).Some?
  {
    if steps == [] then start.now
    else
      var front := steps[..|steps| - 1];
      if steps[|steps| - 1] == Begin(name) then Exec(start, front).value.now else LastStart(start, front, name)
  }

  lemma {:induction false} StartedIsLastStart(interval: real, timeout: real, serving: map<string, bool>,
                                              steps: seq<Step>, s: System, name: string)
    requires Reaches(interval, timeout, serving, steps, s) && name in serving
    ensures name in s.pollers && s.pollers[name].started == LastStart(Init(interval, timeout, serving), steps, name)
  {
    if steps != [] {
      var front := steps[..|steps| - 1];
      StartedIsLastStart(interval, timeout, serving, front, Exec(Init(interval, timeout, serving), front).value, name);
    }
  }

  /** Checks of one engine begin at most max(interval, timeout) apart. */
  lemma ChecksKeepComing(interval: real, timeout: real, serving: map<string, bool>,
                         steps: seq<Step>, s: System, name: string)
    requires Reaches(interval, timeout, serving, steps, s) && name in serving
    ensures s.now <= LastStart(Init(interval, timeout, serving), steps, name) + Max(interval, timeout)
    ensures name in s.pollers && s.now <= s.pollers[name].started + Max(interval, timeout)
  {
    RunKeepsInv(interval, timeout, serving, steps, s);
    StartedIsLastStart(interval, timeout, serving, steps, s, name);
    assert Punctual(s, s.pollers[name]);
  }

  function TicksOf(name: string): Step -> bool {
    (step: Step) => step == Tick(name)
  }

  function BeginsOf(name: string): Step -> bool {
    (step: Step) => step == Begin(name)
  }

  /** The ticker has fired `ticks` times and its loop has taken `begins` of those. */
  ghost predicate OnSchedule(p: Poller, interval: real, ticks: nat, begins: nat) {
    p.nextTick == (ticks + 1) as real * interval && begins + One(p.slot) <= ticks
  }

  lemma StepKeepsSchedule(s: System, step: Step, name: string, ticks: nat, begins: nat)
    requires Enabled(s, step) && name in s.pollers && OnSchedule(s.pollers[name], s.interval, ticks, begins)
    ensures var t := Apply(s, step);
            && name in t.pollers && t.interval == s.interval
            && OnSchedule(t.pollers[name], s.interval,
                          ticks + One(step == Tick(name)), begins + One(step == Begin(name)))
  {
    if step == Tick(name) {
      OneMoreTick(ticks, s.interval);
    }
  }

  lemma OneMoreTick(n: nat, interval: real)
    ensures (n + 2) as real * interval == (n + 1) as real * interval + interval
  {
  }

  /** The ticker fires at the multiples of the interval, and each check after the first one
      takes a tick of its own. */
  lemma {:induction false} ChecksFollowTicks(interval: real, timeout: real, serving: map<string, bool>,
                                             steps: seq<Step>, s: System, name: string)
    requires Reaches(interval, timeout, serving, steps, s) && name in serving
    ensures name in s.pollers && s.interval == interval
    ensures OnSchedule(s.pollers[name], interval, Count(TicksOf(name), steps), Count(BeginsOf(name), steps))
  {
    if steps == [] {
      assert 1 as real * interval == interval;
    } else {
      var front, step := steps[..|steps| - 1], steps[|steps| - 1];
      var before := Exec(Init(interval, timeout, serving), front).value;
      ChecksFollowTicks(interval, timeout, serving, front, before, name);
      StepKeepsSchedule(before, step, name, Count(TicksOf(name), front), Count(BeginsOf(name), front));
    }
  }

  // ----------------------------------------------------- the clock is never stuck

  predicate AllAsleep(s: System) {
    forall name | name in s.pollers :: s.pollers[name].phase.Waiting? && !s.pollers[name].slot
        && s.now < s.pollers[name].nextTick
  }

  /** The least of the ticks of some sleeping pollers bounds a wait they all allow. */
  lemma {:induction false} WaitForAll(s: System, names: set<string>) returns (dt: real)
    requires AllAsleep(s) && names <= s.pollers.Keys
    ensures 0.0 < dt && forall name | name in names :: MayElapse(s, s.pollers[name], dt)
    decreases names
  {
    if names == {} {
      dt := 1.0;
    } else {
      var name :| name in names;
      var rest := WaitForAll(s, names - {name});
      var own := s.pollers[name].nextTick - s.now;
      dt := if own < rest then own else rest;
    }
  }

  /** In every reachable state some poller can act or time can pass, so the bounds above
      are about runs that go on. */
  lemma ClockNeverStuck(s: System) returns (step: Step)
    requires Inv(s)
    ensures Enabled(s, step) && !step.Change? && (step.Elapse? ==> 0.0 < step.dt)
  {
    if name :| name in s.pollers && s.pollers[name].phase.Checking? {
      step := Finish(name, s.pollers[name].serving);
    } else if name :| name in s.pollers && s.pollers[name].slot {
      step := Begin(name);
    } else if name :| name in s.pollers && s.pollers[name].nextTick == s.now {
      step := Tick(name);
    } else {
      assert forall name | name in s.pollers :: Punctual(s, s.pollers[name]);
      var dt := WaitForAll(s, s.pollers.Keys);
      step := Elapse(dt);
    }
  }
}
