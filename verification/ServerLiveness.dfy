/** A request that waits for its result can get it: from every reachable state the workers of
    its engine alone, whatever Predict answers, bring its result to its handler
    (scheduler/internal/api/handlers.go:224-237). */
module ServerLiveness {
  import opened Common
  import opened Server
  import opened ServerGuarantees
  import P = WorkerPool
  import G = PoolGuarantees

  // ----------------------------------------------------------- within one pool

  /** An accepted request without an answer leaves some worker able to move. */
  lemma WorkerCanMove(pool: P.State, id: P.RequestId) returns (action: P.Step)
    requires P.Inv(pool) && id in pool.accepted && pool.sent[id] == 0
    ensures P.IsWorkerStep(action) && P.Enabled(pool, action)
  {
    if G.NoWorkerStep(pool) {
      G.QuietMeansDrained(pool);
    }
    action :| P.IsWorkerStep(action) && P.Enabled(pool, action);
  }

  /** A run of workers alone. */
  ghost predicate WorkerRun(pool: P.State, actions: seq<P.Step>, pool': P.State) {
    P.Exec(pool, actions) == Some(pool') && forall i | 0 <= i < |actions| :: P.IsWorkerStep(actions[i])
  }

  lemma WorkerRunGrows(pool: P.State, actions: seq<P.Step>, pool': P.State, action: P.Step)
    requires WorkerRun(pool, actions, pool') && P.IsWorkerStep(action) && P.Enabled(pool', action)
    ensures WorkerRun(pool, actions + [action], P.Apply(pool', action))
  {
    assert (actions + [action])[..|actions|] == actions;
  }

  /** A worker's step reads no result and forgets no request. */
  lemma WorkerStepKeeps(pool: P.State, action: P.Step, id: P.RequestId)
    requires P.IsWorkerStep(action) && P.Enabled(pool, action) && id in pool.channels
    ensures var pool' := P.Apply(pool, action);
            pool'.received == pool.received && pool'.accepted == pool.accepted && id in pool'.channels
  {
  }

  /** The workers bring an accepted request its result. */
  lemma WorkersAnswer(pool: P.State, id: P.RequestId) returns (actions: seq<P.Step>, pool': P.State)
    requires P.Inv(pool) && id in pool.accepted && id !in pool.received
    ensures WorkerRun(pool, actions, pool') && id in pool'.channels && pool'.channels[id] != []
  {
    actions, pool' := [], pool;
    assert P.ChannelOk(pool, id);
    while pool'.channels[id] == []
      invariant WorkerRun(pool, actions, pool') && P.Inv(pool')
      invariant id in pool'.accepted && id !in pool'.received && id in pool'.channels
      decreases G.Remaining(pool')
    {
      assert P.ChannelOk(pool', id);
      var action := WorkerCanMove(pool', id);
      WorkerRunGrows(pool, actions, pool', action);
      WorkerStepKeeps(pool', action, id);
      P.StepKeepsInv(pool', action);
      G.WorkerStepDecreases(pool', action);
      actions, pool' := actions + [action], P.Apply(pool', action);
    }
  }

  // ---------------------------------------------------------- within the server

  function WorkersOf(engine: string, actions: seq<P.Step>): seq<Step> {
    seq(|actions|, i requires 0 <= i < |actions| => Worker(engine, actions[i]))
  }

  function WithPool(s: System, engine: string, pool: P.State): System {
    s.(pools := s.pools[engine := pool])
  }

  lemma OneMoreMove(s: System, engine: string, actions: seq<P.Step>, pool: P.State, action: P.Step)
    requires Exec(s, WorkersOf(engine, actions)) == Some(WithPool(s, engine, pool))
    requires P.IsWorkerStep(action) && P.Enabled(pool, action)
    ensures Exec(s, WorkersOf(engine, actions + [action])) == Some(WithPool(s, engine, P.Apply(pool, action)))
  {
    var before, step := WithPool(s, engine, pool), Worker(engine, action);
    var steps := WorkersOf(engine, actions + [action]);
    assert steps[..|steps| - 1] == WorkersOf(engine, actions);
    assert before.pools[engine] == pool && steps[|steps| - 1] == step;
    assert Apply(before, step) == WithPool(before, engine, P.Apply(pool, action));
    assert before.pools[engine := P.Apply(pool, action)] == s.pools[engine := P.Apply(pool, action)];
  }

  /** What the workers of one pool do, they do within the server, and nothing else moves. */
  lemma {:induction false} WorkersMoveAlone(s: System, engine: string, actions: seq<P.Step>, pool': P.State)
    requires engine in s.pools && WorkerRun(s.pools[engine], actions, pool')
    ensures Exec(s, WorkersOf(engine, actions)) == Some(WithPool(s, engine, pool'))
  {
    if actions == [] {
      assert s.pools[engine := pool'] == s.pools;
    } else {
      var front, action := actions[..|actions| - 1], actions[|actions| - 1];
      var between := P.Exec(s.pools[engine], front).value;
      WorkersMoveAlone(s, engine, front, between);
      assert front + [action] == actions;
      OneMoreMove(s, engine, front, between, action);
    }
  }

  /** What is known of the request of a waiting handler. */
  lemma WaitsInItsPool(s: System, h: nat)
    requires Inv(s) && h < |s.handlers| && s.handlers[h].pc.AwaitResult?
    ensures s.handlers[h].engine in s.pools
    ensures var pool := s.pools[s.handlers[h].engine];
            P.Inv(pool) && h in pool.accepted && h !in pool.received
  {
    assert HandlerOk(s.pools, s.capacity, h, s.handlers[h]);
    assert PoolOk(s.pools[s.handlers[h].engine], s.capacity, |s.handlers|);
  }

  lemma ReadyToTake(s: System, h: nat, pool: P.State)
    requires h < |s.handlers| && s.handlers[h].pc.AwaitResult? && h in pool.channels && pool.channels[h] != []
    ensures Enabled(WithPool(s, s.handlers[h].engine, pool), Take(h))
  {
    assert P.Enabled(pool, P.TakeResult(h));
  }

  /** A run of the pool's workers that brings the result, as a run of the server. */
  lemma BringsTheResult(s: System, h: nat, actions: seq<P.Step>, pool: P.State) returns (steps: seq<Step>, t: System)
    requires h < |s.handlers| && s.handlers[h].pc.AwaitResult? && s.handlers[h].engine in s.pools
    requires WorkerRun(s.pools[s.handlers[h].engine], actions, pool)
    requires h in pool.channels && pool.channels[h] != []
    ensures Exec(s, steps) == Some(t)
    ensures forall i | 0 <= i < |steps| :: steps[i].Worker? && steps[i].engine == s.handlers[h].engine
    ensures t.handlers == s.handlers && Enabled(t, Take(h))
  {
    var engine := s.handlers[h].engine;
    WorkersMoveAlone(s, engine, actions, pool);
    steps, t := WorkersOf(engine, actions), WithPool(s, engine, pool);
    ReadyToTake(s, h, pool);
  }

  /** From every state, some run of its engine's workers alone enables a waiting handler to
      take its result. */
  lemma AnswerCanBeTaken(s: System, h: nat) returns (steps: seq<Step>, t: System)
    requires Inv(s) && h < |s.handlers| && s.handlers[h].pc.AwaitResult?
    ensures Exec(s, steps) == Some(t)
    ensures forall i | 0 <= i < |steps| :: steps[i].Worker? && steps[i].engine == s.handlers[h].engine
    ensures t.handlers == s.handlers && Enabled(t, Take(h))
  {
    WaitsInItsPool(s, h);
    var actions, pool := WorkersAnswer(s.pools[s.handlers[h].engine], h);
    steps, t := BringsTheResult(s, h, actions, pool);
  }
}
