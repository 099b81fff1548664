/** Round robin over whole runs of the server: however the handlers interleave, the picks
    of a run hold consecutive tickets, so fairness of tickets is fairness of service
    (scheduler/internal/routing/policy.go:44-68, scheduler/internal/api/handlers.go:182-193). */
module ServerFairness {
  import opened Common
  import opened Fairness
  import opened Routing
  import opened Server

  /** What one successful selection saw, held and chose. */
  datatype PickMade = PickMade(candidates: seq<EngineState>, ticket: nat, engine: string)

  function PickOf(s: System, step: Step): seq<PickMade>
    requires Enabled(s, step)
  {
    if !step.Select? then []
    else
      var candidates := Candidates(s.policy, step.sys, s.handlers[step.h].readings);
      if candidates == [] then []
      else [PickMade(candidates, s.counter, Selected(s, step.h, step.sys).handlers[step.h].engine)]
  }

  /** All successful selections of a run, in order. */
  function PicksOf(s: System, steps: seq<Step>): seq<PickMade>
    requires Exec(s, steps).Some?
  {
    if steps == [] then []
    else PicksOf(s, steps[..|steps| - 1]) + PickOf(Exec(s, steps[..|steps| - 1]).value, steps[|steps| - 1])
  }

  /** The j-th pick of a run that starts at counter c. */
  ghost predicate PickOk(p: PickMade, c: nat, j: nat) {
    p.candidates != [] && p.ticket == (c + j) % TWO64 && IsPick(p.candidates, p.ticket, p.engine)
  }

  /** A selection takes one ticket and picks by it; no other step touches the counter. */
  lemma StepTakesTicket(s: System, step: Step)
    requires Enabled(s, step)
    ensures Apply(s, step).counter == (s.counter + |PickOf(s, step)|) % TWO64
    ensures |PickOf(s, step)| <= 1
  {
    match step
    case Select(h, sys) =>
    case Advance(h) =>
    case Submit(h, partner) =>
    case Publish(h) =>
    case _ =>
  }

  lemma StepPicks(s: System, step: Step)
    requires Enabled(s, step) && PickOf(s, step) != []
    ensures PickOk(PickOf(s, step)[0], s.counter, 0)
  {
    var candidates := Candidates(s.policy, step.sys, s.handlers[step.h].readings);
    var entry := Chosen(s.handlers[step.h], candidates, s.counter).engine;
    PickIsTicketEntry(candidates, s.counter, entry);
  }

  lemma NextTicket(c: nat, n: nat, k: nat, j: nat)
    requires n == (c + k) % TWO64
    ensures (n + j) % TWO64 == (c + (k + j)) % TWO64
  {
  }

  ghost predicate PicksOk(picks: seq<PickMade>, c: nat) {
    forall j | 0 <= j < |picks| :: PickOk(picks[j], c, j)
  }

  /** The picks so far hold the tickets from c on, and the counter is at the next one. */
  ghost predicate InStep(picks: seq<PickMade>, c: nat, counter: nat) {
    PicksOk(picks, c) && counter == (c + |picks|) % TWO64
  }

  lemma OneMorePick(picks: seq<PickMade>, more: seq<PickMade>, c: nat, counter: nat, next: nat)
    requires InStep(picks, c, counter) && |more| <= 1 && next == (counter + |more|) % TWO64
    requires more != [] ==> PickOk(more[0], counter, 0)
    ensures InStep(picks + more, c, next)
  {
    NextTicket(c, counter, |picks|, |more|);
    NextTicket(c, counter, |picks|, 0);
    forall j | 0 <= j < |picks + more| ensures PickOk((picks + more)[j], c, j) {
      if j < |picks| {
        assert PickOk(picks[j], c, j);
      }
    }
  }

  lemma StepKeepsInStep(s: System, step: Step, picks: seq<PickMade>, c: nat)
    requires Enabled(s, step) && InStep(picks, c, s.counter)
    ensures InStep(picks + PickOf(s, step), c, Apply(s, step).counter)
  {
    var more := PickOf(s, step);
    StepTakesTicket(s, step);
    assert more != [] ==> PickOk(more[0], s.counter, 0) by {
      if more != [] {
        StepPicks(s, step);
      }
    }
    OneMorePick(picks, more, c, s.counter, Apply(s, step).counter);
  }

  lemma {:induction false} RunTakesTickets(s: System, steps: seq<Step>, t: System)
    requires Exec(s, steps) == Some(t)
    ensures InStep(PicksOf(s, steps), s.counter, t.counter)
  {
    if steps == [] {
      assert PicksOf(s, steps) == [];
    } else {
      var front, step := steps[..|steps| - 1], steps[|steps| - 1];
      var before := Exec(s, front).value;
      RunTakesTickets(s, front, before);
      StepKeepsInStep(before, step, PicksOf(s, front), s.counter);
    }
  }

  function Engines(picks: seq<PickMade>): (engines: seq<string>)
    ensures |engines| == |picks| && forall i | 0 <= i < |picks| :: engines[i] == picks[i].engine
  {
    seq(|picks|, i requires 0 <= i < |picks| => picks[i].engine)
  }

  ghost predicate SameTies(picks: seq<PickMade>, names: seq<string>) {
    forall j | 0 <= j < |picks| :: picks[j].candidates != [] && TiedNames(picks[j].candidates) == names
  }

  lemma PickServes(p: PickMade, c: nat, j: nat, names: seq<string>, i: nat)
    requires PickOk(p, c, j) && TiedNames(p.candidates) == names && Distinct(names) && i < |names|
    ensures p.engine == names[i] <==> (c + j) % TWO64 % |names| == i
  {
    PickFollowsTicket(p.candidates, p.ticket, p.engine, i);
  }

  lemma PicksMatchTickets(picks: seq<PickMade>, c: nat, names: seq<string>, i: nat)
    requires PicksOk(picks, c) && SameTies(picks, names) && i < |names| && Distinct(names)
    ensures Count(Chose(names[i]), Engines(picks)) == Count(OnEntry(|names|, i), TicketsFrom(c, |picks|))
  {
    var engines, tickets := Engines(picks), TicketsFrom(c, |picks|);
    forall j | 0 <= j < |picks| ensures Chose(names[i])(engines[j]) == OnEntry(|names|, i)(tickets[j]) {
      assert PickOk(picks[j], c, j);
      PickServes(picks[j], c, j, names, i);
    }
    CountAcross(Chose(names[i]), engines, OnEntry(|names|, i), tickets);
  }

  lemma PicksAreFair(picks: seq<PickMade>, c: nat, names: seq<string>, i: nat)
    requires PicksOk(picks, c) && SameTies(picks, names) && i < |names| && Distinct(names)
    requires c + |picks| <= TWO64 || TWO64 % |names| == 0
    ensures |picks| / |names| <= Count(Chose(names[i]), Engines(picks)) <= CeilDiv(|picks|, |names|)
  {
    PicksMatchTickets(picks, c, names, i);
    BlockIsFair(c, |picks|, |names|);
  }

  /** In any run from any state, while the same n engines are tied at every selection, each
      of them is chosen floor(k/n) or ceil(k/n) times in k selections, as long as the
      counter does not wrap or n divides 2^64. */
  lemma RunIsFair(s: System, steps: seq<Step>, names: seq<string>, i: nat)
    requires Exec(s, steps).Some? && i < |names| && Distinct(names) && SameTies(PicksOf(s, steps), names)
    requires s.counter + |PicksOf(s, steps)| <= TWO64 || TWO64 % |names| == 0
    ensures var k, n := |PicksOf(s, steps)|, |names|;
            k / n <= Count(Chose(names[i]), Engines(PicksOf(s, steps))) <= CeilDiv(k, n)
  {
    RunTakesTickets(s, steps, Exec(s, steps).value);
    PicksAreFair(PicksOf(s, steps), s.counter, names, i);
  }
}
