/** A run with an engine whose name is empty, which the -engines flag allows: its request is
    accepted and times out, and RequestsTotal never hears of it
    (scheduler/internal/api/handlers.go:166-171). */
module EmptyName {
  import opened Common
  import opened Routing
  import opened Server
  import opened ServerGuarantees
  import P = WorkerPool

  const START: System := Init({""}, 1, 1, LeastQueue)

  const RUN: seq<Step> := [
    Arrive("", true), Advance(0), Advance(0), ReadDepth(0, ""), ReadHealth(0),
    Select(0, SystemView(false, 0.0)), Advance(0), Body(0, true), Submit(0, 0), TimeOut(0), Advance(0)]

  const READ := EngineState("", 0, true)
  const ROUTING := NewHandler.(pc := ReadStates)
  const ROUTED := ROUTING.(pc := Lookup, readings := [READ], candidates := [READ])

  lemma ExecNext(n: nat, t: System) returns (u: System)
    requires n < |RUN| && Exec(START, RUN[..n]) == Some(t) && Enabled(t, RUN[n])
    ensures u == Apply(t, RUN[n]) && Exec(START, RUN[..n + 1]) == Some(u)
  {
    assert RUN[..n + 1][..n] == RUN[..n];
    u := Apply(t, RUN[n]);
  }

  lemma ReachesRouting() returns (s: System)
    ensures Exec(START, RUN[..3]) == Some(s) && s == START.(handlers := [ROUTING])
  {
    s := ExecNext(0, START);
    s := ExecNext(1, s);
    s := ExecNext(2, s);
  }

  lemma ReadsTheDepth() returns (s: System)
    ensures Exec(START, RUN[..4]) == Some(s)
    ensures s == START.(handlers := [ROUTING.(half := Some(("", 0)))])
  {
    s := ReachesRouting();
    s := ExecNext(3, s);
  }

  lemma ReadsTheEngine() returns (s: System)
    ensures Exec(START, RUN[..5]) == Some(s) && s == START.(handlers := [ROUTING.(readings := [READ])])
  {
    s := ReadsTheDepth();
    assert IsHealthy(s, "");
    s := ExecNext(4, s);
    assert ROUTING.readings + [READ] == [READ];
  }

  /** The only engine is the only candidate, and its name is picked. */
  lemma OnlyChoice()
    ensures Candidates(LeastQueue, SystemView(false, 0.0), [READ]) == [READ]
    ensures Chosen(ROUTING.(readings := [READ]), [READ], 0) == ROUTED
  {
    assert [READ][..0] == [];
    var names := TiedNames([READ]);
    PickIsTicketEntry([READ], 0, "");
    PickIsTicketEntry([READ], 0, names[0 % |names|]);
    PickIsMinimal([READ], 0, names[0 % |names|]);
  }

  lemma Selects(s: System)
    requires s == START.(handlers := [ROUTING.(readings := [READ])])
    ensures Enabled(s, RUN[5]) && Apply(s, RUN[5]) == START.(handlers := [ROUTED], counter := 1)
  {
    OnlyChoice();
    assert HasRead([READ], "") by {
      assert [READ][0].name == "";
    }
    assert s.handlers[0].readings == [READ];
    assert Selected(s, 0, SystemView(false, 0.0)).handlers == [ROUTED];
  }

  lemma IsRouted() returns (s: System)
    ensures Exec(START, RUN[..6]) == Some(s) && s == START.(handlers := [ROUTED], counter := 1)
  {
    s := ReadsTheEngine();
    Selects(s);
    s := ExecNext(5, s);
  }

  lemma FindsThePool(s: System)
    requires s == START.(handlers := [ROUTED], counter := 1)
    ensures Enabled(s, RUN[6]) && Apply(s, RUN[6]) == START.(handlers := [ROUTED.(pc := ReadBody)], counter := 1)
  {
    assert s.handlers[0] == ROUTED && "" in s.pools;
    assert Moved(s, ROUTED) == ROUTED.(pc := ReadBody);
  }

  lemma RoutesToIt() returns (s: System)
    ensures Exec(START, RUN[..7]) == Some(s)
    ensures s == START.(handlers := [ROUTED.(pc := ReadBody)], counter := 1)
  {
    s := IsRouted();
    FindsThePool(s);
    s := ExecNext(6, s);
  }

  lemma HasBody() returns (s: System)
    ensures Exec(START, RUN[..8]) == Some(s)
    ensures s == START.(handlers := [ROUTED.(pc := SubmitJob)], counter := 1)
  {
    s := RoutesToIt();
    s := ExecNext(7, s);
  }

  /** The pool of the empty name takes the request. */
  lemma IsAccepted() returns (s: System)
    ensures Exec(START, RUN[..9]) == Some(s)
    ensures s.handlers == [ROUTED.(pc := AwaitResult)] && s.requests == map[]
    ensures "" in s.pools && s.pools[""].accepted == [0]
  {
    s := HasBody();
    assert !P.HasParked(s.pools[""]);
    s := ExecNext(8, s);
  }

  lemma TimesOut() returns (s: System)
    ensures Exec(START, RUN[..10]) == Some(s)
    ensures s.handlers == [ROUTED.(pc := Deferred, status := Timeout)] && s.requests == map[]
    ensures "" in s.pools && s.pools[""].accepted == [0]
  {
    s := IsAccepted();
    s := ExecNext(9, s);
  }

  /** The run ends with no handler in flight, one request accepted, and nothing counted. */
  lemma AcceptedAndNotCounted() returns (s: System)
    ensures RunsTo({""}, 1, 1, LeastQueue, RUN, s) && AllDone(s)
    ensures "" in s.pools && |s.pools[""].accepted| == 1
    ensures Tally(s.requests, ("", Success)) + Tally(s.requests, ("", Error)) + Tally(s.requests, ("", Timeout)) == 0
  {
    s := TimesOut();
    s := ExecNext(10, s);
    assert RUN[..11] == RUN;
    assert s.handlers == [ROUTED.(pc := Done, status := Timeout)];
  }
}
