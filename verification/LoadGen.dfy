/** The load generator (scheduler/cmd/loadgen/main.go): its producer, workers, closer and
    collector over two unbuffered channels in one-pass mode, and the summary it prints. */
module LoadGen {
  import opened Common

  datatype Response = Response(engine: string)

  /** What sendOne returns for a path. */
  datatype Outcome = Outcome(path: string, statusCode: int, failed: bool, wallMs: real, engine: string)

  /** A worker goroutine: at its receive, inside sendOne, at its send, or finished. */
  datatype Worker = Receiving | Sending(path: string) | Holding(outcome: Outcome) | Finished

  datatype State = State(
    unsent: seq<string>,          // what the producer still has to hand over
    pathsClosed: bool,
    workers: seq<Worker>,
    resultsClosed: bool,
    results: seq<Outcome>,        // the collector's slice
    collected: bool)              // the collector's range loop has ended

  /** On an unbuffered channel a send and its receive are one step. */
  datatype Step =
    | HandOver(w: nat)
    | ClosePaths
    | WorkerReturns(w: nat)                        // range over a closed channel ends
    | SendOneReturns(w: nat, outcome: Outcome)
    | Collect(w: nat)
    | CloseResults                                 // wg.Wait returned
    | StopCollecting

  function Init(paths: seq<string>, concurrency: int): State {
    State(paths, false, seq(if concurrency < 0 then 0 else concurrency, i => Receiving), false, [], false)
  }

  predicate AllFinished(s: State) {
    forall w | 0 <= w < |s.workers| :: s.workers[w].Finished?
  }

  predicate Enabled(s: State, step: Step) {
    match step
    case HandOver(w) => s.unsent != [] && w < |s.workers| && s.workers[w].Receiving?
    case ClosePaths => s.unsent == [] && !s.pathsClosed
    case WorkerReturns(w) => s.pathsClosed && w < |s.workers| && s.workers[w].Receiving?
    case SendOneReturns(w, outcome) => w < |s.workers| && s.workers[w].Sending? && outcome.path == s.workers[w].path
    case Collect(w) => !s.collected && w < |s.workers| && s.workers[w].Holding?
    case CloseResults => AllFinished(s) && !s.resultsClosed
    case StopCollecting => s.resultsClosed && !s.collected
  }

  function Apply(s: State, step: Step): State
    requires Enabled(s, step)
  {
    match step
    case HandOver(w) => s.(unsent := s.unsent[1..], workers := s.workers[w := Sending(s.unsent[0])])
    case ClosePaths => s.(pathsClosed := true)
    case WorkerReturns(w) => s.(workers := s.workers[w := Finished])
    case SendOneReturns(w, outcome) => s.(workers := s.workers[w := Holding(outcome)])
    case Collect(w) => s.(results := s.results + [s.workers[w].outcome], workers := s.workers[w := Receiving])
    case CloseResults => s.(resultsClosed := true)
    case StopCollecting => s.(collected := true)
  }

  function Exec(s: State, steps: seq<Step>): Option<State> {
    if steps == [] then Some(s)
    else
      match Exec(s, steps[..|steps| - 1])
      case None => None
      case Some(t) =>
        var step := steps[|steps| - 1];
        if Enabled(t, step) then Some(Apply(t, step)) else None
  }

  // -------------------------------------------------------------- invariant

  function OnPath(path: string): string -> bool {
    (p: string) => p == path
  }

  function ForPath(path: string): Outcome -> bool {
    (o: Outcome) => o.path == path
  }

  /** Workers that have a path in hand. */
  function Carries(path: string): Worker -> bool {
    (w: Worker) => (w.Sending? && w.path == path) || (w.Holding? && w.outcome.path == path)
  }

  /** Every occurrence of a path in the input is still unsent, in one worker's hands, or
      has one result. */
  ghost predicate Balanced(s: State, paths: seq<string>, path: string) {
    Count(OnPath(path), paths)
    == Count(OnPath(path), s.unsent) + Count(Carries(path), s.workers) + Count(ForPath(path), s.results)
  }

  ghost predicate Inv(s: State, paths: seq<string>) {
    && (forall path :: Balanced(s, paths, path))
    && (s.pathsClosed ==> s.unsent == [])
    && (s.resultsClosed ==> AllFinished(s))
    && (s.collected ==> s.resultsClosed)
    && (forall w | 0 <= w < |s.workers| && s.workers[w].Finished? :: s.pathsClosed)
  }

  lemma InitInv(paths: seq<string>, concurrency: int)
    ensures Inv(Init(paths, concurrency), paths)
  {
    var s := Init(paths, concurrency);
    forall path ensures Balanced(s, paths, path) {
      CountZero(Carries(path), s.workers);
    }
  }

  lemma StepKeepsBalance(s: State, step: Step, paths: seq<string>, path: string)
    requires Balanced(s, paths, path) && Enabled(s, step)
    ensures Balanced(Apply(s, step), paths, path)
  {
    match step
    case HandOver(w) =>
      CountDropFirst(OnPath(path), s.unsent);
      CountUpdate(Carries(path), s.workers, w, Sending(s.unsent[0]));
    case WorkerReturns(w) => CountUpdate(Carries(path), s.workers, w, Finished);
    case SendOneReturns(w, outcome) => CountUpdate(Carries(path), s.workers, w, Holding(outcome));
    case Collect(w) =>
      CountUpdate(Carries(path), s.workers, w, Receiving);
      CountAppend(ForPath(path), s.results, s.workers[w].outcome);
    case _ =>
  }

  lemma StepKeepsInv(s: State, step: Step, paths: seq<string>)
    requires Inv(s, paths) && Enabled(s, step)
    ensures Inv(Apply(s, step), paths) && |Apply(s, step).workers| == |s.workers|
  {
    forall path ensures Balanced(Apply(s, step), paths, path) {
      assert Balanced(s, paths, path);
      StepKeepsBalance(s, step, paths, path);
    }
  }

  lemma {:induction false} RunKeepsInv(paths: seq<string>, concurrency: int, steps: seq<Step>, s: State)
    requires Exec(Init(paths, concurrency), steps) == Some(s)
    ensures Inv(s, paths) && |s.workers| == if concurrency < 0 then 0 else concurrency
  {
    if steps == [] {
      InitInv(paths, concurrency);
    } else {
      var before := Exec(Init(paths, concurrency), steps[..|steps| - 1]).value;
      RunKeepsInv(paths, concurrency, steps[..|steps| - 1], before);
      StepKeepsInv(before, steps[|steps| - 1], paths);
    }
  }

  // -------------------------------------------------------------- guarantees

  /** Nobody sends on a closed channel: the producer has nothing left once pathsCh is
      closed, and no worker holds a result once resultsCh is. */
  lemma NoSendOnClosed(paths: seq<string>, concurrency: int, steps: seq<Step>, s: State)
    requires Exec(Init(paths, concurrency), steps) == Some(s)
    ensures s.pathsClosed ==> s.unsent == []
    ensures s.resultsClosed ==> forall w | 0 <= w < |s.workers| :: !s.workers[w].Holding? && !s.workers[w].Sending?
  {
    RunKeepsInv(paths, concurrency, steps, s);
  }

  /** The producer hands the paths over in order: what is unsent is always a rest of them. */
  lemma {:induction false} HandedOverInOrder(paths: seq<string>, concurrency: int, steps: seq<Step>, s: State)
    requires Exec(Init(paths, concurrency), steps) == Some(s)
    ensures |s.unsent| <= |paths| && s.unsent == paths[|paths| - |s.unsent|..]
  {
    if steps != [] {
      HandedOverInOrder(paths, concurrency, steps[..|steps| - 1],
                        Exec(Init(paths, concurrency), steps[..|steps| - 1]).value);
    }
  }

  /** The collector only appends: the results of a state stay the first ones. */
  lemma {:induction false} ResultsAreAppended(s: State, steps: seq<Step>, t: State)
    requires Exec(s, steps) == Some(t)
    ensures s.results <= t.results
  {
    if steps != [] {
      ResultsAreAppended(s, steps[..|steps| - 1], Exec(s, steps[..|steps| - 1]).value);
    }
  }

  function Effort(w: Worker): nat {
    match w
    case Receiving => 1
    case Sending(_) => 3
    case Holding(_) => 2
    case Finished => 0
  }

  /** Steps left at most. */
  function Remaining(s: State): nat {
    3 * |s.unsent| + Sum(Effort, s.workers)
    + (if s.pathsClosed then 0 else 1) + (if s.resultsClosed then 0 else 1) + (if s.collected then 0 else 1)
  }

  lemma StepDecreases(s: State, step: Step)
    requires Enabled(s, step)
    ensures Remaining(Apply(s, step)) < Remaining(s)
  {
    match step
    case HandOver(w) => SumUpdate(Effort, s.workers, w, Sending(s.unsent[0]));
    case WorkerReturns(w) => SumUpdate(Effort, s.workers, w, Finished);
    case SendOneReturns(w, outcome) => SumUpdate(Effort, s.workers, w, Holding(outcome));
    case Collect(w) => SumUpdate(Effort, s.workers, w, Receiving);
    case _ =>
  }

  /** Every run is finite. */
  lemma {:induction false} RunsEnd(s: State, steps: seq<Step>, t: State)
    requires Exec(s, steps) == Some(t)
    ensures |steps| + Remaining(t) <= Remaining(s)
  {
    if steps != [] {
      var before := Exec(s, steps[..|steps| - 1]).value;
      RunsEnd(s, steps[..|steps| - 1], before);
      StepDecreases(before, steps[|steps| - 1]);
    }
  }

  /** No deadlock: with at least one worker, some step is possible until the collector has
      stopped. */
  lemma NeverStuck(s: State, paths: seq<string>) returns (step: Step)
    requires Inv(s, paths) && 1 <= |s.workers| && !s.collected
    ensures Enabled(s, step)
  {
    if AllFinished(s) {
      step := if s.resultsClosed then StopCollecting else CloseResults;
    } else {
      var w: nat :| w < |s.workers| && !s.workers[w].Finished?;
      match s.workers[w]
      case Sending(path) => step := SendOneReturns(w, Outcome(path, 0, true, 0.0, ""));
      case Holding(_) => step := Collect(w);
      case Receiving =>
        step := if s.unsent != [] then HandOver(w) else if s.pathsClosed then WorkerReturns(w) else ClosePaths;
    }
  }

  function PathsOf(results: seq<Outcome>): seq<string> {
    seq(|results|, i requires 0 <= i < |results| => results[i].path)
  }

  /** Exactly one result per input path, repeated paths counting as often as they occur. */
  ghost predicate Complete(paths: seq<string>, results: seq<Outcome>) {
    multiset(PathsOf(results)) == multiset(paths)
  }

  lemma {:induction false} PathCount(results: seq<Outcome>, path: string)
    ensures multiset(PathsOf(results))[path] == Count(ForPath(path), results)
  {
    if results != [] {
      PathCount(results[..|results| - 1], path);
      assert PathsOf(results) == PathsOf(results[..|results| - 1]) + [results[|results| - 1].path];
    }
  }

  lemma {:induction false} InputCount(paths: seq<string>, path: string)
    ensures multiset(paths)[path] == Count(OnPath(path), paths)
  {
    if paths != [] {
      InputCount(paths[..|paths| - 1], path);
      assert paths == paths[..|paths| - 1] + [paths[|paths| - 1]];
    }
  }

  /** With at least one worker the collector ends with exactly one result per input path;
      with none it ends with no result at all.  So it is complete exactly when there is a
      worker or nothing to send. */
  lemma CollectsEverythingIff(paths: seq<string>, concurrency: int, steps: seq<Step>, s: State)
    requires Exec(Init(paths, concurrency), steps) == Some(s) && s.collected
    ensures Complete(paths, s.results) <==> 1 <= concurrency || paths == []
    ensures concurrency < 1 ==> s.results == []
  {
    RunKeepsInv(paths, concurrency, steps, s);
    if 1 <= concurrency {
      assert s.workers[0].Finished? && s.unsent == [];
      forall path ensures multiset(PathsOf(s.results))[path] == multiset(paths)[path] {
        assert Balanced(s, paths, path);
        CountZero(Carries(path), s.workers);
        PathCount(s.results, path);
        InputCount(paths, path);
      }
    } else {
      NoWorkersNoResults(paths, concurrency, steps, s);
      if paths != [] {
        assert paths[0] in multiset(paths);
      }
    }
  }

  lemma {:induction false} NoWorkersNoResults(paths: seq<string>, concurrency: int, steps: seq<Step>, s: State)
    requires Exec(Init(paths, concurrency), steps) == Some(s) && concurrency < 1
    ensures s.workers == [] && s.results == []
  {
    if steps != [] {
      NoWorkersNoResults(paths, concurrency, steps[..|steps| - 1],
                         Exec(Init(paths, concurrency), steps[..|steps| - 1]).value);
    }
  }

  /** It can happen: without a worker the closer and the collector stop at once, and every
      path is lost. */
  lemma NoWorkerLosesPaths(paths: seq<string>, concurrency: int) returns (steps: seq<Step>, s: State)
    requires concurrency < 1 && paths != []
    ensures Exec(Init(paths, concurrency), steps) == Some(s) && s.collected && !Complete(paths, s.results)
  {
    steps := [CloseResults, StopCollecting];
    var closed := Apply(Init(paths, concurrency), CloseResults);
    s := Apply(closed, StopCollecting);
    assert steps[..1][..0] == [];
    assert Exec(Init(paths, concurrency), steps[..1]) == Some(closed);
    CollectsEverythingIff(paths, concurrency, steps, s);
  }

  // ----------------------------------------------------------------- summary

  function Failed(o: Outcome): bool {
    o.failed
  }

  function Succeeded(o: Outcome): bool {
    !o.failed
  }

  /** Outcomes in a group that have one key. */
  function Keyed<K(==)>(inGroup: Outcome -> bool, key: Outcome -> K, k: K): Outcome -> bool {
    (o: Outcome) => inGroup(o) && key(o) == k
  }

  function EngineOf(o: Outcome): string {
    o.engine
  }

  function CodeOf(o: Outcome): int {
    o.statusCode
  }

  function Walls(outcomes: seq<Outcome>): seq<real> {
    seq(|outcomes|, i requires 0 <= i < |outcomes| => outcomes[i].wallMs)
  }

  datatype Summary = Summary(succeeded: nat, failed: nat, wallTimes: seq<real>,
                             engineCounts: map<string, nat>, statusCounts: map<int, nat>)

  /** `counts` holds, for each key that occurs in the group, how often it does. */
  ghost predicate Counts<K(!new)>(results: seq<Outcome>, inGroup: Outcome -> bool, key: Outcome -> K,
                                 counts: map<K, nat>) {
    && (forall k :: Tally(counts, k) == Count(Keyed(inGroup, key, k), results))
    && (forall k | k in counts :: 0 < counts[k])
  }

  lemma CountsNothing<K(!new)>(inGroup: Outcome -> bool, key: Outcome -> K)
    ensures Counts([], inGroup, key, map[])
  {
  }

  lemma CountsOneMore<K(!new)>(results: seq<Outcome>, inGroup: Outcome -> bool, key: Outcome -> K,
                               counts: map<K, nat>, r: Outcome)
    requires Counts(results, inGroup, key, counts)
    ensures Counts(results + [r], inGroup, key,
                   if inGroup(r) then counts[key(r) := Tally(counts, key(r)) + 1] else counts)
  {
    var counts' := if inGroup(r) then counts[key(r) := Tally(counts, key(r)) + 1] else counts;
    forall k ensures Tally(counts', k) == Count(Keyed(inGroup, key, k), results + [r]) {
      CountAppend(Keyed(inGroup, key, k), results, r);
    }
  }

  /** `s` is the summary of `results`. */
  ghost predicate Summarizes(s: Summary, results: seq<Outcome>) {
    && s.succeeded == Count(Succeeded, results) && s.failed == Count(Failed, results)
    && s.wallTimes == Walls(Filter(Succeeded, results))
    && Counts(results, Succeeded, EngineOf, s.engineCounts)
    && Counts(results, Failed, CodeOf, s.statusCounts)
  }

  lemma OneMoreFailure(s: Summary, results: seq<Outcome>, r: Outcome)
    requires Summarizes(s, results) && r.failed
    ensures Summarizes(s.(failed := s.failed + 1,
                          statusCounts := s.statusCounts[r.statusCode := Tally(s.statusCounts, r.statusCode) + 1]),
                              results + [r])
  {
    CountsOneMore(results, Succeeded, EngineOf, s.engineCounts, r);
    CountsOneMore(results, Failed, CodeOf, s.statusCounts, r);
    CountAppend(Succeeded, results, r);
    CountAppend(Failed, results, r);
    FilterAppend(Succeeded, results, r);
  }

  lemma OneMoreSuccess(s: Summary, results: seq<Outcome>, r: Outcome)
    requires Summarizes(s, results) && !r.failed
    ensures Summarizes(s.(succeeded := s.succeeded + 1, wallTimes := s.wallTimes + [r.wallMs],
                          engineCounts := s.engineCounts[r.engine := Tally(s.engineCounts, r.engine) + 1]),
                              results + [r])
  {
    CountsOneMore(results, Succeeded, EngineOf, s.engineCounts, r);
    CountsOneMore(results, Failed, CodeOf, s.statusCounts, r);
    CountAppend(Succeeded, results, r);
    CountAppend(Failed, results, r);
    FilterAppend(Succeeded, results, r);
  }

  /** The aggregation loop of main. */
  method Aggregate(results: seq<Outcome>) returns (s: Summary)
    ensures Summarizes(s, results)
  {
    var successCount, failCount := 0, 0;
    var wallTimes: seq<real> := [];
    var engineCounts: map<string, nat> := map[];
    var statusCounts: map<int, nat> := map[];
    CountsNothing(Succeeded, EngineOf);
    CountsNothing(Failed, CodeOf);
    for i := 0 to |results|
      invariant Summarizes(Summary(successCount, failCount, wallTimes, engineCounts, statusCounts), results[..i])
    {
      var r := results[i];
      assert results[..i + 1] == results[..i] + [r];
      if r.failed {
        OneMoreFailure(Summary(successCount, failCount, wallTimes, engineCounts, statusCounts), results[..i], r);
        failCount := failCount + 1;
        statusCounts := statusCounts[r.statusCode := Tally(statusCounts, r.statusCode) + 1];
        continue;
      }
      OneMoreSuccess(Summary(successCount, failCount, wallTimes, engineCounts, statusCounts), results[..i], r);
      successCount := successCount + 1;
      wallTimes := wallTimes + [r.wallMs];
      engineCounts := engineCounts[r.engine := Tally(engineCounts, r.engine) + 1];
    }
    assert results[..|results|] == results;
    s := Summary(successCount, failCount, wallTimes, engineCounts, statusCounts);
  }

  /** Successes and failures make up the total. */
  lemma {:induction false} SucceededPlusFailed(results: seq<Outcome>)
    ensures Count(Succeeded, results) + Count(Failed, results) == |results|
  {
    if results != [] {
      SucceededPlusFailed(results[..|results| - 1]);
    }
  }

  function CountsOver<K>(m: map<K, nat>): K -> nat {
    (k: K) => Tally(m, k)
  }

  /** Outcomes of a group whose key is listed. */
  function KeyedAmong<K(==)>(inGroup: Outcome -> bool, key: Outcome -> K, keys: seq<K>): Outcome -> bool {
    (o: Outcome) => inGroup(o) && key(o) in keys
  }

  lemma {:induction false} SumOfKeyed<K(!new)>(results: seq<Outcome>, inGroup: Outcome -> bool, key: Outcome -> K,
                                         counts: map<K, nat>, keys: seq<K>)
    requires Counts(results, inGroup, key, counts) && Distinct(keys)
    ensures Sum(CountsOver(counts), keys) == Count(KeyedAmong(inGroup, key, keys), results)
  {
    if keys == [] {
      CountZero(KeyedAmong(inGroup, key, keys), results);
    } else {
      var rest, last := keys[..|keys| - 1], keys[|keys| - 1];
      SumOfKeyed(results, inGroup, key, counts, rest);
      assert keys == rest + [last];
      CountSplit3(KeyedAmong(inGroup, key, keys), KeyedAmong(inGroup, key, rest), Keyed(inGroup, key, last), Never,
          results);
      CountZero(Never, results);
    }
  }

  /** Summed over any list that includes its keys, a map of counts makes up its group. */
  lemma CountsMakeUpGroup<K(!new)>(results: seq<Outcome>, inGroup: Outcome -> bool, key: Outcome -> K,
                                   counts: map<K, nat>, keys: seq<K>)
    requires Counts(results, inGroup, key, counts)
    requires Distinct(keys) && forall k | k in counts :: k in keys
    ensures Sum(CountsOver(counts), keys) == Count(inGroup, results)
  {
    SumOfKeyed(results, inGroup, key, counts, keys);
    forall i | 0 <= i < |results| ensures KeyedAmong(inGroup, key, keys)(results[i]) == inGroup(results[i]) {
      CountZero(Keyed(inGroup, key, key(results[i])), results);
      assert Tally(counts, key(results[i])) == Count(Keyed(inGroup, key, key(results[i])), results);
    }
    CountEqual(KeyedAmong(inGroup, key, keys), inGroup, results);
  }

  /** The wall times are those of the outcomes without failure, in order. */
  ghost predicate WallsOfSuccesses(results: seq<Outcome>, wallTimes: seq<real>) {
    exists kept: seq<nat> ::
      && |kept| == |wallTimes|
      && (forall i, j | 0 <= i < j < |kept| :: kept[i] < kept[j])
      && (forall i | 0 <= i < |kept| ::
            kept[i] < |results| && !results[kept[i]].failed && wallTimes[i] == results[kept[i]].wallMs)
      && (forall n | 0 <= n < |results| && !results[n].failed :: n in kept)
  }

  lemma WallsAre(results: seq<Outcome>)
    ensures WallsOfSuccesses(results, Walls(Filter(Succeeded, results)))
  {
    var kept := FilterSelects(Succeeded, results);
    assert |kept| == |Walls(Filter(Succeeded, results))|;
  }

  /** The printed summary adds up: succeeded + failed = total, the engine counts make up
      the successes and the status counts the failures, in whatever order they are listed. */
  method Summarize(results: seq<Outcome>, ghost engines: seq<string>, ghost codes: seq<int>) returns (s: Summary)
    ensures s.succeeded + s.failed == |results| && |s.wallTimes| == s.succeeded
    ensures Distinct(engines) && (forall e | e in s.engineCounts :: e in engines) ==>
              Sum(CountsOver(s.engineCounts), engines) == s.succeeded
    ensures Distinct(codes) && (forall c | c in s.statusCounts :: c in codes) ==>
              Sum(CountsOver(s.statusCounts), codes) == s.failed
    ensures s.failed == Count((o: Outcome) => o.failed, results)
    ensures forall e :: Tally(s.engineCounts, e) == Count((o: Outcome) => !o.failed && o.engine == e, results)
    ensures forall c :: Tally(s.statusCounts, c) == Count((o: Outcome) => o.failed && o.statusCode == c, results)
    ensures WallsOfSuccesses(results, s.wallTimes)
  {
    s := Aggregate(results);
    CountEqual(Failed, (o: Outcome) => o.failed, results);
    forall e ensures Tally(s.engineCounts, e) == Count((o: Outcome) => !o.failed && o.engine == e, results) {
      CountEqual(Keyed(Succeeded, EngineOf, e), (o: Outcome) => !o.failed && o.engine == e, results);
    }
    forall c ensures Tally(s.statusCounts, c) == Count((o: Outcome) => o.failed && o.statusCode == c, results) {
      CountEqual(Keyed(Failed, CodeOf, c), (o: Outcome) => o.failed && o.statusCode == c, results);
    }
    WallsAre(results);
    SucceededPlusFailed(results);
    FilterCount(Succeeded, Succeeded, results);
    if Distinct(engines) && forall e | e in s.engineCounts :: e in engines {
      CountsMakeUpGroup(results, Succeeded, EngineOf, s.engineCounts, engines);
    }
    if Distinct(codes) && forall c | c in s.statusCounts :: c in codes {
      CountsMakeUpGroup(results, Failed, CodeOf, s.statusCounts, codes);
    }
  }

  // -------------------------------------------------------------- percentile

  ghost predicate Ascending(s: seq<real>) {
    forall i, j | 0 <= i < j < |s| :: s[i] <= s[j]
  }

  /** The index that percentile takes. */
  function PercentileIndex(n: nat, p: real): int {
    (p / 100.0 * (n as int - 1) as real).Floor
  }

  lemma PercentileInRange(n: nat, p: real)
    requires 0 < n && 0.0 <= p <= 100.0
    ensures 0 <= PercentileIndex(n, p) < n
    ensures p == 0.0 ==> PercentileIndex(n, p) == 0
    ensures p == 100.0 ==> PercentileIndex(n, p) == n - 1
    ensures PercentileIndex(n, p) as real <= p / 100.0 * (n - 1) as real < (PercentileIndex(n, p) + 1) as real
  {
    var f, m := p / 100.0, (n - 1) as real;
    assert 0.0 <= f <= 1.0;
    assert 0.0 <= f * m <= m;
  }

  function Percentile(sorted: seq<real>, p: real): real
    requires 0.0 <= p <= 100.0
  {
    if sorted == [] then 0.0
    else
      PercentileInRange(|sorted|, p);
      sorted[PercentileIndex(|sorted|, p)]
  }

  /** A percentile is the element at the greatest index up to p/100 of the way, and 0 of no
      data. */
  lemma PercentileIs(sorted: seq<real>, p: real, k: nat)
    requires 0.0 <= p <= 100.0 && k < |sorted|
    requires k as real <= p / 100.0 * (|sorted| - 1) as real < (k + 1) as real
    ensures Percentile(sorted, p) == sorted[k] && Percentile([], p) == 0.0
  {
    PercentileInRange(|sorted|, p);
  }

  /** On ascending data percentiles are monotone in p and end at the least and the greatest
      value, so p50 <= p95 <= p99 <= max. */
  lemma PercentilesAscend(sorted: seq<real>, p: real, q: real)
    requires Ascending(sorted) && sorted != [] && 0.0 <= p <= q <= 100.0
    ensures sorted[0] <= Percentile(sorted, p) <= Percentile(sorted, q) <= sorted[|sorted| - 1]
    ensures Percentile(sorted, 0.0) == sorted[0] && Percentile(sorted, 100.0) == sorted[|sorted| - 1]
  {
    PercentileInRange(|sorted|, p);
    PercentileInRange(|sorted|, q);
    PercentileInRange(|sorted|, 0.0);
    PercentileInRange(|sorted|, 100.0);
    IndexAscends(|sorted|, p, q);
  }

  lemma IndexAscends(n: nat, p: real, q: real)
    requires 0 < n && p <= q
    ensures PercentileIndex(n, p) <= PercentileIndex(n, q)
  {
    var f, g, m := p / 100.0, q / 100.0, (n - 1) as real;
    assert f <= g;
    assert f * m <= g * m;
  }
}
