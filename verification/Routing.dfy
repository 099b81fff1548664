/** Engine selection (scheduler/internal/routing/policy.go): the tie breaker, the two
    filters and the two policies, proved against a specification that looks at the
    engines as an unordered collection. */
module Routing {
  import opened Common

  datatype EngineState = EngineState(name: string, depth: int, healthy: bool)

  /** The part of the system state that routing reads. */
  datatype SystemView = SystemView(valid: bool, maxTempC: real)

  /** Go's uint64. */
  type uint64 = x: nat | x < TWO64

  // ---------------------------------------------------------- specification

  predicate IsMinDepth(engines: seq<EngineState>, d: int) {
    && (exists e :: e in engines && e.depth == d)
    && (forall e | e in engines :: d <= e.depth)
  }

  function AtDepth(d: int): EngineState -> bool {
    (e: EngineState) => e.depth == d
  }

  /** Engines at depth d whose name is before `name`, and those not after it. */
  function Before(d: int, name: string): EngineState -> bool {
    (e: EngineState) => e.depth == d && Less(e.name, name)
  }

  function UpTo(d: int, name: string): EngineState -> bool {
    (e: EngineState) => e.depth == d && !Less(name, e.name)
  }

  /** `name` has rank ticket mod n among the n engines of least depth, in name order.
      The definition counts; it does not mention any order of `engines`. */
  ghost predicate IsPick(engines: seq<EngineState>, ticket: nat, name: string) {
    exists d ::
      && IsMinDepth(engines, d)
      && 0 < Count(AtDepth(d), engines)
      && Count(Before(d, name), engines) <= ticket % Count(AtDepth(d), engines) < Count(UpTo(d, name), engines)
  }

  /** At most one name is picked. */
  lemma PickUnique(engines: seq<EngineState>, ticket: nat, a: string, b: string)
    requires IsPick(engines, ticket, a) && IsPick(engines, ticket, b)
    ensures a == b
  {
    LessTotal(a, b);
    if Less(a, b) {
      NotBothPicked(engines, ticket, a, b);
    } else if Less(b, a) {
      NotBothPicked(engines, ticket, b, a);
    }
  }

  lemma NotBothPicked(engines: seq<EngineState>, ticket: nat, a: string, b: string)
    requires Less(a, b) && IsPick(engines, ticket, a)
    ensures !IsPick(engines, ticket, b)
  {
    var d :| IsMinDepth(engines, d)
             && Count(Before(d, a), engines) <= ticket % Count(AtDepth(d), engines) < Count(UpTo(d, a), engines);
    forall i | 0 <= i < |engines| ensures UpTo(d, a)(engines[i]) ==> Before(d, b)(engines[i]) {
      LessTotal(a, engines[i].name);
      if Less(engines[i].name, a) {
        LessTransitive(engines[i].name, a, b);
      }
    }
    CountImplies(UpTo(d, a), Before(d, b), engines);
  }

  /** A picked name belongs to an engine of least depth. */
  lemma PickIsMinimal(engines: seq<EngineState>, ticket: nat, name: string)
    requires IsPick(engines, ticket, name)
    ensures exists e :: e in engines && e.name == name && forall f | f in engines :: e.depth <= f.depth
  {
    var d :| IsMinDepth(engines, d) && Count(Before(d, name), engines) < Count(UpTo(d, name), engines);
    if forall i | 0 <= i < |engines| :: UpTo(d, name)(engines[i]) ==> Before(d, name)(engines[i]) {
      CountImplies(UpTo(d, name), Before(d, name), engines);
    }
    var i :| 0 <= i < |engines| && UpTo(d, name)(engines[i]) && !Before(d, name)(engines[i]);
    LessTotal(name, engines[i].name);
    assert engines[i] in engines;
  }

  /** The pick does not depend on the order in which the engines are listed, such as
      Go's map iteration order. */
  lemma PickIgnoresOrder(engines: seq<EngineState>, listed: seq<EngineState>, ticket: nat, name: string)
    requires multiset(engines) == multiset(listed)
    ensures IsPick(engines, ticket, name) <==> IsPick(listed, ticket, name)
  {
    forall d ensures Count(AtDepth(d), engines) == Count(AtDepth(d), listed)
    {
      CountPermutation(AtDepth(d), engines, listed);
    }
    forall d ensures Count(Before(d, name), engines) == Count(Before(d, name), listed)
    {
      CountPermutation(Before(d, name), engines, listed);
    }
    forall d ensures Count(UpTo(d, name), engines) == Count(UpTo(d, name), listed)
    {
      CountPermutation(UpTo(d, name), engines, listed);
    }
    forall d ensures IsMinDepth(engines, d) == IsMinDepth(listed, d) {
      SameMinDepth(engines, listed, d);
    }
  }

  // -------------------------------------------------------- sorting by name

  predicate SortedByName(s: seq<EngineState>) {
    forall i, j | 0 <= i < j < |s| :: !Less(s[j].name, s[i].name)
  }

  function Insert(e: EngineState, s: seq<EngineState>): (r: seq<EngineState>) {
    if s == [] || Less(e.name, s[0].name) then [e] + s else [s[0]] + Insert(e, s[1..])
  }

  function SortByName(s: seq<EngineState>): (r: seq<EngineState>) {
    if s == [] then [] else Insert(s[0], SortByName(s[1..]))
  }

  lemma {:induction false} InsertSorts(e: EngineState, s: seq<EngineState>)
    requires SortedByName(s)
    ensures SortedByName(Insert(e, s)) && multiset(Insert(e, s)) == multiset(s) + multiset{e}
  {
    if s == [] {
    } else if Less(e.name, s[0].name) {
      forall j | 0 <= j < |s| ensures !Less(s[j].name, e.name) {
        LessAsymmetric(e.name, s[0].name);
        if 0 < j && Less(s[j].name, e.name) {
          LessTransitive(s[j].name, e.name, s[0].name);
        }
      }
    } else {
      InsertSorts(e, s[1..]);
      var r := Insert(e, s[1..]);
      assert s == [s[0]] + s[1..];
      forall j | 0 <= j < |r| ensures !Less(r[j].name, s[0].name) {
        assert r[j] in multiset(r);
        assert r[j] in multiset(s[1..]) || r[j] == e;
        if r[j] != e {
          var k :| 0 <= k < |s[1..]| && s[1..][k] == r[j];
          assert s[k + 1] == r[j];
        }
      }
    }
  }

  lemma {:induction false} SortSorts(s: seq<EngineState>)
    ensures SortedByName(SortByName(s)) && multiset(SortByName(s)) == multiset(s)
  {
    if s != [] {
      SortSorts(s[1..]);
      InsertSorts(s[0], SortByName(s[1..]));
      assert s == [s[0]] + s[1..];
    }
  }

  /** The library sort of a copy by name: some arrangement in name order.  Nothing is
      promised, or needed, about the order of entries with equal names. */
  method SortSlice(engines: seq<EngineState>) returns (sorted: seq<EngineState>)
    ensures SortedByName(sorted) && multiset(sorted) == multiset(engines)
  {
    SortSorts(engines);
    sorted := SortByName(engines);
  }

  // ------------------------------------------------------- ranks in a sorted list

  lemma CountAtMost<T>(p: T -> bool, s: seq<T>, k: nat)
    requires k <= |s| && forall i | k <= i < |s| :: !p(s[i])
    ensures Count(p, s) <= k
  {
    assert s == s[..k] + s[k..];
    CountConcat(p, s[..k], s[k..]);
    CountZero(p, s[k..]);
  }

  lemma CountAtLeast<T>(p: T -> bool, s: seq<T>, k: nat)
    requires k <= |s| && forall i | 0 <= i < k :: p(s[i])
    ensures k <= Count(p, s)
  {
    assert s == s[..k] + s[k..];
    CountConcat(p, s[..k], s[k..]);
    CountAll(p, s[..k]);
  }

  lemma {:induction false} CountAll<T>(p: T -> bool, s: seq<T>)
    requires forall i | 0 <= i < |s| :: p(s[i])
    ensures Count(p, s) == |s|
  {
    if s != [] {
      CountAll(p, s[..|s| - 1]);
    }
  }

  lemma {:induction false} FilterSorted(p: EngineState -> bool, s: seq<EngineState>)
    requires SortedByName(s)
    ensures SortedByName(Filter(p, s))
  {
    if s != [] {
      var s', last := s[..|s| - 1], s[|s| - 1];
      FilterSorted(p, s');
      forall i | 0 <= i < |Filter(p, s')| ensures !Less(last.name, Filter(p, s')[i].name) {
        FilterMembers(p, s', Filter(p, s')[i]);
      }
    }
  }

  lemma InNameOrder(s: seq<EngineState>, i: nat, j: nat)
    requires SortedByName(s) && i <= j < |s|
    ensures !Less(s[j].name, s[i].name)
  {
    LessAsymmetric(s[j].name, s[i].name);
  }

  /** Among engines of one depth in name order, entry k has rank k. */
  lemma RankInSorted(d: int, tied: seq<EngineState>, k: nat)
    requires SortedByName(tied) && k < |tied| && forall i | 0 <= i < |tied| :: tied[i].depth == d
    ensures Count(Before(d, tied[k].name), tied) <= k < Count(UpTo(d, tied[k].name), tied)
  {
    var name := tied[k].name;
    assert k <= |tied| && forall i | k <= i < |tied| :: !Before(d, name)(tied[i]) by {
      forall i | k <= i < |tied| ensures !Before(d, name)(tied[i]) {
        InNameOrder(tied, k, i);
      }
    }
    CountAtMost(Before(d, name), tied, k);
    assert forall i | 0 <= i < k + 1 :: UpTo(d, name)(tied[i]) by {
      forall i | 0 <= i < k + 1 ensures UpTo(d, name)(tied[i]) {
        InNameOrder(tied, i, k);
      }
    }
    CountAtLeast(UpTo(d, name), tied, k + 1);
  }

  /** Sorting and filtering keep the three counts that define a pick. */
  lemma SameCounts(engines: seq<EngineState>, sorted: seq<EngineState>, d: int, name: string)
    requires multiset(sorted) == multiset(engines)
    ensures var tied := Filter(AtDepth(d), sorted);
            && |tied| == Count(AtDepth(d), engines)
            && Count(Before(d, name), tied) == Count(Before(d, name), engines)
            && Count(UpTo(d, name), tied) == Count(UpTo(d, name), engines)
  {
    FilterCount(AtDepth(d), Before(d, name), sorted);
    FilterCount(AtDepth(d), UpTo(d, name), sorted);
    CountPermutation(AtDepth(d), sorted, engines);
    CountPermutation(Before(d, name), sorted, engines);
    CountPermutation(UpTo(d, name), sorted, engines);
  }

  // ------------------------------------------------------------ tieBreaker

  class TieBreaker {
    var counter: uint64

    constructor ()
      ensures counter == 0
    {
      counter := 0;
    }

    /** pick: sort a copy, find the least depth, keep the tied engines, and take the one
        that the next ticket selects. */
    method Pick(engines: seq<EngineState>) returns (r: Result<string>)
      modifies this
      ensures engines == [] ==> r.Err? && counter == old(counter)
      ensures engines != [] ==> counter == (old(counter) + 1) % TWO64
      ensures engines != [] ==> r.Ok? && IsPick(engines, old(counter), r.value)
    {
      if |engines| == 0 {
        return Err("no engines available");
      }
      var sorted := SortSlice(engines);
      assert |multiset(sorted)| == |multiset(engines)|;
      var minDepth := LeastDepth(sorted);
      var tied := KeepDepth(sorted, minDepth);
      PickedEntry(engines, sorted, minDepth, tied, counter);
      TicketIsOldCounter(counter);
      counter := (counter + 1) % TWO64;
      var idx := (counter + TWO64 - 1) % TWO64 % |tied|;
      return Ok(tied[idx].name);
    }
  }

  /** The first loop of pick. */
  method LeastDepth(sorted: seq<EngineState>) returns (minDepth: int)
    requires sorted != []
    ensures IsMinDepth(sorted, minDepth)
  {
    minDepth := sorted[0].depth;
    ghost var at := 0;
    for i := 1 to |sorted|
      invariant 0 <= at < i && sorted[at].depth == minDepth
      invariant forall j | 0 <= j < i :: minDepth <= sorted[j].depth
    {
      if sorted[i].depth < minDepth {
        minDepth := sorted[i].depth;
        at := i;
      }
    }
    assert sorted[at] in sorted;
  }

  /** The second loop of pick. */
  method KeepDepth(sorted: seq<EngineState>, minDepth: int) returns (tied: seq<EngineState>)
    ensures tied == Filter(AtDepth(minDepth), sorted)
  {
    tied := [];
    for i := 0 to |sorted|
      invariant tied == Filter(AtDepth(minDepth), sorted[..i])
    {
      assert sorted[..i + 1] == sorted[..i] + [sorted[i]];
      FilterAppend(AtDepth(minDepth), sorted[..i], sorted[i]);
      if sorted[i].depth == minDepth {
        tied := tied + [sorted[i]];
      }
    }
    assert sorted[..|sorted|] == sorted;
  }

  /** counter.Add(1) - 1 in uint64 arithmetic is the counter before the addition. */
  lemma TicketIsOldCounter(c: uint64)
    ensures ((c + 1) % TWO64 + TWO64 - 1) % TWO64 == c
  {
  }

  lemma PickedEntry(engines: seq<EngineState>, sorted: seq<EngineState>, d: int, tied: seq<EngineState>, ticket: nat)
    requires SortedByName(sorted) && multiset(sorted) == multiset(engines)
    requires IsMinDepth(sorted, d) && tied == Filter(AtDepth(d), sorted)
    ensures tied != [] && IsPick(engines, ticket, tied[ticket % |tied|].name)
  {
    var e :| e in sorted && e.depth == d;
    FilterMembers(AtDepth(d), sorted, e);
    var k := ticket % |tied|;
    FilterSorted(AtDepth(d), sorted);
    forall i | 0 <= i < |tied| ensures tied[i].depth == d {
      FilterMembers(AtDepth(d), sorted, tied[i]);
    }
    RankInSorted(d, tied, k);
    SameCounts(engines, sorted, d, tied[k].name);
    SameMinDepth(engines, sorted, d);
  }

  lemma SameMinDepth(engines: seq<EngineState>, listed: seq<EngineState>, d: int)
    requires multiset(engines) == multiset(listed)
    ensures IsMinDepth(engines, d) == IsMinDepth(listed, d)
  {
    assert forall e :: e in engines <==> e in multiset(engines);
    assert forall e :: e in listed <==> e in multiset(listed);
  }

  /** Some name is picked whenever there is an engine. */
  lemma PickExists(engines: seq<EngineState>, ticket: nat) returns (name: string)
    requires engines != []
    ensures IsPick(engines, ticket, name)
  {
    var d := LeastOf(engines);
    LeastIsMin(engines);
    SortSorts(engines);
    SameMinDepth(engines, SortByName(engines), d);
    var tied := Filter(AtDepth(d), SortByName(engines));
    PickedEntry(engines, SortByName(engines), d, tied, ticket);
    name := tied[ticket % |tied|].name;
  }

  function LeastOf(engines: seq<EngineState>): int
    requires engines != []
  {
    if |engines| == 1 then engines[0].depth
    else
      var rest := LeastOf(engines[1..]);
      if engines[0].depth < rest then engines[0].depth else rest
  }

  lemma {:induction false} LeastIsMin(engines: seq<EngineState>)
    requires engines != []
    ensures IsMinDepth(engines, LeastOf(engines))
  {
    assert engines[0] in engines;
    if 1 < |engines| {
      LeastIsMin(engines[1..]);
      assert engines == [engines[0]] + engines[1..];
    }
  }

  /** The names tied at the least depth, ascending. */
  function TiedNames(engines: seq<EngineState>): seq<string>
    requires engines != []
  {
    Names(Filter(AtDepth(LeastOf(engines)), SortByName(engines)))
  }

  function Names(engines: seq<EngineState>): (names: seq<string>)
    ensures |names| == |engines| && forall i | 0 <= i < |engines| :: names[i] == engines[i].name
  {
    seq(|engines|, i requires 0 <= i < |engines| => engines[i].name)
  }

  /** The picked name is entry ticket mod n of the n tied names in ascending order. */
  lemma PickIsTicketEntry(engines: seq<EngineState>, ticket: nat, name: string)
    requires engines != []
    ensures var names := TiedNames(engines);
            names != [] && (IsPick(engines, ticket, name) <==> name == names[ticket % |names|])
  {
    var d := LeastOf(engines);
    LeastIsMin(engines);
    SortSorts(engines);
    SameMinDepth(engines, SortByName(engines), d);
    var tied := Filter(AtDepth(d), SortByName(engines));
    PickedEntry(engines, SortByName(engines), d, tied, ticket);
    var entry := tied[ticket % |tied|].name;
    if IsPick(engines, ticket, name) {
      PickUnique(engines, ticket, name, entry);
    }
  }

  /** The tied names are those of the least-depth engines, in ascending order. */
  lemma TiedNamesAscend(engines: seq<EngineState>)
    requires engines != []
    ensures var names := TiedNames(engines);
            && (forall i, j | 0 <= i < j < |names| :: !Less(names[j], names[i]))
            && (forall name :: name in names
                  <==> exists e :: e in engines && e.name == name && forall f | f in engines :: e.depth <= f.depth)
  {
    var d, sorted := LeastOf(engines), SortByName(engines);
    var tied := Filter(AtDepth(d), sorted);
    LeastIsMin(engines);
    SortSorts(engines);
    FilterSorted(AtDepth(d), sorted);
    forall e ensures e in tied <==> e in engines && forall f | f in engines :: e.depth <= f.depth {
      FilterMembers(AtDepth(d), sorted, e);
      assert e in engines <==> e in multiset(sorted);
      var least :| least in engines && least.depth == d;
    }
    NamesOf(tied);
  }

  lemma NamesOf(engines: seq<EngineState>)
    ensures forall name :: name in Names(engines) <==> exists e :: e in engines && e.name == name
  {
    forall name ensures name in Names(engines) <==> exists e :: e in engines && e.name == name {
      if name in Names(engines) {
        var i :| 0 <= i < |engines| && Names(engines)[i] == name;
        assert engines[i] in engines;
      }
      if e :| e in engines && e.name == name {
        var i :| 0 <= i < |engines| && engines[i] == e;
        assert Names(engines)[i] == name;
      }
    }
  }

  // ---------------------------------------------------------------- filters

  predicate Healthy(e: EngineState) {
    e.healthy
  }

  function NamedIn(names: set<string>): EngineState -> bool {
    (e: EngineState) => e.name in names
  }

  method FilterHealthy(engines: seq<EngineState>) returns (out: seq<EngineState>)
    ensures out == Filter(Healthy, engines)
  {
    out := [];
    for i := 0 to |engines|
      invariant out == Filter(Healthy, engines[..i])
    {
      assert engines[..i + 1] == engines[..i] + [engines[i]];
      FilterAppend(Healthy, engines[..i], engines[i]);
      if engines[i].healthy {
        out := out + [engines[i]];
      }
    }
    assert engines[..|engines|] == engines;
  }

  /** How many leading tiers stay eligible: the configured count, at least one, at most
      all of them. */
  function TierCount(tiers: seq<string>, count: int): (n: nat)
    ensures n <= |tiers|
    ensures tiers != [] ==> 1 <= n
    ensures 1 <= count <= |tiers| ==> n == count
    ensures |tiers| < count ==> n == |tiers|
  {
    var atLeastOne := if count < 1 then 1 else count;
    if atLeastOne > |tiers| then |tiers| else atLeastOne
  }

  function CheapNames(tiers: seq<string>, count: int): set<string> {
    set i | 0 <= i < TierCount(tiers, count) :: tiers[i]
  }

  /** One of the leading tiers, cheapest first: the first, or one before the count. */
  predicate LeadingTier(tiers: seq<string>, count: int, name: string) {
    exists i | 0 <= i < |tiers| :: (i == 0 || i < count) && tiers[i] == name
  }

  lemma CheapNamesLead(tiers: seq<string>, count: int, name: string)
    ensures name in CheapNames(tiers, count) <==> LeadingTier(tiers, count, name)
  {
    if i :| 0 <= i < |tiers| && (i == 0 || i < count) && tiers[i] == name {
      assert i < TierCount(tiers, count);
    }
  }

  method FilterToCheapTier(engines: seq<EngineState>, tiers: seq<string>, count: int)
    returns (filtered: seq<EngineState>)
    ensures filtered == Filter(NamedIn(CheapNames(tiers, count)), engines)
    ensures forall e :: e in filtered <==> e in engines && LeadingTier(tiers, count, e.name)
  {
    var n := count;
    if n < 1 {
      n := 1;
    }
    if n > |tiers| {
      n := |tiers|;
    }
    var leading := tiers[..n];
    var allowed: map<string, bool> := map[];
    for i := 0 to |leading|
      invariant forall name :: name in allowed <==> exists j :: 0 <= j < i && tiers[j] == name
      invariant forall name | name in allowed :: allowed[name]
    {
      allowed := allowed[leading[i] := true];
    }
    ghost var cheap := CheapNames(tiers, count);
    assert forall name :: name in allowed <==> name in cheap;
    filtered := [];
    for i := 0 to |engines|
      invariant filtered == Filter(NamedIn(cheap), engines[..i])
    {
      assert engines[..i + 1] == engines[..i] + [engines[i]];
      FilterAppend(NamedIn(cheap), engines[..i], engines[i]);
      if engines[i].name in allowed && allowed[engines[i].name] {
        filtered := filtered + [engines[i]];
      }
    }
    assert engines[..|engines|] == engines;
    forall e ensures e in filtered <==> e in engines && LeadingTier(tiers, count, e.name) {
      FilterMembers(NamedIn(cheap), engines, e);
      CheapNamesLead(tiers, count, e.name);
    }
  }

  // --------------------------------------------------------------- policies

  /** What least-queue routing may answer at a given ticket. */
  ghost predicate LeastQueueAnswer(engines: seq<EngineState>, ticket: nat, r: Result<string>) {
    var healthy := Filter(Healthy, engines);
    if healthy == [] then r.Err? else r.Ok? && IsPick(healthy, ticket, r.value)
  }

  class LeastQueuePolicy {
    const tb: TieBreaker

    constructor ()
      ensures fresh(tb) && tb.counter == 0
    {
      tb := new TieBreaker();
    }

    method SelectEngine(sys: SystemView, engines: seq<EngineState>) returns (r: Result<string>)
      modifies tb
      ensures LeastQueueAnswer(engines, old(tb.counter), r)
      ensures tb.counter == if r.Ok? then (old(tb.counter) + 1) % TWO64 else old(tb.counter)
    {
      var healthy := FilterHealthy(engines);
      if |healthy| == 0 {
        return Err("no healthy engines available");
      }
      r := tb.Pick(healthy);
    }
  }

  class ThermalAwarePolicy {
    const tiers: seq<string>
    const tempThresholdC: real
    const cheapTierCount: int
    const tb: TieBreaker

    constructor (tiers: seq<string>, tempThresholdC: real, cheapTierCount: int)
      ensures this.tiers == tiers && this.tempThresholdC == tempThresholdC && this.cheapTierCount == cheapTierCount
      ensures fresh(tb) && tb.counter == 0
    {
      this.tiers, this.tempThresholdC, this.cheapTierCount := tiers, tempThresholdC, cheapTierCount;
      tb := new TieBreaker();
    }

    /** In a valid state at or above the threshold, and if some healthy engine is in the
        leading tiers, a least-depth one of these; else what least-queue answers. */
    method SelectEngine(sys: SystemView, engines: seq<EngineState>) returns (r: Result<string>)
      modifies tb
      ensures ThermalAnswer(sys.valid && sys.maxTempC >= tempThresholdC, CheapNames(tiers, cheapTierCount), engines,
                            old(tb.counter), r)
      ensures CheapestWhenHot(sys.valid && sys.maxTempC >= tempThresholdC, tiers, cheapTierCount, engines,
                              old(tb.counter), r)
      ensures tb.counter == if r.Ok? then (old(tb.counter) + 1) % TWO64 else old(tb.counter)
    {
      ghost var hot, ticket := sys.valid && sys.maxTempC >= tempThresholdC, tb.counter;
      var healthy := FilterHealthy(engines);
      if |healthy| == 0 {
        r := Err("no healthy engines available");
        AnswerOf(hot, tiers, cheapTierCount, engines, healthy, ticket, r);
        return;
      }
      var candidates := healthy;
      if sys.valid && sys.maxTempC >= tempThresholdC {
        var filtered := FilterToCheapTier(healthy, tiers, cheapTierCount);
        if |filtered| > 0 {
          candidates := filtered;
        }
      }
      assert candidates == ThermalCandidates(hot, CheapNames(tiers, cheapTierCount), engines);
      r := tb.Pick(candidates);
      AnswerOf(hot, tiers, cheapTierCount, engines, candidates, ticket, r);
    }
  }

  /** A healthy engine in the leading tiers. */
  predicate CheapHealthy(engines: seq<EngineState>, tiers: seq<string>, count: int, e: EngineState) {
    e in engines && e.healthy && LeadingTier(tiers, count, e.name)
  }

  /** The answer is such an engine, of the least depth among them. */
  ghost predicate IsCheapest(engines: seq<EngineState>, tiers: seq<string>, count: int, r: Result<string>) {
    exists e ::
      && CheapHealthy(engines, tiers, count, e) && r == Ok(e.name)
      && forall f | CheapHealthy(engines, tiers, count, f) :: e.depth <= f.depth
  }

  /** When hot, a cheapest answer if there is one; else what least-queue answers. */
  ghost predicate CheapestWhenHot(hot: bool, tiers: seq<string>, count: int, engines: seq<EngineState>, ticket: nat,
                                  r: Result<string>) {
    if hot && exists e :: CheapHealthy(engines, tiers, count, e) then IsCheapest(engines, tiers, count, r)
    else LeastQueueAnswer(engines, ticket, r)
  }

  /** The engines that thermal-aware routing chooses among. */
  function ThermalCandidates(hot: bool, cheap: set<string>, engines: seq<EngineState>): seq<EngineState> {
    var healthy := Filter(Healthy, engines);
    var filtered := Filter(NamedIn(cheap), healthy);
    if hot && filtered != [] then filtered else healthy
  }

  /** What thermal-aware routing may answer at a given ticket. */
  ghost predicate ThermalAnswer(hot: bool, cheap: set<string>, engines: seq<EngineState>, ticket: nat,
                              r: Result<string>) {
    var candidates := ThermalCandidates(hot, cheap, engines);
    if candidates == [] then r.Err? else r.Ok? && IsPick(candidates, ticket, r.value)
  }

  /** Thermal-aware routing errs exactly when no engine is healthy; when hot and some
      healthy engine is in the cheap tier it picks a cheap healthy engine of least depth
      among those; otherwise it answers as least-queue does with the same ticket. */
  lemma ThermalRefinesLeastQueue(hot: bool, cheap: set<string>, engines: seq<EngineState>, ticket: nat,
                                 r: Result<string>)
    requires ThermalAnswer(hot, cheap, engines, ticket, r)
    ensures r.Err? <==> forall e | e in engines :: !e.healthy
    ensures hot && (exists e :: e in engines && e.healthy && e.name in cheap) ==>
              exists e :: && e in engines && e.healthy && e.name in cheap && r == Ok(e.name)
                          && forall f | f in engines && f.healthy && f.name in cheap :: e.depth <= f.depth
    ensures !(hot && exists e :: e in engines && e.healthy && e.name in cheap) ==> LeastQueueAnswer(engines, ticket, r)
  {
    var healthy := Filter(Healthy, engines);
    var filtered := Filter(NamedIn(cheap), healthy);
    forall e ensures e in healthy <==> e in engines && e.healthy {
      FilterMembers(Healthy, engines, e);
    }
    forall e ensures e in filtered <==> e in engines && e.healthy && e.name in cheap {
      FilterMembers(NamedIn(cheap), healthy, e);
    }
    assert healthy != [] ==> healthy[0] in healthy;
    if filtered != [] {
      assert filtered[0] in filtered;
      if hot {
        PickIsMinimal(filtered, ticket, r.value);
      }
    }
  }

  /** The healthy engines of the leading tiers, and no others, are those left by both filters. */
  lemma CheapCandidates(tiers: seq<string>, count: int, engines: seq<EngineState>)
    ensures forall e :: e in Filter(NamedIn(CheapNames(tiers, count)), Filter(Healthy, engines))
                        <==> CheapHealthy(engines, tiers, count, e)
  {
    var cheap := CheapNames(tiers, count);
    forall e ensures e in Filter(NamedIn(cheap), Filter(Healthy, engines)) <==> CheapHealthy(engines, tiers, count, e) {
      FilterMembers(Healthy, engines, e);
      FilterMembers(NamedIn(cheap), Filter(Healthy, engines), e);
      CheapNamesLead(tiers, count, e.name);
    }
  }

  /** Which tiers count as cheap: when hot the answer is in the leading ones, if any healthy
      engine is. */
  lemma HotPicksLeadingTier(hot: bool, tiers: seq<string>, count: int, engines: seq<EngineState>, ticket: nat,
                            r: Result<string>)
    requires ThermalAnswer(hot, CheapNames(tiers, count), engines, ticket, r)
    ensures CheapestWhenHot(hot, tiers, count, engines, ticket, r)
    ensures var candidates := ThermalCandidates(hot, CheapNames(tiers, count), engines);
            hot && (exists e :: CheapHealthy(engines, tiers, count, e)) ==>
              && r.Ok? && IsPick(candidates, ticket, r.value)
              && forall e :: e in candidates <==> CheapHealthy(engines, tiers, count, e)
  {
    var cheap := CheapNames(tiers, count);
    CheapCandidates(tiers, count, engines);
    forall e ensures CheapHealthy(engines, tiers, count, e) <==> e in engines && e.healthy && e.name in cheap {
      CheapNamesLead(tiers, count, e.name);
    }
    ThermalRefinesLeastQueue(hot, cheap, engines, ticket, r);
  }

  lemma AnswerOf(hot: bool, tiers: seq<string>, count: int, engines: seq<EngineState>, candidates: seq<EngineState>,
                 ticket: nat, r: Result<string>)
    requires candidates == ThermalCandidates(hot, CheapNames(tiers, count), engines)
    requires if candidates == [] then r.Err? else r.Ok? && IsPick(candidates, ticket, r.value)
    ensures ThermalAnswer(hot, CheapNames(tiers, count), engines, ticket, r)
    ensures CheapestWhenHot(hot, tiers, count, engines, ticket, r)
  {
    HotPicksLeadingTier(hot, tiers, count, engines, ticket, r);
  }

  /** Neither policy ever names an unhealthy engine. */
  lemma OnlyHealthyChosen(hot: bool, cheap: set<string>, engines: seq<EngineState>, ticket: nat, r: Result<string>)
    requires ThermalAnswer(hot, cheap, engines, ticket, r) || LeastQueueAnswer(engines, ticket, r)
    ensures r.Ok? ==> exists e :: e in engines && e.healthy && e.name == r.value
  {
    var healthy := Filter(Healthy, engines);
    forall e ensures e in healthy <==> e in engines && e.healthy {
      FilterMembers(Healthy, engines, e);
    }
    forall e ensures e in Filter(NamedIn(cheap), healthy) ==> e in healthy {
      FilterMembers(NamedIn(cheap), healthy, e);
    }
    if r.Ok? {
      var candidates :=
        if LeastQueueAnswer(engines, ticket, r) then healthy else ThermalCandidates(hot, cheap, engines);
      PickIsMinimal(candidates, ticket, r.value);
    }
  }
}
