/** Round-robin fairness of the tie breaker for concurrent picks
    (scheduler/internal/routing/policy.go:44-68). */
module Fairness {
  import opened Arithmetic
  import opened Common
  import opened Routing

  /** The tickets that k atomic additions hand out, starting at counter c. */
  function TicketsFrom(c: nat, k: nat): seq<nat> {
    seq(k, j => (c + j) % TWO64)
  }

  function OnEntry(n: nat, i: nat): nat -> bool
    requires 0 < n
  {
    (t: nat) => t % n == i
  }

  function CeilDiv(k: nat, n: nat): nat
    requires 0 < n
  {
    (k + n - 1) / n
  }

  // ------------------------------------------------------------- arithmetic

  /** CeilDiv is the least number of n-blocks that cover k. */
  lemma CeilDivIs(k: nat, n: nat)
    requires 0 < n
    ensures k <= n * CeilDiv(k, n) < k + n
  {
    var c := CeilDiv(k, n);
    assert k + n - 1 == n * c + (k + n - 1) % n;
  }

  lemma DivStep(a: nat, n: nat)
    requires 0 < n
    ensures (a + 1) / n == a / n + if (a + 1) % n == 0 then 1 else 0
    ensures (a + 1) % n == if a % n == n - 1 then 0 else a % n + 1
  {
    var q, r := a / n, a % n;
    assert a == n * q + r;
    if r == n - 1 {
      DivUnique(a + 1, n, q + 1, 0);
    } else {
      DivUnique(a + 1, n, q, r + 1);
    }
  }

  /** A range of length k meets floor(k/n) or ceil(k/n) multiples of n. */
  lemma DivDifference(a: nat, k: nat, n: nat)
    requires 0 < n
    ensures k / n <= (a + k) / n - a / n <= CeilDiv(k, n)
  {
    var qa, ra, qk, rk := a / n, a % n, k / n, k % n;
    assert a + k == n * (qa + qk) + (ra + rk);
    if ra + rk < n {
      DivUnique(a + k, n, qa + qk, ra + rk);
    } else {
      assert a + k == n * (qa + qk + 1) + (ra + rk - n);
      DivUnique(a + k, n, qa + qk + 1, ra + rk - n);
    }
    if rk == 0 {
      assert k + n - 1 == n * qk + (n - 1);
      DivUnique(k + n - 1, n, qk, n - 1);
    } else {
      assert k + n - 1 == n * (qk + 1) + (rk - 1);
      DivUnique(k + n - 1, n, qk + 1, rk - 1);
    }
  }

  lemma ModOfMod(x: nat, m: nat, n: nat)
    requires 0 < n && 0 < m && m % n == 0
    ensures x % m % n == x % n
  {
    var q, r := x / m, x % m;
    var s, rn := r / n, r % n;
    assert m == n * (m / n);
    assert x == m * q + n * s + rn;
    assert m * q == n * (m / n * q);
    assert x == n * (m / n * q + s) + rn;
    DivUnique(x, n, m / n * q + s, rn);
  }

  // ------------------------------------------------------- blocks of tickets

  function Range(c: nat, k: nat): seq<nat> {
    seq(k, j => c + j)
  }

  /** In k consecutive numbers residue i occurs floor(k/n) or ceil(k/n) times. */
  lemma {:induction false} ResidueCount(c: nat, k: nat, n: nat, i: nat)
    requires i < n
    ensures Count(OnEntry(n, i), Range(c, k)) == (c + k + n - 1 - i) / n - (c + n - 1 - i) / n
    decreases k
  {
    if k != 0 {
      ResidueCount(c, k - 1, n, i);
      assert Range(c, k)[..k - 1] == Range(c, k - 1);
      var x := c + k - 1;
      DivStep(x + n - 1 - i, n);
      HitsResidue(x, n, i);
    }
  }

  lemma HitsResidue(x: nat, n: nat, i: nat)
    requires i < n
    ensures (x + n - i) % n == 0 <==> x % n == i
  {
    var q, r := x / n, x % n;
    assert x == n * q + r;
    if r >= i {
      assert x + n - i == n * (q + 1) + (r - i);
      DivUnique(x + n - i, n, q + 1, r - i);
    } else {
      DivUnique(x + n - i, n, q, r + n - i);
    }
  }

  /** Taking a number modulo 2^64 keeps its residue if it is below 2^64, or if n divides
      2^64. */
  lemma WrapKeepsResidue(x: nat, n: nat)
    requires 0 < n && (x < TWO64 || TWO64 % n == 0)
    ensures x % TWO64 % n == x % n
  {
    if TWO64 % n == 0 {
      ModOfMod(x, TWO64, n);
    } else {
      DivUnique(x, TWO64, 0, x);
    }
  }

  /** Tickets that do not cross the uint64 wrap, or any if n divides 2^64, hit each
      residue as plain consecutive numbers do. */
  lemma WrapIsHarmless(c: nat, k: nat, n: nat, i: nat)
    requires i < n && (c + k <= TWO64 || TWO64 % n == 0)
    ensures Count(OnEntry(n, i), TicketsFrom(c, k)) == Count(OnEntry(n, i), Range(c, k))
  {
    forall j | 0 <= j < k ensures OnEntry(n, i)(TicketsFrom(c, k)[j]) == OnEntry(n, i)(Range(c, k)[j]) {
      WrapKeepsResidue(c + j, n);
    }
    CountAcross(OnEntry(n, i), TicketsFrom(c, k), OnEntry(n, i), Range(c, k));
  }

  ghost predicate FairBlock(c: nat, k: nat, n: nat)
    requires 0 < n
  {
    forall i | 0 <= i < n :: k / n <= Count(OnEntry(n, i), TicketsFrom(c, k)) <= CeilDiv(k, n)
  }

  lemma BlockIsFair(c: nat, k: nat, n: nat)
    requires 0 < n && (c + k <= TWO64 || TWO64 % n == 0)
    ensures FairBlock(c, k, n)
  {
    forall i | 0 <= i < n
      ensures k / n <= Count(OnEntry(n, i), TicketsFrom(c, k)) <= CeilDiv(k, n)
    {
      WrapIsHarmless(c, k, n, i);
      ResidueCount(c, k, n, i);
      DivDifference(c + n - 1 - i, k, n);
    }
  }

  lemma LastTicketResidue(n: nat, r: nat)
    requires 0 < n && r == TWO64 % n && r != 0
    ensures (TWO64 - 1) % n == r - 1 && (r - 1) % n == r - 1 && CeilDiv(r + 1, n) == 1
  {
    DivUnique(TWO64 - 1, n, TWO64 / n, r - 1);
    DivUnique(r - 1, n, 0, r - 1);
    DivUnique(r + 1 + n - 1, n, 1, r);
  }

  lemma BlockAcrossWrap(r: nat)
    requires 0 < r <= TWO64
    ensures TicketsFrom(TWO64 - 1, r + 1)[0] == TWO64 - 1 && TicketsFrom(TWO64 - 1, r + 1)[r] == r - 1
  {
  }

  /** Across the wrap the block of r + 1 tickets that starts at 2^64 - 1, where r is
      2^64 mod n, serves entry r - 1 twice although it is no longer than n. */
  lemma WrapIsUnfair(n: nat)
    requires 0 < n && TWO64 % n != 0
    ensures !FairBlock(TWO64 - 1, TWO64 % n + 1, n)
  {
    var r := TWO64 % n;
    RemainderSmall(n, r);
    LastTicketResidue(n, r);
    BlockAcrossWrap(r);
    CountBothEnds(OnEntry(n, r - 1), TicketsFrom(TWO64 - 1, r + 1));
  }

  lemma RemainderSmall(n: nat, r: nat)
    requires 0 < n && r == TWO64 % n
    ensures r < n && r <= TWO64
  {
    if TWO64 < n {
      DivUnique(TWO64, n, 0, TWO64);
    }
  }

  /** Every block of tickets is fair exactly when n divides 2^64. */
  lemma FairForEveryBlockIff(n: nat)
    requires 0 < n
    ensures (forall c: nat, k: nat | c < TWO64 :: FairBlock(c, k, n)) <==> TWO64 % n == 0
  {
    if TWO64 % n == 0 {
      forall c: nat, k: nat | c < TWO64 ensures FairBlock(c, k, n) {
        BlockIsFair(c, k, n);
      }
    } else {
      WrapIsUnfair(n);
    }
  }

  // ------------------------------------------------------ fairness of picks

  function Chose(name: string): string -> bool {
    (picked: string) => picked == name
  }

  /** k picks that hold a consecutive block of tickets, whichever pick got which ticket,
      and that see the same n tied names choose each name floor(k/n) or ceil(k/n) times.
      Each pick may see different depths and further engines. */
  lemma FairUnderConcurrency(c: uint64, seen: seq<seq<EngineState>>, tickets: seq<nat>, picks: seq<string>,
                             names: seq<string>, i: nat)
    requires |seen| == |tickets| == |picks| && i < |names| && Distinct(names)
    requires multiset(tickets) == multiset(TicketsFrom(c, |tickets|))
    requires forall j | 0 <= j < |picks| ::
               seen[j] != [] && TiedNames(seen[j]) == names && IsPick(seen[j], tickets[j], picks[j])
    requires c + |picks| <= TWO64 || TWO64 % |names| == 0
    ensures |picks| / |names| <= Count(Chose(names[i]), picks) <= CeilDiv(|picks|, |names|)
  {
    var n := |names|;
    BlockIsFair(c, |tickets|, n);
    CountPermutation(OnEntry(n, i), tickets, TicketsFrom(c, |tickets|));
    forall j | 0 <= j < |picks| ensures Chose(names[i])(picks[j]) == OnEntry(n, i)(tickets[j]) {
      PickFollowsTicket(seen[j], tickets[j], picks[j], i);
    }
    CountAcross(Chose(names[i]), picks, OnEntry(n, i), tickets);
  }

  lemma PickFollowsTicket(engines: seq<EngineState>, ticket: nat, pick: string, i: nat)
    requires engines != [] && IsPick(engines, ticket, pick) && Distinct(TiedNames(engines)) && i < |TiedNames(engines)|
    ensures pick == TiedNames(engines)[i] <==> ticket % |TiedNames(engines)| == i
  {
    PickIsTicketEntry(engines, ticket, pick);
  }
}
