/** Vocabulary shared by the modules: Go's (value, error) results, counting and
    summing over sequences, and the byte order that Go uses to compare strings. */
module Common {

  datatype Option<+T> = None | Some(value: T)

  /** Go's `(value, error)` pair, one of which is meaningful. */
  datatype Result<+T> = Ok(value: T) | Err(error: string)

  /** How many values Go's uint64 has. */
  const TWO64: nat := 0x1_0000_0000_0000_0000

  // ---------------------------------------------------------------- counting

  function One(b: bool): nat {
    if b then 1 else 0
  }

  /** How many elements of `s` satisfy `p`. */
  function Count<T>(p: T -> bool, s: seq<T>): (n: nat)
    ensures n <= |s|
  {
    if s == [] then 0
    else Count(p, s[..|s| - 1]) + if p(s[|s| - 1]) then 1 else 0
  }

  lemma CountAppend<T>(p: T -> bool, s: seq<T>, x: T)
    ensures Count(p, s + [x]) == Count(p, s) + if p(x) then 1 else 0
  {
    assert (s + [x])[..|s|] == s;
  }

  lemma {:induction false} CountConcat<T>(p: T -> bool, s: seq<T>, t: seq<T>)
    ensures Count(p, s + t) == Count(p, s) + Count(p, t)
  {
    if t == [] {
      assert s + t == s;
    } else {
      CountConcat(p, s, t[..|t| - 1]);
      CountAppend(p, s + t[..|t| - 1], t[|t| - 1]);
      assert s + t == (s + t[..|t| - 1]) + [t[|t| - 1]];
    }
  }

  lemma CountUpdate<T>(p: T -> bool, s: seq<T>, i: nat, x: T)
    requires i < |s|
    ensures Count(p, s[i := x]) + (if p(s[i]) then 1 else 0) == Count(p, s) + (if p(x) then 1 else 0)
  {
    assert s == s[..i] + ([s[i]] + s[i + 1..]);
    assert s[i := x] == s[..i] + ([x] + s[i + 1..]);
    CountConcat(p, s[..i], [s[i]] + s[i + 1..]);
    CountConcat(p, s[..i], [x] + s[i + 1..]);
    CountConcat(p, [s[i]], s[i + 1..]);
    CountConcat(p, [x], s[i + 1..]);
  }

  lemma {:induction false} CountZero<T>(p: T -> bool, s: seq<T>)
    ensures Count(p, s) == 0 <==> forall i | 0 <= i < |s| :: !p(s[i])
  {
    if s != [] {
      CountZero(p, s[..|s| - 1]);
      assert forall i | 0 <= i < |s| - 1 :: s[..|s| - 1][i] == s[i];
    }
  }

  /** Three predicates that split `p` split its count. */
  lemma {:induction false} CountSplit3<T>(p: T -> bool, a: T -> bool, b: T -> bool, c: T -> bool, s: seq<T>)
    requires forall i | 0 <= i < |s| ::
               (if p(s[i]) then 1 else 0)
               == (if a(s[i]) then 1 else 0) + (if b(s[i]) then 1 else 0) + (if c(s[i]) then 1 else 0)
    ensures Count(p, s) == Count(a, s) + Count(b, s) + Count(c, s)
  {
    if s != [] {
      assert forall i | 0 <= i < |s| - 1 :: s[..|s| - 1][i] == s[i];
      CountSplit3(p, a, b, c, s[..|s| - 1]);
    }
  }

  lemma {:induction false} CountEqual<T>(p: T -> bool, q: T -> bool, s: seq<T>)
    requires forall i | 0 <= i < |s| :: p(s[i]) == q(s[i])
    ensures Count(p, s) == Count(q, s)
  {
    if s != [] {
      assert forall i | 0 <= i < |s| - 1 :: s[..|s| - 1][i] == s[i];
      CountEqual(p, q, s[..|s| - 1]);
    }
  }

  lemma {:induction false} CountAcross<T, U>(p: T -> bool, s: seq<T>, q: U -> bool, t: seq<U>)
    requires |s| == |t| && forall i | 0 <= i < |s| :: p(s[i]) == q(t[i])
    ensures Count(p, s) == Count(q, t)
  {
    if s != [] {
      var n := |s| - 1;
      assert forall i | 0 <= i < n :: s[..n][i] == s[i] && t[..n][i] == t[i];
      CountAcross(p, s[..n], q, t[..n]);
    }
  }

  lemma CountBothEnds<T>(p: T -> bool, s: seq<T>)
    requires 2 <= |s| && p(s[0]) && p(s[|s| - 1])
    ensures 2 <= Count(p, s)
  {
    assert s == [s[0]] + s[1..];
    CountConcat(p, [s[0]], s[1..]);
    assert s[1..][|s| - 2] == s[|s| - 1];
  }

  lemma {:induction false} CountImplies<T>(p: T -> bool, q: T -> bool, s: seq<T>)
    requires forall i | 0 <= i < |s| :: p(s[i]) ==> q(s[i])
    ensures Count(p, s) <= Count(q, s)
  {
    if s != [] {
      assert forall i | 0 <= i < |s| - 1 :: s[..|s| - 1][i] == s[i];
      CountImplies(p, q, s[..|s| - 1]);
    }
  }

  function Never<T>(x: T): bool {
    false
  }

  /** A count kept in a map, zero where there is no entry. */
  function Tally<K>(m: map<K, nat>, k: K): nat {
    if k in m then m[k] else 0
  }

  lemma CountAround<T>(p: T -> bool, s: seq<T>, left: seq<T>, x: T, right: seq<T>)
    requires s == left + [x] + right
    ensures Count(p, s) == Count(p, left + right) + if p(x) then 1 else 0
  {
    CountConcat(p, left + [x], right);
    CountAppend(p, left, x);
    CountConcat(p, left, right);
  }

  lemma CountDropFirst<T>(p: T -> bool, s: seq<T>)
    requires s != []
    ensures Count(p, s) == Count(p, s[1..]) + if p(s[0]) then 1 else 0
  {
    assert s == [s[0]] + s[1..];
    CountConcat(p, [s[0]], s[1..]);
  }

  /** A count depends on the elements, not on their order. */
  lemma {:induction false} CountPermutation<T>(p: T -> bool, s: seq<T>, t: seq<T>)
    requires multiset(s) == multiset(t)
    ensures Count(p, s) == Count(p, t)
    decreases |s|
  {
    if s == [] {
      assert |multiset(t)| == 0;
    } else {
      var i := SameElsewhere(s, t);
      CountPermutation(p, s[1..], t[..i] + t[i + 1..]);
      CountDropFirst(p, s);
      CountAround(p, t, t[..i], s[0], t[i + 1..]);
    }
  }

  lemma MultisetAround<T>(s: seq<T>, left: seq<T>, x: T, right: seq<T>)
    requires s == left + [x] + right
    ensures multiset(left + right) == multiset(s) - multiset{x}
  {
  }

  lemma IndexIn<T>(t: seq<T>, x: T) returns (i: nat)
    requires x in t
    ensures i < |t| && t == t[..i] + [x] + t[i + 1..]
  {
    i :| i < |t| && t[i] == x;
  }

  /** The first element of s occurs in t, and the rest of each agree as multisets. */
  lemma SameElsewhere<T>(s: seq<T>, t: seq<T>) returns (i: nat)
    requires s != [] && multiset(s) == multiset(t)
    ensures i < |t| && t == t[..i] + [s[0]] + t[i + 1..]
    ensures multiset(s[1..]) == multiset(t[..i] + t[i + 1..])
  {
    assert s[0] in multiset(t);
    i := IndexIn(t, s[0]);
    MultisetAround(t, t[..i], s[0], t[i + 1..]);
    MultisetAround(s, [], s[0], s[1..]);
    assert [] + s[1..] == s[1..];
  }

  // --------------------------------------------------------------- filtering

  /** The elements of `s` that satisfy `p`, in order. */
  function Filter<T>(p: T -> bool, s: seq<T>): (r: seq<T>)
    ensures |r| <= |s|
  {
    if s == [] then []
    else Filter(p, s[..|s| - 1]) + if p(s[|s| - 1]) then [s[|s| - 1]] else []
  }

  lemma FilterAppend<T>(p: T -> bool, s: seq<T>, x: T)
    ensures Filter(p, s + [x]) == Filter(p, s) + if p(x) then [x] else []
  {
    assert (s + [x])[..|s|] == s;
  }

  lemma {:induction false} FilterMembers<T>(p: T -> bool, s: seq<T>, x: T)
    ensures x in Filter(p, s) <==> x in s && p(x)
  {
    if s != [] {
      assert s == s[..|s| - 1] + [s[|s| - 1]];
      FilterMembers(p, s[..|s| - 1], x);
    }
  }

  lemma {:induction false} FilterCount<T>(p: T -> bool, q: T -> bool, s: seq<T>)
    requires forall i | 0 <= i < |s| :: q(s[i]) ==> p(s[i])
    ensures |Filter(p, s)| == Count(p, s)
    ensures Count(q, Filter(p, s)) == Count(q, s)
  {
    if s != [] {
      assert forall i | 0 <= i < |s| - 1 :: s[..|s| - 1][i] == s[i];
      FilterCount(p, q, s[..|s| - 1]);
      assert q(s[|s| - 1]) ==> p(s[|s| - 1]);
      if p(s[|s| - 1]) {
        CountAppend(q, Filter(p, s[..|s| - 1]), s[|s| - 1]);
      } else {
        assert Filter(p, s) == Filter(p, s[..|s| - 1]);
      }
    }
  }

  /** `kept` lists, in order, exactly the positions whose elements satisfy p. */
  ghost predicate Selects<T>(p: T -> bool, s: seq<T>, kept: seq<nat>) {
    && (forall i, j | 0 <= i < j < |kept| :: kept[i] < kept[j])
    && (forall i | 0 <= i < |kept| :: kept[i] < |s| && p(s[kept[i]]))
    && (forall n | 0 <= n < |s| && p(s[n]) :: n in kept)
  }

  lemma SelectsOneMore<T>(p: T -> bool, front: seq<T>, x: T, kept: seq<nat>)
    requires Selects(p, front, kept)
    ensures Selects(p, front + [x], if p(x) then kept + [|front|] else kept)
  {
    var s, more := front + [x], if p(x) then kept + [|front|] else kept;
    forall n | 0 <= n < |s| && p(s[n]) ensures n in more {
      if n == |front| {
        assert more[|more| - 1] == n;
      } else {
        assert front[n] == s[n] && n in kept;
      }
    }
  }

  /** `part` is the elements of `s` at those positions, in order. */
  ghost predicate IsAt<T>(part: seq<T>, s: seq<T>, kept: seq<nat>) {
    |part| == |kept| && forall i | 0 <= i < |kept| :: kept[i] < |s| && part[i] == s[kept[i]]
  }

  lemma IsAtOneMore<T>(part: seq<T>, front: seq<T>, kept: seq<nat>, x: T)
    requires IsAt(part, front, kept)
    ensures IsAt(part, front + [x], kept) && IsAt(part + [x], front + [x], kept + [|front|])
  {
    var s := front + [x];
    assert forall i | 0 <= i < |front| :: s[i] == front[i];
    assert s[|front|] == x;
  }

  lemma FilterOneMore<T>(p: T -> bool, front: seq<T>, x: T, kept: seq<nat>) returns (more: seq<nat>)
    requires Selects(p, front, kept) && IsAt(Filter(p, front), front, kept)
    ensures Selects(p, front + [x], more) && IsAt(Filter(p, front + [x]), front + [x], more)
  {
    SelectsOneMore(p, front, x, kept);
    IsAtOneMore(Filter(p, front), front, kept, x);
    FilterAppend(p, front, x);
    if p(x) {
      more := kept + [|front|];
    } else {
      more := kept;
      assert Filter(p, front + [x]) == Filter(p, front);
    }
  }

  /** A filter keeps the elements at those positions, in order. */
  lemma {:induction false} FilterSelects<T>(p: T -> bool, s: seq<T>) returns (kept: seq<nat>)
    ensures Selects(p, s, kept) && IsAt(Filter(p, s), s, kept)
  {
    if s == [] {
      kept := [];
    } else {
      var front, last := s[..|s| - 1], s[|s| - 1];
      var rest := FilterSelects(p, front);
      kept := FilterOneMore(p, front, last, rest);
      assert s == front + [last];
    }
  }

  lemma {:induction false} FilterAll<T>(p: T -> bool, s: seq<T>)
    requires forall i | 0 <= i < |s| :: p(s[i])
    ensures Filter(p, s) == s
  {
    if s != [] {
      FilterAll(p, s[..|s| - 1]);
      assert s == s[..|s| - 1] + [s[|s| - 1]];
    }
  }

  /** What `f` makes of each element, one after the other. */
  function FlatMap<T, U>(f: T -> seq<U>, s: seq<T>): seq<U> {
    if s == [] then [] else FlatMap(f, s[..|s| - 1]) + f(s[|s| - 1])
  }

  lemma {:induction false} FlatMapConcat<T, U>(f: T -> seq<U>, s: seq<T>, t: seq<T>)
    ensures FlatMap(f, s + t) == FlatMap(f, s) + FlatMap(f, t)
  {
    if t == [] {
      assert s + t == s;
    } else {
      FlatMapConcat(f, s, t[..|t| - 1]);
      assert (s + t)[..|s + t| - 1] == s + t[..|t| - 1];
    }
  }

  lemma {:induction false} FlatMapMembers<T, U>(f: T -> seq<U>, s: seq<T>, u: U)
    ensures u in FlatMap(f, s) <==> exists i :: 0 <= i < |s| && u in f(s[i])
  {
    if s != [] {
      var front := s[..|s| - 1];
      FlatMapMembers(f, front, u);
      assert forall i | 0 <= i < |front| :: front[i] == s[i];
    }
  }

  // ----------------------------------------------------------------- summing

  function Sum<T>(f: T -> nat, s: seq<T>): nat {
    if s == [] then 0 else Sum(f, s[..|s| - 1]) + f(s[|s| - 1])
  }

  lemma {:induction false} SumConcat<T>(f: T -> nat, s: seq<T>, t: seq<T>)
    ensures Sum(f, s + t) == Sum(f, s) + Sum(f, t)
  {
    if t == [] {
      assert s + t == s;
    } else {
      SumConcat(f, s, t[..|t| - 1]);
      assert (s + t)[..|s + t| - 1] == s + t[..|t| - 1];
    }
  }

  lemma SumUpdate<T>(f: T -> nat, s: seq<T>, i: nat, x: T)
    requires i < |s|
    ensures Sum(f, s[i := x]) + f(s[i]) == Sum(f, s) + f(x)
  {
    assert s == s[..i] + ([s[i]] + s[i + 1..]);
    assert s[i := x] == s[..i] + ([x] + s[i + 1..]);
    SumConcat(f, s[..i], [s[i]] + s[i + 1..]);
    SumConcat(f, s[..i], [x] + s[i + 1..]);
    SumConcat(f, [s[i]], s[i + 1..]);
    SumConcat(f, [x], s[i + 1..]);
  }

  ghost predicate Distinct<T(!new)>(s: seq<T>) {
    forall i, j | 0 <= i < j < |s| :: s[i] != s[j]
  }

  // ----------------------------------------------------------- string order

  /** Go's `<` on strings. */
  predicate Less(a: string, b: string) {
    if b == [] then false
    else if a == [] then true
    else a[0] < b[0] || (a[0] == b[0] && Less(a[1..], b[1..]))
  }

  /** a is before b where they first differ, or ends there. */
  ghost predicate DiffersAt(a: string, b: string, k: nat) {
    && k <= |a| && k < |b| && a[..k] == b[..k]
    && (k == |a| || a[k] < b[k])
  }

  lemma AgreeBefore(a: string, b: string, k: nat)
    requires DiffersAt(a, b, k)
    ensures k == 0 || a[0] == b[0]
  {
    assert k == 0 || (a[..k][0] == a[0] && b[..k][0] == b[0]);
  }

  lemma {:induction false} LessIff(a: string, b: string)
    ensures Less(a, b) <==> exists k: nat :: DiffersAt(a, b, k)
  {
    if a == [] || b == [] || a[0] != b[0] {
      if Less(a, b) {
        assert DiffersAt(a, b, 0);
      }
      if k: nat :| DiffersAt(a, b, k) {
        AgreeBefore(a, b, k);
      }
    } else {
      LessIff(a[1..], b[1..]);
      if k: nat :| DiffersAt(a[1..], b[1..], k) {
        assert a[..k + 1] == [a[0]] + a[1..][..k] && b[..k + 1] == [b[0]] + b[1..][..k];
        assert DiffersAt(a, b, k + 1);
      }
      if k: nat :| DiffersAt(a, b, k) {
        assert a[1..][..k - 1] == a[..k][1..] && b[1..][..k - 1] == b[..k][1..];
        assert DiffersAt(a[1..], b[1..], k - 1);
      }
    }
  }

  lemma LessTotal(a: string, b: string)
    ensures a == b || Less(a, b) || Less(b, a)
  {
    if a != [] && b != [] {
      LessTotal(a[1..], b[1..]);
      assert a == [a[0]] + a[1..] && b == [b[0]] + b[1..];
    }
  }

  lemma LessAsymmetric(a: string, b: string)
    ensures Less(a, b) ==> a != b && !Less(b, a)
  {
    if a != [] && b != [] {
      LessAsymmetric(a[1..], b[1..]);
    }
  }

  lemma LessTransitive(a: string, b: string, c: string)
    requires Less(a, b) && Less(b, c)
    ensures Less(a, c)
  {
    if a != [] {
      if a[0] == b[0] == c[0] {
        LessTransitive(a[1..], b[1..], c[1..]);
      }
    }
  }
}
