/** Sequence operations the source takes from its collection libraries
    (`Array.prototype.filter`, `find`, LINQ `FirstOrDefault`), with the
    facts about them that the component modules rely on. */
module Seqs {
  import opened Wrappers

  /** `s.filter(p)`: the elements satisfying `p`, in their original order. */
  function Filter<T>(s: seq<T>, p: T -> bool): (r: seq<T>)
    ensures |r| <= |s|
    ensures forall i :: 0 <= i < |r| ==> r[i] in s && p(r[i])
    ensures forall i :: 0 <= i < |s| && p(s[i]) ==> s[i] in r
  {
    if s == [] then [] else (if p(s[0]) then [s[0]] else []) + Filter(s[1..], p)
  }

  /** `a` can be obtained from `b` by deleting elements: order is kept. */
  predicate IsSubsequence<T(==)>(a: seq<T>, b: seq<T>)
    decreases |b|
  {
    if a == [] then true
    else if b == [] then false
    else (a[0] == b[0] && IsSubsequence(a[1..], b[1..])) || IsSubsequence(a, b[1..])
  }

  lemma {:induction false} FilterIsSubsequence<T>(s: seq<T>, p: T -> bool)
    ensures IsSubsequence(Filter(s, p), s)
  {
    if s != [] {
      FilterIsSubsequence(s[1..], p);
      var rest := Filter(s[1..], p);
      if p(s[0]) {
        assert Filter(s, p) == [s[0]] + rest;
        assert ([s[0]] + rest)[1..] == rest;
      } else {
        assert Filter(s, p) == rest;
        SubsequenceOfTail(rest, s);
      }
    }
  }

  /** Filtering keeps every copy of a passing element and no copy of a
      failing one: the multiplicities are exact. */
  lemma {:induction false} FilterMultiset<T>(s: seq<T>, p: T -> bool)
    ensures forall x :: multiset(Filter(s, p))[x] == if p(x) then multiset(s)[x] else 0
  {
    if s != [] {
      FilterMultiset(s[1..], p);
      assert s == [s[0]] + s[1..];
    }
  }

  lemma {:induction false} SubsequenceOfTail<T>(a: seq<T>, b: seq<T>)
    requires b != [] && IsSubsequence(a, b[1..])
    ensures IsSubsequence(a, b)
  {
  }

  /** Keeping every element when all of them pass. */
  lemma {:induction false} FilterAll<T>(s: seq<T>, p: T -> bool)
    requires forall i :: 0 <= i < |s| ==> p(s[i])
    ensures Filter(s, p) == s
  {
    if s != [] {
      FilterAll(s[1..], p);
    }
  }

  lemma {:induction false} FilterNone<T>(s: seq<T>, p: T -> bool)
    requires forall i :: 0 <= i < |s| ==> !p(s[i])
    ensures Filter(s, p) == []
  {
    if s != [] {
      FilterNone(s[1..], p);
    }
  }

  lemma {:induction false} FilterConcat<T>(a: seq<T>, b: seq<T>, p: T -> bool)
    ensures Filter(a + b, p) == Filter(a, p) + Filter(b, p)
  {
    if a == [] {
      assert a + b == b;
    } else {
      assert (a + b)[0] == a[0];
      assert (a + b)[1..] == a[1..] + b;
      FilterConcat(a[1..], b, p);
    }
  }

  /** Two complementary filters split a sequence: `filter(p).length +
      filter(!p).length == length`. */
  lemma {:induction false} FilterComplement<T>(s: seq<T>, p: T -> bool, q: T -> bool)
    requires forall x :: q(x) == !p(x)
    ensures |Filter(s, p)| + |Filter(s, q)| == |s|
  {
    if s != [] {
      FilterComplement(s[1..], p, q);
    }
  }

  /** A stronger predicate keeps no more elements than a weaker one. */
  lemma {:induction false} FilterMonotone<T>(s: seq<T>, p: T -> bool, q: T -> bool)
    requires forall x :: p(x) ==> q(x)
    ensures |Filter(s, p)| <= |Filter(s, q)|
  {
    if s != [] {
      FilterMonotone(s[1..], p, q);
    }
  }

  /** Filters over disjoint predicates whose union is exhaustive add up. */
  lemma {:induction false} FilterThreeWay<T>(s: seq<T>, p: T -> bool, q: T -> bool, r: T -> bool)
    requires forall x :: (p(x) && !q(x) && !r(x)) || (!p(x) && q(x) && !r(x)) || (!p(x) && !q(x) && r(x))
    ensures |Filter(s, p)| + |Filter(s, q)| + |Filter(s, r)| == |s|
  {
    if s != [] {
      FilterThreeWay(s[1..], p, q, r);
    }
  }

  /** The index of the first element satisfying `p` (LINQ `FirstOrDefault`,
      JavaScript `find`), or None when there is none. */
  function FirstIndex<T>(s: seq<T>, p: T -> bool): (r: Option<nat>)
    ensures r.Some? ==> r.value < |s| && p(s[r.value])
    ensures r.Some? ==> forall j :: 0 <= j < r.value ==> !p(s[j])
    ensures r.None? <==> forall j :: 0 <= j < |s| ==> !p(s[j])
  {
    if s == [] then None
    else if p(s[0]) then Some(0)
    else match FirstIndex(s[1..], p)
      case None => None
      case Some(k) => Some(k + 1)
  }

  /** The first element satisfying `p`, or None. */
  function First<T>(s: seq<T>, p: T -> bool): (r: Option<T>)
    ensures r.Some? ==> r.value in s && p(r.value)
    ensures r.None? <==> forall j :: 0 <= j < |s| ==> !p(s[j])
  {
    match FirstIndex(s, p)
    case None => None
    case Some(k) => Some(s[k])
  }

  /** `s.filter((_, i) => i !== index)`: drops the element at `index`, if any. */
  function WithoutIndex<T>(s: seq<T>, index: int): (r: seq<T>)
    decreases |s|
  {
    if s == [] then [] else (if index == 0 then [] else [s[0]]) + WithoutIndex(s[1..], index - 1)
  }

  lemma {:induction false} WithoutIndexSlices<T>(s: seq<T>, index: int)
    ensures 0 <= index < |s| ==> WithoutIndex(s, index) == s[..index] + s[index + 1..]
    ensures !(0 <= index < |s|) ==> WithoutIndex(s, index) == s
    decreases |s|
  {
    if s != [] {
      var tail := s[1..];
      WithoutIndexSlices(tail, index - 1);
      assert WithoutIndex(s, index) == (if index == 0 then [] else [s[0]]) + WithoutIndex(tail, index - 1);
      if index == 0 {
        assert s[index + 1..] == tail;
      } else if 0 < index < |s| {
        assert WithoutIndex(tail, index - 1) == tail[..index - 1] + tail[index..];
        assert s[..index] == [s[0]] + tail[..index - 1];
        assert s[index + 1..] == tail[index..];
      } else {
        assert WithoutIndex(tail, index - 1) == tail;
        assert [s[0]] + tail == s;
      }
    }
  }

  /** After removing the element at `k`, the elements before it keep their
      index and the ones after it move down by one. */
  lemma RemovedAt<T>(s: seq<T>, k: nat)
    requires k < |s|
    ensures |s[..k] + s[k + 1..]| == |s| - 1
    ensures forall i :: 0 <= i < k ==> (s[..k] + s[k + 1..])[i] == s[i]
    ensures forall i :: k < i < |s| ==> (s[..k] + s[k + 1..])[i - 1] == s[i]
  {
  }

  /** `f` applied to each element from left to right: the results in order,
      or the exception of the first element that throws. */
  function MapResults<T, U>(s: seq<T>, f: T -> Result<U>): Result<seq<U>>
    decreases |s|
  {
    if s == [] then Ok([])
    else match MapResults(s[..|s| - 1], f)
      case Throws(e) => Throws(e)
      case Ok(rs) =>
        match f(s[|s| - 1])
        case Throws(e) => Throws(e)
        case Ok(r) => Ok(rs + [r])
  }

  /** The mapping succeeds exactly when every element does, and then holds
      one result per element, in order. */
  lemma {:induction false} MapResultsShape<T, U>(s: seq<T>, f: T -> Result<U>)
    ensures MapResults(s, f).Ok? <==> forall i :: 0 <= i < |s| ==> f(s[i]).Ok?
    ensures MapResults(s, f).Ok? ==>
      |MapResults(s, f).value| == |s| && forall i :: 0 <= i < |s| ==> Ok(MapResults(s, f).value[i]) == f(s[i])
    decreases |s|
  {
    if s != [] {
      var n := |s| - 1;
      var init := s[..n];
      MapResultsShape(init, f);
      assert forall i :: 0 <= i < n ==> init[i] == s[i];
      match MapResults(init, f)
      case Throws(e) =>
        var i :| 0 <= i < n && !f(init[i]).Ok?;
        assert !f(s[i]).Ok?;
      case Ok(rs) =>
        match f(s[n])
        case Throws(e) =>
        case Ok(r) =>
          var all := rs + [r];
          assert MapResults(s, f) == Ok(all);
          assert forall i :: 0 <= i < n ==> all[i] == rs[i];
    }
  }

  /** Once a prefix throws, the whole mapping throws the same exception. */
  lemma {:induction false} MapResultsPrefixThrows<T, U>(s: seq<T>, f: T -> Result<U>, n: nat)
    requires n <= |s| && MapResults(s[..n], f).Throws?
    ensures MapResults(s, f) == MapResults(s[..n], f)
    decreases |s| - n
  {
    if n < |s| {
      assert s[..n + 1][..n] == s[..n];
      MapResultsPrefixThrows(s, f, n + 1);
    } else {
      assert s[..n] == s;
    }
  }

  /** The sum of the integers a projection gives (`reduce((sum, x) => sum + f(x), 0)`). */
  function SumOf<T>(s: seq<T>, f: T -> int): int
  {
    if s == [] then 0 else f(s[0]) + SumOf(s[1..], f)
  }
  /** Two sequences that agree on the projection at every index have the same sum. */
  lemma {:induction false} SumOfPointwise<T>(a: seq<T>, b: seq<T>, f: T -> int)
    requires |a| == |b|
    requires forall i :: 0 <= i < |a| ==> f(a[i]) == f(b[i])
    ensures SumOf(a, f) == SumOf(b, f)
  {
    if a != [] {
      SumOfPointwise(a[1..], b[1..], f);
    }
  }

  /** Index by index, when `p` holding on `a` implies `q` holding on `b`,
      filtering `b` by `q` keeps at least as many elements. */
  /** Filters that agree position by position keep as many elements. */
  lemma FilterPointwiseEqual<T>(a: seq<T>, b: seq<T>, p: T -> bool, q: T -> bool)
    requires |a| == |b|
    requires forall i :: 0 <= i < |a| ==> (p(a[i]) <==> q(b[i]))
    ensures |Filter(a, p)| == |Filter(b, q)|
  {
    FilterPointwise(a, b, p, q);
    FilterPointwise(b, a, q, p);
  }

  lemma {:induction false} FilterPointwise<T>(a: seq<T>, b: seq<T>, p: T -> bool, q: T -> bool)
    requires |a| == |b|
    requires forall i :: 0 <= i < |a| && p(a[i]) ==> q(b[i])
    ensures |Filter(a, p)| <= |Filter(b, q)|
  {
    if a != [] {
      FilterPointwise(a[1..], b[1..], p, q);
    }
  }

  /** One step of a loop that builds `MapResults(s, f)`: with the first i
      results in hand, element i either adds its result or ends the whole
      mapping with its exception. */
  lemma MapResultsStep<T, U>(s: seq<T>, f: T -> Result<U>, i: nat, list: seq<U>)
    requires i < |s| && MapResults(s[..i], f) == Ok(list)
    ensures f(s[i]).Ok? ==> MapResults(s[..i + 1], f) == Ok(list + [f(s[i]).value])
    ensures f(s[i]).Throws? ==> MapResults(s, f) == Throws(f(s[i]).exception)
  {
    assert s[..i + 1][..i] == s[..i];
    if f(s[i]).Throws? {
      MapResultsPrefixThrows(s, f, i + 1);
    }
  }

  /** `f(1), ..., f(n)`, in order. */
  function Tabulate<T>(n: nat, f: nat -> T): (r: seq<T>)
    ensures |r| == n
  {
    if n == 0 then [] else Tabulate(n - 1, f) + [f(n)]
  }

  /** Position d - 1 of the table holds `f(d)`. */
  lemma {:induction false} TabulateAt<T>(n: nat, f: nat -> T)
    ensures forall d :: 1 <= d <= n ==> Tabulate(n, f)[d - 1] == f(d)
  {
    if n > 0 {
      TabulateAt(n - 1, f);
      assert forall i :: 0 <= i < n - 1 ==> Tabulate(n, f)[i] == Tabulate(n - 1, f)[i];
    }
  }

  /** Appending `f(n + 1)` after a table of n entries gives the table of n + 1. */
  lemma AppendTabulated<T>(prefix: seq<T>, n: nat, f: nat -> T, x: T)
    requires x == f(n + 1)
    ensures prefix + Tabulate(n, f) + [x] == prefix + Tabulate(n + 1, f)
  {
    assert Tabulate(n + 1, f) == Tabulate(n, f) + [x];
    assert prefix + Tabulate(n, f) + [x] == prefix + (Tabulate(n, f) + [x]);
  }
}
