/**
 * Order-preserving filtering of result rows, and the fact the anti-join
 * pagination rests on: excluding the first k matches of a scan is dropping them.
 */
module Seqs {

  predicate Distinct<T(==)>(s: seq<T>) {
    forall i, j | 0 <= i < j < |s| :: s[i] != s[j]
  }

  /** The elements of `s` that satisfy `p`, in their order in `s`. */
  function Filter<T>(s: seq<T>, p: T -> bool): (r: seq<T>)
    ensures |r| <= |s|
    decreases |s|
  {
    if |s| == 0 then []
    else (if p(s[0]) then [s[0]] else []) + Filter(s[1..], p)
  }

  lemma {:induction false} FilterMembers<T>(s: seq<T>, p: T -> bool, x: T)
    ensures x in Filter(s, p) <==> x in s && p(x)
    decreases |s|
  {
    if |s| > 0 {
      FilterMembers(s[1..], p, x);
      assert s == [s[0]] + s[1..];
    }
  }

  lemma {:induction false} FilterAppend<T>(a: seq<T>, b: seq<T>, p: T -> bool)
    ensures Filter(a + b, p) == Filter(a, p) + Filter(b, p)
    decreases |a|
  {
    if |a| == 0 {
      assert a + b == b;
    } else {
      var head := if p(a[0]) then [a[0]] else [];
      assert (a + b)[0] == a[0];
      assert (a + b)[1..] == a[1..] + b;
      calc {
        Filter(a + b, p);
        head + Filter(a[1..] + b, p);
        { FilterAppend(a[1..], b, p); }
        head + (Filter(a[1..], p) + Filter(b, p));
        (head + Filter(a[1..], p)) + Filter(b, p);
      }
    }
  }

  lemma FilterSnoc<T>(s: seq<T>, x: T, p: T -> bool)
    ensures Filter(s + [x], p) == Filter(s, p) + (if p(x) then [x] else [])
  {
    FilterAppend(s, [x], p);
    assert [x][1..] == [];
  }

  /** Filtering keeps everything when every element passes, and nothing when none does. */
  lemma {:induction false} FilterAllOrNone<T>(s: seq<T>, p: T -> bool)
    ensures (forall i | 0 <= i < |s| :: p(s[i])) ==> Filter(s, p) == s
    ensures (forall i | 0 <= i < |s| :: !p(s[i])) ==> Filter(s, p) == []
    decreases |s|
  {
    if |s| > 0 {
      FilterAllOrNone(s[1..], p);
      assert forall i | 0 <= i < |s| - 1 :: s[1..][i] == s[i + 1];
      assert s == [s[0]] + s[1..];
    }
  }

  /** Two tests that agree on every element of `s` filter it alike. */
  lemma {:induction false} FilterCongruent<T>(s: seq<T>, p: T -> bool, q: T -> bool)
    requires forall i | 0 <= i < |s| :: p(s[i]) == q(s[i])
    ensures Filter(s, p) == Filter(s, q)
    decreases |s|
  {
    if |s| > 0 {
      assert forall i | 0 <= i < |s| - 1 :: s[1..][i] == s[i + 1];
      FilterCongruent(s[1..], p, q);
    }
  }

  /** Filtering by a test that implies an earlier one ignores the earlier filter. */
  lemma {:induction false} FilterOfFilter<T>(s: seq<T>, p: T -> bool, q: T -> bool)
    requires forall i | 0 <= i < |s| :: q(s[i]) ==> p(s[i])
    ensures Filter(Filter(s, p), q) == Filter(s, q)
    decreases |s|
  {
    if |s| > 0 {
      assert forall i | 0 <= i < |s| - 1 :: s[1..][i] == s[i + 1];
      FilterOfFilter(s[1..], p, q);
      var rest := Filter(s[1..], p);
      if p(s[0]) {
        var r := [s[0]] + rest;
        assert Filter(s, p) == r;
        assert r[0] == s[0] && r[1..] == rest;
        assert Filter(r, q) == (if q(s[0]) then [s[0]] else []) + Filter(rest, q);
      } else {
        assert Filter(s, p) == rest;
        assert !q(s[0]);
      }
    }
  }

  lemma {:induction false} FilterDistinct<T>(s: seq<T>, p: T -> bool)
    requires Distinct(s)
    ensures Distinct(Filter(s, p))
    decreases |s|
  {
    if |s| > 0 {
      assert forall i | 0 <= i < |s| - 1 :: s[1..][i] == s[i + 1];
      var rest := Filter(s[1..], p);
      FilterDistinct(s[1..], p);
      if p(s[0]) {
        var r := Filter(s, p);
        assert r == [s[0]] + rest;
        forall i, j | 0 <= i < j < |r|
          ensures r[i] != r[j]
        {
          if i == 0 {
            assert r[j] == rest[j - 1] && rest[j - 1] in rest;
            FilterMembers(s[1..], p, r[j]);
          } else {
            assert r[i] == rest[i - 1] && r[j] == rest[j - 1];
          }
        }
      }
    }
  }

  /**
   * `guid NOT IN (<the same scan> LIMIT k)`: in a scan without repeated rows,
   * keeping the matches that are not among the first k matches drops the first k.
   */
  lemma {:induction false} AntiJoinIsDrop<T>(s: seq<T>, p: T -> bool, q: T -> bool, k: nat)
    requires Distinct(s)
    requires forall i | 0 <= i < |s| :: q(s[i]) == (p(s[i]) && s[i] !in Take(Filter(s, p), k))
    ensures Filter(s, q) == Drop(Filter(s, p), k)
    decreases |s|
  {
    if |s| > 0 {
      var x, rest := s[0], s[1..];
      assert forall i | 0 <= i < |rest| :: rest[i] == s[i + 1];
      assert Distinct(rest);
      var matches, restMatches := Filter(s, p), Filter(rest, p);
      if !p(x) {
        assert matches == restMatches;
        AntiJoinIsDrop(rest, p, q, k);
      } else if k == 0 {
        forall i | 0 <= i < |s| ensures q(s[i]) == p(s[i]) { }
        FilterCongruent(s, q, p);
      } else {
        assert matches == [x] + restMatches;
        assert Take(matches, k) == [x] + Take(restMatches, k - 1);
        forall i | 0 <= i < |rest|
          ensures q(rest[i]) == (p(rest[i]) && rest[i] !in Take(restMatches, k - 1))
        {
          assert rest[i] == s[i + 1] && rest[i] != x;
        }
        AntiJoinIsDrop(rest, p, q, k - 1);
        assert Drop(matches, k) == Drop(restMatches, k - 1);
      }
    }
  }

  function Elements<T>(s: seq<T>): set<T> {
    set x | x in s
  }

  /** A sequence without repeats has as many elements as members. */
  lemma {:induction false} DistinctCardinality<T>(s: seq<T>)
    requires Distinct(s)
    ensures |Elements(s)| == |s|
    decreases |s|
  {
    if |s| > 0 {
      var last := |s| - 1;
      assert Distinct(s[..last]);
      DistinctCardinality(s[..last]);
      assert s == s[..last] + [s[last]];
      assert Elements(s) == Elements(s[..last]) + {s[last]};
      assert s[last] !in Elements(s[..last]);
    }
  }

  /** `LIMIT k` over a result sequence. */
  function Take<T>(s: seq<T>, k: nat): (r: seq<T>)
    ensures |r| == if k <= |s| then k else |s|
    ensures r <= s
  {
    if k <= |s| then s[..k] else s
  }

  function Drop<T>(s: seq<T>, k: nat): (r: seq<T>)
    ensures |r| == if k <= |s| then |s| - k else 0
    ensures Take(s, k) + r == s
  {
    if k <= |s| then s[k..] else []
  }

  /** A prefix of a suffix holds only members of the original, and no repeats when it had none. */
  lemma SliceMembers<T>(s: seq<T>, k: nat, r: seq<T>)
    requires r <= Drop(s, k)
    ensures forall x | x in r :: x in s
    ensures Distinct(s) ==> Distinct(r)
  {
    var rest := Drop(s, k);
    var offset := |s| - |rest|;
    assert forall i | 0 <= i < |r| :: r[i] == s[offset + i];
  }

  /** LINQ's SelectMany: the results of `f` on the elements of `s`, concatenated in order. */
  function FlatMap<T, U>(s: seq<T>, f: T -> seq<U>): (r: seq<U>)
    ensures forall i | 0 <= i < |s| :: forall y | y in f(s[i]) :: y in r
    ensures forall y | y in r :: exists i | 0 <= i < |s| :: y in f(s[i])
    decreases |s|
  {
    if |s| == 0 then []
    else
      var init := s[..|s| - 1];
      assert forall i | 0 <= i < |init| :: init[i] == s[i];
      FlatMap(init, f) + f(s[|s| - 1])
  }

  lemma FlatMapSingle<T, U>(x: T, f: T -> seq<U>)
    ensures FlatMap([x], f) == f(x)
  {
    assert [x][..0] == [];
  }

  /** The first index at which `x` occurs in `s`. */
  function IndexOf<T(==)>(s: seq<T>, x: T): (p: nat)
    requires x in s
    ensures p < |s| && s[p] == x
    decreases |s|
  {
    if s[0] == x then 0 else 1 + IndexOf(s[1..], x)
  }
}
