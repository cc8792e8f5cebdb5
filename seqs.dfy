/**
 Sequence helpers shared by the model: an order-preserving filter (the
 `.filter(...)` of a query), duplicate-freedom, subsequences, SQL `DISTINCT`,
 the row multiplication of an inner join, and a stable descending sort (a
 model `Meta.ordering` with a leading `-`), plus the usual `Option`.
 */
module Seqs {

  datatype Option<T> = None | Some(value: T)

  /** The elements of `s` that satisfy `p`, in their original order. */
  function Filter<T(==,!new)>(s: seq<T>, p: T -> bool): (r: seq<T>)
    ensures |r| <= |s|
    ensures forall x :: x in r <==> x in s && p(x)
  {
    if s == [] then []
    else if p(s[0]) then [s[0]] + Filter(s[1..], p)
    else Filter(s[1..], p)
  }

  /** Filtering keeps every kept element as often as it occurred. */
  lemma {:induction false} FilterCount<T(!new)>(s: seq<T>, p: T -> bool, x: T)
    ensures multiset(Filter(s, p))[x] == if p(x) then multiset(s)[x] else 0
  {
    if s != [] {
      FilterCount(s[1..], p, x);
      assert s == [s[0]] + s[1..];
    }
  }

  /** No element occurs twice. */
  predicate NoDup<T(==,!new)>(s: seq<T>)
  {
    forall i, j :: 0 <= i < j < |s| ==> s[i] != s[j]
  }

  lemma NoDupCount<T(!new)>(s: seq<T>, x: T)
    requires NoDup(s)
    ensures multiset(s)[x] <= 1
  {
    if s != [] {
      assert NoDup(s[1..]) by {
        forall i, j | 0 <= i < j < |s[1..]| ensures s[1..][i] != s[1..][j] {
          assert s[1..][i] == s[i + 1] && s[1..][j] == s[j + 1];
        }
      }
      NoDupCount(s[1..], x);
      assert s == [s[0]] + s[1..];
      forall k | 0 <= k < |s[1..]| ensures s[1..][k] != s[0] {
        assert s[1..][k] == s[k + 1];
      }
      assert s[0] !in s[1..];
    }
  }

  lemma CountNoDup<T(!new)>(s: seq<T>)
    requires forall x :: multiset(s)[x] <= 1
    ensures NoDup(s)
  {
    forall i, j | 0 <= i < j < |s| ensures s[i] != s[j] {
      assert s == s[..i] + [s[i]] + s[i + 1..];
      assert s[i + 1..][j - i - 1] == s[j];
      assert multiset(s)[s[j]] >= multiset([s[i]])[s[j]] + multiset(s[i + 1..])[s[j]];
    }
  }

  /** Filtering a duplicate-free sequence leaves it duplicate-free. */
  lemma FilterNoDup<T(!new)>(s: seq<T>, p: T -> bool)
    requires NoDup(s)
    ensures NoDup(Filter(s, p))
  {
    forall x ensures multiset(Filter(s, p))[x] <= 1 {
      NoDupCount(s, x);
      FilterCount(s, p, x);
    }
    CountNoDup(Filter(s, p));
  }

  /** Appending an element that is not present keeps a sequence duplicate-free. */
  lemma AppendNoDup<T(!new)>(s: seq<T>, x: T)
    requires NoDup(s) && x !in s
    ensures NoDup(s + [x])
  {
  }

  lemma {:induction false} FilterConcat<T(!new)>(a: seq<T>, b: seq<T>, p: T -> bool)
    ensures Filter(a + b, p) == Filter(a, p) + Filter(b, p)
  {
    if a == [] {
      assert a + b == b;
    } else {
      assert (a + b)[0] == a[0];
      assert (a + b)[1..] == a[1..] + b;
      FilterConcat(a[1..], b, p);
    }
  }

  /** Filtering with a predicate that every element satisfies changes nothing. */
  lemma {:induction false} FilterAll<T(!new)>(s: seq<T>, p: T -> bool)
    requires forall x :: x in s ==> p(x)
    ensures Filter(s, p) == s
  {
    if s != [] {
      assert forall x :: x in s[1..] ==> x in s;
      FilterAll(s[1..], p);
    }
  }

  /** Filtering with a predicate that no element satisfies leaves nothing. */
  lemma {:induction false} FilterNone<T(!new)>(s: seq<T>, p: T -> bool)
    requires forall x :: x in s ==> !p(x)
    ensures Filter(s, p) == []
  {
    if s != [] {
      assert forall x :: x in s[1..] ==> x in s;
      FilterNone(s[1..], p);
    }
  }

  /** Sequences with the same multiset have the same members. */
  lemma SameMembers<T(!new)>(a: seq<T>, b: seq<T>)
    requires multiset(a) == multiset(b)
    ensures forall x :: x in a <==> x in b
  {
    forall x ensures x in a <==> x in b {
      assert x in a <==> x in multiset(a);
      assert x in b <==> x in multiset(b);
    }
  }

  /** Filtering by `p` and then by `q` is filtering once by their conjunction `both`. */
  lemma {:induction false} FilterFilter<T(!new)>(s: seq<T>, p: T -> bool, q: T -> bool, both: T -> bool)
    requires forall x :: x in s ==> both(x) == (p(x) && q(x))
    ensures Filter(Filter(s, p), q) == Filter(s, both)
  {
    if s != [] {
      assert forall x :: x in s[1..] ==> x in s;
      FilterFilter(s[1..], p, q, both);
    }
  }

  /** `a` can be obtained from `b` by deleting elements: order is kept and nothing is added. */
  predicate IsSubsequence<T(==,!new)>(a: seq<T>, b: seq<T>)
    decreases |b|
  {
    if a == [] then true
    else if b == [] then false
    else if a[0] == b[0] then IsSubsequence(a[1..], b[1..])
    else IsSubsequence(a, b[1..])
  }

  lemma {:induction false} FilterIsSubsequence<T(!new)>(s: seq<T>, p: T -> bool)
    ensures IsSubsequence(Filter(s, p), s)
  {
    if s != [] {
      FilterIsSubsequence(s[1..], p);
      var rest := Filter(s[1..], p);
      if !p(s[0]) && rest != [] && rest[0] == s[0] {
        // s[0] occurs again later in s; skipping the head is still a valid match
        SubsequenceOfTail(rest, s);
      }
    }
  }

  lemma {:induction false} SubsequenceOfTail<T(!new)>(a: seq<T>, s: seq<T>)
    requires s != [] && IsSubsequence(a, s[1..])
    ensures IsSubsequence(a, s)
    decreases |s|, 1
  {
    if a != [] && a[0] == s[0] {
      // match a[0] at s[0] instead; a[1..] is a subsequence of the tail
      SubsequenceDropHead(a, s[1..]);
    }
  }

  lemma {:induction false} SubsequenceDropHead<T(!new)>(a: seq<T>, b: seq<T>)
    requires a != [] && IsSubsequence(a, b)
    ensures IsSubsequence(a[1..], b)
    decreases |b|, 2
  {
    assert b != [];
    if a[0] == b[0] {
      if a[1..] != [] {
        SubsequenceOfTail(a[1..], b);
      }
    } else {
      SubsequenceDropHead(a, b[1..]);
      if a[1..] != [] {
        SubsequenceOfTail(a[1..], b);
      }
    }
  }

  /** SQL `DISTINCT`: the first occurrence of every element, in order. */
  function Distinct<T(==,!new)>(s: seq<T>): (r: seq<T>)
    ensures NoDup(r)
    ensures forall x :: x in r <==> x in s
  {
    if s == [] then []
    else
      var d := Distinct(s[..|s| - 1]);
      var last := s[|s| - 1];
      assert s == s[..|s| - 1] + [last];
      if last in d then d else d + [last]
  }

  /** A sequence that already has no duplicates is its own `DISTINCT`. */
  lemma {:induction false} DistinctOfNoDup<T(!new)>(s: seq<T>)
    requires NoDup(s)
    ensures Distinct(s) == s
  {
    if s != [] {
      var init := s[..|s| - 1];
      assert NoDup(init) by {
        forall i, j | 0 <= i < j < |init| ensures init[i] != init[j] {
          assert init[i] == s[i] && init[j] == s[j];
        }
      }
      DistinctOfNoDup(init);
      forall k | 0 <= k < |init| ensures init[k] != s[|s| - 1] {
        assert init[k] == s[k];
      }
      assert s[|s| - 1] !in init;
      assert s == init + [s[|s| - 1]];
    }
  }

  /** `n` copies of `x`: the rows an inner join yields for `n` matching partners. */
  function Repeat<T(==,!new)>(x: T, n: nat): (r: seq<T>)
    ensures |r| == n
    ensures forall y :: y in r <==> n > 0 && y == x
    ensures forall y :: multiset(r)[y] == if y == x then n else 0
  {
    if n == 0 then [] else [x] + Repeat(x, n - 1)
  }

  /** Every element of `s`, repeated `weight(x)` times in place (an inner join without `DISTINCT`). */
  function Weighted<T(==,!new)>(s: seq<T>, weight: T -> nat): (r: seq<T>)
    ensures forall x :: x in r <==> x in s && weight(x) > 0
  {
    if s == [] then [] else Repeat(s[0], weight(s[0])) + Weighted(s[1..], weight)
  }

  /** When no element has more than one partner, the join is an order-preserving filter. */
  lemma {:induction false} WeightedAtMostOne<T(!new)>(s: seq<T>, weight: T -> nat, keep: T -> bool)
    requires forall x :: x in s ==> weight(x) <= 1 && keep(x) == (weight(x) > 0)
    ensures Weighted(s, weight) == Filter(s, keep)
  {
    if s != [] {
      assert forall x :: x in s[1..] ==> x in s;
      WeightedAtMostOne(s[1..], weight, keep);
      assert Weighted(s, weight) == Repeat(s[0], weight(s[0])) + Weighted(s[1..], weight);
      if weight(s[0]) == 0 {
        assert Repeat(s[0], weight(s[0])) == [];
      } else {
        assert Repeat(s[0], weight(s[0])) == [s[0]];
      }
    }
  }

  /** One more occurrence adds one more weight (the step of `WeightedCount`). */
  lemma OneMore(a: nat, b: nat)
    ensures (1 + a) * b == b + a * b
  {
  }

  /** The join yields every element exactly `weight` times for each time it occurs. */
  lemma {:induction false} WeightedCount<T(!new)>(s: seq<T>, weight: T -> nat, x: T)
    ensures multiset(Weighted(s, weight))[x] == multiset(s)[x] * weight(x)
  {
    if s != [] {
      var w := weight(x);
      var tail := multiset(s[1..])[x];
      WeightedCount(s[1..], weight, x);
      assert s == [s[0]] + s[1..];
      assert multiset(Weighted(s, weight))[x]
          == multiset(Repeat(s[0], weight(s[0])))[x] + multiset(Weighted(s[1..], weight))[x];
      if s[0] == x {
        assert multiset(s)[x] == 1 + tail;
        OneMore(tail, w);
      } else {
        assert multiset(s)[x] == tail;
      }
    }
  }

  /** Keys never increase from left to right. */
  predicate DescendingBy<T(==,!new)>(s: seq<T>, key: T -> int)
  {
    forall i, j :: 0 <= i < j < |s| ==> key(s[i]) >= key(s[j])
  }

  /** The tail of a descending sequence is descending and bounded by the head. */
  lemma DescendingTail<T(!new)>(s: seq<T>, key: T -> int)
    requires s != [] && DescendingBy(s, key)
    ensures DescendingBy(s[1..], key)
    ensures forall x :: x in s[1..] ==> key(x) <= key(s[0])
  {
    forall x | x in s[1..] ensures key(x) <= key(s[0]) {
      var k :| 0 <= k < |s[1..]| && s[1..][k] == x;
      assert s[k + 1] == x;
    }
  }

  lemma DescendingConcat<T(!new)>(a: seq<T>, b: seq<T>, key: T -> int)
    requires DescendingBy(a, key) && DescendingBy(b, key)
    requires forall x, y :: x in a && y in b ==> key(x) >= key(y)
    ensures DescendingBy(a + b, key)
  {
    forall i, j | 0 <= i < j < |a + b| ensures key((a + b)[i]) >= key((a + b)[j]) {
      if j < |a| {
        assert (a + b)[i] == a[i] && (a + b)[j] == a[j];
      } else if i < |a| {
        assert (a + b)[i] == a[i] && (a + b)[j] == b[j - |a|];
        assert a[i] in a && b[j - |a|] in b;
      } else {
        assert (a + b)[i] == b[i - |a|] && (a + b)[j] == b[j - |a|];
      }
    }
  }

  /** Filtering keeps a descending order. */
  lemma {:induction false} FilterDescending<T(!new)>(s: seq<T>, p: T -> bool, key: T -> int)
    requires DescendingBy(s, key)
    ensures DescendingBy(Filter(s, p), key)
  {
    if s != [] {
      DescendingTail(s, key);
      FilterDescending(s[1..], p, key);
      DescendingConcat([s[0]], Filter(s[1..], p), key);
    }
  }

  /** Repeating elements in place keeps a descending order. */
  lemma {:induction false} WeightedDescending<T(!new)>(s: seq<T>, weight: T -> nat, key: T -> int)
    requires DescendingBy(s, key)
    ensures DescendingBy(Weighted(s, weight), key)
  {
    if s != [] {
      DescendingTail(s, key);
      WeightedDescending(s[1..], weight, key);
      var copies := Repeat(s[0], weight(s[0]));
      assert forall k :: 0 <= k < |copies| ==> copies[k] == s[0] by {
        forall k | 0 <= k < |copies| ensures copies[k] == s[0] {
          assert copies[k] in copies;
        }
      }
      DescendingConcat(copies, Weighted(s[1..], weight), key);
    }
  }

  /** `DISTINCT` keeps a descending order. */
  lemma {:induction false} DistinctDescending<T(!new)>(s: seq<T>, key: T -> int)
    requires DescendingBy(s, key)
    ensures DescendingBy(Distinct(s), key)
  {
    if s != [] {
      var init := s[..|s| - 1];
      var last := s[|s| - 1];
      DistinctDescending(init, key);
      forall x | x in init ensures key(x) >= key(last) {
        var k :| 0 <= k < |init| && init[k] == x;
        assert s[k] == x;
      }
      DescendingConcat(Distinct(init), [last], key);
    }
  }

  /** `key` takes a different value at every position: a unique column. */
  predicate UniqueBy<T(!new), K(==)>(s: seq<T>, key: T -> K)
  {
    forall i, j :: 0 <= i < j < |s| ==> key(s[i]) != key(s[j])
  }

  /** A unique column means distinct rows whose keys differ pairwise. */
  lemma UniqueByMembers<T(!new), K(!new)>(s: seq<T>, key: T -> K)
    ensures UniqueBy(s, key) <==> NoDup(s) && forall a, b :: a in s && b in s && a != b ==> key(a) != key(b)
  {
    if UniqueBy(s, key) {
      forall a, b | a in s && b in s && a != b ensures key(a) != key(b) {
        var i :| 0 <= i < |s| && s[i] == a;
        var j :| 0 <= j < |s| && s[j] == b;
        assert i != j;
      }
    }
  }

  /** Filtering keeps a column unique. */
  lemma FilterUniqueBy<T(!new), K(!new)>(s: seq<T>, p: T -> bool, key: T -> K)
    requires UniqueBy(s, key)
    ensures UniqueBy(Filter(s, p), key)
  {
    UniqueByMembers(s, key);
    FilterNoDup(s, p);
    UniqueByMembers(Filter(s, p), key);
  }

  /** Appending a row with a fresh key keeps the column unique. */
  lemma AppendUniqueBy<T(!new), K(!new)>(s: seq<T>, x: T, key: T -> K)
    requires UniqueBy(s, key) && forall y :: y in s ==> key(y) != key(x)
    ensures UniqueBy(s + [x], key)
  {
    forall i, j | 0 <= i < j < |s + [x]| ensures key((s + [x])[i]) != key((s + [x])[j]) {
      assert (s + [x])[i] == s[i];
      if j == |s| {
        assert s[i] in s;
      }
    }
  }

  function InsertDesc<T(==,!new)>(x: T, s: seq<T>, key: T -> int): (r: seq<T>)
    requires DescendingBy(s, key)
    ensures DescendingBy(r, key)
    ensures multiset(r) == multiset(s) + multiset{x}
  {
    if s == [] then [x]
    else if key(x) >= key(s[0]) then [x] + s
    else
      var rest := InsertDesc(x, s[1..], key);
      assert s == [s[0]] + s[1..];
      assert forall y :: y in rest ==> key(y) <= key(s[0]) by {
        forall y | y in rest ensures key(y) <= key(s[0]) {
          assert y in multiset(rest);
          if y != x {
            assert y in multiset(s[1..]);
            var k :| 0 <= k < |s[1..]| && s[1..][k] == y;
            assert s[k + 1] == y;
          }
        }
      }
      var r := [s[0]] + rest;
      assert forall j :: 0 < j < |r| ==> r[j] in rest;
      r
  }

  /** Stable insertion sort, largest key first (`ordering = ['-field']`). */
  function SortDescBy<T(==,!new)>(s: seq<T>, key: T -> int): (r: seq<T>)
    ensures DescendingBy(r, key)
    ensures multiset(r) == multiset(s)
  {
    if s == [] then []
    else
      assert s == [s[0]] + s[1..];
      InsertDesc(s[0], SortDescBy(s[1..], key), key)
  }
}
