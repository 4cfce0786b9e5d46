/**
  The JavaScript array operations the quiz engine and the topic pages rely on:
  `find`, `findIndex`, `filter`, `slice(0, end)`, and a reordering that stands
  for the result of `sort` with an arbitrary comparator.
 */
module Seqs {
  import opened Wrappers

  /** `a` can be obtained from `b` by deleting elements, keeping the order of the rest. */
  predicate IsSubsequence<T(==)>(a: seq<T>, b: seq<T>)
    decreases |b|
  {
    if a == [] then true
    else if b == [] then false
    else if a[0] == b[0] then IsSubsequence(a[1..], b[1..])
    else IsSubsequence(a, b[1..])
  }

  lemma {:induction false} SubsequenceOfTail<T>(a: seq<T>, b: seq<T>)
    requires b != [] && IsSubsequence(a, b[1..])
    ensures IsSubsequence(a, b)
    decreases |b|, 1
  {
    if a != [] && a[0] == b[0] {
      SubsequenceDropFirst(a, b[1..]);
    }
  }

  lemma {:induction false} SubsequenceDropFirst<T>(a: seq<T>, c: seq<T>)
    requires a != [] && IsSubsequence(a, c)
    ensures IsSubsequence(a[1..], c)
    decreases |c| + 1, 0
  {
    if a[1..] != [] {
      if a[0] != c[0] {
        SubsequenceDropFirst(a, c[1..]);
      }
      SubsequenceOfTail(a[1..], c);
    }
  }

  /** Every element of a subsequence of `b` occurs in `b`. */
  lemma {:induction false} SubsequenceMembers<T>(a: seq<T>, b: seq<T>)
    requires IsSubsequence(a, b)
    ensures forall i :: 0 <= i < |a| ==> a[i] in b
    decreases |b|
  {
    if a != [] && b != [] {
      if a[0] == b[0] {
        SubsequenceMembers(a[1..], b[1..]);
        assert forall i :: 1 <= i < |a| ==> a[i] == a[1..][i - 1];
      } else {
        SubsequenceMembers(a, b[1..]);
      }
    }
  }

  /** `findIndex`: the first position whose element satisfies `p`, or -1. */
  function FindIndex<T>(s: seq<T>, p: T -> bool): (r: int)
    ensures -1 <= r < |s|
    ensures r == -1 <==> forall i :: 0 <= i < |s| ==> !p(s[i])
    ensures r >= 0 ==> p(s[r]) && forall i :: 0 <= i < r ==> !p(s[i])
  {
    if s == [] then -1
    else if p(s[0]) then 0
    else
      var r := FindIndex(s[1..], p);
      if r == -1 then -1 else r + 1
  }

  /** `find`: the first element that satisfies `p`, or nothing. */
  function Find<T>(s: seq<T>, p: T -> bool): (r: Option<T>)
    ensures r.None? <==> forall i :: 0 <= i < |s| ==> !p(s[i])
    ensures r.Some? ==> exists i :: 0 <= i < |s| && s[i] == r.value && p(s[i]) && forall j :: 0 <= j < i ==> !p(s[j])
  {
    var i := FindIndex(s, p);
    if i == -1 then None else Some(s[i])
  }

  /** `filter`: the elements that satisfy `p`, in their original order. */
  function Filter<T(==)>(s: seq<T>, p: T -> bool): (r: seq<T>)
    ensures |r| <= |s|
    ensures forall i :: 0 <= i < |r| ==> p(r[i]) && r[i] in s
    ensures forall i :: 0 <= i < |s| && p(s[i]) ==> s[i] in r
    ensures IsSubsequence(r, s)
  {
    if s == [] then []
    else
      var rest := Filter(s[1..], p);
      if p(s[0]) then
        [s[0]] + rest
      else
        SubsequenceOfTail(rest, s);
        rest
  }

  /** Each value occurs in the filtered list as often as in `s` when it satisfies `p`, and not at all otherwise. */
  lemma {:induction false} FilterCounts<T(!new)>(s: seq<T>, p: T -> bool)
    ensures forall x :: multiset(Filter(s, p))[x] == if p(x) then multiset(s)[x] else 0
  {
    if s != [] {
      FilterCounts(s[1..], p);
      assert s == [s[0]] + s[1..];
    }
  }

  lemma {:induction false} FilterAppend<T>(a: seq<T>, b: seq<T>, p: T -> bool)
    ensures Filter(a + b, p) == Filter(a, p) + Filter(b, p)
  {
    if a != [] {
      assert (a + b)[1..] == a[1..] + b;
      FilterAppend(a[1..], b, p);
    } else {
      assert a + b == b;
    }
  }

  lemma {:induction false} FilterKeepsAll<T>(s: seq<T>, p: T -> bool)
    requires forall i :: 0 <= i < |s| ==> p(s[i])
    ensures Filter(s, p) == s
  {
    if s != [] {
      FilterKeepsAll(s[1..], p);
    }
  }

  lemma {:induction false} FilterDropsAll<T>(s: seq<T>, p: T -> bool)
    requires forall i :: 0 <= i < |s| ==> !p(s[i])
    ensures Filter(s, p) == []
  {
    if s != [] {
      FilterDropsAll(s[1..], p);
    }
  }

  /**
    Filtering four runs that alternately pass and fail `p` keeps either the
    first and third run or the second and fourth.
   */
  lemma FilterRuns<T>(a: seq<T>, b: seq<T>, c: seq<T>, d: seq<T>, p: T -> bool, firstKept: bool)
    requires forall i :: 0 <= i < |a| ==> p(a[i]) == firstKept
    requires forall i :: 0 <= i < |b| ==> p(b[i]) == !firstKept
    requires forall i :: 0 <= i < |c| ==> p(c[i]) == firstKept
    requires forall i :: 0 <= i < |d| ==> p(d[i]) == !firstKept
    ensures Filter(a + b + c + d, p) == if firstKept then a + c else b + d
  {
    FilterAppend(a + b + c, d, p);
    FilterAppend(a + b, c, p);
    FilterAppend(a, b, p);
    if firstKept {
      FilterKeepsAll(a, p); FilterDropsAll(b, p); FilterKeepsAll(c, p); FilterDropsAll(d, p);
      calc {
        Filter(a + b + c + d, p);
        Filter(a, p) + Filter(b, p) + Filter(c, p) + Filter(d, p);
        a + [] + c + [];
        { assert a + [] == a; assert a + c + [] == a + c; }
        a + c;
      }
    } else {
      FilterDropsAll(a, p); FilterKeepsAll(b, p); FilterDropsAll(c, p); FilterKeepsAll(d, p);
      calc {
        Filter(a + b + c + d, p);
        Filter(a, p) + Filter(b, p) + Filter(c, p) + Filter(d, p);
        [] + b + [] + d;
        { assert [] + b == b; assert b + [] == b; }
        b + d;
      }
    }
  }

  /**
    When exactly one of `p` and `q` holds of each element, every element lands
    in exactly one of the two filtered sequences, and their lengths add up.
   */
  lemma {:induction false} FilterPartition<T>(s: seq<T>, p: T -> bool, q: T -> bool)
    requires forall i :: 0 <= i < |s| ==> p(s[i]) != q(s[i])
    ensures forall i :: 0 <= i < |s| ==> (s[i] in Filter(s, p)) != (s[i] in Filter(s, q))
    ensures |Filter(s, p)| + |Filter(s, q)| == |s|
  {
    if s != [] {
      FilterPartition(s[1..], p, q);
    }
  }

  /** The elements of `s` are pairwise distinct. */
  predicate Distinct<T(==)>(s: seq<T>) {
    forall i, j :: 0 <= i < j < |s| ==> s[i] != s[j]
  }

  /** `order` lists each position of a length-`n` sequence exactly once. */
  predicate IsOrdering(order: seq<int>, n: nat) {
    && |order| == n
    && (forall i :: 0 <= i < |order| ==> 0 <= order[i] < n)
    && Distinct(order)
  }

  /** `s` rearranged so that position `i` holds `s[order[i]]`. */
  function Permute<T>(s: seq<T>, order: seq<int>): (r: seq<T>)
    requires IsOrdering(order, |s|)
    ensures |r| == |s|
    ensures forall i :: 0 <= i < |r| ==> r[i] == s[order[i]]
  {
    seq(|order|, i requires 0 <= i < |order| => s[order[i]])
  }

  /** A sequence without repetitions has as many distinct elements as positions. */
  lemma {:induction false} DistinctElementCount<T>(s: seq<T>)
    requires Distinct(s)
    ensures |set x | x in s| == |s|
  {
    if s != [] {
      var prefix := s[..|s| - 1];
      DistinctElementCount(prefix);
      assert (set x | x in s) == (set x | x in prefix) + {s[|s| - 1]};
    } else {
      assert (set x | x in s) == {};
    }
  }

  /** A sequence has at most as many distinct elements as positions. */
  lemma {:induction false} ElementCountAtMost<T>(s: seq<T>)
    ensures |set x | x in s| <= |s|
  {
    if s != [] {
      var prefix := s[..|s| - 1];
      ElementCountAtMost(prefix);
      assert (set x | x in s) == (set x | x in prefix) + {s[|s| - 1]};
    } else {
      assert (set x | x in s) == {};
    }
  }

  /** 0, 1, ..., n - 1 */
  function Range(n: nat): (r: seq<int>)
    ensures |r| == n && forall i :: 0 <= i < n ==> r[i] == i
  {
    seq(n, i => i)
  }

  /** Every position of a length-`n` sequence is listed somewhere in an ordering of it. */
  lemma OrderingIsOnto(order: seq<int>, n: nat, k: int)
    requires IsOrdering(order, n) && 0 <= k < n
    ensures k in order
  {
    var listed := set x | x in order;
    var all := set x | x in Range(n);
    DistinctElementCount(order);
    DistinctElementCount(Range(n));
    assert listed <= all by {
      forall x | x in listed ensures x in all {
        assert Range(n)[x] == x;
      }
    }
    if k !in listed {
      assert k in all by { assert Range(n)[k] == k; }
      assert listed <= all - {k};
      SubsetSize(listed, all - {k});
      assert false;
    }
  }

  lemma SubsetSize<T>(a: set<T>, b: set<T>)
    requires a <= b
    ensures |a| <= |b|
  {
    assert b == a + (b - a);
  }

  /**
    `slice(0, end)`: a negative `end` counts back from the end of the sequence
    (and is clamped at 0), a non-negative one is clamped at the length.
   */
  function SliceTo<T>(s: seq<T>, end: int): (r: seq<T>)
    ensures end >= 0 ==> |r| == if end < |s| then end else |s|
    ensures end < 0 ==> |r| == if |s| + end > 0 then |s| + end else 0
    ensures r == s[..|r|]
  {
    var e := if end < 0 then (if |s| + end > 0 then |s| + end else 0)
             else (if end < |s| then end else |s|);
    s[..e]
  }
}
