/** The LINQ pieces the service composes: Where, OrderBy on an integer key, Take. */
module Sequences {
  import opened Wrappers

  /** FirstOrDefault, as a position: the index of the first element satisfying p. */
  function FindFirst<T>(s: seq<T>, p: T -> bool): (r: Option<nat>)
    ensures r.Some? ==> r.value < |s| && p(s[r.value])
    ensures r.Some? ==> forall j :: 0 <= j < r.value ==> !p(s[j])
    ensures r.None? <==> forall j :: 0 <= j < |s| ==> !p(s[j])
  {
    if s == [] then None
    else if p(s[0]) then Some(0)
    else
      match FindFirst(s[1..], p)
      case None =>
        assert forall j :: 1 <= j < |s| ==> s[j] == s[1..][j - 1];
        None
      case Some(i) =>
        assert forall j :: 1 <= j < i + 1 ==> s[j] == s[1..][j - 1];
        Some(i + 1)
  }

  /** Where: the elements satisfying p, in their original order. */
  function Filter<T(!new)>(s: seq<T>, p: T -> bool): (r: seq<T>)
    ensures |r| <= |s|
    ensures forall x :: x in r <==> x in s && p(x)
    ensures forall i :: 0 <= i < |r| ==> p(r[i])
    ensures multiset(r) <= multiset(s)
  {
    if s == [] then []
    else
      assert s == [s[0]] + s[1..];
      (if p(s[0]) then [s[0]] else []) + Filter(s[1..], p)
  }

  /** A filter that no element passes leaves nothing. */
  lemma {:induction false} FilterNone<T(!new)>(s: seq<T>, p: T -> bool)
    requires forall x :: x in s ==> !p(x)
    ensures Filter(s, p) == []
  {
    if s != [] {
      assert s[0] in s;
      FilterNone(s[1..], p);
    }
  }

  lemma {:induction false} FilterAppend<T(!new)>(a: seq<T>, b: seq<T>, p: T -> bool)
    ensures Filter(a + b, p) == Filter(a, p) + Filter(b, p)
  {
    if a == [] {
      assert a + b == b;
    } else {
      assert (a + b)[1..] == a[1..] + b;
      FilterAppend(a[1..], b, p);
    }
  }

  /** Filtering by p and by its negation splits the sequence's elements between them. */
  lemma {:induction false} FilterSplit<T(!new)>(s: seq<T>, p: T -> bool, q: T -> bool)
    requires forall x :: q(x) == !p(x)
    ensures |Filter(s, p)| + |Filter(s, q)| == |s|
  {
    if s != [] {
      var t := s[1..];
      FilterSplit(t, p, q);
      assert q(s[0]) == !p(s[0]);
    }
  }

  /** The negation of a condition, as a value. */
  function Not<T(!new)>(p: T -> bool): (q: T -> bool)
    ensures forall x :: q(x) == !p(x)
  {
    x => !p(x)
  }

  /** Filtering by two conditions that agree everywhere gives the same sequence. */
  lemma {:induction false} FilterSame<T(!new)>(s: seq<T>, p: T -> bool, q: T -> bool)
    requires forall x :: p(x) == q(x)
    ensures Filter(s, p) == Filter(s, q)
  {
    if s != [] {
      FilterSame(s[1..], p, q);
    }
  }

  /** An element-wise condition true everywhere keeps the whole sequence. */
  lemma {:induction false} FilterAll<T(!new)>(s: seq<T>, p: T -> bool)
    requires forall i :: 0 <= i < |s| ==> p(s[i])
    ensures Filter(s, p) == s
  {
    if s != [] {
      FilterAll(s[1..], p);
      assert s == [s[0]] + s[1..];
    }
  }

  /** Take(n): the first n elements, or all of them when there are fewer. */
  function Take<T>(s: seq<T>, n: int): (r: seq<T>)
    ensures |r| == if n <= 0 then 0 else if n < |s| then n else |s|
  {
    if n <= 0 then [] else if n < |s| then s[..n] else s
  }

  /** Skip(n). */
  function Drop<T>(s: seq<T>, n: int): (r: seq<T>)
    ensures |r| == if n <= 0 then |s| else if n < |s| then |s| - n else 0
  {
    if n <= 0 then s else if n < |s| then s[n..] else []
  }

  /** A prefix taken at the point where a loop stops equals Take of the whole stream. */
  lemma TakePrefix<T>(done: seq<T>, rest: seq<T>, n: int)
    requires |done| == n || (rest == [] && |done| <= n)
    requires n >= 0
    ensures Take(done + rest, n) == done
  {
    if |done| == n {
      assert (done + rest)[..n] == done;
    }
  }

  /** Consecutive pages tile the sequence: the page of b elements at offset a followed by
    * the page of c elements at offset a + b is the page of b + c elements at offset a. */
  lemma PagesTile<T>(s: seq<T>, a: int, b: int, c: int)
    requires a >= 0 && b >= 0 && c >= 0
    ensures Take(Drop(s, a), b) + Take(Drop(s, a + b), c) == Take(Drop(s, a), b + c)
  {
    var left, right, whole := Take(Drop(s, a), b), Take(Drop(s, a + b), c), Take(Drop(s, a), b + c);
    assert |left| + |right| == |whole|;
    forall i | 0 <= i < |whole| ensures (left + right)[i] == whole[i] {
      if i >= |left| {
        assert |left| == b;
      }
    }
  }

  /** A slice of a sorted sequence is sorted and draws its elements from it. */
  lemma SliceSorted<T>(s: seq<T>, key: T -> int, offset: int, limit: int)
    requires SortedBy(s, key)
    ensures SortedBy(Take(Drop(s, offset), limit), key)
    ensures forall x :: x in Take(Drop(s, offset), limit) ==> x in s
    ensures |Take(Drop(s, offset), limit)| == Max(0, Min(limit, |s| - Max(0, offset)))
    ensures forall i :: 0 <= i < |Take(Drop(s, offset), limit)| ==> Take(Drop(s, offset), limit)[i] == s[Max(0, offset) + i]
  {
    var page := Take(Drop(s, offset), limit);
    var k := Max(0, offset);
    if |page| > 0 {
      var m := |page|;
      assert k + m <= |s|;
      assert page == s[k..k + m];
      SliceOfSorted(s, key, k, k + m);
    }
  }

  lemma SliceOfSorted<T>(s: seq<T>, key: T -> int, lo: int, hi: int)
    requires SortedBy(s, key) && 0 <= lo <= hi <= |s|
    ensures SortedBy(s[lo..hi], key)
  {
    forall i, j | 0 <= i < j < hi - lo ensures key(s[lo..hi][i]) <= key(s[lo..hi][j]) {
      assert s[lo..hi][i] == s[lo + i] && s[lo..hi][j] == s[lo + j];
    }
  }

  lemma TakeAppendLong<T>(a: seq<T>, b: seq<T>, n: int)
    requires n <= |a|
    ensures Take(a + b, n) == Take(a, n)
  {
    if n > 0 {
      assert (a + b)[..n] == a[..n];
    }
  }

  predicate SortedBy<T>(s: seq<T>, key: T -> int)
  {
    forall i, j :: 0 <= i < j < |s| ==> key(s[i]) <= key(s[j])
  }

  /** Insert x before the first element whose key is not smaller. */
  function InsertBy<T>(x: T, s: seq<T>, key: T -> int): (r: seq<T>)
    requires SortedBy(s, key)
    ensures SortedBy(r, key)
    ensures multiset(r) == multiset(s) + multiset{x}
    ensures |r| == |s| + 1
    ensures r[0] == x || (|s| > 0 && r[0] == s[0])
  {
    if s == [] || key(x) <= key(s[0]) then [x] + s
    else
      var t := InsertBy(x, s[1..], key);
      assert s == [s[0]] + s[1..];
      assert key(s[0]) <= key(t[0]);
      [s[0]] + t
  }

  /** OrderBy on an integer key: a sorted permutation. */
  function SortBy<T(!new)>(s: seq<T>, key: T -> int): (r: seq<T>)
    ensures SortedBy(r, key)
    ensures multiset(r) == multiset(s)
    ensures |r| == |s|
    ensures forall x :: x in r <==> x in s
  {
    if s == [] then []
    else
      assert s == [s[0]] + s[1..];
      var r := InsertBy(s[0], SortBy(s[1..], key), key);
      assert forall x :: x in r <==> x in multiset(r);
      assert forall x :: x in s <==> x in multiset(s);
      r
  }

  /** The elements' keys are pairwise different (a primary key). */
  predicate DistinctBy<T, K(==)>(s: seq<T>, key: T -> K)
  {
    forall i, j :: 0 <= i < j < |s| ==> key(s[i]) != key(s[j])
  }

  lemma {:induction false} FilterDistinctBy<T(!new), K>(s: seq<T>, p: T -> bool, key: T -> K)
    requires DistinctBy(s, key)
    ensures DistinctBy(Filter(s, p), key)
  {
    if s != [] {
      FilterDistinctBy(s[1..], p, key);
      var rest := Filter(s[1..], p);
      forall j | 0 <= j < |rest| ensures key(s[0]) != key(rest[j]) {
        assert rest[j] in s[1..];
      }
    }
  }

  /** Removing one element keeps the key distinct and drops exactly the elements with that
    * element's key. */
  lemma RemoveAtDistinct<T, K>(s: seq<T>, key: T -> K, i: nat)
    requires DistinctBy(s, key) && i < |s|
    ensures DistinctBy(s[..i] + s[i + 1..], key)
    ensures forall x :: x in s[..i] + s[i + 1..] <==> x in s && key(x) != key(s[i])
  {
    var rest := s[..i] + s[i + 1..];
    assert |rest| == |s| - 1;
    forall k | 0 <= k < |rest| ensures rest[k] == s[if k < i then k else k + 1] {
      if k < i {
        assert rest[k] == s[..i][k];
      } else {
        assert rest[k] == s[i + 1..][k - i];
      }
    }
    forall x | x in s && key(x) != key(s[i]) ensures x in rest {
      var k :| 0 <= k < |s| && s[k] == x;
      if k < i {
        assert rest[k] == x;
      } else {
        assert rest[k - 1] == x;
      }
    }
    forall x | x in rest ensures x in s && key(x) != key(s[i]) {
      var k :| 0 <= k < |rest| && rest[k] == x;
      if k < i {
        assert s[k] == x;
      } else {
        assert s[k + 1] == x;
      }
    }
    forall a, b | 0 <= a < b < |rest| ensures key(rest[a]) != key(rest[b]) {
      var a' := if a < i then a else a + 1;
      var b' := if b < i then b else b + 1;
      assert rest[a] == s[a'] && rest[b] == s[b'];
    }
  }

  /** Replacing an element by one with the same key keeps the keys distinct. */
  lemma ReplaceDistinct<T, K>(s: seq<T>, key: T -> K, i: nat, x: T)
    requires DistinctBy(s, key) && i < |s| && key(x) == key(s[i])
    ensures DistinctBy(s[i := x], key)
  {
    var r := s[i := x];
    forall a, b | 0 <= a < b < |r| ensures key(r[a]) != key(r[b]) {
      assert key(r[a]) == key(s[a]) && key(r[b]) == key(s[b]);
    }
  }

  /** Two sequences with distinct keys and no key in common concatenate to one. */
  lemma AppendDistinct<T, K>(a: seq<T>, b: seq<T>, key: T -> K)
    requires DistinctBy(a, key) && DistinctBy(b, key)
    requires forall x, y :: x in a && y in b ==> key(x) != key(y)
    ensures DistinctBy(a + b, key)
  {
    var c := a + b;
    forall i, j | 0 <= i < j < |c| ensures key(c[i]) != key(c[j]) {
      if i < |a| && j >= |a| {
        assert c[i] in a && c[j] == b[j - |a|];
      } else if i >= |a| {
        assert c[i] == b[i - |a|] && c[j] == b[j - |a|];
      }
    }
  }

  /** Sorting a sequence that is already sorted leaves it as it is. */
  lemma {:induction false} SortBySorted<T(!new)>(s: seq<T>, key: T -> int)
    requires SortedBy(s, key)
    ensures SortBy(s, key) == s
  {
    if s != [] {
      SortBySorted(s[1..], key);
    }
  }

  /** On plain integers the sorted permutation is unique. */
  lemma {:induction false} SortedPermutationUnique(a: seq<int>, b: seq<int>)
    requires multiset(a) == multiset(b)
    requires forall i, j :: 0 <= i < j < |a| ==> a[i] <= a[j]
    requires forall i, j :: 0 <= i < j < |b| ==> b[i] <= b[j]
    ensures a == b
  {
    if a != [] {
      assert |a| == |multiset(a)| == |b|;
      SortedHeadsAgree(a, b);
      TailMultiset(a);
      TailMultiset(b);
      SortedPermutationUnique(a[1..], b[1..]);
      assert a == [a[0]] + a[1..] && b == [b[0]] + b[1..];
    }
  }

  /** Two sorted sequences with the same elements start with the same (least) element. */
  lemma SortedHeadsAgree(a: seq<int>, b: seq<int>)
    requires a != [] && b != [] && multiset(a) == multiset(b)
    requires forall i, j :: 0 <= i < j < |a| ==> a[i] <= a[j]
    requires forall i, j :: 0 <= i < j < |b| ==> b[i] <= b[j]
    ensures a[0] == b[0]
  {
    assert a[0] in multiset(b) && b[0] in multiset(a);
    var i :| 0 <= i < |b| && b[i] == a[0];
    var j :| 0 <= j < |a| && a[j] == b[0];
    assert b[0] <= b[i] && a[0] <= a[j];
  }

  lemma TailMultiset(a: seq<int>)
    requires a != []
    ensures multiset(a[1..]) == multiset(a) - multiset{a[0]}
  {
    assert a == [a[0]] + a[1..];
  }

  function Identity(x: int): int { x }

  /** OrderBy(d => d) on instants. */
  function SortInts(s: seq<int>): (r: seq<int>)
    ensures forall i, j :: 0 <= i < j < |r| ==> r[i] <= r[j]
    ensures multiset(r) == multiset(s)
  {
    SortBy(s, Identity)
  }

  /** Concatenation associates; stated once so loops over appended pieces can regroup them. */
  lemma AppendAssoc<T>(a: seq<T>, b: seq<T>, c: seq<T>)
    ensures (a + b) + c == a + (b + c)
  {
  }
}
