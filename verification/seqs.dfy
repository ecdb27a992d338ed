/**
 * The Kotlin collection functions the report list relies on (`indexOfFirst`,
 * `removeAt`, `set`, `filter`, `count`), each stated once over plain sequences.
 */
module Seqs {

  /** Kotlin's `indexOfFirst`: the first position whose element satisfies `p`, or -1. */
  function IndexOfFirst<T>(s: seq<T>, p: T -> bool): (i: int)
    ensures -1 <= i < |s|
    ensures i == -1 <==> forall j :: 0 <= j < |s| ==> !p(s[j])
    ensures 0 <= i ==> p(s[i]) && forall j :: 0 <= j < i ==> !p(s[j])
  {
    if |s| == 0 then -1
    else if p(s[0]) then 0
    else
      var k := IndexOfFirst(s[1..], p);
      assert forall j :: 1 <= j < |s| ==> s[j] == s[1..][j - 1];
      if k == -1 then -1 else k + 1
  }

  /** Kotlin's `removeAt`: drops position `i`, the others keep their relative order. */
  function RemoveAt<T>(s: seq<T>, i: int): (r: seq<T>)
    requires 0 <= i < |s|
    ensures |r| == |s| - 1
    ensures forall j :: 0 <= j < i ==> r[j] == s[j]
    ensures forall j :: i <= j < |r| ==> r[j] == s[j + 1]
    ensures multiset(r) + multiset{s[i]} == multiset(s)
  {
    assert s == s[..i] + [s[i]] + s[i + 1..];
    s[..i] + s[i + 1..]
  }

  /**
   * `indexOfFirst` followed by `removeAt` when something was found: removes the
   * first element satisfying `p` and nothing else.
   */
  function RemoveFirstWhere<T>(s: seq<T>, p: T -> bool): (r: seq<T>)
    ensures (forall j :: 0 <= j < |s| ==> !p(s[j])) ==> r == s
    ensures 0 <= IndexOfFirst(s, p) ==> r == RemoveAt(s, IndexOfFirst(s, p))
  {
    var i := IndexOfFirst(s, p);
    if i < 0 then s else RemoveAt(s, i)
  }

  /**
   * `indexOfFirst` followed by `list[idx] = v` when something was found:
   * replaces the first element satisfying `p` and nothing else.
   */
  function ReplaceFirstWhere<T>(s: seq<T>, p: T -> bool, v: T): (r: seq<T>)
    ensures |r| == |s|
    ensures (forall j :: 0 <= j < |s| ==> !p(s[j])) ==> r == s
    ensures 0 <= IndexOfFirst(s, p) ==>
              r[IndexOfFirst(s, p)] == v &&
              forall j :: 0 <= j < |s| && j != IndexOfFirst(s, p) ==> r[j] == s[j]
  {
    var i := IndexOfFirst(s, p);
    if i < 0 then s else s[i := v]
  }

  /** Kotlin's `filter`: the elements satisfying `p`, in their original order. */
  function Filter<T(==)>(s: seq<T>, p: T -> bool): (r: seq<T>)
    ensures |r| <= |s|
    ensures forall i :: 0 <= i < |r| ==> p(r[i])
    ensures forall x :: x in r ==> x in s
    ensures forall x :: x in s ==> (x in r <==> p(x))
  {
    if |s| == 0 then []
    else (if p(s[0]) then [s[0]] else []) + Filter(s[1..], p)
  }

  /** The filter keeps every passing element as often as it occurs, and drops every other one. */
  lemma {:induction false} FilterMultiplicity<T>(s: seq<T>, p: T -> bool, x: T)
    ensures multiset(Filter(s, p))[x] == if p(x) then multiset(s)[x] else 0
  {
    if |s| > 0 {
      FilterMultiplicity(s[1..], p, x);
      assert s == [s[0]] + s[1..];
      assert multiset(s) == multiset{s[0]} + multiset(s[1..]);
    }
  }

  /** Kotlin's `count { p }`: how many elements satisfy `p`. */
  function Count<T(==)>(s: seq<T>, p: T -> bool): (n: nat)
    ensures n <= |s|
    ensures n == |Filter(s, p)|
  {
    |Filter(s, p)|
  }

  /** Filtering distributes over concatenation; this is what "order-preserving" means. */
  lemma {:induction false} FilterAppend<T>(a: seq<T>, b: seq<T>, p: T -> bool)
    ensures Filter(a + b, p) == Filter(a, p) + Filter(b, p)
  {
    if |a| == 0 {
      assert a + b == b;
    } else {
      assert (a + b)[0] == a[0];
      assert (a + b)[1..] == a[1..] + b;
      FilterAppend(a[1..], b, p);
    }
  }

  /** A filter that every element passes returns its input unchanged. */
  lemma {:induction false} FilterKeepsAll<T>(s: seq<T>, p: T -> bool)
    requires forall i :: 0 <= i < |s| ==> p(s[i])
    ensures Filter(s, p) == s
  {
    if |s| > 0 {
      FilterKeepsAll(s[1..], p);
      assert s == [s[0]] + s[1..];
    }
  }

  /** Filtering a sequence whose only failing element is `x` drops exactly `x`. */
  lemma FilterDropsOne<T>(pre: seq<T>, x: T, post: seq<T>, p: T -> bool)
    requires forall k :: 0 <= k < |pre| ==> p(pre[k])
    requires !p(x)
    requires forall k :: 0 <= k < |post| ==> p(post[k])
    ensures Filter(pre + [x] + post, p) == pre + post
  {
    FilterAppend(pre + [x], post, p);
    FilterAppend(pre, [x], p);
    FilterKeepsAll(pre, p);
    FilterKeepsAll(post, p);
    assert [x][1..] == [];
    assert Filter([x], p) == [];
    assert Filter(pre + [x], p) == pre;
  }

  /** Counting over a filtered sequence never yields more than counting over the whole one. */
  lemma {:induction false} CountOfFilterAtMost<T>(s: seq<T>, q: T -> bool, p: T -> bool)
    ensures Count(Filter(s, q), p) <= Count(s, p)
  {
    if |s| > 0 {
      CountOfFilterAtMost(s[1..], q, p);
      var rest := Filter(s[1..], q);
      assert |Filter(s, p)| == (if p(s[0]) then 1 else 0) + |Filter(s[1..], p)|;
      if q(s[0]) {
        var fs := Filter(s, q);
        assert fs == [s[0]] + rest;
        assert fs[0] == s[0] && fs[1..] == rest;
        assert |Filter(fs, p)| == (if p(s[0]) then 1 else 0) + |Filter(rest, p)|;
      } else {
        assert Filter(s, q) == rest;
      }
    }
  }

  /** An element that passes the test adds one to the count of the rest. */
  lemma CountWithOne<T>(pre: seq<T>, x: T, post: seq<T>, p: T -> bool)
    requires p(x)
    ensures Count(pre + [x] + post, p) == Count(pre + post, p) + 1
  {
    FilterAppend(pre + [x], post, p);
    FilterAppend(pre, [x], p);
    FilterAppend(pre, post, p);
    assert [x][1..] == [];
    assert Filter([x], p) == [x];
  }

  /** Counting over a concatenation adds the counts of the parts. */
  lemma CountAppend<T>(a: seq<T>, b: seq<T>, p: T -> bool)
    ensures Count(a + b, p) == Count(a, p) + Count(b, p)
  {
    FilterAppend(a, b, p);
  }
}
