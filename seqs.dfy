/** Sequence helpers shared by the filter, delete, column and sort models. */
module Seqs {

  /** `Array.prototype.filter`: the elements satisfying `p`, in their original order. */
  function Select<T>(s: seq<T>, p: T -> bool): (r: seq<T>)
    ensures |r| <= |s|
  {
    if s == [] then [] else (if p(s[0]) then [s[0]] else []) + Select(s[1..], p)
  }

  /** Exactly the elements satisfying `p` are kept. */
  lemma {:induction false} SelectMembers<T(!new)>(s: seq<T>, p: T -> bool)
    ensures forall x :: x in Select(s, p) <==> x in s && p(x)
  {
    if s != [] {
      SelectMembers(s[1..], p);
      assert s == [s[0]] + s[1..];
    }
  }

  /** Something is dropped when some element fails `p`. */
  lemma {:induction false} SelectDropsOne<T>(s: seq<T>, p: T -> bool, x: T)
    requires x in s && !p(x)
    ensures |Select(s, p)| < |s|
  {
    if s[0] != x {
      SelectDropsOne(s[1..], p, x);
    }
  }

  /** `a` is obtained from `b` by deleting elements, keeping the order of the rest. */
  predicate IsSubseq<T(==)>(a: seq<T>, b: seq<T>)
  {
    if a == [] then true
    else if b == [] then false
    else (a[0] == b[0] && IsSubseq(a[1..], b[1..])) || IsSubseq(a, b[1..])
  }

  lemma {:induction false} SelectIsSubseq<T(!new)>(s: seq<T>, p: T -> bool)
    ensures IsSubseq(Select(s, p), s)
  {
    if s != [] {
      SelectIsSubseq(s[1..], p);
      if p(s[0]) {
        assert Select(s, p) == [s[0]] + Select(s[1..], p);
        assert Select(s, p)[1..] == Select(s[1..], p);
      } else {
        assert Select(s, p) == Select(s[1..], p);
      }
    }
  }

  /** Each kept element keeps its multiplicity; every other element is dropped. */
  lemma {:induction false} SelectCount<T(!new)>(s: seq<T>, p: T -> bool)
    ensures forall x :: multiset(Select(s, p))[x] == if p(x) then multiset(s)[x] else 0
  {
    if s != [] {
      SelectCount(s[1..], p);
      assert s == [s[0]] + s[1..];
      assert multiset(s) == multiset([s[0]]) + multiset(s[1..]);
    }
  }

  /** Selecting by `p1` and then by `p2` is selecting by their conjunction. */
  lemma {:induction false} SelectSelect<T(!new)>(s: seq<T>, p1: T -> bool, p2: T -> bool, both: T -> bool)
    requires forall x :: both(x) == (p1(x) && p2(x))
    ensures Select(Select(s, p1), p2) == Select(s, both)
  {
    if s != [] {
      SelectSelect(s[1..], p1, p2, both);
      var rest := Select(s[1..], p1);
      if p1(s[0]) {
        assert Select(s, p1) == [s[0]] + rest;
        assert ([s[0]] + rest)[1..] == rest;
        assert Select([s[0]] + rest, p2) == (if p2(s[0]) then [s[0]] else []) + Select(rest, p2);
      } else {
        assert Select(s, p1) == rest;
      }
    }
  }

  /** Selecting by a predicate every element satisfies changes nothing. */
  lemma {:induction false} SelectAll<T(!new)>(s: seq<T>, p: T -> bool)
    requires forall i :: 0 <= i < |s| ==> p(s[i])
    ensures Select(s, p) == s
  {
    if s != [] {
      SelectAll(s[1..], p);
    }
  }

  lemma {:induction false} SelectAppend<T(!new)>(a: seq<T>, b: seq<T>, p: T -> bool)
    ensures Select(a + b, p) == Select(a, p) + Select(b, p)
  {
    if a != [] {
      assert (a + b)[0] == a[0];
      assert (a + b)[1..] == a[1..] + b;
      SelectAppend(a[1..], b, p);
      assert Select(a + b, p) == (if p(a[0]) then [a[0]] else []) + Select(a[1..] + b, p);
    } else {
      assert a + b == b;
    }
  }

  /** The index of the last element satisfying `p`, or -1 when there is none. */
  function LastIndexWhere<T>(s: seq<T>, p: T -> bool): (idx: int)
    ensures -1 <= idx < |s|
    ensures idx == -1 <==> forall i :: 0 <= i < |s| ==> !p(s[i])
    ensures idx != -1 ==> p(s[idx])
    ensures idx != -1 ==> forall j :: idx < j < |s| ==> !p(s[j])
  {
    if s == [] then -1
    else if p(s[|s| - 1]) then |s| - 1
    else LastIndexWhere(s[..|s| - 1], p)
  }

  /** A forward scan that remembers the index of the latest element satisfying `p`. */
  method FindLastWhere<T>(s: seq<T>, p: T -> bool) returns (idx: int)
    ensures idx == LastIndexWhere(s, p)
  {
    idx := -1;
    for i := 0 to |s|
      invariant idx == LastIndexWhere(s[..i], p)
    {
      assert s[..i + 1][..i] == s[..i];
      if p(s[i]) {
        idx := i;
      }
    }
    assert s[..|s|] == s;
  }

  /** No element occurs twice. */
  predicate Distinct<T(==)>(s: seq<T>)
  {
    forall i, j :: 0 <= i < j < |s| ==> s[i] != s[j]
  }

  /** The sequence with the element at index `k` taken out (a DOM `remove()` of the k-th child). */
  function RemoveAt<T>(s: seq<T>, k: nat): (r: seq<T>)
    requires k < |s|
    ensures |r| == |s| - 1
    ensures forall j :: 0 <= j < k ==> r[j] == s[j]
    ensures forall j :: k <= j < |r| ==> r[j] == s[j + 1]
  {
    s[..k] + s[k + 1..]
  }
}
