/**
 * A stable insertion sort driven by a three-way comparator, the behaviour
 * `Array.prototype.sort` has had to provide since ECMAScript 2019.
 */
module StableSort {
  import opened Seqs

  /**
   * On the elements `dom` admits, `cmp(a, b)` and `cmp(b, a)` have opposite signs
   * (both 0 on a tie) and "may come before" (`cmp <= 0`) is transitive.
   */
  ghost predicate ConsistentOn<T(!new)>(cmp: (T, T) -> int, dom: T -> bool)
  {
    && (forall a, b :: dom(a) && dom(b) ==> cmp(a, b) == -cmp(b, a))
    && (forall a, b, d :: dom(a) && dom(b) && dom(d) && cmp(a, b) <= 0 && cmp(b, d) <= 0 ==> cmp(a, d) <= 0)
  }

  /** Every element of `s` is admitted by `dom`. */
  ghost predicate AllIn<T>(s: seq<T>, dom: T -> bool)
  {
    forall i :: 0 <= i < |s| ==> dom(s[i])
  }

  /** No element comes after one it may not follow. */
  ghost predicate SortedWith<T>(s: seq<T>, cmp: (T, T) -> int)
  {
    forall i, j :: 0 <= i < j < |s| ==> cmp(s[i], s[j]) <= 0
  }

  /** Insert `x` before the first element it may precede. */
  function InsertWith<T>(x: T, s: seq<T>, cmp: (T, T) -> int): (r: seq<T>)
    ensures multiset(r) == multiset(s) + multiset{x}
    ensures forall j :: 0 <= j < |r| ==> r[j] == x || r[j] in s
  {
    if s == [] then [x]
    else if cmp(x, s[0]) <= 0 then [x] + s
    else
      assert s == [s[0]] + s[1..];
      [s[0]] + InsertWith(x, s[1..], cmp)
  }

  /** Insertion sort: insert the head into the sorted tail. */
  function SortWith<T>(s: seq<T>, cmp: (T, T) -> int): (r: seq<T>)
    ensures multiset(r) == multiset(s)
  {
    if s == [] then []
    else
      assert s == [s[0]] + s[1..];
      InsertWith(s[0], SortWith(s[1..], cmp), cmp)
  }

  lemma SortedCons<T>(x: T, t: seq<T>, cmp: (T, T) -> int)
    requires SortedWith(t, cmp)
    requires forall j :: 0 <= j < |t| ==> cmp(x, t[j]) <= 0
    ensures SortedWith([x] + t, cmp)
  {
    var r := [x] + t;
    forall i, j | 0 <= i < j < |r| ensures cmp(r[i], r[j]) <= 0 {
      assert r[j] == t[j - 1];
      if i > 0 { assert r[i] == t[i - 1]; }
    }
  }

  lemma SortedTail<T>(s: seq<T>, cmp: (T, T) -> int)
    requires s != [] && SortedWith(s, cmp)
    ensures SortedWith(s[1..], cmp)
  {
    var tail := s[1..];
    forall i, j | 0 <= i < j < |tail| ensures cmp(tail[i], tail[j]) <= 0 {
      assert tail[i] == s[i + 1] && tail[j] == s[j + 1];
    }
  }

  lemma {:induction false} InsertSorted<T(!new)>(x: T, s: seq<T>, cmp: (T, T) -> int, dom: T -> bool)
    requires ConsistentOn(cmp, dom) && dom(x) && AllIn(s, dom)
    requires SortedWith(s, cmp)
    ensures SortedWith(InsertWith(x, s, cmp), cmp)
  {
    if s != [] {
      if cmp(x, s[0]) <= 0 {
        forall j | 0 <= j < |s| ensures cmp(x, s[j]) <= 0 {
          if j > 0 {
            assert dom(s[0]) && dom(s[j]) && cmp(s[0], s[j]) <= 0;
          }
        }
        SortedCons(x, s, cmp);
      } else {
        var tail := s[1..];
        SortedTail(s, cmp);
        assert AllIn(tail, dom) by {
          forall i | 0 <= i < |tail| ensures dom(tail[i]) {
            assert tail[i] == s[i + 1];
          }
        }
        InsertSorted(x, tail, cmp, dom);
        var t := InsertWith(x, tail, cmp);
        assert dom(s[0]);
        forall j | 0 <= j < |t| ensures cmp(s[0], t[j]) <= 0 {
          if t[j] != x {
            var k :| 0 <= k < |tail| && tail[k] == t[j];
            assert s[k + 1] == t[j];
          }
        }
        SortedCons(s[0], t, cmp);
      }
    }
  }

  /** Sorting keeps every element inside the domain the input stays in. */
  lemma SortWithAllIn<T>(s: seq<T>, cmp: (T, T) -> int, dom: T -> bool)
    requires AllIn(s, dom)
    ensures AllIn(SortWith(s, cmp), dom)
  {
    var r := SortWith(s, cmp);
    forall j | 0 <= j < |r| ensures dom(r[j]) {
      assert r[j] in multiset(s);
      var i :| 0 <= i < |s| && s[i] == r[j];
    }
  }

  /**
   * The result is ordered by the comparator whenever the comparator is a consistent
   * ordering on a domain every element of the input belongs to.
   */
  lemma {:induction false} SortWithSorted<T(!new)>(s: seq<T>, cmp: (T, T) -> int, dom: T -> bool)
    requires ConsistentOn(cmp, dom) && AllIn(s, dom)
    ensures SortedWith(SortWith(s, cmp), cmp)
  {
    if s != [] {
      var tail := s[1..];
      assert AllIn(tail, dom) by {
        forall i | 0 <= i < |tail| ensures dom(tail[i]) {
          assert tail[i] == s[i + 1];
        }
      }
      SortWithSorted(tail, cmp, dom);
      SortWithAllIn(tail, cmp, dom);
      InsertSorted(s[0], SortWith(tail, cmp), cmp, dom);
    }
  }

  /** Two sequences of which one is empty can be exchanged in front of a third. */
  lemma SwapEmpty<T>(a: seq<T>, b: seq<T>, c: seq<T>)
    requires a == [] || b == []
    ensures a + (b + c) == b + (a + c)
  {
    if a == [] {
      assert a + (b + c) == b + c;
      assert a + c == c;
    } else {
      assert b + c == c;
      assert b + (a + c) == a + c;
    }
  }

  lemma InsertStableStep<T(!new)>(x: T, s: seq<T>, cmp: (T, T) -> int, p: T -> bool)
    requires s != [] && cmp(x, s[0]) > 0
    requires !(p(x) && p(s[0]))
    requires Select(InsertWith(x, s[1..], cmp), p) == (if p(x) then [x] else []) + Select(s[1..], p)
    ensures Select(InsertWith(x, s, cmp), p) == (if p(x) then [x] else []) + Select(s, p)
  {
    var tail := s[1..];
    var t := InsertWith(x, tail, cmp);
    var px := Select([x], p);
    var ps := Select([s[0]], p);
    var rest := Select(tail, p);
    assert px == if p(x) then [x] else [];
    assert InsertWith(x, s, cmp) == [s[0]] + t;
    SelectAppend([s[0]], t, p);
    assert s == [s[0]] + tail;
    SelectAppend([s[0]], tail, p);
    calc {
      Select(InsertWith(x, s, cmp), p);
      ps + Select(t, p);
      ps + (px + rest);
      { SwapEmpty(ps, px, rest); }
      px + (ps + rest);
      px + Select(s, p);
    }
  }

  /** Inserting `x` does not move it past an element it ties with. */
  lemma {:induction false} InsertStable<T(!new)>(x: T, s: seq<T>, cmp: (T, T) -> int, p: T -> bool)
    requires forall y, z :: p(y) && p(z) ==> cmp(y, z) == 0
    ensures Select(InsertWith(x, s, cmp), p) == (if p(x) then [x] else []) + Select(s, p)
  {
    if s == [] {
      assert [x][1..] == [];
    } else if cmp(x, s[0]) <= 0 {
      assert ([x] + s)[1..] == s;
    } else {
      InsertStable(x, s[1..], cmp, p);
      InsertStableStep(x, s, cmp, p);
    }
  }

  /**
   * Stability: for any `p` that selects only elements tying with one another,
   * selecting by `p` after sorting gives what selecting by `p` gives before.
   */
  lemma {:induction false} SortWithStable<T(!new)>(s: seq<T>, cmp: (T, T) -> int, p: T -> bool)
    requires forall y, z :: p(y) && p(z) ==> cmp(y, z) == 0
    ensures Select(SortWith(s, cmp), p) == Select(s, p)
  {
    if s != [] {
      SortWithStable(s[1..], cmp, p);
      InsertStable(s[0], SortWith(s[1..], cmp), cmp, p);
    }
  }

  /** Sorting an already sorted sequence returns it unchanged. */
  lemma {:induction false} SortWithIdempotent<T>(s: seq<T>, cmp: (T, T) -> int)
    requires SortedWith(s, cmp)
    ensures SortWith(s, cmp) == s
  {
    if s != [] {
      SortedTail(s, cmp);
      SortWithIdempotent(s[1..], cmp);
      assert [s[0]] + s[1..] == s;
    }
  }

  /** On the elements `dom` admits, the two comparators agree on "may come before". */
  ghost predicate AgreeOn<T(!new)>(cmp1: (T, T) -> int, cmp2: (T, T) -> int, dom: T -> bool)
  {
    forall a, b :: dom(a) && dom(b) ==> (cmp1(a, b) <= 0 <==> cmp2(a, b) <= 0)
  }

  lemma {:induction false} InsertWithAgree<T(!new)>(x: T, s: seq<T>, cmp1: (T, T) -> int, cmp2: (T, T) -> int, dom: T -> bool)
    requires AgreeOn(cmp1, cmp2, dom) && dom(x) && AllIn(s, dom)
    ensures InsertWith(x, s, cmp1) == InsertWith(x, s, cmp2)
  {
    if s != [] {
      assert dom(s[0]);
      var tail := s[1..];
      assert AllIn(tail, dom) by {
        forall i | 0 <= i < |tail| ensures dom(tail[i]) {
          assert tail[i] == s[i + 1];
        }
      }
      InsertWithAgree(x, tail, cmp1, cmp2, dom);
    }
  }

  /** Comparators that agree in sign on the input's elements sort it the same way. */
  lemma {:induction false} SortWithAgree<T(!new)>(s: seq<T>, cmp1: (T, T) -> int, cmp2: (T, T) -> int, dom: T -> bool)
    requires AgreeOn(cmp1, cmp2, dom) && AllIn(s, dom)
    ensures SortWith(s, cmp1) == SortWith(s, cmp2)
  {
    if s != [] {
      var tail := s[1..];
      assert AllIn(tail, dom) by {
        forall i | 0 <= i < |tail| ensures dom(tail[i]) {
          assert tail[i] == s[i + 1];
        }
      }
      SortWithAgree(tail, cmp1, cmp2, dom);
      SortWithAllIn(tail, cmp1, dom);
      InsertWithAgree(s[0], SortWith(tail, cmp1), cmp1, cmp2, dom);
    }
  }
}
