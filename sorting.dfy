/**
 * The `useSort` hook: the two-state sort configuration toggled by `handleSort`, and
 * `sortedData`, a sorted copy of the input ordered by the hook's comparator. The
 * engine's sort is stable, so it is modelled by a stable insertion sort.
 */
module Sorting {
  import opened Wrappers
  import opened Seqs
  import opened Records
  import opened StableSort

  datatype Direction = Asc | Desc

  /** `{ key, direction }`; `key` is `None` for `null`. */
  datatype SortConfig = SortConfig(key: Option<string>, direction: Direction)

  /** The hook's initial state. */
  function InitialConfig(initialKey: Option<string>): SortConfig
  {
    SortConfig(initialKey, Asc)
  }

  /** The state transition of `handleSort(k)`. */
  function NextConfig(prev: SortConfig, k: string): (next: SortConfig)
    ensures next.key == Some(k)
    ensures next.direction == Desc <==> prev == SortConfig(Some(k), Asc)
  {
    if prev.key == Some(k) && prev.direction == Asc then SortConfig(Some(k), Desc)
    else SortConfig(Some(k), Asc)
  }

  /**
   * Clicking a column other than the sorted one sorts it ascending; a second click
   * makes it descending, a third ascending again.
   */
  lemma ClickSequence(prev: SortConfig, k: string)
    requires prev.key != Some(k)
    ensures NextConfig(prev, k) == SortConfig(Some(k), Asc)
    ensures NextConfig(NextConfig(prev, k), k) == SortConfig(Some(k), Desc)
    ensures NextConfig(NextConfig(NextConfig(prev, k), k), k) == SortConfig(Some(k), Asc)
  {
  }

  /** From any state, after the first click on `k` the clicks alternate with period two. */
  lemma ClicksAlternate(prev: SortConfig, k: string)
    ensures var once := NextConfig(prev, k);
      && NextConfig(NextConfig(once, k), k) == once
      && NextConfig(once, k) != once
  {
  }

  /** `!sortConfig.key` is false: the key is neither `null` nor the empty string. */
  predicate Active(c: SortConfig)
  {
    c.key.Some? && c.key.value != ""
  }

  /**
   * Where a value type sits in the model's total order over values: JavaScript's
   * `>` is only a consistent order within one type, so mixed types are given a fixed
   * order here (`undefined`, then `null`, then numbers, then strings).
   */
  function Rank(v: Option<Value>): nat
  {
    match v
    case None => 0
    case Some(Null) => 1
    case Some(Num(_)) => 2
    case Some(Str(_)) => 3
  }

  /** The first UTF-16 code unit of a character: the character itself below U+10000, else its high surrogate. */
  function HighUnit(c: char): int
  {
    if c as int < 0x1_0000 then c as int else 0xD800 + (c as int - 0x1_0000) / 0x400
  }

  /** The low surrogate, the second code unit, of a character above U+FFFF. */
  function LowUnit(c: char): int
  {
    0xDC00 + (c as int - 0x1_0000) % 0x400
  }

  /** `x` comes first when the UTF-16 encodings of the two characters are compared unit by unit. */
  predicate UnitLess(x: char, y: char)
  {
    HighUnit(x) < HighUnit(y)
    || (HighUnit(x) == HighUnit(y) && x as int >= 0x1_0000 && y as int >= 0x1_0000 && LowUnit(x) < LowUnit(y))
  }

  /** A character below U+10000 is never a surrogate, so its one unit differs from any high surrogate. */
  lemma HighUnitKind(c: char)
    ensures c as int < 0x1_0000 ==> HighUnit(c) == c as int && !(0xD800 <= HighUnit(c) < 0xDC00)
    ensures c as int >= 0x1_0000 ==> 0xD800 <= HighUnit(c) < 0xDC00 && 0xDC00 <= LowUnit(c) < 0xE000
  {
  }

  /** A character's code units determine it. */
  lemma UnitsDetermineChar(x: char, y: char)
    requires HighUnit(x) == HighUnit(y)
    requires x as int >= 0x1_0000 ==> LowUnit(x) == LowUnit(y)
    ensures x == y
  {
    HighUnitKind(x);
    HighUnitKind(y);
    if x as int >= 0x1_0000 {
      var u, v := x as int - 0x1_0000, y as int - 0x1_0000;
      assert u == (u / 0x400) * 0x400 + u % 0x400;
      assert v == (v / 0x400) * 0x400 + v % 0x400;
    }
  }

  /** Code-unit order of characters is a strict total order. */
  lemma UnitLessIsStrictTotalOrder(x: char, y: char, z: char)
    ensures !UnitLess(x, x)
    ensures UnitLess(x, y) ==> !UnitLess(y, x)
    ensures x == y || UnitLess(x, y) || UnitLess(y, x)
    ensures UnitLess(x, y) && UnitLess(y, z) ==> UnitLess(x, z)
  {
    HighUnitKind(x);
    HighUnitKind(y);
    HighUnitKind(z);
    if HighUnit(x) == HighUnit(y) && (x as int < 0x1_0000 || LowUnit(x) == LowUnit(y)) {
      UnitsDetermineChar(x, y);
    }
  }

  /**
   * Strict lexicographic order of strings by UTF-16 code unit, as `<` on strings: at the
   * first character where they differ, the strings compare as those characters' encodings.
   */
  predicate StrLess(a: string, b: string)
  {
    if b == [] then false
    else if a == [] then true
    else UnitLess(a[0], b[0]) || (a[0] == b[0] && StrLess(a[1..], b[1..]))
  }

  /**
   * Code-unit order differs from code-point order: U+1F600 is encoded from 0xD83D, which
   * sorts before the single unit of U+FF61, although its code point is the larger.
   */
  lemma SupplementaryBeforeHighBmp()
    ensures StrLess("\U{1F600}", "\U{FF61}") && !StrLess("\U{FF61}", "\U{1F600}")
  {
    assert HighUnit('\U{1F600}') == 0xD83D;
  }

  lemma {:induction false} StrLessIrreflexive(a: string)
    ensures !StrLess(a, a)
  {
    if a != [] {
      UnitLessIsStrictTotalOrder(a[0], a[0], a[0]);
      StrLessIrreflexive(a[1..]);
    }
  }

  lemma {:induction false} StrLessTransitive(a: string, b: string, c: string)
    requires StrLess(a, b) && StrLess(b, c)
    ensures StrLess(a, c)
  {
    if a != [] {
      UnitLessIsStrictTotalOrder(a[0], b[0], c[0]);
    }
    if a != [] && a[0] == b[0] && b[0] == c[0] {
      StrLessTransitive(a[1..], b[1..], c[1..]);
    }
  }

  lemma {:induction false} StrLessTotal(a: string, b: string)
    ensures a == b || StrLess(a, b) || StrLess(b, a)
  {
    if a != [] && b != [] {
      UnitLessIsStrictTotalOrder(a[0], b[0], b[0]);
    }
    if a != [] && b != [] && a[0] == b[0] {
      StrLessTotal(a[1..], b[1..]);
      if a[1..] == b[1..] {
        assert a == [a[0]] + a[1..] && b == [b[0]] + b[1..];
      }
    }
  }

  lemma {:induction false} StrLessAsymmetric(a: string, b: string)
    requires StrLess(a, b)
    ensures !StrLess(b, a)
  {
    if a != [] {
      UnitLessIsStrictTotalOrder(a[0], b[0], b[0]);
    }
    if a != [] && a[0] == b[0] {
      StrLessAsymmetric(a[1..], b[1..]);
    }
  }

  /** `a > b` on sort-key values. */
  predicate Greater(a: Option<Value>, b: Option<Value>)
  {
    if Rank(a) != Rank(b) then Rank(a) > Rank(b)
    else if a.Some? && a.value.Num? && b.Some? && b.value.Num? then a.value.n > b.value.n
    else if a.Some? && a.value.Str? && b.Some? && b.value.Str? then StrLess(b.value.s, a.value.s)
    else false
  }

  /** `Greater` is a strict total order. */
  lemma GreaterIsStrictTotalOrder(a: Option<Value>, b: Option<Value>, c: Option<Value>)
    ensures !Greater(a, a)
    ensures Greater(a, b) ==> !Greater(b, a)
    ensures a == b || Greater(a, b) || Greater(b, a)
    ensures Greater(a, b) && Greater(b, c) ==> Greater(a, c)
  {
    if a.Some? && a.value.Str? {
      StrLessIrreflexive(a.value.s);
      if b.Some? && b.value.Str? {
        StrLessTotal(a.value.s, b.value.s);
        if StrLess(a.value.s, b.value.s) { StrLessAsymmetric(a.value.s, b.value.s); }
        if StrLess(b.value.s, a.value.s) { StrLessAsymmetric(b.value.s, a.value.s); }
        if c.Some? && c.value.Str? && Greater(a, b) && Greater(b, c) {
          StrLessTransitive(c.value.s, b.value.s, a.value.s);
        }
      }
    }
  }

  /** Two records tie under the configuration: the comparator returns 0 for them. */
  predicate SameKey(a: Record, b: Record, c: SortConfig)
  {
    !Active(c) || Get(a, c.key.value) == Get(b, c.key.value)
  }

  /** The comparator passed to `Array.prototype.sort`. */
  function Compare(a: Record, b: Record, c: SortConfig): (r: int)
    ensures -1 <= r <= 1
    ensures r == 0 <==> SameKey(a, b, c)
  {
    if !Active(c) then 0
    else
      var av, bv := Get(a, c.key.value), Get(b, c.key.value);
      if av == bv then 0
      else
        var result := if Greater(av, bv) then 1 else -1;
        if c.direction == Asc then result else -result
  }

  /**
   * What "a may come before b" means: with an active key, ascending order puts no
   * greater key before a smaller one, descending order no smaller before a greater.
   */
  lemma CompareMeaning(a: Record, b: Record, c: SortConfig)
    requires Active(c)
    ensures var av, bv := Get(a, c.key.value), Get(b, c.key.value);
      Compare(a, b, c) <= 0 <==> if c.direction == Asc then !Greater(av, bv) else !Greater(bv, av)
  {
    GreaterIsStrictTotalOrder(Get(a, c.key.value), Get(b, c.key.value), Get(b, c.key.value));
  }

  lemma CompareAntisymmetric(a: Record, b: Record, c: SortConfig)
    ensures Compare(a, b, c) == -Compare(b, a, c)
  {
    if Active(c) {
      GreaterIsStrictTotalOrder(Get(a, c.key.value), Get(b, c.key.value), Get(b, c.key.value));
    }
  }

  lemma CompareTransitive(a: Record, b: Record, d: Record, c: SortConfig)
    requires Compare(a, b, c) <= 0 && Compare(b, d, c) <= 0
    ensures Compare(a, d, c) <= 0
  {
    if Active(c) {
      var av, bv, dv := Get(a, c.key.value), Get(b, c.key.value), Get(d, c.key.value);
      GreaterIsStrictTotalOrder(av, bv, dv);
      GreaterIsStrictTotalOrder(dv, bv, av);
      GreaterIsStrictTotalOrder(av, dv, dv);
    }
  }

  /** The comparator closure handed to the engine's sort. */
  function Comparator(c: SortConfig): (Record, Record) -> int
  {
    (a, b) => Compare(a, b, c)
  }

  /** Admits every record: the hook's comparator is consistent on all of them. */
  predicate AnyRecord(r: Record)
  {
    true
  }

  /** The comparator is a consistent ordering of all records, which the engine's sort needs. */
  lemma ComparatorIsOrdering(c: SortConfig)
    ensures ConsistentOn(Comparator(c), AnyRecord)
  {
    forall a, b ensures Comparator(c)(a, b) == -Comparator(c)(b, a) {
      CompareAntisymmetric(a, b, c);
    }
    forall a, b, d | Comparator(c)(a, b) <= 0 && Comparator(c)(b, d) <= 0
      ensures Comparator(c)(a, d) <= 0
    {
      CompareTransitive(a, b, d, c);
    }
  }

  /** No pair of records is out of order for the comparator. */
  ghost predicate Sorted(s: seq<Record>, c: SortConfig)
  {
    SortedWith(s, Comparator(c))
  }

  /** `[...data].sort(comparator)`, the engine's sort being stable. */
  function SortBy(s: seq<Record>, c: SortConfig): (r: seq<Record>)
    ensures multiset(r) == multiset(s)
    ensures Sorted(r, c)
  {
    ComparatorIsOrdering(c);
    SortWithSorted(s, Comparator(c), AnyRecord);
    SortWith(s, Comparator(c))
  }

  /**
   * Stability: records that tie with each other keep their input order. For any
   * predicate `p` that only selects mutually tying records, selecting by `p` before
   * or after sorting gives the same sequence.
   */
  lemma SortStable(s: seq<Record>, c: SortConfig, p: Record -> bool)
    requires forall y, z :: p(y) && p(z) ==> SameKey(y, z, c)
    ensures Select(SortBy(s, c), p) == Select(s, p)
  {
    forall y, z | p(y) && p(z) ensures Comparator(c)(y, z) == 0 {
      assert SameKey(y, z, c);
    }
    SortWithStable(s, Comparator(c), p);
  }

  /** With no active key (`null` or "") the comparator always returns 0 and the order is kept. */
  lemma InactiveKeepsOrder(s: seq<Record>, c: SortConfig)
    requires !Active(c)
    ensures SortBy(s, c) == s
  {
    var all := (y: Record) => true;
    SortStable(s, c, all);
    SelectAll(s, all);
    SelectAll(SortBy(s, c), all);
  }

  /** Sorting a sequence that is already sorted for the configuration changes nothing. */
  lemma SortIdempotent(s: seq<Record>, c: SortConfig)
    requires Sorted(s, c)
    ensures SortBy(s, c) == s
  {
    SortWithIdempotent(s, Comparator(c));
  }

  /** The output keys are non-decreasing for `Asc` and non-increasing for `Desc`. */
  lemma SortByOrdersKeys(s: seq<Record>, c: SortConfig, i: nat, j: nat)
    requires Active(c) && i < j < |SortBy(s, c)|
    ensures var r := SortBy(s, c);
      var ki, kj := Get(r[i], c.key.value), Get(r[j], c.key.value);
      if c.direction == Asc then !Greater(ki, kj) else !Greater(kj, ki)
  {
    var r := SortBy(s, c);
    CompareMeaning(r[i], r[j], c);
  }

  /** The sort state held by `useSort`. */
  class SortState {
    var config: SortConfig

    constructor(initialKey: Option<string>)
      ensures config == InitialConfig(initialKey)
    {
      config := SortConfig(initialKey, Asc);
    }

    /** `handleSort(k)`. */
    method HandleSort(k: string)
      modifies this
      ensures config == NextConfig(old(config), k)
      ensures config.key == Some(k)
    {
      config := NextConfig(config, k);
    }

    /** `sortedData`: a sorted copy; the caller's sequence is left as it is. */
    function SortedData(data: seq<Record>): (r: seq<Record>)
      reads this
      ensures multiset(r) == multiset(data)
      ensures Sorted(r, config)
    {
      SortBy(data, config)
    }
  }
}
