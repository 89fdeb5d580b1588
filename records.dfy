/**
 * The data model: a record is a flat JavaScript object, i.e. an ordered list of
 * (field name, value) entries. Order matters because `Object.keys` and
 * `Object.values` return the entries in insertion order.
 */
module Records {
  import opened Wrappers
  import opened Text

  /** A scalar field value as delivered by JSON. */
  datatype Value = Null | Num(n: int) | Str(s: string)

  datatype Entry<V> = Entry(key: string, val: V)

  /** A plain object with values of type `V`, entries in insertion order. */
  type Obj<V> = seq<Entry<V>>

  type Record = Obj<Value>

  /** `Object.keys(o)`. */
  function Keys<V>(o: Obj<V>): (ks: seq<string>)
    ensures |ks| == |o|
  {
    if o == [] then [] else [o[0].key] + Keys(o[1..])
  }

  /** The keys are listed in the order of the entries. */
  lemma {:induction false} KeysInOrder<V>(o: Obj<V>)
    ensures forall i :: 0 <= i < |o| ==> Keys(o)[i] == o[i].key
  {
    if o != [] {
      KeysInOrder(o[1..]);
    }
  }

  /** `Object.values(o)`. */
  function Values<V>(o: Obj<V>): (vs: seq<V>)
    ensures |vs| == |o|
    ensures forall i :: 0 <= i < |o| ==> vs[i] == o[i].val
  {
    if o == [] then [] else [o[0].val] + Values(o[1..])
  }

  /** `o[k]`: `None` is `undefined`, a property the object does not have. */
  function Get<V>(o: Obj<V>, k: string): (r: Option<V>)
    ensures r.Some? <==> k in Keys(o)
  {
    if o == [] then None
    else if o[0].key == k then Some(o[0].val)
    else Get(o[1..], k)
  }

  /** A property read gives the value of the first entry with that key. */
  lemma {:induction false} GetReadsFirst<V>(o: Obj<V>, k: string)
    requires k in Keys(o)
    ensures exists i ::
      (0 <= i < |o| && o[i].key == k && Get(o, k) == Some(o[i].val)
       && forall j :: 0 <= j < i ==> o[j].key != k)
  {
    if o[0].key == k {
      assert o[0].key == k && Get(o, k) == Some(o[0].val);
    } else {
      ConsFacts(o[0], o[1..], k);
      assert o == [o[0]] + o[1..];
      GetReadsFirst(o[1..], k);
      var i :| 0 <= i < |o[1..]| && o[1..][i].key == k && Get(o[1..], k) == Some(o[1..][i].val)
        && forall j :: 0 <= j < i ==> o[1..][j].key != k;
      assert forall j :: 0 < j < i + 1 ==> o[j] == o[1..][j - 1];
      assert o[i + 1] == o[1..][i];
    }
  }

  /**
   * `o[k] = v`: an existing property keeps its position and takes the new value,
   * a new property is appended.
   */
  function Assign<V>(o: Obj<V>, k: string, v: V): (r: Obj<V>)
    ensures Keys(r) == if k in Keys(o) then Keys(o) else Keys(o) + [k]
    ensures Get(r, k) == Some(v)
  {
    if o == [] then [Entry(k, v)]
    else if o[0].key == k then
      ConsFacts(Entry(k, v), o[1..], k);
      ConsFacts(o[0], o[1..], k);
      assert o == [o[0]] + o[1..];
      [Entry(k, v)] + o[1..]
    else
      var tail := Assign(o[1..], k, v);
      ConsFacts(o[0], tail, k);
      ConsFacts(o[0], o[1..], k);
      assert o == [o[0]] + o[1..];
      [o[0]] + tail
  }

  /** Reading keys and a property of an object that starts with a given entry. */
  lemma ConsFacts<V>(e: Entry<V>, t: Obj<V>, k: string)
    ensures Keys([e] + t) == [e.key] + Keys(t)
    ensures e.key != k ==> Get([e] + t, k) == Get(t, k)
    ensures e.key != k ==> (k in Keys([e] + t) <==> k in Keys(t))
  {
    assert ([e] + t)[1..] == t;
  }

  /** Assigning one property leaves every other property as it was. */
  lemma {:induction false} AssignKeepsOthers<V>(o: Obj<V>, k: string, v: V, k': string)
    requires k' != k
    ensures Get(Assign(o, k, v), k') == Get(o, k')
  {
    if o != [] && o[0].key != k {
      AssignKeepsOthers(o[1..], k, v, k');
      assert Assign(o, k, v)[1..] == Assign(o[1..], k, v);
    }
  }

  /** `v ?? ""`: `null` and `undefined` become the empty string, anything else is kept. */
  function OrEmpty(v: Option<Value>): (r: Value)
    ensures r != Null
    ensures v.None? || v == Some(Null) ==> r == Str("")
    ensures v.Some? && v.value != Null ==> r == v.value
  {
    match v
    case None => Str("")
    case Some(Null) => Str("")
    case Some(x) => x
  }

  /**
   * The text of a value where `null` and `undefined` read as "": `String(v ?? "")`,
   * and also what `Array.prototype.join` makes of an element.
   */
  function DisplayText(v: Option<Value>): string
  {
    match v
    case None => ""
    case Some(Null) => ""
    case Some(Num(n)) => IntToString(n)
    case Some(Str(s)) => s
  }
}
