/**
 * The untyped configuration tree that a YAML loader hands to the validation
 * engine, and the typed tree the engine hands back. Both are values of the
 * same closed datatype `Val`: a Python scalar (None, bool, int, float,
 * Fraction, complex, str, bytes), a Python container (list, tuple, set,
 * dict) or an instance of a user-registered type.
 *
 * Python dictionaries are sequences of key/value items in insertion order;
 * Python sets are duplicate-free sequences in first-occurrence order.
 */
module Values {

  datatype Option<+T> = None | Some(value: T)

  datatype Val =
    | VNone
    | VBool(b: bool)
    | VInt(i: int)
    | VFloat(f: real)
    | VFraction(q: real)
    | VComplex(re: real, im: real)
    | VStr(s: string)
    | VBytes(bytes: seq<bv8>)
    | VList(items: seq<Val>)
    | VTuple(items: seq<Val>)
    | VSet(items: seq<Val>)
    | VDict(entries: seq<Item>)
      /** An instance of a user-registered type, tagged with the type's name. */
    | VObject(tag: string, fields: seq<Val>)

  /** One key/value pair of a Python dict. */
  datatype Item = Item(key: Val, value: Val)

  /** The shapes a Python sequence type may be built from: list, tuple, set. */
  predicate IsSequence(v: Val)
  {
    v.VList? || v.VTuple? || v.VSet?
  }

  /** The set of keys of a dict. */
  function Keys(es: seq<Item>): (ks: set<Val>)
    ensures forall i :: 0 <= i < |es| ==> es[i].key in ks
  {
    set i | 0 <= i < |es| :: es[i].key
  }

  lemma KeysConcat(a: seq<Item>, b: seq<Item>)
    ensures Keys(a + b) == Keys(a) + Keys(b)
  {
    var ab := a + b;
    assert forall i :: 0 <= i < |a| ==> ab[i] == a[i];
    assert forall i :: 0 <= i < |b| ==> ab[|a| + i] == b[i];
    forall k | k in Keys(ab)
      ensures k in Keys(a) + Keys(b)
    {
      var i :| 0 <= i < |ab| && ab[i].key == k;
      if i >= |a| {
        assert ab[i] == b[i - |a|];
      }
    }
  }

  lemma KeysSingleton(x: Item)
    ensures Keys([x]) == {x.key}
  {
    assert [x][0] == x;
  }

  /** Python dicts never hold the same key twice. */
  predicate DistinctKeys(es: seq<Item>)
  {
    forall i, j :: 0 <= i < j < |es| ==> es[i].key != es[j].key
  }

  /** `d[k]` with `None` for a missing key (exact key equality). */
  function Lookup(es: seq<Item>, k: Val): (r: Option<Val>)
    ensures r.Some? <==> k in Keys(es)
    ensures r.Some? ==> exists i :: 0 <= i < |es| && es[i] == Item(k, r.value)
    ensures r.Some? && DistinctKeys(es) ==>
              forall i :: 0 <= i < |es| && es[i].key == k ==> es[i].value == r.value
  {
    if |es| == 0 then None
    else if es[0].key == k then Some(es[0].value)
    else Lookup(es[1..], k)
  }

  /** The keys of a dict with one item in front. */
  lemma KeysCons(x: Item, es: seq<Item>)
    ensures Keys([x] + es) == {x.key} + Keys(es)
  {
    KeysConcat([x], es);
    KeysSingleton(x);
  }

  /**
   * `d[k] = v` on a Python dict: an existing key keeps its position and gets
   * the new value, a new key is appended.
   */
  function Put(es: seq<Item>, k: Val, v: Val): (r: seq<Item>)
    ensures Keys(r) == Keys(es) + {k}
    ensures k !in Keys(es) ==> r == es + [Item(k, v)]
  {
    if |es| == 0 then
      KeysSingleton(Item(k, v));
      [Item(k, v)]
    else
      assert es == [es[0]] + es[1..];
      KeysCons(es[0], es[1..]);
      var head := if es[0].key == k then Item(k, v) else es[0];
      var rest := if es[0].key == k then es[1..] else Put(es[1..], k, v);
      KeysCons(head, rest);
      [head] + rest
  }

  /** After `d[k] = v`, `d[k]` is `v` and every other key reads as before. */
  lemma {:induction false} PutLookup(es: seq<Item>, k: Val, v: Val)
    ensures Lookup(Put(es, k, v), k) == Some(v)
    ensures forall k' :: k' != k ==> Lookup(Put(es, k, v), k') == Lookup(es, k')
  {
    var r := Put(es, k, v);
    if |es| == 0 {
      assert r == [Item(k, v)] && r[1..] == [];
    } else if es[0].key == k {
      assert r[0] == Item(k, v) && r[1..] == es[1..];
    } else {
      PutLookup(es[1..], k, v);
      assert r[0] == es[0] && r[1..] == Put(es[1..], k, v);
    }
  }

  /** An item in front of a dict with distinct keys, its key not among them. */
  lemma DistinctCons(x: Item, es: seq<Item>)
    requires DistinctKeys(es) && x.key !in Keys(es)
    ensures DistinctKeys([x] + es)
  {
    var r := [x] + es;
    assert forall j :: 0 < j < |r| ==> r[j] == es[j - 1];
  }

  /** Dropping the first item keeps keys distinct, and the first key is not among the others. */
  lemma DistinctTail(es: seq<Item>)
    requires |es| > 0 && DistinctKeys(es)
    ensures DistinctKeys(es[1..])
    ensures es[0].key !in Keys(es[1..])
  {
    var tail := es[1..];
    assert forall j :: 0 <= j < |tail| ==> tail[j] == es[j + 1];
    assert forall j :: 0 <= j < |tail| ==> tail[j].key != es[0].key;
  }

  /** `d[k] = v` keeps the keys of a dict distinct. */
  lemma {:induction false} PutDistinct(es: seq<Item>, k: Val, v: Val)
    requires DistinctKeys(es)
    ensures DistinctKeys(Put(es, k, v))
  {
    if |es| > 0 {
      DistinctTail(es);
      if es[0].key == k {
        assert Put(es, k, v) == [Item(k, v)] + es[1..];
        DistinctCons(Item(k, v), es[1..]);
      } else {
        PutDistinct(es[1..], k, v);
        assert Put(es, k, v) == [es[0]] + Put(es[1..], k, v);
        DistinctCons(es[0], Put(es[1..], k, v));
      }
    }
  }

  /** Builds a Python dict from pairs in order: a later pair overwrites an earlier one with the same key. */
  function Collect(ps: seq<Item>): (r: seq<Item>)
    ensures DistinctKeys(r)
    ensures Keys(r) == Keys(ps)
  {
    if |ps| == 0 then []
    else
      var last := ps[|ps| - 1];
      KeysConcat(ps[..|ps| - 1], [last]);
      assert ps == ps[..|ps| - 1] + [last];
      PutDistinct(Collect(ps[..|ps| - 1]), last.key, last.value);
      Put(Collect(ps[..|ps| - 1]), last.key, last.value)
  }

  /** Every item of a collected dict comes from one of the pairs. */
  lemma {:induction false} CollectFrom(ps: seq<Item>, k: Val)
    requires k in Keys(Collect(ps))
    ensures exists i :: 0 <= i < |ps| && ps[i] == Item(k, Lookup(Collect(ps), k).value)
  {
    var init := ps[..|ps| - 1];
    var last := ps[|ps| - 1];
    PutLookup(Collect(init), last.key, last.value);
    if k != last.key {
      CollectFrom(init, k);
      var i :| 0 <= i < |init| && init[i] == Item(k, Lookup(Collect(init), k).value);
      assert ps[i] == init[i];
    } else {
      assert ps[|ps| - 1] == Item(k, Lookup(Collect(ps), k).value);
    }
  }

  /** The later pair wins: a key reads as the value of the last pair holding it. */
  lemma {:induction false} CollectLast(ps: seq<Item>, i: nat)
    requires i < |ps|
    requires forall j :: i < j < |ps| ==> ps[j].key != ps[i].key
    ensures Lookup(Collect(ps), ps[i].key) == Some(ps[i].value)
  {
    var init := ps[..|ps| - 1];
    var last := ps[|ps| - 1];
    PutLookup(Collect(init), last.key, last.value);
    if i < |ps| - 1 {
      assert init[i] == ps[i];
      assert forall j :: i < j < |init| ==> init[j] == ps[j];
      CollectLast(init, i);
    }
  }

  /** Dropping the last item keeps keys distinct, and the last key is not among the others. */
  lemma DistinctInit(ps: seq<Item>)
    requires |ps| > 0 && DistinctKeys(ps)
    ensures DistinctKeys(ps[..|ps| - 1])
    ensures ps[|ps| - 1].key !in Keys(ps[..|ps| - 1])
  {
    var init := ps[..|ps| - 1];
    assert forall i :: 0 <= i < |init| ==> init[i] == ps[i];
    assert forall i :: 0 <= i < |init| ==> init[i].key != ps[|ps| - 1].key;
  }

  /** Collecting pairs whose keys are already distinct changes nothing. */
  lemma {:induction false} CollectDistinct(ps: seq<Item>)
    requires DistinctKeys(ps)
    ensures Collect(ps) == ps
  {
    if |ps| > 0 {
      var init := ps[..|ps| - 1];
      var last := ps[|ps| - 1];
      DistinctInit(ps);
      CollectDistinct(init);
      assert Collect(ps) == Put(init, last.key, last.value) == init + [last];
      assert init + [last] == ps;
    }
  }

  /** Python's `set(xs)` keeping the first occurrence of each element. */
  function Dedup(xs: seq<Val>): (r: seq<Val>)
    ensures forall i, j :: 0 <= i < j < |r| ==> r[i] != r[j]
    ensures forall x :: x in r <==> x in xs
    ensures |r| <= |xs|
  {
    if |xs| == 0 then []
    else
      var p := Dedup(xs[..|xs| - 1]);
      var last := xs[|xs| - 1];
      assert forall x :: x in xs <==> x in xs[..|xs| - 1] || x == last by {
        assert xs == xs[..|xs| - 1] + [last];
      }
      if last in p then p else p + [last]
  }

  predicate NoDuplicates(xs: seq<Val>)
  {
    forall i, j :: 0 <= i < j < |xs| ==> xs[i] != xs[j]
  }

  /** Deduplicating a duplicate-free sequence changes nothing. */
  lemma {:induction false} DedupNoDuplicates(xs: seq<Val>)
    requires NoDuplicates(xs)
    ensures Dedup(xs) == xs
  {
    if |xs| > 0 {
      var init := xs[..|xs| - 1];
      assert NoDuplicates(init);
      DedupNoDuplicates(init);
      assert forall i :: 0 <= i < |init| ==> init[i] != xs[|xs| - 1];
      assert init + [xs[|xs| - 1]] == xs;
    }
  }

  /** Python's `len(v)`; `None` for a value that has no length. */
  function Size(v: Val): (n: Option<nat>)
    ensures n.Some? <==> v.VStr? || v.VBytes? || IsSequence(v) || v.VDict?
  {
    match v
    case VStr(s) => Some(|s|)
    case VBytes(bs) => Some(|bs|)
    case VList(xs) => Some(|xs|)
    case VTuple(xs) => Some(|xs|)
    case VSet(xs) => Some(|xs|)
    case VDict(es) => Some(|es|)
    case _ => None
  }

  /** The value as a number that can be ordered against a numeric bound; `None` when Python cannot order it. */
  function Numeric(v: Val): (x: Option<real>)
    ensures x.Some? <==> v.VBool? || v.VInt? || v.VFloat? || v.VFraction?
  {
    match v
    case VBool(b) => Some(if b then 1.0 else 0.0)
    case VInt(i) => Some(i as real)
    case VFloat(f) => Some(f)
    case VFraction(q) => Some(q)
    case _ => None
  }

  /** Python truth value (`bool(v)`). */
  function Truthy(v: Val): (t: bool)
    ensures v.VInt? ==> (t <==> v.i != 0)
    ensures (v.VStr? || v.VBytes? || IsSequence(v) || v.VDict?) ==> (t <==> Size(v) != Some(0))
    ensures v.VNone? ==> !t
  {
    match v
    case VNone => false
    case VBool(b) => b
    case VInt(i) => i != 0
    case VFloat(f) => f != 0.0
    case VFraction(q) => q != 0.0
    case VComplex(re, im) => re != 0.0 || im != 0.0
    case VStr(s) => |s| != 0
    case VBytes(bs) => |bs| != 0
    case VList(xs) => |xs| != 0
    case VTuple(xs) => |xs| != 0
    case VSet(xs) => |xs| != 0
    case VDict(es) => |es| != 0
    case VObject(_, _) => true
  }

  /** Python's `int(x)` on a float or Fraction: truncation toward zero. */
  function Trunc(r: real): (n: int)
    ensures 0.0 <= r ==> n as real <= r < n as real + 1.0
    ensures r <= 0.0 ==> n as real - 1.0 < r <= n as real
  {
    if r >= 0.0 then r.Floor else -((-r).Floor)
  }
}
