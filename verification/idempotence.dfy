/**
 * Validating an already validated value against the same declared type
 * gives it back unchanged, for declared types without unions and without
 * user-registered types (see README for why those two are excluded).
 */
module Idempotence {
  import opened Values
  import opened Text
  import opened Schema
  import opened Diagnostics
  import opened Coercion
  import opened Checks
  import opened Matcher
  import opened MatcherProperties
  import opened DictProperties

  /**
   * A declared type built from plain types, containers and nested sections
   * only, each nested section having distinct keys as a Python dict does.
   */
  predicate Plain(d: Desc)
  {
    match d
    case Prim(_) => true
    case Bare(_) => true
    case Custom(_, _, _) => false
    case UnionOf(_) => false
    case ListOf(t) => Plain(t)
    case SetOf(t) => Plain(t)
    case TupleOf(ts) => forall i :: 0 <= i < |ts| ==> Plain(ts[i])
    case DictOf(kd, vd) => Plain(kd) && Plain(vd)
    case Nested(schema) => DistinctSchemaKeys(schema) && forall i :: 0 <= i < |schema| ==> PlainEntry(schema[i])
  }

  predicate PlainEntry(e: Entry)
  {
    Plain(e.desc)
  }

  // ------------------------------------------------------- fixed points

  /** Elements that each validate to themselves make a list or set of themselves. */
  lemma {:induction false} ItemsFixed(forms: TextForms, zs: seq<Val>, t: Desc, c: Constraints)
    requires forall i :: 0 <= i < |zs| ==> Validate(forms, zs[i], t, c).result == Ok(zs[i])
    ensures ValidateItems(forms, zs, t, c).result == Ok(zs)
  {
    if |zs| > 0 {
      assert forall i :: 0 <= i < |zs| - 1 ==> zs[1..][i] == zs[i + 1];
      ItemsFixed(forms, zs[1..], t, c);
      assert zs == [zs[0]] + zs[1..];
    }
  }

  /** Positions that each validate to themselves make a tuple of themselves. */
  lemma {:induction false} TupleFixed(forms: TextForms, zs: seq<Val>, ts: seq<Desc>, c: Constraints)
    requires |zs| == |ts|
    requires forall i :: 0 <= i < |zs| ==> Validate(forms, zs[i], ts[i], c).result == Ok(zs[i])
    ensures ValidateTuple(forms, zs, ts, c).result == Ok(zs)
  {
    if |zs| > 0 {
      assert forall i :: 0 <= i < |zs| - 1 ==> zs[1..][i] == zs[i + 1] && ts[1..][i] == ts[i + 1];
      TupleFixed(forms, zs[1..], ts[1..], c);
      assert zs == [zs[0]] + zs[1..];
    }
  }

  /** Items whose keys and values each validate to themselves make a dict of themselves. */
  lemma {:induction false} PairsFixed(forms: TextForms, es: seq<Item>, kd: Desc, vd: Desc, c: Constraints)
    requires forall i :: 0 <= i < |es| ==>
               && Validate(forms, es[i].key, kd, Unconstrained).result == Ok(es[i].key)
               && Validate(forms, es[i].value, vd, c).result == Ok(es[i].value)
    ensures ValidatePairs(forms, es, kd, vd, c).result == Ok(es)
  {
    if |es| > 0 {
      assert forall i :: 0 <= i < |es| - 1 ==> es[1..][i] == es[i + 1];
      PairsFixed(forms, es[1..], kd, vd, c);
      assert es == [Item(es[0].key, es[0].value)] + es[1..];
    }
  }

  /**
   * A dict with distinct keys whose every key and value already validates
   * to itself, and which passes the dict's own checks, validates to itself.
   */
  lemma DictFixed(forms: TextForms, es: seq<Item>, kd: Desc, vd: Desc, c: Constraints)
    requires DistinctKeys(es)
    requires forall i :: 0 <= i < |es| ==>
               && Validate(forms, es[i].key, kd, Unconstrained).result == Ok(es[i].key)
               && Validate(forms, es[i].value, vd, Inner(c)).result == Ok(es[i].value)
    requires Finish(VDict(es), c).Ok?
    ensures Validate(forms, VDict(es), DictOf(kd, vd), c).result == Ok(VDict(es))
  {
    PairsFixed(forms, es, kd, vd, Inner(c));
    CollectDistinct(es);
    DictUnfold(forms, VDict(es), kd, vd, c);
  }

  /** The keys of a dict with one item in front. */
  lemma ItemKeysCons(x: Item, rest: seq<Item>)
    ensures ItemKeys([x] + rest) == [x.key] + ItemKeys(rest)
  {
    var r := [x] + rest;
    assert forall j :: 0 < j < |r| ==> r[j] == rest[j - 1];
  }

  /** The items of a dict whose keys the schema declares, in declared order. */
  function Restrict(schema: seq<Entry>, es: seq<Item>): (r: seq<Item>)
    ensures ItemKeys(r) == PresentKeys(schema, es)
    ensures forall j :: 0 <= j < |r| ==> r[j].key in Keys(es) && r[j].value == Lookup(es, r[j].key).value
  {
    if |schema| == 0 then []
    else
      var rest := Restrict(schema[1..], es);
      var k := schema[0].key;
      if k in Keys(es) then
        var x := Item(k, Lookup(es, k).value);
        ItemKeysCons(x, rest);
        assert forall j :: 0 < j < |rest| + 1 ==> ([x] + rest)[j] == rest[j - 1];
        [x] + rest
      else rest
  }

  /**
   * A dict meeting every entry of a schema, each present value validating to
   * itself, validates to the declared part of itself.
   */
  lemma {:induction false} EntriesFixed(forms: TextForms, es: seq<Item>, schema: seq<Entry>)
    requires forall i :: 0 <= i < |schema| ==>
               && (schema[i].presence == Mandatory ==> schema[i].key in Keys(es))
               && (schema[i].key in Keys(es) ==>
                     Validate(forms, Lookup(es, schema[i].key).value, schema[i].desc, schema[i].cons).result
                       == Ok(Lookup(es, schema[i].key).value))
    ensures ValidateEntries(forms, es, schema).result == Ok(Restrict(schema, es))
  {
    if |schema| > 0 {
      assert forall i :: 0 <= i < |schema| - 1 ==> schema[1..][i] == schema[i + 1];
      EntriesFixed(forms, es, schema[1..]);
    }
  }

  /** `PresentKeys` only looks at which schema keys a dict holds. */
  lemma {:induction false} PresentKeysAgree(schema: seq<Entry>, a: seq<Item>, b: seq<Item>)
    requires forall i :: 0 <= i < |schema| ==> (schema[i].key in Keys(a) <==> schema[i].key in Keys(b))
    ensures PresentKeys(schema, a) == PresentKeys(schema, b)
  {
    if |schema| > 0 {
      assert forall i :: 0 <= i < |schema| - 1 ==> schema[1..][i] == schema[i + 1];
      PresentKeysAgree(schema[1..], a, b);
    }
  }

  /** With distinct schema keys, the present keys are distinct. */
  lemma {:induction false} PresentKeysDistinct(schema: seq<Entry>, es: seq<Item>)
    requires DistinctSchemaKeys(schema)
    ensures NoDuplicates(PresentKeys(schema, es))
  {
    if |schema| > 0 {
      var rest := PresentKeys(schema[1..], es);
      assert DistinctSchemaKeys(schema[1..]) by {
        assert forall i :: 0 <= i < |schema| - 1 ==> schema[1..][i] == schema[i + 1];
      }
      PresentKeysDistinct(schema[1..], es);
      assert schema[0].key !in SchemaKeys(schema[1..]) by {
        assert forall i :: 0 <= i < |schema| - 1 ==> schema[1..][i] == schema[i + 1];
      }
      assert schema[0].key !in rest;
      var ks := PresentKeys(schema, es);
      if schema[0].key in Keys(es) {
        assert ks == [schema[0].key] + rest;
        assert forall i :: 1 <= i < |ks| ==> ks[i] == rest[i - 1];
      } else {
        assert ks == rest;
      }
    }
  }

  /** A dict holding exactly the present schema keys in order, distinct, is its own declared part. */
  lemma SelfRestrict(schema: seq<Entry>, out: seq<Item>)
    requires DistinctKeys(out)
    requires ItemKeys(out) == PresentKeys(schema, out)
    ensures Restrict(schema, out) == out
  {
    var r := Restrict(schema, out);
    assert |r| == |out| by {
      assert |ItemKeys(r)| == |ItemKeys(out)|;
    }
    forall j | 0 <= j < |out|
      ensures r[j] == out[j]
    {
      assert r[j].key == ItemKeys(r)[j] == ItemKeys(out)[j] == out[j].key;
    }
  }

  // ------------------------------------------------------- idempotence

  /**
   * Validation is idempotent on declared types without unions and
   * user-registered types: a validated value validates to itself.
   */
  lemma Idem(forms: TextForms, v: Val, d: Desc, c: Constraints)
    requires Plain(d)
    ensures var r := Validate(forms, v, d, c);
      r.result.Ok? ==> Validate(forms, r.result.value, d, c).result == r.result
    decreases d, 1
  {
    match d
    case Prim(k) => IdemPrim(forms, v, k, c);
    case Bare(_) =>
    case ListOf(t) => IdemList(forms, v, t, c);
    case SetOf(t) => IdemSet(forms, v, t, c);
    case TupleOf(ts) => IdemTuple(forms, v, ts, c);
    case DictOf(kd, vd) => IdemDict(forms, v, kd, vd, c);
    case Nested(schema) => IdemNested(forms, v, schema, c);
  }

  /** A coerced scalar already has the requested type, so coercion and the checks pass it through. */
  lemma IdemPrim(forms: TextForms, v: Val, k: Kind, c: Constraints)
    ensures var r := Validate(forms, v, Prim(k), c);
      r.result.Ok? ==> Validate(forms, r.result.value, Prim(k), c).result == r.result
  {
    var r := Validate(forms, v, Prim(k), c);
    if r.result.Ok? {
      var w := Coerce(forms, v, k).value;
      assert r.result == CheckScalar(w, c);
      assert Coerce(forms, w, k) == Ok(w);
    }
  }

  lemma IdemList(forms: TextForms, v: Val, t: Desc, c: Constraints)
    requires Plain(t)
    ensures var r := Validate(forms, v, ListOf(t), c);
      r.result.Ok? ==> Validate(forms, r.result.value, ListOf(t), c).result == r.result
    decreases ListOf(t), 0
  {
    var r := Validate(forms, v, ListOf(t), c);
    if r.result.Ok? {
      var ys := ValidateItems(forms, v.items, t, Inner(c)).result.value;
      ItemsOk(forms, v.items, t, Inner(c));
      forall i | 0 <= i < |ys|
        ensures Validate(forms, ys[i], t, Inner(c)).result == Ok(ys[i])
      {
        Idem(forms, v.items[i], t, Inner(c));
      }
      ItemsFixed(forms, ys, t, Inner(c));
      assert r.result == Finish(VList(ys), c);
    }
  }

  lemma IdemSet(forms: TextForms, v: Val, t: Desc, c: Constraints)
    requires Plain(t)
    ensures var r := Validate(forms, v, SetOf(t), c);
      r.result.Ok? ==> Validate(forms, r.result.value, SetOf(t), c).result == r.result
    decreases SetOf(t), 0
  {
    var r := Validate(forms, v, SetOf(t), c);
    if r.result.Ok? {
      var ys := ValidateItems(forms, v.items, t, Inner(c)).result.value;
      var zs := Dedup(ys);
      ItemsOk(forms, v.items, t, Inner(c));
      forall i | 0 <= i < |zs|
        ensures Validate(forms, zs[i], t, Inner(c)).result == Ok(zs[i])
      {
        assert zs[i] in ys;
        var j :| 0 <= j < |ys| && ys[j] == zs[i];
        Idem(forms, v.items[j], t, Inner(c));
      }
      ItemsFixed(forms, zs, t, Inner(c));
      DedupNoDuplicates(zs);
      assert r.result == Finish(VSet(zs), c);
    }
  }

  lemma IdemTuple(forms: TextForms, v: Val, ts: seq<Desc>, c: Constraints)
    requires forall i :: 0 <= i < |ts| ==> Plain(ts[i])
    ensures var r := Validate(forms, v, TupleOf(ts), c);
      r.result.Ok? ==> Validate(forms, r.result.value, TupleOf(ts), c).result == r.result
    decreases TupleOf(ts), 0
  {
    var r := Validate(forms, v, TupleOf(ts), c);
    if r.result.Ok? {
      var zs := ValidateTuple(forms, v.items, ts, Inner(c)).result.value;
      TuplePointwise(forms, v.items, ts, Inner(c));
      forall i | 0 <= i < |zs|
        ensures Validate(forms, zs[i], ts[i], Inner(c)).result == Ok(zs[i])
      {
        Idem(forms, v.items[i], ts[i], Inner(c));
      }
      TupleFixed(forms, zs, ts, Inner(c));
      assert r.result == Finish(VTuple(zs), c);
    }
  }

  lemma IdemDict(forms: TextForms, v: Val, kd: Desc, vd: Desc, c: Constraints)
    requires Plain(kd) && Plain(vd)
    ensures var r := Validate(forms, v, DictOf(kd, vd), c);
      r.result.Ok? ==> Validate(forms, r.result.value, DictOf(kd, vd), c).result == r.result
    decreases DictOf(kd, vd), 0
  {
    var r := Validate(forms, v, DictOf(kd, vd), c);
    if r.result.Ok? {
      DictUnfold(forms, v, kd, vd, c);
      var es := v.entries;
      var ps := ValidatePairs(forms, es, kd, vd, Inner(c)).result.value;
      var out := Collect(ps);
      PairsOk(forms, es, kd, vd, Inner(c));
      forall j | 0 <= j < |out|
        ensures Validate(forms, out[j].key, kd, Unconstrained).result == Ok(out[j].key)
        ensures Validate(forms, out[j].value, vd, Inner(c)).result == Ok(out[j].value)
      {
        var k := out[j].key;
        CollectFrom(ps, k);
        var i :| 0 <= i < |ps| && ps[i] == Item(k, Lookup(out, k).value);
        assert Lookup(out, k).value == out[j].value;
        Idem(forms, es[i].key, kd, Unconstrained);
        Idem(forms, es[i].value, vd, Inner(c));
      }
      PairsFixed(forms, out, kd, vd, Inner(c));
      CollectDistinct(out);
      DictUnfold(forms, VDict(out), kd, vd, c);
    }
  }

  lemma IdemNested(forms: TextForms, v: Val, schema: seq<Entry>, c: Constraints)
    requires DistinctSchemaKeys(schema) && forall i :: 0 <= i < |schema| ==> PlainEntry(schema[i])
    ensures var r := Validate(forms, v, Nested(schema), c);
      r.result.Ok? ==> Validate(forms, r.result.value, Nested(schema), c).result == r.result
    decreases Nested(schema), 0
  {
    var r := Validate(forms, v, Nested(schema), c);
    if r.result.Ok? {
      IdemDictValue(forms, v, schema);
    }
  }

  lemma IdemEntry(forms: TextForms, x: Val, e: Entry)
    requires PlainEntry(e)
    ensures var r := Validate(forms, x, e.desc, e.cons);
      r.result.Ok? ==> Validate(forms, r.result.value, e.desc, e.cons).result == r.result
    decreases e, 0
  {
    Idem(forms, x, e.desc, e.cons);
  }

  /** A dict whose key sequence has no duplicates has distinct keys. */
  lemma DistinctOfItemKeys(out: seq<Item>)
    requires NoDuplicates(ItemKeys(out))
    ensures DistinctKeys(out)
  {
    assert forall j :: 0 <= j < |out| ==> ItemKeys(out)[j] == out[j].key;
  }

  /** A dict holding exactly the present schema keys, in order: its keys, distinctness and declared part. */
  lemma OutShape(schema: seq<Entry>, es: seq<Item>, out: seq<Item>)
    requires DistinctSchemaKeys(schema)
    requires ItemKeys(out) == PresentKeys(schema, es)
    ensures DistinctKeys(out)
    ensures Keys(out) == SchemaKeys(schema) * Keys(es)
    ensures Restrict(schema, out) == out
  {
    PresentKeysDistinct(schema, es);
    DistinctOfItemKeys(out);
    KeysOfItemKeys(out);
    assert forall k :: k in Keys(out) <==> k in SchemaKeys(schema) * Keys(es);
    forall i | 0 <= i < |schema|
      ensures schema[i].key in Keys(out) <==> schema[i].key in Keys(es)
    {
      assert schema[i].key in SchemaKeys(schema);
    }
    PresentKeysAgree(schema, out, es);
    SelfRestrict(schema, out);
  }

  /**
   * The output of a schema's entries: distinct keys, exactly the declared
   * keys present in the input, every mandatory key, and nothing for
   * `Restrict` to remove.
   */
  lemma EntriesOutShape(forms: TextForms, es: seq<Item>, schema: seq<Entry>)
    requires DistinctSchemaKeys(schema)
    requires ValidateEntries(forms, es, schema).result.Ok?
    ensures var out := ValidateEntries(forms, es, schema).result.value;
      && DistinctKeys(out)
      && Keys(out) == SchemaKeys(schema) * Keys(es)
      && (forall i :: 0 <= i < |schema| && schema[i].presence == Mandatory ==> schema[i].key in Keys(out))
      && Restrict(schema, out) == out
  {
    var out := ValidateEntries(forms, es, schema).result.value;
    EntriesKeys(forms, es, schema);
    OutShape(schema, es, out);
    EntriesOk(forms, es, schema);
    forall i | 0 <= i < |schema| && schema[i].presence == Mandatory
      ensures schema[i].key in Keys(out)
    {
      assert Satisfies(forms, es, schema[i]);
      assert schema[i].key in SchemaKeys(schema);
    }
  }

  /** The value a schema outputs under a declared key is that key's input value, validated. */
  lemma OutValueSource(forms: TextForms, es: seq<Item>, schema: seq<Entry>, i: nat)
    requires DistinctSchemaKeys(schema)
    requires ValidateEntries(forms, es, schema).result.Ok?
    requires i < |schema| && schema[i].key in Keys(ValidateEntries(forms, es, schema).result.value)
    ensures var out := ValidateEntries(forms, es, schema).result.value;
      && schema[i].key in Keys(es)
      && Validate(forms, Lookup(es, schema[i].key).value, schema[i].desc, schema[i].cons).result
           == Ok(Lookup(out, schema[i].key).value)
  {
    var out := ValidateEntries(forms, es, schema).result.value;
    EntriesKeys(forms, es, schema);
    PresentKeysDistinct(schema, es);
    DistinctOfItemKeys(out);
    EntriesValues(forms, es, schema);
    var k := schema[i].key;
    var j :| 0 <= j < |out| && out[j].key == k;
    var i' :| 0 <= i' < |schema| && schema[i'].key == out[j].key && schema[i'].key in Keys(es) &&
      Validate(forms, Lookup(es, schema[i'].key).value, schema[i'].desc, schema[i'].cons).result == Ok(out[j].value);
    assert i' == i;
    assert Lookup(out, k).value == out[j].value;
  }

  /** Each value a schema outputs validates to itself against its entry. */
  lemma IdemEntriesValues(forms: TextForms, es: seq<Item>, schema: seq<Entry>)
    requires DistinctSchemaKeys(schema) && forall i :: 0 <= i < |schema| ==> PlainEntry(schema[i])
    requires ValidateEntries(forms, es, schema).result.Ok?
    ensures var out := ValidateEntries(forms, es, schema).result.value;
      forall i :: 0 <= i < |schema| && schema[i].key in Keys(out) ==>
        Validate(forms, Lookup(out, schema[i].key).value, schema[i].desc, schema[i].cons).result
          == Ok(Lookup(out, schema[i].key).value)
    decreases schema, 0
  {
    var out := ValidateEntries(forms, es, schema).result.value;
    forall i | 0 <= i < |schema| && schema[i].key in Keys(out)
      ensures Validate(forms, Lookup(out, schema[i].key).value, schema[i].desc, schema[i].cons).result
                == Ok(Lookup(out, schema[i].key).value)
    {
      OutValueSource(forms, es, schema, i);
      IdemEntry(forms, Lookup(es, schema[i].key).value, schema[i]);
    }
  }

  /**
   * A `DictValue` is idempotent: its output has no unknown keys, at most one
   * exclusive key, every mandatory key, and values that validate to
   * themselves.
   */
  lemma IdemDictValue(forms: TextForms, v: Val, schema: seq<Entry>)
    requires DistinctSchemaKeys(schema) && forall i :: 0 <= i < |schema| ==> PlainEntry(schema[i])
    ensures var r := ValidateDictValue(forms, v, schema);
      r.result.Ok? ==> ValidateDictValue(forms, r.result.value, schema).result == r.result
    decreases schema, 1
  {
    var r := ValidateDictValue(forms, v, schema);
    if r.result.Ok? {
      DictValueOk(forms, v, schema);
      var es := v.entries;
      var out := ValidateEntries(forms, es, schema).result.value;
      EntriesOutShape(forms, es, schema);
      IdemEntriesValues(forms, es, schema);
      EntriesFixed(forms, out, schema);
      assert KeysOfKind(schema, Exclusive) * Keys(out) == KeysOfKind(schema, Exclusive) * Keys(es);
      DictValueFixed(forms, out, schema);
    }
  }

  /** A `DictValue` that succeeds had a dict, at most one exclusive key, and outputs what its entries output. */
  lemma DictValueOk(forms: TextForms, v: Val, schema: seq<Entry>)
    requires ValidateDictValue(forms, v, schema).result.Ok?
    ensures v.VDict?
    ensures |KeysOfKind(schema, Exclusive) * Keys(v.entries)| <= 1
    ensures ValidateEntries(forms, v.entries, schema).result.Ok?
    ensures ValidateDictValue(forms, v, schema).result == Ok(VDict(ValidateEntries(forms, v.entries, schema).result.value))
  {
  }

  /** A dict of declared keys only, with at most one exclusive key, that its entries output unchanged, is a fixed point. */
  lemma DictValueFixed(forms: TextForms, out: seq<Item>, schema: seq<Entry>)
    requires Keys(out) <= SchemaKeys(schema)
    requires |KeysOfKind(schema, Exclusive) * Keys(out)| <= 1
    requires ValidateEntries(forms, out, schema).result == Ok(out)
    ensures ValidateDictValue(forms, VDict(out), schema).result == Ok(VDict(out))
  {
  }

  /** A union of two alternatives takes the first that succeeds, or fails when both do. */
  lemma TwoAlternatives(forms: TextForms, v: Val, a: Desc, b: Desc, c: Constraints)
    ensures Validate(forms, v, UnionOf([a, b]), c).result ==
      if Validate(forms, v, a, c).result.Ok? then Validate(forms, v, a, c).result
      else if Validate(forms, v, b, c).result.Ok? then Validate(forms, v, b, c).result
      else Err(NoAlternativeMatches(v))
  {
    assert [a, b][1..] == [b] && [b][1..] == [];
    assert FirstMatch(forms, v, [], c).result == Err(NoAlternativeMatches(v));
    assert FirstMatch(forms, v, [b], c).result ==
      if Validate(forms, v, b, c).result.Ok? then Validate(forms, v, b, c).result
      else Err(NoAlternativeMatches(v));
    assert FirstMatch(forms, v, [a, b], c).result ==
      if Validate(forms, v, a, c).result.Ok? then Validate(forms, v, a, c).result
      else FirstMatch(forms, v, [b], c).result;
    assert Validate(forms, v, UnionOf([a, b]), c) == FirstMatch(forms, v, [a, b], c);
  }

  /**
   * Unions are why idempotence is restricted: `Union[Tuple[int], Set[int]]`
   * turns `[1, 1]` into the set `{1}`, and validating `{1}` again matches the
   * one-element tuple first.
   */
  lemma UnionNotIdempotent(forms: TextForms)
    ensures var d := UnionOf([TupleOf([Prim(IntK)]), SetOf(Prim(IntK))]);
      var r := Validate(forms, VList([VInt(1), VInt(1)]), d, Unconstrained);
      && r.result == Ok(VSet([VInt(1)]))
      && Validate(forms, r.result.value, d, Unconstrained).result == Ok(VTuple([VInt(1)]))
  {
    var tuple, sets := TupleOf([Prim(IntK)]), SetOf(Prim(IntK));
    OneOneNotATuple(forms);
    OneOneIsASet(forms);
    OneSetIsATuple(forms);
    TwoAlternatives(forms, VList([VInt(1), VInt(1)]), tuple, sets, Unconstrained);
    TwoAlternatives(forms, VSet([VInt(1)]), tuple, sets, Unconstrained);
  }

  /** `[1, 1]` has the wrong number of values for a one-element tuple. */
  lemma OneOneNotATuple(forms: TextForms)
    ensures Validate(forms, VList([VInt(1), VInt(1)]), TupleOf([Prim(IntK)]), Unconstrained).result == Err(TupleArity(1, 2))
  {
  }

  /** `[1, 1]` as a `Set[int]` is the set `{1}`. */
  lemma OneOneIsASet(forms: TextForms)
    ensures Validate(forms, VList([VInt(1), VInt(1)]), SetOf(Prim(IntK)), Unconstrained).result == Ok(VSet([VInt(1)]))
  {
    var xs := [VInt(1), VInt(1)];
    assert Dedup(xs) == [VInt(1)];
    assert Finish(VSet([VInt(1)]), Unconstrained) == Ok(VSet([VInt(1)]));
    OnesAreInts(forms, xs);
  }

  /** Every element of a list of ones is the int 1. */
  lemma OnesAreInts(forms: TextForms, xs: seq<Val>)
    requires xs == [VInt(1), VInt(1)]
    ensures ValidateItems(forms, xs, Prim(IntK), Inner(Unconstrained)).result == Ok(xs)
  {
    var c := Inner(Unconstrained);
    assert Coerce(forms, VInt(1), IntK) == Ok(VInt(1));
    assert Validate(forms, VInt(1), Prim(IntK), c).result == Ok(VInt(1));
    ItemsFixed(forms, xs, Prim(IntK), c);
  }

  /** `{1}` is a one-element tuple. */
  lemma OneSetIsATuple(forms: TextForms)
    ensures Validate(forms, VSet([VInt(1)]), TupleOf([Prim(IntK)]), Unconstrained).result == Ok(VTuple([VInt(1)]))
  {
    var c := Inner(Unconstrained);
    assert Coerce(forms, VInt(1), IntK) == Ok(VInt(1));
    assert Validate(forms, VInt(1), Prim(IntK), c).result == Ok(VInt(1));
    TupleFixed(forms, [VInt(1)], [Prim(IntK)], c);
  }
}
