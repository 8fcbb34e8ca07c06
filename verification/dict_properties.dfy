/**
 * What the Type Matcher promises about dictionaries: `Dict[K, V]` typing,
 * the single-key lookup of a `NamedValue`, and the presence policy of a
 * `DictValue` (mandatory, optional and exclusive keys; unknown keys warned
 * about and dropped).
 */
module DictProperties {
  import opened Values
  import opened Text
  import opened Schema
  import opened Diagnostics
  import opened Coercion
  import opened Checks
  import opened Matcher

  // ---------------------------------------------------------------- Dict[K, V]

  /** One successful step over the pairs of a dict: the first pair and the rest. */
  lemma PairsHead(forms: TextForms, es: seq<Item>, kd: Desc, vd: Desc, c: Constraints)
    requires |es| > 0 && ValidatePairs(forms, es, kd, vd, c).result.Ok?
    ensures var r := ValidatePairs(forms, es, kd, vd, c).result.value;
      var rest := ValidatePairs(forms, es[1..], kd, vd, c).result;
      && rest.Ok? && r[1..] == rest.value
      && Validate(forms, es[0].key, kd, Unconstrained).result == Ok(r[0].key)
      && Validate(forms, es[0].value, vd, c).result == Ok(r[0].value)
  {
  }

  /** Each item of a `Dict[K, V]` has its key validated against `K` and its value against `V`, independently. */
  lemma {:induction false} PairsOk(forms: TextForms, es: seq<Item>, kd: Desc, vd: Desc, c: Constraints)
    ensures var r := ValidatePairs(forms, es, kd, vd, c);
      r.result.Ok? ==>
        forall i :: 0 <= i < |es| ==>
          && Validate(forms, es[i].key, kd, Unconstrained).result == Ok(r.result.value[i].key)
          && Validate(forms, es[i].value, vd, c).result == Ok(r.result.value[i].value)
  {
    var r := ValidatePairs(forms, es, kd, vd, c);
    if |es| > 0 && r.result.Ok? {
      PairsHead(forms, es, kd, vd, c);
      PairsOk(forms, es[1..], kd, vd, c);
      forall i | 0 < i < |es|
        ensures Validate(forms, es[i].key, kd, Unconstrained).result == Ok(r.result.value[i].key)
        ensures Validate(forms, es[i].value, vd, c).result == Ok(r.result.value[i].value)
      {
        assert es[i] == es[1..][i - 1];
        assert r.result.value[i] == r.result.value[1..][i - 1];
      }
    }
  }

  /** A `Dict[K, V]` whose every key and value validates has every item validated. */
  lemma {:induction false} PairsAllOk(forms: TextForms, es: seq<Item>, kd: Desc, vd: Desc, c: Constraints)
    requires forall i :: 0 <= i < |es| ==>
               Validate(forms, es[i].key, kd, Unconstrained).result.Ok? && Validate(forms, es[i].value, vd, c).result.Ok?
    ensures ValidatePairs(forms, es, kd, vd, c).result.Ok?
  {
    if |es| > 0 {
      assert forall i :: 0 <= i < |es| - 1 ==> es[1..][i] == es[i + 1];
      PairsAllOk(forms, es[1..], kd, vd, c);
    }
  }

  /** A failing `Dict[K, V]` item names the key or value that failed, with the reason. */
  lemma {:induction false} PairsErr(forms: TextForms, es: seq<Item>, kd: Desc, vd: Desc, c: Constraints)
    ensures var r := ValidatePairs(forms, es, kd, vd, c);
      r.result.Err? ==>
        && r.result.error.BadDictItem?
        && exists i :: 0 <= i < |es| &&
             ((r.result.error.value == es[i].key &&
               Validate(forms, es[i].key, kd, Unconstrained).result == Err(r.result.error.cause)) ||
              (r.result.error.value == es[i].value &&
               Validate(forms, es[i].value, vd, c).result == Err(r.result.error.cause)))
  {
    if |es| > 0 {
      var r := ValidatePairs(forms, es, kd, vd, c);
      var k := Validate(forms, es[0].key, kd, Unconstrained);
      var x := Validate(forms, es[0].value, vd, c);
      if k.result.Ok? && x.result.Ok? && r.result.Err? {
        PairsErr(forms, es[1..], kd, vd, c);
        var i :| 0 <= i < |es| - 1 &&
             ((r.result.error.value == es[1..][i].key &&
               Validate(forms, es[1..][i].key, kd, Unconstrained).result == Err(r.result.error.cause)) ||
              (r.result.error.value == es[1..][i].value &&
               Validate(forms, es[1..][i].value, vd, c).result == Err(r.result.error.cause)));
        assert es[i + 1] == es[1..][i];
      }
    }
  }

  /** Each item of the collected dict comes from some input item whose key and value validated to it. */
  lemma CollectedPairs(forms: TextForms, es: seq<Item>, kd: Desc, vd: Desc, c: Constraints)
    requires ValidatePairs(forms, es, kd, vd, c).result.Ok?
    ensures var out := Collect(ValidatePairs(forms, es, kd, vd, c).result.value);
      forall k :: k in Keys(out) ==>
        exists i :: 0 <= i < |es|
          && Validate(forms, es[i].key, kd, Unconstrained).result == Ok(k)
          && Validate(forms, es[i].value, vd, c).result == Ok(Lookup(out, k).value)
  {
    var ps := ValidatePairs(forms, es, kd, vd, c).result.value;
    var out := Collect(ps);
    forall k | k in Keys(out)
      ensures exists i :: (0 <= i < |es|
        && Validate(forms, es[i].key, kd, Unconstrained).result == Ok(k)
        && Validate(forms, es[i].value, vd, c).result == Ok(Lookup(out, k).value))
    {
      var i := CollectedPairAt(forms, es, kd, vd, c, k);
      assert Validate(forms, es[i].key, kd, Unconstrained).result == Ok(k);
    }
  }

  /** The input pair an output key of a `Dict[K, V]` comes from. */
  lemma CollectedPairAt(forms: TextForms, es: seq<Item>, kd: Desc, vd: Desc, c: Constraints, k: Val) returns (i: nat)
    requires ValidatePairs(forms, es, kd, vd, c).result.Ok?
    requires k in Keys(Collect(ValidatePairs(forms, es, kd, vd, c).result.value))
    ensures var out := Collect(ValidatePairs(forms, es, kd, vd, c).result.value);
      && i < |es|
      && Validate(forms, es[i].key, kd, Unconstrained).result == Ok(k)
      && Validate(forms, es[i].value, vd, c).result == Ok(Lookup(out, k).value)
  {
    var ps := ValidatePairs(forms, es, kd, vd, c).result.value;
    CollectFrom(ps, k);
    i :| 0 <= i < |ps| && ps[i] == Item(k, Lookup(Collect(ps), k).value);
    PairAt(forms, es, kd, vd, c, i);
  }

  /** The i-th validated pair comes from the i-th input pair. */
  lemma PairAt(forms: TextForms, es: seq<Item>, kd: Desc, vd: Desc, c: Constraints, i: nat)
    requires ValidatePairs(forms, es, kd, vd, c).result.Ok? && i < |es|
    ensures var ps := ValidatePairs(forms, es, kd, vd, c).result.value;
      && Validate(forms, es[i].key, kd, Unconstrained).result == Ok(ps[i].key)
      && Validate(forms, es[i].value, vd, c).result == Ok(ps[i].value)
  {
    PairsOk(forms, es, kd, vd, c);
  }

  /** The shape of `Dict[K, V]` on a dict: the validated pairs, collected, then the container checks. */
  lemma DictUnfold(forms: TextForms, v: Val, kd: Desc, vd: Desc, c: Constraints)
    requires v.VDict?
    ensures Validate(forms, v, DictOf(kd, vd), c) == AssembleDict(ValidatePairs(forms, v.entries, kd, vd, Inner(c)), c)
  {
    var d := DictOf(kd, vd);
    assert d.DictOf? && d.keyType == kd && d.valueType == vd;
  }

  /** `Dict[K, V]` validates only dictionaries: "This type can only validate dictionaries". */
  lemma DictNeedsDict(forms: TextForms, v: Val, kd: Desc, vd: Desc, c: Constraints)
    requires !v.VDict?
    ensures Validate(forms, v, DictOf(kd, vd), c) == Fail(OnlyDictionaries(v))
  {
  }

  /**
   * A `Dict[K, V]` success is a dict with distinct keys, each of its items
   * coming from some input item whose key validated against `K` and whose
   * value validated against `V` one level down (a later duplicate wins).
   */
  lemma DictTyping(forms: TextForms, v: Val, kd: Desc, vd: Desc, c: Constraints)
    requires v.VDict?
    ensures var r := Validate(forms, v, DictOf(kd, vd), c);
      r.result.Ok? ==>
        && r.result.value.VDict?
        && DistinctKeys(r.result.value.entries)
        && forall k :: k in Keys(r.result.value.entries) ==>
             exists i :: (0 <= i < |v.entries|
               && Validate(forms, v.entries[i].key, kd, Unconstrained).result == Ok(k)
               && Validate(forms, v.entries[i].value, vd, Inner(c)).result
                    == Ok(Lookup(r.result.value.entries, k).value))
  {
    var r := Validate(forms, v, DictOf(kd, vd), c);
    var p := ValidatePairs(forms, v.entries, kd, vd, Inner(c));
    DictUnfold(forms, v, kd, vd, c);
    if r.result.Ok? {
      assert p.result.Ok?;
      assert r.result.value == VDict(Collect(p.result.value));
      CollectedPairs(forms, v.entries, kd, vd, Inner(c));
    }
  }

  /**
   * A later duplicate wins: an input item whose validated key no later item
   * shares gives the output value at that key.
   */
  lemma DictLaterWins(forms: TextForms, v: Val, kd: Desc, vd: Desc, c: Constraints, i: nat)
    requires v.VDict? && i < |v.entries|
    requires Validate(forms, v, DictOf(kd, vd), c).result.Ok?
    requires forall j :: i < j < |v.entries| ==>
               Validate(forms, v.entries[j].key, kd, Unconstrained).result
                 != Validate(forms, v.entries[i].key, kd, Unconstrained).result
    ensures var w := Validate(forms, v, DictOf(kd, vd), c).result.value;
      var kr := Validate(forms, v.entries[i].key, kd, Unconstrained).result;
      var xr := Validate(forms, v.entries[i].value, vd, Inner(c)).result;
      w.VDict? && kr.Ok? && xr.Ok? && Lookup(w.entries, kr.value) == Some(xr.value)
  {
    var p := ValidatePairs(forms, v.entries, kd, vd, Inner(c));
    DictUnfold(forms, v, kd, vd, c);
    assert p.result.Ok?;
    var ps := p.result.value;
    assert Validate(forms, v, DictOf(kd, vd), c).result.value == VDict(Collect(ps));
    LaterKeysDiffer(forms, v.entries, kd, vd, Inner(c), i);
    CollectLast(ps, i);
  }

  /** Validated keys of later items differ when their validations differ. */
  lemma LaterKeysDiffer(forms: TextForms, es: seq<Item>, kd: Desc, vd: Desc, c: Constraints, i: nat)
    requires i < |es| && ValidatePairs(forms, es, kd, vd, c).result.Ok?
    requires forall j :: i < j < |es| ==>
               Validate(forms, es[j].key, kd, Unconstrained).result != Validate(forms, es[i].key, kd, Unconstrained).result
    ensures var ps := ValidatePairs(forms, es, kd, vd, c).result.value;
      && Validate(forms, es[i].key, kd, Unconstrained).result == Ok(ps[i].key)
      && Validate(forms, es[i].value, vd, c).result == Ok(ps[i].value)
      && forall j :: i < j < |ps| ==> ps[j].key != ps[i].key
  {
    PairsOk(forms, es, kd, vd, c);
  }

  /** A `Dict[K, V]` failing on an item names that item's key or value, with the reason. */
  lemma DictItemError(forms: TextForms, v: Val, kd: Desc, vd: Desc, c: Constraints)
    requires v.VDict?
    ensures var r := Validate(forms, v, DictOf(kd, vd), c);
      r.result.Err? && r.result.error.BadDictItem? ==>
        exists i :: 0 <= i < |v.entries| &&
          (r.result.error.value == v.entries[i].key || r.result.error.value == v.entries[i].value)
  {
    DictUnfold(forms, v, kd, vd, c);
    PairsErr(forms, v.entries, kd, vd, Inner(c));
  }

  /** A dict whose every key validates against `K` and every value against `V` is a `Dict[K, V]`, absent container checks. */
  lemma DictAllOk(forms: TextForms, v: Val, kd: Desc, vd: Desc, c: Constraints)
    requires v.VDict? && Outer(c.lenMin).None? && Outer(c.lenMax).None? && c.fun.None?
    requires forall i :: 0 <= i < |v.entries| ==>
               && Validate(forms, v.entries[i].key, kd, Unconstrained).result.Ok?
               && Validate(forms, v.entries[i].value, vd, Inner(c)).result.Ok?
    ensures Validate(forms, v, DictOf(kd, vd), c).result.Ok?
  {
    DictUnfold(forms, v, kd, vd, c);
    PairsAllOk(forms, v.entries, kd, vd, Inner(c));
  }

  // ---------------------------------------------------------------- NamedValue

  /**
   * `NamedValue(key, d).validate(v)`: only dictionaries are accepted; the key
   * is looked up exactly; a missing key fails with "not in dictionary"; a
   * present key gives a one-item dict holding the validated value, and a
   * value that does not validate fails naming the key and the reason.
   */
  lemma NamedTyping(forms: TextForms, v: Val, e: Entry)
    ensures !v.VDict? ==> ValidateNamed(forms, v, e) == Fail(NotADictionary(v))
    ensures v.VDict? && e.key !in Keys(v.entries) ==> ValidateNamed(forms, v, e) == Fail(SettingMissing(e.key))
    ensures v.VDict? && e.key in Keys(v.entries) ==>
      var h := Validate(forms, Lookup(v.entries, e.key).value, e.desc, e.cons);
      var r := ValidateNamed(forms, v, e);
      && r.warnings == h.warnings
      && (h.result.Ok? ==> r.result == Ok(VDict([Item(e.key, h.result.value)])))
      && (h.result.Err? ==> r.result == Err(InSetting(e.key, h.result.error)))
  {
  }

  // ---------------------------------------------------------------- DictValue

  /** An entry is satisfied by a dict: a mandatory key is present, and a present key's value validates. */
  ghost predicate Satisfies(forms: TextForms, es: seq<Item>, e: Entry)
  {
    && (e.presence == Mandatory ==> e.key in Keys(es))
    && (e.key in Keys(es) ==> Validate(forms, Lookup(es, e.key).value, e.desc, e.cons).result.Ok?)
  }

  /** The schema keys present in a dict, in declared order: the keys a `DictValue` outputs. */
  function PresentKeys(schema: seq<Entry>, es: seq<Item>): (ks: seq<Val>)
    ensures forall k :: k in ks <==> k in SchemaKeys(schema) && k in Keys(es)
  {
    if |schema| == 0 then []
    else
      var rest := PresentKeys(schema[1..], es);
      assert SchemaKeys(schema) == {schema[0].key} + SchemaKeys(schema[1..]) by {
        assert forall i :: 0 < i < |schema| ==> schema[i] == schema[1..][i - 1];
      }
      if schema[0].key in Keys(es) then [schema[0].key] + rest else rest
  }

  /** The entries of a schema all validate exactly when every entry is satisfied. */
  lemma {:induction false} EntriesOk(forms: TextForms, es: seq<Item>, schema: seq<Entry>)
    ensures ValidateEntries(forms, es, schema).result.Ok? <==>
              forall i :: 0 <= i < |schema| ==> Satisfies(forms, es, schema[i])
  {
    if |schema| > 0 {
      EntriesOk(forms, es, schema[1..]);
      assert forall i :: 0 < i < |schema| ==> schema[i] == schema[1..][i - 1];
    }
  }

  /** The keys of a sequence of items, in order. */
  function ItemKeys(items: seq<Item>): (ks: seq<Val>)
    ensures |ks| == |items|
    ensures forall j :: 0 <= j < |items| ==> ks[j] == items[j].key
  {
    seq(|items|, j requires 0 <= j < |items| => items[j].key)
  }

  /** A dict's keys are the members of its key sequence. */
  lemma KeysOfItemKeys(out: seq<Item>)
    ensures forall k :: k in Keys(out) <==> k in ItemKeys(out)
  {
    forall k | k in Keys(out)
      ensures k in ItemKeys(out)
    {
      var j :| 0 <= j < |out| && out[j].key == k;
      assert ItemKeys(out)[j] == k;
    }
  }

  /** The items a `DictValue` outputs are the present schema keys, in declared order. */
  lemma {:induction false} EntriesKeys(forms: TextForms, es: seq<Item>, schema: seq<Entry>)
    ensures var r := ValidateEntries(forms, es, schema);
      r.result.Ok? ==> ItemKeys(r.result.value) == PresentKeys(schema, es)
  {
    if |schema| > 0 {
      EntriesKeys(forms, es, schema[1..]);
      var r := ValidateEntries(forms, es, schema);
      var rest := ValidateEntries(forms, es, schema[1..]);
      if r.result.Ok? && schema[0].key in Keys(es) {
        var h := NamedItem(forms, es, schema[0]);
        assert r.result.value == [h.result.value] + rest.result.value;
        assert ItemKeys(r.result.value) == [schema[0].key] + ItemKeys(rest.result.value);
      }
    }
  }

  /** An output item is the validated value of a schema key present in the input. */
  predicate Sourced(forms: TextForms, es: seq<Item>, schema: seq<Entry>, item: Item)
  {
    exists i :: 0 <= i < |schema| && schema[i].key == item.key && schema[i].key in Keys(es) &&
      Validate(forms, Lookup(es, schema[i].key).value, schema[i].desc, schema[i].cons).result == Ok(item.value)
  }

  /** Sourced by the tail of a schema is sourced by the whole schema. */
  lemma SourcedTail(forms: TextForms, es: seq<Item>, schema: seq<Entry>, item: Item)
    requires |schema| > 0 && Sourced(forms, es, schema[1..], item)
    ensures Sourced(forms, es, schema, item)
  {
    var i :| 0 <= i < |schema| - 1 && schema[1..][i].key == item.key && schema[1..][i].key in Keys(es) &&
      Validate(forms, Lookup(es, schema[1..][i].key).value, schema[1..][i].desc, schema[1..][i].cons).result == Ok(item.value);
    assert schema[i + 1] == schema[1..][i];
  }

  /** Each item a `DictValue` outputs holds the value of its key validated against the entry's type. */
  lemma {:induction false} EntriesValues(forms: TextForms, es: seq<Item>, schema: seq<Entry>)
    ensures var r := ValidateEntries(forms, es, schema);
      r.result.Ok? ==> forall j :: 0 <= j < |r.result.value| ==> Sourced(forms, es, schema, r.result.value[j])
  {
    if |schema| > 0 {
      EntriesValues(forms, es, schema[1..]);
      var r := ValidateEntries(forms, es, schema);
      var rest := ValidateEntries(forms, es, schema[1..]);
      if r.result.Ok? {
        var out := r.result.value;
        var skip := schema[0].key !in Keys(es) && schema[0].presence != Mandatory;
        var h := NamedItem(forms, es, schema[0]);
        assert rest.result.Ok?;
        assert skip ==> out == rest.result.value;
        assert !skip ==> h.result.Ok? && schema[0].key in Keys(es) && out == [h.result.value] + rest.result.value;
        forall j | 0 <= j < |out|
          ensures Sourced(forms, es, schema, out[j])
        {
          if !skip && j == 0 {
            var x := Lookup(es, schema[0].key).value;
            var hv := Validate(forms, x, schema[0].desc, schema[0].cons);
            assert h.result == Ok(Item(schema[0].key, hv.result.value));
            assert out[0] == Item(schema[0].key, hv.result.value);
          } else {
            var j' := if skip then j else j - 1;
            assert out[j] == rest.result.value[j'];
            SourcedTail(forms, es, schema, out[j]);
          }
        }
      }
    }
  }

  /**
   * `DictValue(schema).validate(v)`. Only dictionaries are accepted. Two or
   * more present exclusive keys fail. Success means every mandatory key is
   * present, at most one exclusive key is, every present entry validates,
   * and the output holds exactly the present schema keys in declared order
   * (unknown keys are dropped, absent optional keys are omitted). The
   * converse holds too: a dict meeting those conditions validates.
   */
  lemma DictValueTyping(forms: TextForms, v: Val, schema: seq<Entry>)
    ensures !v.VDict? ==> ValidateDictValue(forms, v, schema) == Fail(DictValueNeedsDict(v))
    ensures v.VDict? && |KeysOfKind(schema, Exclusive) * Keys(v.entries)| > 1 ==>
              ValidateDictValue(forms, v, schema).result == Err(OnlyOneOf(KeysOfKind(schema, Exclusive) * Keys(v.entries)))
    ensures var r := ValidateDictValue(forms, v, schema);
      r.result.Ok? ==>
        && v.VDict?
        && KeysOfKind(schema, Mandatory) <= Keys(v.entries)
        && |KeysOfKind(schema, Exclusive) * Keys(v.entries)| <= 1
        && (forall i :: 0 <= i < |schema| ==> Satisfies(forms, v.entries, schema[i]))
        && r.result.value.VDict?
        && ItemKeys(r.result.value.entries) == PresentKeys(schema, v.entries)
    ensures v.VDict? && |KeysOfKind(schema, Exclusive) * Keys(v.entries)| <= 1 &&
            (forall i :: 0 <= i < |schema| ==> Satisfies(forms, v.entries, schema[i])) ==>
              ValidateDictValue(forms, v, schema).result.Ok?
  {
    if v.VDict? {
      EntriesOk(forms, v.entries, schema);
      EntriesKeys(forms, v.entries, schema);
      var r := ValidateDictValue(forms, v, schema);
      if r.result.Ok? {
        forall k | k in KeysOfKind(schema, Mandatory)
          ensures k in Keys(v.entries)
        {
          var i :| 0 <= i < |schema| && schema[i].key == k && schema[i].presence == Mandatory;
          assert Satisfies(forms, v.entries, schema[i]);
        }
      }
    }
  }

  /**
   * A missing mandatory key makes a `DictValue` fail ("Setting … not in
   * dictionary" unless an earlier entry already failed).
   */
  lemma MissingMandatoryFails(forms: TextForms, v: Val, schema: seq<Entry>, i: nat)
    requires v.VDict? && i < |schema| && schema[i].presence == Mandatory && schema[i].key !in Keys(v.entries)
    ensures ValidateDictValue(forms, v, schema).result.Err?
  {
    DictValueTyping(forms, v, schema);
    assert !Satisfies(forms, v.entries, schema[i]);
  }

  /** A declared type that holds no `DictValue`, so that validating against it never warns. */
  predicate WarningFree(d: Desc)
  {
    match d
    case Prim(_) => true
    case Custom(_, _, _) => true
    case Bare(_) => true
    case ListOf(t) => WarningFree(t)
    case SetOf(t) => WarningFree(t)
    case TupleOf(ts) => forall i :: 0 <= i < |ts| ==> WarningFree(ts[i])
    case DictOf(kd, vd) => WarningFree(kd) && WarningFree(vd)
    case UnionOf(ts) => forall i :: 0 <= i < |ts| ==> WarningFree(ts[i])
    case Nested(_) => false
  }

  /** Validating against a declared type without a `DictValue` in it emits no warning. */
  lemma {:induction false} NoWarnings(forms: TextForms, v: Val, d: Desc, c: Constraints)
    requires WarningFree(d)
    ensures Validate(forms, v, d, c).warnings == []
    decreases d, 1, 0
  {
    match d
    case Prim(_) =>
    case Custom(_, _, _) =>
    case Bare(_) =>
    case ListOf(t) => if IsSequence(v) { NoWarningsItems(forms, v.items, t, Inner(c)); }
    case SetOf(t) => if IsSequence(v) { NoWarningsItems(forms, v.items, t, Inner(c)); }
    case TupleOf(ts) => if IsSequence(v) { NoWarningsTuple(forms, v.items, ts, Inner(c)); }
    case DictOf(kd, vd) => if v.VDict? { NoWarningsPairs(forms, v.entries, kd, vd, Inner(c)); }
    case UnionOf(ts) => NoWarningsUnion(forms, v, ts, c);
  }

  lemma {:induction false} NoWarningsItems(forms: TextForms, xs: seq<Val>, t: Desc, c: Constraints)
    requires WarningFree(t)
    ensures ValidateItems(forms, xs, t, c).warnings == []
    decreases t, 2, |xs|
  {
    if |xs| > 0 {
      NoWarnings(forms, xs[0], t, c);
      NoWarningsItems(forms, xs[1..], t, c);
    }
  }

  lemma {:induction false} NoWarningsTuple(forms: TextForms, xs: seq<Val>, ts: seq<Desc>, c: Constraints)
    requires forall i :: 0 <= i < |ts| ==> WarningFree(ts[i])
    ensures ValidateTuple(forms, xs, ts, c).warnings == []
    decreases ts, 0, 0
  {
    if |ts| > 0 && |xs| > 0 {
      NoWarnings(forms, xs[0], ts[0], c);
      assert forall i :: 0 <= i < |ts| - 1 ==> ts[1..][i] == ts[i + 1];
      NoWarningsTuple(forms, xs[1..], ts[1..], c);
    }
  }

  lemma {:induction false} NoWarningsPairs(forms: TextForms, es: seq<Item>, kd: Desc, vd: Desc, c: Constraints)
    requires WarningFree(kd) && WarningFree(vd)
    ensures ValidatePairs(forms, es, kd, vd, c).warnings == []
    decreases DictOf(kd, vd), 0, |es|
  {
    if |es| > 0 {
      NoWarnings(forms, es[0].key, kd, Unconstrained);
      NoWarnings(forms, es[0].value, vd, c);
      NoWarningsPairs(forms, es[1..], kd, vd, c);
    }
  }

  lemma {:induction false} NoWarningsUnion(forms: TextForms, v: Val, ts: seq<Desc>, c: Constraints)
    requires forall i :: 0 <= i < |ts| ==> WarningFree(ts[i])
    ensures FirstMatch(forms, v, ts, c).warnings == []
    decreases ts, 0, 0
  {
    if |ts| > 0 {
      NoWarnings(forms, v, ts[0], c);
      assert forall i :: 0 <= i < |ts| - 1 ==> ts[1..][i] == ts[i + 1];
      NoWarningsUnion(forms, v, ts[1..], c);
    }
  }

  lemma {:induction false} NoWarningsEntries(forms: TextForms, es: seq<Item>, schema: seq<Entry>)
    requires forall i :: 0 <= i < |schema| ==> WarningFree(schema[i].desc)
    ensures ValidateEntries(forms, es, schema).warnings == []
  {
    if |schema| > 0 {
      if schema[0].key in Keys(es) {
        NoWarnings(forms, Lookup(es, schema[0].key).value, schema[0].desc, schema[0].cons);
      }
      assert forall i :: 0 <= i < |schema| - 1 ==> schema[1..][i] == schema[i + 1];
      NoWarningsEntries(forms, es, schema[1..]);
    }
  }

  /**
   * Unknown keys in a dict: a `DictValue` whose entries hold no nested
   * `DictValue` emits exactly one warning, listing exactly the unknown keys,
   * and none when there are none.
   */
  lemma ExtraKeysWarnOnce(forms: TextForms, v: Val, schema: seq<Entry>)
    requires v.VDict?
    requires forall i :: 0 <= i < |schema| ==> WarningFree(schema[i].desc)
    ensures var extra := Keys(v.entries) - SchemaKeys(schema);
      ValidateDictValue(forms, v, schema).warnings == (if extra == {} then [] else [ExtraValues(extra)])
  {
    NoWarningsEntries(forms, v.entries, schema);
  }

  /** Unknown keys never reach the output of a `DictValue`: its keys are schema keys present in the input. */
  lemma ExtraKeysDropped(forms: TextForms, v: Val, schema: seq<Entry>)
    ensures var r := ValidateDictValue(forms, v, schema);
      r.result.Ok? ==> Keys(r.result.value.entries) == SchemaKeys(schema) * Keys(v.entries)
  {
    DictValueTyping(forms, v, schema);
    var r := ValidateDictValue(forms, v, schema);
    if r.result.Ok? {
      var out := r.result.value.entries;
      var ks := PresentKeys(schema, v.entries);
      assert ItemKeys(out) == ks;
      KeysOfItemKeys(out);
    }
  }

  /** A `DictValue` only ever warns about unknown keys, whatever it holds. */
  lemma DictValueWarnings(forms: TextForms, v: Val, schema: seq<Entry>)
    ensures forall w :: w in ValidateDictValue(forms, v, schema).warnings ==> w.ExtraValues?
    decreases schema, 1
  {
    if v.VDict? {
      EntriesWarnings(forms, v.entries, schema);
    }
  }

  /** No validation emits anything but unknown-key warnings. */
  lemma {:induction false} WarningsAreExtra(forms: TextForms, v: Val, d: Desc, c: Constraints)
    ensures forall w :: w in Validate(forms, v, d, c).warnings ==> w.ExtraValues?
    decreases d, 2
  {
    match d
    case Prim(_) =>
    case Custom(_, _, _) =>
    case Bare(_) =>
    case ListOf(t) => if IsSequence(v) { ItemsWarnings(forms, v.items, t, Inner(c)); }
    case SetOf(t) => if IsSequence(v) { ItemsWarnings(forms, v.items, t, Inner(c)); }
    case TupleOf(ts) => if IsSequence(v) { TupleWarnings(forms, v.items, ts, Inner(c)); }
    case DictOf(kd, vd) => if v.VDict? { PairsWarnings(forms, v.entries, kd, vd, Inner(c)); DictUnfold(forms, v, kd, vd, c); }
    case UnionOf(ts) => UnionWarnings(forms, v, ts, c);
    case Nested(schema) => DictValueWarnings(forms, v, schema);
  }

  lemma {:induction false} ItemsWarnings(forms: TextForms, xs: seq<Val>, t: Desc, c: Constraints)
    ensures forall w :: w in ValidateItems(forms, xs, t, c).warnings ==> w.ExtraValues?
    decreases t, 3, |xs|
  {
    if |xs| > 0 {
      WarningsAreExtra(forms, xs[0], t, c);
      ItemsWarnings(forms, xs[1..], t, c);
    }
  }

  lemma {:induction false} TupleWarnings(forms: TextForms, xs: seq<Val>, ts: seq<Desc>, c: Constraints)
    ensures forall w :: w in ValidateTuple(forms, xs, ts, c).warnings ==> w.ExtraValues?
    decreases ts, 0
  {
    if |ts| > 0 && |xs| > 0 {
      WarningsAreExtra(forms, xs[0], ts[0], c);
      TupleWarnings(forms, xs[1..], ts[1..], c);
    }
  }

  lemma {:induction false} PairsWarnings(forms: TextForms, es: seq<Item>, kd: Desc, vd: Desc, c: Constraints)
    ensures forall w :: w in ValidatePairs(forms, es, kd, vd, c).warnings ==> w.ExtraValues?
    decreases DictOf(kd, vd), 0, |es|
  {
    if |es| > 0 {
      WarningsAreExtra(forms, es[0].key, kd, Unconstrained);
      WarningsAreExtra(forms, es[0].value, vd, c);
      PairsWarnings(forms, es[1..], kd, vd, c);
    }
  }

  lemma {:induction false} UnionWarnings(forms: TextForms, v: Val, ts: seq<Desc>, c: Constraints)
    ensures forall w :: w in FirstMatch(forms, v, ts, c).warnings ==> w.ExtraValues?
    decreases ts, 0
  {
    if |ts| > 0 {
      WarningsAreExtra(forms, v, ts[0], c);
      UnionWarnings(forms, v, ts[1..], c);
    }
  }

  lemma {:induction false} EntryWarnings(forms: TextForms, es: seq<Item>, e: Entry)
    ensures forall w :: w in NamedItem(forms, es, e).warnings ==> w.ExtraValues?
    decreases e, 0
  {
    if e.key in Keys(es) {
      WarningsAreExtra(forms, Lookup(es, e.key).value, e.desc, e.cons);
    }
  }

  lemma {:induction false} EntriesWarnings(forms: TextForms, es: seq<Item>, schema: seq<Entry>)
    ensures forall w :: w in ValidateEntries(forms, es, schema).warnings ==> w.ExtraValues?
    decreases schema, 0
  {
    if |schema| > 0 {
      EntryWarnings(forms, es, schema[0]);
      EntriesWarnings(forms, es, schema[1..]);
    }
  }
}
