/**
 * The Type Matcher: `Value.validate`, `NamedValue.validate` and
 * `DictValue.validate`, one recursive walk of a declared type against an
 * untyped value.
 */
module Matcher {
  import opened Values
  import opened Text
  import opened Schema
  import opened Diagnostics
  import opened Coercion
  import opened Checks

  /** The container a validated sequence of elements becomes. */
  datatype Shape = AsList | AsSet | AsTuple

  function Build(shape: Shape, ys: seq<Val>): (v: Val)
    ensures shape == AsList ==> v == VList(ys)
    ensures shape == AsTuple ==> v == VTuple(ys)
    ensures shape == AsSet ==> v == VSet(Dedup(ys))
  {
    match shape
    case AsList => VList(ys)
    case AsSet => VSet(Dedup(ys))
    case AsTuple => VTuple(ys)
  }

  /** Puts validated elements into their container and runs the container's own checks. */
  function Assemble(r: Report<seq<Val>>, shape: Shape, c: Constraints): (out: Report<Val>)
    ensures out.warnings == r.warnings
    ensures r.result.Err? ==> out.result == Err(r.result.error)
    ensures r.result.Ok? ==> out.result == Finish(Build(shape, r.result.value), c)
  {
    match r.result
    case Err(e) => Report(Err(e), r.warnings)
    case Ok(ys) => Report(Finish(Build(shape, ys), c), r.warnings)
  }

  /** Collects validated pairs into a dict (a later duplicate key wins) and runs the dict's own checks. */
  function AssembleDict(r: Report<seq<Item>>, c: Constraints): (out: Report<Val>)
    ensures out.warnings == r.warnings
    ensures r.result.Err? ==> out.result == Err(r.result.error)
    ensures r.result.Ok? ==> out.result == Finish(VDict(Collect(r.result.value)), c)
  {
    match r.result
    case Err(e) => Report(Err(e), r.warnings)
    case Ok(ps) => Report(Finish(VDict(Collect(ps)), c), r.warnings)
  }

  /** A successful head in front of the rest; the head's warnings come first. */
  function Prepend<T>(h: T, hw: seq<Warning>, rest: Report<seq<T>>): (r: Report<seq<T>>)
    ensures r.warnings == hw + rest.warnings
    ensures rest.result.Err? ==> r.result == Err(rest.result.error)
    ensures rest.result.Ok? ==> r.result == Ok([h] + rest.result.value)
  {
    match rest.result
    case Err(e) => Report(Err(e), hw + rest.warnings)
    case Ok(ts) => Report(Ok([h] + ts), hw + rest.warnings)
  }

  /**
   * The outermost shape a declared type promises of a validated value: the
   * exact plain type, the container, the tuple's arity, or the shape of one
   * of a union's alternatives. A bare generic admits nothing, and a
   * user-registered constructor may return anything.
   */
  predicate Fits(w: Val, d: Desc)
  {
    match d
    case Bare(_) => false
    case Prim(k) => OfKind(w, k)
    case Custom(_, _, _) => true
    case ListOf(_) => w.VList?
    case SetOf(_) => w.VSet?
    case TupleOf(ts) => w.VTuple? && |w.items| == |ts|
    case DictOf(_, _) => w.VDict?
    case UnionOf(ts) => exists i :: 0 <= i < |ts| && Fits(w, ts[i])
    case Nested(_) => w.VDict?
  }

  /** `Value(d, **c).validate(v)`. */
  function Validate(forms: TextForms, v: Val, d: Desc, c: Constraints): (r: Report<Val>)
    decreases d, 1, 0
    // a success has the shape its declared type promises
    ensures r.result.Ok? ==> Fits(r.result.value, d)
    // a scalar slot never warns: warnings only come from nested sections
    ensures d.Prim? || d.Custom? || d.Bare? ==> r.warnings == []
  {
    match d
    case Bare(g) => Fail(UnparameterizedGeneric(g))
    case Prim(k) =>
      (match Coerce(forms, v, k)
       case Err(e) => Fail(e)
       case Ok(w) => Report(CheckScalar(w, c), []))
    case Custom(name, make, expandArgs) =>
      (match Construct(v, name, make, expandArgs)
       case Err(e) => Fail(e)
       case Ok(w) => Report(CheckScalar(w, c), []))
    case ListOf(t) =>
      if !IsSequence(v) then Fail(WrongType(v))
      else Assemble(ValidateItems(forms, v.items, t, Inner(c)), AsList, c)
    case SetOf(t) =>
      if !IsSequence(v) then Fail(WrongType(v))
      else Assemble(ValidateItems(forms, v.items, t, Inner(c)), AsSet, c)
    case TupleOf(ts) =>
      if !IsSequence(v) then Fail(WrongType(v))
      else if |v.items| != |ts| then Fail(TupleArity(|ts|, |v.items|))
      else Assemble(ValidateTuple(forms, v.items, ts, Inner(c)), AsTuple, c)
    case DictOf(kd, vd) =>
      if !v.VDict? then Fail(OnlyDictionaries(v))
      else
        AssembleDict(ValidatePairs(forms, v.entries, kd, vd, Inner(c)), c)
    case UnionOf(ts) => FirstMatch(forms, v, ts, c)
    case Nested(schema) =>
      var r := ValidateDictValue(forms, v, schema);
      (match r.result
       case Err(e) => r
       case Ok(w) => Report(Finish(w, c), r.warnings))
  }

  /** The elements of a list or set, each against the element type; the first failure fails the whole. */
  function ValidateItems(forms: TextForms, xs: seq<Val>, t: Desc, c: Constraints): (r: Report<seq<Val>>)
    decreases t, 2, |xs|
    ensures r.result.Ok? ==> |r.result.value| == |xs|
  {
    if |xs| == 0 then Report(Ok([]), [])
    else
      var h := Validate(forms, xs[0], t, c);
      match h.result
      case Err(e) => Report(Err(e), h.warnings)
      case Ok(y) => Prepend(y, h.warnings, ValidateItems(forms, xs[1..], t, c))
  }

  /** The elements of a tuple, each against the type at its own position. */
  function ValidateTuple(forms: TextForms, xs: seq<Val>, ts: seq<Desc>, c: Constraints): (r: Report<seq<Val>>)
    decreases ts, 0, 0
    ensures r.result.Ok? && |xs| == |ts| ==> |r.result.value| == |ts|
  {
    if |ts| == 0 || |xs| == 0 then Report(Ok([]), [])
    else
      var h := Validate(forms, xs[0], ts[0], c);
      match h.result
      case Err(e) => Report(Err(e), h.warnings)
      case Ok(y) => Prepend(y, h.warnings, ValidateTuple(forms, xs[1..], ts[1..], c))
  }

  /**
   * The items of a `Dict[K, V]`: each key against `K` (with no constraints)
   * and each value against `V`; a failure names the offending key or value.
   */
  function ValidatePairs(forms: TextForms, es: seq<Item>, kd: Desc, vd: Desc, c: Constraints): (r: Report<seq<Item>>)
    decreases DictOf(kd, vd), 0, |es|
    ensures r.result.Ok? ==> |r.result.value| == |es|
  {
    if |es| == 0 then Report(Ok([]), [])
    else
      var k := Validate(forms, es[0].key, kd, Unconstrained);
      match k.result
      case Err(e) => Report(Err(BadDictItem(es[0].key, e)), k.warnings)
      case Ok(k') =>
        var x := Validate(forms, es[0].value, vd, c);
        match x.result
        case Err(e) => Report(Err(BadDictItem(es[0].value, e)), k.warnings + x.warnings)
        case Ok(x') => Prepend(Item(k', x'), k.warnings + x.warnings, ValidatePairs(forms, es[1..], kd, vd, c))
  }

  /** `Union[...]`: the alternatives in declared order, the first success wins. */
  function FirstMatch(forms: TextForms, v: Val, ts: seq<Desc>, c: Constraints): (r: Report<Val>)
    decreases ts, 0, 0
    ensures |ts| == 0 ==> r == Fail(NoAlternativeMatches(v))
    ensures r.result.Ok? ==> exists i :: 0 <= i < |ts| && Fits(r.result.value, ts[i])
    ensures r.result.Err? ==> r.result.error == NoAlternativeMatches(v)
  {
    if |ts| == 0 then Fail(NoAlternativeMatches(v))
    else
      var h := Validate(forms, v, ts[0], c);
      if h.result.Ok? then h
      else
        var rest := FirstMatch(forms, v, ts[1..], c);
        Report(rest.result, h.warnings + rest.warnings)
  }

  /** The item a `NamedValue` extracts from a dict: exact key lookup, then the value's type. */
  function NamedItem(forms: TextForms, es: seq<Item>, e: Entry): (r: Report<Item>)
    decreases e, 0, 0
    ensures e.key !in Keys(es) ==> r == Fail(SettingMissing(e.key))
    ensures r.result.Ok? ==> r.result.value.key == e.key
  {
    match Lookup(es, e.key)
    case None => Fail(SettingMissing(e.key))
    case Some(x) =>
      var h := Validate(forms, x, e.desc, e.cons);
      match h.result
      case Err(err) => Report(Err(InSetting(e.key, err)), h.warnings)
      case Ok(w) => Report(Ok(Item(e.key, w)), h.warnings)
  }

  /** `NamedValue(key, d).validate(v)`: a one-item dict, or an error. */
  function ValidateNamed(forms: TextForms, v: Val, e: Entry): (r: Report<Val>)
    decreases e, 1, 0
    ensures !v.VDict? ==> r == Fail(NotADictionary(v))
    ensures r.result.Ok? ==> r.result.value.VDict? && |r.result.value.entries| == 1 && r.result.value.entries[0].key == e.key
  {
    if !v.VDict? then Fail(NotADictionary(v))
    else
      var h := NamedItem(forms, v.entries, e);
      match h.result
      case Err(err) => Report(Err(err), h.warnings)
      case Ok(item) => Report(Ok(VDict([item])), h.warnings)
  }

  /**
   * `DictValue(schema).validate(v)`: unknown keys are warned about once and
   * dropped, two or more present exclusive keys fail, then every entry in
   * declared order is looked up: a missing mandatory key fails, a missing
   * optional or exclusive key is left out.
   */
  function ValidateDictValue(forms: TextForms, v: Val, schema: seq<Entry>): (r: Report<Val>)
    decreases schema, 1, 0
    ensures !v.VDict? ==> r == Fail(DictValueNeedsDict(v))
    ensures r.result.Ok? ==> v.VDict? && r.result.value.VDict? && |r.result.value.entries| <= |schema|
  {
    if !v.VDict? then Fail(DictValueNeedsDict(v))
    else
      var present := Keys(v.entries);
      var extra := present - SchemaKeys(schema);
      var warned := if extra != {} then [ExtraValues(extra)] else [];
      var together := KeysOfKind(schema, Exclusive) * present;
      if |together| > 1 then Report(Err(OnlyOneOf(together)), warned)
      else
        var r := ValidateEntries(forms, v.entries, schema);
        match r.result
        case Err(e) => Report(Err(e), warned + r.warnings)
        case Ok(items) => Report(Ok(VDict(items)), warned + r.warnings)
  }

  /** The entries of a schema in declared order against the items of one dict. */
  function ValidateEntries(forms: TextForms, es: seq<Item>, schema: seq<Entry>): (r: Report<seq<Item>>)
    decreases schema, 0, 0
    // at most one item per declared entry
    ensures r.result.Ok? ==> |r.result.value| <= |schema|
  {
    if |schema| == 0 then Report(Ok([]), [])
    else if schema[0].key !in Keys(es) && schema[0].presence != Mandatory then
      ValidateEntries(forms, es, schema[1..])
    else
      var h := NamedItem(forms, es, schema[0]);
      match h.result
      case Err(err) => Report(Err(err), h.warnings)
      case Ok(item) => Prepend(item, h.warnings, ValidateEntries(forms, es, schema[1..]))
  }
}
