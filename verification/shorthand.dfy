/**
 * The schema shorthand accepted by `DictValue` and `NamedValue`: a slot may
 * be declared by a bare type, by an explicit `Value(...)`, or by a plain
 * nested dict, which is promoted to a nested `DictValue`.
 */
module Shorthand {
  import opened Values
  import opened Text
  import opened Schema
  import opened Diagnostics
  import opened Checks
  import opened Matcher

  /** How one slot of a schema dict is written. */
  datatype Spec =
      /** A bare type such as `int` or `List[int]`: mandatory, no constraints. */
    | TypeSpec(desc: Desc)
      /** `Value(t, kind=..., val_min=..., ...)`. */
    | ValueSpec(desc: Desc, presence: Presence, cons: Constraints)
      /** A plain dict, or `DictValue({...})`: a nested section. */
    | DictSpec(fields: seq<Field>)

  /** One `key: spec` pair of a schema dict. */
  datatype Field = Field(key: Val, spec: Spec)

  /** The first argument given to `DictValue`: a dict of fields, or anything else. */
  datatype SchemaArg = DictArg(fields: seq<Field>) | OtherArg(value: Val)

  /** The `NamedValue` a field stands for. */
  function EntryOf(f: Field): (e: Entry)
    decreases f, 0
    ensures e.key == f.key
    ensures !f.spec.ValueSpec? ==> e.presence == Mandatory && e.cons == Unconstrained
    ensures f.spec.ValueSpec? ==> e == Entry(f.key, f.spec.desc, f.spec.presence, f.spec.cons)
  {
    match f.spec
    case TypeSpec(d) => Entry(f.key, d, Mandatory, Unconstrained)
    case ValueSpec(d, p, c) => Entry(f.key, d, p, c)
    case DictSpec(fs) => Entry(f.key, Nested(Entries(fs)), Mandatory, Unconstrained)
  }

  /** The schema of a dict of fields, in the dict's order. */
  function Entries(fs: seq<Field>): (schema: seq<Entry>)
    decreases fs, 1
    ensures |schema| == |fs|
    ensures forall i :: 0 <= i < |fs| ==> schema[i] == EntryOf(fs[i]) && schema[i].key == fs[i].key
  {
    if |fs| == 0 then []
    else
      var rest := Entries(fs[1..]);
      assert forall i :: 0 < i < |fs| ==> fs[i] == fs[1..][i - 1];
      [EntryOf(fs[0])] + rest
  }

  /** `DictValue(arg)`: only a dict describes a schema. */
  function MakeDictValue(arg: SchemaArg): (r: Result<seq<Entry>>)
    ensures r.Ok? <==> arg.DictArg?
    ensures r.Err? ==> r.error == FirstArgumentNotDict
    ensures r.Ok? ==> (|r.value| == |arg.fields| &&
              forall i :: 0 <= i < |arg.fields| ==> r.value[i] == EntryOf(arg.fields[i]))
  {
    match arg
    case DictArg(fs) => Ok(Entries(fs))
    case OtherArg(_) => Err(FirstArgumentNotDict)
  }

  /** The same slot written out explicitly as `Value(...)`. */
  function Explicit(s: Spec): (r: Spec)
    ensures r.ValueSpec?
  {
    match s
    case TypeSpec(d) => ValueSpec(d, Mandatory, Unconstrained)
    case ValueSpec(_, _, _) => s
    case DictSpec(fs) => ValueSpec(Nested(Entries(fs)), Mandatory, Unconstrained)
  }

  /** Every slot of a schema dict written out explicitly. */
  function ExplicitFields(fs: seq<Field>): (r: seq<Field>)
    ensures |r| == |fs|
    ensures forall i :: 0 <= i < |fs| ==> r[i] == Field(fs[i].key, Explicit(fs[i].spec))
  {
    seq(|fs|, i requires 0 <= i < |fs| => Field(fs[i].key, Explicit(fs[i].spec)))
  }

  // The lemmas below hold by construction: `EntryOf` maps every spelling of a
  // slot to one `Entry`. They record that the encoding identifies the
  // spellings, rather than a property of the matcher.

  /**
   * A bare type, a `Value(...)` and a plain nested dict are spellings of the
   * same schema: writing every slot out explicitly changes nothing.
   */
  lemma {:induction false} ShorthandIsExplicit(fs: seq<Field>)
    ensures Entries(ExplicitFields(fs)) == Entries(fs)
  {
    if |fs| > 0 {
      ShorthandIsExplicit(fs[1..]);
      assert ExplicitFields(fs)[1..] == ExplicitFields(fs[1..]);
    }
  }

  /** Hence a `DictValue` written with shorthand validates every input exactly as the explicit one. */
  lemma ShorthandValidatesAlike(forms: TextForms, v: Val, fs: seq<Field>)
    ensures ValidateDictValue(forms, v, Entries(ExplicitFields(fs))) == ValidateDictValue(forms, v, Entries(fs))
  {
    ShorthandIsExplicit(fs);
  }

  /** A nested section declared with no constraints validates as its schema's `DictValue`. */
  lemma NestedUnconstrained(forms: TextForms, v: Val, schema: seq<Entry>)
    ensures Validate(forms, v, Nested(schema), Unconstrained) == ValidateDictValue(forms, v, schema)
  {
    var r := ValidateDictValue(forms, v, schema);
    if r.result.Ok? {
      assert Finish(r.result.value, Unconstrained) == Ok(r.result.value);
    }
  }

  /**
   * A nested section behaves exactly like the explicit `DictValue` of its
   * fields: same result, same warnings, for every input.
   */
  lemma NestedIsDictValue(forms: TextForms, v: Val, fs: seq<Field>)
    ensures Validate(forms, v, EntryOf(Field(VNone, DictSpec(fs))).desc, Unconstrained)
              == ValidateDictValue(forms, v, Entries(fs))
  {
    assert EntryOf(Field(VNone, DictSpec(fs))).desc == Nested(Entries(fs));
    NestedUnconstrained(forms, v, Entries(fs));
  }

  /** The `NamedValue` built from a bare type equals the one built from `Value(type)`, and so validates alike. */
  lemma NamedSpellingsAgree(forms: TextForms, v: Val, key: Val, d: Desc)
    ensures ValidateNamed(forms, v, EntryOf(Field(key, TypeSpec(d))))
              == ValidateNamed(forms, v, EntryOf(Field(key, ValueSpec(d, Mandatory, Unconstrained))))
  {
  }
}
