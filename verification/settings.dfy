/**
 * The `Settings` object: the presence policy it runs before handing a
 * loaded settings file to its top-level `DictValue`, the attributes it binds
 * from the parsed result, and its dict-like item access. Also the check the
 * `Loader` makes on a freshly loaded file.
 */
module SettingsFacade {
  import opened Values
  import opened Text
  import opened Schema
  import opened Diagnostics
  import opened Matcher
  import opened Shorthand
  import opened DictProperties

  /**
   * A `Settings` instance: its top-level schema, the key sets computed from
   * it, and the attributes bound so far (only those holding setting values;
   * see README).
   */
  datatype Settings = Settings(
    schema: seq<Entry>,
    needed: set<Val>,
    optional: set<Val>,
    exclusive: set<Val>,
    attrs: map<string, Val>)

  /**
   * `Settings(values_dict)`: builds the top-level `DictValue` and partitions
   * its keys: the mandatory keys are needed, the optional and the exclusive
   * keys are both optional.
   */
  function New(arg: SchemaArg): (r: Result<Settings>)
    ensures r.Err? <==> !arg.DictArg?
    ensures r.Err? ==> r.error == FirstArgumentNotDict
    ensures r.Ok? ==>
      && r.value.schema == Entries(arg.fields)
      && r.value.needed == KeysOfKind(r.value.schema, Mandatory)
      && r.value.exclusive == KeysOfKind(r.value.schema, Exclusive)
      && r.value.optional == KeysOfKind(r.value.schema, Optional) + KeysOfKind(r.value.schema, Exclusive)
      && r.value.attrs == map[]
  {
    match MakeDictValue(arg)
    case Err(e) => Err(e)
    case Ok(schema) =>
      var exclusive := KeysOfKind(schema, Exclusive);
      Ok(Settings(schema, KeysOfKind(schema, Mandatory), KeysOfKind(schema, Optional) + exclusive, exclusive, map[]))
  }

  /** The key sets of a `Settings` as `New` computes them from its schema. */
  ghost predicate Partitioned(s: Settings)
  {
    && s.needed == KeysOfKind(s.schema, Mandatory)
    && s.optional == KeysOfKind(s.schema, Optional) + KeysOfKind(s.schema, Exclusive)
    && s.exclusive == KeysOfKind(s.schema, Exclusive)
  }

  /**
   * The partition is exact: needed and optional keys together are the
   * schema's keys, and when the schema's keys are distinct no key is both
   * needed and optional.
   */
  lemma PartitionCovers(s: Settings)
    requires Partitioned(s)
    ensures s.needed + s.optional == SchemaKeys(s.schema)
    ensures DistinctSchemaKeys(s.schema) ==> s.needed !! s.optional
  {
    forall k | k in SchemaKeys(s.schema)
      ensures k in s.needed + s.optional
    {
      var i :| 0 <= i < |s.schema| && s.schema[i].key == k;
      assert s.schema[i].presence == Mandatory || s.schema[i].presence == Optional || s.schema[i].presence == Exclusive;
    }
    if DistinctSchemaKeys(s.schema) {
      forall k | k in s.needed
        ensures k !in s.optional
      {
        var i :| 0 <= i < |s.schema| && s.schema[i].key == k && s.schema[i].presence == Mandatory;
        assert forall j :: 0 <= j < |s.schema| && s.schema[j].key == k ==> j == i;
      }
    }
  }

  /** The outcome of `validate_all_values`: the report and the instance afterwards. */
  datatype Outcome = Outcome(report: Report<Val>, after: Settings)

  /** The attribute names `str(k)` of the keys of some items. */
  function Names(forms: TextForms, items: seq<Item>): (ns: set<string>)
    ensures forall i :: 0 <= i < |items| ==> Str(forms, items[i].key) in ns
    ensures forall n :: n in ns ==> exists i :: 0 <= i < |items| && Str(forms, items[i].key) == n
  {
    if |items| == 0 then {}
    else
      var init := items[..|items| - 1];
      assert forall i :: 0 <= i < |init| ==> init[i] == items[i];
      Names(forms, init) + {Str(forms, items[|items| - 1].key)}
  }

  /** `setattr(self, str(key), value)` for each parsed item, in order. */
  function Bind(forms: TextForms, attrs: map<string, Val>, items: seq<Item>): (r: map<string, Val>)
    ensures r.Keys == attrs.Keys + Names(forms, items)
    ensures forall name :: name in attrs && name !in Names(forms, items) ==> r[name] == attrs[name]
    ensures |items| > 0 ==> r[Str(forms, items[|items| - 1].key)] == items[|items| - 1].value
  {
    if |items| == 0 then attrs
    else
      var last := items[|items| - 1];
      Bind(forms, attrs, items[..|items| - 1])[Str(forms, last.key) := last.value]
  }

  /** An item whose attribute name no later item shares is bound to its own value. */
  lemma {:induction false} BindLast(forms: TextForms, attrs: map<string, Val>, items: seq<Item>, i: nat)
    requires i < |items|
    requires forall j :: i < j < |items| ==> Str(forms, items[j].key) != Str(forms, items[i].key)
    ensures Str(forms, items[i].key) in Bind(forms, attrs, items)
    ensures Bind(forms, attrs, items)[Str(forms, items[i].key)] == items[i].value
  {
    if i < |items| - 1 {
      var init := items[..|items| - 1];
      var last := items[|items| - 1];
      assert init[i] == items[i];
      assert forall j :: i < j < |init| ==> init[j] == items[j];
      BindLast(forms, attrs, init, i);
      assert Str(forms, last.key) != Str(forms, items[i].key);
      assert Bind(forms, attrs, items) == Bind(forms, attrs, init)[Str(forms, last.key) := last.value];
    }
  }

  /**
   * `validate_all_values(file_dict)`. Missing needed keys fail at once,
   * before any parsing and with no warning. Otherwise keys outside the needed
   * and optional sets are warned about, the top-level `DictValue` runs, and
   * on success each parsed item is bound as an attribute.
   */
  function ValidateAllValues(forms: TextForms, s: Settings, file: seq<Item>): (out: Outcome)
    ensures !(s.needed <= Keys(file)) ==>
              out == Outcome(Fail(SectionsMissing(s.needed - Keys(file))), s)
    ensures s.needed <= Keys(file) ==>
      var parsed := ValidateDictValue(forms, VDict(file), s.schema);
      var unknown := Keys(file) - s.needed - s.optional;
      && out.report.result == parsed.result
      && out.report.warnings == (if unknown == {} then [] else [NotRecognized(unknown)]) + parsed.warnings
    ensures out.report.result.Err? ==> out.after == s
    ensures out.report.result.Ok? ==>
      && out.report.result.value.VDict?
      && out.after == s.(attrs := Bind(forms, s.attrs, out.report.result.value.entries))
  {
    var present := Keys(file);
    if !(s.needed <= present) then Outcome(Fail(SectionsMissing(s.needed - present)), s)
    else
      var extra := present - s.needed;
      var warned := if extra != {} && !(extra <= s.optional) then [NotRecognized(extra - s.optional)] else [];
      assert (extra != {} && !(extra <= s.optional)) <==> extra - s.optional != {} by {
        if !(extra <= s.optional) {
          var x :| x in extra && x !in s.optional;
          assert x in extra - s.optional;
        }
      }
      var parsed := ValidateDictValue(forms, VDict(file), s.schema);
      match parsed.result
      case Err(e) => Outcome(Report(Err(e), warned + parsed.warnings), s)
      case Ok(w) =>
        assert w.VDict?;
        Outcome(Report(Ok(w), warned + parsed.warnings), s.(attrs := Bind(forms, s.attrs, w.entries)))
  }

  /** `settings[key]`: a missing attribute becomes a `KeyError`. */
  function GetItem(s: Settings, key: string): (r: Result<Val>)
    ensures r.Ok? <==> key in s.attrs
    ensures r.Ok? ==> r.value == s.attrs[key]
    ensures r.Err? ==> r.error == KeyError(key)
  {
    if key in s.attrs then Ok(s.attrs[key]) else Err(KeyError(key))
  }

  /** `key in settings`: exactly when `settings[key]` raises no `KeyError`. */
  function Contains(s: Settings, key: string): (b: bool)
    ensures b <==> GetItem(s, key).Ok?
  {
    match GetItem(s, key)
    case Ok(_) => true
    case Err(e) => !e.KeyError?
  }

  /** `settings.get(key, default)`. */
  function Get(s: Settings, key: string, default: Val): (r: Val)
    ensures !Contains(s, key) ==> r == default
    ensures Contains(s, key) ==> r == GetItem(s, key).value
  {
    if Contains(s, key) then s.attrs[key] else default
  }

  /** `settings[key] = value`. */
  function SetItem(s: Settings, key: string, value: Val): (r: Settings)
    ensures r.schema == s.schema && r.needed == s.needed && r.optional == s.optional && r.exclusive == s.exclusive
    ensures r.attrs.Keys == s.attrs.Keys + {key}
  {
    s.(attrs := s.attrs[key := value])
  }

  /** `del settings[key]` as written: `delattr` raises `AttributeError` for a missing key. */
  function DelItemAsWritten(s: Settings, key: string): (r: Result<Settings>)
    ensures r.Ok? <==> key in s.attrs
    ensures r.Err? ==> r.error == AttributeError(key)
    ensures r.Ok? ==> r.value.attrs.Keys == s.attrs.Keys - {key}
  {
    if key in s.attrs then Ok(s.(attrs := s.attrs - {key})) else Err(AttributeError(key))
  }

  /** `del settings[key]` with the missing-key error translated as `settings[key]` translates it. */
  function DelItem(s: Settings, key: string): (r: Result<Settings>)
    ensures r.Ok? <==> Contains(s, key)
    ensures r.Err? ==> r == Err(GetItem(s, key).error)
    ensures r.Ok? ==> r.value.attrs.Keys == s.attrs.Keys - {key}
  {
    match DelItemAsWritten(s, key)
    case Ok(t) => Ok(t)
    case Err(_) => Err(KeyError(key))
  }

  /**
   * After a successful `validate_all_values`, every parsed key `k` whose
   * name `str(k)` no later parsed key shares is retrievable as
   * `settings[str(k)]`, is `in` the settings, and the parsed dict is what
   * is returned.
   */
  lemma ParsedKeysRetrievable(forms: TextForms, s: Settings, file: seq<Item>, i: nat)
    requires ValidateAllValues(forms, s, file).report.result.Ok?
    requires var items := ValidateAllValues(forms, s, file).report.result.value.entries;
      i < |items| && forall j :: i < j < |items| ==> Str(forms, items[j].key) != Str(forms, items[i].key)
    ensures var out := ValidateAllValues(forms, s, file);
      var item := out.report.result.value.entries[i];
      && Contains(out.after, Str(forms, item.key))
      && GetItem(out.after, Str(forms, item.key)) == Ok(item.value)
  {
    var out := ValidateAllValues(forms, s, file);
    BindLast(forms, s.attrs, out.report.result.value.entries, i);
  }

  /**
   * The facade warns about unknown keys exactly when some present key is
   * neither needed nor optional; the warning lists exactly those keys and is
   * given once, the `DictValue` adding only its own kind of warning.
   */
  lemma WarnsIffUnrecognized(forms: TextForms, s: Settings, file: seq<Item>)
    requires s.needed <= Keys(file)
    ensures var ws := ValidateAllValues(forms, s, file).report.warnings;
      (exists w :: w in ws && w.NotRecognized?) <==> !(Keys(file) <= s.needed + s.optional)
    ensures var ws := ValidateAllValues(forms, s, file).report.warnings;
      forall w :: w in ws && w.NotRecognized? ==> w == NotRecognized(Keys(file) - (s.needed + s.optional))
    ensures var ws := ValidateAllValues(forms, s, file).report.warnings;
      forall i, j :: 0 <= i < j < |ws| ==> !(ws[i].NotRecognized? && ws[j].NotRecognized?)
  {
    var parsed := ValidateDictValue(forms, VDict(file), s.schema);
    DictValueWarnings(forms, VDict(file), s.schema);
    var unknown := Keys(file) - s.needed - s.optional;
    assert unknown == Keys(file) - (s.needed + s.optional);
    assert unknown == {} <==> Keys(file) <= s.needed + s.optional by {
      if !(Keys(file) <= s.needed + s.optional) {
        var x :| x in Keys(file) && x !in s.needed + s.optional;
        assert x in unknown;
      }
    }
    var ws := ValidateAllValues(forms, s, file).report.warnings;
    var head := if unknown == {} then [] else [NotRecognized(unknown)];
    assert ws == head + parsed.warnings;
    assert forall i :: |head| <= i < |ws| ==> ws[i] == parsed.warnings[i - |head|] && ws[i] in parsed.warnings;
    if unknown != {} {
      assert ws[0] == NotRecognized(unknown);
    }
  }

  /** `get` returns the default exactly for a key that is not contained, and the stored value otherwise. */
  lemma GetDefaultIffMissing(s: Settings, key: string, default: Val)
    ensures Contains(s, key) ==> Get(s, key, default) == s.attrs[key]
    ensures !Contains(s, key) ==> Get(s, key, default) == default
    ensures (exists other :: Get(s, key, other) != Get(s, key, default)) <==> !Contains(s, key)
  {
    if !Contains(s, key) {
      var other := if default == VNone then VBool(true) else VNone;
      assert Get(s, key, other) != Get(s, key, default);
    }
  }

  /** Setting then getting the same key gives the value set; every other key is untouched. */
  lemma SetThenGet(s: Settings, key: string, value: Val, other: string)
    ensures GetItem(SetItem(s, key, value), key) == Ok(value)
    ensures Contains(SetItem(s, key, value), key)
    ensures other != key ==> GetItem(SetItem(s, key, value), other) == GetItem(s, other)
  {
  }

  /**
   * Deleting a contained key removes it and nothing else; deleting a missing
   * key fails with `KeyError`, as reading it does.
   */
  lemma DelThenContains(s: Settings, key: string, other: string)
    ensures Contains(s, key) ==> DelItem(s, key).Ok? && !Contains(DelItem(s, key).value, key)
    ensures Contains(s, key) && other != key ==>
              GetItem(DelItem(s, key).value, other) == GetItem(s, other)
    ensures !Contains(s, key) ==> DelItem(s, key) == Err(KeyError(key)) && GetItem(s, key) == Err(KeyError(key))
  {
  }

  /** As written, deleting a missing key raises `AttributeError`, unlike reading it, which raises `KeyError`. */
  lemma DelMissingAsWritten(s: Settings, key: string)
    requires key !in s.attrs
    ensures DelItemAsWritten(s, key) == Err(AttributeError(key))
    ensures GetItem(s, key) == Err(KeyError(key))
    ensures DelItemAsWritten(s, key) != Err(GetItem(s, key).error)
  {
  }

  /** `Loader.load_settings_file` after the YAML parse: only a dict is a settings file. */
  function LoadCheck(loaded: Val): (r: Result<seq<Item>>)
    ensures r.Ok? <==> loaded.VDict?
    ensures r.Ok? ==> r.value == loaded.entries
    ensures r.Err? ==> r.error == EmptyOrInvalid
  {
    match loaded
    case VDict(es) => Ok(es)
    case _ => Err(EmptyOrInvalid)
  }
}
