# settings_parser validation engine in Dafny

This project models the schema-driven validation engine of `settings_parser`,
a Python library that checks a loaded YAML settings file against a declared
schema. It has two layers.

- **The type matcher.** `Value(type, kind=..., val_min=..., val_max=...,
  len_min=..., len_max=..., fun=...)`, `NamedValue(key, type)` and
  `DictValue({key: spec, ...})` form one recursive walk of a declared type
  over an untyped value tree (module `Matcher`). The walk is built from:
  - the type coercer (`Coercion`);
  - the constraint checker (`Checks`);
  - the schema shorthand, where a bare type, a `Value(...)` and a plain
    nested dict all declare a slot (`Shorthand`).
- **The `Settings` object** (`SettingsFacade`). Its constructor partitions
  the schema keys into needed and optional ones. Its presence policy runs
  before the top-level `DictValue`. It binds every parsed key as an
  attribute and offers dict-like item access. The module also holds the
  check `Loader.load_settings_file` makes on a freshly loaded file.

The matcher's behaviour is specified from the test suite under
`settings_parser/test/test_value/`, which pins it case by case. Where that
suite is silent, the README says which reading was chosen.

The modules are:

- **Values:** the value tree, Python dicts as ordered items with distinct
  keys, and sets as duplicate-free sequences.
- **Text:** `str()` and `int()` on text.
- **Schema:** declared types, presence kinds and constraints.
- **Diagnostics:** errors and warnings.
- **Coercion, Checks, Matcher:** the validation walk itself.
- **MatcherProperties, DictProperties, Shorthand, Idempotence:** properties
  of the walk.
- **SettingsFacade:** the `Settings` object.
- **Scenarios:** the concrete cases the test suite spells out.

Validation returns a `Report`: a result (`Ok` or `Err`) together with the
list of warnings emitted, in order. An exception is an `Err`, and a
`ConfigWarning` is an entry of the warning list.

## Model

| member | source | states |
|---|---|---|
| Values.Lookup | settings_parser/test/test_value/test_namedvalue.py:27-32 | a key is found exactly when it is one of the dict's keys (exact key equality); the value found belongs to an item with that very key, and with distinct keys it is that key's only value |
| Values.Collect | settings_parser/test/test_value/test_value.py:344-366 | building a dict from validated pairs gives distinct keys and exactly the keys of the pairs |
| Values.CollectFrom | settings_parser/test/test_value/test_value.py:344-366 | every item of a collected dict is one of the pairs it was built from |
| Values.CollectLast | settings_parser/test/test_value/test_value.py:344-366 | a later pair wins: a key reads as the value of the last pair that holds it |
| Values.CollectDistinct | settings_parser/test/test_value/test_value.py:344-348 | collecting pairs whose keys are already distinct changes nothing |
| Values.PutLookup | settings_parser/test/test_value/test_value.py:344-366 | after `d[k] = v`, `d[k]` is `v` and every other key reads as before |
| Values.Dedup | settings_parser/test/test_value/test_value.py:282-284 | a set holds no element twice, holds exactly the elements of its source, and is no longer than it |
| Values.DedupNoDuplicates | settings_parser/test/test_value/test_value.py:282-284 | making a set of a duplicate-free sequence changes nothing |
| Values.Trunc | settings_parser/test/test_value/test_value.py:79-94 | the integer `int()` makes of a float or Fraction lies between zero and the number, less than one away from it. |
| Text.ParseInt | settings_parser/test/test_value/test_value.py:35-40 | `int(s)` accepts only non-empty text, and any text holding a decimal point (such as `'50.0'`) is rejected |
| Text.ParseShowInt | settings_parser/test/test_value/test_value.py:61-76 | parsing the decimal text of any int gives the int back |
| Text.ShowInt | settings_parser/test/test_value/test_value.py:70-76 | the text of an int is a run of digits with no leading zero (except `0` itself), with a `-` in front exactly when the int is negative |
| Text.LiteralUnique | settings_parser/test/test_value/test_value.py:70-76 | a literal of that canonical form that reads back as `n` is exactly the text of `n`, so `str(25)` can only be `'25'` |
| Text.Str | settings_parser/test/test_value/test_value.py:70-76 | `str()` is the identity on strings, gives `True`/`False` for booleans, and gives an int its canonical literal (no `+`, no leading zero), which parses back to the int |
| Coercion.Coerce | settings_parser/test/test_value/test_value.py:25-94 | the conversion rules, for every target type. A value of the exact type is kept. A success has exactly the requested type, and a failure is "does not have the right type". `str` never fails. `int` reads integer literals exactly, truncates floats and Fractions, reads a bool as 0 or 1, and refuses everything else. `float`, `Fraction` and `complex` keep the value of any number except that complex numbers never become real ones; from text they take the runtime's reading. `bool` is truthiness. `list`, `tuple` and `set` take exactly the elements of a list, tuple or set, with `set` dropping duplicates. `bytes` only comes from bytes and `dict` only from a dict. |
| Coercion.Construct | settings_parser/test/test_value/test_value.py:171-226 | a value already of the registered type is kept; with argument expansion, anything but a list, tuple or dict fails with "Expected a list or a dictionary"; without expansion, the result succeeds exactly when the constructor accepts the value |
| Coercion.StrIntRoundTrip | settings_parser/test/test_value/test_value.py:61-76 | converting an int to `str` and back to `int` gives the same int |
| Checks.CheckValue | settings_parser/test/test_value/test_value.py:97-118 | `val_min`/`val_max` are inclusive: an orderable value passes exactly when it lies within both bounds; a value that cannot be ordered against a number fails with "cannot be compared to"; a too-large or too-small error names the violated bound |
| Checks.CheckLength | settings_parser/test/test_value/test_value.py:121-133 | `len_min`/`len_max` at the outermost depth are inclusive: a sized value passes exactly when its length lies within both bounds; a bounded unsized value fails; a too-long or too-short error carries the length and the violated bound |
| Checks.CheckFunction | settings_parser/test/test_value/test_value.py:198-208 | the user function accepts exactly the values it returns true for, and a rejection is "is not valid according to the user function" |
| Checks.CheckScalar | settings_parser/test/test_value/test_value.py:97-133 | a scalar passes exactly when it passes the value bounds, the length bounds and the user function, and a value-bound failure is reported first |
| Checks.Finish | settings_parser/test/test_value/test_value.py:242-259 | a container passes exactly when it passes its length bounds and the user function, and a length failure is reported first |
| Schema.Inner | settings_parser/test/test_value/test_value.py:314-339 | the elements of a container see the value bounds unchanged, no user function, and every length bound one depth further down |
| Schema.KeysOfKind | settings_parser/settings.py:32-37 | the keys of one presence kind are exactly the keys of the schema entries of that kind |
| Matcher.Validate | settings_parser/test/test_value/test_value.py:28-416 | `Value(T).validate(v)`: a success has the outermost shape `T` promises (the exact plain type, a list, a set, a tuple of the declared arity, a dict, or the shape of one union alternative), a bare generic never succeeds, and a plain or user-registered type never warns; the rule for each type is stated by `ListTyping`, `SetTyping`, `TupleTyping`, `DictTyping`, `UnionTyping` and `DictValueTyping` |
| Matcher.ValidateItems | settings_parser/test/test_value/test_value.py:229-239 | the elements of a list or set validate to a sequence as long as the input; `ItemsOk`, `ItemsErr` and `ItemsAllOk` give the element-wise rule |
| Matcher.ValidateTuple | settings_parser/test/test_value/test_value.py:271-280 | a tuple of the declared arity validates to one of that arity; `TuplePointwise` gives the position-wise rule |
| Matcher.ValidatePairs | settings_parser/test/test_value/test_value.py:344-366 | the items of a `Dict[K, V]` validate to as many pairs as the input has; `PairsOk`, `PairsErr` and `PairsAllOk` give the pair-wise rule |
| Matcher.FirstMatch | settings_parser/test/test_value/test_value.py:136-168 | a union with no alternatives, and any failing union, fails with "does not have any of the right types", and a success has the shape of one of the alternatives; `UnionFirstMatch` gives the declared-order rule |
| Matcher.ValidateNamed | settings_parser/test/test_value/test_namedvalue.py:18-43 | `NamedValue(key, T).validate(v)`: a non-dict fails, and a success is a one-item dict under the declared key; `NamedTyping` states the full behaviour |
| Matcher.ValidateDictValue | settings_parser/test/test_value/test_dictvalue.py:13-149 | `DictValue(schema).validate(v)`: a non-dict fails, and a success is a dict with at most one item per declared entry; `DictValueTyping`, `EntriesOk` and `ExtraKeysWarnOnce` state the full behaviour |
| Matcher.ValidateEntries | settings_parser/test/test_value/test_dictvalue.py:82-107 | the entries of a schema give at most one item each; `EntriesKeys` and `EntriesValues` state which keys and values |
| Matcher.NamedItem | settings_parser/test/test_value/test_namedvalue.py:27-32 | a key absent from the dict fails with "Setting ... not in dictionary", and an extracted item carries exactly the declared key |
| MatcherProperties.ItemsOk | settings_parser/test/test_value/test_value.py:229-239 | on success every element's result is that element validated against the element type, in place |
| MatcherProperties.ItemsErr | settings_parser/test/test_value/test_value.py:229-239 | a failing list reports the error of some element, all elements before which succeed |
| MatcherProperties.ItemsAllOk | settings_parser/test/test_value/test_value.py:229-239 | a list whose every element validates succeeds |
| MatcherProperties.ListTyping | settings_parser/test/test_value/test_value.py:229-269 | `List[T]` succeeds only on a list, tuple or set; the result is a list of the same length, each element the input validated one depth down, and it passes the length bounds and the user function; with no outer bounds and no function, elements that all validate make the list succeed |
| MatcherProperties.StringsAreNotSequences | settings_parser/test/test_value/test_value.py:229-239 | a string or bytes value is never taken apart by `List`, `Set` or `Tuple`: each fails with "does not have the right type" |
| MatcherProperties.TuplePointwise | settings_parser/test/test_value/test_value.py:271-280 | tuple elements validate exactly when each validates against the type at its own position, and each result is that validation's result |
| MatcherProperties.TupleTyping | settings_parser/test/test_value/test_value.py:271-280 | `Tuple[T1..Tn]` on a sequence of any other length fails with the arity error naming both counts; on success the result is a tuple of n values, the i-th validated against `Ti` |
| MatcherProperties.SetTyping | settings_parser/test/test_value/test_value.py:282-284 | `Set[T]` gives a duplicate-free set no longer than its input, holding exactly the values its input elements validate to |
| MatcherProperties.UnionFirstMatch | settings_parser/test/test_value/test_value.py:136-168 | alternatives are tried in declared order: success exactly when some alternative succeeds, with the result of the first successful one (every earlier one failing); otherwise "does not have any of the right types" |
| MatcherProperties.UnionTyping | settings_parser/test/test_value/test_value.py:136-168 | the same first-match rule stated for the declared type `Union[...]`, including alternatives that fail only on a length limit |
| MatcherProperties.ExactTypeKept | settings_parser/test/test_value/test_value.py:25-32 | a value validated against its own exact plain type comes back unchanged with no warning, so a bool stays a bool and a tuple a tuple |
| DictProperties.PairsOk | settings_parser/test/test_value/test_value.py:344-366 | on success each key is the input key validated against the key type and each value the input value validated against the value type, independently |
| DictProperties.PairsAllOk | settings_parser/test/test_value/test_value.py:344-366 | pairs whose keys and values all validate succeed |
| DictProperties.PairsErr | settings_parser/test/test_value/test_value.py:378-397 | a failing pair reports the offending key or value of some input pair together with its own validation error |
| DictProperties.CollectedPairs | settings_parser/test/test_value/test_value.py:357-361 | every key of the output dict comes from an input pair whose key validates to it and whose value validates to the value stored under it |
| DictProperties.DictNeedsDict | settings_parser/test/test_value/test_value.py:399-404 | `Dict[K, V]` on anything but a dict fails with "This type can only validate dictionaries" |
| DictProperties.DictTyping | settings_parser/test/test_value/test_value.py:344-376 | a successful `Dict[K, V]` gives a dict with distinct keys, each key and its value coming from one input pair validated against `K` and `V` |
| DictProperties.DictLaterWins | settings_parser/test/test_value/test_value.py:344-376 | when input keys collide after validation, the last of them gives the output value at that key |
| DictProperties.DictItemError | settings_parser/test/test_value/test_value.py:378-397 | a failing item error names a key or a value that occurs in the input |
| DictProperties.DictAllOk | settings_parser/test/test_value/test_value.py:344-366 | with no outer length bound and no function, a dict whose keys and values all validate succeeds |
| DictProperties.NamedTyping | settings_parser/test/test_value/test_namedvalue.py:15-44 | `NamedValue` fails with "is not a dictionary" on a non-dict; fails with "not in dictionary" when its key is absent; otherwise returns the one-item dict of the value validated against the type, or wraps that value's error with the key |
| DictProperties.PresentKeys | settings_parser/test/test_value/test_dictvalue.py:82-88 | the keys a `DictValue` outputs are exactly the schema keys present in the input |
| DictProperties.EntriesOk | settings_parser/test/test_value/test_dictvalue.py:53-88 | the schema entries validate exactly when every mandatory key is present and every present key's value validates |
| DictProperties.EntriesKeys | settings_parser/test/test_value/test_dictvalue.py:82-88 | the output items are the present schema keys in declared order: an absent optional key is silently left out |
| DictProperties.EntriesValues | settings_parser/test/test_value/test_dictvalue.py:69-75 | every output value is its key's input value validated against that key's declared type and constraints |
| DictProperties.DictValueTyping | settings_parser/test/test_value/test_dictvalue.py:36-106 | `DictValue` fails on a non-dict with "DictValues can only validate dictionaries"; two or more present exclusive keys fail with "Only one of the values ... can be present"; success happens exactly when the input is a dict, at most one exclusive key is present and every entry is satisfied, and it outputs the present schema keys |
| DictProperties.MissingMandatoryFails | settings_parser/test/test_value/test_dictvalue.py:53-67 | a missing or misspelled mandatory key always fails |
| DictProperties.NoWarnings | settings_parser/test/test_value/test_value.py:229-415 | a declared type with no nested section never warns |
| DictProperties.ExtraKeysWarnOnce | settings_parser/test/test_value/test_dictvalue.py:43-51 | a flat `DictValue` warns exactly once, listing exactly the keys outside the schema, when there are any, and otherwise not at all |
| DictProperties.ExtraKeysDropped | settings_parser/test/test_value/test_dictvalue.py:43-51 | the output of `DictValue` holds exactly the schema keys present in the input, so extra keys are dropped |
| DictProperties.DictValueWarnings | settings_parser/test/test_value/test_dictvalue.py:43-51 | every warning a `DictValue` emits, at any depth, is an extra-keys warning |
| DictProperties.WarningsAreExtra | settings_parser/test/test_value/test_dictvalue.py:109-147 | every warning from any declared type, nested sections included, is an extra-keys warning |
| Shorthand.EntryOf | settings_parser/test/test_value/test_dictvalue.py:13-27 | a bare type or a nested dict declares a mandatory, unconstrained slot; a `Value(...)` keeps its own kind and constraints; the key is kept |
| Shorthand.Entries | settings_parser/test/test_value/test_dictvalue.py:13-27 | a schema dict yields one entry per field, in order, with the field's key |
| Shorthand.MakeDictValue | settings_parser/test/test_value/test_dictvalue.py:29-34 | `DictValue(arg)` succeeds exactly when `arg` is a dict, and otherwise fails with "The first argument must be a dictionary" |
| Shorthand.ShorthandIsExplicit | settings_parser/test/test_value/test_dictvalue.py:13-27 | writing every slot out as an explicit `Value(...)` yields the same schema |
| Shorthand.ShorthandValidatesAlike | settings_parser/test/test_value/test_dictvalue.py:13-27 | a shorthand schema and its explicit form validate every input alike, results and warnings |
| Shorthand.NestedIsDictValue | settings_parser/test/test_value/test_dictvalue.py:109-124 | a plain nested dict in a schema behaves exactly like the explicit `DictValue` of its fields |
| Shorthand.NamedSpellingsAgree | settings_parser/test/test_value/test_namedvalue.py:21-25 | `NamedValue(k, t)` and `NamedValue(k, Value(t))` validate every input alike |
| SettingsFacade.New | settings_parser/settings.py:27-38 | a non-dict schema fails as `DictValue` does; otherwise needed keys are exactly the mandatory keys, optional keys exactly the optional plus exclusive keys, and no attribute is bound yet |
| SettingsFacade.PartitionCovers | settings_parser/settings.py:32-38 | needed and optional keys together are all schema keys, and with distinct schema keys no key is both |
| SettingsFacade.Bind | settings_parser/settings.py:120-122 | binding parsed items adds exactly their `str(key)` names, leaves other attributes alone, and the last item's name holds its value |
| SettingsFacade.BindLast | settings_parser/settings.py:120-122 | an item whose name no later item shares ends up bound to its own value |
| SettingsFacade.ValidateAllValues | settings_parser/settings.py:100-125 | missing needed keys fail at once with exactly the missing keys, binding nothing; otherwise an unrecognized-keys warning naming exactly the present keys that are neither needed nor optional comes first, does not abort, and the `DictValue` result is returned; only a success binds attributes, from the parsed dict |
| SettingsFacade.WarnsIffUnrecognized | settings_parser/settings.py:113-118 | the unrecognized-keys warning appears exactly when some present key is neither needed nor optional, lists exactly those keys, and appears at most once |
| SettingsFacade.ParsedKeysRetrievable | settings_parser/settings.py:100-125 | after a successful validation every parsed key is `in` the settings and `settings[str(key)]` returns its parsed value, unless a later parsed key has the same name |
| SettingsFacade.GetItem | settings_parser/settings.py:40-45 | `settings[key]` succeeds exactly on bound attributes, returns the bound value, and otherwise raises `KeyError` |
| SettingsFacade.Contains | settings_parser/settings.py:62-69 | `key in settings` holds exactly when `settings[key]` succeeds |
| SettingsFacade.Get | settings_parser/settings.py:47-52 | `get` returns the default for a key that is not contained and the stored value otherwise |
| SettingsFacade.GetDefaultIffMissing | settings_parser/settings.py:47-52 | the default matters exactly when the key is not contained |
| SettingsFacade.SetItem | settings_parser/settings.py:54-56 | setting a key adds exactly that key to the attributes and leaves the key sets alone |
| SettingsFacade.SetThenGet | settings_parser/settings.py:40-56 | after `settings[k] = v`, `settings[k]` is `v`, `k` is contained, and every other key reads as before |
| SettingsFacade.DelItemAsWritten | settings_parser/settings.py:58-60 | as written, deleting removes exactly the key when bound and otherwise raises `AttributeError` |
| SettingsFacade.DelMissingAsWritten | settings_parser/settings.py:58-60 | as written, deleting a missing key raises `AttributeError` while reading it raises `KeyError` |
| SettingsFacade.DelItem | settings_parser/settings.py:58-60 | deleting succeeds exactly on a contained key and removes exactly that key; a missing key raises the same `KeyError` as reading it |
| SettingsFacade.DelThenContains | settings_parser/settings.py:58-69 | after deleting a contained key it is no longer contained and every other key reads as before; deleting a missing key is a `KeyError` |
| SettingsFacade.LoadCheck | settings_parser/settings.py:176-180 | a loaded file is accepted exactly when its top level is a dict, and is otherwise rejected as "empty or otherwise invalid" |
| Idempotence.Idem | settings_parser/test/test_settings/test_settings.py:35-41 | for declared types without unions or user-registered types, validating a validated value again gives it back unchanged |
| Idempotence.IdemDictValue | settings_parser/test/test_value/test_dictvalue.py:13-27 | a `DictValue` with distinct keys and such slot types is a fixed point on its own output |
| Idempotence.EntriesFixed | settings_parser/test/test_value/test_dictvalue.py:82-88 | when every present slot's value is already a fixed point, the entries give back exactly the present schema keys with their values |
| Idempotence.DictFixed | settings_parser/test/test_value/test_value.py:344-376 | a dict with distinct keys, whose every key and value already validates to itself and which passes the dict's own checks, validates to itself (`Dict[str, str]` on `{'a': '1'}`, `Dict[Tuple[int, int], List[int]]` on `{(1, 2): [3, 4]}`) |
| Idempotence.UnionNotIdempotent | settings_parser/test/test_value/test_value.py:136-147 | first match is not idempotent: `Union[Tuple[int], Set[int]]` turns `[1, 1]` into `{1}`, which the same type then turns into `(1,)` |
| Scenarios.CoercionExamples | settings_parser/test/test_value/test_value.py:35-94 | `int('25')` is 25, `str(25)` is `'25'`, `int(12.2)` is 12; `int('50.0')`, `int(5+0j)` and `bytes('asd')` fail with "does not have the right type" |
| Scenarios.NumToNum | settings_parser/test/test_value/test_value.py:79-94 | `float(25) == 25.0`, `float(Fraction(89, 5)) == 17.8`, `int(Fraction(10, 5)) == 2`, `Fraction(7) == 7`, and `complex` of 25, 12.2 and `Fraction(10, 5)` adds a zero imaginary part |
| Scenarios.BareGenericRefused | settings_parser/test/test_value/test_value.py:53-58 | a bare `List` fails with "generic types must contain arguments", whatever the value |
| Scenarios.LengthAfterCoercion | settings_parser/test/test_value/test_value.py:121-133 | `Value(str, len_max=3)` accepts 123 as `'123'` and rejects 1234 as four characters too long |
| Scenarios.NestedStringNotExploded | settings_parser/test/test_value/test_value.py:229-311 | `List[int]` on `'56'` and `List[List[str]]` on `['asddsa']` fail with "does not have the right type" |
| Scenarios.NestedLengthPasses | settings_parser/test/test_value/test_value.py:314-324 | with `len_max=[None, 2]`, a list of three pairs validates unchanged |
| Scenarios.NestedLengthFails | settings_parser/test/test_value/test_value.py:335-339 | with `len_max=[None, 2]`, an inner list of three elements fails as too long although the outer list is unbounded |
| Scenarios.ExtraKeyIgnored | settings_parser/test/test_value/test_dictvalue.py:43-51 | `{'age': int, 'city': str}` on a dict with an extra key returns just age and city, with one warning naming the extra key |
| Scenarios.ExclusiveClash | settings_parser/test/test_value/test_dictvalue.py:91-106 | two exclusive keys both present fail with "Only one of the values" naming both |
| Scenarios.VersionSettings | settings_parser/test/test_settings/test_settings.py:88-91 | `Settings({'version': Value(int, val_min=1, val_max=1)})` needs `version` and nothing else |
| Scenarios.VersionTooLarge | settings_parser/test/test_settings/test_settings.py:88-93 | `version: 2` fails with "cannot be larger than 1" inside setting `version`, and no attribute is bound |
| Scenarios.ExtraValueWarnsTwice | settings_parser/test/test_settings/test_settings.py:97-107 | `version: 1, extra: 3` validates to `{version: 1}` with exactly two warnings, both naming `{'extra'}`: first "not recognized" from the settings, then "should not be present" from the dict type |
| Scenarios.ExtraValueBound | settings_parser/test/test_settings/test_settings.py:97-107 | after that validation the attribute `version` is bound to 1 and nothing else |
| Scenarios.GoodSettingsBuilt | settings_parser/test/test_settings/test_settings.py:28-32 | `Settings` built from the `version`/`people` fields needs both keys and has no optional or exclusive ones |
| Scenarios.PersonFixed | settings_parser/test/test_settings/test_settings.py:20-31 | any `{'age': a, 'city': c}` with an int age and a str city validates to itself against `DictValue({'age': int, 'city': str})` |
| Scenarios.PeopleFixed | settings_parser/test/test_settings/test_settings.py:20-31 | the four people of the good configuration validate to themselves against `Dict[str, DictValue({'age': int, 'city': str})]` |
| Scenarios.GoodConfig | settings_parser/test/test_settings/test_settings.py:35-41 | the good configuration file validates to its own values, `version` first and `people` second, as declared |
| Scenarios.GoodParsedIsFile | settings_parser/test/test_settings/test_settings.py:35-41 | the parsed settings and the file have the same keys and the same value at each key, so they are equal as Python dicts |

## Left out

- `Settings.validate`, `Loader._load_yaml_file` and the YAML parser: opening files and parsing YAML are I/O. `LoadCheck` starts from the already loaded value.
- `Loader.load_settings_file` with a `file_format` other than YAML returns `NotImplemented` before the dict check. That path is not modelled.
- `log_exceptions_warnings` and logging: warnings are the output list of a `Report`. Errors are `Err` values, not logged exceptions.
- `Settings.__repr__`, `__eq__`, `__ne__` and `__bool__`: they are about printing, object identity (the equality test is marked as expected to fail) and Python truthiness of internal attributes.
- Text forms of floats, Fractions and complex numbers (`str(1.25)`, `float('1e3')`, `complex('1+5j')`) belong to the Python runtime. They are parameters (`Text.TextForms`), and exact IEEE arithmetic is not modelled (floats are reals).
- Text.ParseInt: does not accept the surrounding whitespace and digit-group underscores that Python's `int()` tolerates, because no test relies on them.
- User-registered types (`Value(f_float)`, `datetime.date`): the constructor is an abstract function `make` of the declared type, so which values it accepts is not modelled. `Callable` ("Type not recognized or supported") is a declaration error the model cannot express, because every `Desc` is a supported type.
- `Value(...)` used as a type argument (as in `Dict[str, Value(int)]`): the inner `Value`'s own keyword arguments are not modelled, only its type.
- The `Settings` attributes that are not settings (`dict_value`, `needed_values`, ...) are left out of `attrs`, so `settings['needed_values']` is not modelled. Facade keys are strings.
- SettingsFacade.ValidateAllValues: in the source, parsed keys and the object's own attributes share one namespace, since each key is bound with `setattr` (settings.py:121-122). A declared key named `get`, `dict_value`, `needed_values` or `validate_all_values` overwrites that attribute or method and breaks later calls. A key such as `__class__` makes `setattr` raise after the earlier keys are already bound. The model keeps the schema and key sets apart from `attrs`, so none of these collisions occurs in it, and `ParsedKeysRetrievable` holds for every key, including those names.
- Duplicate keys in the raw file: the code has no duplicate-key detection. A Python dict cannot hold a key twice, so the model follows the code and has none either.
- Key equality is structural: Python's `1 == 1.0 == True` identification of dict keys is not modelled. The same holds for set elements, so `{1, True}` and `{1, 1.0}` keep two elements where Python keeps one.
- Set order and container equality: a Python set is a duplicate-free sequence in first-occurrence order here, while Python iterates a set in hash order. So `List[int]` on `{2, 1}` gives `[2, 1]` in the model and `[1, 2]` in CPython, and `Tuple[...]` on a set, which is positional, depends on that order, which for strings varies from run to run. Equality of `VSet` and `VDict` values is order-sensitive, so one Python set or dict has several model encodings that compare unequal. Where order should not matter the lemmas compare keys and lookups instead (`GoodParsedIsFile`).
- Hashability: Python raises `TypeError` when a set element or a dict key is unhashable (`Set[List[int]]` on `[[1], [1]]`). The model has no notion of hashing, so it accepts such values.
- Checks.CheckValue: `val_min` and `val_max` are numbers. Non-numeric bounds, which Python compares with `<` (a string bound on a string), cannot be expressed.
- Coerce: bytes are never converted. Python's `int(b'25')` and `float(b'2.5')` read the bytes as text, and `bytes(5)` and `bytes([1, 2])` build bytes from a size or from ints. The model rejects all of these, following the reading that bytes only come from bytes.
- Coerce: `list`, `tuple` and `set` of a dict or a string fail in the model. Python gives the dict's keys or the string's characters. The model follows the reading that a string is never taken apart.
- Coerce: `dict` of a sequence of pairs (`dict([(1, 2)])`) fails in the model. Python builds the dict.
- Text.ParseInt: reads ASCII digits only, while Python's `int()` also accepts other Unicode decimal digits (`int('٢٥')`).
- These readings fill gaps the test suite leaves open:
  - a value or length bound on an unsized value fails (`NoLength`);
  - dict keys are validated with no constraints;
  - the user function runs only on the outermost value;
  - every union alternative sees the same constraints;
  - in a `DictValue`, the extra-key warning comes first, then the exclusive check, then the entries in declared order.
- Idempotence.Idem: restricted to declared types without unions or user-registered types. `UnionNotIdempotent` shows that unions are genuinely not idempotent, and a user constructor is arbitrary.
- Scenarios.GoodConfig: states the parsed result of the good configuration, not its warnings, which that test does not check. It starts from the loaded dict, not from the file.

## Findings

| source | as written | input that shows it | evidently intended | confidence | as-written member | corrected member |
|---|---|---|---|---|---|---|
| settings_parser/settings.py:58-60 | `__delitem__` calls `delattr`, so deleting a missing key raises `AttributeError` | `del settings['missing']` on a `Settings` with no attribute `missing` | raise `KeyError`, as `settings['missing']` (lines 40-45) and the dict protocol do | not executed | SettingsFacade.DelItemAsWritten | SettingsFacade.DelItem |
