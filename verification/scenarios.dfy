/**
 * Concrete runs of the validation engine on the inputs the project's own
 * tests use: a person record, a pair of exclusive settings, and a settings
 * file with a bounded `version`.
 */
module Scenarios {
  import opened Values
  import opened Text
  import opened Schema
  import opened Diagnostics
  import opened Coercion
  import opened Checks
  import opened Matcher
  import opened MatcherProperties
  import opened Shorthand
  import opened SettingsFacade
  import opened Idempotence

  const Age := VStr("age")
  const City := VStr("city")
  const Extra := VStr("extra")

  /** `DictValue({'age': int, 'city': str})`. */
  function Person(): (schema: seq<Entry>)
    ensures schema == Entries([Field(Age, TypeSpec(Prim(IntK))), Field(City, TypeSpec(Prim(StrK)))])
  {
    [Entry(Age, Prim(IntK), Mandatory, Unconstrained), Entry(City, Prim(StrK), Mandatory, Unconstrained)]
  }

  lemma PersonShape()
    ensures Person()[0] == Entry(Age, Prim(IntK), Mandatory, Unconstrained)
    ensures Person()[1] == Entry(City, Prim(StrK), Mandatory, Unconstrained)
    ensures SchemaKeys(Person()) == {Age, City}
    ensures KeysOfKind(Person(), Exclusive) == {}
  {
  }

  lemma NamesDiffer()
    ensures Age != City && Age != Extra && City != Extra
  {
    assert Age.s[0] != City.s[0] && Age.s[0] != Extra.s[0] && City.s[0] != Extra.s[0];
  }

  /** The items of a person with one extra item. */
  function PersonPlus(): (es: seq<Item>)
  {
    [Item(Age, VInt(28)), Item(City, VStr("utrecht")), Item(Extra, VBool(true))]
  }

  lemma PersonPlusShape()
    ensures Keys(PersonPlus()) == {Age, City, Extra}
    ensures Lookup(PersonPlus(), Age) == Some(VInt(28))
    ensures Lookup(PersonPlus(), City) == Some(VStr("utrecht"))
  {
    NamesDiffer();
    var es := PersonPlus();
    assert es[1..] == [Item(City, VStr("utrecht")), Item(Extra, VBool(true))];
    assert es[0].key == Age && es[1].key == City && es[2].key == Extra;
  }

  lemma ScalarsPass(forms: TextForms)
    ensures Validate(forms, VInt(28), Prim(IntK), Unconstrained) == Report(Ok(VInt(28)), [])
    ensures Validate(forms, VStr("utrecht"), Prim(StrK), Unconstrained) == Report(Ok(VStr("utrecht")), [])
  {
    assert Coerce(forms, VInt(28), IntK) == Ok(VInt(28));
    assert Coerce(forms, VStr("utrecht"), StrK) == Ok(VStr("utrecht"));
  }

  lemma PersonItems(forms: TextForms)
    ensures NamedItem(forms, PersonPlus(), Person()[0]) == Report(Ok(Item(Age, VInt(28))), [])
    ensures NamedItem(forms, PersonPlus(), Person()[1]) == Report(Ok(Item(City, VStr("utrecht"))), [])
  {
    PersonPlusShape();
    ScalarsPass(forms);
  }

  /** One step of `ValidateEntries` on an entry that is looked up. */
  lemma EntriesStep(forms: TextForms, es: seq<Item>, schema: seq<Entry>, item: Item)
    requires |schema| > 0 && schema[0].presence == Mandatory
    requires NamedItem(forms, es, schema[0]) == Report(Ok(item), [])
    ensures ValidateEntries(forms, es, schema) == Prepend(item, [], ValidateEntries(forms, es, schema[1..]))
  {
  }

  lemma PersonPlusExtra()
    ensures Keys(PersonPlus()) - SchemaKeys(Person()) == {Extra}
    ensures KeysOfKind(Person(), Exclusive) * Keys(PersonPlus()) == {}
  {
    NamesDiffer();
    PersonShape();
    PersonPlusShape();
  }

  /** Each field of the person validates against its declared type. */
  lemma PersonEntries(forms: TextForms)
    ensures ValidateEntries(forms, PersonPlus(), Person())
              == Report(Ok([Item(Age, VInt(28)), Item(City, VStr("utrecht"))]), [])
  {
    PersonItems(forms);
    var es, schema := PersonPlus(), Person();
    var tail := schema[1..];
    assert tail[0] == schema[1] && tail[1..] == [];
    var r0 := ValidateEntries(forms, es, tail[1..]);
    assert r0 == Report(Ok([]), []);
    EntriesStep(forms, es, tail, Item(City, VStr("utrecht")));
    assert [Item(City, VStr("utrecht"))] + [] == [Item(City, VStr("utrecht"))];
    assert [Item(Age, VInt(28))] + [Item(City, VStr("utrecht"))] == [Item(Age, VInt(28)), Item(City, VStr("utrecht"))];
    var r1 := ValidateEntries(forms, es, tail);
    assert r1 == Report(Ok([Item(City, VStr("utrecht"))]), []);
    EntriesStep(forms, es, schema, Item(Age, VInt(28)));
  }

  /**
   * A person with one extra item validates to the person without it, and
   * the extra key is warned about exactly once.
   */
  lemma ExtraKeyIgnored(forms: TextForms)
    ensures var r := ValidateDictValue(forms, VDict(PersonPlus()), Person());
      r.result == Ok(VDict([Item(Age, VInt(28)), Item(City, VStr("utrecht"))])) && r.warnings == [ExtraValues({Extra})]
  {
    PersonEntries(forms);
    var es, schema := PersonPlus(), Person();
    PersonPlusExtra();
    var r := ValidateDictValue(forms, VDict(es), schema);
    assert r == Report(Ok(VDict([Item(Age, VInt(28)), Item(City, VStr("utrecht"))])), [ExtraValues({Extra})] + []);
  }

  /** `DictValue({'age': Value(int, kind=exclusive), 'city': Value(str, kind=exclusive)})`. */
  function Either(): (schema: seq<Entry>)
  {
    [Entry(Age, Prim(IntK), Exclusive, Unconstrained), Entry(City, Prim(StrK), Exclusive, Unconstrained)]
  }

  lemma EitherExclusive()
    ensures KeysOfKind(Either(), Exclusive) == {Age, City}
  {
    var schema := Either();
    assert |schema| == 2 && schema[0].key == Age && schema[1].key == City;
    assert schema[0].presence == Exclusive && schema[1].presence == Exclusive;
  }

  lemma EitherKeys()
    ensures KeysOfKind(Either(), Exclusive) * Keys(PersonPlus()) == {Age, City}
    ensures |{Age, City}| == 2
  {
    NamesDiffer();
    PersonPlusShape();
    EitherExclusive();
    assert {Age, City} * {Age, City, Extra} == {Age, City};
    assert {Age, City} == {Age} + {City};
  }

  /** Two exclusive settings present together fail, naming both. */
  lemma ExclusiveClash(forms: TextForms)
    ensures ValidateDictValue(forms, VDict(PersonPlus()), Either()).result == Err(OnlyOneOf({Age, City}))
  {
    EitherKeys();
  }

  // ------------------------------------------------- a settings file

  const Version := VStr("version")

  /** `Settings({'version': Value(int, val_min=1, val_max=1)})`. */
  function VersionFields(): (fs: seq<Field>)
  {
    [Field(Version, ValueSpec(Prim(IntK), Mandatory, Constraints(Some(1.0), Some(1.0), [], [], None)))]
  }

  /** The settings `New` builds from those fields: one mandatory key, nothing bound yet. */
  function VersionOnly(): (s: Settings)
  {
    Settings([VersionEntry()], {Version}, {}, {}, map[])
  }

  lemma VersionSettings()
    ensures New(DictArg(VersionFields())) == Ok(VersionOnly())
  {
    var schema := Entries(VersionFields());
    assert schema[0] == EntryOf(VersionFields()[0]);
    assert schema == [VersionEntry()];
    assert MakeDictValue(DictArg(VersionFields())) == Ok(schema);
    assert schema[0].key == Version && schema[0].presence == Mandatory;
    assert KeysOfKind(schema, Mandatory) == {Version};
    assert KeysOfKind(schema, Optional) == {};
    assert KeysOfKind(schema, Exclusive) == {};
    var r := New(DictArg(VersionFields()));
    assert r.Ok? && r.value.schema == schema;
    assert r.value.needed == {Version};
    assert r.value.optional == {};
    assert r.value.exclusive == {};
    assert r.value.attrs == map[];
  }

  /** The version's entry: an `int` between 1 and 1. */
  function VersionEntry(): (e: Entry)
  {
    Entry(Version, Prim(IntK), Mandatory, Constraints(Some(1.0), Some(1.0), [], [], None))
  }

  lemma VersionChecks(forms: TextForms)
    ensures NamedItem(forms, [Item(Version, VInt(2))], VersionEntry())
              == Report(Err(InSetting(Version, TooLarge(VInt(2), 1.0))), [])
    ensures NamedItem(forms, [Item(Version, VInt(1)), Item(Extra, VInt(3))], VersionEntry())
              == Report(Ok(Item(Version, VInt(1))), [])
  {
    var e := VersionEntry();
    assert Coerce(forms, VInt(2), IntK) == Ok(VInt(2));
    assert Coerce(forms, VInt(1), IntK) == Ok(VInt(1));
    assert Lookup([Item(Version, VInt(2))], Version) == Some(VInt(2));
    assert Lookup([Item(Version, VInt(1)), Item(Extra, VInt(3))], Version) == Some(VInt(1));
    assert CheckScalar(VInt(2), e.cons) == Err(TooLarge(VInt(2), 1.0));
    assert CheckScalar(VInt(1), e.cons) == Ok(VInt(1));
  }

  /**
   * A file holding `version: 2` fails the upper bound, the error names the
   * setting, and nothing is bound.
   */
  lemma VersionTooLarge(forms: TextForms)
    ensures var out := ValidateAllValues(forms, VersionOnly(), [Item(Version, VInt(2))]);
      out.report.result == Err(InSetting(Version, TooLarge(VInt(2), 1.0))) && out.after == VersionOnly()
  {
    VersionChecks(forms);
    var s := VersionOnly();
    var file := [Item(Version, VInt(2))];
    assert s.schema[0].key == Version;
    assert Keys(file) == {Version};
    assert SchemaKeys(s.schema) == {Version};
    assert KeysOfKind(s.schema, Exclusive) == {};
    assert s.schema[1..] == [];
    assert ValidateEntries(forms, file, s.schema).result == Err(InSetting(Version, TooLarge(VInt(2), 1.0)));
  }

  /** The file `version: 1` plus `extra: 3`. */
  function VersionPlus(): (es: seq<Item>)
  {
    [Item(Version, VInt(1)), Item(Extra, VInt(3))]
  }

  lemma VersionPlusKeys()
    ensures Version != Extra
    ensures Keys(VersionPlus()) == {Version, Extra}
  {
    assert Version.s[0] != Extra.s[0];
    assert VersionPlus()[0].key == Version && VersionPlus()[1].key == Extra;
  }

  lemma VersionSchemaKeys()
    ensures SchemaKeys([VersionEntry()]) == {Version}
    ensures KeysOfKind([VersionEntry()], Exclusive) == {}
    ensures Keys(VersionPlus()) - SchemaKeys([VersionEntry()]) == {Extra}
    ensures KeysOfKind([VersionEntry()], Exclusive) * Keys(VersionPlus()) == {}
  {
    VersionPlusKeys();
    assert [VersionEntry()][0].key == Version;
  }

  lemma VersionPlusEntries(forms: TextForms)
    ensures ValidateEntries(forms, VersionPlus(), [VersionEntry()]) == Report(Ok([Item(Version, VInt(1))]), [])
  {
    VersionChecks(forms);
    var schema := [VersionEntry()];
    assert schema[1..] == [];
    assert ValidateEntries(forms, VersionPlus(), schema[1..]) == Report(Ok([]), []);
    EntriesStep(forms, VersionPlus(), schema, Item(Version, VInt(1)));
    assert [Item(Version, VInt(1))] + [] == [Item(Version, VInt(1))];
  }

  lemma VersionPlusParsed(forms: TextForms)
    ensures var parsed := ValidateDictValue(forms, VDict(VersionPlus()), [VersionEntry()]);
      parsed == Report(Ok(VDict([Item(Version, VInt(1))])), [ExtraValues({Extra})])
  {
    VersionSchemaKeys();
    VersionPlusEntries(forms);
  }

  /** The settings report for that file: the unknown `extra` is warned about first. */
  lemma VersionPlusReport(forms: TextForms, s: Settings, file: seq<Item>)
    requires s == VersionOnly() && file == VersionPlus()
    ensures var parsed := ValidateDictValue(forms, VDict(file), s.schema);
      ValidateAllValues(forms, s, file).report == Report(parsed.result, [NotRecognized({Extra})] + parsed.warnings)
  {
    VersionPlusUnknown(s, file);
  }

  lemma VersionPlusUnknown(s: Settings, file: seq<Item>)
    requires s == VersionOnly() && file == VersionPlus()
    ensures s.needed <= Keys(file) && Keys(file) - s.needed - s.optional == {Extra}
  {
    VersionPlusKeys();
  }

  /**
   * A file with one unknown key warns twice, once for the settings and once
   * for the schema dict, and keeps only the declared value.
   */
  lemma ExtraValueWarnsTwice(forms: TextForms, s: Settings, file: seq<Item>)
    requires s == VersionOnly() && file == VersionPlus()
    ensures ValidateAllValues(forms, s, file).report
              == Report(Ok(VDict([Item(Version, VInt(1))])), [NotRecognized({Extra}), ExtraValues({Extra})])
  {
    assert [NotRecognized({Extra})] + [ExtraValues({Extra})] == [NotRecognized({Extra}), ExtraValues({Extra})];
    VersionPlusReport(forms, s, file);
    VersionPlusParsed(forms);
  }

  /** After that file only `version` is bound, to its validated value. */
  lemma ExtraValueBound(forms: TextForms)
    ensures var out := ValidateAllValues(forms, VersionOnly(), VersionPlus());
      out.after.attrs == map["version" := VInt(1)]
  {
    var items := [Item(Version, VInt(1))];
    ExtraValueWarnsTwice(forms, VersionOnly(), VersionPlus());
    assert Str(forms, items[0].key) == "version";
    assert items[..0] == [];
    assert Bind(forms, map[], items) == map["version" := VInt(1)];
  }

  // ------------------------------------------------- single values

  /**
   * The conversions the tests spell out: `int('25')` is 25, `str(25)` is
   * `'25'`, `int(12.2)` is 12, while `int('50.0')`, `int(5+0j)` and
   * `bytes('asd')` fail with "does not have the right type".
   */
  lemma CoercionExamples(forms: TextForms)
    ensures Coerce(forms, VStr("25"), IntK) == Ok(VInt(25))
    ensures Coerce(forms, VInt(25), StrK) == Ok(VStr("25"))
    ensures Coerce(forms, VFloat(12.2), IntK) == Ok(VInt(12))
    ensures Coerce(forms, VStr("50.0"), IntK) == Err(WrongType(VStr("50.0")))
    ensures Coerce(forms, VComplex(5.0, 0.0), IntK) == Err(WrongType(VComplex(5.0, 0.0)))
    ensures Coerce(forms, VStr("asd"), BytesK) == Err(WrongType(VStr("asd")))
  {
    TextToInt(forms);
    FloatToInt(forms);
    Refusals(forms);
  }

  lemma TextToInt(forms: TextForms)
    ensures Coerce(forms, VStr("25"), IntK) == Ok(VInt(25))
    ensures Coerce(forms, VInt(25), StrK) == Ok(VStr("25"))
    ensures Coerce(forms, VStr("50.0"), IntK) == Err(WrongType(VStr("50.0")))
  {
    TextExamples();
  }

  lemma FloatToInt(forms: TextForms)
    ensures Coerce(forms, VFloat(12.2), IntK) == Ok(VInt(12))
  {
    assert Trunc(12.2) == 12;
  }

  lemma Refusals(forms: TextForms)
    ensures Coerce(forms, VComplex(5.0, 0.0), IntK) == Err(WrongType(VComplex(5.0, 0.0)))
    ensures Coerce(forms, VStr("asd"), BytesK) == Err(WrongType(VStr("asd")))
  {
  }

  /**
   * Conversions between numbers keep the value: `float(25) == 25.0`,
   * `float(Fraction(89, 5)) == 17.8`, `int(Fraction(10, 5)) == 2`,
   * `Fraction(7) == 7` and `complex(x) == x + 0j` for an int, a float and a
   * Fraction.
   */
  lemma NumToNum(forms: TextForms)
    ensures Coerce(forms, VInt(25), FloatK) == Ok(VFloat(25.0))
    ensures Coerce(forms, VFraction(89.0 / 5.0), FloatK) == Ok(VFloat(17.8))
    ensures Coerce(forms, VFraction(10.0 / 5.0), IntK) == Ok(VInt(2))
    ensures Coerce(forms, VInt(7), FractionK) == Ok(VFraction(7.0))
    ensures Coerce(forms, VInt(25), ComplexK) == Ok(VComplex(25.0, 0.0))
    ensures Coerce(forms, VFloat(12.2), ComplexK) == Ok(VComplex(12.2, 0.0))
    ensures Coerce(forms, VFraction(10.0 / 5.0), ComplexK) == Ok(VComplex(2.0, 0.0))
  {
    ToFloat(forms);
    ToComplex(forms);
    assert Trunc(2.0) == 2;
  }

  lemma ToFloat(forms: TextForms)
    ensures Coerce(forms, VInt(25), FloatK) == Ok(VFloat(25.0))
    ensures Coerce(forms, VFraction(89.0 / 5.0), FloatK) == Ok(VFloat(17.8))
    ensures Coerce(forms, VInt(7), FractionK) == Ok(VFraction(7.0))
  {
  }

  lemma ToComplex(forms: TextForms)
    ensures Coerce(forms, VInt(25), ComplexK) == Ok(VComplex(25.0, 0.0))
    ensures Coerce(forms, VFloat(12.2), ComplexK) == Ok(VComplex(12.2, 0.0))
    ensures Coerce(forms, VFraction(10.0 / 5.0), ComplexK) == Ok(VComplex(2.0, 0.0))
  {
  }

  /** The texts behind those conversions. */
  lemma TextExamples()
    ensures ParseInt("25") == Some(25) && ShowInt(25) == "25" && ParseInt("50.0").None?
  {
    assert ShowInt(25) == "25";
    ParseShowInt(25);
    assert "50.0"[2] == '.';
  }

  /** A bare generic such as `List` is refused whatever the value. */
  lemma BareGenericRefused(forms: TextForms, v: Val, c: Constraints)
    ensures Validate(forms, v, Bare(ListG), c) == Fail(UnparameterizedGeneric(ListG))
  {
  }

  /** `Value(str, len_max=3)`. */
  function ShortString(): (c: Constraints)
    ensures Outer(c.lenMax) == Some(3) && Outer(c.lenMin).None?
    ensures c.valMin.None? && c.valMax.None? && c.fun.None?
  {
    Constraints(None, None, [], [Some(3)], None)
  }

  lemma ShowSmall()
    ensures ShowInt(123) == "123" && ShowInt(1234) == "1234"
  {
  }

  /**
   * The length bound applies after coercion, so 123 passes as `'123'` and
   * 1234 fails as a four-character string.
   */
  lemma LengthAfterCoercion(forms: TextForms)
    ensures Validate(forms, VInt(123), Prim(StrK), ShortString()).result == Ok(VStr("123"))
    ensures Validate(forms, VInt(1234), Prim(StrK), ShortString()).result == Err(TooLong(4, 3))
  {
    ShortTextPasses(forms);
    LongTextFails(forms);
  }

  lemma ShortTextPasses(forms: TextForms)
    ensures Validate(forms, VInt(123), Prim(StrK), ShortString()).result == Ok(VStr("123"))
  {
    ShowSmall();
    var c := ShortString();
    assert Coerce(forms, VInt(123), StrK) == Ok(VStr("123"));
    assert CheckValue(VStr("123"), c).Ok?;
    assert CheckLength(VStr("123"), c).Ok?;
  }

  lemma LongTextFails(forms: TextForms)
    ensures Validate(forms, VInt(1234), Prim(StrK), ShortString()).result == Err(TooLong(4, 3))
  {
    ShowSmall();
    var c := ShortString();
    assert Coerce(forms, VInt(1234), StrK) == Ok(VStr("1234"));
    assert CheckValue(VStr("1234"), c).Ok?;
    assert CheckLength(VStr("1234"), c) == Err(TooLong(4, 3));
  }

  /**
   * `List[int]` on `'56'` fails, and `List[List[str]]` on `['asddsa']` fails
   * at the inner string instead of reading it as a list of characters.
   */
  lemma NestedStringNotExploded(forms: TextForms)
    ensures Validate(forms, VStr("56"), ListOf(Prim(IntK)), Unconstrained).result == Err(WrongType(VStr("56")))
    ensures Validate(forms, VList([VStr("asddsa")]), ListOf(ListOf(Prim(StrK))), Unconstrained).result
              == Err(WrongType(VStr("asddsa")))
  {
    var xs := [VStr("asddsa")];
    assert Validate(forms, xs[0], ListOf(Prim(StrK)), Inner(Unconstrained)).result == Err(WrongType(VStr("asddsa")));
    assert ValidateItems(forms, xs, ListOf(Prim(StrK)), Inner(Unconstrained)).result == Err(WrongType(VStr("asddsa")));
  }

  /** `len_max=[None, 2]`: no bound on the outer list, at most two elements in each inner one. */
  function InnerPairs(): (c: Constraints)
    ensures Outer(c.lenMax).None? && Outer(Inner(c).lenMax) == Some(2)
  {
    Constraints(None, None, [], [None, Some(2)], None)
  }

  lemma InnerListStep(forms: TextForms, xs: seq<Val>)
    requires forall i :: 0 <= i < |xs| ==> xs[i].VInt?
    ensures var c := Inner(InnerPairs());
      Validate(forms, VList(xs), ListOf(Prim(IntK)), c).result == if |xs| <= 2 then Ok(VList(xs)) else Err(TooLong(|xs|, 2))
  {
    var c := Inner(InnerPairs());
    assert Inner(c) == Unconstrained;
    forall i | 0 <= i < |xs|
      ensures Validate(forms, xs[i], Prim(IntK), Inner(c)).result == Ok(xs[i])
    {
      assert Coerce(forms, xs[i], IntK) == Ok(xs[i]);
    }
    ItemsFixed(forms, xs, Prim(IntK), Inner(c));
  }

  /** The outer list under `len_max=[None, 2]` is bounded only through its elements. */
  lemma OuterListStep(forms: TextForms, ys: seq<Val>, t: Desc)
    ensures var items := ValidateItems(forms, ys, t, Inner(InnerPairs())).result;
      Validate(forms, VList(ys), ListOf(t), InnerPairs()).result
        == if items.Ok? then Ok(VList(items.value)) else Err(items.error)
  {
  }

  /** `List[List[int]]` with `len_max=[None, 2]`: three inner pairs pass unchanged. */
  lemma NestedLengthPasses(forms: TextForms)
    ensures var good := [VList([VInt(1), VInt(2)]), VList([VInt(4), VInt(5)]), VList([VInt(4), VInt(5)])];
      Validate(forms, VList(good), ListOf(ListOf(Prim(IntK))), InnerPairs()).result == Ok(VList(good))
  {
    var good := [VList([VInt(1), VInt(2)]), VList([VInt(4), VInt(5)]), VList([VInt(4), VInt(5)])];
    GoodPairs(forms, good);
    ItemsFixed(forms, good, ListOf(Prim(IntK)), Inner(InnerPairs()));
    OuterListStep(forms, good, ListOf(Prim(IntK)));
  }

  /** Each of those pairs validates to itself. */
  lemma GoodPairs(forms: TextForms, good: seq<Val>)
    requires good == [VList([VInt(1), VInt(2)]), VList([VInt(4), VInt(5)]), VList([VInt(4), VInt(5)])]
    ensures forall i :: 0 <= i < |good| ==> Validate(forms, good[i], ListOf(Prim(IntK)), Inner(InnerPairs())).result == Ok(good[i])
  {
    InnerListStep(forms, [VInt(1), VInt(2)]);
    InnerListStep(forms, [VInt(4), VInt(5)]);
  }

  /**
   * `List[List[int]]` with `len_max=[None, 2]`: an inner list of three
   * elements fails although the outer list has no bound.
   */
  lemma NestedLengthFails(forms: TextForms)
    ensures var worse := [VList([VInt(1), VInt(2)]), VList([VInt(4), VInt(5)]), VList([VInt(4), VInt(5), VInt(5)])];
      Validate(forms, VList(worse), ListOf(ListOf(Prim(IntK))), InnerPairs()).result == Err(TooLong(3, 2))
  {
    var worse := [VList([VInt(1), VInt(2)]), VList([VInt(4), VInt(5)]), VList([VInt(4), VInt(5), VInt(5)])];
    WorseItems(forms, worse);
    OuterListStep(forms, worse, ListOf(Prim(IntK)));
  }

  /** The elements of that outer list: the third is the first to fail. */
  lemma WorseItems(forms: TextForms, worse: seq<Val>)
    requires worse == [VList([VInt(1), VInt(2)]), VList([VInt(4), VInt(5)]), VList([VInt(4), VInt(5), VInt(5)])]
    ensures ValidateItems(forms, worse, ListOf(Prim(IntK)), Inner(InnerPairs())).result == Err(TooLong(3, 2))
  {
    WorseHead(forms, worse);
    WorseLast(forms, worse);
    ItemsFirstErr(forms, worse, ListOf(Prim(IntK)), Inner(InnerPairs()), 2);
  }

  lemma WorseHead(forms: TextForms, worse: seq<Val>)
    requires worse == [VList([VInt(1), VInt(2)]), VList([VInt(4), VInt(5)]), VList([VInt(4), VInt(5), VInt(5)])]
    ensures forall j :: 0 <= j < 2 ==> Validate(forms, worse[j], ListOf(Prim(IntK)), Inner(InnerPairs())).result.Ok?
  {
    InnerListStep(forms, [VInt(1), VInt(2)]);
    InnerListStep(forms, [VInt(4), VInt(5)]);
  }

  lemma WorseLast(forms: TextForms, worse: seq<Val>)
    requires worse == [VList([VInt(1), VInt(2)]), VList([VInt(4), VInt(5)]), VList([VInt(4), VInt(5), VInt(5)])]
    ensures Validate(forms, worse[2], ListOf(Prim(IntK)), Inner(InnerPairs())).result == Err(TooLong(3, 2))
  {
    InnerListStep(forms, [VInt(4), VInt(5), VInt(5)]);
  }

  // ------------------------------------------------- the good configuration

  const People := VStr("people")

  /** `{'age': age, 'city': city}`. */
  function PersonDict(age: int, city: string): Val
  {
    VDict([Item(Age, VInt(age)), Item(City, VStr(city))])
  }

  /** The `people` section of the good configuration. */
  function GoodPeople(): seq<Item>
  {
    [Item(VStr("carmen"), PersonDict(28, "ghent")),
     Item(VStr("maria"), PersonDict(32, "madrid")),
     Item(VStr("pedro"), PersonDict(28, "utrecht")),
     Item(VStr("teresa"), PersonDict(34, "madrid"))]
  }

  /** The good configuration file, as loaded. */
  function GoodFile(): seq<Item>
  {
    [Item(People, VDict(GoodPeople())), Item(Version, VInt(1))]
  }

  /** `'people': Value(Dict[str, DictValue({'age': int, 'city': str})])`. */
  function PeopleEntry(): (e: Entry)
  {
    Entry(People, DictOf(Prim(StrK), Nested(Person())), Mandatory, Unconstrained)
  }

  /** `{'version': Value(int, val_min=1, val_max=1), 'people': Value(Dict[str, DictValue(...)])}`. */
  function GoodFields(): (fs: seq<Field>)
  {
    [Field(Version, ValueSpec(Prim(IntK), Mandatory, Constraints(Some(1.0), Some(1.0), [], [], None))),
     Field(People, ValueSpec(DictOf(Prim(StrK), Nested(Person())), Mandatory, Unconstrained))]
  }

  /** The settings `New` builds from those fields. */
  function GoodSettings(): (s: Settings)
  {
    Settings([VersionEntry(), PeopleEntry()], {Version, People}, {}, {}, map[])
  }

  lemma GoodSettingsBuilt()
    ensures New(DictArg(GoodFields())) == Ok(GoodSettings())
  {
    var fs := GoodFields();
    var schema := Entries(fs);
    assert schema[0] == EntryOf(fs[0]) == VersionEntry();
    assert schema[1] == EntryOf(fs[1]) == PeopleEntry();
    assert schema == [VersionEntry(), PeopleEntry()];
    assert MakeDictValue(DictArg(fs)) == Ok(schema);
    GoodSchemaKeys();
    var r := New(DictArg(fs));
    assert r.Ok? && r.value.schema == schema;
    assert r.value.needed == {Version, People};
    assert r.value.optional == {} && r.value.exclusive == {};
  }

  lemma GoodSchemaKeys()
    ensures KeysOfKind([VersionEntry(), PeopleEntry()], Mandatory) == {Version, People}
    ensures KeysOfKind([VersionEntry(), PeopleEntry()], Optional) == {}
    ensures KeysOfKind([VersionEntry(), PeopleEntry()], Exclusive) == {}
    ensures SchemaKeys([VersionEntry(), PeopleEntry()]) == {Version, People}
  {
    var schema := [VersionEntry(), PeopleEntry()];
    assert schema[0].key == Version && schema[1].key == People;
  }

  /** Every person of the file validates to itself against `DictValue({'age': int, 'city': str})`. */
  lemma PersonFixed(forms: TextForms, age: int, city: string)
    ensures Validate(forms, PersonDict(age, city), Nested(Person()), Unconstrained).result == Ok(PersonDict(age, city))
  {
    var es := [Item(Age, VInt(age)), Item(City, VStr(city))];
    PersonFieldsFixed(forms, es, age, city);
    PersonKeys(es, age, city);
    NestedUnconstrained(forms, PersonDict(age, city), Person());
  }

  lemma PersonKeys(es: seq<Item>, age: int, city: string)
    requires es == [Item(Age, VInt(age)), Item(City, VStr(city))]
    ensures Keys(es) == {Age, City}
    ensures Keys(es) - SchemaKeys(Person()) == {}
    ensures KeysOfKind(Person(), Exclusive) * Keys(es) == {}
  {
    PersonShape();
    assert es[0].key == Age && es[1].key == City;
  }

  lemma PersonFieldsFixed(forms: TextForms, es: seq<Item>, age: int, city: string)
    requires es == [Item(Age, VInt(age)), Item(City, VStr(city))]
    ensures ValidateEntries(forms, es, Person()).result == Ok(es)
  {
    PersonNamedItems(forms, es, age, city);
    var schema := Person();
    var tail := schema[1..];
    assert tail[0] == schema[1] && tail[1..] == [];
    assert ValidateEntries(forms, es, tail[1..]) == Report(Ok([]), []);
    EntriesStep(forms, es, tail, es[1]);
    assert [es[1]] + [] == [es[1]];
    EntriesStep(forms, es, schema, es[0]);
    assert [es[0]] + [es[1]] == es;
  }

  lemma PersonNamedItems(forms: TextForms, es: seq<Item>, age: int, city: string)
    requires es == [Item(Age, VInt(age)), Item(City, VStr(city))]
    ensures NamedItem(forms, es, Person()[0]) == Report(Ok(es[0]), [])
    ensures NamedItem(forms, es, Person()[1]) == Report(Ok(es[1]), [])
  {
    NamesDiffer();
    PersonShape();
    assert Lookup(es, Age) == Some(VInt(age));
    assert Lookup(es, City) == Some(VStr(city)) by {
      assert es[1..] == [Item(City, VStr(city))];
    }
    assert Coerce(forms, VInt(age), IntK) == Ok(VInt(age));
    assert Coerce(forms, VStr(city), StrK) == Ok(VStr(city));
  }

  /** The names are distinct strings, and each person validates to itself. */
  lemma PeopleFixed(forms: TextForms)
    ensures Validate(forms, VDict(GoodPeople()), DictOf(Prim(StrK), Nested(Person())), Unconstrained).result
              == Ok(VDict(GoodPeople()))
  {
    var es := GoodPeople();
    PeopleDistinct(es);
    PeopleEach(forms, es);
    assert Finish(VDict(es), Unconstrained).Ok?;
    DictFixed(forms, es, Prim(StrK), Nested(Person()), Unconstrained);
  }

  lemma PeopleDistinct(es: seq<Item>)
    requires es == GoodPeople()
    ensures DistinctKeys(es)
  {
    assert forall i :: 0 <= i < 4 ==> es[i].key.VStr? && |es[i].key.s| > 0;
    assert es[0].key.s[0] == 'c' && es[1].key.s[0] == 'm' && es[2].key.s[0] == 'p' && es[3].key.s[0] == 't';
  }

  lemma PeopleEach(forms: TextForms, es: seq<Item>)
    requires es == GoodPeople()
    ensures forall i :: 0 <= i < |es| ==>
      && Validate(forms, es[i].key, Prim(StrK), Unconstrained).result == Ok(es[i].key)
      && Validate(forms, es[i].value, Nested(Person()), Inner(Unconstrained)).result == Ok(es[i].value)
  {
    PeopleNames(forms, es);
    PeopleRecords(forms, es);
  }

  lemma PeopleNames(forms: TextForms, es: seq<Item>)
    requires es == GoodPeople()
    ensures forall i :: 0 <= i < |es| ==> Validate(forms, es[i].key, Prim(StrK), Unconstrained).result == Ok(es[i].key)
  {
    forall i | 0 <= i < |es|
      ensures Validate(forms, es[i].key, Prim(StrK), Unconstrained).result == Ok(es[i].key)
    {
      assert es[i].key.VStr?;
      assert Coerce(forms, es[i].key, StrK) == Ok(es[i].key);
    }
  }

  lemma PeopleRecords(forms: TextForms, es: seq<Item>)
    requires es == GoodPeople()
    ensures forall i :: 0 <= i < |es| ==> Validate(forms, es[i].value, Nested(Person()), Inner(Unconstrained)).result == Ok(es[i].value)
  {
    var ages, cities := [28, 32, 28, 34], ["ghent", "madrid", "utrecht", "madrid"];
    PeopleAreRecords(es, ages, cities);
    assert Inner(Unconstrained) == Unconstrained;
    forall i | 0 <= i < |es|
      ensures Validate(forms, es[i].value, Nested(Person()), Unconstrained).result == Ok(es[i].value)
    {
      PersonFixed(forms, ages[i], cities[i]);
    }
  }

  lemma PeopleAreRecords(es: seq<Item>, ages: seq<int>, cities: seq<string>)
    requires es == GoodPeople()
    requires ages == [28, 32, 28, 34] && cities == ["ghent", "madrid", "utrecht", "madrid"]
    ensures |ages| == |cities| == |es|
    ensures forall i :: 0 <= i < |es| ==> es[i].value == PersonDict(ages[i], cities[i])
  {
  }

  /** The parsed settings, in declared order: `version` first, then `people`. */
  function GoodParsed(): seq<Item>
  {
    [Item(Version, VInt(1)), Item(People, VDict(GoodPeople()))]
  }

  lemma GoodFileShape(file: seq<Item>)
    requires file == GoodFile()
    ensures Version != People
    ensures Keys(file) == {Version, People}
    ensures Lookup(file, Version) == Some(VInt(1))
    ensures Lookup(file, People) == Some(VDict(GoodPeople()))
  {
    assert Version.s[0] != People.s[0];
    assert file[0].key == People && file[1].key == Version;
    assert file[1..] == [Item(Version, VInt(1))];
  }

  /** `version: 1` passes its bounds and `people` validates to itself. */
  lemma GoodValuesFixed(forms: TextForms)
    ensures Validate(forms, VInt(1), VersionEntry().desc, VersionEntry().cons).result == Ok(VInt(1))
    ensures Validate(forms, VDict(GoodPeople()), PeopleEntry().desc, PeopleEntry().cons).result == Ok(VDict(GoodPeople()))
  {
    assert Coerce(forms, VInt(1), IntK) == Ok(VInt(1));
    assert CheckScalar(VInt(1), VersionEntry().cons) == Ok(VInt(1));
    PeopleFixed(forms);
  }

  lemma GoodEntries(forms: TextForms, file: seq<Item>, schema: seq<Entry>)
    requires file == GoodFile() && schema == [VersionEntry(), PeopleEntry()]
    ensures ValidateEntries(forms, file, schema).result == Ok(GoodParsed())
  {
    GoodSlots(forms, file, schema);
    EntriesFixed(forms, file, schema);
    GoodRestrict(file, schema);
  }

  lemma GoodSlots(forms: TextForms, file: seq<Item>, schema: seq<Entry>)
    requires file == GoodFile() && schema == [VersionEntry(), PeopleEntry()]
    ensures forall i :: 0 <= i < |schema| ==>
      && (schema[i].presence == Mandatory ==> schema[i].key in Keys(file))
      && (schema[i].key in Keys(file) ==>
            Validate(forms, Lookup(file, schema[i].key).value, schema[i].desc, schema[i].cons).result
              == Ok(Lookup(file, schema[i].key).value))
  {
    GoodFileShape(file);
    GoodValuesFixed(forms);
    forall i | 0 <= i < |schema|
      ensures schema[i].key in Keys(file)
      ensures Validate(forms, Lookup(file, schema[i].key).value, schema[i].desc, schema[i].cons).result
                == Ok(Lookup(file, schema[i].key).value)
    {
      if i == 0 {
        assert schema[i] == VersionEntry() && VersionEntry().key == Version;
      } else {
        assert schema[i] == PeopleEntry() && PeopleEntry().key == People;
      }
    }
  }

  lemma GoodRestrict(file: seq<Item>, schema: seq<Entry>)
    requires file == GoodFile() && schema == [VersionEntry(), PeopleEntry()]
    ensures Restrict(schema, file) == GoodParsed()
  {
    GoodFileShape(file);
    assert schema[1..][1..] == [];
    assert Restrict(schema[1..][1..], file) == [];
    assert Restrict(schema[1..], file) == [Item(People, VDict(GoodPeople()))];
  }

  /**
   * The good configuration validates to its own values, with `version`
   * and `people` in declared order.
   */
  lemma GoodConfig(forms: TextForms, s: Settings, file: seq<Item>)
    requires s == GoodSettings() && file == GoodFile()
    ensures ValidateAllValues(forms, s, file).report.result == Ok(VDict(GoodParsed()))
  {
    GoodFileShape(file);
    GoodSchemaKeys();
    GoodEntries(forms, file, s.schema);
    assert ValidateDictValue(forms, VDict(file), s.schema).result == Ok(VDict(GoodParsed()));
  }

  /** As Python dicts, which ignore order, the parsed settings equal the file. */
  lemma GoodParsedIsFile()
    ensures Keys(GoodParsed()) == Keys(GoodFile())
    ensures forall k :: Lookup(GoodParsed(), k) == Lookup(GoodFile(), k)
  {
    GoodFileShape(GoodFile());
    var p := GoodParsed();
    assert p[0].key == Version && p[1].key == People;
    assert p[1..] == [Item(People, VDict(GoodPeople()))];
  }
}
