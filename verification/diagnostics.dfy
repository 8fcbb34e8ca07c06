/**
 * The engine's exceptions and warnings as values. Each error kind names the
 * message the Python implementation raises with.
 */
module Diagnostics {
  import opened Values
  import opened Schema

  datatype Error =
      /** "Invalid requested type (List), generic types must contain arguments." */
    | UnparameterizedGeneric(generic: Generic)
      /** "… does not have the right type …" */
    | WrongType(value: Val)
      /** `ValueTypeError`: "Value … of type … cannot be compared to …" */
    | NotComparable(value: Val)
      /** "… cannot be larger than …" (a value bound) */
    | TooLarge(value: Val, bound: real)
      /** "… cannot be smaller than …" (a value bound) */
    | TooSmall(value: Val, bound: real)
      /** "… cannot be larger than …" (a length bound) */
    | TooLong(length: nat, maxLength: nat)
      /** "… cannot be smaller than …" (a length bound) */
    | TooShort(length: nat, minLength: nat)
      /** `len()` raises on a value that has no length. */
    | NoLength(value: Val)
      /** "… does not have any of the right types …" */
    | NoAlternativeMatches(value: Val)
      /** "Tuples must have the same number of sub-types and values." */
    | TupleArity(types: nat, values: nat)
      /** "This type can only validate dictionaries" */
    | OnlyDictionaries(value: Val)
      /** "Setting … (value: …, type: …) does not have the right type" for a dict key or value. */
    | BadDictItem(value: Val, cause: Error)
      /** "… is not valid according to the user function" */
    | RejectedByFunction(value: Val)
      /** "Expected a list or a dictionary" */
    | ExpectedListOrDict(value: Val)
      /** A `NamedValue` was asked to validate something that "is not a dictionary". */
    | NotADictionary(value: Val)
      /** "DictValues can only validate dictionaries" */
    | DictValueNeedsDict(value: Val)
      /** "Setting … not in dictionary" */
    | SettingMissing(key: Val)
      /** "Setting …": the error raised while validating the value of one key. */
    | InSetting(key: Val, cause: Error)
      /** "Only one of the values … can be present at the same time" */
    | OnlyOneOf(keys: set<Val>)
      /** "The first argument must be a dictionary" */
    | FirstArgumentNotDict
      /** `ConfigError`: "Sections that are needed but not present in the file: …" */
    | SectionsMissing(keys: set<Val>)
      /** `ConfigError`: "The settings file is empty or otherwise invalid" */
    | EmptyOrInvalid
      /** `KeyError` from the item facade. */
    | KeyError(name: string)
      /** `AttributeError` from the item facade. */
    | AttributeError(name: string)

  /** Non-fatal `ConfigWarning`s. */
  datatype Warning =
      /** From a `DictValue`: "Some values or sections should not be present in the file" */
    | ExtraValues(keys: set<Val>)
      /** From `Settings.validate_all_values`: "The following values are not recognized:: …" */
    | NotRecognized(keys: set<Val>)

  datatype Result<+T> = Ok(value: T) | Err(error: Error)

  /** A validation outcome together with the warnings emitted on the way, in order. */
  datatype Report<+T> = Report(result: Result<T>, warnings: seq<Warning>)

  function Fail<T>(e: Error): (r: Report<T>)
    ensures r.result == Err(e) && r.warnings == []
  {
    Report(Err(e), [])
  }
}
