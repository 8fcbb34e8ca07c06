/**
 * Type descriptors and schema entries: what a `Value`, `NamedValue` and
 * `DictValue` declare about one slot of the configuration.
 */
module Schema {
  import opened Values

  /** The plain Python types a `Value` may name directly. */
  datatype Kind =
    | IntK | FloatK | FractionK | ComplexK | StrK | BoolK | BytesK
    | ListK | TupleK | SetK | DictK

  /** The generic types of the `typing` module. */
  datatype Generic = ListG | SetG | TupleG | DictG | UnionG

  /** The arguments a user-registered type's constructor receives. */
  datatype Args =
    | Single(v: Val)
    | Positional(args: seq<Val>)
    | Named(kwargs: seq<Item>)

  /** A declared type. */
  datatype Desc =
    | Prim(kind: Kind)
      /**
       * A user-registered type: `make` is its constructor (`None` when it
       * raises); with `expandArgs` a list or tuple is passed positionally and
       * a dict by name.
       */
    | Custom(name: string, make: Args -> Option<Val>, expandArgs: bool)
    | ListOf(elem: Desc)
    | SetOf(elem: Desc)
    | TupleOf(elems: seq<Desc>)
    | DictOf(keyType: Desc, valueType: Desc)
    | UnionOf(alts: seq<Desc>)
    | Nested(schema: seq<Entry>)
      /** A generic written without its type arguments, such as a bare `List`. */
    | Bare(generic: Generic)

  /** The `kind` of a `Value`: `Value.mandatory`, `Value.optional` or `Value.exclusive`. */
  datatype Presence = Mandatory | Optional | Exclusive

  /**
   * The keyword arguments of a `Value`. `lenMin`/`lenMax` hold one bound per
   * nesting depth (a single number is a one-element list); `None` at a depth
   * means no bound there, and so does a depth past the end of the list.
   */
  datatype Constraints = Constraints(
    valMin: Option<real>,
    valMax: Option<real>,
    lenMin: seq<Option<nat>>,
    lenMax: seq<Option<nat>>,
    fun: Option<Val -> bool>)

  /** A `NamedValue`: a key with its declared type, presence kind and constraints. */
  datatype Entry = Entry(key: Val, desc: Desc, presence: Presence, cons: Constraints)

  /** `Value(t)` with no keyword arguments. */
  const Unconstrained := Constraints(None, None, [], [], None)

  /** The bound at the outermost depth of a per-depth bound list. */
  function Outer(bounds: seq<Option<nat>>): Option<nat>
  {
    if |bounds| == 0 then None else bounds[0]
  }

  /**
   * The constraints passed to the elements of a container: the value bounds
   * carry over to the elements, the length bounds move one depth down and
   * the user function stays with the outermost value.
   */
  function Inner(c: Constraints): (r: Constraints)
    ensures r.valMin == c.valMin && r.valMax == c.valMax
    ensures r.fun.None?
    ensures forall d :: 0 <= d ==> Outer(Drop(r.lenMax, d)) == Outer(Drop(c.lenMax, d + 1))
    ensures forall d :: 0 <= d ==> Outer(Drop(r.lenMin, d)) == Outer(Drop(c.lenMin, d + 1))
  {
    Constraints(c.valMin, c.valMax, Drop(c.lenMin, 1), Drop(c.lenMax, 1), None)
  }

  /** The bound list seen `d` levels down. */
  function Drop(bounds: seq<Option<nat>>, d: nat): seq<Option<nat>>
  {
    if d >= |bounds| then [] else bounds[d..]
  }

  /** The keys of a schema, in declaration order. */
  function SchemaKeys(schema: seq<Entry>): (ks: set<Val>)
    ensures forall i :: 0 <= i < |schema| ==> schema[i].key in ks
    ensures forall k :: k in ks ==> exists i :: 0 <= i < |schema| && schema[i].key == k
  {
    set i | 0 <= i < |schema| :: schema[i].key
  }

  /** The keys of the entries of one presence kind. */
  function KeysOfKind(schema: seq<Entry>, p: Presence): (ks: set<Val>)
    ensures forall i :: 0 <= i < |schema| && schema[i].presence == p ==> schema[i].key in ks
    ensures forall k :: k in ks ==> exists i :: 0 <= i < |schema| && schema[i].key == k && schema[i].presence == p
  {
    set i | 0 <= i < |schema| && schema[i].presence == p :: schema[i].key
  }

  /** A schema comes from a Python dict, so its keys are distinct. */
  predicate DistinctSchemaKeys(schema: seq<Entry>)
  {
    forall i, j :: 0 <= i < j < |schema| ==> schema[i].key != schema[j].key
  }
}
