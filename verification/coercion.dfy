/**
 * The Type Coercer: converts one value to one plain Python type, the way
 * `Value.validate` calls the type's constructor on the value.
 */
module Coercion {
  import opened Values
  import opened Text
  import opened Schema
  import opened Diagnostics

  /** `type(v) is k`: the value already has exactly the requested type. */
  predicate OfKind(v: Val, k: Kind)
  {
    match k
    case IntK => v.VInt?
    case FloatK => v.VFloat?
    case FractionK => v.VFraction?
    case ComplexK => v.VComplex?
    case StrK => v.VStr?
    case BoolK => v.VBool?
    case BytesK => v.VBytes?
    case ListK => v.VList?
    case TupleK => v.VTuple?
    case SetK => v.VSet?
    case DictK => v.VDict?
  }

  /** The elements of a list, tuple or set. */
  function Elements(v: Val): seq<Val>
    requires IsSequence(v)
  {
    v.items
  }

  /**
   * `k(v)`, with the exact-type fast path first. A constructor that raises
   * becomes `WrongType(v)`, "does not have the right type". Bytes are only
   * kept, never built, and containers are only built from lists, tuples and
   * sets: strings and dicts are not taken apart, and `dict` only keeps a dict.
   */
  function Coerce(forms: TextForms, v: Val, k: Kind): (r: Result<Val>)
    // the fast path: a value of exactly the requested type is returned unchanged
    ensures OfKind(v, k) ==> r == Ok(v)
    // a success always has exactly the requested type; a failure always names the value
    ensures r.Ok? ==> OfKind(r.value, k)
    ensures r.Err? ==> r.error == WrongType(v)
    // `str(v)` never fails
    ensures k == StrK ==> r == Ok(VStr(Str(forms, v)))
    // bytes only come from bytes
    ensures k == BytesK ==> (r.Ok? <==> v.VBytes?)
    // complex numbers never become real numbers
    ensures v.VComplex? && (k == IntK || k == FloatK || k == FractionK) ==> r.Err?
    // `int(s)` accepts exactly the integer literals
    ensures k == IntK && v.VStr? ==> (r.Ok? <==> ParseInt(v.s).Some?)
    ensures k == IntK && v.VStr? && r.Ok? ==> r.value == VInt(ParseInt(v.s).value)
    // `int(x)` truncates a float or Fraction toward zero, reads a bool as 0 or 1, and refuses the rest
    ensures k == IntK && (v.VFloat? || v.VFraction?) ==> r == Ok(VInt(Trunc(Numeric(v).value)))
    ensures k == IntK && v.VBool? ==> r == Ok(VInt(if v.b then 1 else 0))
    ensures k == IntK && !(v.VInt? || v.VBool? || v.VFloat? || v.VFraction? || v.VStr?) ==> r.Err?
    // `float`, `Fraction` and `complex` of a number keep its value; of text they use the runtime's reading
    ensures k == FloatK && !v.VStr? ==> (r.Ok? <==> Numeric(v).Some?)
    ensures k == FloatK && !v.VStr? && r.Ok? ==> r.value == VFloat(Numeric(v).value)
    ensures k == FloatK && v.VStr? ==>
              (r.Ok? <==> forms.parseFloat(v.s).Some?) && (r.Ok? ==> r.value == VFloat(forms.parseFloat(v.s).value))
    ensures k == FractionK && !v.VStr? ==> (r.Ok? <==> Numeric(v).Some?)
    ensures k == FractionK && !v.VStr? && r.Ok? ==> r.value == VFraction(Numeric(v).value)
    ensures k == FractionK && v.VStr? ==>
              (r.Ok? <==> forms.parseFraction(v.s).Some?) && (r.Ok? ==> r.value == VFraction(forms.parseFraction(v.s).value))
    ensures k == ComplexK && !v.VStr? && !v.VComplex? ==> (r.Ok? <==> Numeric(v).Some?)
    ensures k == ComplexK && !v.VStr? && !v.VComplex? && r.Ok? ==> r.value == VComplex(Numeric(v).value, 0.0)
    ensures k == ComplexK && v.VStr? ==>
              (r.Ok? <==> forms.parseComplex(v.s).Some?) &&
              (r.Ok? ==> r.value == VComplex(forms.parseComplex(v.s).value.0, forms.parseComplex(v.s).value.1))
    // `bool(v)` is the value's truthiness and never fails
    ensures k == BoolK ==> r == Ok(VBool(Truthy(v)))
    // `list`, `tuple` and `set` take the elements of a list, tuple or set, and nothing else
    ensures (k == ListK || k == TupleK || k == SetK) ==> (r.Ok? <==> IsSequence(v))
    ensures k == ListK && r.Ok? ==> r.value == VList(v.items)
    ensures k == TupleK && r.Ok? ==> r.value == VTuple(v.items)
    ensures k == SetK && r.Ok? ==> forall x :: x in r.value.items <==> x in v.items
    ensures k == SetK && r.Ok? && !v.VSet? ==> r.value == VSet(Dedup(v.items))
    // `dict` only keeps a dict
    ensures k == DictK ==> (r.Ok? <==> v.VDict?)
    // strings and bytes are never taken apart into containers
    ensures (v.VStr? || v.VBytes?) && (k == ListK || k == TupleK || k == SetK || k == DictK) ==> r.Err?
  {
    if OfKind(v, k) then Ok(v)
    else
      match k
      case IntK =>
        (match v
         case VBool(b) => Ok(VInt(if b then 1 else 0))
         case VFloat(f) => Ok(VInt(Trunc(f)))
         case VFraction(q) => Ok(VInt(Trunc(q)))
         case VStr(s) => if ParseInt(s).Some? then Ok(VInt(ParseInt(s).value)) else Err(WrongType(v))
         case _ => Err(WrongType(v)))
      case FloatK =>
        if v.VStr? then
          (match forms.parseFloat(v.s) case Some(x) => Ok(VFloat(x)) case None => Err(WrongType(v)))
        else if Numeric(v).Some? then Ok(VFloat(Numeric(v).value))
        else Err(WrongType(v))
      case FractionK =>
        if v.VStr? then
          (match forms.parseFraction(v.s) case Some(x) => Ok(VFraction(x)) case None => Err(WrongType(v)))
        else if Numeric(v).Some? then Ok(VFraction(Numeric(v).value))
        else Err(WrongType(v))
      case ComplexK =>
        if v.VStr? then
          (match forms.parseComplex(v.s) case Some(z) => Ok(VComplex(z.0, z.1)) case None => Err(WrongType(v)))
        else if Numeric(v).Some? then Ok(VComplex(Numeric(v).value, 0.0))
        else Err(WrongType(v))
      case StrK => Ok(VStr(Str(forms, v)))
      case BoolK => Ok(VBool(Truthy(v)))
      case BytesK => Err(WrongType(v))
      case ListK => if IsSequence(v) then Ok(VList(Elements(v))) else Err(WrongType(v))
      case TupleK => if IsSequence(v) then Ok(VTuple(Elements(v))) else Err(WrongType(v))
      case SetK => if IsSequence(v) then Ok(VSet(Dedup(Elements(v)))) else Err(WrongType(v))
      case DictK => Err(WrongType(v))
  }

  /**
   * A user-registered type: a value already of that type is kept; otherwise
   * the constructor gets the value itself, or, with argument expansion, the
   * elements of a list or tuple positionally or the items of a dict by name.
   */
  function Construct(v: Val, name: string, make: Args -> Option<Val>, expandArgs: bool): (r: Result<Val>)
    ensures v.VObject? && v.tag == name ==> r == Ok(v)
    ensures expandArgs && !(v.VObject? && v.tag == name) && !(v.VList? || v.VTuple? || v.VDict?) ==>
              r == Err(ExpectedListOrDict(v))
    ensures !expandArgs && !(v.VObject? && v.tag == name) ==>
              (r.Ok? <==> make(Single(v)).Some?)
  {
    if v.VObject? && v.tag == name then Ok(v)
    else if expandArgs && !(v.VList? || v.VTuple? || v.VDict?) then Err(ExpectedListOrDict(v))
    else
      var args :=
        if !expandArgs then Single(v)
        else if v.VDict? then Named(v.entries)
        else Positional(v.items);
      match make(args)
      case None => Err(WrongType(v))
      case Some(w) => Ok(w)
  }

  /** `str` then `int` gives back the int: `int(str(n)) == n`. */
  lemma StrIntRoundTrip(forms: TextForms, n: int)
    ensures Coerce(forms, VInt(n), StrK).Ok?
    ensures Coerce(forms, Coerce(forms, VInt(n), StrK).value, IntK) == Ok(VInt(n))
  {
  }
}
