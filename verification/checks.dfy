/**
 * The Constraint Checker: the value bounds, the length bounds and the user
 * function of a `Value`, applied to an already coerced value.
 */
module Checks {
  import opened Values
  import opened Schema
  import opened Diagnostics

  /**
   * `val_min` / `val_max`, both inclusive. A bound on a value Python cannot
   * order against a number is a `ValueTypeError`, not a silent pass.
   */
  function CheckValue(v: Val, c: Constraints): (r: Result<Val>)
    ensures r.Ok? ==> r.value == v
    ensures c.valMin.None? && c.valMax.None? ==> r.Ok?
    ensures (c.valMin.Some? || c.valMax.Some?) && Numeric(v).None? ==> r == Err(NotComparable(v))
    ensures Numeric(v).Some? ==>
              (r.Ok? <==> ((c.valMin.None? || c.valMin.value <= Numeric(v).value)
                           && (c.valMax.None? || Numeric(v).value <= c.valMax.value)))
    ensures r.Err? && r.error.TooLarge? ==> c.valMax == Some(r.error.bound) && Numeric(v).value > r.error.bound
    ensures r.Err? && r.error.TooSmall? ==> c.valMin == Some(r.error.bound) && Numeric(v).value < r.error.bound
  {
    if c.valMin.None? && c.valMax.None? then Ok(v)
    else match Numeric(v)
      case None => Err(NotComparable(v))
      case Some(x) =>
        if c.valMax.Some? && x > c.valMax.value then Err(TooLarge(v, c.valMax.value))
        else if c.valMin.Some? && x < c.valMin.value then Err(TooSmall(v, c.valMin.value))
        else Ok(v)
  }

  /** `len_min` / `len_max` at the outermost depth, both inclusive. */
  function CheckLength(v: Val, c: Constraints): (r: Result<Val>)
    ensures r.Ok? ==> r.value == v
    ensures Outer(c.lenMin).None? && Outer(c.lenMax).None? ==> r.Ok?
    ensures (Outer(c.lenMin).Some? || Outer(c.lenMax).Some?) && Size(v).None? ==> r == Err(NoLength(v))
    ensures Size(v).Some? ==>
              (r.Ok? <==> ((Outer(c.lenMin).None? || Outer(c.lenMin).value <= Size(v).value)
                           && (Outer(c.lenMax).None? || Size(v).value <= Outer(c.lenMax).value)))
    ensures r.Err? && r.error.TooLong? ==> Outer(c.lenMax) == Some(r.error.maxLength) && r.error.length == Size(v).value > r.error.maxLength
    ensures r.Err? && r.error.TooShort? ==> Outer(c.lenMin) == Some(r.error.minLength) && r.error.length == Size(v).value < r.error.minLength
  {
    var lo, hi := Outer(c.lenMin), Outer(c.lenMax);
    if lo.None? && hi.None? then Ok(v)
    else match Size(v)
      case None => Err(NoLength(v))
      case Some(n) =>
        if hi.Some? && n > hi.value then Err(TooLong(n, hi.value))
        else if lo.Some? && n < lo.value then Err(TooShort(n, lo.value))
        else Ok(v)
  }

  /** `fun`: the user function, run last. */
  function CheckFunction(v: Val, c: Constraints): (r: Result<Val>)
    ensures r.Ok? ==> r.value == v
    ensures r.Ok? <==> c.fun.None? || c.fun.value(v)
    ensures r.Err? ==> r.error == RejectedByFunction(v)
  {
    if c.fun.Some? && !c.fun.value(v) then Err(RejectedByFunction(v)) else Ok(v)
  }

  /** The checks that follow the typing of any value: length bounds, then the user function. */
  function Finish(v: Val, c: Constraints): (r: Result<Val>)
    ensures r.Ok? ==> r.value == v
    ensures r.Ok? <==> CheckLength(v, c).Ok? && CheckFunction(v, c).Ok?
    ensures CheckLength(v, c).Err? ==> r == CheckLength(v, c)
  {
    if CheckLength(v, c).Err? then CheckLength(v, c) else CheckFunction(v, c)
  }

  /** The checks of a scalar value, in their fixed order: value bounds, length bounds, user function. */
  function CheckScalar(v: Val, c: Constraints): (r: Result<Val>)
    ensures r.Ok? ==> r.value == v
    ensures r.Ok? <==> CheckValue(v, c).Ok? && CheckLength(v, c).Ok? && CheckFunction(v, c).Ok?
    ensures CheckValue(v, c).Err? ==> r == CheckValue(v, c)
  {
    if CheckValue(v, c).Err? then CheckValue(v, c) else Finish(v, c)
  }
}
