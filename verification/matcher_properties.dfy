/**
 * What the Type Matcher promises about containers and unions: element-wise
 * typing in order, exact tuple arity, deduplicated sets, strings that are
 * never taken apart, and first-match-wins unions.
 */
module MatcherProperties {
  import opened Values
  import opened Text
  import opened Schema
  import opened Diagnostics
  import opened Coercion
  import opened Checks
  import opened Matcher

  /**
   * The elements of a list or set are validated one by one against the
   * element type: on success the results keep their positions.
   */
  lemma {:induction false} ItemsOk(forms: TextForms, xs: seq<Val>, t: Desc, c: Constraints)
    ensures var r := ValidateItems(forms, xs, t, c);
      r.result.Ok? ==>
        forall i :: 0 <= i < |xs| ==> Validate(forms, xs[i], t, c).result == Ok(r.result.value[i])
  {
    if |xs| > 0 {
      ItemsOk(forms, xs[1..], t, c);
      assert forall i :: 0 < i < |xs| ==> xs[i] == xs[1..][i - 1];
    }
  }

  /** A list or set fails with the error of its first failing element. */
  lemma {:induction false} ItemsErr(forms: TextForms, xs: seq<Val>, t: Desc, c: Constraints)
    ensures var r := ValidateItems(forms, xs, t, c);
      r.result.Err? ==>
        exists i :: 0 <= i < |xs| && Validate(forms, xs[i], t, c).result == Err(r.result.error)
                 && forall j :: 0 <= j < i ==> Validate(forms, xs[j], t, c).result.Ok?
  {
    if |xs| > 0 {
      var r := ValidateItems(forms, xs, t, c);
      if Validate(forms, xs[0], t, c).result.Ok? && r.result.Err? {
        ItemsErr(forms, xs[1..], t, c);
        var i :| 0 <= i < |xs| - 1 && Validate(forms, xs[1..][i], t, c).result == Err(r.result.error)
               && forall j :: 0 <= j < i ==> Validate(forms, xs[1..][j], t, c).result.Ok?;
        FailureShift(forms, xs, t, c, r.result.error, i);
      }
    }
  }

  /** A first failure in the tail, behind a successful head, is a first failure of the whole. */
  lemma FailureShift(forms: TextForms, xs: seq<Val>, t: Desc, c: Constraints, e: Error, i: nat)
    requires 0 < |xs| && i < |xs| - 1 && Validate(forms, xs[0], t, c).result.Ok?
    requires Validate(forms, xs[1..][i], t, c).result == Err(e)
    requires forall j :: 0 <= j < i ==> Validate(forms, xs[1..][j], t, c).result.Ok?
    ensures Validate(forms, xs[i + 1], t, c).result == Err(e)
    ensures forall j :: 0 <= j < i + 1 ==> Validate(forms, xs[j], t, c).result.Ok?
  {
    assert xs[i + 1] == xs[1..][i];
    assert forall j :: 1 <= j < i + 1 ==> xs[j] == xs[1..][j - 1];
  }

  /**
   * The converse: when every element before position i validates and the
   * i-th fails, the list or set fails with that element's error.
   */
  lemma {:induction false} ItemsFirstErr(forms: TextForms, xs: seq<Val>, t: Desc, c: Constraints, i: nat)
    requires i < |xs| && Validate(forms, xs[i], t, c).result.Err?
    requires forall j :: 0 <= j < i ==> Validate(forms, xs[j], t, c).result.Ok?
    ensures ValidateItems(forms, xs, t, c).result == Err(Validate(forms, xs[i], t, c).result.error)
  {
    if i > 0 {
      var rest := xs[1..];
      assert rest[i - 1] == xs[i];
      assert forall j :: 0 <= j < i - 1 ==> rest[j] == xs[j + 1];
      ItemsFirstErr(forms, rest, t, c, i - 1);
      assert Validate(forms, xs[0], t, c).result.Ok?;
    }
  }

  /** A list or set whose every element validates succeeds. */
  lemma {:induction false} ItemsAllOk(forms: TextForms, xs: seq<Val>, t: Desc, c: Constraints)
    requires forall i :: 0 <= i < |xs| ==> Validate(forms, xs[i], t, c).result.Ok?
    ensures ValidateItems(forms, xs, t, c).result.Ok?
  {
    if |xs| > 0 {
      assert forall i :: 0 <= i < |xs| - 1 ==> xs[1..][i] == xs[i + 1];
      ItemsAllOk(forms, xs[1..], t, c);
    }
  }

  /**
   * `List[T]` on a list, tuple or set gives a list of the same length whose
   * elements are the inputs validated against `T` one level down, and the
   * list passes the length bounds and the user function.
   */
  lemma ListTyping(forms: TextForms, v: Val, t: Desc, c: Constraints)
    ensures var r := Validate(forms, v, ListOf(t), c);
      r.result.Ok? ==>
        && IsSequence(v)
        && r.result.value.VList?
        && |r.result.value.items| == |v.items|
        && (forall i :: 0 <= i < |v.items| ==>
              Validate(forms, v.items[i], t, Inner(c)).result == Ok(r.result.value.items[i]))
        && CheckLength(r.result.value, c).Ok? && CheckFunction(r.result.value, c).Ok?
    ensures IsSequence(v) && Outer(c.lenMin).None? && Outer(c.lenMax).None? && c.fun.None? &&
            (forall i :: 0 <= i < |v.items| ==> Validate(forms, v.items[i], t, Inner(c)).result.Ok?) ==>
              Validate(forms, v, ListOf(t), c).result.Ok?
  {
    if IsSequence(v) {
      ItemsOk(forms, v.items, t, Inner(c));
      if forall i :: 0 <= i < |v.items| ==> Validate(forms, v.items[i], t, Inner(c)).result.Ok? {
        ItemsAllOk(forms, v.items, t, Inner(c));
      }
    }
  }

  /** A string (or bytes) is never exploded into a sequence of characters. */
  lemma StringsAreNotSequences(forms: TextForms, v: Val, t: Desc, ts: seq<Desc>, c: Constraints)
    requires v.VStr? || v.VBytes?
    ensures Validate(forms, v, ListOf(t), c).result == Err(WrongType(v))
    ensures Validate(forms, v, SetOf(t), c).result == Err(WrongType(v))
    ensures Validate(forms, v, TupleOf(ts), c).result == Err(WrongType(v))
  {
  }

  /** The elements of a tuple are validated position by position, each against its own type. */
  lemma {:induction false} TuplePointwise(forms: TextForms, xs: seq<Val>, ts: seq<Desc>, c: Constraints)
    requires |xs| == |ts|
    ensures var r := ValidateTuple(forms, xs, ts, c);
      r.result.Ok? <==> forall i :: 0 <= i < |xs| ==> Validate(forms, xs[i], ts[i], c).result.Ok?
    ensures var r := ValidateTuple(forms, xs, ts, c);
      r.result.Ok? ==>
        forall i :: 0 <= i < |xs| ==> Validate(forms, xs[i], ts[i], c).result == Ok(r.result.value[i])
  {
    if |xs| > 0 {
      TuplePointwise(forms, xs[1..], ts[1..], c);
      assert forall i :: 0 <= i < |xs| - 1 ==> xs[1..][i] == xs[i + 1] && ts[1..][i] == ts[i + 1];
    }
  }

  /**
   * `Tuple[T1, ..., Tn]` needs exactly n values: any other number fails with
   * the arity error; with n values the result is a tuple of n values, the
   * i-th validated against `Ti`.
   */
  lemma TupleTyping(forms: TextForms, v: Val, ts: seq<Desc>, c: Constraints)
    requires IsSequence(v)
    ensures |v.items| != |ts| ==> Validate(forms, v, TupleOf(ts), c) == Fail(TupleArity(|ts|, |v.items|))
    ensures var r := Validate(forms, v, TupleOf(ts), c);
      r.result.Ok? ==>
        && |v.items| == |ts|
        && r.result.value.VTuple?
        && |r.result.value.items| == |ts|
        && forall i :: 0 <= i < |ts| ==>
             Validate(forms, v.items[i], ts[i], Inner(c)).result == Ok(r.result.value.items[i])
  {
    if |v.items| == |ts| {
      TuplePointwise(forms, v.items, ts, Inner(c));
    }
  }

  /**
   * `Set[T]` holds each validated element once: no duplicates, and a value
   * is in the set exactly when some input element validates to it.
   */
  lemma SetTyping(forms: TextForms, v: Val, t: Desc, c: Constraints)
    ensures var r := Validate(forms, v, SetOf(t), c);
      r.result.Ok? ==>
        && IsSequence(v)
        && r.result.value.VSet?
        && NoDuplicates(r.result.value.items)
        && |r.result.value.items| <= |v.items|
        && forall x :: x in r.result.value.items <==>
             exists i :: 0 <= i < |v.items| && Validate(forms, v.items[i], t, Inner(c)).result == Ok(x)
  {
    var r := Validate(forms, v, SetOf(t), c);
    if r.result.Ok? {
      var items := ValidateItems(forms, v.items, t, Inner(c));
      ItemsOk(forms, v.items, t, Inner(c));
      var ys := items.result.value;
      assert r.result.value == VSet(Dedup(ys));
      forall x
        ensures x in r.result.value.items <==>
          exists i :: 0 <= i < |v.items| && Validate(forms, v.items[i], t, Inner(c)).result == Ok(x)
      {
        if x in ys {
          var i :| 0 <= i < |ys| && ys[i] == x;
          assert Validate(forms, v.items[i], t, Inner(c)).result == Ok(x);
        }
      }
    }
  }

  /**
   * `Union[T1, ..., Tn]` tries the alternatives in declared order with the
   * same constraints: it succeeds with the result of the first alternative
   * that succeeds, every earlier one having failed, and it fails with "does
   * not have any of the right types" exactly when every alternative fails.
   */
  lemma UnionFirstMatch(forms: TextForms, v: Val, ts: seq<Desc>, c: Constraints)
    ensures var r := FirstMatch(forms, v, ts, c);
      r.result.Ok? <==> exists i :: 0 <= i < |ts| && Validate(forms, v, ts[i], c).result.Ok?
    ensures var r := FirstMatch(forms, v, ts, c);
      r.result.Ok? ==>
        exists i :: 0 <= i < |ts| && Validate(forms, v, ts[i], c).result == r.result
                 && forall j :: 0 <= j < i ==> Validate(forms, v, ts[j], c).result.Err?
    ensures var r := FirstMatch(forms, v, ts, c);
      r.result.Err? ==> r.result.error == NoAlternativeMatches(v)
  {
    FirstMatchFound(forms, v, ts, c);
    FirstMatchSomeOk(forms, v, ts, c);
    FirstMatchNone(forms, v, ts, c);
  }

  /** A successful union names the first alternative that succeeds. */
  lemma {:induction false} FirstMatchFound(forms: TextForms, v: Val, ts: seq<Desc>, c: Constraints)
    ensures var r := FirstMatch(forms, v, ts, c);
      r.result.Ok? ==>
        exists i :: 0 <= i < |ts| && Validate(forms, v, ts[i], c).result == r.result
                 && forall j :: 0 <= j < i ==> Validate(forms, v, ts[j], c).result.Err?
  {
    var r := FirstMatch(forms, v, ts, c);
    if |ts| > 0 && r.result.Ok? && Validate(forms, v, ts[0], c).result.Err? {
      FirstMatchFound(forms, v, ts[1..], c);
      var i :| 0 <= i < |ts| - 1 && Validate(forms, v, ts[1..][i], c).result == r.result
             && forall j :: 0 <= j < i ==> Validate(forms, v, ts[1..][j], c).result.Err?;
      MatchShift(forms, v, ts, c, r.result, i);
    }
  }

  /** A first match among the later alternatives, behind a failing first one, is a first match of all. */
  lemma MatchShift(forms: TextForms, v: Val, ts: seq<Desc>, c: Constraints, res: Result<Val>, i: nat)
    requires 0 < |ts| && i < |ts| - 1 && Validate(forms, v, ts[0], c).result.Err?
    requires Validate(forms, v, ts[1..][i], c).result == res
    requires forall j :: 0 <= j < i ==> Validate(forms, v, ts[1..][j], c).result.Err?
    ensures Validate(forms, v, ts[i + 1], c).result == res
    ensures forall j :: 0 <= j < i + 1 ==> Validate(forms, v, ts[j], c).result.Err?
  {
    assert ts[i + 1] == ts[1..][i];
    assert forall j :: 1 <= j < i + 1 ==> ts[j] == ts[1..][j - 1];
  }

  /** A union succeeds when any one alternative succeeds. */
  lemma {:induction false} FirstMatchSomeOk(forms: TextForms, v: Val, ts: seq<Desc>, c: Constraints)
    ensures (exists i :: 0 <= i < |ts| && Validate(forms, v, ts[i], c).result.Ok?) ==>
      FirstMatch(forms, v, ts, c).result.Ok?
  {
    if |ts| > 0 && Validate(forms, v, ts[0], c).result.Err? {
      FirstMatchSomeOk(forms, v, ts[1..], c);
      assert forall j :: 0 < j < |ts| ==> ts[1..][j - 1] == ts[j];
    }
  }

  /** A failing union always reports that no alternative matched. */
  lemma {:induction false} FirstMatchNone(forms: TextForms, v: Val, ts: seq<Desc>, c: Constraints)
    ensures var r := FirstMatch(forms, v, ts, c);
      r.result.Err? ==> r.result.error == NoAlternativeMatches(v)
  {
    if |ts| > 0 {
      FirstMatchNone(forms, v, ts[1..], c);
    }
  }

  /** The same, stated for the declared type `Union[...]` itself. */
  lemma UnionTyping(forms: TextForms, v: Val, ts: seq<Desc>, c: Constraints)
    ensures var r := Validate(forms, v, UnionOf(ts), c);
      r.result.Ok? <==> exists i :: 0 <= i < |ts| && Validate(forms, v, ts[i], c).result.Ok?
    ensures var r := Validate(forms, v, UnionOf(ts), c);
      r.result.Ok? ==>
        exists i :: 0 <= i < |ts| && Validate(forms, v, ts[i], c).result == r.result
                 && forall j :: 0 <= j < i ==> Validate(forms, v, ts[j], c).result.Err?
    ensures var r := Validate(forms, v, UnionOf(ts), c);
      r.result.Err? ==> r.result.error == NoAlternativeMatches(v)
  {
    UnionFirstMatch(forms, v, ts, c);
  }

  /**
   * A value validated against its own exact plain type comes back unchanged,
   * with the same type and no warning: a bool stays a bool, a tuple a tuple.
   */
  lemma ExactTypeKept(forms: TextForms, v: Val, k: Kind)
    requires OfKind(v, k)
    ensures Validate(forms, v, Prim(k), Unconstrained) == Report(Ok(v), [])
  {
    assert Coerce(forms, v, k) == Ok(v);
  }
}
