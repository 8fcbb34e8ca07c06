/**
 * Text forms of values: Python's `str(x)` and the parse of a numeric
 * literal by `int(s)`, `float(s)`, `Fraction(s)` and `complex(s)`.
 *
 * Integers, booleans, None and strings are rendered and parsed here.
 * The textual forms of floats, Fractions, complex numbers, bytes and
 * containers belong to the Python runtime and are supplied by the caller
 * as a `TextForms` record.
 */
module Text {
  import opened Values

  /** The runtime's text conversions that the engine does not define itself. */
  datatype TextForms = TextForms(
    /** `str(v)` for a float, Fraction, complex, bytes, container or object. */
    render: Val -> string,
    /** `float(s)`, or `None` when Python raises. */
    parseFloat: string -> Option<real>,
    /** `Fraction(s)`, or `None` when Python raises. */
    parseFraction: string -> Option<real>,
    /** `complex(s)` as (real part, imaginary part), or `None` when Python raises. */
    parseComplex: string -> Option<(real, real)>)

  predicate IsDigit(c: char)
  {
    '0' <= c <= '9'
  }

  function DigitChar(d: nat): (c: char)
    requires d < 10
    ensures IsDigit(c)
  {
    "0123456789"[d]
  }

  function DigitValue(c: char): (d: nat)
    requires IsDigit(c)
    ensures d < 10
  {
    (c as int - '0' as int) as nat
  }

  predicate AllDigits(s: string)
  {
    forall i :: 0 <= i < |s| ==> IsDigit(s[i])
  }

  /** A run of decimal digits with no leading zero, except the single digit `0`. */
  predicate Canonical(d: string)
  {
    |d| > 0 && AllDigits(d) && (d[0] == '0' ==> |d| == 1)
  }

  /** The text Python prints for an int: a canonical digit run, with `-` in front exactly when negative. */
  predicate IntLiteral(s: string)
  {
    |s| > 0 && if s[0] == '-' then Canonical(s[1..]) && s[1..] != "0" else Canonical(s)
  }

  /** Decimal digits of a natural number, most significant first, no leading zeros. */
  function ShowNat(n: nat): (s: string)
    ensures Canonical(s)
    ensures s[0] == '0' <==> n == 0
  {
    if n < 10 then [DigitChar(n)] else ShowNat(n / 10) + [DigitChar(n % 10)]
  }

  /** Python's `str(n)` for an int. */
  function ShowInt(n: int): (s: string)
    ensures IntLiteral(s)
    ensures s[0] == '-' <==> n < 0
  {
    if n < 0 then "-" + ShowNat(-n) else ShowNat(n)
  }

  /** The number a non-empty run of decimal digits denotes. */
  function DigitsValue(s: string): nat
    requires AllDigits(s)
  {
    if |s| == 0 then 0
    else DigitsValue(s[..|s| - 1]) * 10 + DigitValue(s[|s| - 1])
  }

  /**
   * Python's `int(s)` on a string: an optional sign followed by one or more
   * decimal digits; anything else (a decimal point, an exponent, an empty
   * string) makes `int` raise, which is `None` here.
   */
  function ParseInt(s: string): (r: Option<int>)
    ensures r.Some? ==> |s| > 0
    ensures (exists i :: 0 <= i < |s| && s[i] == '.') ==> r.None?
  {
    var signed := |s| > 0 && (s[0] == '-' || s[0] == '+');
    var negative := |s| > 0 && s[0] == '-';
    var digits := if signed then s[1..] else s;
    if |digits| > 0 && AllDigits(digits) then
      var magnitude: int := DigitsValue(digits);
      Some(if negative then -magnitude else magnitude)
    else None
  }

  lemma {:induction false} DigitsOfShowNat(n: nat)
    ensures AllDigits(ShowNat(n))
    ensures DigitsValue(ShowNat(n)) == n
  {
    if n >= 10 {
      DigitsOfShowNat(n / 10);
      var s := ShowNat(n);
      assert s[..|s| - 1] == ShowNat(n / 10);
    } else {
      assert "0123456789"[n] as int - '0' as int == n;
    }
  }

  /** Parsing the text of an int gives the int back: `int(str(n)) == n`. */
  lemma {:induction false} ParseShowInt(n: int)
    ensures ParseInt(ShowInt(n)) == Some(n)
  {
    var s := ShowInt(n);
    if n < 0 {
      DigitsOfShowNat(-n);
      assert s[0] == '-';
      assert s[1..] == ShowNat(-n);
    } else {
      DigitsOfShowNat(n);
      assert s == ShowNat(n);
      assert IsDigit(s[0]);
    }
  }

  lemma {:induction false} PositiveDigits(d: string)
    requires |d| > 0 && AllDigits(d) && d[0] != '0'
    ensures DigitsValue(d) >= 1
  {
    if |d| > 1 {
      PositiveDigits(d[..|d| - 1]);
    }
  }

  lemma DigitRoundTrip(c: char)
    requires IsDigit(c)
    ensures DigitChar(DigitValue(c)) == c
  {
    var n := DigitValue(c);
    assert "0123456789"[n] as int - '0' as int == n;
  }

  /** A canonical digit run is the text of the number it denotes. */
  lemma {:induction false} ShowDigitsValue(d: string)
    requires Canonical(d)
    ensures ShowNat(DigitsValue(d)) == d
  {
    var last := d[|d| - 1];
    DigitRoundTrip(last);
    if |d| == 1 {
      assert d[..0] == [];
      assert d == [last];
    } else {
      var p := d[..|d| - 1];
      assert p[0] == d[0];
      PositiveDigits(p);
      ShowDigitsValue(p);
      var n := DigitsValue(d);
      assert n == DigitsValue(p) * 10 + DigitValue(last);
      assert n / 10 == DigitsValue(p) && n % 10 == DigitValue(last);
      assert ShowNat(n) == ShowNat(n / 10) + [DigitChar(n % 10)];
      assert d == p + [last];
    }
  }

  /**
   * The text of an int is the only canonical literal of it: a literal that
   * reads back as `n` with no sign but `-` and no leading zero is `str(n)`.
   */
  lemma LiteralUnique(s: string, n: int)
    requires IntLiteral(s) && ParseInt(s) == Some(n)
    ensures s == ShowInt(n)
  {
    if s[0] == '-' {
      var d := s[1..];
      assert d[0] != '0';
      PositiveDigits(d);
      ShowDigitsValue(d);
      assert s == "-" + d;
    } else {
      assert IsDigit(s[0]);
      ShowDigitsValue(s);
    }
  }

  /** Python's `str(v)`: the identity on strings, concrete for None, bools and ints, the runtime's text otherwise. */
  function Str(forms: TextForms, v: Val): (s: string)
    ensures v.VStr? ==> s == v.s
    // `str(n)` is the canonical literal of `n`, which `LiteralUnique` shows is only one text
    ensures v.VInt? ==> IntLiteral(s) && ParseInt(s) == Some(v.i)
    ensures v.VBool? ==> s == (if v.b then "True" else "False")
  {
    match v
    case VNone => "None"
    case VBool(b) => if b then "True" else "False"
    case VInt(i) => ParseShowInt(i); ShowInt(i)
    case VStr(s) => s
    case _ => forms.render(v)
  }
}
