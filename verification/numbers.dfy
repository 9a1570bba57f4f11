/** Numeric coercions: `_coerce_total` (main.py:193-197), which rounds an
    amount to cents, and the `int(...)` of the scheduler's interval cell
    (main.py:429-433). */
module Numbers {
  import opened Values
  import opened Text

  /** A decimal number: `digits` / 10^`scale`, with a sign. */
  datatype Decimal = Decimal(negative: bool, digits: nat, scale: nat)

  /** Position of the first `c` in `s`, or `|s|` when there is none. */
  function IndexOf(s: string, c: char): (i: nat)
    ensures i <= |s|
    ensures i < |s| ==> s[i] == c
    ensures forall j :: 0 <= j < i ==> s[j] != c
  {
    if s == [] then 0 else if s[0] == c then 0 else 1 + IndexOf(s[1..], c)
  }

  /** `float(s)` for plain decimal text: surrounding whitespace, an optional
      sign, digits with at most one point and at least one digit. */
  function ParseDecimal(s: string): (r: Option<Decimal>)
  {
    var t := Strip(s);
    var signed := t != [] && (t[0] == '-' || t[0] == '+');
    var body := if signed then t[1..] else t;
    var p := IndexOf(body, '.');
    var whole := body[..p];
    var frac := if p < |body| then body[p + 1..] else "";
    if AllDigits(whole) && AllDigits(frac) && |whole| + |frac| > 0 then
      Some(Decimal(signed && t[0] == '-', DigitsValue(whole + frac), |frac|))
    else None
  }

  lemma {:induction false} Pow10Add(a: nat, b: nat)
    ensures Pow10(a + b) == Pow10(a) * Pow10(b)
  {
    if b > 0 {
      Pow10Add(a, b - 1);
    }
  }

  /** n / d rounded to the nearest integer, ties to even. */
  function RoundDiv(n: nat, d: nat): nat
    requires d >= 1
  {
    var q, r := n / d, n % d;
    if 2 * r > d || (2 * r == d && q % 2 == 1) then q + 1 else q
  }

  /** `round(x, 2)` in cents for x = n / 10^k >= 0. */
  function RoundCents(n: nat, k: nat): nat
  {
    if k <= 2 then n * Pow10(2 - k) else RoundDiv(n, Pow10(k - 2))
  }

  /** Rounding n / d to the nearest integer, ties to even, is off by at most
      half of `d`. */
  lemma RoundDivNearest(n: nat, d: nat)
    requires d >= 1
    ensures var c: int, e: int := RoundDiv(n, d), d;
      -e <= 2 * (c * e - n) <= e
    ensures var c: int, e: int := RoundDiv(n, d), d;
      2 * (c * e - n) == e || 2 * (c * e - n) == -e ==> c % 2 == 0
  {
    var q: int, r: int := n / d, n % d;
    var c: int := RoundDiv(n, d);
    assert n == q * d + r;
    if c == q {
      assert c * d - n == -r;
    } else {
      assert c * d == q * d + d;
      assert c * d - n == d - r;
    }
  }

  lemma MulHundred(a: int, b: int)
    ensures a * (b * 100) == (a * b) * 100
  {
  }

  /** With at most two decimals the amount is already exact in cents. */
  lemma RoundCentsExact(n: nat, k: nat)
    requires k <= 2
    ensures RoundCents(n, k) * Pow10(k) == 100 * n
  {
    var e: int := Pow10(2 - k);
    var p: int := Pow10(k);
    Pow10Add(k, 2 - k);
    assert e * p == 100;
    calc {
      RoundCents(n, k) * p;
      (n * e) * p;
      n * (e * p);
    }
  }

  /** With more than two decimals, the cents are n / 10^(k-2) rounded. */
  lemma RoundCentsLarge(n: nat, k: nat)
    requires k > 2
    ensures var c: int, p: int := RoundCents(n, k), Pow10(k);
      -p <= 2 * (c * p - 100 * n) <= p &&
      (2 * (c * p - 100 * n) == p || 2 * (c * p - 100 * n) == -p ==> c % 2 == 0)
  {
    var c: int := RoundCents(n, k);
    var p: int := Pow10(k);
    var d: int := Pow10(k - 2);
    Pow10Add(k - 2, 2);
    RoundDivNearest(n, d);
    var x := c * d - n;
    assert -d <= 2 * x <= d;
    assert p == d * 100;
    MulHundred(c, d);
  }

  /** The rounded amount is within half a cent of the exact one, and a tie
      goes to the even number of cents. */
  lemma RoundCentsNearest(n: nat, k: nat)
    ensures var c: int, p: int := RoundCents(n, k), Pow10(k);
      -p <= 2 * (c * p - 100 * n) <= p
    ensures var c: int, p: int := RoundCents(n, k), Pow10(k);
      2 * (c * p - 100 * n) == p || 2 * (c * p - 100 * n) == -p ==> c % 2 == 0
  {
    if k <= 2 {
      RoundCentsExact(n, k);
    } else {
      RoundCentsLarge(n, k);
    }
  }

  /** 100 * `x` * 10^scale: the exact value of `x` in cents, scaled to a whole number. */
  function Hundredths(x: Decimal): int
  {
    if x.negative then -100 * x.digits else 100 * x.digits
  }

  /** The value of `x` in cents, rounded half to even. */
  function Cents(x: Decimal): (c: int)
    ensures var p: int := Pow10(x.scale);
      -p <= 2 * (c * p - Hundredths(x)) <= p
  {
    var c: int := RoundCents(x.digits, x.scale);
    RoundCentsNearest(x.digits, x.scale);
    if x.negative then
      MulNeg(c, Pow10(x.scale));
      -c
    else c
  }

  lemma MulNeg(a: int, b: int)
    ensures (-a) * b == -(a * b)
  {
  }

  /** `_coerce_total(val)` (main.py:193-197): the amount in cents, rounded
      half to even; 0 for a missing or non-numeric value. */
  function CoerceTotal(v: Value): int
  {
    match v
    case Null => 0
    case Str(s) => (match ParseDecimal(s) case None => 0 case Some(x) => Cents(x))
    case Num(lit) => (match ParseDecimal(lit) case None => 0 case Some(x) => Cents(x))
  }

  /** A tie between two cents goes to the even one, for either sign. */
  lemma CentsTieEven(x: Decimal)
    ensures var c: int, p: int := Cents(x), Pow10(x.scale);
      2 * (c * p - Hundredths(x)) == p || 2 * (c * p - Hundredths(x)) == -p ==> c % 2 == 0
  {
    var c: int := RoundCents(x.digits, x.scale);
    RoundCentsNearest(x.digits, x.scale);
    if x.negative {
      MulNeg(c, Pow10(x.scale));
    }
  }

  /** What `_coerce_total` promises: a missing or unparsable total is 0; a
      numeric one is its amount in cents, within half a cent of the exact
      value, with a tie going to the even number of cents. */
  lemma CoerceTotalSpec(v: Value)
    ensures v == Null ==> CoerceTotal(v) == 0
    ensures v != Null && ParseDecimal(ToText(v)) == None ==> CoerceTotal(v) == 0
    ensures v != Null && ParseDecimal(ToText(v)).Some? ==>
      var x, c := ParseDecimal(ToText(v)).value, CoerceTotal(v);
      var p: int := Pow10(x.scale);
      && -p <= 2 * (c * p - Hundredths(x)) <= p
      && (2 * (c * p - Hundredths(x)) == p || 2 * (c * p - Hundredths(x)) == -p ==> c % 2 == 0)
  {
    if v != Null && ParseDecimal(ToText(v)).Some? {
      var x := ParseDecimal(ToText(v)).value;
      assert CoerceTotal(v) == Cents(x);
      CentsTieEven(x);
    }
  }

  /** `int(s)` for text: surrounding whitespace, an optional sign, then digits only. */
  function ParseInt(s: string): Option<int>
  {
    var t := Strip(s);
    var signed := t != [] && (t[0] == '-' || t[0] == '+');
    var body := if signed then t[1..] else t;
    if body != [] && AllDigits(body) then
      Some(if signed && t[0] == '-' then -(DigitsValue(body) as int) else DigitsValue(body))
    else None
  }

  /** `int(v)` with the scheduler's fallback to 0 when it raises
      (main.py:430-433); a number is truncated toward zero. */
  function IntOrZero(v: Value): int
  {
    match v
    case Null => 0
    case Str(s) => (match ParseInt(s) case None => 0 case Some(n) => n)
    case Num(lit) =>
      (match ParseDecimal(lit)
       case None => 0
       case Some(x) =>
         var w: int := x.digits / Pow10(x.scale);
         if x.negative then -w else w)
  }
}
