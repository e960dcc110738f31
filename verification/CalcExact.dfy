// The calculator over exact arithmetic: what a text of literals and operations evaluates to, by school rules.
module CalcExact {
  import opened CString
  import opened CalcParse
  import opened CalcTree

  function Power10(k: nat): (p: real)
    ensures p > 0.0
  {
    if k == 0 then 1.0 else 10.0 * Power10(k - 1)
  }

  // The source's floats without their rounding.
  function Exact(): Arith<real>
  {
    Arith(0.0,
          (n: real, d: nat) => 10.0 * n + d as real,
          (n: real, d: nat, place: nat) => n + d as real / Power10(place),
          (n: real) => -n,
          (l: real, r: real) => l + r,
          (l: real, r: real) => l - r,
          (l: real, r: real) => l * r,
          (l: real, r: real) => Quotient(l, r),
          (n: real) => n == 0.0)
  }

  function Quotient(l: real, r: real): real { if r == 0.0 then 0.0 else l / r }

  // The number that decimal digits denote.
  function Natural(digits: string): nat
    requires AllDigits(digits)
  {
    if digits == "" then 0
    else 10 * Natural(digits[..|digits| - 1]) + (digits[|digits| - 1] as int - '0' as int)
  }

  // A literal w.f is w + f / 10^|f|; trees add, subtract, multiply and divide.
  function RealValue(t: Tree): real
    requires Literals(t)
  {
    match t
    case Lit(_, negative, _, whole, point, frac) =>
      var n := Natural(whole) as real + if point then Natural(frac) as real / Power10(|frac|) else 0.0;
      if negative then -n else n
    case Group(_, inner, _) => RealValue(inner)
    case Bin(l, _, op, r) =>
      match op
      case Add => RealValue(l) + RealValue(r)
      case Sub => RealValue(l) - RealValue(r)
      case Mul => RealValue(l) * RealValue(r)
      case Div => Quotient(RealValue(l), RealValue(r))
  }

  // No divisor in the tree is zero.
  predicate Defined(t: Tree)
    requires Literals(t)
  {
    match t
    case Lit(_, _, _, _, _, _) => true
    case Group(_, inner, _) => Defined(inner)
    case Bin(l, _, op, r) => Defined(l) && Defined(r) && (op == Div ==> RealValue(r) != 0.0)
  }

  lemma {:induction false} WholeIsNatural(s: string)
    requires AllDigits(s)
    ensures WholeValue(Exact(), s) == Natural(s) as real
    decreases |s|
  {
    if s != "" {
      WholeIsNatural(s[..|s| - 1]);
    }
  }

  lemma {:induction false} FractionIsNatural(s: string, n: real)
    requires AllDigits(s)
    ensures FractionValue(Exact(), s, n) == n + Natural(s) as real / Power10(|s|)
    decreases |s|
  {
    if s != "" {
      var k := |s| - 1;
      FractionIsNatural(s[..k], n);
      NextPlace(Natural(s[..k]) as real, (s[k] as int - '0' as int) as real, Power10(k));
    }
  }

  lemma NextPlace(x: real, d: real, p: real)
    requires p > 0.0
    ensures x / p + d / (10.0 * p) == (10.0 * x + d) / (10.0 * p)
  {
    assert x / p == 10.0 * x / (10.0 * p);
  }

  // The digits of a number denote it.
  lemma {:induction false} DecimalDenotes(n: nat)
    ensures AllDigits(Decimal(n)) && Natural(Decimal(n)) == n
    decreases n
  {
    if n >= 10 {
      DecimalDenotes(n / 10);
      assert Decimal(n)[..|Decimal(n)| - 1] == Decimal(n / 10);
    } else {
      assert Decimal(n)[..0] == "";
    }
  }

  lemma {:induction false} ValueIsReal(t: Tree)
    requires Literals(t)
    ensures Value(Exact(), t) == RealValue(t) && (Divides(Exact(), t) <==> Defined(t))
  {
    match t
    case Lit(_, _, _, whole, _, frac) =>
      WholeIsNatural(whole);
      FractionIsNatural(frac, Natural(whole) as real);
    case Group(_, inner, _) => ValueIsReal(inner);
    case Bin(l, _, _, r) =>
      ValueIsReal(l);
      ValueIsReal(r);
  }

  // The text of any tree, with the parentheses that precedence needs, any blanks and anything behind it, evaluates
  // to the tree's real value, and an error is reported exactly if some divisor is zero.
  lemma EvaluatesExactly(t: Tree, trailing: nat, rest: string)
    requires Literals(t) && Junk(rest)
    ensures var s := Text(Parenthesised(t, 0)) + Blanks(trailing) + rest;
      && (Defined(t) ==> Expr(Exact(), s, 0) == Outcome(RealValue(t), |s| - |rest|, 0))
      && (Expr(Exact(), s, 0).errors == 0 <==> Defined(t))
  {
    hide Text, Expr, Value, Divides, RealValue, Defined, Blanks, Parenthesised, Exact;
    EvaluatesPrinted(Exact(), t, trailing, rest);
    ValueIsReal(t);
  }
}
