// The calculator's recursive-descent evaluator, over any arithmetic: which operations it performs, in
// what order, and how far it reads.
module CalcParse {
  import opened CString

  // The numbers and what is done with them: taking in a digit before the point, taking in digit
  // `place` after it, and the operations.
  datatype Arith<!N> = Arith(
    zero: N,
    whole: (N, nat) -> N,
    tenths: (N, nat, nat) -> N,
    negate: N -> N,
    add: (N, N) -> N,
    sub: (N, N) -> N,
    mul: (N, N) -> N,
    div: (N, N) -> N,
    isZero: N -> bool)

  // The value of a call, the place it stops at, and how many division errors it reports.
  datatype Outcome<N> = Outcome(value: N, pos: nat, errors: nat)

  function Skip(s: string, i: nat): (j: nat)
    requires i <= |s|
    ensures i <= j <= |s| && (j < |s| ==> s[j] != ' ')
    decreases |s| - i
  {
    if i < |s| && s[i] == ' ' then Skip(s, i + 1) else i
  }

  function DigitsEnd(s: string, i: nat): (j: nat)
    requires i <= |s|
    ensures i <= j <= |s| && (j < |s| ==> !IsDigit(s[j])) && forall k :: i <= k < j ==> IsDigit(s[k])
    decreases |s| - i
  {
    if i < |s| && IsDigit(s[i]) then DigitsEnd(s, i + 1) else i
  }

  predicate AllDigits(s: string) { forall k :: 0 <= k < |s| ==> IsDigit(s[k]) }

  function WholePart<N>(a: Arith<N>, digits: string, n: N): N
    requires AllDigits(digits)
  {
    if digits == "" then n else WholePart(a, digits[1..], a.whole(n, DigitValue(digits[0])))
  }

  function Fraction<N>(a: Arith<N>, digits: string, n: N, place: nat): N
    requires AllDigits(digits)
  {
    if digits == "" then n else Fraction(a, digits[1..], a.tenths(n, DigitValue(digits[0]), place), place + 1)
  }

  // Digits, and after a point more of them.
  function Unsigned<N>(a: Arith<N>, s: string, first: nat): (r: Outcome<N>)
    requires first <= |s|
    ensures first <= r.pos <= |s| && r.errors == 0
  {
    var last := DigitsEnd(s, first);
    var n := WholePart(a, s[first..last], a.zero);
    if last < |s| && s[last] == '.' then
      var end := DigitsEnd(s, last + 1);
      Outcome(Fraction(a, s[last + 1..end], n, 1), end, 0)
    else Outcome(n, last, 0)
  }

  // A sign, and blanks after it.
  function Signed<N>(a: Arith<N>, s: string, start: nat): (r: Outcome<N>)
    requires start <= |s|
    ensures start <= r.pos <= |s| && r.errors == 0
  {
    if start < |s| && s[start] == '-' then
      var u := Unsigned(a, s, Skip(s, start + 1));
      u.(value := a.negate(u.value))
    else Unsigned(a, s, start)
  }

  function Number<N>(a: Arith<N>, s: string, i: nat): (r: Outcome<N>)
    requires i <= |s|
    ensures i <= r.pos <= |s| && r.errors == 0
  {
    Signed(a, s, Skip(s, i))
  }

  function Factor<N>(a: Arith<N>, s: string, i: nat): (r: Outcome<N>)
    requires i <= |s|
    ensures i <= r.pos <= |s|
    decreases |s| - i, 0
  {
    var j := Skip(s, i);
    if j < |s| && s[j] == '(' then
      var e := Expr(a, s, j + 1);
      var k := Skip(s, e.pos);
      if k < |s| && s[k] == ')' then e.(pos := k + 1) else e.(pos := k)
    else Number(a, s, j)
  }

  predicate IsProduct(s: string, j: nat) { j < |s| && (s[j] == '*' || s[j] == '/') }

  predicate IsSum(s: string, j: nat) { j < |s| && (s[j] == '+' || s[j] == '-') }

  function Term<N>(a: Arith<N>, s: string, i: nat): (r: Outcome<N>)
    requires i <= |s|
    ensures i <= r.pos <= |s|
    decreases |s| - i, 2
  {
    var f := Factor(a, s, i);
    TermFrom(a, s, f)
  }

  // The loop of a term, from the value so far.
  function TermFrom<N>(a: Arith<N>, s: string, so: Outcome<N>): (r: Outcome<N>)
    requires so.pos <= |s|
    ensures so.pos <= r.pos <= |s| && r.errors >= so.errors
    decreases |s| - so.pos, 1
  {
    var j := Skip(s, so.pos);
    if IsProduct(s, j) then
      var f := Factor(a, s, j + 1);
      if s[j] == '*' then TermFrom(a, s, Outcome(a.mul(so.value, f.value), f.pos, so.errors + f.errors))
      else if a.isZero(f.value) then Outcome(a.zero, f.pos, so.errors + f.errors + 1)
      else TermFrom(a, s, Outcome(a.div(so.value, f.value), f.pos, so.errors + f.errors))
    else so.(pos := j)
  }

  function Expr<N>(a: Arith<N>, s: string, i: nat): (r: Outcome<N>)
    requires i <= |s|
    ensures i <= r.pos <= |s|
    decreases |s| - i, 4
  {
    var t := Term(a, s, i);
    ExprFrom(a, s, t)
  }

  function ExprFrom<N>(a: Arith<N>, s: string, so: Outcome<N>): (r: Outcome<N>)
    requires so.pos <= |s|
    ensures so.pos <= r.pos <= |s| && r.errors >= so.errors
    decreases |s| - so.pos, 3
  {
    var j := Skip(s, so.pos);
    if IsSum(s, j) then
      var t := Term(a, s, j + 1);
      var v := if s[j] == '+' then a.add(so.value, t.value) else a.sub(so.value, t.value);
      ExprFrom(a, s, Outcome(v, t.pos, so.errors + t.errors))
    else so.(pos := j)
  }

  // ----- turns of the loops -----

  // One turn of the term loop.
  lemma TermTurn<N>(a: Arith<N>, s: string, so: Outcome<N>)
    requires so.pos <= |s| && IsProduct(s, Skip(s, so.pos))
    ensures var j := Skip(s, so.pos);
      var f := Factor(a, s, j + 1);
      TermFrom(a, s, so) ==
        if s[j] == '*' then TermFrom(a, s, Outcome(a.mul(so.value, f.value), f.pos, so.errors + f.errors))
        else if a.isZero(f.value) then Outcome(a.zero, f.pos, so.errors + f.errors + 1)
        else TermFrom(a, s, Outcome(a.div(so.value, f.value), f.pos, so.errors + f.errors))
  {
    hide Factor, Skip;
  }

  lemma TermStops<N>(a: Arith<N>, s: string, so: Outcome<N>)
    requires so.pos <= |s| && !IsProduct(s, Skip(s, so.pos))
    ensures TermFrom(a, s, so) == so.(pos := Skip(s, so.pos))
  {
  }

  lemma ExprTurn<N>(a: Arith<N>, s: string, so: Outcome<N>)
    requires so.pos <= |s| && IsSum(s, Skip(s, so.pos))
    ensures var j := Skip(s, so.pos);
      var t := Term(a, s, j + 1);
      var v := if s[j] == '+' then a.add(so.value, t.value) else a.sub(so.value, t.value);
      ExprFrom(a, s, so) == ExprFrom(a, s, Outcome(v, t.pos, so.errors + t.errors))
  {
    hide Term, Skip;
  }

  lemma ExprStops<N>(a: Arith<N>, s: string, so: Outcome<N>)
    requires so.pos <= |s| && !IsSum(s, Skip(s, so.pos))
    ensures ExprFrom(a, s, so) == so.(pos := Skip(s, so.pos))
  {
  }

  lemma SkipTwice(s: string, i: nat)
    requires i <= |s|
    ensures Skip(s, Skip(s, i)) == Skip(s, i)
  {
    var j := Skip(s, i);
  }

  lemma TermSkips<N>(a: Arith<N>, s: string, so: Outcome<N>)
    requires so.pos <= |s|
    ensures TermFrom(a, s, so.(pos := Skip(s, so.pos))) == TermFrom(a, s, so)
    ensures Skip(s, Skip(s, so.pos)) == Skip(s, so.pos)
  {
    hide Skip, Factor;
    SkipTwice(s, so.pos);
  }

  lemma ExprSkips<N>(a: Arith<N>, s: string, so: Outcome<N>)
    requires so.pos <= |s|
    ensures ExprFrom(a, s, so.(pos := Skip(s, so.pos))) == ExprFrom(a, s, so)
    ensures Skip(s, Skip(s, so.pos)) == Skip(s, so.pos)
  {
    hide Skip, Term;
    SkipTwice(s, so.pos);
  }

  // The same turns from a place that is an operator's, the operand being known.
  lemma TermNext<N>(a: Arith<N>, s: string, so: Outcome<N>, f: Outcome<N>)
    requires so.pos <= |s| && Skip(s, so.pos) == so.pos && IsProduct(s, so.pos) && f == Factor(a, s, so.pos + 1)
    ensures s[so.pos] == '*' ==>
      TermFrom(a, s, so) == TermFrom(a, s, Outcome(a.mul(so.value, f.value), f.pos, so.errors + f.errors))
    ensures s[so.pos] == '/' && a.isZero(f.value) ==>
      TermFrom(a, s, so) == Outcome(a.zero, f.pos, so.errors + f.errors + 1)
    ensures s[so.pos] == '/' && !a.isZero(f.value) ==>
      TermFrom(a, s, so) == TermFrom(a, s, Outcome(a.div(so.value, f.value), f.pos, so.errors + f.errors))
  {
    hide Factor, Skip, TermFrom;
    TermTurn(a, s, so);
  }

  lemma ExprNext<N>(a: Arith<N>, s: string, so: Outcome<N>, t: Outcome<N>)
    requires so.pos <= |s| && Skip(s, so.pos) == so.pos && IsSum(s, so.pos) && t == Term(a, s, so.pos + 1)
    ensures s[so.pos] == '+' ==>
      ExprFrom(a, s, so) == ExprFrom(a, s, Outcome(a.add(so.value, t.value), t.pos, so.errors + t.errors))
    ensures s[so.pos] == '-' ==>
      ExprFrom(a, s, so) == ExprFrom(a, s, Outcome(a.sub(so.value, t.value), t.pos, so.errors + t.errors))
  {
    hide Term, Skip, ExprFrom;
    ExprTurn(a, s, so);
  }
}
