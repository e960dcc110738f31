// Expressions as trees, their text, and the proof that the evaluator performs exactly the operations
// of the tree that a text was printed from.
module CalcTree {
  import opened CString
  import opened CalcParse
  import opened Slices

  datatype Op = Add | Sub | Mul | Div

  function Sign(op: Op): char { match op case Add => '+' case Sub => '-' case Mul => '*' case Div => '/' }

  // Every token keeps the number of blanks before it.
  datatype Tree =
    | Lit(sp: nat, negative: bool, sp2: nat, whole: string, point: bool, frac: string)
    | Bin(left: Tree, sp: nat, op: Op, right: Tree)
    | Group(sp: nat, inner: Tree, sp2: nat)

  function LitText(t: Tree): string
    requires t.Lit?
  {
    Blanks(t.sp) + (if t.negative then "-" + Blanks(t.sp2) else "") + t.whole + (if t.point then "." + t.frac else "")
  }

  function Text(t: Tree): (s: string)
    ensures t.Bin? ==> |s| > |Text(t.left)|
  {
    match t
    case Lit(_, _, _, _, _, _) => LitText(t)
    case Bin(l, sp, op, r) => Text(l) + (Blanks(sp) + [Sign(op)]) + Text(r)
    case Group(sp, inner, sp2) => Blanks(sp) + "(" + Text(inner) + (Blanks(sp2) + ")")
  }

  predicate Sum(op: Op) { op == Add || op == Sub }

  predicate Literals(t: Tree)
  {
    match t
    case Lit(_, _, _, whole, point, frac) => AllDigits(whole) && AllDigits(frac) && (whole != "" || point)
    case Group(_, inner, _) => Literals(inner)
    case Bin(l, _, _, r) => Literals(l) && Literals(r)
  }

  // Level 0 is an expression, 1 a term, 2 a factor. A tree fits a level if it has the parentheses it
  // needs there, operators of one precedence grouping to the left.
  predicate Fits(t: Tree, level: nat)
    ensures Fits(t, level) ==> Literals(t)
  {
    match t
    case Lit(_, _, _, _, _, _) => Literals(t)
    case Group(_, inner, _) => Fits(inner, 0)
    case Bin(l, _, op, r) =>
      if Sum(op) then level == 0 && Fits(l, 0) && Fits(r, 1) else level <= 1 && Fits(l, 1) && Fits(r, 2)
  }

  // What a digit string stands for: its last digit taken in onto the rest.
  function WholeValue<N>(a: Arith<N>, s: string): N
    requires AllDigits(s)
  {
    if s == "" then a.zero else a.whole(WholeValue(a, s[..|s| - 1]), s[|s| - 1] as int - '0' as int)
  }

  // The same of digits after the point, the first in place 1.
  function FractionValue<N>(a: Arith<N>, s: string, n: N): N
    requires AllDigits(s)
  {
    if s == "" then n else a.tenths(FractionValue(a, s[..|s| - 1], n), s[|s| - 1] as int - '0' as int, |s|)
  }

  function LitValue<N>(a: Arith<N>, t: Tree): N
    requires t.Lit? && AllDigits(t.whole) && AllDigits(t.frac)
  {
    var n := WholeValue(a, t.whole);
    var m := if t.point then FractionValue(a, t.frac, n) else n;
    if t.negative then a.negate(m) else m
  }

  function Apply<N>(a: Arith<N>, op: Op, l: N, r: N): N
  {
    match op case Add => a.add(l, r) case Sub => a.sub(l, r) case Mul => a.mul(l, r) case Div => a.div(l, r)
  }

  // The operations of the tree.
  function Value<N>(a: Arith<N>, t: Tree): N
    requires Literals(t)
  {
    match t
    case Lit(_, _, _, _, _, _) => LitValue(a, t)
    case Group(_, inner, _) => Value(a, inner)
    case Bin(l, _, op, r) => Apply(a, op, Value(a, l), Value(a, r))
  }

  // No division in the tree is by zero.
  predicate Divides<N>(a: Arith<N>, t: Tree)
    requires Literals(t)
  {
    match t
    case Lit(_, _, _, _, _, _) => true
    case Group(_, inner, _) => Divides(a, inner)
    case Bin(l, _, op, r) => Divides(a, l) && Divides(a, r) && (op == Div ==> !a.isZero(Value(a, r)))
  }

  // ----- places in a text -----

  lemma {:induction false} SkipBlanks(s: string, i: nat, n: nat)
    requires At(s, i, Blanks(n))
    ensures Skip(s, i) == Skip(s, i + n)
    decreases n
  {
    if n > 0 {
      AtParts(s, i, " ", Blanks(n - 1));
      AtOne(s, i, ' ');
      SkipBlanks(s, i + 1, n - 1);
    }
  }

  lemma {:induction false} DigitsExact(s: string, i: nat, digits: string)
    requires At(s, i, digits) && AllDigits(digits) && !(i + |digits| < |s| && IsDigit(s[i + |digits|]))
    ensures DigitsEnd(s, i) == i + |digits|
    decreases |digits|
  {
    if digits != "" {
      assert digits == [digits[0]] + digits[1..];
      AtParts(s, i, [digits[0]], digits[1..]);
      AtOne(s, i, digits[0]);
      DigitsExact(s, i + 1, digits[1..]);
    }
  }

  // What may follow a number: not a digit, nor a point.
  predicate Ends(s: string, i: nat) { i < |s| ==> !IsDigit(s[i]) && s[i] != '.' }

  // What follows a whole text: its end, a closing parenthesis, an operator, after blanks.
  predicate Stops(s: string, i: nat, level: nat)
    requires i <= |s|
  {
    Ends(s, i) && (level == 0 ==> !IsProduct(s, Skip(s, i)))
  }

  // ----- literals -----

  function LitStart(t: Tree): nat
    requires t.Lit?
  {
    t.sp + if t.negative then 1 + t.sp2 else 0
  }

  // Where the parts of a literal lie.
  lemma LitAt(s: string, i: nat, t: Tree)
    requires t.Lit? && At(s, i, LitText(t))
    ensures At(s, i, Blanks(t.sp)) && At(s, i + LitStart(t), t.whole)
    ensures t.negative ==> i + t.sp < |s| && s[i + t.sp] == '-' && At(s, i + t.sp + 1, Blanks(t.sp2))
    ensures |LitText(t)| == LitStart(t) + |t.whole| + if t.point then 1 + |t.frac| else 0
    ensures t.point ==>
      var p := i + LitStart(t) + |t.whole|;
      p < |s| && s[p] == '.' && At(s, p + 1, t.frac)
  {
    hide At, Blanks;
    var sign := if t.negative then "-" + Blanks(t.sp2) else "";
    FourAt(s, i, Blanks(t.sp), sign, t.whole, if t.point then "." + t.frac else "");
    assert |Blanks(t.sp) + sign| == LitStart(t);
    if t.negative {
      AtParts(s, i + t.sp, "-", Blanks(t.sp2));
      AtOne(s, i + t.sp, '-');
    }
    if t.point {
      AtParts(s, i + LitStart(t) + |t.whole|, ".", t.frac);
      AtOne(s, i + LitStart(t) + |t.whole|, '.');
    }
  }

  lemma FourAt(s: string, i: nat, head: string, sign: string, whole: string, tail: string)
    requires At(s, i, head + sign + whole + tail)
    ensures At(s, i, head) && At(s, i + |head|, sign) && At(s, i + |head| + |sign|, whole)
    ensures At(s, i + |head| + |sign| + |whole|, tail)
  {
    hide At;
    AtParts(s, i, head + sign + whole, tail);
    AtParts(s, i, head + sign, whole);
    AtParts(s, i, head, sign);
  }

  lemma SkipToDigits(s: string, i: nat, n: nat)
    requires At(s, i, Blanks(n)) && (i + n < |s| ==> s[i + n] != ' ')
    ensures Skip(s, i) == i + n
  {
    SkipBlanks(s, i, n);
  }

  // Where a number's digits start and end.
  lemma LitScan(s: string, i: nat, t: Tree)
    requires t.Lit? && Fits(t, 2) && At(s, i, LitText(t)) && Ends(s, i + |LitText(t)|)
    ensures var first := i + LitStart(t);
      var last := first + |t.whole|;
      && Skip(s, i) == i + t.sp < |s| && s[i + t.sp] != '(' && (s[i + t.sp] == '-' <==> t.negative)
      && (t.negative ==> Skip(s, i + t.sp + 1) == first)
      && first <= last <= |s| && s[first..last] == t.whole && DigitsEnd(s, first) == last
      && (last < |s| && s[last] == '.' <==> t.point)
      && i + |LitText(t)| == if t.point then last + 1 + |t.frac| else last
  {
    hide Blanks, LitText, Skip, DigitsEnd;
    LitAt(s, i, t);
    var first := i + LitStart(t);
    FirstChar(s, first, t);
    SkipToDigits(s, i, t.sp);
    if t.negative {
      SkipToDigits(s, i + t.sp + 1, t.sp2);
    }
    DigitsExact(s, first, t.whole);
  }

  lemma LitFraction(s: string, i: nat, t: Tree)
    requires t.Lit? && t.point && Fits(t, 2) && At(s, i, LitText(t)) && Ends(s, i + |LitText(t)|)
    ensures var p := i + LitStart(t) + |t.whole| + 1;
      p + |t.frac| <= |s| && DigitsEnd(s, p) == p + |t.frac| && s[p..p + |t.frac|] == t.frac
  {
    hide Blanks, LitText, DigitsEnd;
    LitAt(s, i, t);
    DigitsExact(s, i + LitStart(t) + |t.whole| + 1, t.frac);
  }

  // One more digit at the end is taken in onto what the digits before it give.
  lemma {:induction false} WholeNext<N>(a: Arith<N>, s: string, c: char, n: N)
    requires AllDigits(s) && IsDigit(c)
    ensures AllDigits(s + [c]) && WholePart(a, s + [c], n) == a.whole(WholePart(a, s, n), DigitValue(c))
    decreases |s|
  {
    if s == "" {
      assert s + [c] == [c];
      assert WholePart(a, [c], n) == WholePart(a, "", a.whole(n, DigitValue(c)));
    } else {
      assert (s + [c])[1..] == s[1..] + [c];
      WholeNext(a, s[1..], c, a.whole(n, DigitValue(s[0])));
    }
  }

  lemma {:induction false} FractionNext<N>(a: Arith<N>, s: string, c: char, n: N, place: nat)
    requires AllDigits(s) && IsDigit(c)
    ensures AllDigits(s + [c])
    ensures Fraction(a, s + [c], n, place) == a.tenths(Fraction(a, s, n, place), DigitValue(c), place + |s|)
    decreases |s|
  {
    if s == "" {
      assert s + [c] == [c];
      assert Fraction(a, [c], n, place) == Fraction(a, "", a.tenths(n, DigitValue(c), place), place + 1);
    } else {
      assert (s + [c])[1..] == s[1..] + [c];
      FractionNext(a, s[1..], c, a.tenths(n, DigitValue(s[0]), place), place + 1);
    }
  }

  // The scan over the digits gives what they stand for.
  lemma {:induction false} DigitsRead<N>(a: Arith<N>, s: string, n: N)
    requires AllDigits(s)
    ensures WholePart(a, s, a.zero) == WholeValue(a, s) && Fraction(a, s, n, 1) == FractionValue(a, s, n)
    decreases |s|
  {
    if s != "" {
      var k := |s| - 1;
      assert s == s[..k] + [s[k]];
      DigitsRead(a, s[..k], n);
      WholeNext(a, s[..k], s[k], a.zero);
      FractionNext(a, s[..k], s[k], n, 1);
    }
  }

  lemma NumberReads<N>(a: Arith<N>, s: string, i: nat, t: Tree)
    requires t.Lit? && Fits(t, 2) && At(s, i, LitText(t)) && Ends(s, i + |LitText(t)|)
    ensures Skip(s, i) < |s| && s[Skip(s, i)] != '('
    ensures Number(a, s, i) == Outcome(LitValue(a, t), i + |LitText(t)|, 0)
  {
    hide Blanks, LitText, WholePart, Fraction, WholeValue, FractionValue, Skip, DigitsEnd, At, Ends;
    LitScan(s, i, t);
    DigitsRead(a, t.whole, a.zero);
    DigitsRead(a, t.frac, WholeValue(a, t.whole));
    if t.point {
      LitFraction(s, i, t);
    }
  }

  // A literal's first character after its sign is a digit or a point.
  lemma FirstChar(s: string, first: nat, t: Tree)
    requires t.Lit? && Fits(t, 2) && At(s, first, t.whole)
    requires t.point ==> first + |t.whole| < |s| && s[first + |t.whole|] == '.'
    ensures first < |s| && (IsDigit(s[first]) || s[first] == '.')
  {
    if t.whole != "" {
      assert s[first] == s[first..first + |t.whole|][0];
    }
  }

  lemma NumberAfterSkip<N>(a: Arith<N>, s: string, i: nat)
    requires i <= |s|
    ensures Number(a, s, Skip(s, i)) == Number(a, s, i)
  {
    hide Signed, Skip;
    SkipTwice(s, i);
  }

  // ----- the evaluator reads the tree -----

  lemma {:induction false} FactorReads<N>(a: Arith<N>, s: string, i: nat, t: Tree)
    requires Fits(t, 2) && At(s, i, Text(t)) && Ends(s, i + |Text(t)|)
    ensures Divides(a, t) ==> Factor(a, s, i) == Outcome(Value(a, t), i + |Text(t)|, 0)
    ensures !Divides(a, t) ==> Factor(a, s, i).errors > 0
    decreases t, 0
  {
    hide Number, LitText, LitValue, Blanks;
    if t.Lit? {
      NumberReads(a, s, i, t);
      NumberAfterSkip(a, s, i);
    } else {
      GroupReads(a, s, i, t);
    }
  }

  lemma GroupAt(s: string, i: nat, t: Tree)
    requires t.Group? && At(s, i, Text(t))
    ensures Skip(s, i) == i + t.sp < |s| && s[i + t.sp] == '('
    ensures At(s, i + t.sp + 1, Text(t.inner))
    ensures var e := i + t.sp + 1 + |Text(t.inner)|;
      && i + |Text(t)| == e + t.sp2 + 1 <= |s| && s[e + t.sp2] == ')'
      && Skip(s, e) == e + t.sp2
  {
    hide Blanks;
    var inner := Text(t.inner);
    AtParts(s, i, Blanks(t.sp) + "(" + inner, Blanks(t.sp2) + ")");
    AtParts(s, i, Blanks(t.sp) + "(", inner);
    AtParts(s, i, Blanks(t.sp), "(");
    var e := i + t.sp + 1 + |inner|;
    AtParts(s, e, Blanks(t.sp2), ")");
    AtOne(s, i + t.sp, '(');
    AtOne(s, e + t.sp2, ')');
    SkipToDigits(s, i, t.sp);
    SkipToDigits(s, e, t.sp2);
  }

  lemma {:induction false} GroupReads<N>(a: Arith<N>, s: string, i: nat, t: Tree)
    requires t.Group? && Fits(t, 2) && At(s, i, Text(t)) && Ends(s, i + |Text(t)|)
    ensures Divides(a, t) ==> Factor(a, s, i) == Outcome(Value(a, t), i + |Text(t)|, 0)
    ensures !Divides(a, t) ==> Factor(a, s, i).errors > 0
    decreases t.inner, 6
  {
    hide Blanks, Text, Skip, ExprFrom, Term, At, Stops, Number;
    GroupAt(s, i, t);
    var e := i + t.sp + 1 + |Text(t.inner)|;
    BlanksEnd(s, e);
    ExprReads(a, s, i + t.sp + 1, t.inner);
    SkipTwice(s, e);
    ExprStops(a, s, Outcome(Value(a, t.inner), e, 0));
  }

  // A place whose next character that is not blank is an operator or a parenthesis ends a number.
  lemma EndsBlank(s: string, e: nat)
    requires e <= |s| && Skip(s, e) < |s| && s[Skip(s, e)] in "+-*/)"
    ensures Ends(s, e)
  {
  }

  lemma BlanksEnd(s: string, e: nat)
    requires e <= |s| && (Skip(s, e) < |s| ==> s[Skip(s, e)] !in "0123456789.+-*/")
    ensures Stops(s, e, 0) && !IsSum(s, Skip(s, e))
  {
  }

  lemma BinAt(s: string, i: nat, t: Tree)
    requires t.Bin? && At(s, i, Text(t))
    ensures At(s, i, Text(t.left))
    ensures var l := i + |Text(t.left)|;
      && Skip(s, l) == l + t.sp < |s| && s[l + t.sp] == Sign(t.op)
      && At(s, l + t.sp + 1, Text(t.right)) && l + t.sp + 1 + |Text(t.right)| == i + |Text(t)|
  {
    hide Blanks;
    var l, r := Text(t.left), Text(t.right);
    AtParts(s, i, l + (Blanks(t.sp) + [Sign(t.op)]), r);
    AtParts(s, i, l, Blanks(t.sp) + [Sign(t.op)]);
    AtParts(s, i + |l|, Blanks(t.sp), [Sign(t.op)]);
    AtOne(s, i + |l| + t.sp, Sign(t.op));
    SkipToDigits(s, i + |l|, t.sp);
  }

  // A term is read up to its end, and the loop goes on from there with its value.
  lemma {:induction false} TermReads<N>(a: Arith<N>, s: string, i: nat, t: Tree)
    requires Fits(t, 1) && At(s, i, Text(t)) && Ends(s, i + |Text(t)|)
    ensures Divides(a, t) ==> Term(a, s, i) == TermFrom(a, s, Outcome(Value(a, t), i + |Text(t)|, 0))
    ensures !Divides(a, t) ==> Term(a, s, i).errors > 0
    decreases t, 2
  {
    hide Text, Skip, Factor, TermFrom, Blanks, Ends;
    if t.Bin? {
      BinAt(s, i, t);
      var l := i + |Text(t.left)|;
      EndsBlank(s, l);
      TermReads(a, s, i, t.left);
      FactorReads(a, s, l + t.sp + 1, t.right);
      TermTurn(a, s, Outcome(Value(a, t.left), l, 0));
    } else {
      FactorReads(a, s, i, t);
      TermGrows(a, s, Factor(a, s, i));
    }
  }

  lemma TermGrows<N>(a: Arith<N>, s: string, so: Outcome<N>)
    requires so.pos <= |s|
    ensures TermFrom(a, s, so).errors >= so.errors
  {
  }

  lemma {:induction false} ExprReads<N>(a: Arith<N>, s: string, i: nat, t: Tree)
    requires Fits(t, 0) && At(s, i, Text(t)) && Stops(s, i + |Text(t)|, 0)
    ensures Divides(a, t) ==> Expr(a, s, i) == ExprFrom(a, s, Outcome(Value(a, t), i + |Text(t)|, 0))
    ensures !Divides(a, t) ==> Expr(a, s, i).errors > 0
    decreases t, 4
  {
    hide Text, Skip, Factor, Term, TermFrom, ExprFrom, Blanks, Ends;
    if t.Bin? && Sum(t.op) {
      BinAt(s, i, t);
      var l := i + |Text(t.left)|;
      EndsBlank(s, l);
      ExprReads(a, s, i, t.left);
      var r := l + t.sp + 1;
      TermReads(a, s, r, t.right);
      TermStops(a, s, Outcome(Value(a, t.right), i + |Text(t)|, 0));
      ExprTurn(a, s, Outcome(Value(a, t.left), l, 0));
      ExprSkips(a, s, Outcome(Value(a, t), i + |Text(t)|, 0));
    } else {
      TermReads(a, s, i, t);
      TermStops(a, s, Outcome(Value(a, t), i + |Text(t)|, 0));
      ExprSkips(a, s, Outcome(Value(a, t), i + |Text(t)|, 0));
    }
  }

  // What may stand behind an expression without being taken for part of it.
  predicate Junk(rest: string) { rest != "" ==> rest[0] !in "0123456789.+-*/ " }

  // The main result: a tree printed with the parentheses it needs and any blanks is read to its end
  // and evaluated, whatever else follows, and an error is reported exactly if some division in it is by zero.
  lemma EvaluatesTree<N>(a: Arith<N>, t: Tree, trailing: nat, rest: string)
    requires Fits(t, 0) && Junk(rest)
    ensures var s := Text(t) + Blanks(trailing) + rest;
      && (Divides(a, t) ==> Expr(a, s, 0) == Outcome(Value(a, t), |s| - |rest|, 0))
      && (Expr(a, s, 0).errors == 0 <==> Divides(a, t))
  {
    hide Text, Expr;
    var s := Text(t) + Blanks(trailing) + rest;
    assert s[0..0 + |Text(t)|] == Text(t);
    var e := |Text(t)|;
    assert s[e..e + trailing] == Blanks(trailing);
    assert rest != "" ==> s[e + trailing] == rest[0];
    SkipToDigits(s, e, trailing);
    BlanksEnd(s, e);
    ExprReads(a, s, 0, t);
    ExprStops(a, s, Outcome(Value(a, t), e, 0));
  }

  // Any tree of literals and operations, with parentheses put in where precedence needs them.
  function Parenthesised(t: Tree, level: nat): (r: Tree)
    requires Literals(t)
    ensures Fits(r, level)
    decreases t, if level > 0 then 1 else 0
  {
    match t
    case Lit(_, _, _, _, _, _) => t
    case Group(sp, inner, sp2) => Group(sp, Parenthesised(inner, 0), sp2)
    case Bin(l, sp, op, r) =>
      if Sum(op) then
        var bare := Bin(Parenthesised(l, 0), sp, op, Parenthesised(r, 1));
        if level == 0 then bare else Group(0, bare, 0)
      else
        var bare := Bin(Parenthesised(l, 1), sp, op, Parenthesised(r, 2));
        if level <= 1 then bare else Group(0, bare, 0)
  }

  lemma {:induction false} ParenthesesKeepValue<N>(a: Arith<N>, t: Tree, level: nat)
    requires Literals(t)
    ensures Value(a, Parenthesised(t, level)) == Value(a, t)
    ensures Divides(a, Parenthesised(t, level)) == Divides(a, t)
    decreases t
  {
    match t
    case Lit(_, _, _, _, _, _) =>
    case Group(_, inner, _) => ParenthesesKeepValue(a, inner, 0);
    case Bin(l, _, op, r) =>
      ParenthesesKeepValue(a, l, if Sum(op) then 0 else 1);
      ParenthesesKeepValue(a, r, if Sum(op) then 1 else 2);
  }

  lemma EvaluatesPrinted<N>(a: Arith<N>, t: Tree, trailing: nat, rest: string)
    requires Literals(t) && Junk(rest)
    ensures var s := Text(Parenthesised(t, 0)) + Blanks(trailing) + rest;
      && (Divides(a, t) ==> Expr(a, s, 0) == Outcome(Value(a, t), |s| - |rest|, 0))
      && (Expr(a, s, 0).errors == 0 <==> Divides(a, t))
  {
    hide Text, Expr, Fits, Value, Divides, Blanks, Parenthesised;
    EvaluatesTree(a, Parenthesised(t, 0), trailing, rest);
    ParenthesesKeepValue(a, t, 0);
  }

  // A division by zero ends its term there and then: the value is zero and what follows is unread.
  lemma DivisionByZeroStops<N>(a: Arith<N>, s: string, i: nat, t: Tree)
    requires t.Bin? && t.op == Div && Fits(t, 1) && At(s, i, Text(t)) && Ends(s, i + |Text(t)|)
    requires Divides(a, t.left) && Divides(a, t.right) && a.isZero(Value(a, t.right))
    ensures Term(a, s, i) == Outcome(a.zero, i + |Text(t)|, 1)
  {
    hide Text, Skip, Factor, TermFrom, Blanks, Ends, Value, Divides;
    BinAt(s, i, t);
    var l := i + |Text(t.left)|;
    EndsBlank(s, l);
    TermReads(a, s, i, t.left);
    FactorReads(a, s, l + t.sp + 1, t.right);
    TermTurn(a, s, Outcome(Value(a, t.left), l, 0));
  }

  // A parenthesis that is not closed is taken as closed at the end.
  lemma UnclosedReads<N>(a: Arith<N>, s: string, i: nat, sp: nat, t: Tree, trailing: nat)
    requires Fits(t, 0) && Divides(a, t) && At(s, i, Blanks(sp) + "(" + Text(t) + Blanks(trailing))
    requires i + sp + 1 + |Text(t)| + trailing == |s|
    ensures Factor(a, s, i) == Outcome(Value(a, t), |s|, 0)
  {
    hide Text, Expr, Blanks, At, Skip, Number, ExprFrom, Stops;
    var e := i + sp + 1 + |Text(t)|;
    OpenedAt(s, i, sp, Text(t), trailing);
    SkipAtEnd(s);
    BlanksEnd(s, e);
    ExprReads(a, s, i + sp + 1, t);
    ExprStops(a, s, Outcome(Value(a, t), e, 0));
  }

  lemma OpenedAt(s: string, i: nat, sp: nat, text: string, trailing: nat)
    requires At(s, i, Blanks(sp) + "(" + text + Blanks(trailing)) && i + sp + 1 + |text| + trailing == |s|
    ensures i + sp < |s| && s[i + sp] == '(' && Skip(s, i) == i + sp && At(s, i + sp + 1, text)
    ensures Skip(s, i + sp + 1 + |text|) == |s|
  {
    hide Blanks, Skip, At;
    FourAt(s, i, Blanks(sp), "(", text, Blanks(trailing));
    AtOne(s, i + sp, '(');
    SkipToDigits(s, i, sp);
    SkipToDigits(s, i + sp + 1 + |text|, trailing);
  }

  lemma SkipAtEnd(s: string)
    ensures Skip(s, |s|) == |s|
  {
  }

  // Where a number should stand and none does, zero is taken and nothing is read.
  lemma NothingIsZero<N>(a: Arith<N>, s: string, i: nat)
    requires i <= |s| && (Skip(s, i) < |s| ==> s[Skip(s, i)] !in "0123456789.-(")
    ensures Factor(a, s, i) == Outcome(a.zero, Skip(s, i), 0)
  {
    hide Skip;
    SkipTwice(s, i);
    var j := Skip(s, i);
    assert DigitsEnd(s, j) == j && s[j..j] == "";
  }
}
