// The calculator as it runs: recursive calls that share and advance one position in the text.
module CalcMachine {
  import opened CString
  import opened CalcParse

  class Calculator<N> {
    const a: Arith<N>
    const text: string
    var pos: nat
    var errors: nat

    constructor (a: Arith<N>, text: string)
      ensures Valid() && this.a == a && this.text == text && pos == 0 && errors == 0
    {
      this.a, this.text, pos, errors := a, text, 0, 0;
    }

    // The position is never past the end of the text.
    ghost predicate Valid()
      reads this
    {
      pos <= |text|
    }

    method SkipSpaces()
      requires Valid()
      modifies this`pos
      ensures Valid() && pos == Skip(text, old(pos))
    {
      while pos < |text| && text[pos] == ' '
        invariant Valid() && Skip(text, pos) == Skip(text, old(pos))
      {
        pos := pos + 1;
      }
    }

    method ParseNumber() returns (result: N)
      requires Valid()
      modifies this`pos
      ensures Valid() && Outcome(result, pos, 0) == Number(a, text, old(pos))
    {
      hide Skip, Unsigned;
      SkipSpaces();
      var negative := false;
      if pos < |text| && text[pos] == '-' {
        negative := true;
        pos := pos + 1;
        SkipSpaces();
      }
      result := ParseUnsigned();
      result := if negative then a.negate(result) else result;
    }

    method ParseUnsigned() returns (result: N)
      requires Valid()
      modifies this`pos
      ensures Valid() && Outcome(result, pos, 0) == Unsigned(a, text, old(pos))
    {
      hide DigitsEnd, WholePart, Fraction;
      result := Digits();
      if pos < |text| && text[pos] == '.' {
        pos := pos + 1;
        result := Decimals(result);
      }
    }

    method Digits() returns (result: N)
      requires Valid()
      modifies this`pos
      ensures Valid() && pos == DigitsEnd(text, old(pos))
      ensures result == WholePart(a, text[old(pos)..pos], a.zero)
    {
      result := a.zero;
      ghost var start, end := pos, DigitsEnd(text, pos);
      while pos < |text| && IsDigit(text[pos])
        invariant start <= pos <= end <= |text| && DigitsEnd(text, pos) == end
        invariant WholePart(a, text[start..end], a.zero) == WholePart(a, text[pos..end], result)
        decreases |text| - pos
      {
        assert text[pos..end][1..] == text[pos + 1..end];
        result := a.whole(result, DigitValue(text[pos]));
        pos := pos + 1;
      }
    }

    method Decimals(n: N) returns (result: N)
      requires Valid()
      modifies this`pos
      ensures Valid() && pos == DigitsEnd(text, old(pos))
      ensures result == Fraction(a, text[old(pos)..pos], n, 1)
    {
      result := n;
      var place := 1;
      ghost var start, end := pos, DigitsEnd(text, pos);
      while pos < |text| && IsDigit(text[pos])
        invariant start <= pos <= end <= |text| && DigitsEnd(text, pos) == end && place >= 1
        invariant Fraction(a, text[start..end], n, 1) == Fraction(a, text[pos..end], result, place)
        decreases |text| - pos
      {
        assert text[pos..end][1..] == text[pos + 1..end];
        result := a.tenths(result, DigitValue(text[pos]), place);
        place := place + 1;
        pos := pos + 1;
      }
    }

    method ParseFactor() returns (result: N)
      requires Valid()
      modifies this`pos, this`errors
      ensures Valid() && old(pos) <= pos && errors >= old(errors)
      ensures Outcome(result, pos, errors - old(errors)) == Factor(a, text, old(pos))
      decreases |text| - pos, 0
    {
      hide Skip, Number, Expr;
      SkipSpaces();
      if pos < |text| && text[pos] == '(' {
        pos := pos + 1;
        result := ParseExpr();
        SkipSpaces();
        if pos < |text| && text[pos] == ')' {
          pos := pos + 1;
        }
        return;
      }
      result := ParseNumber();
    }

    method ParseTerm() returns (result: N)
      requires Valid()
      modifies this`pos, this`errors
      ensures Valid() && old(pos) <= pos && errors >= old(errors)
      ensures Outcome(result, pos, errors - old(errors)) == Term(a, text, old(pos))
      decreases |text| - pos, 1
    {
      hide Skip, Factor, TermFrom;
      ghost var start, before := pos, errors;
      result := ParseFactor();
      ghost var first := Outcome(result, pos, errors - before);
      TermSkips(a, text, first);
      SkipSpaces();
      assert Outcome(result, pos, errors - before) == first.(pos := Skip(text, first.pos));
      while pos < |text| && (text[pos] == '*' || text[pos] == '/')
        invariant Valid() && start <= pos && errors >= before && Skip(text, pos) == pos
        invariant Term(a, text, start) == TermFrom(a, text, Outcome(result, pos, errors - before))
        decreases |text| - pos
      {
        var op := text[pos];
        ghost var was := Outcome(result, pos, errors - before);
        pos := pos + 1;
        var right := ParseFactor();
        TermNext(a, text, was, Outcome(right, pos, errors - before - was.errors));
        if op == '*' {
          result := a.mul(result, right);
        } else {
          if a.isZero(right) {
            errors := errors + 1;
            return a.zero;
          }
          result := a.div(result, right);
        }
        ghost var so := Outcome(result, pos, errors - before);
        assert TermFrom(a, text, was) == TermFrom(a, text, so);
        TermSkips(a, text, so);
        SkipSpaces();
        assert Outcome(result, pos, errors - before) == so.(pos := Skip(text, so.pos));
      }
      TermStops(a, text, Outcome(result, pos, errors - before));
    }

    method ParseExpr() returns (result: N)
      requires Valid()
      modifies this`pos, this`errors
      ensures Valid() && old(pos) <= pos && errors >= old(errors)
      ensures Outcome(result, pos, errors - old(errors)) == Expr(a, text, old(pos))
      decreases |text| - pos, 2
    {
      hide Skip, Term, ExprFrom;
      ghost var start, before := pos, errors;
      result := ParseTerm();
      ghost var first := Outcome(result, pos, errors - before);
      ExprSkips(a, text, first);
      SkipSpaces();
      assert Outcome(result, pos, errors - before) == first.(pos := Skip(text, first.pos));
      while pos < |text| && (text[pos] == '+' || text[pos] == '-')
        invariant Valid() && start <= pos && errors >= before && Skip(text, pos) == pos
        invariant Expr(a, text, start) == ExprFrom(a, text, Outcome(result, pos, errors - before))
        decreases |text| - pos
      {
        var op := text[pos];
        ghost var was := Outcome(result, pos, errors - before);
        pos := pos + 1;
        var right := ParseTerm();
        ExprNext(a, text, was, Outcome(right, pos, errors - before - was.errors));
        if op == '+' {
          result := a.add(result, right);
        } else {
          result := a.sub(result, right);
        }
        ghost var so := Outcome(result, pos, errors - before);
        assert ExprFrom(a, text, was) == ExprFrom(a, text, so);
        ExprSkips(a, text, so);
        SkipSpaces();
        assert Outcome(result, pos, errors - before) == so.(pos := Skip(text, so.pos));
      }
      ExprStops(a, text, Outcome(result, pos, errors - before));
    }
  }
}
