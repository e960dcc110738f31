// Assembler source as its author writes it, and the proof that a line gives the code of exactly the
// instruction it names.
module AsmSource {
  import opened AsmCode
  import opened AsmText
  import opened Bytes
  import opened CString

  // ----- numerals -----

  datatype Radix = Octal | Decimal | Hex

  function RadixOf(r: Radix): nat { match r case Octal => 8 case Decimal => 10 case Hex => 16 }

  datatype Mark = NoSign | Plus | Minus

  // A number as written: sign, radix, digits from the highest, letters in capitals or not.
  datatype Numeral = Numeral(sign: Mark, radix: Radix, capitals: bool, digits: seq<nat>)

  // Decimal has a first digit that is not 0 (a 0 in front makes it octal).
  predicate Proper(n: Numeral)
  {
    && (forall k :: 0 <= k < |n.digits| ==> n.digits[k] < RadixOf(n.radix))
    && (n.radix == Decimal ==> n.digits != [] && n.digits[0] > 0)
  }

  function DigitChar(d: nat, capitals: bool): char
    requires d < 16
  {
    if d < 10 then '0' + d as char else (if capitals then 'A' else 'a') + (d - 10) as char
  }

  function DigitsText(digits: seq<nat>, capitals: bool): (s: string)
    requires forall k :: 0 <= k < |digits| ==> digits[k] < 16
    ensures |s| == |digits| && forall k :: 0 <= k < |s| ==> s[k] == DigitChar(digits[k], capitals)
  {
    if digits == [] then "" else [DigitChar(digits[0], capitals)] + DigitsText(digits[1..], capitals)
  }

  function Prefix(n: Numeral): string
  {
    match n.radix case Octal => "0" case Decimal => "" case Hex => if n.capitals then "0X" else "0x"
  }

  function Magnitude(n: Numeral): string
    requires Proper(n)
  {
    Prefix(n) + DigitsText(n.digits, n.capitals)
  }

  function NumeralText(n: Numeral): string
    requires Proper(n)
  {
    (match n.sign case NoSign => "" case Plus => "+" case Minus => "-") + Magnitude(n)
  }

  function ValueFrom(digits: seq<nat>, radix: nat, n: int): int
  {
    if digits == [] then n else ValueFrom(digits[1..], radix, n * radix + digits[0])
  }

  // The number it stands for, of any size.
  function NumeralValue(n: Numeral): int
  {
    var v := ValueFrom(n.digits, RadixOf(n.radix), 0);
    if n.sign == Minus then -v else v
  }

  // What may follow a numeral: nothing that could be its next digit, nor the mark of a radix.
  predicate Foreign(c: char, radix: nat)
  {
    && !('0' <= c <= '9' && c as int - '0' as int < radix) && c != 'x' && c != 'X'
    && (radix == 16 ==> !('a' <= c <= 'f') && !('A' <= c <= 'F'))
  }

  predicate NotOn(rest: string, n: Numeral) { rest != "" ==> Foreign(rest[0], RadixOf(n.radix)) }

  lemma ForeignStops(c: char, radix: nat)
    requires radix in {8, 10, 16} && Foreign(c, radix)
    ensures !IsDigitOf(c, radix)
  {
  }

  lemma DigitReads(d: nat, capitals: bool, radix: nat)
    requires d < radix <= 16
    ensures DigitIn(DigitChar(d, capitals)) == d && IsDigitOf(DigitChar(d, capitals), radix)
  {
  }

  lemma {:induction false} NumberReads(digits: seq<nat>, capitals: bool, radix: nat, rest: string, n: int, m: int)
    requires radix in {8, 10, 16} && forall k :: 0 <= k < |digits| ==> digits[k] < radix
    requires n == Wrap32(m) && (rest != "" ==> Foreign(rest[0], radix))
    ensures NumberFrom(DigitsText(digits, capitals) + rest, radix, n) == Wrap32(ValueFrom(digits, radix, m))
    decreases |digits|
  {
    hide Wrap32, DigitIn, IsDigitOf, DigitChar, Foreign;
    var s := DigitsText(digits, capitals) + rest;
    if digits != [] {
      DigitReads(digits[0], capitals, radix);
      assert s[1..] == DigitsText(digits[1..], capitals) + rest;
      WrapTwice(m);
      WrapStep(n, m, radix, digits[0]);
      NumberReads(digits[1..], capitals, radix, rest, Wrap32(n * radix + digits[0]), m * radix + digits[0]);
    } else {
      assert s == rest;
      if rest != "" {
        ForeignStops(rest[0], radix);
      }
    }
  }

  lemma DigitNotMark(d: nat, capitals: bool)
    requires d < 16
    ensures DigitChar(d, capitals) !in " \t\n,-+xX" && (DigitChar(d, capitals) == '0' <==> d == 0)
  {
  }

  // The text of a numeral's magnitude is read with its radix, up to wrap-around.
  lemma MagnitudeReads(n: Numeral, rest: string)
    requires Proper(n) && NotOn(rest, n)
    ensures Unsigned(Magnitude(n) + rest) == Wrap32(ValueFrom(n.digits, RadixOf(n.radix), 0))
    ensures Magnitude(n) != "" && Magnitude(n)[0] !in " \t\n,-+"
  {
    hide NumberFrom, ValueFrom, DigitIn, DigitChar, Unsigned, Wrap32;
    var t := DigitsText(n.digits, n.capitals);
    var m := Magnitude(n);
    assert Wrap32(0) == 0 by { Zero(); }
    NumberReads(n.digits, n.capitals, RadixOf(n.radix), rest, 0, 0);
    if n.digits != [] {
      DigitNotMark(n.digits[0], n.capitals);
      assert (t + rest)[0] == t[0];
    } else {
      assert t + rest == rest;
    }
    RadixTold(t + rest);
    match n.radix
    case Octal => assert m + rest == "0" + (t + rest);
    case Decimal => assert m + rest == t + rest && m == t;
    case Hex => assert m + rest == Prefix(n) + (t + rest);
  }

  lemma Zero()
    ensures Wrap32(0) == 0
  {
  }

  // The radix of digits `s` after each prefix.
  lemma RadixTold(s: string)
    ensures (s != "" ==> s[0] !in "xX") ==> Unsigned("0" + s) == NumberFrom(s, 8, 0)
    ensures s != "" && s[0] != '0' ==> Unsigned(s) == NumberFrom(s, 10, 0)
    ensures Unsigned("0x" + s) == NumberFrom(s, 16, 0) && Unsigned("0X" + s) == NumberFrom(s, 16, 0)
  {
    hide NumberFrom;
    assert ("0" + s)[1..] == s;
    assert ("0x" + s)[2..] == s && ("0X" + s)[2..] == s;
  }

  // Any numeral comes back from its text, up to wrap-around, whatever blanks come before it and whatever
  // else behind it.
  lemma NumeralReads(n: Numeral, w: string, rest: string)
    requires Proper(n) && White(w) && NotOn(rest, n)
    ensures Strtoi(w + (NumeralText(n) + rest)) == Wrap32(NumeralValue(n))
  {
    hide Unsigned, Magnitude, ValueFrom, SkipSpaces, Wrap32;
    MagnitudeReads(n, rest);
    var m, t := Magnitude(n), NumeralText(n) + rest;
    WrapTwice(ValueFrom(n.digits, RadixOf(n.radix), 0));
    assert t != "" && t[0] != ' ' && t[0] != '\t';
    SkipsWhite(w, t);
    if n.sign == NoSign {
      assert t == m + rest;
    } else {
      assert t[1..] == m + rest;
    }
  }

  lemma NumeralAlone(n: Numeral)
    requires Proper(n)
    ensures Strtoi(NumeralText(n)) == Wrap32(NumeralValue(n))
  {
    hide Strtoi, NumeralText, NumeralValue, Wrap32;
    NumeralReads(n, "", "");
    assert "" + (NumeralText(n) + "") == NumeralText(n);
  }

  lemma LowOfWrap(n: int)
    ensures Low32(Wrap32(n)) == Low32(n) && Low8(Wrap32(n)) == Low8(n)
  {
    var q := (n + 0x8000_0000) / INT_SPAN;
    assert Wrap32(n) == n - q * INT_SPAN;
    assert Wrap32(n) == n - (q * 0x100_0000) * 0x100;
  }

  // ----- registers -----

  // The general registers in the order of their encoding (Intel SDM, volume 2, table 3-1).
  datatype General = Eax | Ecx | Edx | Ebx | Esp | Ebp | Esi | Edi

  function Spelled(g: General): string
  {
    match g
    case Eax => "eax" case Ecx => "ecx" case Edx => "edx" case Ebx => "ebx"
    case Esp => "esp" case Ebp => "ebp" case Esi => "esi" case Edi => "edi"
  }

  function NumberOf(g: General): reg
  {
    match g case Eax => 0 case Ecx => 1 case Edx => 2 case Ebx => 3 case Esp => 4 case Ebp => 5 case Esi => 6 case Edi => 7
  }

  function Numbered(r: reg): (g: General)
    ensures NumberOf(g) == r
  {
    if r == 0 then Eax else if r == 1 then Ecx else if r == 2 then Edx else if r == 3 then Ebx
    else if r == 4 then Esp else if r == 5 then Ebp else if r == 6 then Esi else Edi
  }

  function NameOf(r: reg): string { Spelled(Numbered(r)) }

  lemma TableSpells(r: reg)
    ensures REGISTERS[r] == NameOf(r)
  {
  }

  // A word is read as a register exactly if it is one's name, and then as that register's number.
  lemma RegisterExact(s: string)
    ensures forall g :: Register(Spelled(g)) == NumberOf(g)
    ensures (forall g :: s != Spelled(g)) ==> Register(s) == -1
  {
    hide Register, Spelled, Numbered;
    forall g
      ensures Register(Spelled(g)) == NumberOf(g)
    {
      SameNumber(g);
      RegisterFound(NumberOf(g));
    }
    if Register(s) >= 0 {
      TableSpells(Register(s));
    }
  }

  lemma SameNumber(g: General)
    ensures Numbered(NumberOf(g)) == g
  {
  }

  lemma RegisterFound(r: reg)
    ensures Register(NameOf(r)) == r
  {
    hide NameOf;
    TableSpells(r);
    RegisterLater(NameOf(r), 0, r);
  }

  lemma {:induction false} RegisterLater(s: string, i: nat, r: reg)
    requires i <= r && s == REGISTERS[r]
    ensures RegisterFrom(s, i) == r
    decreases r - i
  {
    if i < r {
      RegisterLater(s, i + 1, r);
    }
  }

  // ----- statements -----

  // An instruction as written: the blanks before it, between its parts and after it, and the numeral
  // for its number if it has one.
  datatype Statement = Statement(i: Instr, before: nat, gap: nat, inner: nat, after: nat, num: Numeral)

  function Mnemonic(i: Instr): string
  {
    match i
    case Nop => "nop" case Ret => "ret" case Hlt => "hlt" case Cli => "cli" case Sti => "sti"
    case Int(_) => "int"
    case MovImm(_, _) => "mov"
    case Xor(_, _) => "xor"
    case Add(_, _) => "add" case AddImm(_, _) => "add"
    case Sub(_, _) => "sub"
    case Cmp(_, _) => "cmp"
    case Inc(_) => "inc" case Dec(_) => "dec"
    case Push(_) => "push" case PushImm(_) => "push"
    case Pop(_) => "pop"
    case Call(_) => "call" case Jmp(_) => "jmp"
    case OutAl(_) => "out" case OutEax(_) => "out"
    case InAl(_) => "in" case InEax(_) => "in"
  }

  function Pair(l: string, inner: nat, r: string): string { l + "," + Blanks(inner) + r }

  function Operands(st: Statement): string
    requires Proper(st.num)
  {
    var n := NumeralText(st.num);
    match st.i
    case Int(_) => n
    case MovImm(r, _) => Pair(NameOf(r), st.inner, n)
    case AddImm(r, _) => Pair(NameOf(r), st.inner, n)
    case Xor(d, s) => Pair(NameOf(d), st.inner, NameOf(s))
    case Add(d, s) => Pair(NameOf(d), st.inner, NameOf(s))
    case Sub(d, s) => Pair(NameOf(d), st.inner, NameOf(s))
    case Cmp(d, s) => Pair(NameOf(d), st.inner, NameOf(s))
    case Inc(r) => NameOf(r)
    case Dec(r) => NameOf(r)
    case Push(r) => NameOf(r)
    case Pop(r) => NameOf(r)
    case PushImm(_) => n
    case Call(_) => n
    case Jmp(_) => n
    case OutAl(_) => Pair(n, st.inner, "al")
    case OutEax(_) => Pair(n, st.inner, "ax")
    case InAl(_) => Pair("al", st.inner, n)
    case InEax(_) => Pair("ax", st.inner, n)
    case _ => ""
  }

  // A word and its operands, with blanks around them.
  function Spaced(before: nat, m: string, gap: nat, o: string, after: nat): string
  {
    Blanks(before) + m + ((if o == "" then "" else Blanks(gap + 1) + o) + Blanks(after))
  }

  function Line(st: Statement): string
    requires Proper(st.num)
  {
    Spaced(st.before, Mnemonic(st.i), st.gap, Operands(st), st.after)
  }

  // The numeral is the instruction's number, and the operands fit their buffer; sub and cmp know only
  // the first four registers.
  predicate Legible(st: Statement)
  {
    && Proper(st.num) && |Operands(st)| <= 127
    && var v := NumeralValue(st.num);
       match st.i
       case MovImm(_, imm) => imm == Low32(v)
       case AddImm(_, imm) => imm == Low32(v)
       case PushImm(imm) => imm == Low32(v)
       case Call(imm) => imm == Low32(v)
       case Jmp(imm) => imm == Low32(v)
       case Int(n) => n == Low8(v)
       case OutAl(n) => n == Low8(v)
       case OutEax(n) => n == Low8(v)
       case InAl(n) => n == Low8(v)
       case InEax(n) => n == Low8(v)
       case Sub(d, s) => d < 4 && s < 4
       case Cmp(d, s) => d < 4 && s < 4
       case _ => true
  }

  // ----- a line falls into its parts -----

  // A word: no blank, comma or newline in it.
  predicate Token(s: string) { s != "" && forall k :: 0 <= k < |s| ==> s[k] !in " \t\n," }

  // Operands: no newline, and no blank at either end.
  predicate Solid(s: string)
  {
    (s != "" ==> !IsSpace(s[0]) && !IsSpace(s[|s| - 1])) && forall k :: 0 <= k < |s| ==> s[k] != '\n'
  }

  lemma {:induction false} SkipsBlanks(n: nat, s: string)
    requires s != "" ==> !IsSpace(s[0])
    ensures SkipSpaces(Blanks(n) + s) == s && SkipOnlySpaces(Blanks(n) + s) == s
  {
    SkipsSpaces(n, s);
    if n == 0 {
      assert Blanks(n) + s == s;
    } else {
      assert (Blanks(n) + s)[1..] == Blanks(n - 1) + s;
      SkipsBlanks(n - 1, s);
    }
  }

  lemma {:induction false} LineEnds(s: string, limit: nat)
    requires forall k :: 0 <= k < |s| ==> s[k] != '\n'
    ensures LineLength(s, limit) == if |s| <= limit then |s| else limit
    decreases limit
  {
    if limit > 0 && s != "" {
      LineEnds(s[1..], limit - 1);
    }
  }

  lemma {:induction false} TrimsBlanks(s: string, n: nat)
    requires s != "" ==> !IsSpace(s[|s| - 1])
    ensures TrimBlanks(s + Blanks(n)) == s
    decreases n
  {
    if n == 0 {
      assert s + Blanks(n) == s;
    } else {
      assert (s + Blanks(n))[..|s| + n - 1] == s + Blanks(n - 1);
      TrimsBlanks(s, n - 1);
    }
  }

  lemma LineReads(before: nat, m: string, gap: string, o: string, after: nat)
    requires Token(m) && |m| <= WORD_LIMIT && Solid(o) && |o| <= ARGS_LIMIT
    requires o == "" ==> gap == ""
    requires o != "" ==> exists g :: g > 0 && gap == Blanks(g)
    ensures Encode(Blanks(before) + m + (gap + o + Blanks(after))) == EncodeParts(m, o)
  {
    hide EncodeParts, WordLength, LineLength, TrimBlanks, SkipSpaces, Token, Solid, Blanks;
    var rest := gap + o + Blanks(after);
    assert Blanks(before) + m + rest == Blanks(before) + (m + rest);
    TokenStarts(m);
    RestStarts(gap, o, after);
    assert (m + rest)[0] == m[0];
    SkipsBlanks(before, m + rest);
    WordEnds(m, rest, WORD_LIMIT);
    assert (m + rest)[..|m|] == m && (m + rest)[|m|..] == rest;
    ArgsRead(gap, o, after);
  }

  lemma PartsReads(before: nat, m: string, gap: nat, o: string, after: nat)
    requires Token(m) && |m| <= 31 && Solid(o) && |o| <= 127
    ensures Encode(Spaced(before, m, gap, o, after)) == EncodeParts(m, o)
  {
    hide Encode, EncodeParts, Solid, Token, Blanks;
    var g := if o == "" then "" else Blanks(gap + 1);
    assert (if o == "" then "" else Blanks(gap + 1) + o) == g + o;
    LineReads(before, m, g, o, after);
  }

  lemma TokenStarts(m: string)
    requires Token(m)
    ensures m != "" && forall k :: 0 <= k < |m| ==> !IsSpace(m[k])
  {
  }

  lemma RestStarts(gap: string, o: string, after: nat)
    requires o == "" ==> gap == ""
    requires o != "" ==> exists g :: g > 0 && gap == Blanks(g)
    ensures gap + o + Blanks(after) != "" ==> IsSpace((gap + o + Blanks(after))[0])
  {
    hide Blanks;
    assert o != "" ==> gap != "" && gap[0] == ' ';
  }

  lemma ArgsRead(gap: string, o: string, after: nat)
    requires Solid(o) && |o| <= ARGS_LIMIT
    requires o == "" ==> gap == ""
    requires o != "" ==> exists g :: g > 0 && gap == Blanks(g)
    ensures var rest := SkipSpaces(gap + o + Blanks(after));
      TrimBlanks(rest[..LineLength(rest, ARGS_LIMIT)]) == o
  {
    hide WordLength, LineLength, TrimBlanks, SkipSpaces;
    if o == "" {
      assert gap + o + Blanks(after) == Blanks(after) + "";
      SkipsBlanks(after, "");
      LineEnds("", ARGS_LIMIT);
      TrimsBlanks("", 0);
      assert ""[..LineLength("", ARGS_LIMIT)] == "" + Blanks(0);
    } else {
      var g :| g > 0 && gap == Blanks(g);
      var t := o + Blanks(after);
      assert gap + o + Blanks(after) == Blanks(g) + t;
      SkipsBlanks(g, t);
      LineEnds(t, ARGS_LIMIT);
      var n := LineLength(t, ARGS_LIMIT);
      assert t[..n] == o + Blanks(n - |o|) by {
        assert forall k :: 0 <= k < n ==> t[k] == (o + Blanks(n - |o|))[k];
      }
      TrimsBlanks(o, n - |o|);
    }
  }

  // ----- operands fall into theirs -----

  // Text in front of a comma: it starts with no blank, and holds no comma and no newline.
  predicate Leftmost(s: string) { s != "" && !IsSpace(s[0]) && forall k :: 0 <= k < |s| ==> s[k] != ',' && s[k] != '\n' }

  lemma TokenLeft(s: string)
    requires Token(s)
    ensures Leftmost(s)
  {
  }

  lemma PairReads(m: string, l: string, inner: nat, r: string)
    requires m in PAIRED && Leftmost(l) && Token(r)
    ensures EncodeParts(m, Pair(l, inner, r)) == EncodePair(m, l, r)
    ensures Solid(Pair(l, inner, r))
  {
    hide EncodePair, EncodeSingle, SkipOnlySpaces;
    var o := Pair(l, inner, r);
    assert ',' !in l;
    CharFound(l, ',', Blanks(inner) + r);
    assert o == l + ("," + (Blanks(inner) + r));
    assert o[..|l|] == l && o[|l| + 1..] == Blanks(inner) + r;
    SkipsBlanks(0, l);
    assert Blanks(0) + l == l;
    SkipsBlanks(inner, r);
    PairSolid(l, inner, r);
  }

  lemma PairSolid(l: string, inner: nat, r: string)
    requires Leftmost(l) && Token(r)
    ensures Solid(Pair(l, inner, r))
  {
    var o := Pair(l, inner, r);
    assert o[0] == l[0] && o[|o| - 1] == r[|r| - 1];
  }

  lemma RegisterReads(r: reg)
    ensures Register(NameOf(r)) == r && Token(NameOf(r)) && Leftmost(NameOf(r))
  {
    RegisterFound(r);
    TokenLeft(NameOf(r));
  }

  // A numeral is a word, and no register's name.
  lemma NumeralToken(n: Numeral)
    requires Proper(n)
    ensures Token(NumeralText(n)) && Leftmost(NumeralText(n))
    ensures Register(NumeralText(n)) == -1 && SkipOnlySpaces(NumeralText(n)) == NumeralText(n)
  {
    hide Register;
    MagnitudeReads(n, "");
    forall k | 0 <= k < |n.digits|
      ensures DigitChar(n.digits[k], n.capitals) !in " \t\n,-+xX"
    {
      DigitNotMark(n.digits[k], n.capitals);
    }
    NotRegister(n);
    TokenLeft(NumeralText(n));
  }

  lemma NotRegister(n: Numeral)
    requires Proper(n)
    ensures Register(NumeralText(n)) == -1
  {
    var t := NumeralText(n);
    assert t[0] != 'e';
  }

  lemma AlTokens()
    ensures Token("al") && Token("ax") && Leftmost("al") && Leftmost("ax")
  {
  }

  // ----- each statement gives its instruction -----

  predicate OfRegisters(i: Instr) { i.Xor? || i.Add? || i.Sub? || i.Cmp? }

  lemma RegisterPairsRead(st: Statement)
    requires Legible(st) && OfRegisters(st.i)
    ensures EncodeParts(Mnemonic(st.i), Operands(st)) == One(st.i) && Solid(Operands(st))
  {
    hide EncodeParts, Strtoi, Register, NumeralText, NumeralValue, Token, Leftmost, Solid, Pair, Low32, Low8, Code;
    var d, s := st.i.dst, st.i.src;
    RegisterReads(d);
    RegisterReads(s);
    PairReads(Mnemonic(st.i), NameOf(d), st.inner, NameOf(s));
  }

  lemma NumberPairsRead(st: Statement)
    requires Legible(st) && Mnemonic(st.i) in PAIRED && !OfRegisters(st.i)
    ensures EncodeParts(Mnemonic(st.i), Operands(st)) == One(st.i) && Solid(Operands(st))
  {
    hide EncodeParts, Strtoi, Register, NumeralText, NumeralValue, Token, Leftmost, Solid, Pair, Low32, Low8, Code;
    var n, m := st.num, Mnemonic(st.i);
    NumeralToken(n);
    NumeralAlone(n);
    LowOfWrap(NumeralValue(n));
    AlTokens();
    match st.i
    case MovImm(r, _) => RegisterReads(r); PairReads(m, NameOf(r), st.inner, NumeralText(n));
    case AddImm(r, _) => RegisterReads(r); PairReads(m, NameOf(r), st.inner, NumeralText(n));
    case OutAl(_) => PairReads(m, NumeralText(n), st.inner, "al");
    case OutEax(_) => PairReads(m, NumeralText(n), st.inner, "ax");
    case InAl(_) => PairReads(m, "al", st.inner, NumeralText(n));
    case InEax(_) => PairReads(m, "ax", st.inner, NumeralText(n));
  }

  lemma TokenAlone(t: string)
    requires Token(t)
    ensures Solid(t) && SkipOnlySpaces(t) == t
  {
  }

  lemma SinglesRead(st: Statement)
    requires Legible(st) && Mnemonic(st.i) !in PAIRED
    ensures EncodeParts(Mnemonic(st.i), Operands(st)) == One(st.i) && Solid(Operands(st))
  {
    hide Strtoi, Register, NumeralText, NumeralValue, Token, SkipOnlySpaces, Low32, Low8, Code;
    var n := st.num;
    NumeralToken(n);
    NumeralAlone(n);
    LowOfWrap(NumeralValue(n));
    TokenAlone(NumeralText(n));
    if st.i.Inc? || st.i.Dec? || st.i.Push? || st.i.Pop? {
      RegisterReads(st.i.r);
      TokenAlone(NameOf(st.i.r));
    }
  }

  lemma MnemonicToken(i: Instr)
    ensures Token(Mnemonic(i)) && |Mnemonic(i)| <= WORD_LIMIT
  {
  }

  // A line gives exactly the code of the instruction it names.
  lemma StatementReads(st: Statement)
    requires Legible(st)
    ensures Encode(Line(st)) == One(st.i)
  {
    hide Encode, EncodeParts, Operands, Solid, Token, Mnemonic;
    MnemonicToken(st.i);
    if OfRegisters(st.i) {
      RegisterPairsRead(st);
    } else if Mnemonic(st.i) in PAIRED {
      NumberPairsRead(st);
    } else {
      SinglesRead(st);
    }
    PartsReads(st.before, Mnemonic(st.i), st.gap, Operands(st), st.after);
  }

  // With a blank in front of the comma the destination is no register any more: a complaint, no code.
  lemma BlankBeforeComma(st: Statement, n: nat)
    requires Legible(st) && (OfRegisters(st.i) || st.i.MovImm? || st.i.AddImm?)
    ensures var d := if OfRegisters(st.i) then st.i.dst else st.i.r;
      var source := if OfRegisters(st.i) then NameOf(st.i.src) else NumeralText(st.num);
      EncodeParts(Mnemonic(st.i), Pair(NameOf(d) + Blanks(n + 1), st.inner, source)) == COMPLAINT
  {
    hide EncodeParts, Strtoi, NumeralText, NumeralValue, Token, Solid, Pair, Low32, Low8, Code, Operands;
    var d := if OfRegisters(st.i) then st.i.dst else st.i.r;
    var source := if OfRegisters(st.i) then NameOf(st.i.src) else NumeralText(st.num);
    if OfRegisters(st.i) {
      RegisterReads(st.i.src);
    } else {
      NumeralToken(st.num);
    }
    LongNotRegister(d, n);
    PairReads(Mnemonic(st.i), NameOf(d) + Blanks(n + 1), st.inner, source);
  }

  lemma LongNotRegister(d: reg, n: nat)
    ensures Register(NameOf(d) + Blanks(n + 1)) == -1 && Leftmost(NameOf(d) + Blanks(n + 1))
  {
    assert |NameOf(d) + Blanks(n + 1)| > 3;
  }

  // A register as the source of mov is read as the number 0.
  lemma MovRegisterLoadsZero(d: reg, s: reg, before: nat, gap: nat, inner: nat, after: nat)
    requires inner <= ARGS_LIMIT - 7
    ensures Encode(Blanks(before) + "mov" + (Blanks(gap + 1) + Pair(NameOf(d), inner, NameOf(s)) + Blanks(after)))
            == One(MovImm(d, 0))
  {
    hide Encode, EncodeParts, Register, Solid, Token, Pair, SkipOnlySpaces;
    RegisterReads(d);
    RegisterReads(s);
    assert Token("mov") by { MnemonicToken(MovImm(d, 0)); }
    PairReads("mov", NameOf(d), inner, NameOf(s));
    ThreeLetters(d, inner, s);
    LineReads(before, "mov", Blanks(gap + 1), Pair(NameOf(d), inner, NameOf(s)), after);
  }

  lemma ThreeLetters(d: reg, inner: nat, s: reg)
    ensures |Pair(NameOf(d), inner, NameOf(s))| == inner + 7 && Pair(NameOf(d), inner, NameOf(s)) != ""
    ensures Low32(Strtoi(NameOf(s))) == 0
  {
    assert NameOf(s)[0] == 'e';
  }

  // ----- the other lines -----

  // `db` puts out one byte: a number's lowest, or the character after a quote.
  lemma DataNumber(before: nat, gap: nat, n: Numeral, after: nat)
    requires Proper(n) && |NumeralText(n)| <= 127
    ensures Encode(Spaced(before, "db", gap, NumeralText(n), after)) == Encoding([Low8(NumeralValue(n))], false)
  {
    hide Encode, Strtoi, Register, NumeralText, NumeralValue, Low8, Spaced, Wrap32;
    NumeralToken(n);
    NumeralAlone(n);
    LowOfWrap(NumeralValue(n));
    TokenAlone(NumeralText(n));
    assert Token("db") && NumeralText(n) != "" && NumeralText(n)[0] != '\'' by { NoQuote(n); }
    PartsReads(before, "db", gap, NumeralText(n), after);
  }

  lemma NoQuote(n: Numeral)
    requires Proper(n)
    ensures NumeralText(n) != "" && NumeralText(n)[0] != '\'' && Token("db")
  {
  }

  lemma DataCharacter(before: nat, gap: nat, c: char, rest: string, after: nat)
    requires c != '\n' && Solid(rest) && rest != "" && |rest| <= 125
    ensures Encode(Spaced(before, "db", gap, "'" + ([c] + rest), after)) == Encoding([c as int % 0x100], false)
  {
    hide Encode, EncodeParts, Strtoi, Register, Spaced;
    var q := "'" + ([c] + rest);
    assert q[1] == c && q[|q| - 1] == rest[|rest| - 1];
    assert Solid(q) && Token("db");
    SkipsBlanks(0, q);
    assert Blanks(0) + q == q;
    PartsReads(before, "db", gap, q, after);
    DataParts(q);
  }

  lemma DataParts(o: string)
    requires SkipOnlySpaces(o) == o
    ensures EncodeParts("db", o) == Encoding([DataByte(o)], false)
  {
    hide Strtoi, Register, SkipOnlySpaces, FindFrom, EncodePair, Code, DataByte;
  }

  // An empty line and a comment give nothing, and no message.
  lemma CommentSilent(w: string, c: char, rest: string)
    requires White(w) && c in ";#"
    ensures Encode(w) == SILENCE && Encode(w + ([c] + rest)) == SILENCE
  {
    hide SkipSpaces, LineLength, TrimBlanks, EncodePair;
    SkipsWhite(w, "");
    assert w + "" == w;
    SkipsWhite(w, [c] + rest);
    FirstOfWord(c, rest);
  }

  lemma FirstOfWord(c: char, rest: string)
    requires !IsSpace(c)
    ensures var n := WordLength([c] + rest, WORD_LIMIT); n > 0 && ([c] + rest)[..n][0] == c
  {
  }

  predicate Unknown(m: string)
  {
    && m != "nop" && m != "ret" && m != "int" && m != "mov" && m != "xor" && m != "add" && m != "sub" && m != "inc"
    && m != "dec" && m != "push" && m != "pop" && m != "call" && m != "jmp" && m != "cmp" && m != "hlt" && m != "cli"
    && m != "sti" && m != "out" && m != "in" && m != "db"
  }

  // A word that is none of these draws a complaint; `echo` and `print`, for two.
  lemma UnknownComplains(before: nat, m: string, gap: nat, o: string, after: nat)
    requires Token(m) && |m| <= 31 && Solid(o) && |o| <= 127 && m[0] !in ";#" && Unknown(m)
    ensures Encode(Spaced(before, m, gap, o, after)) == Encoding([], true)
  {
    hide Encode, EncodeParts, Spaced, Solid, Unknown;
    PartsReads(before, m, gap, o, after);
    UnknownParts(m, o);
  }

  lemma UnknownParts(m: string, o: string)
    requires m != "" && m[0] !in ";#" && Unknown(m)
    ensures EncodeParts(m, o) == Encoding([], true)
  {
    hide Strtoi, Register, SkipOnlySpaces, FindFrom, EncodePair, Code;
  }

  // Two operands without a comma: `mov` complains, the others do nothing.
  lemma CommaMissing(before: nat, m: string, gap: nat, o: string, after: nat)
    requires m in {"mov", "xor", "add", "sub", "cmp", "out", "in"} && Solid(o) && |o| <= 127 && ',' !in o
    ensures Encode(Spaced(before, m, gap, o, after)) == Encoding([], m == "mov")
  {
    hide Encode, Spaced, Solid, FindFrom;
    assert Token(m);
    PartsReads(before, m, gap, o, after);
    CharAbsent(o, ',');
  }

  ghost predicate IsRegister(s: string) { exists g :: s == Spelled(g) }

  // Where a register must stand and none does, the line gives a message and no code: in front of the comma,
  // where there may be nothing at all, behind it for `xor`, `sub` and `cmp`, and alone.
  lemma PairRefused(before: nat, m: string, gap: nat, l: string, inner: nat, r: string, after: nat)
    requires m in {"mov", "xor", "add", "sub", "cmp"} && (l == "" || Leftmost(l)) && Token(r) && |Pair(l, inner, r)| <= 127
    requires !IsRegister(l) || (m in {"xor", "sub", "cmp"} && !IsRegister(r))
    ensures Encode(Spaced(before, m, gap, Pair(l, inner, r), after)) == Encoding([], true)
  {
    hide Encode, Spaced, EncodeParts, Register, Solid, Token, Pair, Leftmost, Spelled, Strtoi;
    assert Token(m) && m in PAIRED by { TokenOfPair(m); }
    RegisterExact(l);
    RegisterExact(r);
    if l == "" {
      EmptyLeft(m, inner, r);
    } else {
      PairReads(m, l, inner, r);
    }
    PartsReads(before, m, gap, Pair(l, inner, r), after);
  }

  lemma TokenOfPair(m: string)
    requires m in {"mov", "xor", "add", "sub", "cmp"}
    ensures Token(m) && m in PAIRED && |m| <= 31
  {
  }

  lemma EmptyLeft(m: string, inner: nat, r: string)
    requires m in PAIRED && Token(r)
    ensures EncodeParts(m, Pair("", inner, r)) == EncodePair(m, "", r) && Solid(Pair("", inner, r))
  {
    hide EncodePair, EncodeSingle, SkipOnlySpaces, AsmText.Left, Right, Solid, Blanks;
    var o, t := Pair("", inner, r), Blanks(inner) + r;
    assert o == "," + t;
    CommaFirst(o, t);
    TokenStarts(r);
    SkipsBlanks(inner, r);
    EmptySolid(o, t, inner, r);
  }

  lemma CommaFirst(o: string, t: string)
    requires o == "," + t
    ensures FindFrom(o, ",", 0) == 0 && |o| > 0 && AsmText.Left(o, 0) == "" && Right(o, 0) == SkipOnlySpaces(t)
  {
    assert o[0..1] == ",";
    assert o[..0] == "" && o[1..] == t;
  }

  lemma EmptySolid(o: string, t: string, inner: nat, r: string)
    requires o == "," + t && t == Blanks(inner) + r && Token(r)
    ensures Solid(o)
  {
    assert o[0] == ',' && o[|o| - 1] == r[|r| - 1];
  }

  lemma SingleRefused(before: nat, m: string, gap: nat, o: string, after: nat)
    requires m in {"inc", "dec", "pop"} && Token(o) && |o| <= 127 && !IsRegister(o)
    ensures Encode(Spaced(before, m, gap, o, after)) == Encoding([], true)
  {
    hide Encode, Spaced, EncodeParts, Register, Solid, Token, Spelled;
    assert Token(m) && |m| <= 31 by { TokenOfSingle(m); }
    TokenAlone(o);
    RegisterExact(o);
    PartsReads(before, m, gap, o, after);
    SingleParts(m, o);
  }

  lemma TokenOfSingle(m: string)
    requires m in {"inc", "dec", "pop"}
    ensures Token(m) && |m| <= 31
  {
  }

  lemma SingleParts(m: string, o: string)
    requires m in {"inc", "dec", "pop"} && SkipOnlySpaces(o) == o && Register(o) == -1
    ensures EncodeParts(m, o) == Encoding([], true)
  {
    hide Register, SkipOnlySpaces, FindFrom, EncodePair, Code, Strtoi;
  }

  // `sub` and `cmp` know eax, ecx, edx and ebx only; `out` and `in` only al and ax.
  lemma HighRefused(before: nat, m: string, gap: nat, d: reg, inner: nat, s: reg, after: nat)
    requires m in {"sub", "cmp"} && (d >= 4 || s >= 4) && inner <= 120
    ensures Encode(Spaced(before, m, gap, Pair(NameOf(d), inner, NameOf(s)), after)) == Encoding([], true)
  {
    hide Encode, Spaced, EncodeParts, Register, Solid, Token, Pair, SkipOnlySpaces;
    RegisterReads(d);
    RegisterReads(s);
    assert Token(m) by { TokensOfPairs(m); }
    PairReads(m, NameOf(d), inner, NameOf(s));
    ThreeLetters(d, inner, s);
    PartsReads(before, m, gap, Pair(NameOf(d), inner, NameOf(s)), after);
  }

  lemma TokensOfPairs(m: string)
    requires m in {"sub", "cmp", "out", "in"}
    ensures Token(m) && |m| <= 31
  {
  }

  lemma PortsOnly(before: nat, m: string, gap: nat, l: string, inner: nat, r: string, after: nat)
    requires m in {"out", "in"} && Leftmost(l) && Token(r) && |Pair(l, inner, r)| <= 127
    requires (if m == "out" then r else l) !in {"al", "ax"}
    ensures Encode(Spaced(before, m, gap, Pair(l, inner, r), after)) == Encoding([], false)
  {
    hide Encode, Spaced, EncodeParts, Solid, Token, Pair, Strtoi;
    assert Token(m) && |m| <= 31 by { TokensOfPairs(m); }
    PairReads(m, l, inner, r);
    PartsReads(before, m, gap, Pair(l, inner, r), after);
  }
}
