// What a condition and a plain line of the script language mean: the machine that the control flow
// runs on.
module LshLines {
  import opened CString
  import opened LshControl
  import opened LshVars

  // Text written to the terminal, or a command handed to the shell.
  datatype Event = Say(text: string) | Command(text: string)

  datatype Shell = Shell(store: Store, events: seq<Event>)

  function Said(s: Shell, text: string): Shell { s.(events := s.events + [Say(text)]) }

  // ----- conditions -----

  const OPERATORS: seq<string> := ["==", "!=", "<=", ">=", "<", ">", "eq", "ne"]

  function Number(st: Store, text: string): int
  {
    var s := SkipSpaces(text);
    if s != "" && (IsDigit(s[0]) || (s[0] == '-' && |s| > 1 && IsDigit(s[1]))) then AtoiFrom(s, 0)
    else if s != "" && s[0] == '$' then AtoiFrom(Value(st, s[1..][..NameRun(s[1..], NAME_SIZE - 1)]), 0)
    else 0
  }

  function Filled(st: Store, text: string, size: nat): string
    requires size > 0
  {
    Truncated(Expanded(st, text), size)
  }

  predicate Compare(st: Store, left: string, op: string, right: string)
  {
    var l, r := Number(st, left), Number(st, right);
    if op == "==" then l == r
    else if op == "!=" then l != r
    else if op == "<" then l < r
    else if op == ">" then l > r
    else if op == "<=" then l <= r
    else if op == ">=" then l >= r
    else if op == "eq" then Filled(st, left, VALUE_SIZE) == Filled(st, right, VALUE_SIZE)
    else if op == "ne" then Filled(st, left, VALUE_SIZE) != Filled(st, right, VALUE_SIZE)
    else false
  }

  function TrimEnd(s: string, newlines: bool): (r: string)
    ensures r <= s
  {
    if s != "" && (IsSpace(s[|s| - 1]) || (newlines && s[|s| - 1] == '\n')) then TrimEnd(s[..|s| - 1], newlines)
    else s
  }

  // The first operator of the list, from number `i` on, that occurs in `s`; 8 if there is none.
  function OperatorFrom(s: string, i: nat): (k: nat)
    requires i <= |OPERATORS|
    ensures i <= k <= |OPERATORS|
    ensures k < |OPERATORS| ==> FindFrom(s, OPERATORS[k], 0) >= 0
    ensures forall j :: i <= j < k ==> FindFrom(s, OPERATORS[j], 0) < 0
    decreases |OPERATORS| - i
  {
    if i == |OPERATORS| || FindFrom(s, OPERATORS[i], 0) >= 0 then i else OperatorFrom(s, i + 1)
  }

  predicate SplitAt(st: Store, s: string, at: nat, op: string)
    requires at + |op| <= |s|
  {
    Compare(st, TrimEnd(s[..at], false), op, TrimEnd(SkipSpaces(s[at + |op|..]), true))
  }

  predicate Condition(st: Store, text: string)
  {
    var s := SkipSpaces(text);
    var k := OperatorFrom(s, 0);
    k < |OPERATORS| && SplitAt(st, s, FindFrom(s, OPERATORS[k], 0), OPERATORS[k])
  }

  // How an author writes a condition: two operands and an operator, spaced in any way, and what the line's
  // end leaves behind them.
  datatype Relation = Equal | Unequal | AtMost | AtLeast | Less | More | Same | Different

  function Sign(r: Relation): string
  {
    match r
    case Equal => "==" case Unequal => "!=" case AtMost => "<=" case AtLeast => ">=" case Less => "<" case More => ">"
    case Same => "eq" case Different => "ne"
  }

  predicate IsWord(r: Relation) { r == Same || r == Different }

  datatype Comparison =
    Comparison(left: string, before: string, relation: Relation, after: string, right: string, tail: string)

  predicate IsSymbol(c: char) { c in "=!<>" }

  predicate Operand(s: string)
  {
    && (forall i :: 0 <= i < |s| ==> !IsSymbol(s[i]))
    && (s != "" ==> s[0] !in " \t" && s[|s| - 1] !in " \t\n")
  }

  // A word operator is set off by blanks, and no operand holds what could be taken for it.
  ghost predicate Unmistaken(c: Comparison)
  {
    && (IsWord(c.relation) ==> c.before != "" && c.after != "" && !Contains(c.left, "eq"))
    && (c.relation == Different ==> !Contains(c.left, "ne") && !Contains(c.right, "eq"))
  }

  predicate AllBlank(s: string) { forall k :: 0 <= k < |s| ==> s[k] in " \t\n" }

  ghost predicate Legible(c: Comparison)
  {
    && c.left != "" && Operand(c.left) && Operand(c.right) && White(c.before) && White(c.after) && AllBlank(c.tail)
    && Unmistaken(c)
  }

  function Front(c: Comparison): string { c.left + c.before }

  function Back(c: Comparison): string { c.after + (c.right + c.tail) }

  function Written(c: Comparison): string { Front(c) + Sign(c.relation) + Back(c) }

  function Index(r: Relation): (k: nat)
    ensures k < |OPERATORS| && OPERATORS[k] == Sign(r) && (IsWord(r) <==> k >= 6)
  {
    match r
    case Equal => 0 case Unequal => 1 case AtMost => 2 case AtLeast => 3 case Less => 4 case More => 5
    case Same => 6 case Different => 7
  }

  lemma ThreeAt(a: string, op: string, b: string, i: nat)
    requires i < |a + op + b|
    ensures (a + op + b)[i] == if i < |a| then a[i] else if i < |a| + |op| then op[i - |a|] else b[i - |a| - |op|]
  {
  }

  predicate Symbolless(s: string) { forall i :: 0 <= i < |s| ==> !IsSymbol(s[i]) }

  lemma SymbolPlace(a: string, k: nat, b: string, j: nat, i: nat)
    requires k < 8 && j < 6 && Symbolless(a) && Symbolless(b) && Occurs(a + OPERATORS[k] + b, OPERATORS[j], i)
    ensures k < 6 && i >= |a| && (j <= k ==> j == k && i == |a|)
  {
    var s, p := a + OPERATORS[k] + b, OPERATORS[j];
    assert s[i] == s[i..i + |p|][0] == p[0];
    ThreeAt(a, OPERATORS[k], b, i);
    if |p| == 2 {
      assert s[i + 1] == s[i..i + |p|][1] == p[1];
      ThreeAt(a, OPERATORS[k], b, i + 1);
    }
  }

  // Characters of the parts around the operator.
  lemma FrontAt(c: Comparison, i: nat)
    requires i < |Front(c)|
    ensures Front(c)[i] == if i < |c.left| then c.left[i] else c.before[i - |c.left|]
  {
  }

  lemma BackAt(c: Comparison, i: nat)
    requires i < |Back(c)|
    ensures Back(c)[i] == if i < |c.after| then c.after[i]
                          else if i < |c.after| + |c.right| then c.right[i - |c.after|]
                          else c.tail[i - |c.after| - |c.right|]
  {
  }

  lemma PartsSymbolless(c: Comparison)
    requires Legible(c)
    ensures Symbolless(Front(c)) && Symbolless(Back(c))
  {
    hide Unmistaken;
    forall i | 0 <= i < |Front(c)|
      ensures !IsSymbol(Front(c)[i])
    {
      FrontAt(c, i);
    }
    forall i | 0 <= i < |Back(c)|
      ensures !IsSymbol(Back(c)[i])
    {
      BackAt(c, i);
    }
  }

  // A word of two letters in front of the operator would lie in the left operand, one behind it in the right.
  lemma WordInFront(c: Comparison, p: string, i: nat)
    requires Legible(c) && IsWord(c.relation) && p in {"eq", "ne"} && i < |Front(c)| && Occurs(Written(c), p, i)
    ensures Contains(c.left, p)
  {
    hide Operand;
    var s := Written(c);
    assert s[i] == s[i..i + 2][0] == p[0] && s[i + 1] == s[i..i + 2][1] == p[1];
    ThreeAt(Front(c), Sign(c.relation), Back(c), i);
    ThreeAt(Front(c), Sign(c.relation), Back(c), i + 1);
    FrontAt(c, i);
    if i + 1 < |Front(c)| {
      FrontAt(c, i + 1);
    }
    assert i + 2 <= |c.left|;
    assert c.left[i..i + 2] == p;
    assert Occurs(c.left, p, i);
  }

  lemma WordBehind(c: Comparison, p: string, i: nat)
    requires Legible(c) && IsWord(c.relation) && p in {"eq", "ne"} && i > |Front(c)| && Occurs(Written(c), p, i)
    ensures Contains(c.right, p)
  {
    hide Operand;
    var s := Written(c);
    var n := |Front(c)| + 2;
    assert s[i] == s[i..i + 2][0] == p[0] && s[i + 1] == s[i..i + 2][1] == p[1];
    ThreeAt(Front(c), Sign(c.relation), Back(c), i);
    ThreeAt(Front(c), Sign(c.relation), Back(c), i + 1);
    BackAt(c, i + 1 - n);
    if i >= n {
      BackAt(c, i - n);
    }
    var x := i - n - |c.after|;
    assert 0 <= x && x + 2 <= |c.right|;
    assert c.right[x..x + 2] == p;
    assert Occurs(c.right, p, x);
  }

  lemma OperatorPlace(c: Comparison)
    requires Legible(c)
    ensures forall j: nat :: j < Index(c.relation) ==> FindFrom(Written(c), OPERATORS[j], 0) < 0
    ensures FindFrom(Written(c), Sign(c.relation), 0) == |Front(c)|
  {
    hide Operand, Symbolless;
    var s, k := Written(c), Index(c.relation);
    PartsSymbolless(c);
    assert s[|Front(c)|..|Front(c)| + |Sign(c.relation)|] == Sign(c.relation);
    assert Occurs(s, Sign(c.relation), |Front(c)|);
    forall j: nat, i: nat | j <= k && Occurs(s, OPERATORS[j], i)
      ensures i >= |Front(c)| && j == k
    {
      if j < 6 {
        SymbolPlace(Front(c), k, Back(c), j, i);
      } else {
        NoEarlierWord(c, j, i);
      }
    }
    forall j: nat | j < k
      ensures FindFrom(s, OPERATORS[j], 0) < 0
    {
      var f := FindFrom(s, OPERATORS[j], 0);
    }
  }

  lemma NoEarlierWord(c: Comparison, j: nat, i: nat)
    requires Legible(c) && 6 <= j <= Index(c.relation) && Occurs(Written(c), OPERATORS[j], i)
    ensures i >= |Front(c)| && j == Index(c.relation)
  {
    hide Operand;
    var p := OPERATORS[j];
    if i < |Front(c)| {
      WordInFront(c, p, i);
    } else if i > |Front(c)| {
      WordBehind(c, p, i);
    } else {
      assert Written(c)[i..i + 2] == Sign(c.relation);
    }
  }

  lemma {:induction false} TrimsTail(s: string, tail: string, newlines: bool)
    requires forall k :: 0 <= k < |tail| ==> tail[k] in " \t" || (newlines && tail[k] == '\n')
    requires s != "" ==> s[|s| - 1] !in " \t\n"
    ensures TrimEnd(s + tail, newlines) == s
    decreases |tail|
  {
    if tail == "" {
      assert s + tail == s;
    } else {
      var n := |tail| - 1;
      assert (s + tail)[..|s + tail| - 1] == s + tail[..n];
      TrimsTail(s, tail[..n], newlines);
    }
  }

  lemma {:induction false} SkipsToRest(s: string) returns (w: string)
    ensures s == w + SkipSpaces(s) && White(w)
  {
    w := "";
    if s != "" && IsSpace(s[0]) {
      var v := SkipsToRest(s[1..]);
      w := [s[0]] + v;
      assert s == [s[0]] + s[1..];
    }
  }

  lemma BackTrims(c: Comparison)
    requires Legible(c)
    ensures TrimEnd(SkipSpaces(Back(c)), true) == c.right
  {
    hide Unmistaken, TrimEnd, SkipSpaces;
    if c.right != "" {
      SkipsWhite(c.after, c.right + c.tail);
      TrimsTail(c.right, c.tail, true);
    } else {
      var s := Back(c);
      var w := SkipsToRest(s);
      var r := SkipSpaces(s);
      forall k | 0 <= k < |r|
        ensures r[k] in " \t\n"
      {
        assert r[k] == s[|w| + k];
        BackAt(c, |w| + k);
      }
      TrimsTail("", r, true);
      assert "" + r == r;
    }
  }

  // The condition compares what its author wrote, as its author meant.
  lemma ConditionReads(st: Store, c: Comparison)
    requires Legible(c)
    ensures Condition(st, Written(c)) == Compare(st, c.left, Sign(c.relation), c.right)
  {
    hide Compare, Unmistaken, FindFrom, OperatorFrom, TrimEnd, Sign, Index;
    var s := Written(c);
    var a, op := |Front(c)|, Sign(c.relation);
    assert s[0] == c.left[0];
    assert SkipSpaces(s) == s;
    OperatorPlace(c);
    OperatorFound(s, 0, Index(c.relation));
    assert s[..a] == Front(c) && s[a + |op|..] == Back(c);
    TrimsTail(c.left, c.before, false);
    BackTrims(c);
  }

  lemma {:induction false} OperatorFound(s: string, i: nat, k: nat)
    requires i <= k < |OPERATORS| && FindFrom(s, OPERATORS[k], 0) >= 0
    requires forall j: nat :: j < k ==> FindFrom(s, OPERATORS[j], 0) < 0
    ensures OperatorFrom(s, i) == k
    decreases k - i
  {
    if i < k {
      OperatorFound(s, i + 1, k);
    }
  }

  // ----- what comparisons are for -----

  // An operand that stands for a number: the number, or a variable that holds it.
  ghost predicate StandsFor(st: Store, operand: string, n: nat)
  {
    || operand == Decimal(n)
    || exists name :: |name| < 32 && AllNames(name) && operand == "$" + name && Value(st, name) == Decimal(n)
  }

  lemma NumberReads(st: Store, operand: string, n: nat)
    requires StandsFor(st, operand, n)
    ensures Number(st, operand) == Wrap32(n)
  {
    hide Value, Decimal, AtoiFrom, Wrap32;
    NumberStops(n, "");
    assert Decimal(n) + "" == Decimal(n);
    if operand != Decimal(n) {
      var name :| |name| < 32 && AllNames(name) && operand == "$" + name && Value(st, name) == Decimal(n);
      assert operand[1..] == name + "";
      NameRunExact(name, "", NAME_SIZE - 1);
      assert name[..|name|] == name;
    }
  }

  // What the numeric operators mean, of 32-bit words.
  predicate Holds(r: Relation, l: int, n: int)
    requires !IsWord(r)
  {
    match r
    case Equal => l == n case Unequal => l != n case AtMost => l <= n case AtLeast => l >= n case Less => l < n
    case More => l > n
  }

  // Operands that stand for numbers are compared as numbers, wrapped to 32 bits.
  lemma ComparesNumbers(st: Store, left: string, r: Relation, right: string, l: nat, n: nat)
    requires !IsWord(r) && StandsFor(st, left, l) && StandsFor(st, right, n)
    ensures Compare(st, left, Sign(r), right) <==> Holds(r, Wrap32(l), Wrap32(n))
  {
    hide Number, StandsFor, Filled, Wrap32;
    NumberReads(st, left, l);
    NumberReads(st, right, n);
  }

  // A minus sign makes any number zero.
  lemma MinusIsZero(st: Store, text: string)
    requires |text| > 1 && text[0] == '-' && IsDigit(text[1])
    ensures Number(st, text) == 0
  {
    assert SkipSpaces(text) == text;
  }

  // Anything that is not a number and not a reference counts as zero.
  lemma OtherIsZero(st: Store, text: string)
    requires text != "" && text[0] !in " \t-$" && !('0' <= text[0] <= '9')
    ensures Number(st, text) == 0 && Number(st, "") == 0
  {
    assert SkipSpaces(text) == text;
  }

  // Texts are compared after substitution, as far as 255 characters.
  lemma ComparesTexts(st: Store, p: seq<Piece>, q: seq<Piece>)
    requires Readable(p) && Readable(q)
    ensures var l, n := Truncated(Meaning(st, p), 256), Truncated(Meaning(st, q), 256);
      && (Compare(st, Text(p), "eq", Text(q)) <==> l == n)
      && (Compare(st, Text(p), "ne", Text(q)) <==> l != n)
  {
    hide Number, Expanded, Meaning, Text, Readable;
    ExpandsReferences(st, p);
    ExpandsReferences(st, q);
  }

  // ----- plain lines -----

  predicate AllNames(s: string) { forall i :: 0 <= i < |s| ==> IsName(s[i]) }

  // The place of the equals sign if the line is `name=value`, and otherwise -1.
  function AssignsAt(line: string): (e: int)
    ensures e == -1 || 0 < e < |line|
  {
    var e := FindFrom(line, "=", 0);
    if 0 < e < NAME_SIZE && AllNames(line[..e]) then e else -1
  }

  function WithoutNewline(s: string): string
  {
    if s != "" && s[|s| - 1] == '\n' then s[..|s| - 1] else s
  }

  // The value after the equals sign, still to be expanded.
  function RightSide(v: string): string
  {
    if v != "" && v[0] == '\"' then
      var q := FindFrom(v[1..], "\"", 0);
      if q >= 0 then v[1..][..q] else v[1..]
    else WithoutNewline(Truncated(v, VALUE_SIZE))
  }

  function SetLine(s: Shell, rest: string): Shell
  {
    var n := WordLength(rest, NAME_SIZE - 1);
    var value := WithoutNewline(Truncated(SkipSpaces(rest[n..]), VALUE_SIZE));
    s.(store := Assign(s.store, rest[..n], Filled(s.store, value, VALUE_SIZE)))
  }

  function ShellLine(s: Shell, rest: string): Shell
  {
    var command := WithoutNewline(Filled(s.store, rest, VALUE_SIZE));
    if command == "" then s else s.(events := s.events + [Command(command)])
  }

  const UNKNOWN := "lsh: unknown command '"
  const UNKNOWN_END := "'. Use 'sh command' to execute shell commands.\n"

  function Execute(line: string, s: Shell): Shell
  {
    var e := AssignsAt(line);
    if line == "" || line[0] == '\n' || line[0] == '#' then s
    else if e > 0 then
      s.(store := Assign(s.store, line[..e], Filled(s.store, RightSide(line[e + 1..]), VALUE_SIZE)))
    else if "set " <= line then SetLine(s, SkipSpaces(line[4..]))
    else if "print " <= line then Said(Said(s, WithoutNewline(Filled(s.store, line[6..], VALUE_SIZE))), "\n")
    else if "exit" <= line then s
    else if "sh " <= line then ShellLine(s, SkipSpaces(line[3..]))
    else if "sleep " <= line then s
    else Said(Said(Said(s, UNKNOWN), line), UNKNOWN_END)
  }

  // ----- what the lines are for -----

  // A value that keeps to its buffer.
  predicate Fitting(v: string) { |v| < 256 }

  predicate Named(name: string) { 0 < |name| < 32 && AllNames(name) }

  // Cutting a value before it is stored changes nothing, since storing cuts it.
  lemma CutTwice(st: Store, name: string, v: string)
    ensures Assign(st, name, Truncated(v, VALUE_SIZE)) == Assign(st, name, v)
  {
    hide IndexFrom;
  }

  lemma NamedStarts(name: string, v: string)
    requires Named(name)
    ensures var line := name + ("=" + v);
      line != "" && line[0] != '\n' && line[0] != '#' && AssignsAt(line) == |name|
      && line[..|name|] == name && line[|name| + 1..] == v
  {
    var line := name + ("=" + v);
    assert IsName(name[0]) && line[0] == name[0];
    assert '=' !in name by {
      assert forall k :: 0 <= k < |name| ==> IsName(name[k]);
    }
    CharFound(name, '=', v);
    assert line[..|name|] == name;
  }

  // `name=value`, with or without the line's end, assigns the value with its references replaced.
  lemma AssignmentRuns(s: Shell, name: string, p: seq<Piece>, end: string)
    requires Named(name) && Readable(p) && Fitting(Text(p) + end) && end in {"", "\n"} && (Text(p) != "" ==> Text(p)[0] != '\"')
    requires Text(p) != "" ==> Text(p)[|Text(p)| - 1] != '\n'
    ensures Execute(name + ("=" + (Text(p) + end)), s) == s.(store := Assign(s.store, name, Meaning(s.store, p)))
  {
    hide FindFrom, AssignsAt, Assign, Text, Meaning, Readable, RightSide;
    NamedStarts(name, Text(p) + end);
    ExpandsReferences(s.store, p);
    CutTwice(s.store, name, Meaning(s.store, p));
    UnquotedRight(Text(p), end);
  }

  lemma UnquotedRight(v: string, end: string)
    requires Fitting(v + end) && end in {"", "\n"} && (v != "" ==> v[0] != '\"' && v[|v| - 1] != '\n')
    ensures RightSide(v + end) == v
  {
    hide FindFrom, WithoutNewline;
    EndDropped(v, end);
  }

  lemma EndDropped(v: string, end: string)
    requires end in {"", "\n"} && (v != "" ==> v[|v| - 1] != '\n')
    ensures WithoutNewline(v + end) == v
  {
    if end == "" {
      assert v + end == v;
    } else {
      assert (v + end)[..|v|] == v;
    }
  }

  // `name="value"` does so with what is between the quotes.
  lemma QuotedRuns(s: Shell, name: string, p: seq<Piece>, rest: string)
    requires Named(name) && Readable(p) && '\"' !in Text(p)
    ensures Execute(name + ("=" + ("\"" + (Text(p) + ("\"" + rest)))), s)
            == s.(store := Assign(s.store, name, Meaning(s.store, p)))
  {
    hide FindFrom, AssignsAt, Assign, Text, Meaning, Readable;
    var v := Text(p);
    var quoted := "\"" + (v + ("\"" + rest));
    NamedStarts(name, quoted);
    ExpandsReferences(s.store, p);
    CutTwice(s.store, name, Meaning(s.store, p));
    CharFound(v, '\"', rest);
    assert quoted[1..] == v + ("\"" + rest);
    assert (v + ("\"" + rest))[..|v|] == v;
  }

  lemma BlankAssignsNothing(word: string, rest: string)
    requires word != "" && '=' !in word
    ensures AssignsAt(word + (" " + rest)) == -1
  {
    var line := word + (" " + rest);
    var e := FindFrom(line, "=", 0);
    assert forall k :: 0 <= k < |word| ==> line[k] == word[k];
    if e >= 0 {
      assert line[e] == line[e..e + 1][0] == '=';
      assert e > |word| ==> line[..e][|word|] == ' ';
    }
  }

  // `set name value` does the same, in any spacing.
  lemma SetRuns(s: Shell, lead: string, name: string, gap: string, p: seq<Piece>, end: string)
    requires Named(name) && Readable(p) && Fitting(Text(p) + end) && end in {"", "\n"} && White(lead) && White(gap) && gap != ""
    requires Text(p) != "" && Text(p)[0] !in " \t" && Text(p)[|Text(p)| - 1] != '\n'
    ensures Execute("set " + (lead + (name + (gap + (Text(p) + end)))), s)
            == s.(store := Assign(s.store, name, Meaning(s.store, p)))
  {
    hide FindFrom, AssignsAt, Assign, Text, Meaning, Readable, SkipSpaces;
    var v := Text(p) + end;
    var rest := lead + (name + (gap + v));
    var line := "set " + rest;
    assert line == "set" + (" " + rest);
    BlankAssignsNothing("set", rest);
    assert line[4..] == rest;
    NameBegins(name, gap + v);
    SkipsWhite(lead, name + (gap + v));
    SetWord(name, gap, v);
    EndDropped(Text(p), end);
    ExpandsReferences(s.store, p);
    CutTwice(s.store, name, Meaning(s.store, p));
  }

  // Without a value it assigns the empty text, and without a name to the empty name.
  lemma SetEmpty(s: Shell, lead: string, name: string, gap: string)
    requires White(lead) && White(gap) && (Named(name) || (name == "" && gap == ""))
    ensures Execute("set " + (lead + (name + gap)), s) == s.(store := Assign(s.store, name, ""))
  {
    hide FindFrom, AssignsAt, Assign, SkipSpaces, Expanded;
    var rest := lead + (name + gap);
    var line := "set " + rest;
    assert line == "set" + (" " + rest);
    BlankAssignsNothing("set", rest);
    assert line[4..] == rest;
    WordAlone(name, gap);
    SkipsWhite(lead, name + gap);
    ExpandsNothing(s.store);
    CutTwice(s.store, name, "");
  }

  lemma WordAlone(name: string, gap: string)
    requires White(gap) && (Named(name) || (name == "" && gap == ""))
    ensures var rest := name + gap;
      var n := WordLength(rest, NAME_SIZE - 1);
      n == |name| && rest[..n] == name && SkipSpaces(rest[n..]) == "" && (rest != "" ==> rest[0] != ' ' && rest[0] != '\t')
  {
    hide SkipSpaces;
    var rest := name + gap;
    assert forall k :: 0 <= k < |name| ==> IsName(name[k]);
    WordEnds(name, gap, NAME_SIZE - 1);
    assert name != "" ==> IsName(name[0]) && rest[0] == name[0];
    assert rest[|name|..] == gap;
    SkipsWhite(gap, "");
    assert gap + "" == gap;
  }

  lemma NameBegins(name: string, rest: string)
    requires Named(name)
    ensures name + rest != "" && (name + rest)[0] !in " \t\n#"
  {
    assert IsName(name[0]) && (name + rest)[0] == name[0];
  }

  lemma SetWord(name: string, gap: string, v: string)
    requires Named(name) && White(gap) && gap != "" && v != "" && v[0] !in " \t"
    ensures var rest := name + (gap + v);
      var n := WordLength(rest, NAME_SIZE - 1);
      n == |name| && rest[..n] == name && SkipSpaces(rest[n..]) == v
  {
    hide SkipSpaces;
    var rest := name + (gap + v);
    assert forall k :: 0 <= k < |name| ==> IsName(name[k]);
    WordEnds(name, gap + v, NAME_SIZE - 1);
    assert rest[|name|..] == gap + v;
    SkipsWhite(gap, v);
  }

  // `print text` says the text with its references replaced, at most 255 characters of it and without a
  // newline of its own, and ends the line.
  lemma PrintRuns(s: Shell, p: seq<Piece>)
    requires Readable(p)
    ensures var m := Truncated(Meaning(s.store, p), 256);
      Execute("print " + Text(p), s)
      == s.(events := s.events + [Say(if m != "" && m[|m| - 1] == '\n' then m[..|m| - 1] else m), Say("\n")])
  {
    hide FindFrom, AssignsAt, Assign, Text, Meaning, Readable;
    var line := "print " + Text(p);
    assert line == "print" + (" " + Text(p));
    BlankAssignsNothing("print", Text(p));
    assert line[6..] == Text(p);
    ExpandsReferences(s.store, p);
  }

  // `sh text` hands the shell the text with its references replaced, unless that is nothing.
  lemma ShRuns(s: Shell, lead: string, p: seq<Piece>)
    requires Readable(p) && White(lead) && (Text(p) != "" ==> Text(p)[0] !in " \t")
    ensures var m := Truncated(Meaning(s.store, p), 256);
      var command := if m != "" && m[|m| - 1] == '\n' then m[..|m| - 1] else m;
      Execute("sh " + (lead + Text(p)), s) == if command == "" then s else s.(events := s.events + [Command(command)])
  {
    hide FindFrom, AssignsAt, Assign, Text, Meaning, Readable, SkipSpaces;
    var rest := lead + Text(p);
    var line := "sh " + rest;
    assert line == "sh" + (" " + rest);
    BlankAssignsNothing("sh", rest);
    assert line[3..] == rest && line[0] == 's' && line[1] == 'h';
    SkipsWhite(lead, Text(p));
    ExpandsReferences(s.store, p);
  }

  // `exit` and `sleep` neither say nor change anything.
  lemma ExitRuns(s: Shell, rest: string)
    requires '=' !in rest
    ensures Execute("exit" + rest, s) == s
  {
    hide FindFrom, AssignsAt;
    var line := "exit" + rest;
    assert '=' !in line;
    NothingAssigned(line);
    assert line[0] == 'e' && line[..4] == "exit";
  }

  lemma SleepRuns(s: Shell, rest: string)
    ensures Execute("sleep " + rest, s) == s
  {
    hide FindFrom, AssignsAt;
    var line := "sleep " + rest;
    assert line == "sleep" + (" " + rest);
    BlankAssignsNothing("sleep", rest);
    assert line[0] == 's' && line[1] == 'l' && line[..6] == "sleep ";
  }

  lemma NothingAssigned(line: string)
    ensures '=' !in line ==> AssignsAt(line) == -1
  {
    CharAbsent(line, '=');
  }

  // Any other line is quoted in a message.
  lemma UnknownSaid(s: Shell, line: string)
    requires line != "" && line[0] !in "\n#" && '=' !in line
    requires !("set " <= line) && !("print " <= line) && !("exit" <= line) && !("sh " <= line) && !("sleep " <= line)
    ensures Execute(line, s) == s.(events := s.events
      + [Say("lsh: unknown command '"), Say(line), Say("'. Use 'sh command' to execute shell commands.\n")])
  {
    hide FindFrom, AssignsAt;
    NothingAssigned(line);
  }

  // ----- the machine -----

  predicate Test(raw: string, s: Shell)
  {
    var l := SkipSpaces(raw);
    Condition(s.store, if "if " <= l then l[3..] else Drop(l, 6))
  }

  function Lsh(): Machine<Shell>
  {
    Machine((raw, s) => Test(raw, s), (raw, s) => Execute(SkipSpaces(raw), s), (text, s) => Said(s, text))
  }

  // ----- what every run keeps -----

  lemma NameFits(line: string)
    ensures AssignsAt(line) < NAME_SIZE
  {
  }

  lemma ExecuteSound(line: string, s: Shell)
    requires Sound(s.store)
    ensures Sound(Execute(line, s).store)
  {
    hide Expanded, FindFrom, RightSide, Assign, Sound;
    var e := AssignsAt(line);
    if e > 0 {
      NameFits(line);
      AssignSound(s.store, line[..e], Filled(s.store, RightSide(line[e + 1..]), VALUE_SIZE));
    }
    if "set " <= line {
      var rest := SkipSpaces(line[4..]);
      var n := WordLength(rest, NAME_SIZE - 1);
      var value := WithoutNewline(Truncated(SkipSpaces(rest[n..]), VALUE_SIZE));
      AssignSound(s.store, rest[..n], Filled(s.store, value, VALUE_SIZE));
    }
  }

  // Whatever the lines, well nested or not, a run leaves the table sound.
  lemma {:induction false} RunSound(lines: Lines, i: nat, end: nat, s: Shell)
    requires Sound(s.store)
    ensures Sound(Block(Lsh(), lines, i, end, s).store)
    decreases |lines| - i, LIMIT + 1
  {
    hide Sound, KindOf, Execute, Test, FindClose, FindElse, Loop;
    if i < end && i < |lines| {
      match KindOf(lines[i])
      case If =>
        var fi := FindFi(lines, i + 1);
        if fi >= 0 {
          var els := FindElse(lines, i + 1, fi, 1);
          RunSound(lines, i + 1, if els >= 0 then els else fi, s);
          if els >= 0 {
            RunSound(lines, els + 1, fi, s);
          }
          var s' := if Lsh().test(lines[i], s) then Block(Lsh(), lines, i + 1, if els >= 0 then els else fi, s)
                    else if els >= 0 then Block(Lsh(), lines, els + 1, fi, s)
                    else s;
          RunSound(lines, fi + 1, end, s');
        }
      case While =>
        var done := FindDone(lines, i + 1);
        if done >= 0 {
          LoopSound(lines, i, done, 0, s);
          RunSound(lines, done + 1, end, Loop(Lsh(), lines, i, done, 0, s));
        }
      case Plain =>
        ExecuteSound(SkipSpaces(lines[i]), s);
        RunSound(lines, i + 1, end, Lsh().run(lines[i], s));
      case _ =>
        RunSound(lines, i + 1, end, s);
    }
  }

  lemma {:induction false} LoopSound(lines: Lines, i: nat, done: nat, iterations: nat, s: Shell)
    requires Sound(s.store) && i < |lines| && iterations <= LIMIT
    ensures Sound(Loop(Lsh(), lines, i, done, iterations, s).store)
    decreases |lines| - i, LIMIT - iterations
  {
    hide Sound, KindOf, Execute, Test, FindClose, FindElse, Block;
    if Lsh().test(lines[i], s) && iterations < LIMIT {
      RunSound(lines, i + 1, done, s);
      LoopSound(lines, i, done, iterations + 1, Block(Lsh(), lines, i + 1, done, s));
    }
  }
}
