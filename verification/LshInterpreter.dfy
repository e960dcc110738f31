// The script interpreter as it runs: the static tables of variables and lines changed in place, and
// the loops that scan them.
module LshInterpreter {
  import opened CString
  import opened LshControl
  import opened LshVars
  import opened LshLines

  const MAX_LINES: nat := 256

  class Interpreter {
    const names: array<string>
    const values: array<string>
    var count: nat
    const lines: array<string>
    var lineCount: nat
    var events: seq<Event>

    ghost predicate Valid()
      reads this, names, values, lines
    {
      && names.Length == MAX_VARS && values.Length == MAX_VARS && names != values
      && lines != names && lines != values
      && count <= MAX_VARS && lineCount <= lines.Length
    }

    ghost function Store(): (st: Store)
      requires Valid()
      reads this, names, values, lines
      ensures |st| == count
      ensures forall i :: 0 <= i < count ==> st[i] == Var(names[i], values[i])
    {
      seq(count, i requires 0 <= i < count && Valid() reads this, names, values, lines => Var(names[i], values[i]))
    }

    ghost function Script(): Lines
      requires Valid()
      reads this, names, values, lines
    {
      lines[..lineCount]
    }

    ghost function State(): Shell
      requires Valid()
      reads this, names, values, lines
    {
      Shell(Store(), events)
    }

    // No variables yet, and a script of at most 256 lines in the table.
    constructor (script: Lines)
      requires |script| <= MAX_LINES
      ensures Valid() && Store() == [] && Script() == script && events == []
      ensures fresh(names) && fresh(values) && fresh(lines)
    {
      names := new string[MAX_VARS](_ => "");
      values := new string[MAX_VARS](_ => "");
      var table := new string[MAX_LINES](i => if 0 <= i < |script| then script[i] else "");
      lines := table;
      count, lineCount, events := 0, |script|, [];
      new;
      assert lines[..lineCount] == script;
    }

    // ----- variables -----

    method FindVar(name: string) returns (r: int)
      requires Valid()
      ensures r == IndexFrom(Store(), name, 0)
    {
      var i := 0;
      while i < count
        invariant i <= count
        invariant IndexFrom(Store(), name, 0) == IndexFrom(Store(), name, i)
      {
        if names[i] == name {
          return i;
        }
        i := i + 1;
      }
      r := -1;
    }

    method SetVar(name: string, value: string)
      requires Valid()
      modifies names, values, this`count
      ensures Valid() && Store() == Assign(old(Store()), name, value)
    {
      var i := FindVar(name);
      if i >= 0 {
        values[i] := Truncated(value, VALUE_SIZE);
      } else if count < MAX_VARS {
        names[count] := Truncated(name, NAME_SIZE);
        values[count] := Truncated(value, VALUE_SIZE);
        count := count + 1;
      }
    }

    method GetVar(name: string) returns (value: string)
      requires Valid()
      ensures value == Value(Store(), name)
    {
      var i := FindVar(name);
      value := if i >= 0 then values[i] else "";
    }

    method ExpandVariables(input: string, size: nat) returns (output: string)
      requires Valid() && size > 0
      ensures output == Filled(Store(), input, size)
    {
      hide IndexFrom, Value, Store, Expanded, Drop;
      output := "";
      var i := 0;
      ghost var st := Store();
      DropsNothing(input);
      while i < |input| && |output| < size - 1
        invariant |output| < size
        invariant Truncated(Expanded(st, input), size) == Truncated(output + Expanded(st, Drop(input, i)), size)
        decreases |input| - i
      {
        ghost var at := i;
        var value;
        if input[i] == '$' {
          value, i := Reference(input, i);
        } else {
          value := [input[i]];
          CharacterAt(st, input, i);
        }
        ghost var was, rest := output, Expanded(st, Drop(input, i + 1));
        assert Expanded(st, Drop(input, at)) == value + rest;
        output := Append(output, value, size);
        AppendFits(was, value, rest, size);
        i := i + 1;
      }
      EndReached(st, input, i, output);
    }

    // The value a dollar sign stands for, and the last place of its text.
    method Reference(input: string, at: nat) returns (value: string, i: nat)
      requires Valid() && at < |input| && input[at] == '$'
      ensures i >= at && Expanded(Store(), Drop(input, at)) == value + Expanded(Store(), Drop(input, i + 1))
    {
      hide IndexFrom, Value, Store, Expanded, NameRun, BraceRun, Drop, IsName, AfterBrace;
      ghost var st := Store();
      var name;
      if at + 1 < |input| && input[at + 1] == '{' {
        name, i := BracedName(input, at + 2);
        BracedAt(st, input, at, name, i);
      } else {
        name, i := PlainName(input, at + 1);
        PlainAt(st, input, at, name);
        i := i - 1;
      }
      value := GetVar(name);
      assert value == Value(st, name);
    }

    // ----- conditions -----

    method EvalExpr(text: string) returns (n: int)
      requires Valid()
      ensures n == Number(Store(), text)
    {
      var s := Skip(text);
      if s != "" && (IsDigit(s[0]) || (s[0] == '-' && |s| > 1 && IsDigit(s[1]))) {
        n := Atoi(s);
        return;
      }
      if s != "" && s[0] == '$' {
        var name, _ := PlainName(s, 1);
        var value := GetVar(name);
        n := Atoi(value);
        return;
      }
      n := 0;
    }

    method CompareValues(left: string, op: string, right: string) returns (r: bool)
      requires Valid()
      ensures r == Compare(Store(), left, op, right)
    {
      hide Number, Filled;
      var l := EvalExpr(left);
      var r' := EvalExpr(right);
      if op == "==" { return l == r'; }
      if op == "!=" { return l != r'; }
      if op == "<" { return l < r'; }
      if op == ">" { return l > r'; }
      if op == "<=" { return l <= r'; }
      if op == ">=" { return l >= r'; }
      var le := ExpandVariables(left, VALUE_SIZE);
      var re := ExpandVariables(right, VALUE_SIZE);
      if op == "eq" { return le == re; }
      if op == "ne" { return le != re; }
      r := false;
    }

    method ParseCondition(text: string) returns (r: bool)
      requires Valid()
      ensures r == Condition(Store(), text)
    {
      hide Compare, FindFrom, SkipSpaces, TrimEnd;
      var line := Skip(text);
      var i := 0;
      while i < |OPERATORS|
        invariant i <= |OPERATORS| && OperatorFrom(line, 0) == OperatorFrom(line, i)
      {
        var found := StrStr(line, OPERATORS[i]);
        if found >= 0 {
          var left := Trim(line[..found], false);
          var right := Skip(line[found + |OPERATORS[i]|..]);
          right := Trim(right, true);
          r := CompareValues(left, OPERATORS[i], right);
          assert OperatorFrom(line, 0) == i && r == SplitAt(Store(), line, found, OPERATORS[i]);
          return;
        }
        i := i + 1;
      }
      r := false;
    }

    // ----- keyword scans -----

    method FindMatchingFi(start: nat) returns (r: int)
      requires Valid()
      ensures r == FindFi(Script(), start)
    {
      hide KindOf;
      var depth, i := 1, start;
      while i < lineCount
        invariant depth > 0
        invariant FindFi(Script(), start) == FindClose(Script(), i, If, Fi, depth)
        decreases lineCount - i
      {
        assert lines[i] == Script()[i];
        var kind := KindOf(lines[i]);
        if kind == If {
          depth := depth + 1;
        } else if kind == Fi {
          depth := depth - 1;
          if depth == 0 {
            return i;
          }
        }
        i := i + 1;
      }
      r := -1;
    }

    method FindMatchingDone(start: nat) returns (r: int)
      requires Valid()
      ensures r == FindDone(Script(), start)
    {
      hide KindOf;
      var depth, i := 1, start;
      while i < lineCount
        invariant depth > 0
        invariant FindDone(Script(), start) == FindClose(Script(), i, While, Done, depth)
        decreases lineCount - i
      {
        assert lines[i] == Script()[i];
        var kind := KindOf(lines[i]);
        if kind == While {
          depth := depth + 1;
        } else if kind == Done {
          depth := depth - 1;
          if depth == 0 {
            return i;
          }
        }
        i := i + 1;
      }
      r := -1;
    }

    method FindElseLine(start: nat, fi: nat) returns (r: int)
      requires Valid() && fi <= lineCount
      ensures r == FindElse(Script(), start, fi, 1)
    {
      hide KindOf;
      var depth, i := 1, start;
      while i < fi
        invariant FindElse(Script(), start, fi, 1) == FindElse(Script(), i, fi, depth)
        decreases fi - i
      {
        assert lines[i] == Script()[i];
        var kind := KindOf(lines[i]);
        if kind == If {
          depth := depth + 1;
        } else if kind == Else {
          depth := depth - 1;
          if depth == 0 {
            return i;
          }
        } else if kind == Fi {
          depth := depth - 1;
        }
        i := i + 1;
      }
      r := -1;
    }

    // ----- running -----

    method Write(text: string)
      requires Valid()
      modifies this`events
      ensures Valid() && State() == Said(old(State()), text)
    {
      events := events + [Say(text)];
    }

    method ExecuteLine(raw: string)
      requires Valid()
      modifies names, values, this`count, this`events
      ensures Valid() && State() == Execute(SkipSpaces(raw), old(State()))
    {
      hide Expanded, FindFrom, Assign, Filled, IndexFrom, Truncated, SetLine, ShellLine, WithoutNewline, Store,
        AssignsAt, RightSide;
      var line := Skip(raw);
      if line == "" || line[0] == '\n' || line[0] == '#' {
        return;
      }
      var e := NameBefore(line);
      if e > 0 {
        ExecuteAssignment(line, e);
      } else if "set " <= line {
        ExecuteSet(line[4..]);
      } else if "print " <= line {
        var expanded := ExpandVariables(line[6..], VALUE_SIZE);
        Write(WithoutNewline(expanded));
        Write("\n");
      } else if "exit" <= line {
      } else if "sh " <= line {
        ExecuteShell(line[3..]);
      } else if "sleep " <= line {
      } else {
        Write(UNKNOWN);
        Write(line);
        Write(UNKNOWN_END);
      }
    }

    method ExecuteAssignment(line: string, e: int)
      requires Valid() && 0 < e < |line|
      modifies names, values, this`count
      ensures Valid() && events == old(events)
      ensures Store() == Assign(old(Store()), line[..e], Filled(old(Store()), RightSide(line[e + 1..]), VALUE_SIZE))
    {
      hide Expanded, FindFrom, Assign, Filled, IndexFrom, Truncated, RightSide;
      var value := QuotedOrRest(line[e + 1..]);
      var expanded := ExpandVariables(value, VALUE_SIZE);
      SetVar(line[..e], expanded);
    }

    method ExecuteShell(text: string)
      requires Valid()
      modifies this`events
      ensures Valid() && State() == ShellLine(old(State()), SkipSpaces(text))
    {
      hide Expanded, FindFrom, Assign, Filled, IndexFrom, Truncated, WithoutNewline;
      var command := Skip(text);
      var expanded := ExpandVariables(command, VALUE_SIZE);
      expanded := WithoutNewline(expanded);
      if |expanded| > 0 {
        events := events + [Command(expanded)];
      }
    }

    method ExecuteSet(text: string)
      requires Valid()
      modifies names, values, this`count
      ensures Valid() && State() == SetLine(old(State()), SkipSpaces(text))
    {
      hide Expanded, FindFrom, Assign, Filled, IndexFrom, Truncated;
      var rest := Skip(text);
      var n := 0;
      while n < |rest| && !IsSpace(rest[n]) && n < NAME_SIZE - 1
        invariant n <= |rest| && n < NAME_SIZE
        invariant n + WordLength(rest[n..], NAME_SIZE - 1 - n) == WordLength(rest, NAME_SIZE - 1)
      {
        assert rest[n..][1..] == rest[n + 1..];
        n := n + 1;
      }
      var value := Skip(rest[n..]);
      value := WithoutNewline(Truncated(value, VALUE_SIZE));
      var expanded := ExpandVariables(value, VALUE_SIZE);
      SetVar(rest[..n], expanded);
    }

    method ExecuteBlock(start: nat, end: nat)
      requires Valid()
      modifies names, values, this`count, this`events
      ensures Valid() && State() == Block(Lsh(), Script(), start, end, old(State()))
      decreases lineCount - start
    {
      hide KindOf, Condition, Execute, FindClose, FindElse, Loop, Block, Said, Store;
      ghost var m, code, was := Lsh(), Script(), State();
      var i := start;
      while i < end && i < lineCount
        invariant start <= i && Valid() && Script() == code && lineCount == old(lineCount)
        invariant Block(m, code, start, end, was) == Block(m, code, i, end, State())
        decreases lineCount - i
      {
        assert lines[i] == code[i];
        var raw := lines[i];
        var kind := KindOf(raw);
        ghost var now := State();
        BlockStep(m, code, i, end, now);
        match kind
        case Blank => i := i + 1;
        case Else => i := i + 1;
        case Fi => i := i + 1;
        case Done => i := i + 1;
        case If =>
          var fi := FindMatchingFi(i + 1);
          if fi < 0 {
            Write(MISSING_FI);
            return;
          }
          RunIf(i, fi, end);
          assert Block(m, code, i, end, now) == Block(m, code, fi + 1, end, State());
          i := fi + 1;
        case While =>
          var done := FindMatchingDone(i + 1);
          if done < 0 {
            Write(MISSING_DONE);
            return;
          }
          RunWhile(i, done);
          assert State() == Loop(m, code, i, done, 0, now);
          i := done + 1;
        case Plain =>
          ExecuteLine(raw);
          assert State() == m.run(raw, now);
          i := i + 1;
      }
      BlockEnds(m, code, i, end, State());
    }

    method RunIf(i: nat, fi: nat, ghost end: nat)
      requires Valid() && i < lineCount && i < end && KindOf(Script()[i]) == If && FindFi(Script(), i + 1) == fi
      modifies names, values, this`count, this`events
      ensures Valid() && Script() == old(Script())
      ensures Block(Lsh(), Script(), i, end, old(State())) == Block(Lsh(), Script(), fi + 1, end, State())
      decreases lineCount - i, 0
    {
      hide Condition, Execute, FindClose, FindElse, Loop, Said, Store;
      KeywordLength(lines[i]);
      var line := Skip(lines[i]);
      var condition := ParseCondition(line[3..]);
      var els := FindElseLine(i + 1, fi);
      assert lines[i] == Script()[i];
      if condition {
        ExecuteBlock(i + 1, if els >= 0 then els else fi);
      } else if els >= 0 {
        ExecuteBlock(els + 1, fi);
      }
    }

    method RunWhile(i: nat, done: nat)
      requires Valid() && i < lineCount && KindOf(Script()[i]) == While
      modifies names, values, this`count, this`events
      ensures Valid() && State() == Loop(Lsh(), Script(), i, done, 0, old(State()))
      decreases lineCount - i, 0
    {
      hide Condition, Execute, FindClose, FindElse, Block, Said, Store;
      KeywordLength(lines[i]);
      ghost var m, code, was := Lsh(), Script(), State();
      assert lines[i] == code[i];
      var line := Skip(lines[i]);
      var iterations := 0;
      var again := ParseCondition(line[6..]);
      while again && iterations < LIMIT
        invariant Valid() && Script() == code && lineCount == old(lineCount) && iterations <= LIMIT
        invariant again == m.test(code[i], State())
        invariant Loop(m, code, i, done, 0, was) == Loop(m, code, i, done, iterations, State())
        decreases LIMIT - iterations
      {
        ExecuteBlock(i + 1, done);
        iterations := iterations + 1;
        again := ParseCondition(line[6..]);
      }
      if iterations >= LIMIT {
        Write(LIMIT_REACHED);
      }
    }

    // A loaded script, run from its first line to its last.
    method RunScript(ghost t: LshControl.Script)
      requires Valid() && Script() == Flat(t) && WellKinded(t) && AllElsesFound(t) && Sound(Store())
      modifies names, values, this`count, this`events
      ensures Valid() && State() == Eval(Lsh(), t, old(State())) && Sound(Store())
    {
      ghost var was := State();
      Simulation(Lsh(), t, was);
      RunSound(Script(), 0, |Script()|, was);
      ExecuteBlock(0, lineCount);
    }
  }

  // ----- small scans -----

  method Skip(s: string) returns (r: string)
    ensures r == SkipSpaces(s)
  {
    var i := 0;
    while i < |s| && IsSpace(s[i])
      invariant i <= |s| && SkipSpaces(s[i..]) == SkipSpaces(s)
    {
      assert s[i..][1..] == s[i + 1..];
      i := i + 1;
    }
    r := s[i..];
  }

  method Trim(s: string, newlines: bool) returns (r: string)
    ensures r == TrimEnd(s, newlines)
  {
    r := s;
    while |r| > 0 && (IsSpace(r[|r| - 1]) || (newlines && r[|r| - 1] == '\n'))
      invariant TrimEnd(s, newlines) == TrimEnd(r, newlines)
    {
      r := r[..|r| - 1];
    }
  }

  method NameBefore(line: string) returns (e: int)
    ensures e == AssignsAt(line)
  {
    hide FindFrom;
    e := StrChr(line, '=');
    if !(0 < e < NAME_SIZE) {
      return -1;
    }
    var i := 0;
    while i < e
      invariant i <= e && forall k :: 0 <= k < i ==> IsName(line[k])
    {
      if !IsName(line[i]) {
        return -1;
      }
      i := i + 1;
    }
  }

  method QuotedOrRest(v: string) returns (value: string)
    ensures value == RightSide(v)
  {
    hide FindFrom;
    if v != "" && v[0] == '\"' {
      var q := StrChr(v[1..], '\"');
      value := if q >= 0 then v[1..][..q] else v[1..];
    } else {
      value := WithoutNewline(Truncated(v, VALUE_SIZE));
    }
  }

  // The copy of a value into what is left of the output.
  method Append(was: string, value: string, size: nat) returns (output: string)
    requires |was| < size
    ensures output == Truncated(was + value, size)
  {
    output := was;
    var v := 0;
    while v < |value| && |output| < size - 1
      invariant v <= |value| && output == was + value[..v] && |output| < size
    {
      output := output + [value[v]];
      v := v + 1;
    }
    assert v == |value| ==> value[..v] == value;
  }

  // The name after a dollar sign, and where it ends.
  method PlainName(s: string, start: nat) returns (name: string, i: nat)
    requires start <= |s|
    ensures name == s[start..][..NameRun(s[start..], NAME_SIZE - 1)] && i == start + |name|
  {
    hide NameRun, IsName;
    name, i := "", start;
    while i < |s| && IsName(s[i]) && |name| < NAME_SIZE - 1
      invariant start <= i <= |s| && name == s[start..i] && |name| < NAME_SIZE
      invariant |name| + NameRun(s[i..], NAME_SIZE - 1 - |name|) == NameRun(s[start..], NAME_SIZE - 1)
    {
      RunStep(s, i, NAME_SIZE - 1 - |name|);
      name := name + [s[i]];
      i := i + 1;
    }
    assert NameRun(s[i..], NAME_SIZE - 1 - |name|) == 0;
    assert s[start..i] == s[start..][..|name|];
  }

  // The name after `${`, and the place after its brace if it has one.
  method BracedName(s: string, start: nat) returns (name: string, i: nat)
    requires start <= |s|
    ensures name == s[start..][..BraceRun(s[start..], NAME_SIZE - 1)]
    ensures i == start + |name| + if start + |name| < |s| && s[start + |name|] == '}' then 1 else 0
  {
    hide BraceRun;
    name, i := "", start;
    while i < |s| && s[i] != '}' && |name| < NAME_SIZE - 1
      invariant start <= i <= |s| && name == s[start..i] && |name| < NAME_SIZE
      invariant |name| + BraceRun(s[i..], NAME_SIZE - 1 - |name|) == BraceRun(s[start..], NAME_SIZE - 1)
    {
      RunStep(s, i, NAME_SIZE - 1 - |name|);
      name := name + [s[i]];
      i := i + 1;
    }
    assert BraceRun(s[i..], NAME_SIZE - 1 - |name|) == 0;
    assert s[start..i] == s[start..][..|name|];
    if i < |s| && s[i] == '}' {
      i := i + 1;
    }
  }

  // ----- steps of the proofs -----

  lemma RunStep(s: string, i: nat, limit: nat)
    requires i < |s| && limit > 0
    ensures IsName(s[i]) ==> NameRun(s[i..], limit) == 1 + NameRun(s[i + 1..], limit - 1)
    ensures s[i] != '}' ==> BraceRun(s[i..], limit) == 1 + BraceRun(s[i + 1..], limit - 1)
  {
    hide IsName;
    assert s[i..][1..] == s[i + 1..];
  }

  // One turn of the block loop, by the kind of its line.
  lemma BlockStep(m: Machine<Shell>, lines: Lines, i: nat, end: nat, s: Shell)
    requires i < end && i < |lines|
    ensures KindOf(lines[i]) in {Blank, Else, Fi, Done} ==> Block(m, lines, i, end, s) == Block(m, lines, i + 1, end, s)
    ensures KindOf(lines[i]) == Plain ==>
      Block(m, lines, i, end, s) == Block(m, lines, i + 1, end, m.run(lines[i], s))
    ensures KindOf(lines[i]) == If && FindFi(lines, i + 1) < 0 ==> Block(m, lines, i, end, s) == m.say(MISSING_FI, s)
    ensures KindOf(lines[i]) == While && FindDone(lines, i + 1) < 0 ==>
      Block(m, lines, i, end, s) == m.say(MISSING_DONE, s)
    ensures KindOf(lines[i]) == While && FindDone(lines, i + 1) >= 0 ==>
      var done := FindDone(lines, i + 1);
      Block(m, lines, i, end, s) == Block(m, lines, done + 1, end, Loop(m, lines, i, done, 0, s))
  {
    hide KindOf, FindClose, FindElse, Loop;
  }

  lemma BlockEnds(m: Machine<Shell>, lines: Lines, i: nat, end: nat, s: Shell)
    requires i >= end || i >= |lines|
    ensures Block(m, lines, i, end, s) == s
  {
  }

  lemma KeywordLength(raw: string)
    ensures KindOf(raw) == If ==> |SkipSpaces(raw)| >= 3 && "if " <= SkipSpaces(raw)
    ensures KindOf(raw) == While ==> |SkipSpaces(raw)| >= 6 && !("if " <= SkipSpaces(raw))
  {
  }

  // What a dollar sign at `at` expands to, in terms of places in the text.
  lemma PlainAt(st: Store, s: string, at: nat, name: string)
    requires at < |s| && s[at] == '$' && !(at + 1 < |s| && s[at + 1] == '{')
    requires name == s[at + 1..][..NameRun(s[at + 1..], NAME_SIZE - 1)]
    ensures Expanded(st, Drop(s, at)) == Value(st, name) + Expanded(st, Drop(s, at + 1 + |name|))
  {
    hide Value, IndexFrom;
    var t := s[at..];
    assert t[1..] == s[at + 1..];
    assert t[1..][|name|..] == s[at + 1 + |name|..];
  }

  lemma DropsNothing(s: string)
    ensures Drop(s, 0) == s
  {
  }

  lemma CharacterAt(st: Store, s: string, at: nat)
    requires at < |s| && s[at] != '$'
    ensures Expanded(st, Drop(s, at)) == [s[at]] + Expanded(st, Drop(s, at + 1))
  {
    assert s[at..][1..] == s[at + 1..];
  }

  lemma EndReached(st: Store, s: string, i: nat, output: string)
    ensures i >= |s| ==> output + Expanded(st, Drop(s, i)) == output
  {
    assert i >= |s| ==> Drop(s, i) == "";
  }

  lemma BracedAt(st: Store, s: string, at: nat, name: string, i: nat)
    requires at + 1 < |s| && s[at] == '$' && s[at + 1] == '{'
    requires name == s[at + 2..][..BraceRun(s[at + 2..], NAME_SIZE - 1)]
    requires i == at + 2 + |name| + if at + 2 + |name| < |s| && s[at + 2 + |name|] == '}' then 1 else 0
    ensures Expanded(st, Drop(s, at)) == Value(st, name) + Expanded(st, Drop(s, i + 1))
  {
    hide Value, IndexFrom;
    var t := s[at..];
    assert t[..2] == "${";
    assert t[2..] == s[at + 2..];
    AfterBraceAt(s, at + 2);
    assert |name| == BraceRun(s[at + 2..], NAME_SIZE - 1);
    assert AfterBrace(t[2..]) == Drop(s, i + 1);
  }

  lemma AfterBraceAt(s: string, start: nat)
    requires start <= |s|
    ensures var e := start + BraceRun(s[start..], NAME_SIZE - 1);
      AfterBrace(s[start..]) == Drop(s, if e < |s| && s[e] == '}' then e + 2 else e + 1)
  {
  }

  // Adding a value up to the bound is adding it whole, as far as the bound goes.
  lemma AppendFits(was: string, value: string, rest: string, size: nat)
    requires size > 0
    ensures Truncated(was + (value + rest), size) == Truncated(Truncated(was + value, size) + rest, size)
  {
  }
}
