// A session of the assembler: lines scanned character by character, and their code appended to the
// buffer of 4096 bytes.
module AsmSession {
  import opened AsmCode
  import opened AsmSource
  import opened AsmStack
  import opened AsmText
  import opened Bytes
  import opened CString

  const BUFFER: nat := 4096

  // The code so far with that of one more line, if it fits with a byte to spare.
  function Appended(code: seq<byte>, line: string): seq<byte>
  {
    var b := Encode(line).bytes;
    if |code| + |b| < BUFFER then code + b else code
  }

  function Assembled(lines: seq<string>): seq<byte>
  {
    if lines == [] then [] else Appended(Assembled(lines[..|lines| - 1]), lines[|lines| - 1])
  }

  // What `run` makes of the code: a return added, unless the last byte looks like one.
  function Finished(code: seq<byte>): seq<byte>
  {
    if code == [] || code[|code| - 1] != 0xC3 then code + [0xC3] else code
  }

  const EXEC_SIZE: nat := 63

  // And what it calls: a copy of at most 63 bytes of that.
  function Executed(code: seq<byte>): seq<byte>
  {
    if |Finished(code)| <= EXEC_SIZE then Finished(code) else Finished(code)[..EXEC_SIZE]
  }

  class Assembler {
    const code: array<byte>
    var size: nat

    // Only a run, which ends in a return, fills the last byte.
    ghost predicate Valid()
      reads this, code
    {
      code.Length == BUFFER && size <= BUFFER && (size == BUFFER ==> code[size - 1] == 0xC3)
    }

    ghost function Contents(): seq<byte>
      requires Valid()
      reads this, code
    {
      code[..size]
    }

    constructor ()
      ensures Valid() && Contents() == [] && fresh(code)
    {
      code := new byte[BUFFER](_ => 0);
      size := 0;
    }

    method AssembleLine(line: string) returns (complains: bool)
      requires Valid()
      modifies this`size, code
      ensures Valid() && Contents() == Appended(old(Contents()), line)
    {
      hide Encode;
      var e := EncodeInstruction(line);
      complains := e.complains;
      if |e.bytes| > 0 {
        if size + |e.bytes| < BUFFER {
          ghost var was := Contents();
          for i := 0 to |e.bytes|
            invariant code.Length == BUFFER && size == |was| + i && size + |e.bytes| - i < BUFFER
            invariant code[..size] == was + e.bytes[..i]
          {
            code[size] := e.bytes[i];
            size := size + 1;
          }
          assert e.bytes[..|e.bytes|] == e.bytes;
        } else {
          complains := true;
        }
      } else {
        assert Contents() + [] == Contents();
      }
    }

    // `run`: a return is added behind the code unless it ends in one, and at most 63 bytes of it are
    // copied and called.
    method Run() returns (called: seq<byte>)
      requires Valid()
      modifies this`size, code
      ensures Valid() && Contents() == Finished(old(Contents())) && called == Executed(old(Contents()))
    {
      ghost var was := Contents();
      if size == 0 || code[size - 1] != 0xC3 {
        code[size] := 0xC3;
        size := size + 1;
      }
      assert Contents() == Finished(was);
      called := [];
      for i := 0 to if size < EXEC_SIZE then size else EXEC_SIZE
        invariant called == code[..i]
      {
        called := called + [code[i]];
      }
    }

    method AssembleAll(lines: seq<string>)
      requires Valid() && Contents() == []
      modifies this`size, code
      ensures Valid() && Contents() == Assembled(lines)
    {
      hide Appended;
      for i := 0 to |lines|
        invariant Valid() && Contents() == Assembled(lines[..i])
      {
        assert lines[..i + 1][..i] == lines[..i];
        var _ := AssembleLine(lines[i]);
      }
      assert lines[..|lines|] == lines;
    }
  }

  method EncodeInstruction(line: string) returns (e: Encoding)
    ensures e == Encode(line)
  {
    hide EncodeParts, WordLength, LineLength, TrimBlanks, SkipSpaces;
    assert line[0..] == line;
    var start := SkipFrom(line, 0);
    var pos := WordEnd(line, start);
    var instr := line[start..pos];
    assert instr == line[start..][..pos - start] && line[pos..] == line[start..][pos - start..];
    start := SkipFrom(line, pos);
    pos := LineEnd(line, start);
    var args := Trimmed(line[start..pos]);
    assert line[start..pos] == line[start..][..pos - start];
    e := EncodeParts(instr, args);
  }

  method WordEnd(line: string, start: nat) returns (pos: nat)
    requires start <= |line|
    ensures start <= pos <= |line| && pos - start == WordLength(line[start..], WORD_LIMIT)
  {
    pos := start;
    while pos < |line| && !IsSpace(line[pos]) && pos - start < WORD_LIMIT
      invariant start <= pos <= |line| && pos - start <= WORD_LIMIT
      invariant pos - start + WordLength(line[pos..], WORD_LIMIT - (pos - start)) == WordLength(line[start..], WORD_LIMIT)
    {
      assert line[pos..][1..] == line[pos + 1..];
      pos := pos + 1;
    }
  }

  method LineEnd(line: string, start: nat) returns (pos: nat)
    requires start <= |line|
    ensures start <= pos <= |line| && pos - start == LineLength(line[start..], ARGS_LIMIT)
  {
    pos := start;
    while pos < |line| && line[pos] != '\n' && pos - start < ARGS_LIMIT
      invariant start <= pos <= |line| && pos - start <= ARGS_LIMIT
      invariant pos - start + LineLength(line[pos..], ARGS_LIMIT - (pos - start)) == LineLength(line[start..], ARGS_LIMIT)
    {
      assert line[pos..][1..] == line[pos + 1..];
      pos := pos + 1;
    }
  }

  method Trimmed(s: string) returns (r: string)
    ensures r == TrimBlanks(s)
  {
    r := s;
    while |r| > 0 && IsSpace(r[|r| - 1])
      invariant TrimBlanks(r) == TrimBlanks(s)
    {
      r := r[..|r| - 1];
    }
  }

  method SkipFrom(line: string, start: nat) returns (pos: nat)
    requires start <= |line|
    ensures start <= pos <= |line| && line[pos..] == SkipSpaces(line[start..])
  {
    pos := start;
    while pos < |line| && IsSpace(line[pos])
      invariant start <= pos <= |line| && SkipSpaces(line[pos..]) == SkipSpaces(line[start..])
    {
      assert line[pos..][1..] == line[pos + 1..];
      pos := pos + 1;
    }
  }

  method ReadNumber(text: string) returns (n: int)
    ensures n == Strtoi(text)
  {
    hide DigitIn;
    var pos := SkipFrom(text, 0);
    assert text[0..] == text;
    ghost var s := text[pos..];
    var negative := false;
    if pos < |text| && text[pos] == '-' {
      negative := true;
      pos := pos + 1;
      assert s[1..] == text[pos..];
    } else if pos < |text| && text[pos] == '+' {
      pos := pos + 1;
      assert s[1..] == text[pos..];
    }
    var u := ReadUnsigned(text, pos);
    n := if negative then Wrap32(-u) else u;
  }

  method ReadUnsigned(text: string, at: nat) returns (result: int)
    requires at <= |text|
    ensures result == Unsigned(text[at..])
  {
    hide DigitIn, IsDigitOf, Wrap32;
    var pos, radix := at, 10;
    ghost var s := text[at..];
    if pos + 1 < |text| && text[pos] == '0' && (text[pos + 1] == 'x' || text[pos + 1] == 'X') {
      radix, pos := 16, pos + 2;
      assert s[2..] == text[pos..];
    } else if pos < |text| && text[pos] == '0' {
      radix, pos := 8, pos + 1;
      assert s[1..] == text[pos..];
    }
    ghost var start := pos;
    result := 0;
    while pos < |text| && IsDigitOf(text[pos], radix)
      invariant start <= pos <= |text|
      invariant NumberFrom(text[start..], radix, 0) == NumberFrom(text[pos..], radix, result)
    {
      assert text[pos..][1..] == text[pos + 1..];
      result := Wrap32(result * radix + DigitIn(text[pos]));
      pos := pos + 1;
    }
  }

  // ----- a program -----

  function Lines(program: seq<Statement>): (l: seq<string>)
    requires forall st :: st in program ==> Legible(st)
    ensures |l| == |program|
  {
    if program == [] then []
    else
      assert program[|program| - 1] in program && Legible(program[|program| - 1]);
      Lines(program[..|program| - 1]) + [Line(program[|program| - 1])]
  }

  function Instructions(program: seq<Statement>): (list: seq<Instr>)
    ensures |list| == |program|
  {
    if program == [] then [] else Instructions(program[..|program| - 1]) + [program[|program| - 1].i]
  }

  lemma LastCode(program: seq<Statement>)
    requires program != []
    ensures CodeAll(Instructions(program))
            == CodeAll(Instructions(program[..|program| - 1])) + Code(program[|program| - 1].i)
  {
    hide Code, CodeAll;
    var i := program[|program| - 1].i;
    CodeAllConcat(Instructions(program[..|program| - 1]), [i]);
    OneCode(i);
  }

  lemma OneCode(i: Instr)
    ensures CodeAll([i]) == Code(i)
  {
    hide Code;
    assert CodeAll([i]) == Code(i) + CodeAll([]);
  }

  lemma {:induction false} AssembledShort(lines: seq<string>)
    ensures |Assembled(lines)| < 4096
  {
    hide Encode;
    if lines != [] {
      AssembledShort(lines[..|lines| - 1]);
    }
  }

  lemma {:induction false} AssembledFits(program: seq<Statement>)
    requires forall st :: st in program ==> Legible(st)
    requires |CodeAll(Instructions(program))| < 4096
    ensures Assembled(Lines(program)) == CodeAll(Instructions(program))
  {
    hide Encode, Legible, Code, Line;
    if program != [] {
      var n := |program| - 1;
      LastCode(program);
      AssembledFits(program[..n]);
      StatementReads(program[n]);
      assert Lines(program)[..n] == Lines(program[..n]);
    }
  }

  // A program is assembled whole exactly if its code leaves a byte of the buffer free.
  lemma AssembledExact(program: seq<Statement>)
    requires forall st :: st in program ==> Legible(st)
    ensures Assembled(Lines(program)) == CodeAll(Instructions(program)) <==> |CodeAll(Instructions(program))| < 4096
  {
    hide Legible, Code, CodeAll;
    AssembledShort(Lines(program));
    if |CodeAll(Instructions(program))| < 4096 {
      AssembledFits(program);
    }
  }

  // The decoder then recovers the program, and running the buffer runs the source.
  lemma SessionDecodes(program: seq<Statement>)
    requires forall st :: st in program ==> Legible(st)
    requires |CodeAll(Instructions(program))| < 4096
    ensures Disassemble(Assembled(Lines(program)), 0) == Listing(Instructions(program))
  {
    hide Legible, Code, CodeAll;
    AssembledFits(program);
    Disassembles(Instructions(program));
  }

  // ----- the return that `run` adds -----

  function FinishedList(list: seq<Instr>): seq<Instr>
  {
    var code := CodeAll(list);
    if code == [] || code[|code| - 1] != 0xC3 then list + [Ret] else list
  }

  lemma LastInstruction(list: seq<Instr>)
    requires list != []
    ensures var code, last := CodeAll(list), Code(list[|list| - 1]);
      code != [] && code[|code| - 1] == last[|last| - 1]
  {
    hide Code, CodeAll;
    var n := |list| - 1;
    assert list == list[..n] + [list[n]];
    CodeAllConcat(list[..n], [list[n]]);
    OneCode(list[n]);
  }

  // The last byte of the program is taken for the return that is not there.
  predicate Mistaken(list: seq<Instr>)
  {
    list != [] && list[|list| - 1] != Ret && Code(list[|list| - 1])[|Code(list[|list| - 1])| - 1] == 0xC3
  }

  predicate EndsInReturn(list: seq<Instr>) { list != [] && list[|list| - 1] == Ret }

  // The buffer ends in a return exactly unless the last byte is mistaken for one.
  lemma RunAddsReturn(list: seq<Instr>)
    ensures Disassemble(Finished(CodeAll(list)), 0) == Listing(FinishedList(list))
    ensures Finished(CodeAll(list)) == CodeAll(FinishedList(list))
    ensures EndsInReturn(FinishedList(list)) <==> !Mistaken(list)
  {
    hide Code, CodeAll, Disassemble;
    CodeAllConcat(list, [Ret]);
    OneCode(Ret);
    RetCode();
    Disassembles(FinishedList(list));
    EmptyCode();
    if list != [] {
      LastInstruction(list);
    }
  }

  // What is called is the whole finished program exactly if that has at most 63 bytes, and it ends in a
  // return exactly if, besides, the last byte is not mistaken for one.
  lemma ExecutedExact(list: seq<Instr>)
    ensures Disassemble(Executed(CodeAll(list)), 0) == Listing(FinishedList(list)) <==>
      |Finished(CodeAll(list))| <= 63
    ensures Disassemble(Executed(CodeAll(list)), 0) == Listing(FinishedList(list)) && EndsInReturn(FinishedList(list))
            <==> |Finished(CodeAll(list))| <= 63 && !Mistaken(list)
  {
    hide Code, CodeAll, Disassemble, Mistaken, FinishedList;
    RunAddsReturn(list);
    var called := Executed(CodeAll(list));
    if Disassemble(called, 0) == Listing(FinishedList(list)) {
      ListedLength(called, 0);
    }
  }

  // Called with return address `ra`, the program comes back to it.
  predicate Returns(list: seq<Instr>, c: Cpu, ra: word)
    requires Sane(c)
  {
    var r := RunCode(Pushed(c, ra), Executed(CodeAll(list)), 0);
    r.Left? && r.to == ra
  }

  // The code called holds the whole program and a return behind it.
  predicate CalledWhole(list: seq<Instr>) { |Finished(CodeAll(list))| <= 63 && !Mistaken(list) }

  // A straight-line program comes back exactly if it is called whole and leaves the return address on top
  // of the stack; then it has done what its source says.
  lemma RunReturnsExactly(list: seq<Instr>, c: Cpu, ra: word)
    requires Sane(c) && forall i :: i in list ==> StraightLine(i)
    ensures Returns(list, c, ra) <==> CalledWhole(list) && Top(RunSource(Pushed(c, ra), list)) == ra
    ensures CalledWhole(list) ==>
      RunCode(Pushed(c, ra), Executed(CodeAll(list)), 0) == Return(RunSource(Pushed(c, ra), list))
  {
    hide Code, CodeAll, Exec, RunCode, RunSource, StraightLine, Pushed, Top, Popped, Mistaken;
    var code, called := CodeAll(list), Executed(CodeAll(list));
    RetCode();
    LastByte(list);
    if CalledWhole(list) {
      CodeRunsSource(Pushed(c, ra), list);
    } else {
      assert called[0..] == called == code[0..|called|];
      CutDoesNotReturn(Pushed(c, ra), called, 0, list);
    }
  }

  // Every instruction has a byte of code at least.
  lemma {:induction false} CodeAtLeast(list: seq<Instr>)
    ensures |list| <= |CodeAll(list)|
    decreases |list|
  {
    hide Code;
    if list != [] {
      CodeAtLeast(list[1..]);
    }
  }

  // A program that changes the stack pointer by push and pop alone, and never pops more than it pushed,
  // comes back from every call exactly if it is called whole and pops all it pushed.
  lemma DisciplinedReturns(list: seq<Instr>)
    requires Disciplined(list, 0)
    ensures (forall c, ra: word :: Sane(c) ==> Returns(list, c, ra)) <==> CalledWhole(list) && Depth(list, 0) == 0
  {
    hide RunCode, Executed, Finished, CalledWhole, Returns, Disciplined, Depth, RunSource, Top, Pushed, StraightLine;
    DisciplinedStraight(list, 0);
    forall c, ra: word | Sane(c)
      ensures Returns(list, c, ra) <==> CalledWhole(list) && Top(RunSource(Pushed(c, ra), list)) == ra
      ensures CalledWhole(list) && Depth(list, 0) == 0 ==> Top(RunSource(Pushed(c, ra), list)) == ra
    {
      RunReturnsExactly(list, c, ra);
      if CalledWhole(list) && Depth(list, 0) == 0 {
        ShortProgram(list);
        BalancedLeaves(c, ra, list);
      }
    }
    var c := Cpu([0, 0, 0, 0, 0, 0, 0, 0], map[]);
    assert Sane(c);
    if CalledWhole(list) && Depth(list, 0) > 0 {
      ShortProgram(list);
      LeftoverOnTop(c, 0, 1, list);
      assert !(Returns(list, c, 0) && Returns(list, c, 1));
    }
    assert !CalledWhole(list) ==> !Returns(list, c, 0);
  }

  lemma ShortProgram(list: seq<Instr>)
    requires CalledWhole(list)
    ensures |list| <= 63
  {
    hide CodeAll, Mistaken;
    CodeAtLeast(list);
  }

  // A program that leaves a register pushed goes on where that points.
  lemma PushGoesElsewhere(c: Cpu, ra: word, r: reg)
    requires Sane(c) && r != ESP
    ensures RunCode(Pushed(c, ra), Executed(CodeAll([Push(r)])), 0) == Left(c.regs[r], Popped(Pushed(Pushed(c, ra), c.regs[r])))
  {
    hide RunCode, Pushed, Top, Popped, CalledWhole;
    var p := Pushed(c, ra);
    assert StraightLine(Push(r));
    PushWhole(r);
    RunReturnsExactly([Push(r)], c, ra);
    OneStep(p, Push(r));
    PushedState(c, ra);
    PushedState(p, p.regs[r]);
  }

  lemma PushWhole(r: reg)
    ensures CalledWhole([Push(r)])
  {
    OneCode(Push(r));
    assert Code(Push(r)) == [0x50 + r];
  }

  lemma OneStep(c: Cpu, i: Instr)
    requires Sane(c) && StraightLine(i)
    ensures RunSource(c, [i]) == Exec(c, i)
  {
    hide Exec;
    assert RunSource(Exec(c, i), []) == Exec(c, i);
  }

  lemma LastByte(list: seq<Instr>)
    requires forall i :: i in list ==> StraightLine(i)
    ensures Finished(CodeAll(list)) == CodeAll(list) <==> Mistaken(list)
    ensures !Mistaken(list) ==> Finished(CodeAll(list)) == CodeAll(list) + [0xC3]
  {
    hide Code, CodeAll;
    EmptyCode();
    if list != [] {
      LastInstruction(list);
      assert list[|list| - 1] in list;
    }
  }

  // The same for a program typed into a session.
  lemma SessionReturnsExactly(program: seq<Statement>, c: Cpu, ra: word)
    requires Sane(c) && forall st :: st in program ==> Legible(st)
    requires forall i :: i in Instructions(program) ==> StraightLine(i)
    requires |CodeAll(Instructions(program))| < 4096
    ensures var list, r := Instructions(program), RunCode(Pushed(c, ra), Executed(Assembled(Lines(program))), 0);
      && (r.Left? && r.to == ra <==> CalledWhole(list) && Top(RunSource(Pushed(c, ra), list)) == ra)
      && (CalledWhole(list) ==> r == Return(RunSource(Pushed(c, ra), list)))
  {
    hide Legible, Code, CodeAll, StraightLine, CalledWhole, RunCode, RunSource, Executed, Finished, Top, Pushed, Popped;
    AssembledFits(program);
    RunReturnsExactly(Instructions(program), c, ra);
  }

  // Thirteen moves are too long: the copy is cut in the last of them, and no return is reached.
  lemma ThirteenMovesCut(r: reg, imm: word, c: Cpu, ra: word)
    requires Sane(c)
    ensures !Returns(seq(13, _ => MovImm(r, imm)), c, ra)
  {
    hide Code, RunCode, RunSource, Mistaken, Top, Pushed;
    var list := seq(13, _ => MovImm(r, imm));
    MovesLength(r, imm, 13);
    RunReturnsExactly(list, c, ra);
  }

  lemma {:induction false} MovesLength(r: reg, imm: word, n: nat)
    ensures |CodeAll(seq(n, _ => MovImm(r, imm)))| == 5 * n
  {
    if n > 0 {
      assert seq(n, _ => MovImm(r, imm))[1..] == seq(n - 1, _ => MovImm(r, imm));
      MovesLength(r, imm, n - 1);
    }
  }

  lemma RetCode()
    ensures Code(Ret) == [0xC3]
  {
  }

  lemma EmptyCode()
    ensures CodeAll([]) == []
  {
  }

  // As here: the number's highest byte is taken for a return.
  lemma ReturnMissed()
    ensures FinishedList([MovImm(0, 0xC300_0000)]) == [MovImm(0, 0xC300_0000)]
  {
    var i := MovImm(0, 0xC300_0000);
    LastInstruction([i]);
    var b := ToLe32(0xC300_0000);
    assert Code(i)[4] == b[3] == 0xC3;
  }
}
