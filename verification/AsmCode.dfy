// The instructions the assembler knows, their machine code, and a decoder after the opcode pages of
// the Intel Software Developer's Manual, volume 2, for 32-bit operands.
module AsmCode {
  import opened Bytes
  import opened Slices

  type reg = n: nat | n < 8
  type word = n: nat | n < 0x1_0000_0000

  datatype Instr =
    | Nop | Ret | Hlt | Cli | Sti
    | Int(n: byte)
    | MovImm(r: reg, imm: word)
    | Xor(dst: reg, src: reg) | Add(dst: reg, src: reg) | Sub(dst: reg, src: reg) | Cmp(dst: reg, src: reg)
    | AddImm(r: reg, imm: word)
    | Inc(r: reg) | Dec(r: reg) | Push(r: reg) | Pop(r: reg)
    | PushImm(imm: word) | Call(imm: word) | Jmp(imm: word)
    | OutAl(n: byte) | OutEax(n: byte) | InAl(n: byte) | InEax(n: byte)

  // ----- encoding -----

  // The ModRM byte of two registers: mode 3, the second in the middle, the first below.
  function ModRm(middle: reg, low: reg): byte { 0xC0 + 8 * middle + low }

  // The bytes the assembler puts out for an instruction.
  function Code(i: Instr): (b: seq<byte>)
    ensures 0 < |b| <= 6
  {
    match i
    case Nop => [0x90]
    case Ret => [0xC3]
    case Hlt => [0xF4]
    case Cli => [0xFA]
    case Sti => [0xFB]
    case Int(n) => [0xCD, n]
    case MovImm(r, imm) => [0xB8 + r] + ToLe32(imm)
    case Xor(d, s) => [0x31, ModRm(s, d)]
    case Add(d, s) => [0x01, ModRm(s, d)]
    case Sub(d, s) => [0x29, ModRm(s, d)]
    case Cmp(d, s) => [0x39, ModRm(s, d)]
    case AddImm(r, imm) => [0x81, ModRm(0, r)] + ToLe32(imm)
    case Inc(r) => [0x40 + r]
    case Dec(r) => [0x48 + r]
    case Push(r) => [0x50 + r]
    case Pop(r) => [0x58 + r]
    case PushImm(imm) => [0x68] + ToLe32(imm)
    case Call(imm) => [0xE8] + ToLe32(imm)
    case Jmp(imm) => [0xE9] + ToLe32(imm)
    case OutAl(n) => [0xE6, n]
    case OutEax(n) => [0xE7, n]
    case InAl(n) => [0xE4, n]
    case InEax(n) => [0xE5, n]
  }

  function CodeAll(list: seq<Instr>): seq<byte>
  {
    if list == [] then [] else Code(list[0]) + CodeAll(list[1..])
  }

  // ----- decoding -----

  datatype Decoded = Instruction(i: Instr, length: nat) | Invalid

  function WithReg(code: seq<byte>, at: nat, make: (reg, reg) -> Instr): Decoded
    requires at < |code|
  {
    if at + 1 < |code| && code[at + 1] >= 0xC0 then
      Instruction(make(code[at + 1] as nat % 8, code[at + 1] as nat / 8 % 8), 2)
    else Invalid
  }

  function WithByte(code: seq<byte>, at: nat, make: byte -> Instr): Decoded
    requires at < |code|
  {
    if at + 1 < |code| then Instruction(make(code[at + 1]), 2) else Invalid
  }

  function WithWord(code: seq<byte>, at: nat, make: word -> Instr): Decoded
    requires at < |code|
  {
    if at + 5 <= |code| then Instruction(make(Le32(code, at + 1)), 5) else Invalid
  }

  // Opcode 81 with digit 0 in the middle of its ModRM byte.
  function GroupOne(code: seq<byte>, at: nat): Decoded
    requires at < |code|
  {
    if at + 6 <= |code| && code[at + 1] >= 0xC0 && code[at + 1] as nat / 8 % 8 == 0 then
      Instruction(AddImm(code[at + 1] as nat % 8, Le32(code, at + 2)), 6)
    else Invalid
  }

  function Decode(code: seq<byte>, at: nat): (r: Decoded)
    requires at < |code|
    ensures r.Instruction? ==> 0 < r.length && at + r.length <= |code|
  {
    var op := code[at];
    if op == 0x90 then Instruction(Nop, 1)
    else if op == 0xC3 then Instruction(Ret, 1)
    else if op == 0xF4 then Instruction(Hlt, 1)
    else if op == 0xFA then Instruction(Cli, 1)
    else if op == 0xFB then Instruction(Sti, 1)
    else if op == 0xCD then WithByte(code, at, (n: byte) => Int(n))
    else if 0xB8 <= op < 0xC0 then WithWord(code, at, (w: word) => MovImm(op as nat % 8, w))
    else if op == 0x31 then WithReg(code, at, (rm: reg, r: reg) => Xor(rm, r))
    else if op == 0x01 then WithReg(code, at, (rm: reg, r: reg) => Add(rm, r))
    else if op == 0x29 then WithReg(code, at, (rm: reg, r: reg) => Sub(rm, r))
    else if op == 0x39 then WithReg(code, at, (rm: reg, r: reg) => Cmp(rm, r))
    else if op == 0x81 then GroupOne(code, at)
    else if 0x40 <= op < 0x48 then Instruction(Inc(op as nat % 8), 1)
    else if 0x48 <= op < 0x50 then Instruction(Dec(op as nat % 8), 1)
    else if 0x50 <= op < 0x58 then Instruction(Push(op as nat % 8), 1)
    else if 0x58 <= op < 0x60 then Instruction(Pop(op as nat % 8), 1)
    else if op == 0x68 then WithWord(code, at, (w: word) => PushImm(w))
    else if op == 0xE8 then WithWord(code, at, (w: word) => Call(w))
    else if op == 0xE9 then WithWord(code, at, (w: word) => Jmp(w))
    else if op == 0xE6 then WithByte(code, at, (n: byte) => OutAl(n))
    else if op == 0xE7 then WithByte(code, at, (n: byte) => OutEax(n))
    else if op == 0xE4 then WithByte(code, at, (n: byte) => InAl(n))
    else if op == 0xE5 then WithByte(code, at, (n: byte) => InEax(n))
    else Invalid
  }

  lemma WordPresent(code: seq<byte>, at: nat, v: word)
    requires At(code, at, ToLe32(v))
    ensures at + 4 <= |code| && Le32(code, at) == v
  {
    var t := ToLe32(v);
    AtElement(code, at, t, 0);
    AtElement(code, at, t, 1);
    AtElement(code, at, t, 2);
    AtElement(code, at, t, 3);
    assert Le32(t, 0) == v;
  }

  lemma DecodesByte(code: seq<byte>, at: nat, i: Instr)
    requires At(code, at, Code(i)) && |Code(i)| == 1
    ensures Decode(code, at) == Instruction(i, 1)
  {
    hide Le32, ToLe32, At, WithByte, WithReg, WithWord, GroupOne;
    AtElement(code, at, Code(i), 0);
  }

  lemma DecodesPair(code: seq<byte>, at: nat, i: Instr)
    requires At(code, at, Code(i)) && |Code(i)| == 2
    ensures Decode(code, at) == Instruction(i, 2)
  {
    hide Le32, ToLe32, At, WithWord, GroupOne, ModRm;
    AtElement(code, at, Code(i), 0);
    AtElement(code, at, Code(i), 1);
    if i.Xor? || i.Add? || i.Sub? || i.Cmp? {
      ModRmParts(i.src, i.dst);
    }
  }

  // The parts of a ModRM byte come apart again.
  lemma ModRmParts(middle: reg, low: reg)
    ensures ModRm(middle, low) >= 0xC0 && ModRm(middle, low) as nat % 8 == low && ModRm(middle, low) as nat / 8 % 8 == middle
  {
  }

  lemma DecodesLong(code: seq<byte>, at: nat, i: Instr)
    requires At(code, at, Code(i)) && |Code(i)| == 5
    ensures Decode(code, at) == Instruction(i, |Code(i)|)
  {
    hide Le32, ToLe32, At, GroupOne, WithByte, WithReg;
    var head := [Code(i)[0]];
    assert Code(i) == head + ToLe32(i.imm);
    AtParts(code, at, head, ToLe32(i.imm));
    AtElement(code, at, head, 0);
    WordPresent(code, at + 1, i.imm);
  }

  lemma DecodesGroupOne(code: seq<byte>, at: nat, r: reg, imm: word)
    requires At(code, at, Code(AddImm(r, imm)))
    ensures Decode(code, at) == Instruction(AddImm(r, imm), 6)
  {
    hide Le32, ToLe32, At, WithByte, WithReg, WithWord;
    var head := [0x81, ModRm(0, r)];
    AtParts(code, at, head, ToLe32(imm));
    AtElement(code, at, head, 0);
    AtElement(code, at, head, 1);
    ModRmParts(0, r);
    WordPresent(code, at + 2, imm);
  }

  // Every instruction's code decodes to it, whatever stands around it.
  lemma Decodes(code: seq<byte>, at: nat, i: Instr)
    requires At(code, at, Code(i))
    ensures Decode(code, at) == Instruction(i, |Code(i)|)
  {
    hide At, Decode;
    if |Code(i)| == 1 {
      DecodesByte(code, at, i);
    } else if |Code(i)| == 2 {
      DecodesPair(code, at, i);
    } else if i.AddImm? {
      DecodesGroupOne(code, at, i.r, i.imm);
    } else {
      DecodesLong(code, at, i);
    }
  }

  // ----- a whole program -----

  datatype Listing = Listing(list: seq<Instr>) | Garbled

  function Disassemble(code: seq<byte>, at: nat): Listing
    requires at <= |code|
    decreases |code| - at
  {
    if at == |code| then Listing([])
    else
      match Decode(code, at)
      case Invalid => Garbled
      case Instruction(i, n) =>
        match Disassemble(code, at + n)
        case Garbled => Garbled
        case Listing(rest) => Listing([i] + rest)
  }

  lemma TailPresent(code: seq<byte>, at: nat, list: seq<Instr>)
    requires list != [] && At(code, at, CodeAll(list))
    ensures At(code, at, Code(list[0])) && At(code, at + |Code(list[0])|, CodeAll(list[1..]))
    ensures |CodeAll(list)| == |Code(list[0])| + |CodeAll(list[1..])|
  {
    hide Code;
    AtParts(code, at, Code(list[0]), CodeAll(list[1..]));
  }

  lemma {:induction false} DisassemblesFrom(code: seq<byte>, at: nat, list: seq<Instr>)
    requires At(code, at, CodeAll(list)) && at + |CodeAll(list)| == |code|
    ensures Disassemble(code, at) == Listing(list)
    decreases |list|
  {
    hide Code, Decode, At;
    if list != [] {
      TailPresent(code, at, list);
      Decodes(code, at, list[0]);
      DisassemblesFrom(code, at + |Code(list[0])|, list[1..]);
      assert [list[0]] + list[1..] == list;
    }
  }

  // The decoder recovers exactly the program from its code.
  lemma Disassembles(list: seq<Instr>)
    ensures Disassemble(CodeAll(list), 0) == Listing(list)
  {
    hide CodeAll, Disassemble;
    assert CodeAll(list)[0..|CodeAll(list)|] == CodeAll(list);
    DisassemblesFrom(CodeAll(list), 0, list);
  }

  lemma CodeAllConcat(a: seq<Instr>, b: seq<Instr>)
    ensures CodeAll(a + b) == CodeAll(a) + CodeAll(b)
  {
    hide Code;
    if a == [] {
      assert a + b == b;
    } else {
      assert (a + b)[1..] == a[1..] + b;
    }
  }

  // ----- running -----

  // Registers in encoding order, and stack memory by address. The code is kept apart from it: pushes are
  // taken not to hit the code, which lies on the same stack above the caller's frame.
  datatype Cpu = Cpu(regs: seq<word>, memory: map<word, byte>)

  const ESP: reg := 4

  predicate Sane(c: Cpu) { |c.regs| == 8 }

  function Wrap(n: int): word { n % 0x1_0000_0000 }

  function WithRegister(c: Cpu, r: reg, v: word): (c': Cpu)
    requires Sane(c)
    ensures Sane(c')
  {
    c.(regs := c.regs[r := v])
  }

  function Byte(c: Cpu, at: int): byte
  {
    var a := Wrap(at);
    if a in c.memory then c.memory[a] else 0
  }

  function Pushed(c: Cpu, v: word): (c': Cpu)
    requires Sane(c)
    ensures Sane(c')
  {
    var b := ToLe32(v);
    var sp := Wrap(c.regs[ESP] as int - 4);
    Cpu(c.regs[ESP := sp],
        c.memory[sp := b[0]][Wrap(sp as int + 1) := b[1]][Wrap(sp as int + 2) := b[2]][Wrap(sp as int + 3) := b[3]])
  }

  // The word on top of the stack.
  function Top(c: Cpu): word
    requires Sane(c)
  {
    var sp := c.regs[ESP] as int;
    Le32([Byte(c, sp), Byte(c, sp + 1), Byte(c, sp + 2), Byte(c, sp + 3)], 0)
  }

  // The stack without it.
  function Popped(c: Cpu): (c': Cpu)
    requires Sane(c)
    ensures Sane(c')
  {
    WithRegister(c, ESP, Wrap(c.regs[ESP] as int + 4))
  }

  // Exclusive or, bit by bit from the lowest.
  function Xored(a: nat, b: nat, bits: nat): nat
  {
    if bits == 0 then 0 else 2 * Xored(a / 2, b / 2, bits - 1) + (a + b) % 2
  }

  predicate StraightLine(i: Instr)
  {
    i.Nop? || i.MovImm? || i.Add? || i.AddImm? || i.Sub? || i.Xor? || i.Inc? || i.Dec? || i.Push? || i.PushImm? || i.Pop?
  }

  function Exec(c: Cpu, i: Instr): (c': Cpu)
    requires Sane(c) && StraightLine(i)
    ensures Sane(c')
  {
    match i
    case Nop => c
    case MovImm(r, imm) => WithRegister(c, r, imm)
    case Add(d, s) => WithRegister(c, d, Wrap(c.regs[d] as int + c.regs[s]))
    case AddImm(r, imm) => WithRegister(c, r, Wrap(c.regs[r] as int + imm))
    case Sub(d, s) => WithRegister(c, d, Wrap(c.regs[d] as int - c.regs[s]))
    case Xor(d, s) => WithRegister(c, d, Wrap(Xored(c.regs[d], c.regs[s], 32)))
    case Inc(r) => WithRegister(c, r, Wrap(c.regs[r] as int + 1))
    case Dec(r) => WithRegister(c, r, Wrap(c.regs[r] as int - 1))
    case Push(r) => Pushed(c, c.regs[r])
    case PushImm(imm) => Pushed(c, imm)
    case Pop(r) => WithRegister(Popped(c), r, Top(c))
  }

  // The effects undo one another as they should.
  lemma IncDecUndo(c: Cpu, r: reg)
    requires Sane(c)
    ensures Exec(Exec(c, Inc(r)), Dec(r)) == c && Exec(Exec(c, Dec(r)), Inc(r)) == c
  {
    assert c.regs[r := c.regs[r]] == c.regs;
  }

  lemma AddSubUndo(c: Cpu, d: reg, s: reg)
    requires Sane(c) && d != s
    ensures Exec(Exec(c, Add(d, s)), Sub(d, s)) == c
  {
    assert c.regs[d := c.regs[d]] == c.regs;
  }

  lemma {:induction false} XoredTwice(a: nat, b: nat, bits: nat)
    requires a < Power2(bits)
    ensures Xored(Xored(a, b, bits), b, bits) == a
    decreases bits
  {
    if bits > 0 {
      var high := Xored(a / 2, b / 2, bits - 1);
      HalfBelow(a, Power2(bits - 1));
      XoredTwice(a / 2, b / 2, bits - 1);
      XoredStep(a, b, bits);
      LowestBit(high, a, b);
      XoredStep(2 * high + (a + b) % 2, b, bits);
    }
  }

  lemma HalfBelow(a: nat, half: nat)
    requires a < 2 * half
    ensures a / 2 < half
  {
  }

  lemma XoredStep(a: nat, b: nat, bits: nat)
    requires bits > 0
    ensures Xored(a, b, bits) == 2 * Xored(a / 2, b / 2, bits - 1) + (a + b) % 2
  {
  }

  lemma LowestBit(high: nat, a: nat, b: nat)
    ensures var x := 2 * high + (a + b) % 2;
      x / 2 == high && 2 * (a / 2) + (x + b) % 2 == a
  {
  }

  lemma {:induction false} XoredBound(a: nat, b: nat, bits: nat)
    ensures Xored(a, b, bits) < Power2(bits)
    decreases bits
  {
    if bits > 0 {
      XoredBound(a / 2, b / 2, bits - 1);
    }
  }

  function Power2(bits: nat): (p: nat)
    ensures p > 0
  {
    if bits == 0 then 1 else 2 * Power2(bits - 1)
  }

  lemma WordPower()
    ensures Power2(32) == 0x1_0000_0000
  {
    assert Power2(8) == 0x100;
    assert Power2(16) == 0x1_0000;
    assert Power2(24) == 0x100_0000;
  }

  lemma XorUndo(c: Cpu, d: reg, s: reg)
    requires Sane(c) && d != s
    ensures Exec(Exec(c, Xor(d, s)), Xor(d, s)) == c
  {
    hide Xored, Power2;
    WordPower();
    XoredBound(c.regs[d], c.regs[s], 32);
    XoredTwice(c.regs[d], c.regs[s], 32);
    assert c.regs[d := c.regs[d]] == c.regs;
  }

  // What was pushed is popped, and the stack pointer is as before.
  lemma PushPop(c: Cpu, r: reg, q: reg)
    requires Sane(c) && q != ESP
    ensures Exec(Exec(c, Push(r)), Pop(q)).regs == c.regs[q := c.regs[r]]
  {
    hide Le32, ToLe32, Byte, Pushed, Top;
    PushedState(c, c.regs[r]);
    var p := Pushed(c, c.regs[r]);
    assert Wrap(p.regs[ESP] as int + 4) == c.regs[ESP];
  }

  lemma PushedState(c: Cpu, v: word)
    requires Sane(c)
    ensures var p := Pushed(c, v);
      p.regs == c.regs[ESP := Wrap(c.regs[ESP] as int - 4)] && Top(p) == v
  {
    hide Le32, ToLe32, Wrap;
    var p := Pushed(c, v);
    var sp := p.regs[ESP];
    AddressesApart(sp);
    assert [Byte(p, sp), Byte(p, sp as int + 1), Byte(p, sp as int + 2), Byte(p, sp as int + 3)] == ToLe32(v);
  }

  lemma AddressesApart(sp: word)
    ensures Wrap(sp) == sp && sp !in {Wrap(sp as int + 1), Wrap(sp as int + 2), Wrap(sp as int + 3)}
    ensures Wrap(sp as int + 1) !in {Wrap(sp as int + 2), Wrap(sp as int + 3)}
    ensures Wrap(sp as int + 2) != Wrap(sp as int + 3)
  {
  }

  function RunSource(c: Cpu, list: seq<Instr>): (c': Cpu)
    requires Sane(c) && forall i :: i in list ==> StraightLine(i)
    ensures Sane(c')
    decreases |list|
  {
    if list == [] then c else RunSource(Exec(c, list[0]), list[1..])
  }

  // A run ends with a return to the address on top of the stack, at the end of the code (and goes on
  // with whatever lies behind it), or at something that is not straight-line code.
  datatype Result = Left(to: word, c: Cpu) | PastEnd(c: Cpu) | Fault

  function Return(c: Cpu): Result
    requires Sane(c)
  {
    Left(Top(c), Popped(c))
  }

  // Fetch, decode, execute, from `at` on.
  function RunCode(c: Cpu, code: seq<byte>, at: nat): Result
    requires Sane(c) && at <= |code|
    decreases |code| - at
  {
    if at == |code| then PastEnd(c)
    else
      match Decode(code, at)
      case Invalid => Fault
      case Instruction(i, n) =>
        if i == Ret then Return(c)
        else if StraightLine(i) then RunCode(Exec(c, i), code, at + n)
        else Fault
  }

  // Straight-line code at `at` runs as its source, and the run goes on behind it.
  lemma {:induction false} CodeRunsThrough(c: Cpu, code: seq<byte>, at: nat, list: seq<Instr>)
    requires Sane(c) && forall i :: i in list ==> StraightLine(i)
    requires At(code, at, CodeAll(list))
    ensures at + |CodeAll(list)| <= |code|
    ensures RunCode(c, code, at) == RunCode(RunSource(c, list), code, at + |CodeAll(list)|)
    decreases |list|
  {
    hide Code, Decode, Exec;
    if list != [] {
      TailPresent(code, at, list);
      Decodes(code, at, list[0]);
      assert StraightLine(list[0]);
      CodeRunsThrough(Exec(c, list[0]), code, at + |Code(list[0])|, list[1..]);
    }
  }

  // Running the code is running the source, and a return behind it is reached in the source's state.
  lemma CodeRunsSource(c: Cpu, list: seq<Instr>)
    requires Sane(c) && forall i :: i in list ==> StraightLine(i)
    ensures RunCode(c, CodeAll(list), 0) == PastEnd(RunSource(c, list))
    ensures RunCode(c, CodeAll(list) + Code(Ret), 0) == Return(RunSource(c, list))
  {
    hide Exec, StraightLine, CodeAll, RunSource, Top, Popped;
    var code := CodeAll(list);
    assert code[0..|code|] == code && (code + Code(Ret))[0..|code|] == code;
    CodeRunsThrough(c, code, 0, list);
    CodeRunsThrough(c, code + Code(Ret), 0, list);
    assert (code + Code(Ret))[|code|..|code| + 1] == Code(Ret);
    Decodes(code + Code(Ret), |code|, Ret);
  }

  // ----- code cut short -----

  // A decoded instruction is as long as its code.
  lemma DecodedLength(code: seq<byte>, at: nat)
    requires at < |code| && Decode(code, at).Instruction?
    ensures |Code(Decode(code, at).i)| == Decode(code, at).length
  {
    hide Le32, ToLe32;
  }

  lemma {:induction false} ListedLength(code: seq<byte>, at: nat)
    requires at <= |code| && Disassemble(code, at).Listing?
    ensures |CodeAll(Disassemble(code, at).list)| == |code| - at
    decreases |code| - at
  {
    hide Code, Decode;
    if at < |code| {
      DecodedLength(code, at);
      var d := Decode(code, at);
      ListedLength(code, at + d.length);
      var rest := Disassemble(code, at + d.length).list;
      assert ([d.i] + rest)[1..] == rest;
    }
  }

  // An instruction that the end of the code cuts does not decode.
  lemma CutInvalid(code: seq<byte>, at: nat, i: Instr)
    requires at < |code| < at + |Code(i)| && At(Code(i), 0, code[at..])
    ensures Decode(code, at) == Invalid
  {
    hide Le32, ToLe32;
    AtElement(Code(i), 0, code[at..], 0);
    if |Code(i)| == 6 && at + 1 < |code| {
      AtElement(Code(i), 0, code[at..], 1);
    }
  }

  // Straight-line code cut anywhere reaches no return.
  lemma {:induction false} CutDoesNotReturn(c: Cpu, code: seq<byte>, at: nat, list: seq<Instr>)
    requires Sane(c) && (forall i :: i in list ==> StraightLine(i)) && at <= |code|
    requires At(CodeAll(list), 0, code[at..])
    ensures !RunCode(c, code, at).Left?
    decreases |list|
  {
    hide Code, Decode, Exec;
    if at < |code| {
      var part := code[at..];
      CutParts(part, list);
      assert StraightLine(list[0]);
      var n := |Code(list[0])|;
      if |part| < n {
        CutInvalid(code, at, list[0]);
      } else {
        assert code[at..at + n] == part[..n];
        assert code[at + n..] == part[n..];
        Decodes(code, at, list[0]);
        CutDoesNotReturn(Exec(c, list[0]), code, at + n, list[1..]);
      }
    }
  }

  lemma CutParts(part: seq<byte>, list: seq<Instr>)
    requires part != [] && At(CodeAll(list), 0, part)
    ensures list != []
    ensures |part| < |Code(list[0])| ==> At(Code(list[0]), 0, part)
    ensures |part| >= |Code(list[0])| ==>
      part[..|Code(list[0])|] == Code(list[0]) && At(CodeAll(list[1..]), 0, part[|Code(list[0])|..])
  {
    hide Code;
    assert list != [];
    var head, tail := Code(list[0]), CodeAll(list[1..]);
    var all := head + tail;
    assert all == CodeAll(list) && part == all[0..|part|];
    if |part| < |head| {
      assert head[0..|part|] == all[0..|part|];
    } else {
      assert part[..|head|] == all[..|head|] == head;
      assert part[|head|..] == tail[0..|part| - |head|];
    }
  }
}
