// The assembler's reading of a line: words, operands and numbers, and the bytes they give.
module AsmText {
  import opened AsmCode
  import opened Bytes
  import opened CString

  // ----- numbers -----

  function DigitIn(c: char): int
  {
    if '0' <= c <= '9' then c as int - '0' as int
    else if 'a' <= c <= 'f' then c as int - 'a' as int + 10
    else if 'A' <= c <= 'F' then c as int - 'A' as int + 10
    else -1
  }

  predicate IsDigitOf(c: char, radix: nat) { 0 <= DigitIn(c) < radix }

  // The leading digits of `s`, folded onto `n`.
  function NumberFrom(s: string, radix: nat, n: int): int
  {
    if s == "" || !IsDigitOf(s[0], radix) then n
    else NumberFrom(s[1..], radix, Wrap32(n * radix + DigitIn(s[0])))
  }

  predicate IsHexMark(s: string) { |s| >= 2 && s[0] == '0' && (s[1] == 'x' || s[1] == 'X') }

  function Unsigned(s: string): int
  {
    if IsHexMark(s) then NumberFrom(s[2..], 16, 0)
    else if s != "" && s[0] == '0' then NumberFrom(s[1..], 8, 0)
    else NumberFrom(s, 10, 0)
  }

  // `asm_strtoi` with base 0: the radix from the text.
  function Strtoi(text: string): int
  {
    var s := SkipSpaces(text);
    if s != "" && s[0] == '-' then Wrap32(-Unsigned(s[1..]))
    else if s != "" && s[0] == '+' then Unsigned(s[1..])
    else Unsigned(s)
  }

  function Low32(n: int): word { n % 0x1_0000_0000 }

  function Low8(n: int): byte { n % 0x100 }

  // ----- lines -----

  const REGISTERS: seq<string> := ["eax", "ecx", "edx", "ebx", "esp", "ebp", "esi", "edi"]

  function RegisterFrom(s: string, i: nat): (r: int)
    requires i <= 8
    ensures r == -1 || (i <= r < 8 && s == REGISTERS[r])
    decreases 8 - i
  {
    if i == 8 then -1 else if s == REGISTERS[i] then i else RegisterFrom(s, i + 1)
  }

  function Register(s: string): (r: int)
    ensures r == -1 || (0 <= r < 8 && s == REGISTERS[r])
  {
    RegisterFrom(s, 0)
  }

  // The four that sub and cmp know.
  function LowRegister(s: string): (r: int)
    ensures r == -1 || (0 <= r < 4 && s == REGISTERS[r])
  {
    if 0 <= Register(s) < 4 then Register(s) else -1
  }

  function LineLength(s: string, limit: nat): (n: nat)
    ensures n <= |s| && n <= limit
  {
    if limit == 0 || s == "" || s[0] == '\n' then 0 else 1 + LineLength(s[1..], limit - 1)
  }

  function TrimBlanks(s: string): (r: string)
    ensures |r| <= |s|
  {
    if s != "" && IsSpace(s[|s| - 1]) then TrimBlanks(s[..|s| - 1]) else s
  }

  // ----- encoding -----

  // The bytes a line gives, and whether a message is printed (there are no bytes then).
  datatype Encoding = Encoding(bytes: seq<byte>, complains: bool)

  const COMPLAINT := Encoding([], true)
  const SILENCE := Encoding([], false)

  function One(i: Instr): Encoding { Encoding(Code(i), false) }

  function Left(args: string, comma: nat): string
    requires comma < |args|
  {
    SkipOnlySpaces(args[..comma])
  }

  function Right(args: string, comma: nat): string
    requires comma < |args|
  {
    SkipOnlySpaces(args[comma + 1..])
  }

  function EncodeMov(dest: string, src: string): Encoding
  {
    var d := Register(dest);
    if d >= 0 then One(MovImm(d, Low32(Strtoi(src)))) else COMPLAINT
  }

  function EncodeXor(dest: string, src: string): Encoding
  {
    var d, s := Register(dest), Register(src);
    if d >= 0 && s >= 0 then One(Xor(d, s)) else COMPLAINT
  }

  function EncodeAdd(dest: string, src: string): Encoding
  {
    var d, s := Register(dest), Register(src);
    if d >= 0 && s >= 0 then One(Add(d, s))
    else if d >= 0 then One(AddImm(d, Low32(Strtoi(src))))
    else COMPLAINT
  }

  function EncodeLow(sub: bool, dest: string, src: string): Encoding
  {
    var d, s := LowRegister(dest), LowRegister(src);
    if d >= 0 && s >= 0 then One(if sub then Sub(d, s) else Cmp(d, s)) else COMPLAINT
  }

  function EncodeOut(port: string, src: string): Encoding
  {
    if src == "al" then One(OutAl(Low8(Strtoi(port))))
    else if src == "ax" then One(OutEax(Low8(Strtoi(port))))
    else SILENCE
  }

  function EncodeIn(dest: string, port: string): Encoding
  {
    if dest == "al" then One(InAl(Low8(Strtoi(port))))
    else if dest == "ax" then One(InEax(Low8(Strtoi(port))))
    else SILENCE
  }

  const PAIRED: set<string> := {"mov", "xor", "add", "sub", "cmp", "out", "in"}

  function EncodePair(instr: string, l: string, r: string): Encoding
    requires instr in PAIRED
  {
    if instr == "mov" then EncodeMov(l, r)
    else if instr == "xor" then EncodeXor(l, r)
    else if instr == "add" then EncodeAdd(l, r)
    else if instr == "sub" then EncodeLow(true, l, r)
    else if instr == "cmp" then EncodeLow(false, l, r)
    else if instr == "out" then EncodeOut(l, r)
    else EncodeIn(l, r)
  }

  function DataByte(v: string): byte
  {
    if v != "" && v[0] == '\'' then (if |v| > 1 then v[1] as int % 0x100 else 0) else Low8(Strtoi(v))
  }

  function EncodeSingle(instr: string, args: string): Encoding
  {
    var operand := SkipOnlySpaces(args);
    var r := Register(operand);
    if instr == "nop" then One(Nop)
    else if instr == "ret" then One(Ret)
    else if instr == "int" then One(Int(Low8(Strtoi(args))))
    else if instr == "inc" then if r >= 0 then One(Inc(r)) else COMPLAINT
    else if instr == "dec" then if r >= 0 then One(Dec(r)) else COMPLAINT
    else if instr == "push" then One(if r >= 0 then Push(r) else PushImm(Low32(Strtoi(operand))))
    else if instr == "pop" then if r >= 0 then One(Pop(r)) else COMPLAINT
    else if instr == "call" then One(Call(Low32(Strtoi(operand))))
    else if instr == "jmp" then One(Jmp(Low32(Strtoi(operand))))
    else if instr == "hlt" then One(Hlt)
    else if instr == "cli" then One(Cli)
    else if instr == "sti" then One(Sti)
    else if instr == "db" then Encoding([DataByte(operand)], false)
    else if instr == "echo" || instr == "print" then COMPLAINT
    else if instr == "" || instr[0] == ';' || instr[0] == '#' then SILENCE
    else COMPLAINT
  }

  // Without a comma, mov complains and the other pairs give nothing.
  function EncodeParts(instr: string, args: string): Encoding
  {
    if instr in PAIRED then
      var comma := FindFrom(args, ",", 0);
      if 0 <= comma < |args| then EncodePair(instr, Left(args, comma), Right(args, comma))
      else if instr == "mov" then COMPLAINT
      else SILENCE
    else EncodeSingle(instr, args)
  }

  const WORD_LIMIT: nat := 31
  const ARGS_LIMIT: nat := 127

  function Encode(line: string): Encoding
  {
    var s := SkipSpaces(line);
    var n := WordLength(s, WORD_LIMIT);
    var rest := SkipSpaces(s[n..]);
    EncodeParts(s[..n], TrimBlanks(rest[..LineLength(rest, ARGS_LIMIT)]))
  }
}
