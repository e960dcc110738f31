// What a program does to the stack it was called on: the condition on its text under which the return
// address is on top again when it ends.
module AsmStack {
  import opened AsmCode
  import opened Bytes

  const SPAN: int := 0x1_0000_0000

  // ----- the condition -----

  // The stack pointer changes by push and pop alone.
  predicate StackOnly(i: Instr)
  {
    && StraightLine(i)
    && match i
       case MovImm(r, _) => r != ESP
       case Add(d, _) => d != ESP
       case AddImm(r, _) => r != ESP
       case Sub(d, _) => d != ESP
       case Xor(d, _) => d != ESP
       case Inc(r) => r != ESP
       case Dec(r) => r != ESP
       case Pop(r) => r != ESP
       case _ => true
  }

  function Change(i: Instr): int { if i.Push? || i.PushImm? then 1 else if i.Pop? then -1 else 0 }

  // From `depth` words on the stack, no more are popped than were pushed.
  predicate Disciplined(list: seq<Instr>, depth: nat)
  {
    list == [] ||
    (StackOnly(list[0]) && depth + Change(list[0]) >= 0 && Disciplined(list[1..], depth + Change(list[0])))
  }

  // How many are left.
  function Depth(list: seq<Instr>, depth: nat): nat
    requires Disciplined(list, depth)
  {
    if list == [] then depth else Depth(list[1..], depth + Change(list[0]))
  }

  lemma {:induction false} DisciplinedStraight(list: seq<Instr>, depth: nat)
    requires Disciplined(list, depth)
    ensures forall i :: i in list ==> StraightLine(i)
    decreases |list|
  {
    if list != [] {
      DisciplinedStraight(list[1..], depth + Change(list[0]));
    }
  }

  // ----- addresses -----

  // How far address `a` lies above `sp`, round the end of memory if need be.
  function Up(a: word, sp: word): word { Wrap(a as int - sp) }

  // The stack pointer `k` words below `sp`.
  function Down(sp: word, k: nat): word { Wrap(sp as int - 4 * k) }

  lemma WrapAdd(n: int, m: int)
    ensures Wrap(Wrap(n) as int + m) == Wrap(n + m)
  {
  }

  lemma DownSteps(sp: word, k: nat)
    ensures Wrap(Down(sp, k) as int - 4) == Down(sp, k + 1)
    ensures k > 0 ==> Wrap(Down(sp, k) as int + 4) == Down(sp, k - 1)
    ensures Down(sp, 0) == sp
  {
    WrapAdd(sp as int - 4 * k, -4);
    WrapAdd(sp as int - 4 * k, 4);
  }

  lemma DownUp(sp: word, k: nat, t: nat)
    requires 0 < k && 4 * k < SPAN && t < 4
    ensures Up(Wrap(Down(sp, k) as int + t), sp) as int == SPAN - 4 * k + t
  {
    WrapAdd(sp as int - 4 * k, t);
    WrapAdd(sp as int - 4 * k + t, -(sp as int));
  }

  // A push writes the four bytes below the stack pointer.
  lemma PushKeeps(c: Cpu, v: word, a: word)
    requires Sane(c)
    requires var sp := Wrap(c.regs[ESP] as int - 4); a !in {sp, Wrap(sp as int + 1), Wrap(sp as int + 2), Wrap(sp as int + 3)}
    ensures Byte(Pushed(c, v), a) == Byte(c, a)
  {
    hide ToLe32;
  }

  lemma ExecKeeps(c: Cpu, i: Instr)
    requires Sane(c) && StackOnly(i) && !i.Push? && !i.PushImm?
    ensures Exec(c, i).memory == c.memory
    ensures Exec(c, i).regs[ESP] == if i.Pop? then Wrap(c.regs[ESP] as int + 4) else c.regs[ESP]
  {
    hide Top, Xored;
  }

  // ----- one program, one run -----

  // An instruction with `k` words on the stack: where the stack pointer goes, and that nothing from `sp`
  // upward changes.
  lemma ExecStack(c: Cpu, i: Instr, sp: word, k: nat, a: word)
    requires Sane(c) && StackOnly(i) && k + Change(i) >= 0 && 4 * (k + 1) < SPAN && c.regs[ESP] == Down(sp, k)
    ensures Exec(c, i).regs[ESP] == Down(sp, k + Change(i))
    ensures Up(a, sp) as int < SPAN - 4 * (k + 1) ==> Byte(Exec(c, i), a) == Byte(c, a)
  {
    hide Down, Up, Wrap, Pushed;
    DownSteps(sp, k);
    if i.Push? || i.PushImm? {
      var v := if i.Push? then c.regs[i.r] else i.imm;
      PushedState(c, v);
      if Up(a, sp) as int < SPAN - 4 * (k + 1) {
        DownUp(sp, k + 1, 0);
        DownUp(sp, k + 1, 1);
        DownUp(sp, k + 1, 2);
        DownUp(sp, k + 1, 3);
        WrapWord(Down(sp, k + 1));
        PushKeeps(c, v, a);
      }
    } else {
      ExecKeeps(c, i);
      ByteOf(Exec(c, i), c, a);
    }
  }

  lemma WrapWord(a: word)
    ensures Wrap(a) == a
  {
  }

  lemma ByteOf(c: Cpu, d: Cpu, a: int)
    requires c.memory == d.memory
    ensures Byte(c, a) == Byte(d, a)
  {
  }

  lemma {:induction false} RunStack(c: Cpu, list: seq<Instr>, sp: word, k: nat)
    requires Sane(c) && Disciplined(list, k) && 4 * (k + |list|) < SPAN && c.regs[ESP] == Down(sp, k)
    requires forall i :: i in list ==> StraightLine(i)
    ensures RunSource(c, list).regs[ESP] == Down(sp, Depth(list, k))
    ensures forall a: word :: Up(a, sp) as int < SPAN - 4 * (k + |list|) ==> Byte(RunSource(c, list), a) == Byte(c, a)
    decreases |list|
  {
    hide Exec, Up, Down, Byte, StackOnly;
    if list != [] {
      var i := list[0];
      forall a: word
        ensures Exec(c, i).regs[ESP] == Down(sp, k + Change(i))
        ensures Up(a, sp) as int < SPAN - 4 * (k + 1) ==> Byte(Exec(c, i), a) == Byte(c, a)
      {
        ExecStack(c, i, sp, k, a);
      }
      ExecStack(c, i, sp, k, 0);
      RunStack(Exec(c, i), list[1..], sp, k + Change(i));
    }
  }

  // ----- one program, two return addresses -----

  // The same but for the word at `sp`.
  ghost predicate Alike(c: Cpu, d: Cpu, sp: word)
  {
    Sane(c) && d.regs == c.regs && forall a: word :: Up(a, sp) >= 4 ==> Byte(d, a) == Byte(c, a)
  }

  // The four bytes on top decide the word there.
  lemma TopSame(c: Cpu, d: Cpu)
    requires Sane(c) && Sane(d) && d.regs[ESP] == c.regs[ESP]
    requires forall a: word :: Up(a, c.regs[ESP]) < 4 ==> Byte(d, a) == Byte(c, a)
    ensures Top(d) == Top(c)
  {
    hide Le32, Byte, Up, Wrap;
    var s := c.regs[ESP];
    TopByte(c, d, s, 0);
    TopByte(c, d, s, 1);
    TopByte(c, d, s, 2);
    TopByte(c, d, s, 3);
  }

  lemma TopByte(c: Cpu, d: Cpu, s: word, t: int)
    requires 0 <= t < 4 && forall a: word :: Up(a, s) < 4 ==> Byte(d, a) == Byte(c, a)
    ensures Byte(d, s as int + t) == Byte(c, s as int + t)
  {
    hide Byte, Up, Wrap;
    UpFrom(s, t);
    ByteWrap(c, s as int + t);
    ByteWrap(d, s as int + t);
  }

  lemma UpFrom(s: word, t: int)
    requires 0 <= t < 4
    ensures Up(Wrap(s as int + t), s) == t
  {
    WrapAdd(s as int + t, -(s as int));
  }

  lemma TopAlike(c: Cpu, d: Cpu, sp: word, k: nat)
    requires Alike(c, d, sp) && 0 < k && 4 * k + 4 <= SPAN && c.regs[ESP] == Down(sp, k)
    ensures Top(d) == Top(c)
  {
    hide Top, Byte;
    forall a: word | Up(a, c.regs[ESP]) < 4
      ensures Byte(d, a) == Byte(c, a)
    {
      BelowSlot(a, sp, k);
    }
    TopSame(c, d);
  }

  lemma BelowSlot(a: word, sp: word, k: nat)
    requires 0 < k && 4 * k + 4 <= SPAN && Up(a, Down(sp, k)) < 4
    ensures Up(a, sp) >= 4
  {
    WrapAdd(a as int - Down(sp, k) as int, Down(sp, k) as int);
    var t := Up(a, Down(sp, k)) as nat;
    assert a == Wrap(Down(sp, k) as int + t);
    DownUp(sp, k, t);
  }

  lemma ByteWrap(c: Cpu, at: int)
    ensures Byte(c, Wrap(at)) == Byte(c, at)
  {
  }

  lemma PushAlike(c: Cpu, d: Cpu, sp: word, v: word)
    requires Alike(c, d, sp)
    ensures Alike(Pushed(c, v), Pushed(d, v), sp)
  {
    hide ToLe32, Up;
    forall a: word | Up(a, sp) >= 4
      ensures Byte(Pushed(d, v), a) == Byte(Pushed(c, v), a)
    {
      assert Byte(d, a) == Byte(c, a);
    }
  }

  lemma ExecAlike(c: Cpu, d: Cpu, i: Instr, sp: word, k: nat)
    requires Alike(c, d, sp) && StackOnly(i) && k + Change(i) >= 0 && 4 * k + 4 <= SPAN && c.regs[ESP] == Down(sp, k)
    ensures Alike(Exec(c, i), Exec(d, i), sp)
  {
    hide Up, Down, Wrap, Pushed, Top, Byte, Xored;
    if i.Push? || i.PushImm? {
      PushAlike(c, d, sp, if i.Push? then c.regs[i.r] else i.imm);
    } else {
      if i.Pop? {
        TopAlike(c, d, sp, k);
      }
      ExecKeeps(c, i);
      ExecKeeps(d, i);
      forall a: word | Up(a, sp) >= 4
        ensures Byte(Exec(d, i), a) == Byte(Exec(c, i), a)
      {
        ByteOf(Exec(c, i), c, a);
        ByteOf(Exec(d, i), d, a);
      }
    }
  }

  lemma {:induction false} RunAlike(c: Cpu, d: Cpu, list: seq<Instr>, sp: word, k: nat)
    requires Alike(c, d, sp) && Disciplined(list, k) && 4 * (k + |list|) + 4 < SPAN && c.regs[ESP] == Down(sp, k)
    requires forall i :: i in list ==> StraightLine(i)
    ensures Sane(d) && Alike(RunSource(c, list), RunSource(d, list), sp)
    decreases |list|
  {
    hide Exec, Down, Alike, StackOnly;
    AlikeSane(c, d, sp);
    if list != [] {
      ExecAlike(c, d, list[0], sp, k);
      ExecStack(c, list[0], sp, k, 0);
      RunAlike(Exec(c, list[0]), Exec(d, list[0]), list[1..], sp, k + Change(list[0]));
    }
  }

  lemma AlikeSane(c: Cpu, d: Cpu, sp: word)
    requires Alike(c, d, sp)
    ensures Sane(c) && Sane(d)
  {
  }

  // ----- what the condition gives -----

  lemma CalledAlike(c: Cpu, ra: word, rb: word)
    requires Sane(c)
    ensures Alike(Pushed(c, ra), Pushed(c, rb), Wrap(c.regs[ESP] as int - 4))
  {
    hide ToLe32;
    var sp := Wrap(c.regs[ESP] as int - 4);
    forall a: word | Up(a, sp) >= 4
      ensures Byte(Pushed(c, rb), a) == Byte(Pushed(c, ra), a)
    {
      PushKeeps(c, ra, a);
      PushKeeps(c, rb, a);
    }
  }

  // A balanced program leaves the return address on top, the caller's stack pointer below it, and the
  // caller's stack as it was.
  lemma BalancedLeaves(c: Cpu, ra: word, list: seq<Instr>)
    requires Sane(c) && Disciplined(list, 0) && Depth(list, 0) == 0 && 4 * |list| + 8 < SPAN
    requires forall i :: i in list ==> StraightLine(i)
    ensures var r := RunSource(Pushed(c, ra), list);
      && Top(r) == ra && Popped(r).regs[ESP] == c.regs[ESP]
      && forall a: word :: Up(a, c.regs[ESP]) as int < SPAN - 4 * (|list| + 1) ==> Byte(r, a) == Byte(c, a)
  {
    hide Exec, Pushed, RunSource, Depth, Disciplined, Byte, Top, Up, Down, Wrap;
    var sp, p := Wrap(c.regs[ESP] as int - 4), Pushed(c, ra);
    PushedState(c, ra);
    DownSteps(sp, 0);
    WrapAdd(c.regs[ESP] as int - 4, 4);
    WrapWord(c.regs[ESP]);
    RunStack(p, list, sp, 0);
    var r := RunSource(p, list);
    TopSame(p, r);
    forall a: word | Up(a, c.regs[ESP]) as int < SPAN - 4 * (|list| + 1)
      ensures Byte(r, a) == Byte(c, a)
    {
      AboveSlot(a, c.regs[ESP], |list|);
      PushKeeps(c, ra, a);
    }
  }

  lemma AboveSlot(a: word, esp: word, n: nat)
    requires Up(a, esp) as int < SPAN - 4 * (n + 1) && 4 * n + 8 < SPAN
    ensures var sp := Wrap(esp as int - 4);
      && Up(a, sp) as int < SPAN - 4 * n
      && a !in {sp, Wrap(sp as int + 1), Wrap(sp as int + 2), Wrap(sp as int + 3)}
  {
    hide Up, Wrap;
    var sp := Wrap(esp as int - 4);
    WrapWord(sp);
    UpBelow(a, esp);
    InSlot(sp, 0);
    InSlot(sp, 1);
    InSlot(sp, 2);
    InSlot(sp, 3);
  }

  lemma UpBelow(a: word, esp: word)
    requires Up(a, esp) as int < SPAN - 4
    ensures Up(a, Wrap(esp as int - 4)) as int == Up(a, esp) as int + 4
  {
  }

  lemma InSlot(sp: word, t: nat)
    requires t < 4
    ensures Up(Wrap(sp as int + t), sp) == t
  {
  }

  // With a word left over, what is on top does not depend on the return address.
  lemma LeftoverOnTop(c: Cpu, ra: word, rb: word, list: seq<Instr>)
    requires Sane(c) && Disciplined(list, 0) && Depth(list, 0) > 0 && 4 * |list| + 8 < SPAN
    requires forall i :: i in list ==> StraightLine(i)
    ensures Top(RunSource(Pushed(c, ra), list)) == Top(RunSource(Pushed(c, rb), list))
  {
    hide Exec, Pushed, RunSource, Depth, Disciplined, Byte, Top, Alike, Down;
    var sp := Wrap(c.regs[ESP] as int - 4);
    PushedState(c, ra);
    CalledAlike(c, ra, rb);
    DownSteps(sp, 0);
    RunAlike(Pushed(c, ra), Pushed(c, rb), list, sp, 0);
    RunStack(Pushed(c, ra), list, sp, 0);
    DepthBound(list, 0);
    TopAlike(RunSource(Pushed(c, ra), list), RunSource(Pushed(c, rb), list), sp, Depth(list, 0));
  }

  lemma {:induction false} DepthBound(list: seq<Instr>, depth: nat)
    requires Disciplined(list, depth)
    ensures Depth(list, depth) <= depth + |list|
    decreases |list|
  {
    hide StackOnly;
    if list != [] {
      DepthBound(list[1..], depth + Change(list[0]));
    }
  }
}
