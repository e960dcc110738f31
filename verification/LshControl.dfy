// Control flow of the script language: the interpreter that runs if/else/fi and while/done straight
// from the flat lines by scanning for keywords, the tree a script stands for, and the proof that the
// two agree. Both are parameterised by what a condition and a plain line mean.
module LshControl {
  import opened CString
  import opened Slices

  // ----- lines -----

  datatype Kind = Blank | If | While | Else | Fi | Done | Plain

  predicate IsKeyword(l: string, word: string) { l == word || word + "\n" <= l }

  function KindOf(raw: string): Kind
  {
    var l := SkipSpaces(raw);
    if l == "" || l[0] == '\n' || l[0] == '#' then Blank
    else if "if " <= l then If
    else if "while " <= l then While
    else if IsKeyword(l, "else") then Else
    else if IsKeyword(l, "fi") then Fi
    else if IsKeyword(l, "done") then Done
    else Plain
  }

  type Lines = seq<string>

  // ----- the keyword scans -----

  // The line that closes a block opened before line `i`, at nesting `depth`; -1 if there is none.
  function FindClose(lines: Lines, i: nat, opening: Kind, closing: Kind, depth: nat): (r: int)
    requires depth > 0
    ensures r == -1 || i <= r < |lines|
    decreases |lines| - i
  {
    if i >= |lines| then -1
    else if KindOf(lines[i]) == opening then FindClose(lines, i + 1, opening, closing, depth + 1)
    else if KindOf(lines[i]) == closing then
      if depth == 1 then i else FindClose(lines, i + 1, opening, closing, depth - 1)
    else FindClose(lines, i + 1, opening, closing, depth)
  }

  function FindFi(lines: Lines, i: nat): int { FindClose(lines, i, If, Fi, 1) }

  function FindDone(lines: Lines, i: nat): int { FindClose(lines, i, While, Done, 1) }

  // The scan for the else of an if: an else of a nested if also counts down.
  function FindElse(lines: Lines, i: nat, end: nat, depth: int): (r: int)
    ensures r == -1 || i <= r < end
    decreases end - i
  {
    if i >= end || i >= |lines| then -1
    else
      match KindOf(lines[i])
      case If => FindElse(lines, i + 1, end, depth + 1)
      case Else => if depth == 1 then i else FindElse(lines, i + 1, end, depth - 1)
      case Fi => FindElse(lines, i + 1, end, depth - 1)
      case _ => FindElse(lines, i + 1, end, depth)
  }

  // ----- what runs -----

  // What the parts of a script mean: the test of an if or while line, the effect of a plain line,
  // and of a message of the interpreter.
  datatype Machine<!S> = Machine(test: (string, S) -> bool, run: (string, S) -> S, say: (string, S) -> S)

  const LIMIT: nat := 1000
  const MISSING_FI := "lsh: missing fi\n"
  const MISSING_DONE := "lsh: missing done\n"
  const LIMIT_REACHED := "lsh: while loop limit reached\n"

  // Lines `i` to `end` as `execute_block` runs them. Every call for a nested block starts at a later
  // line, so this terminates on any lines whatever.
  function Block<S>(m: Machine<S>, lines: Lines, i: nat, end: nat, s: S): S
    decreases |lines| - i, LIMIT + 1
  {
    if i >= end || i >= |lines| then s
    else
      match KindOf(lines[i])
      case If =>
        var fi := FindFi(lines, i + 1);
        if fi < 0 then m.say(MISSING_FI, s)
        else
          var els := FindElse(lines, i + 1, fi, 1);
          var s' := if m.test(lines[i], s) then Block(m, lines, i + 1, if els >= 0 then els else fi, s)
                    else if els >= 0 then Block(m, lines, els + 1, fi, s)
                    else s;
          Block(m, lines, fi + 1, end, s')
      case While =>
        var done := FindDone(lines, i + 1);
        if done < 0 then m.say(MISSING_DONE, s)
        else Block(m, lines, done + 1, end, Loop(m, lines, i, done, 0, s))
      case Plain => Block(m, lines, i + 1, end, m.run(lines[i], s))
      case _ => Block(m, lines, i + 1, end, s)
  }

  function Loop<S>(m: Machine<S>, lines: Lines, i: nat, done: nat, iterations: nat, s: S): S
    requires i < |lines| && iterations <= LIMIT
    decreases |lines| - i, LIMIT - iterations
  {
    if m.test(lines[i], s) && iterations < LIMIT then
      Loop(m, lines, i, done, iterations + 1, Block(m, lines, i + 1, done, s))
    else if iterations >= LIMIT then m.say(LIMIT_REACHED, s)
    else s
  }

  // ----- scripts as trees -----

  datatype Script = End | Cons(head: Stmt, tail: Script)

  datatype Stmt =
    | Simple(line: string)
    | IfThen(line: string, thn: Script, fi: string)
    | IfElse(line: string, thn: Script, mid: string, els: Script, fi: string)
    | Repeat(line: string, body: Script, done: string)

  // Every line is of the kind its place asks for.
  predicate WellKinded(t: Script)
  {
    t.Cons? ==> WellKindedStmt(t.head) && WellKinded(t.tail)
  }

  predicate WellKindedStmt(t: Stmt)
  {
    match t
    case Simple(l) => KindOf(l) == Plain || KindOf(l) == Blank
    case IfThen(l, thn, fi) => KindOf(l) == If && WellKinded(thn) && KindOf(fi) == Fi
    case IfElse(l, thn, mid, els, fi) =>
      KindOf(l) == If && WellKinded(thn) && KindOf(mid) == Else && WellKinded(els) && KindOf(fi) == Fi
    case Repeat(l, body, done) => KindOf(l) == While && WellKinded(body) && KindOf(done) == Done
  }

  function Flat(t: Script): Lines
  {
    match t
    case End => []
    case Cons(s, rest) => FlatStmt(s) + Flat(rest)
  }

  function FlatStmt(t: Stmt): (l: Lines)
    ensures |l| > 0
  {
    match t
    case Simple(l) => [l]
    case IfThen(l, thn, fi) => [l] + Flat(thn) + [fi]
    case IfElse(l, thn, mid, els, fi) => [l] + Flat(thn) + [mid] + Flat(els) + [fi]
    case Repeat(l, body, done) => [l] + Flat(body) + [done]
  }

  // What a script should do, with loops cut at the limit.
  function Eval<S>(m: Machine<S>, t: Script, s: S): S
    decreases t, LIMIT + 2
  {
    match t
    case End => s
    case Cons(h, rest) => Eval(m, rest, EvalStmt(m, h, s))
  }

  function EvalStmt<S>(m: Machine<S>, t: Stmt, s: S): S
    decreases t, LIMIT + 1
  {
    match t
    case Simple(l) => if KindOf(l) == Plain then m.run(l, s) else s
    case IfThen(l, thn, _) => if m.test(l, s) then Eval(m, thn, s) else s
    case IfElse(l, thn, _, els, _) => if m.test(l, s) then Eval(m, thn, s) else Eval(m, els, s)
    case Repeat(l, body, _) => EvalLoop(m, t, 0, s)
  }

  function EvalLoop<S>(m: Machine<S>, t: Stmt, iterations: nat, s: S): S
    requires t.Repeat? && iterations <= LIMIT
    decreases t, LIMIT - iterations
  {
    if m.test(t.line, s) && iterations < LIMIT then EvalLoop(m, t, iterations + 1, Eval(m, t.body, s))
    else if iterations >= LIMIT then m.say(LIMIT_REACHED, s)
    else s
  }

  // ----- when the scan for else is right -----

  // How many ifs with an else of their own there are, at any depth: each takes one from the scan.
  function Elses(t: Script): nat { if t.End? then 0 else ElsesStmt(t.head) + Elses(t.tail) }

  function ElsesStmt(t: Stmt): nat
  {
    match t
    case Simple(_) => 0
    case IfThen(_, thn, _) => Elses(thn)
    case IfElse(_, thn, _, els, _) => Elses(thn) + Elses(els) + 1
    case Repeat(_, body, _) => Elses(body)
  }

  // No else within brings the scan from `depth` to zero.
  predicate Clear(t: Script, depth: int)
  {
    t.Cons? ==> ClearStmt(t.head, depth) && Clear(t.tail, depth - ElsesStmt(t.head))
  }

  predicate ClearStmt(t: Stmt, depth: int)
  {
    match t
    case Simple(_) => true
    case IfThen(_, thn, _) => Clear(thn, depth + 1)
    case IfElse(_, thn, _, els, _) =>
      Clear(thn, depth + 1) && depth - Elses(thn) != 0 && Clear(els, depth - Elses(thn))
    case Repeat(_, body, _) => Clear(body, depth)
  }

  // For an if with an else: its then-branch holds no other if with an else. For one without: no else
  // in its branch brings the scan to zero.
  predicate ElseFound(t: Stmt)
  {
    match t
    case IfThen(_, thn, _) => Clear(thn, 1)
    case IfElse(_, thn, _, _, _) => Elses(thn) == 0
    case _ => true
  }

  predicate AllElsesFound(t: Script) { t.Cons? ==> AllElsesFoundStmt(t.head) && AllElsesFound(t.tail) }

  predicate AllElsesFoundStmt(t: Stmt)
  {
    && ElseFound(t)
    && match t
       case Simple(_) => true
       case IfThen(_, thn, _) => AllElsesFound(thn)
       case IfElse(_, thn, _, els, _) => AllElsesFound(thn) && AllElsesFound(els)
       case Repeat(_, body, _) => AllElsesFound(body)
  }

  // ----- the scans on flattened trees -----

  lemma AtCons(lines: Lines, i: nat, t: Script)
    requires t.Cons? && At(lines, i, Flat(t))
    ensures At(lines, i, FlatStmt(t.head)) && At(lines, i + |FlatStmt(t.head)|, Flat(t.tail))
    ensures |Flat(t)| == |FlatStmt(t.head)| + |Flat(t.tail)| && i + |Flat(t)| <= |lines|
  {
    hide FlatStmt;
    AtParts(lines, i, FlatStmt(t.head), Flat(t.tail));
  }

  lemma AtSimple(lines: Lines, i: nat, t: Stmt)
    requires t.Simple? && At(lines, i, FlatStmt(t))
    ensures i < |lines| && lines[i] == t.line && |FlatStmt(t)| == 1
  {
    assert lines[i] == lines[i..i + 1][0];
  }

  function Inner(t: Stmt): Script
    requires !t.Simple?
  {
    if t.Repeat? then t.body else t.thn
  }

  // Where the parts of a statement lie.
  lemma AtBranch(lines: Lines, i: nat, t: Stmt)
    requires (t.IfThen? || t.Repeat?) && At(lines, i, FlatStmt(t))
    ensures |FlatStmt(t)| == |Flat(Inner(t))| + 2 && At(lines, i + 1, Flat(Inner(t)))
    ensures i + 1 + |Flat(Inner(t))| < |lines| && lines[i] == t.line
    ensures lines[i + 1 + |Flat(Inner(t))|] == if t.Repeat? then t.done else t.fi
  {
    hide Flat;
    var close := if t.Repeat? then t.done else t.fi;
    AtParts(lines, i, [t.line] + Flat(Inner(t)), [close]);
    AtParts(lines, i, [t.line], Flat(Inner(t)));
    AtOne(lines, i, t.line);
    AtOne(lines, i + 1 + |Flat(Inner(t))|, close);
  }

  lemma AtBranches(lines: Lines, i: nat, t: Stmt)
    requires t.IfElse? && At(lines, i, FlatStmt(t))
    ensures |FlatStmt(t)| == |Flat(t.thn)| + |Flat(t.els)| + 3 && lines[i] == t.line
    ensures At(lines, i + 1, Flat(t.thn)) && At(lines, i + 2 + |Flat(t.thn)|, Flat(t.els))
    ensures i + 2 + |Flat(t.thn)| + |Flat(t.els)| < |lines|
    ensures lines[i + 1 + |Flat(t.thn)|] == t.mid
    ensures lines[i + 2 + |Flat(t.thn)| + |Flat(t.els)|] == t.fi
  {
    hide Flat, At;
    var a, b := Flat(t.thn), Flat(t.els);
    AtParts(lines, i, [t.line] + a + [t.mid] + b, [t.fi]);
    AtParts(lines, i, [t.line] + a + [t.mid], b);
    AtParts(lines, i, [t.line] + a, [t.mid]);
    AtParts(lines, i, [t.line], a);
    AtOne(lines, i, t.line);
    AtOne(lines, i + 1 + |a|, t.mid);
    AtOne(lines, i + 2 + |a| + |b|, t.fi);
  }

  predicate Pair(opening: Kind, closing: Kind) { (opening == If && closing == Fi) || (opening == While && closing == Done) }

  lemma {:induction false} CloseSkips(lines: Lines, i: nat, opening: Kind, closing: Kind, depth: nat, t: Script)
    requires depth > 0 && Pair(opening, closing) && WellKinded(t) && At(lines, i, Flat(t))
    ensures FindClose(lines, i, opening, closing, depth)
            == FindClose(lines, i + |Flat(t)|, opening, closing, depth)
    decreases t, 1
  {
    hide At, FlatStmt, FindClose, WellKindedStmt;
    if t.Cons? {
      AtCons(lines, i, t);
      CloseSkipsStmt(lines, i, opening, closing, depth, t.head);
      CloseSkips(lines, i + |FlatStmt(t.head)|, opening, closing, depth, t.tail);
    }
  }

  lemma {:induction false} CloseSkipsStmt(lines: Lines, i: nat, opening: Kind, closing: Kind, depth: nat, t: Stmt)
    requires depth > 0 && Pair(opening, closing) && WellKindedStmt(t) && At(lines, i, FlatStmt(t))
    ensures FindClose(lines, i, opening, closing, depth)
            == FindClose(lines, i + |FlatStmt(t)|, opening, closing, depth)
    decreases t, 1
  {
    hide At, FlatStmt, Flat, KindOf, WellKinded;
    match t
    case Simple(_) =>
      AtSimple(lines, i, t);
    case IfThen(_, thn, _) =>
      AtBranch(lines, i, t);
      CloseSkips(lines, i + 1, opening, closing, if opening == If then depth + 1 else depth, thn);
    case IfElse(_, _, _, _, _) =>
      CloseSkipsElse(lines, i, opening, closing, depth, t);
    case Repeat(_, body, _) =>
      AtBranch(lines, i, t);
      CloseSkips(lines, i + 1, opening, closing, if opening == While then depth + 1 else depth, body);
  }

  lemma {:induction false} CloseSkipsElse(lines: Lines, i: nat, opening: Kind, closing: Kind, depth: nat, t: Stmt)
    requires depth > 0 && Pair(opening, closing) && t.IfElse? && WellKindedStmt(t) && At(lines, i, FlatStmt(t))
    ensures FindClose(lines, i, opening, closing, depth)
            == FindClose(lines, i + |FlatStmt(t)|, opening, closing, depth)
    decreases t, 0
  {
    hide At, FlatStmt, Flat, KindOf, WellKinded;
    AtBranches(lines, i, t);
    var inner := if opening == If then depth + 1 else depth;
    CloseSkips(lines, i + 1, opening, closing, inner, t.thn);
    CloseSkips(lines, i + 2 + |Flat(t.thn)|, opening, closing, inner, t.els);
  }

  // The scan for else over a well-formed stretch: it stops inside unless the stretch is clear.
  lemma {:induction false} ElseScan(lines: Lines, i: nat, end: nat, depth: int, t: Script)
    requires WellKinded(t) && At(lines, i, Flat(t)) && i + |Flat(t)| <= end
    ensures Clear(t, depth) ==>
      FindElse(lines, i, end, depth) == FindElse(lines, i + |Flat(t)|, end, depth - Elses(t))
    ensures !Clear(t, depth) ==> i <= FindElse(lines, i, end, depth) < i + |Flat(t)|
    decreases t, 1
  {
    hide At, FlatStmt, FindElse, WellKindedStmt, ClearStmt, ElsesStmt;
    if t.Cons? {
      AtCons(lines, i, t);
      ElseScanStmt(lines, i, end, depth, t.head);
      ElseScan(lines, i + |FlatStmt(t.head)|, end, depth - ElsesStmt(t.head), t.tail);
    }
  }

  lemma {:induction false} ElseScanStmt(lines: Lines, i: nat, end: nat, depth: int, t: Stmt)
    requires WellKindedStmt(t) && At(lines, i, FlatStmt(t)) && i + |FlatStmt(t)| <= end
    ensures ClearStmt(t, depth) ==>
      FindElse(lines, i, end, depth) == FindElse(lines, i + |FlatStmt(t)|, end, depth - ElsesStmt(t))
    ensures !ClearStmt(t, depth) ==> i <= FindElse(lines, i, end, depth) < i + |FlatStmt(t)|
    decreases t, 1
  {
    hide At, FlatStmt, Flat, KindOf, WellKinded, Clear, Elses;
    match t
    case Simple(_) =>
      AtSimple(lines, i, t);
    case IfThen(_, thn, _) =>
      AtBranch(lines, i, t);
      ElseScan(lines, i + 1, end, depth + 1, thn);
    case IfElse(_, _, _, _, _) =>
      ElseScanElse(lines, i, end, depth, t);
    case Repeat(_, body, _) =>
      AtBranch(lines, i, t);
      ElseScan(lines, i + 1, end, depth, body);
  }

  lemma {:induction false} ElseScanElse(lines: Lines, i: nat, end: nat, depth: int, t: Stmt)
    requires t.IfElse? && WellKindedStmt(t) && At(lines, i, FlatStmt(t)) && i + |FlatStmt(t)| <= end
    ensures ClearStmt(t, depth) ==>
      FindElse(lines, i, end, depth) == FindElse(lines, i + |FlatStmt(t)|, end, depth - ElsesStmt(t))
    ensures !ClearStmt(t, depth) ==> i <= FindElse(lines, i, end, depth) < i + |FlatStmt(t)|
    decreases t, 0
  {
    hide At, FlatStmt, Flat, KindOf, WellKinded, Clear, Elses;
    AtBranches(lines, i, t);
    ElseScan(lines, i + 1, end, depth + 1, t.thn);
    ElseScan(lines, i + 2 + |Flat(t.thn)|, end, depth - Elses(t.thn), t.els);
  }

  // A stretch without elses of its own is clear at any depth.
  lemma {:induction false} NoElsesClear(t: Script, depth: int)
    requires Elses(t) == 0
    ensures Clear(t, depth)
    decreases t
  {
    if t.Cons? {
      NoElsesClear(t.tail, depth);
      match t.head
      case Simple(_) =>
      case IfThen(_, thn, _) => NoElsesClear(thn, depth + 1);
      case IfElse(_, _, _, _, _) =>
      case Repeat(_, body, _) => NoElsesClear(body, depth);
    }
  }

  // What the scan should find for the if at line `i`.
  function OwnElse(i: nat, t: Stmt): int
    requires t.IfThen? || t.IfElse?
  {
    if t.IfElse? then i + 1 + |Flat(t.thn)| else -1
  }

  // The scan finds an if's own else, or that it has none, exactly if the then-branch lets it.
  lemma FindElseExact(lines: Lines, i: nat, t: Stmt)
    requires (t.IfThen? || t.IfElse?) && WellKindedStmt(t) && At(lines, i, FlatStmt(t))
    ensures FindFi(lines, i + 1) == i + |FlatStmt(t)| - 1
    ensures FindElse(lines, i + 1, i + |FlatStmt(t)| - 1, 1) == OwnElse(i, t) <==> ElseFound(t)
  {
    hide At, FlatStmt, Flat, KindOf, WellKinded, Clear, Elses;
    var end := i + |FlatStmt(t)| - 1;
    if t.IfThen? {
      AtBranch(lines, i, t);
      CloseSkips(lines, i + 1, If, Fi, 1, t.thn);
      ElseScan(lines, i + 1, end, 1, t.thn);
    } else {
      AtBranches(lines, i, t);
      CloseSkips(lines, i + 1, If, Fi, 1, t.thn);
      CloseSkips(lines, i + 2 + |Flat(t.thn)|, If, Fi, 1, t.els);
      ElseScan(lines, i + 1, end, 1, t.thn);
      if Elses(t.thn) == 0 {
        NoElsesClear(t.thn, 1);
      }
    }
  }

  lemma FindDoneExact(lines: Lines, i: nat, t: Stmt)
    requires t.Repeat? && WellKindedStmt(t) && At(lines, i, FlatStmt(t))
    ensures FindDone(lines, i + 1) == i + |FlatStmt(t)| - 1
  {
    hide At, FlatStmt, Flat, KindOf, WellKinded;
    AtBranch(lines, i, t);
    CloseSkips(lines, i + 1, While, Done, 1, t.body);
  }

  // ----- the interpreter runs the tree -----

  lemma {:induction false} BlockRunsScript<S>(m: Machine<S>, lines: Lines, i: nat, end: nat, t: Script, s: S)
    requires WellKinded(t) && AllElsesFound(t) && At(lines, i, Flat(t)) && i + |Flat(t)| <= end
    ensures Block(m, lines, i, end, s) == Block(m, lines, i + |Flat(t)|, end, Eval(m, t, s))
    decreases t, LIMIT + 2
  {
    hide At, FlatStmt, Block, WellKindedStmt, EvalStmt, AllElsesFoundStmt;
    if t.Cons? {
      AtCons(lines, i, t);
      BlockRunsStmt(m, lines, i, end, t.head, s);
      BlockRunsScript(m, lines, i + |FlatStmt(t.head)|, end, t.tail, EvalStmt(m, t.head, s));
    }
  }

  lemma {:induction false} BlockRunsStmt<S>(m: Machine<S>, lines: Lines, i: nat, end: nat, t: Stmt, s: S)
    requires WellKindedStmt(t) && AllElsesFoundStmt(t) && At(lines, i, FlatStmt(t)) && i + |FlatStmt(t)| <= end
    ensures Block(m, lines, i, end, s) == Block(m, lines, i + |FlatStmt(t)|, end, EvalStmt(m, t, s))
    decreases t, LIMIT + 1
  {
    hide At, FlatStmt, Flat, KindOf, WellKinded, AllElsesFound, Eval, EvalLoop, Loop, FindElse, FindClose, ElseFound;
    match t
    case Simple(_) =>
      AtSimple(lines, i, t);
    case IfThen(_, thn, _) =>
      AtBranch(lines, i, t);
      FindElseExact(lines, i, t);
      BranchRuns(m, lines, i + 1, thn, s);
    case IfElse(_, thn, _, els, _) =>
      AtBranches(lines, i, t);
      FindElseExact(lines, i, t);
      BranchRuns(m, lines, i + 1, thn, s);
      BranchRuns(m, lines, i + 2 + |Flat(thn)|, els, s);
    case Repeat(_, body, _) =>
      AtBranch(lines, i, t);
      FindDoneExact(lines, i, t);
      LoopRuns(m, lines, i, t, 0, s);
  }

  // A stretch run on its own.
  lemma {:induction false} BranchRuns<S>(m: Machine<S>, lines: Lines, i: nat, t: Script, s: S)
    requires WellKinded(t) && AllElsesFound(t) && At(lines, i, Flat(t))
    ensures Block(m, lines, i, i + |Flat(t)|, s) == Eval(m, t, s)
    decreases t, LIMIT + 3
  {
    hide At, Flat, WellKinded, AllElsesFound, Eval;
    BlockRunsScript(m, lines, i, i + |Flat(t)|, t, s);
  }

  lemma {:induction false} LoopRuns<S>(m: Machine<S>, lines: Lines, i: nat, t: Stmt, iterations: nat, s: S)
    requires t.Repeat? && WellKindedStmt(t) && AllElsesFoundStmt(t) && At(lines, i, FlatStmt(t)) && iterations <= LIMIT
    ensures i < |lines| && Loop(m, lines, i, i + |FlatStmt(t)| - 1, iterations, s) == EvalLoop(m, t, iterations, s)
    decreases t, LIMIT - iterations
  {
    hide At, FlatStmt, Flat, KindOf, WellKinded, AllElsesFound, Eval, Block;
    AtBranch(lines, i, t);
    if m.test(t.line, s) && iterations < LIMIT {
      BranchRuns(m, lines, i + 1, t.body, s);
      LoopRuns(m, lines, i, t, iterations + 1, Eval(m, t.body, s));
    }
  }

  // The main result: on a flattened script whose elses the scan finds, the line interpreter does
  // what the tree says.
  lemma Simulation<S>(m: Machine<S>, t: Script, s: S)
    requires WellKinded(t) && AllElsesFound(t)
    ensures Block(m, Flat(t), 0, |Flat(t)|, s) == Eval(m, t, s)
  {
    assert Flat(t)[0..0 + |Flat(t)|] == Flat(t);
    BranchRuns(m, Flat(t), 0, t, s);
  }

  // Where the scan is wrong the run is, too: in this script the then-branch has an else of its own,
  // so the outer else is missed, and both branches run.
  function Log(): Machine<seq<string>>
  {
    Machine((l, s) => true, (l, s: seq<string>) => s + [l], (l, s: seq<string>) => s + [l])
  }

  const NESTED: Script :=
    Cons(IfElse("if a", Cons(IfElse("if b", Cons(Simple("x"), End), "else", Cons(Simple("y"), End), "fi"), End),
                "else", Cons(Simple("z"), End), "fi"), End)

  lemma NestedKinds()
    ensures KindOf("if a") == If && KindOf("if b") == If && KindOf("else") == Else && KindOf("fi") == Fi
    ensures KindOf("x") == Plain && KindOf("y") == Plain && KindOf("z") == Plain
  {
  }

  lemma NestedFlat()
    ensures Flat(NESTED) == ["if a", "if b", "x", "else", "y", "fi", "else", "z", "fi"]
  {
    hide KindOf;
  }

  lemma NestedScans(lines: Lines)
    requires lines == ["if a", "if b", "x", "else", "y", "fi", "else", "z", "fi"]
    ensures FindFi(lines, 1) == 8 && FindElse(lines, 1, 8, 1) == -1
    ensures FindFi(lines, 2) == 5 && FindElse(lines, 2, 5, 1) == 3
  {
    hide KindOf;
    NestedKinds();
    assert FindClose(lines, 8, If, Fi, 1) == 8;
    assert FindClose(lines, 6, If, Fi, 1) == 8;
    assert FindClose(lines, 4, If, Fi, 2) == 8;
    assert FindClose(lines, 2, If, Fi, 2) == 8;
    assert FindClose(lines, 4, If, Fi, 1) == 5;
    assert FindClose(lines, 3, If, Fi, 1) == 5;
    assert FindElse(lines, 3, 5, 1) == 3;
    assert FindElse(lines, 6, 8, 0) == -1;
    assert FindElse(lines, 4, 8, 1) == -1;
    assert FindElse(lines, 2, 8, 2) == -1;
  }

  lemma SimulationFails()
    ensures WellKinded(NESTED) && !AllElsesFound(NESTED)
    ensures Eval(Log(), NESTED, []) == ["x"]
    ensures Block(Log(), Flat(NESTED), 0, |Flat(NESTED)|, []) == ["x", "z"]
  {
    hide KindOf, Flat;
    NestedKinds();
    NestedFlat();
    NestedRun(Flat(NESTED));
  }

  lemma NestedRun(lines: Lines)
    requires lines == ["if a", "if b", "x", "else", "y", "fi", "else", "z", "fi"]
    ensures Block(Log(), lines, 0, 9, []) == ["x", "z"]
  {
    hide KindOf, Flat, FindElse, FindClose;
    NestedKinds();
    NestedScans(lines);
    var m := Log();
    assert Block(m, lines, 2, 3, []) == Block(m, lines, 3, 3, [] + ["x"]) == ["x"];
    assert Block(m, lines, 8, 8, ["x", "z"]) == ["x", "z"];
    assert ["x"] + ["z"] == ["x", "z"];
    assert Block(m, lines, 7, 8, ["x"]) == ["x", "z"];
    assert Block(m, lines, 1, 8, []) == Block(m, lines, 6, 8, ["x"]);
  }

  // The condition is not necessary: in this script the middle if is cut short at the wrong else, but
  // its condition is the same line as the one around it, so its else-branch never runs, and every
  // machine does what the tree says. Every branch holds a plain line.
  const SAME: Stmt := IfElse("if a", Cons(Simple("x"), End), "else", Cons(Simple("y"), End), "fi")
  const CUT: Stmt :=
    IfElse("if a", Cons(Simple("x"), Cons(SAME, Cons(SAME, End))), "else", Cons(Simple("z"), End), "fi")
  const HARMLESS: Script := Cons(IfThen("if a", Cons(CUT, Cons(Simple("z"), End)), "fi"), End)

  const HARMLESS_LINES: Lines :=
    ["if a", "if a", "x", "if a", "x", "else", "y", "fi", "if a", "x", "else", "y", "fi", "else", "z", "fi", "z", "fi"]

  lemma SameFlat()
    ensures Flat(Cons(SAME, Cons(SAME, End))) == ["if a", "x", "else", "y", "fi", "if a", "x", "else", "y", "fi"]
  {
    assert FlatStmt(SAME) == ["if a", "x", "else", "y", "fi"];
  }

  lemma CutFlat()
    ensures FlatStmt(CUT)
            == ["if a", "x"] + Flat(Cons(SAME, Cons(SAME, End))) + ["else", "z", "fi"]
  {
    var inner := Cons(SAME, Cons(SAME, End));
    assert Flat(Cons(Simple("x"), inner)) == ["x"] + Flat(inner);
    assert Flat(Cons(Simple("z"), End)) == ["z"];
  }

  lemma HarmlessFlat()
    ensures Flat(HARMLESS) == HARMLESS_LINES
  {
    hide FlatStmt;
    SameFlat();
    CutFlat();
    assert FlatStmt(Simple("z")) == ["z"] by { OneLine("z"); }
    assert Flat(Cons(CUT, Cons(Simple("z"), End))) == FlatStmt(CUT) + ["z"];
    OuterFlat(Cons(CUT, Cons(Simple("z"), End)));
  }

  lemma OneLine(l: string)
    ensures FlatStmt(Simple(l)) == [l]
  {
  }

  lemma OuterFlat(t: Script)
    ensures Flat(Cons(IfThen("if a", t, "fi"), End)) == ["if a"] + Flat(t) + ["fi"]
  {
  }

  lemma HarmlessScans(lines: Lines)
    requires lines == HARMLESS_LINES
    ensures FindFi(lines, 1) == 17 && FindElse(lines, 1, 17, 1) == -1
    ensures FindFi(lines, 2) == 15 && FindElse(lines, 2, 15, 1) == 10
    ensures FindFi(lines, 4) == 7 && FindElse(lines, 4, 7, 1) == 5
    ensures FindFi(lines, 9) == 12 && FindElse(lines, 9, 12, 1) == 10
  {
    hide KindOf;
    NestedKinds();
    assert FindClose(lines, 13, If, Fi, 2) == 17 && FindClose(lines, 13, If, Fi, 1) == 15;
    assert FindClose(lines, 10, If, Fi, 3) == 17 && FindClose(lines, 10, If, Fi, 2) == 15 && FindClose(lines, 10, If, Fi, 1) == 12;
    assert FindClose(lines, 8, If, Fi, 2) == 17 && FindClose(lines, 8, If, Fi, 1) == 15;
    assert FindClose(lines, 5, If, Fi, 3) == 17 && FindClose(lines, 5, If, Fi, 2) == 15 && FindClose(lines, 5, If, Fi, 1) == 7;
    assert FindElse(lines, 13, 17, 0) == -1;
    assert FindElse(lines, 10, 17, 2) == -1;
    assert FindElse(lines, 8, 17, 1) == -1;
    assert FindElse(lines, 5, 17, 3) == -1;
    assert FindElse(lines, 8, 15, 0) == 10;
    assert FindElse(lines, 5, 15, 2) == 10;
  }

  lemma HarmlessRun<S>(m: Machine<S>, lines: Lines, s: S)
    requires lines == HARMLESS_LINES
    ensures Block(m, lines, 0, 18, s) == Eval(m, HARMLESS, s)
  {
    hide KindOf, Flat, FindElse, FindClose;
    NestedKinds();
    HarmlessScans(lines);
    if m.test("if a", s) {
      var s1 := m.run("x", s);
      var s2 := if m.test("if a", s1) then m.run("x", s1) else m.run("y", s1);
      var s3 := if m.test("if a", s2) then m.run("x", s2) else m.run("y", s2);
      assert Block(m, lines, 4, 5, s1) == m.run("x", s1) && Block(m, lines, 6, 7, s1) == m.run("y", s1);
      assert Block(m, lines, 9, 10, s2) == m.run("x", s2) && Block(m, lines, 11, 12, s2) == m.run("y", s2);
      assert Block(m, lines, 8, 10, s2) == s3;
      assert Block(m, lines, 3, 10, s1) == s3;
      assert Block(m, lines, 2, 10, s) == s3;
      assert Block(m, lines, 16, 17, s3) == m.run("z", s3);
      assert Block(m, lines, 1, 17, s) == m.run("z", s3);
      assert EvalStmt(m, SAME, s1) == s2 && EvalStmt(m, SAME, s2) == s3;
      assert EvalStmt(m, CUT, s) == s3;
    }
  }

  lemma NotNecessary<S>(m: Machine<S>, s: S)
    ensures WellKinded(HARMLESS) && !AllElsesFound(HARMLESS)
    ensures Block(m, Flat(HARMLESS), 0, |Flat(HARMLESS)|, s) == Eval(m, HARMLESS, s)
  {
    hide KindOf, Block;
    NestedKinds();
    HarmlessFlat();
    HarmlessRun(m, HARMLESS_LINES, s);
    assert !ElseFound(CUT);
  }

  // ----- how many lines run -----

  // The machine that also counts the plain lines it runs.
  function Counting<S>(m: Machine<S>): Machine<(S, int)>
  {
    Machine((l: string, p: (S, int)) => m.test(l, p.0),
            (l: string, p: (S, int)) => (m.run(l, p.0), p.1 + 1),
            (l: string, p: (S, int)) => (m.say(l, p.0), p.1))
  }

  // The sum over the plain lines of 1000 to the number of whiles around each.
  function Weight(t: Script): nat { if t.End? then 0 else WeightStmt(t.head) + Weight(t.tail) }

  function WeightStmt(t: Stmt): nat
  {
    match t
    case Simple(l) => if KindOf(l) == Plain then 1 else 0
    case IfThen(_, thn, _) => Weight(thn)
    case IfElse(_, thn, _, els, _) => Weight(thn) + Weight(els)
    case Repeat(_, body, _) => LIMIT * Weight(body)
  }

  lemma {:induction false} CountBounded<S>(m: Machine<S>, t: Script, p: (S, int))
    ensures Eval(Counting(m), t, p).0 == Eval(m, t, p.0)
    ensures Eval(Counting(m), t, p).1 <= p.1 + Weight(t)
    decreases t, LIMIT + 2
  {
    if t.Cons? {
      CountBoundedStmt(m, t.head, p);
      CountBounded(m, t.tail, EvalStmt(Counting(m), t.head, p));
    }
  }

  lemma {:induction false} CountBoundedStmt<S>(m: Machine<S>, t: Stmt, p: (S, int))
    ensures EvalStmt(Counting(m), t, p).0 == EvalStmt(m, t, p.0)
    ensures EvalStmt(Counting(m), t, p).1 <= p.1 + WeightStmt(t)
    decreases t, LIMIT + 1
  {
    match t
    case Simple(_) =>
    case IfThen(_, thn, _) => CountBounded(m, thn, p);
    case IfElse(_, thn, _, els, _) => CountBounded(m, thn, p); CountBounded(m, els, p);
    case Repeat(_, body, _) => CountBoundedLoop(m, t, 0, p);
  }

  lemma {:induction false} CountBoundedLoop<S>(m: Machine<S>, t: Stmt, iterations: nat, p: (S, int))
    requires t.Repeat? && iterations <= LIMIT
    ensures EvalLoop(Counting(m), t, iterations, p).0 == EvalLoop(m, t, iterations, p.0)
    ensures EvalLoop(Counting(m), t, iterations, p).1 <= p.1 + (LIMIT - iterations) * Weight(t.body)
    decreases t, LIMIT - iterations
  {
    if m.test(t.line, p.0) && iterations < LIMIT {
      CountBounded(m, t.body, p);
      CountBoundedLoop(m, t, iterations + 1, Eval(Counting(m), t.body, p));
      assert (LIMIT - iterations) * Weight(t.body) == (LIMIT - iterations - 1) * Weight(t.body) + Weight(t.body);
    }
  }

  // The flat run of such a script runs at most that many plain lines, and counting does not change
  // what it does.
  lemma RunsAtMost<S>(m: Machine<S>, t: Script, s: S)
    requires WellKinded(t) && AllElsesFound(t)
    ensures var (s', n) := Block(Counting(m), Flat(t), 0, |Flat(t)|, (s, 0));
      s' == Block(m, Flat(t), 0, |Flat(t)|, s) && n <= Weight(t)
  {
    Simulation(m, t, s);
    Simulation(Counting(m), t, (s, 0));
    CountBounded(m, t, (s, 0));
  }
}
