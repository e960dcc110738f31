// When the scan for an else goes wrong, the run can be seen to: the converse of the simulation, for
// scripts whose else-branches can be told apart.
module LshConverse {
  import opened LshControl
  import opened Slices

  // The machine whose tests are true for the lines in `yes`, and which logs the plain lines it runs.
  function Logger(yes: set<string>): Machine<seq<string>>
  {
    Machine((l: string, s: seq<string>) => l in yes,
            (l: string, s: seq<string>) => s + [l],
            (l: string, s: seq<string>) => s)
  }

  // ----- scripts whose else-branches can be told apart -----

  // The lines of the ifs and whiles.
  function Tests(t: Script): set<string> { if t.End? then {} else TestsStmt(t.head) + Tests(t.tail) }

  function TestsStmt(t: Stmt): set<string>
  {
    match t
    case Simple(_) => {}
    case IfThen(l, thn, _) => {l} + Tests(thn)
    case IfElse(l, thn, _, els, _) => {l} + Tests(thn) + Tests(els)
    case Repeat(l, body, _) => {l} + Tests(body)
  }

  // No if or while has its own line inside it again.
  predicate Fresh(t: Script) { t.Cons? ==> FreshStmt(t.head) && Fresh(t.tail) }

  predicate FreshStmt(t: Stmt)
  {
    match t
    case Simple(_) => true
    case IfThen(l, thn, _) => l !in Tests(thn) && Fresh(thn)
    case IfElse(l, thn, _, els, _) => l !in Tests(thn) && l !in Tests(els) && Fresh(thn) && Fresh(els)
    case Repeat(l, body, _) => l !in Tests(body) && Fresh(body)
  }

  // Line `p` stands nowhere but in the else-branch of an if with line `test`.
  predicate OnlyIn(t: Script, test: string, p: string) { t.Cons? ==> OnlyInStmt(t.head, test, p) && OnlyIn(t.tail, test, p) }

  predicate OnlyInStmt(t: Stmt, test: string, p: string)
  {
    match t
    case Simple(l) => l != p
    case IfThen(_, thn, _) => OnlyIn(thn, test, p)
    case IfElse(l, thn, _, els, _) => OnlyIn(thn, test, p) && (l == test || OnlyIn(els, test, p))
    case Repeat(_, body, _) => OnlyIn(body, test, p)
  }

  // Plain line `p` is one of the statements.
  predicate Has(t: Script, p: string) { t.Cons? && (t.head == Simple(p) || Has(t.tail, p)) }

  // Every else-branch of `t` has a plain line that stands nowhere else in `all`.
  ghost predicate Told(all: Script, t: Script) { t.Cons? ==> ToldStmt(all, t.head) && Told(all, t.tail) }

  ghost predicate ToldStmt(all: Script, t: Stmt)
  {
    match t
    case Simple(_) => true
    case IfThen(_, thn, _) => Told(all, thn)
    case IfElse(l, thn, _, els, _) =>
      Told(all, thn) && Told(all, els) && exists p :: KindOf(p) == Plain && Has(els, p) && OnlyIn(all, l, p)
    case Repeat(_, body, _) => Told(all, body)
  }

  // ----- what the tree does not run -----

  // With the test true, a line that stands only in the else-branch is never run.
  lemma {:induction false} EvalNever(yes: set<string>, t: Script, test: string, p: string, s: seq<string>)
    requires test in yes && OnlyIn(t, test, p) && p !in s
    ensures p !in Eval(Logger(yes), t, s)
    decreases t, LIMIT + 2
  {
    hide OnlyInStmt;
    if t.Cons? {
      EvalNeverStmt(yes, t.head, test, p, s);
      EvalNever(yes, t.tail, test, p, EvalStmt(Logger(yes), t.head, s));
    }
  }

  lemma {:induction false} EvalNeverStmt(yes: set<string>, t: Stmt, test: string, p: string, s: seq<string>)
    requires test in yes && OnlyInStmt(t, test, p) && p !in s
    ensures p !in EvalStmt(Logger(yes), t, s)
    decreases t, LIMIT + 1
  {
    hide OnlyIn, KindOf, Eval, EvalLoop;
    match t
    case Simple(_) =>
    case IfThen(_, thn, _) => EvalNever(yes, thn, test, p, s);
    case IfElse(l, thn, _, els, _) =>
      EvalNever(yes, thn, test, p, s);
      if l !in yes {
        EvalNever(yes, els, test, p, s);
      }
    case Repeat(_, body, _) => EvalNeverLoop(yes, t, 0, test, p, s);
  }

  lemma {:induction false} EvalNeverLoop(yes: set<string>, t: Stmt, iterations: nat, test: string, p: string, s: seq<string>)
    requires t.Repeat? && iterations <= LIMIT && test in yes && OnlyIn(t.body, test, p) && p !in s
    ensures p !in EvalLoop(Logger(yes), t, iterations, s)
    decreases t, LIMIT - iterations
  {
    hide OnlyIn, Eval;
    if t.line in yes && iterations < LIMIT {
      EvalNever(yes, t.body, test, p, s);
      EvalNeverLoop(yes, t, iterations + 1, test, p, Eval(Logger(yes), t.body, s));
    }
  }

  // ----- what the lines run -----

  lemma {:induction false} BlockGrows(yes: set<string>, lines: Lines, i: nat, end: nat, s: seq<string>)
    ensures s <= Block(Logger(yes), lines, i, end, s)
    decreases |lines| - i, LIMIT + 1
  {
    hide KindOf, FindClose, FindElse;
    if i < end && i < |lines| {
      match KindOf(lines[i])
      case If =>
        var fi := FindFi(lines, i + 1);
        if fi >= 0 {
          var els := FindElse(lines, i + 1, fi, 1);
          BlockGrows(yes, lines, i + 1, if els >= 0 then els else fi, s);
          if els >= 0 {
            BlockGrows(yes, lines, els + 1, fi, s);
          }
          var s' := if lines[i] in yes then Block(Logger(yes), lines, i + 1, if els >= 0 then els else fi, s)
                    else if els >= 0 then Block(Logger(yes), lines, els + 1, fi, s)
                    else s;
          BlockGrows(yes, lines, fi + 1, end, s');
        }
      case While =>
        var done := FindDone(lines, i + 1);
        if done >= 0 {
          LoopGrows(yes, lines, i, done, 0, s);
          BlockGrows(yes, lines, done + 1, end, Loop(Logger(yes), lines, i, done, 0, s));
        }
      case Plain => BlockGrows(yes, lines, i + 1, end, s + [lines[i]]);
      case _ => BlockGrows(yes, lines, i + 1, end, s);
    }
  }

  lemma {:induction false} LoopGrows(yes: set<string>, lines: Lines, i: nat, done: nat, iterations: nat, s: seq<string>)
    requires i < |lines| && iterations <= LIMIT
    ensures s <= Loop(Logger(yes), lines, i, done, iterations, s)
    decreases |lines| - i, LIMIT - iterations
  {
    hide Block;
    if lines[i] in yes && iterations < LIMIT {
      BlockGrows(yes, lines, i + 1, done, s);
      LoopGrows(yes, lines, i, done, iterations + 1, Block(Logger(yes), lines, i + 1, done, s));
    }
  }

  lemma GrownHas(s: seq<string>, s': seq<string>, p: string)
    requires s <= s' && p in s
    ensures p in s'
  {
    var k :| 0 <= k < |s| && s[k] == p;
    assert s'[k] == p;
  }

  // Whatever the scans inside find, the run goes on behind a statement.
  lemma StepOver(yes: set<string>, lines: Lines, i: nat, end: nat, t: Stmt, s: seq<string>) returns (s': seq<string>)
    requires WellKindedStmt(t) && At(lines, i, FlatStmt(t)) && i + |FlatStmt(t)| <= end
    ensures s <= s' && Block(Logger(yes), lines, i, end, s) == Block(Logger(yes), lines, i + |FlatStmt(t)|, end, s')
    ensures t.Simple? && KindOf(t.line) == Plain ==> s' == s + [t.line]
  {
    hide At, FlatStmt, Flat, KindOf, WellKinded, FindElse, FindClose, ElseFound, Loop;
    var m := Logger(yes);
    match t
    case Simple(l) =>
      AtSimple(lines, i, t);
      s' := if KindOf(l) == Plain then s + [l] else s;
    case IfThen(_, _, _) =>
      AtBranch(lines, i, t);
      s' := StepOverIf(yes, lines, i, end, t, s);
    case IfElse(_, _, _, _, _) =>
      AtBranches(lines, i, t);
      s' := StepOverIf(yes, lines, i, end, t, s);
    case Repeat(_, _, _) =>
      AtBranch(lines, i, t);
      FindDoneExact(lines, i, t);
      LoopGrows(yes, lines, i, i + |FlatStmt(t)| - 1, 0, s);
      s' := Loop(m, lines, i, i + |FlatStmt(t)| - 1, 0, s);
  }

  // What the branch that the code runs for an if makes of the log.
  function Branch(yes: set<string>, lines: Lines, i: nat, fi: nat, s: seq<string>): seq<string>
    requires i < |lines|
  {
    var els := FindElse(lines, i + 1, fi, 1);
    if lines[i] in yes then Block(Logger(yes), lines, i + 1, if els >= 0 then els else fi, s)
    else if els >= 0 then Block(Logger(yes), lines, els + 1, fi, s)
    else s
  }

  lemma StepOverIf(yes: set<string>, lines: Lines, i: nat, end: nat, t: Stmt, s: seq<string>) returns (s': seq<string>)
    requires (t.IfThen? || t.IfElse?) && WellKindedStmt(t) && At(lines, i, FlatStmt(t)) && i + |FlatStmt(t)| <= end
    requires i < |lines| && lines[i] == t.line
    ensures s' == Branch(yes, lines, i, i + |FlatStmt(t)| - 1, s) && s <= s'
    ensures Block(Logger(yes), lines, i, end, s) == Block(Logger(yes), lines, i + |FlatStmt(t)|, end, s')
  {
    hide At, FlatStmt, Flat, KindOf, WellKinded, FindElse, FindClose, ElseFound, Loop;
    FindElseExact(lines, i, t);
    var fi := i + |FlatStmt(t)| - 1;
    var els := FindElse(lines, i + 1, fi, 1);
    BlockGrows(yes, lines, i + 1, if els >= 0 then els else fi, s);
    if els >= 0 {
      BlockGrows(yes, lines, els + 1, fi, s);
    }
    s' := Branch(yes, lines, i, fi, s);
  }

  // The run of a stretch passes every statement, and so logs its plain lines.
  lemma {:induction false} RunsPast(yes: set<string>, lines: Lines, i: nat, end: nat, t: Script, p: string, s: seq<string>)
    returns (s': seq<string>)
    requires WellKinded(t) && At(lines, i, Flat(t)) && i + |Flat(t)| <= end
    ensures s <= s' && Block(Logger(yes), lines, i, end, s) == Block(Logger(yes), lines, i + |Flat(t)|, end, s')
    ensures Has(t, p) && KindOf(p) == Plain ==> p in s'
    decreases t
  {
    hide At, FlatStmt, KindOf, WellKindedStmt, Block;
    s' := s;
    if t.Cons? {
      AtCons(lines, i, t);
      s' := StepOver(yes, lines, i, end, t.head, s);
      if t.head == Simple(p) && KindOf(p) == Plain {
        assert s'[|s|] == p;
      }
      var s1 := s';
      s' := RunsPast(yes, lines, i + |FlatStmt(t.head)|, end, t.tail, p, s1);
      if p in s1 {
        GrownHas(s1, s', p);
      }
    }
  }

  lemma LogsDirect(yes: set<string>, lines: Lines, i: nat, end: nat, t: Script, p: string, s: seq<string>)
    requires WellKinded(t) && At(lines, i, Flat(t)) && i + |Flat(t)| <= end && Has(t, p) && KindOf(p) == Plain
    ensures p in Block(Logger(yes), lines, i, end, s)
  {
    hide Block, At, Flat, KindOf;
    var s' := RunsPast(yes, lines, i, end, t, p, s);
    BlockGrows(yes, lines, i + |Flat(t)|, end, s');
    GrownHas(s', Block(Logger(yes), lines, i, end, s), p);
  }

  // ----- where a scan stops that should not -----

  // The if whose else the scan from `depth` takes.
  function Stopper(t: Script, depth: int): (n: Stmt)
    requires !Clear(t, depth)
  {
    if !ClearStmt(t.head, depth) then StopperStmt(t.head, depth) else Stopper(t.tail, depth - ElsesStmt(t.head))
  }

  function StopperStmt(t: Stmt, depth: int): (n: Stmt)
    requires !ClearStmt(t, depth)
  {
    match t
    case IfThen(_, thn, _) => Stopper(thn, depth + 1)
    case IfElse(_, thn, _, els, _) =>
      if !Clear(thn, depth + 1) then Stopper(thn, depth + 1)
      else if depth - Elses(thn) == 0 then t
      else Stopper(els, depth - Elses(thn))
    case Repeat(_, body, _) => Stopper(body, depth)
  }

  // An if whose else-branch lies at line `e + 1` and ends before `end`.
  predicate ElseAt(lines: Lines, n: Stmt, e: int, end: nat)
  {
    n.IfElse? && WellKindedStmt(n) && e >= 0 && At(lines, e + 1, Flat(n.els)) && e + 1 + |Flat(n.els)| <= end
  }

  lemma {:induction false} ScanStops(lines: Lines, i: nat, end: nat, depth: int, t: Script)
    requires WellKinded(t) && At(lines, i, Flat(t)) && i + |Flat(t)| <= end && !Clear(t, depth)
    ensures ElseAt(lines, Stopper(t, depth), FindElse(lines, i, end, depth), i + |Flat(t)|)
    decreases t, 1
  {
    hide At, FlatStmt, FindElse, WellKindedStmt, ClearStmt, ElsesStmt, StopperStmt, KindOf;
    AtCons(lines, i, t);
    if ClearStmt(t.head, depth) {
      ElseScanStmt(lines, i, end, depth, t.head);
      ScanStops(lines, i + |FlatStmt(t.head)|, end, depth - ElsesStmt(t.head), t.tail);
    } else {
      ScanStopsStmt(lines, i, end, depth, t.head);
    }
  }

  lemma {:induction false} ScanStopsStmt(lines: Lines, i: nat, end: nat, depth: int, t: Stmt)
    requires WellKindedStmt(t) && At(lines, i, FlatStmt(t)) && i + |FlatStmt(t)| <= end && !ClearStmt(t, depth)
    ensures ElseAt(lines, StopperStmt(t, depth), FindElse(lines, i, end, depth), i + |FlatStmt(t)|)
    decreases t, 1
  {
    hide At, FlatStmt, Flat, KindOf, WellKinded, Clear, Elses, Stopper;
    match t
    case IfThen(_, thn, _) =>
      AtBranch(lines, i, t);
      ScanStops(lines, i + 1, end, depth + 1, thn);
    case IfElse(_, _, _, _, _) =>
      ScanStopsElse(lines, i, end, depth, t);
    case Repeat(_, body, _) =>
      AtBranch(lines, i, t);
      ScanStops(lines, i + 1, end, depth, body);
  }

  lemma {:induction false} ScanStopsElse(lines: Lines, i: nat, end: nat, depth: int, t: Stmt)
    requires t.IfElse? && WellKindedStmt(t) && At(lines, i, FlatStmt(t)) && i + |FlatStmt(t)| <= end && !ClearStmt(t, depth)
    ensures ElseAt(lines, StopperStmt(t, depth), FindElse(lines, i, end, depth), i + |FlatStmt(t)|)
    decreases t, 0
  {
    hide At, FlatStmt, Flat, KindOf, WellKinded, Clear, Elses, Stopper;
    AtBranches(lines, i, t);
    if !Clear(t.thn, depth + 1) {
      ScanStops(lines, i + 1, end, depth + 1, t.thn);
    } else {
      ElseScan(lines, i + 1, end, depth + 1, t.thn);
      if depth - Elses(t.thn) != 0 {
        ScanStops(lines, i + 2 + |Flat(t.thn)|, end, depth - Elses(t.thn), t.els);
      }
    }
  }

  // The if in whose else-branch the run shows that the scan for the else of `t` went wrong: the one whose
  // else it takes or, if it takes none, `t` itself.
  function Culprit(t: Stmt): Stmt
    requires !ElseFound(t)
  {
    if !Clear(t.thn, 1) then Stopper(t.thn, 1)
    else if t.IfElse? && !Clear(t.els, 0 - Elses(t.thn)) then Stopper(t.els, 0 - Elses(t.thn))
    else t
  }

  lemma CulpritFound(lines: Lines, i: nat, t: Stmt)
    requires WellKindedStmt(t) && At(lines, i, FlatStmt(t)) && !ElseFound(t)
    ensures var fi := i + |FlatStmt(t)| - 1;
      var e := FindElse(lines, i + 1, fi, 1);
      if Culprit(t) == t then t.IfElse? && e == -1 else ElseAt(lines, Culprit(t), e, fi)
  {
    hide At, FlatStmt, Flat, KindOf, WellKinded, Clear, Elses, Stopper;
    var fi := i + |FlatStmt(t)| - 1;
    if t.IfThen? {
      AtBranch(lines, i, t);
      ScanStops(lines, i + 1, fi, 1, t.thn);
      StopperInside(t.thn, 1, t);
    } else {
      AtBranches(lines, i, t);
      if !Clear(t.thn, 1) {
        ScanStops(lines, i + 1, fi, 1, t.thn);
        StopperInside(t.thn, 1, t);
      } else {
        ElseScan(lines, i + 1, fi, 1, t.thn);
        if !Clear(t.els, 0 - Elses(t.thn)) {
          ScanStops(lines, i + 2 + |Flat(t.thn)|, fi, 0 - Elses(t.thn), t.els);
          StopperInside(t.els, 0 - Elses(t.thn), t);
        } else {
          ElseScan(lines, i + 2 + |Flat(t.thn)|, fi, 0 - Elses(t.thn), t.els);
        }
      }
    }
  }

  lemma {:induction false} StopperFacts(all: Script, t: Script, depth: int)
    requires !Clear(t, depth)
    ensures var n := Stopper(t, depth);
      n.IfElse? && n.line in Tests(t) && (Told(all, t) ==> ToldStmt(all, n)) && n < t
    decreases t, 1
  {
    hide ClearStmt, ElsesStmt, StopperStmt, ToldStmt, TestsStmt;
    if ClearStmt(t.head, depth) {
      StopperFacts(all, t.tail, depth - ElsesStmt(t.head));
    } else {
      StopperFactsStmt(all, t.head, depth);
    }
  }

  lemma {:induction false} StopperFactsStmt(all: Script, t: Stmt, depth: int)
    requires !ClearStmt(t, depth)
    ensures var n := StopperStmt(t, depth);
      n.IfElse? && n.line in TestsStmt(t) && (ToldStmt(all, t) ==> ToldStmt(all, n)) && (n == t || n < t)
    decreases t, 1
  {
    hide Clear, Elses, Stopper, Told, Tests;
    match t
    case IfThen(_, thn, _) => StopperFacts(all, thn, depth + 1);
    case IfElse(_, thn, _, els, _) =>
      if !Clear(thn, depth + 1) {
        StopperFacts(all, thn, depth + 1);
      } else if depth - Elses(thn) != 0 {
        StopperFacts(all, els, depth - Elses(thn));
      }
    case Repeat(_, body, _) => StopperFacts(all, body, depth);
  }

  lemma StopperInside(t: Script, depth: int, of: Stmt)
    requires !Clear(t, depth) && t < of
    ensures Stopper(t, depth) != of
  {
    hide Stopper, Clear;
    StopperFacts(End, t, depth);
  }

  lemma CulpritFacts(all: Script, t: Stmt)
    requires !ElseFound(t) && (Culprit(t) == t ==> t.IfElse?)
    ensures var n := Culprit(t);
      && n.IfElse? && (ToldStmt(all, t) ==> ToldStmt(all, n))
      && (n != t ==> n.line in Tests(t.thn) || (t.IfElse? && n.line in Tests(t.els)))
  {
    hide Clear, Elses, Stopper, Told, Tests;
    if !Clear(t.thn, 1) {
      StopperFacts(all, t.thn, 1);
    } else if t.IfElse? && !Clear(t.els, 0 - Elses(t.thn)) {
      StopperFacts(all, t.els, 0 - Elses(t.thn));
    }
  }

  // ----- a run that shows the first wrong scan -----

  // The tests that must be true for the run to come to the first if whose else is missed, and for the
  // tree not to run what the lines then do.
  function Yes(t: Script): (yes: set<string>)
    requires !AllElsesFound(t)
  {
    if !AllElsesFoundStmt(t.head) then YesStmt(t.head) else Yes(t.tail)
  }

  function YesStmt(t: Stmt): (yes: set<string>)
    requires !AllElsesFoundStmt(t)
  {
    if !ElseFound(t) then {Culprit(t).line}
    else
      match t
      case IfThen(l, thn, _) => {l} + Yes(thn)
      case IfElse(l, thn, _, els, _) => if !AllElsesFound(thn) then {l} + Yes(thn) else Yes(els)
      case Repeat(l, body, _) => {l} + Yes(body)
  }

  lemma {:induction false} YesAreTests(t: Script)
    requires WellKinded(t) && !AllElsesFound(t)
    ensures Yes(t) <= Tests(t)
    decreases t, 1
  {
    hide AllElsesFoundStmt, YesStmt, TestsStmt, WellKindedStmt;
    if !AllElsesFoundStmt(t.head) {
      YesAreTestsStmt(t.head);
    } else {
      YesAreTests(t.tail);
    }
  }

  lemma {:induction false} YesAreTestsStmt(t: Stmt)
    requires WellKindedStmt(t) && !AllElsesFoundStmt(t)
    ensures YesStmt(t) <= TestsStmt(t)
    decreases t, 0
  {
    hide AllElsesFound, Yes, Tests, WellKinded, KindOf, Culprit, Clear, Elses;
    if !ElseFound(t) {
      SelfIsIfElse(t);
      CulpritFacts(End, t);
    } else {
      match t
      case IfThen(_, thn, _) => YesAreTests(thn);
      case IfElse(_, thn, _, els, _) =>
        if !AllElsesFound(thn) {
          YesAreTests(thn);
        } else {
          YesAreTests(els);
        }
      case Repeat(_, body, _) => YesAreTests(body);
    }
  }

  lemma SelfIsIfElse(t: Stmt)
    requires !ElseFound(t)
    ensures Culprit(t) == t ==> t.IfElse?
  {
    hide Stopper, Clear;
    if t.IfThen? {
      StopperInside(t.thn, 1, t);
    }
  }

  // The culprit's line and a plain line of its else-branch.
  ghost predicate Shows(all: Script, yes: set<string>, test: string, p: string, log: seq<string>)
  {
    test in yes && OnlyIn(all, test, p) && p in log
  }

  // The lines run a plain line that the tree does not.
  lemma {:induction false} BlockShows(all: Script, yes: set<string>, lines: Lines, i: nat, end: nat, t: Script, s: seq<string>)
    returns (test: string, p: string)
    requires WellKinded(t) && !AllElsesFound(t) && At(lines, i, Flat(t)) && i + |Flat(t)| <= end
    requires Fresh(t) && Told(all, t) && yes * Tests(t) == Yes(t)
    ensures Shows(all, yes, test, p, Block(Logger(yes), lines, i, end, s))
    decreases t, 2
  {
    hide At, FlatStmt, WellKindedStmt, AllElsesFoundStmt, FreshStmt, ToldStmt, TestsStmt, YesStmt, Block, Shows;
    AtCons(lines, i, t);
    if !AllElsesFoundStmt(t.head) {
      YesAreTestsStmt(t.head);
      assert yes * TestsStmt(t.head) == YesStmt(t.head);
      test, p := StmtShows(all, yes, lines, i, end, t.head, s);
    } else {
      YesAreTests(t.tail);
      assert yes * Tests(t.tail) == Yes(t.tail);
      BlockRunsStmt(Logger(yes), lines, i, end, t.head, s);
      test, p := BlockShows(all, yes, lines, i + |FlatStmt(t.head)|, end, t.tail, EvalStmt(Logger(yes), t.head, s));
    }
  }

  lemma ShowsLater(all: Script, yes: set<string>, test: string, p: string, s: seq<string>, s': seq<string>)
    requires Shows(all, yes, test, p, s) && s <= s'
    ensures Shows(all, yes, test, p, s')
  {
    hide OnlyIn;
    GrownHas(s, s', p);
  }

  // The run goes on behind statement `t` with log `s'`.
  predicate GoesOn(yes: set<string>, lines: Lines, i: nat, end: nat, t: Stmt, s: seq<string>, s': seq<string>)
  {
    Block(Logger(yes), lines, i, end, s) == Block(Logger(yes), lines, i + |FlatStmt(t)|, end, s')
  }

  lemma {:induction false} StmtShows(all: Script, yes: set<string>, lines: Lines, i: nat, end: nat, t: Stmt, s: seq<string>)
    returns (test: string, p: string)
    requires WellKindedStmt(t) && !AllElsesFoundStmt(t) && At(lines, i, FlatStmt(t)) && i + |FlatStmt(t)| <= end
    requires FreshStmt(t) && ToldStmt(all, t) && yes * TestsStmt(t) == YesStmt(t)
    ensures Shows(all, yes, test, p, Block(Logger(yes), lines, i, end, s))
    decreases t, 1
  {
    hide At, FlatStmt, Flat, KindOf, WellKinded, AllElsesFound, Fresh, Told, Tests, Yes, Block, Loop, Shows, ElseFound, Culprit,
         FindElse, FindClose;
    var s';
    if t.Repeat? {
      test, p, s' := LoopShows(all, yes, lines, i, end, t, s);
    } else if !ElseFound(t) {
      test, p, s' := WrongShows(all, yes, lines, i, end, t, s);
    } else {
      test, p, s' := RightShows(all, yes, lines, i, end, t, s);
    }
    BlockGrows(yes, lines, i + |FlatStmt(t)|, end, s');
    ShowsLater(all, yes, test, p, s', Block(Logger(yes), lines, i, end, s));
  }

  lemma {:induction false} LoopShows(all: Script, yes: set<string>, lines: Lines, i: nat, end: nat, t: Stmt, s: seq<string>)
    returns (test: string, p: string, s': seq<string>)
    requires t.Repeat? && WellKindedStmt(t) && !AllElsesFoundStmt(t) && At(lines, i, FlatStmt(t)) && i + |FlatStmt(t)| <= end
    requires FreshStmt(t) && ToldStmt(all, t) && yes * TestsStmt(t) == YesStmt(t)
    ensures Shows(all, yes, test, p, s') && GoesOn(yes, lines, i, end, t, s, s')
    decreases t, 0
  {
    hide At, FlatStmt, Flat, WellKinded, AllElsesFound, Fresh, Told, Tests, Yes, Shows, FindElse, FindClose;
    AtBranch(lines, i, t);
    FindDoneExact(lines, i, t);
    YesAreTests(t.body);
    assert yes * Tests(t.body) == Yes(t.body);
    assert t.line in yes * TestsStmt(t);
    var done := i + |FlatStmt(t)| - 1;
    test, p := BlockShows(all, yes, lines, i + 1, done, t.body, s);
    var s1 := Block(Logger(yes), lines, i + 1, done, s);
    LoopGrows(yes, lines, i, done, 1, s1);
    s' := Loop(Logger(yes), lines, i, done, 0, s);
    ShowsLater(all, yes, test, p, s1, s');
  }

  // An if whose own else is found: the wrong scan is in the branch that runs.
  lemma {:induction false} RightShows(all: Script, yes: set<string>, lines: Lines, i: nat, end: nat, t: Stmt, s: seq<string>)
    returns (test: string, p: string, s': seq<string>)
    requires (t.IfThen? || t.IfElse?) && ElseFound(t) && WellKindedStmt(t) && !AllElsesFoundStmt(t)
    requires At(lines, i, FlatStmt(t)) && i + |FlatStmt(t)| <= end
    requires FreshStmt(t) && ToldStmt(all, t) && yes * TestsStmt(t) == YesStmt(t)
    ensures Shows(all, yes, test, p, s') && GoesOn(yes, lines, i, end, t, s, s')
    decreases t, 0
  {
    hide At, FlatStmt, Flat, KindOf, WellKinded, AllElsesFound, Fresh, Told, Tests, Yes, Shows, Block, ElseFound, Culprit,
         FindElse, FindClose;
    if t.IfThen? {
      AtBranch(lines, i, t);
    } else {
      AtBranches(lines, i, t);
    }
    FindElseExact(lines, i, t);
    s' := StepOverIf(yes, lines, i, end, t, s);
    if t.IfThen? || !AllElsesFound(t.thn) {
      YesAreTests(t.thn);
      assert yes * Tests(t.thn) == Yes(t.thn);
      assert t.line in yes * TestsStmt(t);
      test, p := BlockShows(all, yes, lines, i + 1, i + 1 + |Flat(t.thn)|, t.thn, s);
    } else {
      YesAreTests(t.els);
      assert yes * Tests(t.els) == Yes(t.els);
      assert t.line in TestsStmt(t) && t.line !in YesStmt(t);
      test, p := BlockShows(all, yes, lines, i + 2 + |Flat(t.thn)|, i + |FlatStmt(t)| - 1, t.els, s);
    }
  }

  // An if whose own else is not found: the run goes through the culprit's else-branch.
  lemma WrongShows(all: Script, yes: set<string>, lines: Lines, i: nat, end: nat, t: Stmt, s: seq<string>)
    returns (test: string, p: string, s': seq<string>)
    requires (t.IfThen? || t.IfElse?) && !ElseFound(t) && WellKindedStmt(t)
    requires At(lines, i, FlatStmt(t)) && i + |FlatStmt(t)| <= end
    requires FreshStmt(t) && ToldStmt(all, t) && yes * TestsStmt(t) == {Culprit(t).line}
    ensures Shows(all, yes, test, p, s') && GoesOn(yes, lines, i, end, t, s, s')
  {
    hide At, FlatStmt, Flat, KindOf, WellKinded, Fresh, Told, Tests, Block, ElseFound, Culprit, FindElse, FindClose, OnlyIn, Has;
    var n, fi := Culprit(t), i + |FlatStmt(t)| - 1;
    CulpritFound(lines, i, t);
    CulpritFacts(all, t);
    p :| KindOf(p) == Plain && Has(n.els, p) && OnlyIn(all, n.line, p);
    test := n.line;
    assert test in yes * TestsStmt(t);
    if t.IfThen? {
      AtBranch(lines, i, t);
    } else {
      AtBranches(lines, i, t);
    }
    s' := StepOverIf(yes, lines, i, end, t, s);
    if n == t {
      LogsBoth(yes, lines, i, t, p, s);
    } else {
      assert t.line in TestsStmt(t) && t.line !in yes * TestsStmt(t);
      LogsDirect(yes, lines, FindElse(lines, i + 1, fi, 1) + 1, fi, n.els, p, s);
    }
  }

  // If no else is found, the true branch runs both branches.
  lemma LogsBoth(yes: set<string>, lines: Lines, i: nat, t: Stmt, p: string, s: seq<string>)
    requires t.IfElse? && WellKindedStmt(t) && At(lines, i, FlatStmt(t)) && Has(t.els, p) && KindOf(p) == Plain
    ensures p in Block(Logger(yes), lines, i + 1, i + |FlatStmt(t)| - 1, s)
  {
    hide At, FlatStmt, Flat, WellKinded, FindElse, FindClose, Has;
    AtBranches(lines, i, t);
    var fi := i + |FlatStmt(t)| - 1;
    var s' := RunsPast(yes, lines, i + 1, fi, t.thn, p, s);
    LogsDirect(yes, lines, i + 2 + |Flat(t.thn)|, fi, t.els, p, s');
  }

  // For such scripts the condition is exact: whatever the tests say, the lines run as the tree does,
  // exactly if the scan finds every else.
  lemma SimulationIff(t: Script)
    requires WellKinded(t) && Fresh(t) && Told(t, t)
    ensures (forall yes: set<string>, s :: Block(Logger(yes), Flat(t), 0, |Flat(t)|, s) == Eval(Logger(yes), t, s))
            <==> AllElsesFound(t)
  {
    hide WellKinded, Fresh, Told, AllElsesFound, Flat, Block, Eval, OnlyIn;
    if AllElsesFound(t) {
      forall yes: set<string>, s
        ensures Block(Logger(yes), Flat(t), 0, |Flat(t)|, s) == Eval(Logger(yes), t, s)
      {
        Simulation(Logger(yes), t, s);
      }
    } else {
      var yes := Yes(t);
      YesAreTests(t);
      assert yes * Tests(t) == Yes(t);
      assert Flat(t)[0..0 + |Flat(t)|] == Flat(t);
      var test, p := BlockShows(t, yes, Flat(t), 0, |Flat(t)|, t, []);
      EvalNever(yes, t, test, p, []);
      assert Block(Logger(yes), Flat(t), 0, |Flat(t)|, []) != Eval(Logger(yes), t, []);
    }
  }

  // The script on which both branches run is one of these.
  lemma NestedTold()
    ensures WellKinded(NESTED) && Fresh(NESTED) && Told(NESTED, NESTED) && !AllElsesFound(NESTED)
  {
    hide KindOf;
    NestedKinds();
    var inner := IfElse("if b", Cons(Simple("x"), End), "else", Cons(Simple("y"), End), "fi");
    assert Has(Cons(Simple("y"), End), "y") && OnlyIn(NESTED, "if b", "y");
    assert ToldStmt(NESTED, inner);
    assert Has(Cons(Simple("z"), End), "z") && OnlyIn(NESTED, "if a", "z");
  }
}
