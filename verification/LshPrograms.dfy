// Whole scripts of the language, from their text to what they do: which line is what, when the branches of
// an if run, how often the body of a while runs, and what is said.
module LshPrograms {
  import opened CString
  import opened LshControl
  import opened LshVars
  import opened LshLines

  // What running lines on their own does.
  function Runs(lines: Lines, s: Shell): Shell { Block(Lsh(), lines, 0, |lines|, s) }

  // ----- which line is what -----

  // The keywords, after blanks: `if` and `while` with what they test, the others alone or with the line's end.
  lemma KindsRead(w: string, rest: string)
    requires White(w)
    ensures KindOf(w + ("if " + rest)) == If && KindOf(w + ("while " + rest)) == While
    ensures KindOf(w + "else") == Else && KindOf(w + "fi") == Fi && KindOf(w + "done") == Done
    ensures KindOf(w + ("else\n" + rest)) == Else && KindOf(w + ("fi\n" + rest)) == Fi && KindOf(w + ("done\n" + rest)) == Done
    ensures KindOf(w) == Blank && KindOf(w + ("\n" + rest)) == Blank && KindOf(w + ("#" + rest)) == Blank
  {
    hide SkipSpaces;
    SkipsWhite(w, "if " + rest);
    SkipsWhite(w, "while " + rest);
    SkipsWhite(w, "else");
    SkipsWhite(w, "fi");
    SkipsWhite(w, "done");
    SkipsWhite(w, "else\n" + rest);
    SkipsWhite(w, "fi\n" + rest);
    SkipsWhite(w, "done\n" + rest);
    SkipsWhite(w, "");
    assert w + "" == w;
    SkipsWhite(w, "\n" + rest);
    SkipsWhite(w, "#" + rest);
  }

  // A longer word that begins like a keyword is a plain line.
  lemma PlainReads(w: string, word: string, c: char, rest: string)
    requires White(w) && c != '\n' && (word in {"else", "fi", "done"} || (word in {"if", "while"} && c != ' '))
    ensures KindOf(w + (word + [c] + rest)) == Plain
  {
    hide SkipSpaces;
    var l := word + [c] + rest;
    SkipsWhite(w, l);
    assert l[|word|] == c;
  }

  // ----- tests -----

  // What a condition says of the variables: numbers compared as 32-bit words, or texts after substitution.
  ghost predicate Means(st: Store, c: Comparison, truth: bool)
  {
    if IsWord(c.relation) then
      exists p, q :: Readable(p) && Readable(q) && c.left == Text(p) && c.right == Text(q)
        && truth == (c.relation == Same <==> Truncated(Meaning(st, p), 256) == Truncated(Meaning(st, q), 256))
    else
      exists l: nat, n: nat :: StandsFor(st, c.left, l) && StandsFor(st, c.right, n)
        && truth == Holds(c.relation, Wrap32(l), Wrap32(n))
  }

  lemma ComparesMeaning(st: Store, c: Comparison, truth: bool)
    requires Means(st, c, truth)
    ensures Compare(st, c.left, Sign(c.relation), c.right) == truth
  {
    hide Compare, Readable, Text, Meaning, Truncated, Wrap32, StandsFor;
    if IsWord(c.relation) {
      var p, q :| Readable(p) && Readable(q) && c.left == Text(p) && c.right == Text(q)
        && truth == (c.relation == Same <==> Truncated(Meaning(st, p), 256) == Truncated(Meaning(st, q), 256));
      ComparesTexts(st, p, q);
    } else {
      var l: nat, n: nat :| StandsFor(st, c.left, l) && StandsFor(st, c.right, n)
        && truth == Holds(c.relation, Wrap32(l), Wrap32(n));
      ComparesNumbers(st, c.left, c.relation, c.right, l, n);
    }
  }

  // The line of an if or while: blanks, the keyword, more blanks, a condition.
  function IfLine(w: string, lead: string, c: Comparison): string { w + ("if " + (lead + Written(c))) }

  function WhileLine(w: string, lead: string, c: Comparison): string { w + ("while " + (lead + Written(c))) }

  ghost predicate Tests(w: string, lead: string, c: Comparison) { White(w) && White(lead) && Legible(c) }

  lemma LeadSkipped(st: Store, lead: string, c: Comparison)
    requires White(lead) && Legible(c)
    ensures Condition(st, lead + Written(c)) == Compare(st, c.left, Sign(c.relation), c.right)
  {
    hide Compare, Unmistaken, OperatorFrom, SplitAt, Sign, SkipSpaces;
    var s := Written(c);
    assert s[0] == c.left[0];
    SkipsWhite(lead, s);
    SkipsWhite("", s);
    assert "" + s == s;
    ConditionReads(st, c);
  }

  // The test of such a line holds exactly if its condition does.
  lemma TestReads(w: string, lead: string, c: Comparison, s: Shell, truth: bool)
    requires Tests(w, lead, c) && Means(s.store, c, truth)
    ensures Lsh().test(IfLine(w, lead, c), s) == truth && Lsh().test(WhileLine(w, lead, c), s) == truth
  {
    hide Condition, Compare, Means, Legible, Written, SkipSpaces;
    var text := lead + Written(c);
    SkipsWhite(w, "if " + text);
    SkipsWhite(w, "while " + text);
    assert ("if " + text)[3..] == text && ("while " + text)[6..] == text;
    LeadSkipped(s.store, lead, c);
    ComparesMeaning(s.store, c, truth);
  }

  // ----- branches and loops -----

  // Lines that run as their tree does.
  predicate Orderly(t: Script) { WellKinded(t) && AllElsesFound(t) }

  lemma RunsTree(t: Script, s: Shell)
    requires Orderly(t)
    ensures Runs(Flat(t), s) == Eval(Lsh(), t, s)
  {
    hide WellKinded, AllElsesFound, Flat, Block, Eval;
    Simulation(Lsh(), t, s);
  }

  lemma OneStatement(t: Stmt, s: Shell)
    requires WellKindedStmt(t) && AllElsesFoundStmt(t)
    ensures Runs(FlatStmt(t), s) == EvalStmt(Lsh(), t, s)
  {
    hide WellKindedStmt, AllElsesFoundStmt, FlatStmt, EvalStmt, Runs;
    var script := Cons(t, End);
    assert WellKinded(End) && AllElsesFound(End);
    assert Flat(script) == FlatStmt(t) + [] == FlatStmt(t);
    RunsTree(script, s);
  }

  // An if runs its first branch exactly if its condition holds, and otherwise its second.
  lemma IfElseRuns(w: string, lead: string, c: Comparison, thn: Script, w1: string, els: Script, w2: string, s: Shell, truth: bool)
    requires Tests(w, lead, c) && White(w1) && White(w2) && Means(s.store, c, truth)
    requires Orderly(thn) && Orderly(els) && Elses(thn) == 0
    ensures Runs([IfLine(w, lead, c)] + Flat(thn) + [w1 + "else"] + Flat(els) + [w2 + "fi"], s)
            == Runs(if truth then Flat(thn) else Flat(els), s)
  {
    hide Means, Legible, Written, WellKinded, AllElsesFound, Flat, Block, Eval, KindOf, Runs, Lsh;
    var t := IfElse(IfLine(w, lead, c), thn, w1 + "else", els, w2 + "fi");
    KindsRead(w, lead + Written(c));
    KindsRead(w1, "");
    KindsRead(w2, "");
    TestReads(w, lead, c, s, truth);
    OneStatement(t, s);
    RunsTree(thn, s);
    RunsTree(els, s);
  }

  lemma IfRuns(w: string, lead: string, c: Comparison, thn: Script, w1: string, s: Shell, truth: bool)
    requires Tests(w, lead, c) && White(w1) && Means(s.store, c, truth) && Orderly(thn) && Clear(thn, 1)
    ensures Runs([IfLine(w, lead, c)] + Flat(thn) + [w1 + "fi"], s) == if truth then Runs(Flat(thn), s) else s
  {
    hide Means, Legible, Written, WellKinded, AllElsesFound, Flat, Block, Eval, KindOf, Runs, Lsh;
    var t := IfThen(IfLine(w, lead, c), thn, w1 + "fi");
    KindsRead(w, lead + Written(c));
    KindsRead(w1, "");
    TestReads(w, lead, c, s, truth);
    OneStatement(t, s);
    RunsTree(thn, s);
  }

  // The state after `n` turns of a body.
  function After(body: Lines, s: Shell, n: nat): Shell { if n == 0 then s else Runs(body, After(body, s, n - 1)) }

  ghost predicate MeansAfter(body: Lines, s: Shell, n: nat, c: Comparison, truth: bool) { Means(After(body, s, n).store, c, truth) }

  // A while runs its body as long as its condition holds, at most a thousand times; after a thousand turns it
  // says so, whatever the condition then is.
  lemma WhileRuns(w: string, lead: string, c: Comparison, body: Script, w1: string, s: Shell, n: nat)
    requires Tests(w, lead, c) && White(w1) && Orderly(body) && n <= 1000
    requires forall k: nat :: k < n ==> MeansAfter(Flat(body), s, k, c, true)
    requires n < 1000 ==> MeansAfter(Flat(body), s, n, c, false)
    ensures var after := After(Flat(body), s, n);
      Runs([WhileLine(w, lead, c)] + Flat(body) + [w1 + "done"], s)
      == if n < 1000 then after else after.(events := after.events + [Say("lsh: while loop limit reached\n")])
  {
    hide MeansAfter, Legible, Written, WellKinded, AllElsesFound, Flat, KindOf, Runs, Lsh, EvalLoop, After;
    var t := Repeat(WhileLine(w, lead, c), body, w1 + "done");
    KindsRead(w, lead + Written(c));
    KindsRead(w1, "");
    OneStatement(t, s);
    StartsSo(Flat(body), s);
    LoopTurns(w, lead, c, t, s, n, 0);
  }

  lemma StartsSo(body: Lines, s: Shell)
    ensures After(body, s, 0) == s
  {
  }

  lemma {:induction false} LoopTurns(w: string, lead: string, c: Comparison, t: Stmt, s: Shell, n: nat, k: nat)
    requires Tests(w, lead, c) && t.Repeat? && t.line == WhileLine(w, lead, c) && Orderly(t.body) && k <= n <= 1000
    requires forall k: nat :: k < n ==> MeansAfter(Flat(t.body), s, k, c, true)
    requires n < 1000 ==> MeansAfter(Flat(t.body), s, n, c, false)
    ensures var after := After(Flat(t.body), s, n);
      EvalLoop(Lsh(), t, k, After(Flat(t.body), s, k))
      == if n < 1000 then after else after.(events := after.events + [Say("lsh: while loop limit reached\n")])
    decreases n - k
  {
    hide Legible, Written, WellKinded, AllElsesFound, Flat, Runs, Eval, Means, Test, Execute;
    var now := After(Flat(t.body), s, k);
    if k < n {
      assert MeansAfter(Flat(t.body), s, k, c, true);
      TestReads(w, lead, c, now, true);
      RunsTree(t.body, now);
      LoopTurns(w, lead, c, t, s, n, k + 1);
    } else if n < 1000 {
      TestReads(w, lead, c, now, false);
    }
  }

  // ----- lines in a row -----

  // A plain line, then the rest; a blank line or comment does nothing.
  lemma LineRuns(l: string, t: Script, s: Shell)
    requires Orderly(t) && KindOf(l) in {Plain, Blank}
    ensures Runs([l] + Flat(t), s) == Runs(Flat(t), if KindOf(l) == Plain then Execute(SkipSpaces(l), s) else s)
  {
    hide Flat, WellKinded, AllElsesFound, KindOf, Runs, Execute, Test;
    var all := Cons(Simple(l), t);
    KindsOfOne(l, t);
    RunsTree(all, s);
    var s' := EvalStmt(Lsh(), Simple(l), s);
    RunsTree(t, s');
  }

  lemma KindsOfOne(l: string, t: Script)
    requires Orderly(t) && KindOf(l) in {Plain, Blank}
    ensures Orderly(Cons(Simple(l), t)) && Flat(Cons(Simple(l), t)) == [l] + Flat(t)
  {
    hide KindOf;
    var first := Simple(l);
    assert WellKindedStmt(first) && AllElsesFoundStmt(first) && FlatStmt(first) == [l];
  }

  // A block that is not closed says so and ends the run.
  lemma NotClosed(lines: Lines, i: nat, end: nat, s: Shell)
    requires i < end && i < |lines|
    ensures KindOf(lines[i]) == If && (forall k :: i < k < |lines| ==> KindOf(lines[k]) != Fi) ==>
      Block(Lsh(), lines, i, end, s) == s.(events := s.events + [Say("lsh: missing fi\n")])
    ensures KindOf(lines[i]) == While && (forall k :: i < k < |lines| ==> KindOf(lines[k]) != Done) ==>
      Block(Lsh(), lines, i, end, s) == s.(events := s.events + [Say("lsh: missing done\n")])
  {
    hide KindOf, FindClose, FindElse, Loop, Test, Execute;
    if forall k :: i < k < |lines| ==> KindOf(lines[k]) != Fi {
      NoClose(lines, i + 1, If, Fi, 1);
    }
    if forall k :: i < k < |lines| ==> KindOf(lines[k]) != Done {
      NoClose(lines, i + 1, While, Done, 1);
    }
  }

  lemma {:induction false} NoClose(lines: Lines, i: nat, opening: Kind, closing: Kind, depth: nat)
    requires depth > 0 && forall k :: i <= k < |lines| ==> KindOf(lines[k]) != closing
    ensures FindClose(lines, i, opening, closing, depth) == -1
    decreases |lines| - i
  {
    hide KindOf;
    if i < |lines| {
      NoClose(lines, i + 1, opening, closing, if KindOf(lines[i]) == opening then depth + 1 else depth);
    }
  }

  // An else, fi or done that belongs to nothing is passed over.
  lemma StrayPassed(lines: Lines, i: nat, end: nat, s: Shell)
    requires i < end && i < |lines| && KindOf(lines[i]) in {Else, Fi, Done, Blank}
    ensures Block(Lsh(), lines, i, end, s) == Block(Lsh(), lines, i + 1, end, s)
  {
    hide KindOf, FindClose, FindElse, Loop, Test, Execute;
  }

  // ----- an example that is all text -----

  // `if ..`, `print this`, `else`, `print that`, `fi` says one or the other.
  lemma IfPrints(lead: string, c: Comparison, p: seq<Piece>, q: seq<Piece>, s: Shell, truth: bool)
    requires White(lead) && Legible(c) && Means(s.store, c, truth) && Readable(p) && Readable(q)
    requires Plainly(Meaning(s.store, p)) && Plainly(Meaning(s.store, q))
    ensures Runs(["if " + (lead + Written(c)), "  print " + Text(p), "else", "  print " + Text(q), "fi"], s)
            == s.(events := s.events + [Say(Meaning(s.store, if truth then p else q)), Say("\n")])
  {
    hide Means, Legible, Written, Text, Meaning, Readable, KindOf, Runs, Execute, WellKinded, AllElsesFound, Flat, Elses;
    var l, m := "  print " + Text(p), "  print " + Text(q);
    var thn, els := Cons(Simple(l), End), Cons(Simple(m), End);
    PrintsOnly(l, p, s);
    PrintsOnly(m, q, s);
    EmptyWhite(IfLine("", lead, c), lead, c);
    IfElseRuns("", lead, c, thn, "", els, "", s, truth);
    assert "" + "else" == "else" && "" + "fi" == "fi";
    assert [IfLine("", lead, c)] + Flat(thn) + ["" + "else"] + Flat(els) + ["" + "fi"]
        == ["if " + (lead + Written(c)), l, "else", m, "fi"];
  }

  predicate Plainly(m: string) { |m| < 256 && (m != "" ==> m[|m| - 1] != '\n') }

  lemma EmptyWhite(l: string, lead: string, c: Comparison)
    requires l == IfLine("", lead, c)
    ensures White("") && l == "if " + (lead + Written(c))
  {
    hide Written;
  }

  lemma PrintsOnly(l: string, p: seq<Piece>, s: Shell)
    requires l == "  print " + Text(p) && Readable(p) && Plainly(Meaning(s.store, p))
    ensures var t := Cons(Simple(l), End);
      && Orderly(t) && Elses(t) == 0 && Flat(t) == [l]
      && Runs([l], s) == s.(events := s.events + [Say(Meaning(s.store, p)), Say("\n")])
  {
    hide Text, Meaning, Readable, KindOf, Execute, SkipSpaces, Runs;
    PrintKind("  ", Text(p));
    assert l == "  " + ("print " + Text(p));
    var t := Cons(Simple(l), End);
    assert Flat(End) == [] && Orderly(End);
    KindsOfOne(l, End);
    PlainElses(l);
    LineRuns(l, End, s);
    NothingRuns(Execute("print " + Text(p), s));
    PrintRuns(s, p);
    assert [l] + Flat(End) == [l];
  }

  lemma PlainElses(l: string)
    ensures Elses(Cons(Simple(l), End)) == 0
  {
  }

  lemma PrintKind(w: string, text: string)
    requires White(w)
    ensures KindOf(w + ("print " + text)) == Plain && SkipSpaces(w + ("print " + text)) == "print " + text
  {
    hide SkipSpaces;
    SkipsWhite(w, "print " + text);
  }

  lemma NothingRuns(s: Shell)
    ensures Runs(Flat(End), s) == s
  {
  }
}
