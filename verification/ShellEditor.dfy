// The shell's line editor as an author sees it: text on both sides of the cursor, and the log of all
// commands ever entered.
module ShellEditor {

  const BACKSPACE: char := '\U{8}'
  const NUL: char := '\0'
  const MOST: nat := 255
  const HISTORY_SIZE: nat := 10

  datatype Event = Key(c: char) | DeleteHere | Left | Right | Up | Down

  // `at` is the entry being looked at, or the length of the log for a new line.
  datatype Editor = Editor(left: string, right: string, log: seq<string>, at: nat)

  predicate Sound(e: Editor)
  {
    && |e.left| + |e.right| <= MOST && NUL !in e.left && NUL !in e.right && e.at <= |e.log|
    && forall j :: 0 <= j < |e.log| ==> 0 < |e.log[j]| <= MOST && NUL !in e.log[j]
  }

  // The newest entry that shares a place in a ring of ten with entry `j`.
  function Latest(count: nat, j: nat): (i: nat)
    requires j < count
    ensures j <= i < count && i % HISTORY_SIZE == j % HISTORY_SIZE && count <= i + HISTORY_SIZE
  {
    j + HISTORY_SIZE * ((count - 1 - j) / HISTORY_SIZE)
  }

  function Recall(log: seq<string>, j: nat): string
    requires j < |log|
  {
    log[Latest(|log|, j)]
  }

  function Enter(e: Editor): Editor
  {
    var text := e.left + e.right;
    if text == "" then e.(left := "", right := "")
    else Editor("", "", e.log + [text], |e.log| + 1)
  }

  function Press(e: Editor, c: char): Editor
  {
    if c == '\n' then Enter(e)
    else if c == BACKSPACE then if e.left != "" then e.(left := e.left[..|e.left| - 1]) else e
    else if c != NUL && |e.left| + |e.right| < MOST then e.(left := e.left + [c])
    else e
  }

  function Step(e: Editor, event: Event): Editor
    requires Sound(e)
  {
    match event
    case Key(c) => Press(e, c)
    case DeleteHere => if e.right != "" then e.(right := e.right[1..]) else e
    case Left =>
      if e.left != "" then
        var n := |e.left| - 1;
        e.(left := e.left[..n], right := [e.left[n]] + e.right)
      else e
    case Right => if e.right != "" then e.(left := e.left + [e.right[0]], right := e.right[1..]) else e
    case Up => if e.at > 0 then Editor(Recall(e.log, e.at - 1), "", e.log, e.at - 1) else e
    case Down =>
      if e.at + 1 < |e.log| then Editor(Recall(e.log, e.at + 1), "", e.log, e.at + 1)
      else if e.at + 1 == |e.log| then Editor("", "", e.log, e.at + 1)
      else e
  }

  lemma StepSound(e: Editor, event: Event)
    requires Sound(e)
    ensures Sound(Step(e, event))
  {
  }

  function Run(e: Editor, events: seq<Event>): (r: Editor)
    requires Sound(e)
    ensures Sound(r)
    decreases |events|
  {
    if events == [] then e
    else
      StepSound(e, events[0]);
      Run(Step(e, events[0]), events[1..])
  }

  // Whatever the keys, the line stays within 255 characters and the log only grows.
  lemma {:induction false} RunKeeps(e: Editor, events: seq<Event>)
    requires Sound(e)
    ensures |Run(e, events).left| + |Run(e, events).right| <= 255 && e.log <= Run(e, events).log
    decreases |events|
  {
    if events != [] {
      StepSound(e, events[0]);
      RunKeeps(Step(e, events[0]), events[1..]);
    }
  }

  // ----- history -----

  function Times(event: Event, k: nat): seq<Event> { seq(k, _ => event) }

  // Within the last ten commands a place in the ring holds exactly that entry, and no further back.
  lemma RecallExact(log: seq<string>, j: nat)
    requires j < |log|
    ensures Latest(|log|, j) == j <==> j + 10 >= |log|
    ensures j + 10 >= |log| ==> Recall(log, j) == log[j]
  {
  }

  lemma RunHead(e: Editor, event: Event, rest: seq<Event>)
    requires Sound(e)
    ensures Run(e, []) == e
    ensures Sound(Step(e, event)) && Run(e, [event] + rest) == Run(Step(e, event), rest)
  {
    hide Step, Sound;
    StepSound(e, event);
    assert ([event] + rest)[1..] == rest;
  }

  lemma RunTail(e: Editor, event: Event, k: nat)
    requires Sound(e) && k > 0
    ensures Sound(Step(e, event)) && Run(e, Times(event, k)) == Run(Step(e, event), Times(event, k - 1))
  {
    hide Step, Sound;
    StepSound(e, event);
    assert Times(event, k)[0] == event && Times(event, k)[1..] == Times(event, k - 1);
  }

  lemma {:induction false} RunConcat(e: Editor, a: seq<Event>, b: seq<Event>)
    requires Sound(e)
    ensures Run(e, a + b) == Run(Run(e, a), b)
    decreases |a|
  {
    hide Step, Sound;
    if a == [] {
      assert a + b == b;
    } else {
      assert (a + b)[1..] == a[1..] + b;
      StepSound(e, a[0]);
      RunConcat(Step(e, a[0]), a[1..], b);
    }
  }

  // What looking at entry `at` shows.
  function Looking(log: seq<string>, at: nat): Editor
    requires at <= |log|
  {
    Editor(if at < |log| then Recall(log, at) else "", "", log, at)
  }

  lemma {:induction false} UpsFrom(e: Editor, k: nat)
    requires Sound(e) && 0 < k && 0 < e.at
    ensures Run(e, Times(Up, k)) == Looking(e.log, if k <= e.at then e.at - k else 0)
    decreases k
  {
    hide Latest;
    RunTail(e, Up, k);
    var n := Step(e, Up);
    if k == 1 {
      assert Times(Up, 0) == [];
    } else if e.at > 1 {
      UpsFrom(n, k - 1);
    } else {
      StuckAtTop(n, k - 1);
    }
  }

  lemma {:induction false} StuckAtTop(e: Editor, k: nat)
    requires Sound(e) && e.at == 0
    ensures Run(e, Times(Up, k)) == e
    decreases k
  {
    if k > 0 {
      RunTail(e, Up, k);
      StuckAtTop(e, k - 1);
    }
  }

  lemma {:induction false} DownsFrom(e: Editor, k: nat)
    requires Sound(e) && 0 < k && e.at < |e.log|
    ensures Run(e, Times(Down, k)) == Looking(e.log, if e.at + k <= |e.log| then e.at + k else |e.log|)
    decreases k
  {
    hide Latest;
    RunTail(e, Down, k);
    var n := Step(e, Down);
    if k == 1 {
      assert Times(Down, 0) == [];
    } else if e.at + 1 < |e.log| {
      DownsFrom(n, k - 1);
    } else {
      StuckAtEnd(n, k - 1);
    }
  }

  lemma {:induction false} StuckAtEnd(e: Editor, k: nat)
    requires Sound(e) && e.at == |e.log|
    ensures Run(e, Times(Down, k)) == e
    decreases k
  {
    if k > 0 {
      RunTail(e, Down, k);
      StuckAtEnd(e, k - 1);
    }
  }

  // From a new line, k ups and then j downs show the entry k - j back, if it is one of the last ten.
  lemma UpsAndDowns(e: Editor, k: nat, j: nat)
    requires Sound(e) && e.at == |e.log| && j < k <= |e.log| && k - j <= 10
    ensures Run(e, Times(Up, k) + Times(Down, j)) == Editor(e.log[|e.log| - k + j], "", e.log, |e.log| - k + j)
  {
    hide Step, Run, Sound;
    RunConcat(e, Times(Up, k), Times(Down, j));
    UpsFrom(e, k);
    RecallExact(e.log, |e.log| - k + j);
    var up := Run(e, Times(Up, k));
    if j == 0 {
      NoEvents(up, Down);
    } else {
      DownsFrom(up, j);
    }
  }

  lemma NoEvents(e: Editor, event: Event)
    requires Sound(e)
    ensures Run(e, Times(event, 0)) == e
  {
  }

  // As many downs as ups lead back to the empty new line, however many there are.
  lemma UpsThenDowns(e: Editor, k: nat)
    requires Sound(e) && e.at == |e.log| && e.log != [] && k > 0
    ensures Run(e, Times(Up, k) + Times(Down, k)) == Editor("", "", e.log, |e.log|)
  {
    hide Step, Run, Sound;
    RunConcat(e, Times(Up, k), Times(Down, k));
    UpsFrom(e, k);
    DownsFrom(Run(e, Times(Up, k)), k);
  }

  // ----- editing -----

  function Keys(text: string): seq<Event> { if text == "" then [] else [Key(text[0])] + Keys(text[1..]) }

  predicate Printable(text: string) { forall k :: 0 <= k < |text| ==> text[k] != '\n' && text[k] != '\U{8}' && text[k] != '\0' }

  // As much of typed text as there is room for goes in at the cursor.
  lemma {:induction false} Types(e: Editor, text: string)
    requires Sound(e) && Printable(text)
    ensures |e.left| + |e.right| <= 255
    ensures Run(e, Keys(text)) == e.(left := e.left + Fitting(text, 255 - |e.left| - |e.right|))
    decreases |text|
  {
    assert |e.left| + |e.right| <= MOST == 255;
    hide Step, Sound, Run, Printable;
    if text == "" {
      RunHead(e, Up, []);
      assert e.left + text == e.left;
    } else {
      PrintableParts(text);
      RunHead(e, Key(text[0]), Keys(text[1..]));
      TypesOne(e, text[0]);
      if |e.left| + |e.right| < MOST {
        Types(e.(left := e.left + [text[0]]), text[1..]);
        Rejoined(e.left, text, MOST - |e.left| - |e.right|);
      } else {
        Types(e, text[1..]);
        assert e.left + "" == e.left;
      }
    }
  }

  // The first `room` characters.
  function Fitting(text: string, room: nat): string { if |text| <= room then text else text[..room] }

  lemma PrintableParts(text: string)
    requires Printable(text) && text != ""
    ensures Printable([text[0]]) && Printable(text[1..])
  {
  }

  lemma Rejoined(left: string, text: string, room: nat)
    requires text != "" && room > 0
    ensures left + [text[0]] + Fitting(text[1..], room - 1) == left + Fitting(text, room)
  {
  }

  lemma TypesOne(e: Editor, c: char)
    requires Sound(e) && Printable([c])
    ensures if |e.left| + |e.right| < MOST
            then Step(e, Key(c)) == e.(left := e.left + [c]) && Sound(e.(left := e.left + [c]))
            else Step(e, Key(c)) == e
  {
    assert [c][0] == c;
    StepSound(e, Key(c));
  }

  function Least(a: nat, b: nat): nat { if a <= b then a else b }

  // Backspaces take characters out again, from the cursor back to the start of the line.
  lemma {:induction false} Erases(e: Editor, k: nat)
    requires Sound(e)
    ensures Run(e, Times(Key('\U{8}'), k)) == e.(left := e.left[..|e.left| - Least(k, |e.left|)])
    decreases k
  {
    hide Sound, Run;
    if k == 0 {
      NoEvents(e, Key(BACKSPACE));
      assert e.left[..|e.left|] == e.left;
    } else {
      RunTail(e, Key(BACKSPACE), k);
      Erases(Step(e, Key(BACKSPACE)), k - 1);
    }
  }

  // The delete key takes them out behind the cursor, up to the end of the line.
  lemma {:induction false} Deletes(e: Editor, k: nat)
    requires Sound(e)
    ensures Run(e, Times(DeleteHere, k)) == e.(right := e.right[Least(k, |e.right|)..])
    decreases k
  {
    hide Sound, Run;
    if k == 0 {
      NoEvents(e, DeleteHere);
    } else {
      RunTail(e, DeleteHere, k);
      Deletes(Step(e, DeleteHere), k - 1);
    }
  }

  // Moving the cursor changes no text, and stops at either end.
  lemma {:induction false} Moves(e: Editor, k: nat)
    requires Sound(e)
    ensures var n := |e.left| - Least(k, |e.left|);
      Run(e, Times(Left, k)) == e.(left := e.left[..n], right := e.left[n..] + e.right)
    decreases k
  {
    hide Sound, Run, Step;
    if k == 0 {
      NoEvents(e, Left);
      assert e.left[|e.left|..] + e.right == e.right;
    } else {
      var n := |e.left| - 1;
      RunTail(e, Left, k);
      MovesOne(e);
      if e.left == "" {
        Moves(e, k - 1);
      } else {
        Moves(e.(left := e.left[..n], right := [e.left[n]] + e.right), k - 1);
        Split(e.left, n, |e.left| - Least(k, |e.left|), e.right);
      }
    }
  }

  lemma MovesOne(e: Editor)
    requires Sound(e)
    ensures var n := |e.left| - 1;
      Step(e, Left) == if e.left == "" then e else e.(left := e.left[..n], right := [e.left[n]] + e.right)
  {
  }

  lemma Split(s: string, n: nat, m: nat, rest: string)
    requires m <= n && n + 1 == |s|
    ensures s[..n][m..] + ([s[n]] + rest) == s[m..] + rest
    ensures s[..n][..m] == s[..m]
  {
    assert s[m..] == s[..n][m..] + [s[n]];
    assert s[..n][m..] + ([s[n]] + rest) == s[..n][m..] + [s[n]] + rest;
  }

  lemma {:induction false} MovesOn(e: Editor, k: nat)
    requires Sound(e)
    ensures var n := Least(k, |e.right|);
      Run(e, Times(Right, k)) == e.(left := e.left + e.right[..n], right := e.right[n..])
    decreases k
  {
    hide Sound, Run;
    if k == 0 {
      NoEvents(e, Right);
      assert e.left + e.right[..0] == e.left;
    } else {
      RunTail(e, Right, k);
      MovesOn(Step(e, Right), k - 1);
      if e.right != "" {
        var n := Least(k, |e.right|);
        assert [e.right[0]] + e.right[1..][..n - 1] == e.right[..n];
        assert e.left + [e.right[0]] + e.right[1..][..n - 1] == e.left + ([e.right[0]] + e.right[1..][..n - 1]);
      }
    }
  }

  // So the cursor comes back, and what was deleted on the way is what stood behind it.
  lemma MovesBack(e: Editor, k: nat, d: nat)
    requires Sound(e) && d <= k <= |e.left|
    ensures var n := |e.left| - k;
      Run(e, Times(Left, k) + Times(DeleteHere, d) + Times(Right, k - d)) == e.(left := e.left[..n] + e.left[n + d..])
  {
    hide Sound, Run, Step;
    RunConcat(e, Times(Left, k) + Times(DeleteHere, d), Times(Right, k - d));
    RunConcat(e, Times(Left, k), Times(DeleteHere, d));
    Moves(e, k);
    var back := Run(e, Times(Left, k));
    Deletes(back, d);
    MovesOn(Run(back, Times(DeleteHere, d)), k - d);
    var n := |e.left| - k;
    assert (e.left[n..] + e.right)[d..] == e.left[n + d..] + e.right;
    assert (e.left[n + d..] + e.right)[..k - d] == e.left[n + d..] && (e.left[n + d..] + e.right)[k - d..] == e.right;
  }

  // Enter on an empty line and the character 0 do nothing.
  lemma {:induction false} Ignored(e: Editor, c: char, k: nat)
    requires Sound(e) && ((c == '\n' && e.left + e.right == "") || c == '\0')
    ensures Run(e, Times(Key(c), k)) == e
    decreases k
  {
    hide Sound, Run;
    if k == 0 {
      NoEvents(e, Key(c));
    } else {
      assert |e.left + e.right| == |e.left| + |e.right|;
      RunTail(e, Key(c), k);
      Ignored(e, c, k - 1);
    }
  }

  // A line typed in two parts with the cursor moved back between them, entered, and called up again:
  // the log gets the second part in the middle of the first, and up shows it.
  lemma EditEnterRecall(e: Editor, a: string, b: string, c: string)
    requires Sound(e) && e.left == "" && e.right == "" && a + c + b != "" && |a + c + b| <= 255
    requires Printable(a) && Printable(b) && Printable(c)
    ensures Run(e, Keys(a + b) + Times(Left, |b|) + Keys(c) + [Key('\n'), Up])
            == Editor(a + c + b, "", e.log + [a + c + b], |e.log|)
  {
    hide Step, Sound, Run;
    var ab := Keys(a + b);
    RunConcat(e, ab + Times(Left, |b|) + Keys(c), [Key('\n'), Up]);
    RunConcat(e, ab + Times(Left, |b|), Keys(c));
    RunConcat(e, ab, Times(Left, |b|));
    Types(e, a + b);
    assert "" + (a + b) == a + b;
    var typed := Run(e, ab);
    MovedBack(typed, a, b);
    var back := Run(typed, Times(Left, |b|));
    Types(back, c);
    EnterUp(Run(back, Keys(c)), a + c + b);
    assert (a + c) + b == a + c + b;
  }

  lemma MovedBack(e: Editor, a: string, b: string)
    requires Sound(e) && e.left == a + b && e.right == ""
    ensures Run(e, Times(Left, |b|)) == e.(left := a, right := b)
  {
    hide Run, Sound;
    Moves(e, |b|);
    assert (a + b)[..|a|] == a && (a + b)[|a|..] + "" == b;
  }

  lemma EnterUp(e: Editor, text: string)
    requires Sound(e) && e.left + e.right == text != ""
    ensures Run(e, [Key('\n'), Up]) == Editor(text, "", e.log + [text], |e.log|)
  {
    var events := [Key('\n'), Up];
    var entered := Step(e, Key('\n'));
    StepSound(e, Key('\n'));
    assert events[1..] == [Up] && [Up][1..] == [];
    assert entered == Editor("", "", e.log + [text], |e.log| + 1);
    StepSound(entered, Up);
    assert Run(entered, [Up]) == Run(Step(entered, Up), []);
    RecallExact(e.log + [text], |e.log|);
  }
}
