// Grep as it runs: loops over the text, lines highlighted with colour escapes, and a pipe through the
// terminal's capture buffer.
module GrepPipe {
  import opened Bytes
  import opened CString
  import opened GrepPaint
  import opened GrepText
  import opened TermDevice
  import opened TermLayout
  import TermOutput

  type Term = TermOutput.Term

  // ----- what reaches the screen or the buffer -----

  // From one state to another the terminal took these characters, in these colours: the screen goes on showing
  // the last 25 rows, or the buffer keeps what fits.
  ghost predicate Wrote(t: Term, r: Term, cells: seq<Cell>)
  {
    && TermOutput.Sane(t) && TermOutput.Sane(r) && r.bg == t.bg
    && match t.capture
       case Off =>
         r.capture.Off? && forall lines | lines != [] && Shows(t.screen, lines) :: Shows(r.screen, PutAll(lines, cells))
       case On(kept, size) =>
         r.capture == TermOutput.On(TermOutput.CaughtAll(kept, size, TermOutput.Chars(cells)), size)
         && r.screen.(attr := t.screen.attr) == t.screen
  }

  lemma WroteNothing(t: Term)
    requires TermOutput.Sane(t)
    ensures Wrote(t, t, [])
  {
  }

  lemma WroteMore(t: Term, r: Term, u: Term, a: seq<Cell>, b: seq<Cell>)
    requires Wrote(t, r, a) && Wrote(r, u, b)
    ensures Wrote(t, u, a + b)
  {
    hide Shows, TermOutput.CaughtAll, TermOutput.Chars;
    match t.capture
    case Off =>
      forall lines | lines != [] && Shows(t.screen, lines)
        ensures Shows(u.screen, PutAll(lines, a + b))
      {
        TermOutput.PutAllConcat(lines, a, b);
      }
    case On(kept, size) =>
      CharsConcat(a, b);
      TermOutput.CaughtSplit(kept, size, TermOutput.Chars(a), TermOutput.Chars(b));
  }

  lemma TextWrote(t: Term, s: string)
    requires TermOutput.Sane(t)
    ensures var r := TermOutput.Text(t, s);
      && Wrote(t, r, TermOutput.Painted(s, t.screen.attr, t.bg))
      && r.screen.attr == TermOutput.Left(s, t.screen.attr, t.bg)
  {
    hide Shows, TermOutput.CaughtAll, TermOutput.Text, TermOutput.Painted, TermOutput.Left;
    TermOutput.TextLeaves(t, s);
    match t.capture
    case Off =>
      forall lines | lines != [] && Shows(t.screen, lines)
        ensures Shows(TermOutput.Text(t, s).screen, PutAll(lines, TermOutput.Painted(s, t.screen.attr, t.bg)))
      {
        TermOutput.TextShows(t, lines, s);
      }
    case On(_, _) =>
      TermOutput.TextCaught(t, s);
  }

  // Plain text, one escape, or one character.
  predicate Plain(s: string) { forall k :: 0 <= k < |s| ==> Ascii(s[k]) && s[k] != TermOutput.ESCAPE && s[k] != '\0' }

  lemma PlainPainted(s: string, attr: byte, bg: TermOutput.nibble)
    requires Plain(s)
    ensures TermOutput.Painted(s, attr, bg) == Tinted(s, attr) && TermOutput.Left(s, attr, bg) == attr
  {
    TermOutput.PaintedPlain(s, attr, bg);
  }

  const RED: string := [TermOutput.ESCAPE] + "[31m"
  const NORMAL: string := [TermOutput.ESCAPE] + "[0m"

  lemma EscapesPaint(attr: byte, bg: TermOutput.nibble)
    ensures TermOutput.Painted(RED, attr, bg) == [] && TermOutput.Left(RED, attr, bg) == RedOn(bg)
    ensures TermOutput.Painted(NORMAL, attr, bg) == [] && TermOutput.Left(NORMAL, attr, bg) == WhiteOn(bg)
  {
    hide TermOutput.AfterEscape, TermOutput.Coloured;
    EscapeTexts();
    TermOutput.ColourTaken(31, "", attr, bg);
    TermOutput.ColourTaken(0, "", attr, bg);
  }

  lemma EscapeTexts()
    ensures RED == TermOutput.Markup(TermOutput.Colour(31)) + "" && NORMAL == TermOutput.Markup(TermOutput.Colour(0)) + ""
  {
    assert Decimal(3) == "3" && Decimal(31) == Decimal(3) + "1" && Decimal(0) == "0";
  }

  // ----- printing -----

  method WritePlain(t: Terminal, s: string, ghost was: Term, ghost before: seq<Cell>)
    requires t.Valid() && Plain(s) && Wrote(was, t.State(), before)
    modifies t`row, t`col, t`pos, t`attr, t.video, t.buffer
    ensures t.Valid() && t.buffer == old(t.buffer) && t.attr == old(t.attr)
    ensures Wrote(was, t.State(), before + Tinted(s, old(t.attr)))
  {
    hide Wrote, TermOutput.Text, TermOutput.Painted, TermOutput.Left;
    ghost var now := t.State();
    t.WriteString(s);
    TextWrote(now, s);
    PlainPainted(s, now.screen.attr, now.bg);
    WroteMore(was, now, t.State(), before, Tinted(s, now.screen.attr));
  }

  // The escape that turns to red or to white.
  method WriteEscape(t: Terminal, red: bool, ghost was: Term, ghost before: seq<Cell>)
    requires t.Valid() && Wrote(was, t.State(), before)
    modifies t`row, t`col, t`pos, t`attr, t.video, t.buffer
    ensures t.Valid() && t.buffer == old(t.buffer) && Wrote(was, t.State(), before)
    ensures t.attr == if red then RedOn(t.bg) else WhiteOn(t.bg)
  {
    hide Wrote, TermOutput.Text, TermOutput.Painted, TermOutput.Left;
    ghost var now := t.State();
    EscapeAscii();
    t.WriteString(if red then RED else NORMAL);
    TextWrote(now, if red then RED else NORMAL);
    EscapesPaint(now.screen.attr, now.bg);
    WroteMore(was, now, t.State(), before, []);
    assert before + [] == before;
  }

  lemma EscapeAscii()
    ensures forall k :: 0 <= k < |RED| ==> Ascii(RED[k])
    ensures forall k :: 0 <= k < |NORMAL| ==> Ascii(NORMAL[k])
  {
  }

  // `terminal_write_n`: one character after another.
  method WriteN(t: Terminal, s: string, ghost was: Term, ghost before: seq<Cell>)
    requires t.Valid() && Plain(s) && Wrote(was, t.State(), before)
    modifies t`row, t`col, t`pos, t`attr, t.video, t.buffer
    ensures t.Valid() && t.buffer == old(t.buffer) && t.attr == old(t.attr)
    ensures Wrote(was, t.State(), before + Tinted(s, old(t.attr)))
  {
    hide Wrote, TermOutput.Text, TermOutput.Painted, TermOutput.Char;
    ghost var attr := t.attr;
    assert before + Tinted(s[..0], attr) == before;
    for i := 0 to |s|
      invariant t.Valid() && t.buffer == old(t.buffer) && t.attr == attr
      invariant Wrote(was, t.State(), before + Tinted(s[..i], attr))
    {
      ghost var now := t.State();
      t.PutChar(s[i]);
      CharWrote(now, s[i]);
      WroteMore(was, now, t.State(), before + Tinted(s[..i], attr), [Cell(s[i], attr)]);
      assert before + Tinted(s[..i], attr) + [Cell(s[i], attr)] == before + Tinted(s[..i + 1], attr);
    }
    assert s[..|s|] == s;
  }

  lemma CharWrote(t: Term, c: char)
    requires TermOutput.Sane(t)
    ensures Wrote(t, TermOutput.Char(t, c), [Cell(c, t.screen.attr)]) && TermOutput.Char(t, c).screen.attr == t.screen.attr
  {
    hide ShowsFrom, TermOutput.Caught, Put, Scrolled, Place;
    var x := Cell(c, t.screen.attr);
    match t.capture
    case Off =>
      forall lines | lines != [] && Shows(t.screen, lines)
        ensures Shows(TermOutput.Char(t, c).screen, PutAll(lines, [x]))
      {
        StepShows(t.screen, lines, c);
        assert [x][1..] == [];
      }
    case On(kept, size) =>
      CaughtOne(kept, size, c);
      assert TermOutput.Chars([x]) == [c];
  }

  lemma CaughtOne(kept: string, size: nat, c: char)
    requires |kept| < size
    ensures TermOutput.CaughtAll(kept, size, [c]) == TermOutput.Caught(kept, size, c)
  {
    hide TermOutput.Caught;
    var k := TermOutput.Caught(kept, size, c);
    assert [c][1..] == "";
    assert TermOutput.CaughtAll(k, size, "") == k;
    assert TermOutput.CaughtAll(kept, size, [c]) == TermOutput.CaughtAll(k, size, [c][1..]);
  }

  // A line with every occurrence of the pattern in red, and the colour it leaves.
  method PrintHighlightedLine(t: Terminal, line: string, pattern: string, ghost was: Term, ghost before: seq<Cell>)
    requires t.Valid() && Plain(line) && Wrote(was, t.State(), before)
    modifies t`row, t`col, t`pos, t`attr, t.video, t.buffer
    ensures t.Valid() && t.buffer == old(t.buffer) && t.attr == Behind(line, pattern, old(t.attr), t.bg)
    ensures Wrote(was, t.State(), before + (MarkedLine(line, pattern, old(t.attr), t.bg) + [Cell('\n', t.attr)]))
  {
    hide Wrote, FindFrom, Plain, RedOn, WhiteOn, Marked;
    ghost var attr := t.attr;
    if pattern == "" {
      WritePlain(t, line, was, before);
    } else {
      PrintMarked(t, line, pattern, was, before);
    }
    PlainNewline();
    ghost var behind := t.attr;
    WriteN(t, "\n", was, before + MarkedLine(line, pattern, attr, t.bg));
    assert Tinted("\n", behind) == [Cell('\n', behind)];
    Joins(before, MarkedLine(line, pattern, attr, t.bg), [Cell('\n', behind)]);
  }

  method PrintMarked(t: Terminal, line: string, pattern: string, ghost was: Term, ghost before: seq<Cell>)
    requires t.Valid() && Plain(line) && pattern != "" && Wrote(was, t.State(), before)
    modifies t`row, t`col, t`pos, t`attr, t.video, t.buffer
    ensures t.Valid() && t.buffer == old(t.buffer) && t.attr == if Has(line, pattern) then WhiteOn(t.bg) else old(t.attr)
    ensures Wrote(was, t.State(), before + Marked(line, pattern, old(t.attr), t.bg))
  {
    hide Wrote, Has, Plain, WhiteOn, Marked, TermOutput.Sane;
    ghost var attr, done := t.attr, [];
    var p, more := 0, true;
    assert line[0..] == line && before + done == before;
    assert done + Marked(line, pattern, attr, t.bg) == Marked(line, pattern, attr, t.bg);
    while more
      invariant p <= |line| && t.Valid() && t.buffer == old(t.buffer) && Wrote(was, t.State(), before + done)
      invariant if more then done + Marked(line[p..], pattern, t.attr, t.bg) == Marked(line, pattern, attr, t.bg)
                else done == Marked(line, pattern, attr, t.bg)
      invariant t.attr == if Has(line, pattern) && !(p == 0 && more) then WhiteOn(t.bg) else attr
      decreases |line| - p, more
    {
      ghost var part;
      p, more, part := PrintNext(t, line, p, pattern, was, before + done);
      Joins(before, done, part);
      if more {
        Joins(done, part, Marked(line[p..], pattern, t.attr, t.bg));
      }
      done := done + part;
    }
  }

  // One turn: up to the next occurrence and with it, or to the end of the line.
  method PrintNext(t: Terminal, line: string, p: nat, pattern: string, ghost was: Term, ghost before: seq<Cell>)
    returns (next: nat, more: bool, ghost part: seq<Cell>)
    requires t.Valid() && Plain(line) && pattern != "" && p <= |line| && Wrote(was, t.State(), before)
    modifies t`row, t`col, t`pos, t`attr, t.video, t.buffer
    ensures t.Valid() && t.buffer == old(t.buffer) && Wrote(was, t.State(), before + part)
    ensures if more then
              && p < next <= |line| && Has(line, pattern) && t.attr == WhiteOn(t.bg)
              && part + Marked(line[next..], pattern, t.attr, t.bg) == Marked(line[p..], pattern, old(t.attr), t.bg)
            else
              && next == p && t.attr == old(t.attr) && part == Marked(line[p..], pattern, old(t.attr), t.bg)
              && (p == 0 ==> !Has(line, pattern))
  {
    hide Wrote, FindFrom, Plain, RedOn, WhiteOn, UpTo, Occurs;
    ghost var attr, rest := t.attr, line[p..];
    assert p == 0 ==> rest == line;
    var m := StrStr(line[p..], pattern);
    PlainParts(line, p);
    next, more, part := p, m >= 0, Tinted(rest, attr);
    if m < 0 {
      WritePlain(t, line[p..], was, before);
      return;
    }
    FoundAgain(line, p, pattern, m);
    PrintHit(t, line, p, m, pattern, was, before);
    Marks(rest, m, pattern, attr, t.bg);
    part := UpTo(rest, m, pattern, attr, t.bg);
    next := p + m + |pattern|;
  }

  lemma FoundAgain(line: string, p: nat, pattern: string, m: nat)
    requires p <= |line| && FindFrom(line[p..], pattern, 0) == m
    ensures p + m + |pattern| <= |line| && line[p + m + |pattern|..] == line[p..][m + |pattern|..] && Has(line, pattern)
  {
    hide FindFrom;
    OccursShifted(line, p, pattern, m);
  }

  lemma Joins(a: seq<Cell>, b: seq<Cell>, c: seq<Cell>)
    ensures a + b + c == a + (b + c)
  {
  }

  // Up to and with an occurrence at `m`.
  ghost function UpTo(rest: string, m: nat, pattern: string, attr: byte, bg: TermOutput.nibble): seq<Cell>
    requires m + |pattern| <= |rest|
  {
    Tinted(rest[..m], attr) + Tinted(rest[m..m + |pattern|], RedOn(bg))
  }

  lemma Marks(rest: string, m: nat, pattern: string, attr: byte, bg: TermOutput.nibble)
    requires pattern != "" && FindFrom(rest, pattern, 0) == m
    ensures m + |pattern| <= |rest|
    ensures UpTo(rest, m, pattern, attr, bg) + Marked(rest[m + |pattern|..], pattern, WhiteOn(bg), bg)
            == Marked(rest, pattern, attr, bg)
  {
    hide FindFrom, RedOn, WhiteOn;
  }

  // The characters up to an occurrence, and it in red.
  method PrintHit(t: Terminal, line: string, p: nat, m: nat, pattern: string, ghost was: Term, ghost before: seq<Cell>)
    requires t.Valid() && Plain(line) && p + m + |pattern| <= |line| && Wrote(was, t.State(), before)
    modifies t`row, t`col, t`pos, t`attr, t.video, t.buffer
    ensures t.Valid() && t.buffer == old(t.buffer) && t.attr == WhiteOn(t.bg)
    ensures Wrote(was, t.State(), before + UpTo(line[p..], m, pattern, old(t.attr), t.bg))
  {
    hide Wrote, Plain, RedOn, WhiteOn;
    ghost var attr := t.attr;
    var end := p + m + |pattern|;
    PlainMiddle(line, p, p + m);
    PlainMiddle(line, p + m, end);
    assert line[p..p + m] == line[p..][..m] && line[p + m..end] == line[p..][m..m + |pattern|];
    ghost var a, b := Tinted(line[p..p + m], attr), Tinted(line[p + m..end], RedOn(t.bg));
    WriteN(t, line[p..p + m], was, before);
    WriteEscape(t, true, was, before + a);
    WriteN(t, line[p + m..end], was, before + a);
    WriteEscape(t, false, was, before + a + b);
    Joins(before, a, b);
  }

  lemma PlainParts(line: string, p: nat)
    requires Plain(line) && p <= |line|
    ensures Plain(line[p..])
  {
  }

  lemma PlainMiddle(line: string, p: nat, q: nat)
    requires Plain(line) && p <= q <= |line|
    ensures Plain(line[p..q])
  {
  }

  lemma PlainNewline()
    ensures Plain("\n") && Plain(NO_MATCH)
  {
  }

  // ----- the loop over the lines -----

  // One line of the text, from `start` to `end`.
  method GrepLine(t: Terminal, pattern: string, text: string, start: nat, end: nat, ghost was: Term, ghost before: seq<Cell>)
    returns (hit: bool)
    requires t.Valid() && Plain(text) && start <= end <= |text| && Wrote(was, t.State(), before)
    modifies t`row, t`col, t`pos, t`attr, t.video, t.buffer
    ensures t.Valid() && t.buffer == old(t.buffer)
    ensures var chosen := Select(pattern, [text[start..end]]);
      && hit == (chosen != []) && t.attr == BehindAll(chosen, pattern, old(t.attr), t.bg)
      && Wrote(was, t.State(), before + MarkedLines(chosen, pattern, old(t.attr), t.bg))
  {
    hide Wrote, FindFrom, Plain, MarkedLine, Behind;
    SelectLine(pattern, text[start..end]);
    hit := false;
    ghost var attr := t.attr;
    NoneMarked(pattern, attr, t.bg);
    if start < end {
      var line := Truncated(text[start..end], LINE_SIZE);
      var found := StrStr(line, pattern);
      if found >= 0 {
        PlainMiddle(text, start, if end - start < LINE_SIZE then end else start + LINE_SIZE - 1);
        assert line == text[start..if end - start < LINE_SIZE then end else start + LINE_SIZE - 1];
        PrintHighlightedLine(t, line, pattern, was, before);
        hit := true;
        OneMarked(line, pattern, attr, t.bg);
      }
    }
    assert before + [] == before;
  }

  lemma NoneMarked(pattern: string, attr: byte, bg: TermOutput.nibble)
    ensures MarkedLines([], pattern, attr, bg) == [] && BehindAll([], pattern, attr, bg) == attr
  {
  }

  lemma OneMarked(line: string, pattern: string, attr: byte, bg: TermOutput.nibble)
    ensures var after := Behind(line, pattern, attr, bg);
      MarkedLines([line], pattern, attr, bg) == MarkedLine(line, pattern, attr, bg) + [Cell('\n', after)]
      && BehindAll([line], pattern, attr, bg) == after
  {
    hide MarkedLine, Behind;
    var after := Behind(line, pattern, attr, bg);
    assert [line][1..] == [];
    NoneMarked(pattern, after, bg);
    var head := MarkedLine(line, pattern, attr, bg) + [Cell('\n', after)];
    assert head + [] == head;
  }

  lemma SelectLine(pattern: string, l: string)
    ensures var cut := Truncated(l, LINE_SIZE);
      Select(pattern, [l]) == if l != "" && Has(cut, pattern) then [cut] else []
    ensures Joined([]) == ""
  {
    assert [l][1..] == [];
  }

  // The loop of `grep` over a file, and of `grep_with_input` over what the pipe brings: they print
  // the same.
  method Grep(t: Terminal, pattern: string, text: string)
    requires t.Valid() && Plain(text)
    modifies t`row, t`col, t`pos, t`attr, t.video, t.buffer
    ensures t.Valid() && t.buffer == old(t.buffer) && t.attr == BehindGrep(pattern, text, old(t.attr), t.bg)
    ensures Wrote(old(t.State()), t.State(), PaintedGrep(pattern, text, old(t.attr), t.bg))
  {
    hide Wrote, FindFrom, Plain, Select, MarkedLines, BehindAll, LinesFrom;
    ghost var was, attr := t.State(), t.attr;
    ghost var so: seq<string> := [];
    WroteNothing(was);
    NoneMarked(pattern, attr, t.bg);
    var lineStart, found := 0, false;
    var i := 0;
    assert so + Select(pattern, LinesFrom(text, 0, 0)) == Select(pattern, Lines(text));
    while i <= |text|
      invariant lineStart <= i <= |text| + 1 && t.Valid() && t.buffer == old(t.buffer)
      invariant Wrote(was, t.State(), MarkedLines(so, pattern, attr, t.bg)) && found == (so != [])
      invariant t.attr == BehindAll(so, pattern, attr, t.bg)
      invariant so + Select(pattern, LinesFrom(text, lineStart, i)) == Select(pattern, Lines(text))
    {
      LineStep(pattern, text, lineStart, i);
      if i == |text| || text[i] == '\n' {
        ghost var l := Select(pattern, [text[lineStart..i]]);
        var hit := GrepLine(t, pattern, text, lineStart, i, was, MarkedLines(so, pattern, attr, t.bg));
        MarkedMore(so, l, pattern, attr, t.bg);
        found := found || hit;
        Regroup(so, l, Select(pattern, LinesFrom(text, i + 1, i + 1)));
        so := so + l;
        lineStart := i + 1;
      }
      i := i + 1;
    }
    NoLinesLeft(pattern, text, lineStart);
    assert i == |text| + 1;
    assert so == Select(pattern, Lines(text));
    if !found {
      PlainNewline();
      WritePlain(t, NO_MATCH, was, []);
      assert [] + Tinted(NO_MATCH, attr) == Tinted(NO_MATCH, attr);
    }
  }

  lemma Regroup<T>(a: seq<T>, b: seq<T>, c: seq<T>)
    ensures a + (b + c) == (a + b) + c
  {
  }

  lemma LineStep(pattern: string, text: string, start: nat, i: nat)
    requires start <= i <= |text|
    ensures i == |text| || text[i] == '\n' ==>
      Select(pattern, LinesFrom(text, start, i))
      == Select(pattern, [text[start..i]]) + Select(pattern, LinesFrom(text, i + 1, i + 1))
    ensures !(i == |text| || text[i] == '\n') ==>
      LinesFrom(text, start, i) == LinesFrom(text, start, i + 1)
  {
    hide Has;
    if i == |text| || text[i] == '\n' {
      var l := text[start..i];
      var rest := LinesFrom(text, i + 1, i + 1);
      assert LinesFrom(text, start, i) == [l] + rest;
      SelectLine(pattern, l);
      assert ([l] + rest)[1..] == rest;
    }
  }

  lemma NoLinesLeft(pattern: string, text: string, start: nat)
    requires start <= |text| + 1
    ensures Select(pattern, LinesFrom(text, start, |text| + 1)) == []
  {
  }
}
