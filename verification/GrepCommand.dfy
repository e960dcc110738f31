// The command line `grep p file | grep q`: how it is taken apart, and the pipe from the first grep to
// the second through the capture buffer.
module GrepCommand {
  import opened Bytes
  import opened CString
  import opened GrepPaint
  import opened GrepPipe
  import opened GrepText
  import opened TermDevice
  import opened TermLayout
  import TermOutput

  const PIPE_SIZE: nat := 1024
  const WORD_LIMIT: nat := 63
  const PATTERN_LIMIT: nat := 255

  // ----- the command line -----

  function WordRun(s: string, limit: nat): (n: nat)
    ensures n <= |s| && n <= limit
  {
    if limit == 0 || s == "" || s[0] == ' ' then 0 else 1 + WordRun(s[1..], limit - 1)
  }

  function TrimSpaces(s: string): (r: string)
    ensures r <= s
  {
    if s != "" && s[|s| - 1] == ' ' then TrimSpaces(s[..|s| - 1]) else s
  }

  function Arguments(command: string): string { SkipOnlySpaces(command[WordRun(command, WORD_LIMIT)..]) }

  predicate IsGrep(command: string) { command[..WordRun(command, WORD_LIMIT)] == "grep" }

  function Pattern(args: string): string { args[..WordRun(args, PATTERN_LIMIT)] }

  function File(args: string): string { SkipOnlySpaces(args[WordRun(args, PATTERN_LIMIT)..]) }

  // Two greps with a pipe between, the first with a pattern and a file; or something else.
  datatype Request = Request(first: string, file: string, second: string) | Other

  function ParsePipe(input: string): Request
  {
    var bar := FindFrom(input, "|", 0);
    if !(0 <= bar < |input|) then Other
    else
      var left := SkipOnlySpaces(TrimSpaces(input[..bar]));
      var right := TrimSpaces(SkipOnlySpaces(input[bar + 1..]));
      var args := Arguments(left);
      if IsGrep(left) && IsGrep(right) && Pattern(args) != "" && File(args) != "" then
        Request(Pattern(args), File(args), Pattern(Arguments(right)))
      else Other
  }

  // A word of a command: no blank and no bar.
  predicate Word(s: string) { s != "" && ' ' !in s && '|' !in s }

  lemma {:induction false} TrimsSpaces(s: string, n: nat)
    requires s != "" ==> s[|s| - 1] != ' '
    ensures TrimSpaces(s + Blanks(n)) == s
    decreases n
  {
    if n == 0 {
      assert s + Blanks(n) == s;
    } else {
      assert (s + Blanks(n))[..|s| + n - 1] == s + Blanks(n - 1);
      TrimsSpaces(s, n - 1);
    }
  }

  lemma {:induction false} PlainWordEnds(w: string, rest: string, limit: nat)
    requires |w| <= limit && ' ' !in w && (rest != "" ==> rest[0] == ' ')
    ensures WordRun(w + rest, limit) == |w|
    decreases |w|
  {
    if w == "" {
      assert w + rest == rest;
    } else {
      assert (w + rest)[1..] == w[1..] + rest;
      PlainWordEnds(w[1..], rest, limit - 1);
    }
  }

  // A word, blanks, and what follows.
  lemma SplitsWord(w: string, gap: nat, rest: string, limit: nat)
    requires Word(w) && |w| <= limit && (rest != "" ==> rest[0] != ' ')
    ensures var s := w + (Blanks(gap + 1) + rest);
      s[..WordRun(s, limit)] == w && SkipOnlySpaces(s[WordRun(s, limit)..]) == rest
  {
    var tail := Blanks(gap + 1) + rest;
    PlainWordEnds(w, tail, limit);
    assert (w + tail)[..|w|] == w && (w + tail)[|w|..] == tail;
    SkipsSpaces(gap + 1, rest);
  }

  // The blanks of a command line.
  datatype Spacing = Spacing(a: nat, b: nat, c: nat, d: nat, e: nat, f: nat, g: nat)

  function LeftCommand(sp: Spacing, p: string, file: string): string
  {
    "grep" + (Blanks(sp.b + 1) + (p + (Blanks(sp.c + 1) + file)))
  }

  function RightCommand(sp: Spacing, q: string): string { "grep" + (Blanks(sp.f + 1) + q) }

  function Typed(sp: Spacing, p: string, file: string, q: string): string
  {
    Blanks(sp.a) + LeftCommand(sp, p, file) + Blanks(sp.d) + ("|" + (Blanks(sp.e) + (RightCommand(sp, q) + Blanks(sp.g))))
  }

  lemma LeftReads(sp: Spacing, p: string, file: string)
    requires Word(p) && Word(file) && |p| <= PATTERN_LIMIT
    ensures var left := LeftCommand(sp, p, file);
      IsGrep(left) && Pattern(Arguments(left)) == p && File(Arguments(left)) == file
    ensures LeftCommand(sp, p, file)[|LeftCommand(sp, p, file)| - 1] != ' '
  {
    hide WordRun, SkipOnlySpaces;
    assert Word("grep");
    SplitsWord("grep", sp.b, p + (Blanks(sp.c + 1) + file), WORD_LIMIT);
    SplitsWord(p, sp.c, file, PATTERN_LIMIT);
    assert LeftCommand(sp, p, file)[|LeftCommand(sp, p, file)| - 1] == file[|file| - 1];
  }

  lemma RightReads(sp: Spacing, q: string)
    requires Word(q) && |q| <= PATTERN_LIMIT
    ensures IsGrep(RightCommand(sp, q)) && Pattern(Arguments(RightCommand(sp, q))) == q
    ensures RightCommand(sp, q)[|RightCommand(sp, q)| - 1] != ' '
  {
    hide WordRun, SkipOnlySpaces;
    assert Word("grep");
    SplitsWord("grep", sp.f, q, WORD_LIMIT);
    PlainWordEnds(q, "", PATTERN_LIMIT);
    assert q + "" == q && q[..|q|] == q;
    assert RightCommand(sp, q)[|RightCommand(sp, q)| - 1] == q[|q| - 1];
  }

  // A pattern of more than 255 characters is cut there, and what is left of it is taken for the file.
  lemma LongPattern(p: string, rest: string)
    requires |p| > 255 && ' ' !in p
    ensures Pattern(p + rest) == p[..255] && File(p + rest) == p[255..] + rest
  {
    hide WordRun;
    LongRun(p, rest, PATTERN_LIMIT);
    assert (p + rest)[255..] == p[255..] + rest;
    assert p[255] in p && (p[255..] + rest)[0] == p[255];
  }

  lemma {:induction false} LongRun(w: string, rest: string, limit: nat)
    requires |w| >= limit && ' ' !in w
    ensures WordRun(w + rest, limit) == limit
    decreases limit
  {
    if limit > 0 {
      assert (w + rest)[1..] == w[1..] + rest;
      LongRun(w[1..], rest, limit - 1);
    }
  }

  // The command line gives back what was typed.
  lemma TypedReads(sp: Spacing, p: string, file: string, q: string)
    requires Word(p) && Word(file) && Word(q) && |p| <= PATTERN_LIMIT && |q| <= PATTERN_LIMIT
    ensures ParsePipe(Typed(sp, p, file, q)) == Request(p, file, q)
  {
    hide WordRun, SkipOnlySpaces, TrimSpaces, FindFrom, IsGrep, Pattern, Arguments, File, LeftCommand, RightCommand, Word;
    WordsNotEmpty(p, file);
    LeftReads(sp, p, file);
    RightReads(sp, q);
    var left, right := LeftCommand(sp, p, file), RightCommand(sp, q);
    Heads(sp, p, file, q);
    var before := Blanks(sp.a) + left + Blanks(sp.d);
    var after := Blanks(sp.e) + (right + Blanks(sp.g));
    CharFound(before, '|', after);
    var input := before + ("|" + after);
    assert input[..|before|] == before && input[|before| + 1..] == after;
    assert before == (Blanks(sp.a) + left) + Blanks(sp.d);
    TrimsSpaces(Blanks(sp.a) + left, sp.d);
    SkipsSpaces(sp.a, left);
    SkipsSpaces(sp.e, right + Blanks(sp.g));
    TrimsSpaces(right, sp.g);
  }

  lemma WordsNotEmpty(p: string, file: string)
    requires Word(p) && Word(file)
    ensures p != "" && file != ""
  {
  }

  lemma Heads(sp: Spacing, p: string, file: string, q: string)
    requires Word(p) && Word(file) && Word(q)
    ensures var l, r := LeftCommand(sp, p, file), RightCommand(sp, q);
      l != "" && r != "" && l[0] == r[0] == 'g' && '|' !in Blanks(sp.a) + l + Blanks(sp.d)
  {
    NoBarInBlanks(sp.a);
    NoBarInBlanks(sp.b + 1);
    NoBarInBlanks(sp.c + 1);
    NoBarInBlanks(sp.d);
  }

  lemma NoBarInBlanks(n: nat)
    ensures '|' !in Blanks(n)
  {
  }

  // ----- the pipe -----

  function NoSuchFile(file: string): string { "grep: " + file + ": No such file\n" }

  // What the first grep prints of the file, or that there is none.
  function FirstOutput(files: map<string, string>, p: string, file: string): string
  {
    if file in files then Printed(p, files[file]) else NoSuchFile(file)
  }

  // What the second makes of as much of it as fits the pipe's 1024 bytes with their terminator.
  function PipeOutput(files: map<string, string>, r: Request): string
    requires r.Request?
  {
    Printed(r.second, Truncated(FirstOutput(files, r.first, r.file), 1024))
  }

  // The same in colour, the cells of both parts.
  function FirstCells(files: map<string, string>, p: string, file: string, attr: byte, bg: TermOutput.nibble): seq<Cell>
  {
    if file in files then PaintedGrep(p, files[file], attr, bg) else Tinted(NoSuchFile(file), attr)
  }

  function FirstLeaves(files: map<string, string>, p: string, file: string, attr: byte, bg: TermOutput.nibble): byte
  {
    if file in files then BehindGrep(p, files[file], attr, bg) else attr
  }

  function PipeCells(files: map<string, string>, r: Request, attr: byte, bg: TermOutput.nibble): seq<Cell>
    requires r.Request?
  {
    PaintedGrep(r.second, Truncated(FirstOutput(files, r.first, r.file), 1024),
                FirstLeaves(files, r.first, r.file, attr, bg), bg)
  }

  lemma CellsChars(files: map<string, string>, r: Request, attr: byte, bg: TermOutput.nibble)
    requires r.Request?
    ensures TermOutput.Chars(FirstCells(files, r.first, r.file, attr, bg)) == FirstOutput(files, r.first, r.file)
    ensures TermOutput.Chars(PipeCells(files, r, attr, bg)) == PipeOutput(files, r)
  {
    hide PaintedGrep, Printed, TermOutput.Chars;
    if r.file in files {
      GrepChars(r.first, files[r.file], attr, bg);
    } else {
      TintedChars(NoSuchFile(r.file), attr);
    }
    GrepChars(r.second, Truncated(FirstOutput(files, r.first, r.file), PIPE_SIZE),
              FirstLeaves(files, r.first, r.file, attr, bg), bg);
  }

  // Plain text without backspaces.
  predicate Clean(s: string) { Plain(s) && BACKSPACE !in s }

  lemma CleanConcat(a: string, b: string)
    requires Clean(a) && Clean(b)
    ensures Clean(a + b)
  {
  }

  lemma CleanConstants()
    ensures Clean("\n") && Clean(NO_MATCH) && Clean("grep: ") && Clean(": No such file\n")
  {
  }

  lemma CleanPart(s: string, i: nat, j: nat)
    requires Clean(s) && i <= j <= |s|
    ensures Clean(s[i..j])
  {
  }

  lemma {:induction false} JoinedClean(lines: seq<string>)
    requires forall k :: 0 <= k < |lines| ==> Clean(lines[k])
    ensures Clean(Joined(lines))
  {
    hide Clean;
    if lines == [] {
      CleanEmpty();
    } else {
      JoinedClean(lines[1..]);
      CleanConstants();
      CleanConcat(lines[0], "\n");
      CleanConcat(lines[0] + "\n", Joined(lines[1..]));
    }
  }

  lemma CleanEmpty()
    ensures Clean("")
  {
  }

  lemma {:induction false} LinesClean(s: string, start: nat, i: nat)
    requires Clean(s) && start <= i <= |s| + 1
    ensures forall k :: 0 <= k < |LinesFrom(s, start, i)| ==> Clean(LinesFrom(s, start, i)[k])
    decreases |s| + 1 - i
  {
    hide Clean;
    if i <= |s| {
      if i == |s| || s[i] == '\n' {
        CleanPart(s, start, i);
        LinesClean(s, i + 1, i + 1);
      } else {
        LinesClean(s, start, i + 1);
      }
    }
  }

  lemma {:induction false} SelectClean(pattern: string, lines: seq<string>)
    requires forall k :: 0 <= k < |lines| ==> Clean(lines[k])
    ensures forall k :: 0 <= k < |Select(pattern, lines)| ==> Clean(Select(pattern, lines)[k])
  {
    hide Has, Clean;
    if lines != [] {
      SelectClean(pattern, lines[1..]);
      CutClean(lines[0], LINE_SIZE);
    }
  }

  lemma CutClean(s: string, size: nat)
    requires Clean(s) && size > 0
    ensures Clean(Truncated(s, size))
  {
  }

  lemma PrintedClean(pattern: string, text: string)
    requires Clean(text)
    ensures Clean(Printed(pattern, text))
  {
    hide Clean, Select, Joined, LinesFrom;
    LinesClean(text, 0, 0);
    SelectClean(pattern, Lines(text));
    JoinedClean(Select(pattern, Lines(text)));
    CleanConstants();
  }

  lemma FirstClean(files: map<string, string>, p: string, file: string)
    requires Clean(file) && (file in files ==> Clean(files[file]))
    ensures Clean(FirstOutput(files, p, file))
  {
    hide Clean, Printed;
    if file in files {
      PrintedClean(p, files[file]);
    } else {
      CleanConstants();
      CleanConcat("grep: ", file);
      CleanConcat("grep: " + file, ": No such file\n");
    }
  }

  // The first grep, writing wherever the terminal writes.
  method FirstGrep(t: Terminal, files: map<string, string>, p: string, file: string)
    requires t.Valid() && Clean(file) && (file in files ==> Clean(files[file]))
    modifies t`row, t`col, t`pos, t`attr, t.video, t.buffer
    ensures t.Valid() && t.buffer == old(t.buffer) && t.attr == FirstLeaves(files, p, file, old(t.attr), t.bg)
    ensures Wrote(old(t.State()), t.State(), FirstCells(files, p, file, old(t.attr), t.bg))
  {
    hide Wrote, PaintedGrep, BehindGrep;
    if file in files {
      Grep(t, p, files[file]);
    } else {
      ghost var was, attr := t.State(), t.attr;
      WroteNothing(was);
      CleanConstants();
      WritePlain(t, "grep: ", was, []);
      WritePlain(t, file, was, [] + Tinted("grep: ", attr));
      WritePlain(t, ": No such file\n", was, [] + Tinted("grep: ", attr) + Tinted(file, attr));
      assert [] + Tinted("grep: ", attr) + Tinted(file, attr) + Tinted(": No such file\n", attr) == Tinted(NoSuchFile(file), attr);
    }
  }

  // The C string in a buffer.
  method ReadText(buffer: array<char>, ghost text: string) returns (r: string)
    requires |text| < buffer.Length && buffer[..|text|] == text && buffer[|text|] == '\0' && Clean(text)
    ensures r == text
  {
    assert forall k :: 0 <= k < |text| ==> buffer[..|text|][k] == buffer[k];
    var n := 0;
    while buffer[n] != '\0'
      invariant n <= |text|
      decreases |text| - n
    {
      n := n + 1;
    }
    r := buffer[..n];
  }

  lemma CaughtWhole(t: Term, r: Term, size: nat, cells: seq<Cell>)
    requires TermOutput.Sane(t) && t.capture == TermOutput.On("", size) && Wrote(t, r, cells) && Clean(TermOutput.Chars(cells))
    ensures r.capture == TermOutput.On(Truncated(TermOutput.Chars(cells), size), size)
  {
    hide Plain;
    TermOutput.CaughtPlain("", size, TermOutput.Chars(cells));
    assert "" + TermOutput.Chars(cells) == TermOutput.Chars(cells);
  }

  // Between the two greps the screen has kept its picture.
  lemma CaptureWroteNothing(t: Term, begun: Term, ended: Term, r: Term, size: nat, cells: seq<Cell>)
    requires TermOutput.Sane(t) && t.capture.Off? && size > 0
    requires begun == t.(capture := TermOutput.On("", size)) && Wrote(begun, ended, cells)
    requires r == ended.(capture := TermOutput.Off)
    ensures Wrote(t, r, [])
  {
    hide ShowsFrom;
    forall lines | lines != [] && Shows(t.screen, lines)
      ensures Shows(r.screen, PutAll(lines, []))
    {
      TermOutput.ColourKeepsPicture(t.screen, lines, r.screen.attr);
    }
  }

  // The command line run: the screen takes what the second grep makes of the first one's output.
  method RunPipe(t: Terminal, input: string, files: map<string, string>) returns (ran: bool)
    requires t.Valid() && t.buffer == null
    requires forall file :: file in files ==> Clean(files[file])
    requires ParsePipe(input).Request? ==> Clean(ParsePipe(input).file)
    modifies t`row, t`col, t`pos, t`attr, t`buffer, t`size, t.video
    ensures t.Valid() && t.buffer == null && ran == ParsePipe(input).Request?
    ensures ran ==> TermOutput.Chars(PipeCells(files, ParsePipe(input), old(t.attr), t.bg)) == PipeOutput(files, ParsePipe(input))
    ensures Wrote(old(t.State()), t.State(), if ran then PipeCells(files, ParsePipe(input), old(t.attr), t.bg) else [])
  {
    hide Wrote, Printed, Clean, ParsePipe, TermOutput.Sane, TermOutput.Chars, FirstOutput, FirstCells, FirstLeaves, PaintedGrep,
         BehindGrep;
    var request := ParsePipe(input);
    ghost var was, attr := t.State(), t.attr;
    WroteNothing(was);
    if request.Other? {
      return false;
    }
    ran := true;
    ghost var text := FirstOutput(files, request.first, request.file);
    ghost var cells := FirstCells(files, request.first, request.file, attr, t.bg);
    FirstClean(files, request.first, request.file);
    CellsChars(files, request, attr, t.bg);
    var buffer := new char[PIPE_SIZE](_ => '\0');
    t.CaptureBegin(buffer, PIPE_SIZE);
    ghost var begun := t.State();
    FirstGrep(t, files, request.first, request.file);
    ghost var ended := t.State();
    CaughtWhole(begun, ended, PIPE_SIZE, cells);
    t.CaptureEnd();
    CaptureWroteNothing(was, begun, ended, t.State(), PIPE_SIZE, cells);
    CutClean(text, PIPE_SIZE);
    var passed := ReadText(buffer, Truncated(text, PIPE_SIZE));
    ghost var between := t.State();
    CleanPlain(passed);
    Grep(t, request.second, passed);
    ghost var out := PipeCells(files, request, attr, t.bg);
    WroteMore(was, between, t.State(), [], out);
    assert [] + out == out;
  }

  lemma CleanPlain(s: string)
    requires Clean(s)
    ensures Plain(s)
  {
  }

  // The main result: typed with any blanks, over a file with lines of at most 255 characters of which
  // the first grep prints at most 1023 characters, the pipe prints exactly the lines with both
  // patterns, in order, or that there is no match.
  lemma PipeFindsBoth(files: map<string, string>, sp: Spacing, p: string, file: string, q: string)
    requires Word(p) && Word(file) && Word(q) && |p| <= 255 && |q| <= 255 && file in files
    requires forall k :: 0 <= k < |Lines(files[file])| ==> |Lines(files[file])[k]| < 256
    requires |Printed(p, files[file])| < 1024
    ensures var r := ParsePipe(Typed(sp, p, file, q));
      var both := Both(p, q, Lines(files[file]));
      r.Request? && PipeOutput(files, r) == if both == [] then "No matches found\n" else Joined(both)
  {
    hide ParsePipe, Typed, Printed, Both, LinesFrom;
    TypedReads(sp, p, file, q);
    PipePrintsBoth(p, q, files[file]);
  }
}
