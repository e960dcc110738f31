// What writing to the terminal does: characters and colour escapes, and the buffer that can take the
// output instead of the screen.
module TermOutput {
  import opened Bytes
  import opened CString
  import opened TermLayout

  // ----- escapes -----

  const ESCAPE: char := '\U{1B}'

  predicate Starts(s: string) { |s| >= 2 && s[0] == ESCAPE && s[1] == '[' }

  function DigitRun(s: string): (n: nat)
    ensures n <= |s| && (forall k :: 0 <= k < n ==> IsDigit(s[k])) && (n < |s| ==> !IsDigit(s[n]))
  {
    if s == "" || !IsDigit(s[0]) then 0 else 1 + DigitRun(s[1..])
  }

  function AfterM(s: string): (r: string)
    ensures |r| <= |s|
  {
    if s == "" then "" else if s[0] == 'm' then s[1..] else AfterM(s[1..])
  }

  // A colour escape is digits and an m; any other escape takes everything up to an m with it.
  predicate IsColour(s: string)
    requires Starts(s)
  {
    var n := DigitRun(s[2..]);
    n < |s| - 2 && s[2..][n] == 'm'
  }

  function AfterEscape(s: string): (r: string)
    requires Starts(s)
    ensures |r| < |s|
  {
    var n := DigitRun(s[2..]);
    if IsColour(s) then s[2..][n + 1..] else AfterM(s[2..][n..])
  }

  type nibble = n: nat | n < 16

  function Coloured(s: string, attr: byte, bg: nibble): byte
    requires Starts(s)
  {
    if !IsColour(s) then attr
    else
      match AtoiFrom(s[2..], 0)
      case 0 => 0x0F + 16 * bg
      case 31 => 0x04 + 16 * bg
      case 32 => 0x02 + 16 * bg
      case 33 => 0x0E + 16 * bg
      case 36 => 0x03 + 16 * bg
      case _ => attr
  }

  // The characters that reach the screen, each in the colour in force.
  function Painted(s: string, attr: byte, bg: nibble): seq<Cell>
    decreases |s|
  {
    if s == "" then []
    else if Starts(s) then Painted(AfterEscape(s), Coloured(s, attr, bg), bg)
    else [Cell(s[0], attr)] + Painted(s[1..], attr, bg)
  }

  // The colour in force behind them.
  function Left(s: string, attr: byte, bg: nibble): byte
    decreases |s|
  {
    if s == "" then attr
    else if Starts(s) then Left(AfterEscape(s), Coloured(s, attr, bg), bg)
    else Left(s[1..], attr, bg)
  }

  function Chars(cells: seq<Cell>): (text: string)
    ensures |text| == |cells|
  {
    seq(|cells|, i requires 0 <= i < |cells| => cells[i].c)
  }

  // ----- what an author writes -----

  // A character; a colour; or another escape: parameters in digits, something else, and so on up to an m.
  datatype Span = Glyph(c: char) | Colour(code: nat) | Other(digits: string, more: string)

  predicate Sensible(span: Span)
  {
    match span
    case Glyph(c) => c != '\U{1B}'
    case Colour(_) => true
    case Other(digits, more) =>
      (forall k :: 0 <= k < |digits| ==> IsDigit(digits[k])) && more != "" && !IsDigit(more[0]) && 'm' !in more
  }

  function Markup(span: Span): string
  {
    match span
    case Glyph(c) => [c]
    case Colour(code) => "\U{1B}[" + (Decimal(code) + "m")
    case Other(digits, more) => "\U{1B}[" + (digits + (more + "m"))
  }

  // White, red, green, yellow and cyan, over the background; other codes change nothing.
  function Chosen(code: int, attr: byte, bg: nibble): byte
  {
    if code == 0 then 15 + 16 * bg else if code == 31 then 4 + 16 * bg else if code == 32 then 2 + 16 * bg
    else if code == 33 then 14 + 16 * bg else if code == 36 then 3 + 16 * bg else attr
  }

  function MarkupAll(spans: seq<Span>): string
  {
    if spans == [] then "" else Markup(spans[0]) + MarkupAll(spans[1..])
  }

  // What is meant: the characters, each in the colour last chosen before it.
  function Meant(spans: seq<Span>, attr: byte, bg: nibble): seq<Cell>
  {
    if spans == [] then []
    else
      match spans[0]
      case Glyph(c) => [Cell(c, attr)] + Meant(spans[1..], attr, bg)
      case Colour(code) => Meant(spans[1..], Chosen(Wrap32(code), attr, bg), bg)
      case Other(_, _) => Meant(spans[1..], attr, bg)
  }

  lemma {:induction false} DigitsRun(digits: string, rest: string)
    requires (forall k :: 0 <= k < |digits| ==> IsDigit(digits[k])) && (rest != "" ==> !IsDigit(rest[0]))
    ensures DigitRun(digits + rest) == |digits|
    decreases |digits|
  {
    if digits == "" {
      assert digits + rest == rest;
    } else {
      assert (digits + rest)[1..] == digits[1..] + rest;
      DigitsRun(digits[1..], rest);
    }
  }

  lemma {:induction false} SkipsToM(more: string, rest: string)
    requires 'm' !in more
    ensures AfterM(more + ("m" + rest)) == rest
  {
    if more == "" {
      assert more + ("m" + rest) == "m" + rest && ("m" + rest)[1..] == rest;
    } else {
      assert (more + ("m" + rest))[1..] == more[1..] + ("m" + rest);
      SkipsToM(more[1..], rest);
    }
  }

  lemma {:induction false} DecimalDigits(n: nat)
    ensures forall k :: 0 <= k < |Decimal(n)| ==> IsDigit(Decimal(n)[k])
    decreases n
  {
    if n >= 10 {
      DecimalDigits(n / 10);
    }
  }

  lemma ColourTaken(code: nat, rest: string, attr: byte, bg: nibble)
    ensures var s := Markup(Colour(code)) + rest;
      Starts(s) && AfterEscape(s) == rest && Coloured(s, attr, bg) == Chosen(Wrap32(code), attr, bg)
  {
    hide Decimal, DigitRun, AtoiFrom, Wrap32;
    var d := Decimal(code);
    var s := Markup(Colour(code)) + rest;
    var t := d + ("m" + rest);
    assert s[2..] == t;
    DecimalDigits(code);
    DigitsRun(d, "m" + rest);
    assert t[|d|] == 'm' && t[|d| + 1..] == rest;
    NumberStops(code, "m" + rest);
  }

  lemma OtherTaken(digits: string, more: string, rest: string, attr: byte, bg: nibble)
    requires Sensible(Other(digits, more))
    ensures var s := Markup(Other(digits, more)) + rest;
      Starts(s) && AfterEscape(s) == rest && Coloured(s, attr, bg) == attr
  {
    hide DigitRun, AtoiFrom, AfterM;
    var s := Markup(Other(digits, more)) + rest;
    var t := digits + (more + ("m" + rest));
    assert s[2..] == t;
    DigitsRun(digits, more + ("m" + rest));
    assert t[|digits|] == more[0] && t[|digits|..] == more + ("m" + rest);
    SkipsToM(more, rest);
  }

  // Text with escapes is painted as its author means it.
  lemma {:induction false} PaintsMeaning(spans: seq<Span>, attr: byte, bg: nibble)
    requires forall k :: 0 <= k < |spans| ==> Sensible(spans[k])
    ensures Painted(MarkupAll(spans), attr, bg) == Meant(spans, attr, bg)
    decreases |spans|
  {
    hide Starts, AfterEscape, Coloured, Markup, Chosen, Sensible;
    if spans != [] {
      var rest := MarkupAll(spans[1..]);
      match spans[0]
      case Glyph(c) =>
        GlyphTaken(c, rest);
        PaintsMeaning(spans[1..], attr, bg);
      case Colour(code) =>
        ColourTaken(code, rest, attr, bg);
        PaintsMeaning(spans[1..], Chosen(Wrap32(code), attr, bg), bg);
      case Other(digits, more) =>
        OtherTaken(digits, more, rest, attr, bg);
        PaintsMeaning(spans[1..], attr, bg);
    }
  }

  lemma GlyphTaken(c: char, rest: string)
    ensures Sensible(Glyph(c)) ==> !Starts(Markup(Glyph(c)) + rest)
    ensures Markup(Glyph(c)) + rest != "" && (Markup(Glyph(c)) + rest)[0] == c && (Markup(Glyph(c)) + rest)[1..] == rest
  {
  }

  // ----- what output does -----

  datatype Capture = Off | On(text: string, size: nat)

  datatype Term = Term(screen: Screen, bg: nibble, capture: Capture)

  predicate Sane(t: Term) { Proper(t.screen) && (t.capture.On? ==> |t.capture.text| < t.capture.size) }

  // The buffer keeps what fits and leaves room for the terminator.
  function Caught(text: string, size: nat, c: char): (r: string)
    requires |text| < size
    ensures |r| < size
  {
    if c == BACKSPACE then if text != "" then text[..|text| - 1] else text
    else if |text| < size - 1 then text + [c]
    else text
  }

  function CaughtAll(text: string, size: nat, s: string): (r: string)
    requires |text| < size
    ensures |r| < size
    decreases |s|
  {
    if s == "" then text else CaughtAll(Caught(text, size, s[0]), size, s[1..])
  }

  function Char(t: Term, c: char): (r: Term)
    requires Sane(t)
    ensures Sane(r)
  {
    match t.capture
    case On(text, size) => t.(capture := On(Caught(text, size, c), size))
    case Off => t.(screen := Step(t.screen, c))
  }

  function Text(t: Term, s: string): (r: Term)
    requires Sane(t)
    ensures Sane(r)
    decreases |s|
  {
    if s == "" then t
    else if Starts(s) then
      Text(t.(screen := t.screen.(attr := Coloured(s, t.screen.attr, t.bg))), AfterEscape(s))
    else Text(Char(t, s[0]), s[1..])
  }

  // ----- and what it means -----

  lemma ColourKeepsPicture(s: Screen, lines: seq<Line>, attr: byte)
    requires lines != [] && Shows(s, lines)
    ensures Shows(s.(attr := attr), lines)
  {
    hide Place, Rows;
    var s' := s.(attr := attr);
    forall r: nat, c: nat | r < HEIGHT && c < WIDTH
      ensures Seen(At(s', r, c), Rows(lines), Top(Rows(lines)) + r, c)
    {
      assert Seen(At(s, r, c), Rows(lines), Top(Rows(lines)) + r, c);
    }
  }

  // Without capture the screen goes on showing the last 25 rows of all that is written.
  lemma {:induction false} TextShows(t: Term, lines: seq<Line>, s: string)
    requires Sane(t) && t.capture.Off? && lines != [] && Shows(t.screen, lines)
    ensures Text(t, s).capture.Off? && Shows(Text(t, s).screen, PutAll(lines, Painted(s, t.screen.attr, t.bg)))
    decreases |s|
  {
    hide ShowsFrom, Step, Put, AfterEscape, Coloured, Proper;
    if s != "" {
      if Starts(s) {
        var attr := Coloured(s, t.screen.attr, t.bg);
        ColourKeepsPicture(t.screen, lines, attr);
        TextShows(t.(screen := t.screen.(attr := attr)), lines, AfterEscape(s));
      } else {
        var x := Cell(s[0], t.screen.attr);
        StepShows(t.screen, lines, s[0]);
        TextShows(Char(t, s[0]), Put(lines, x), s[1..]);
        assert ([x] + Painted(s[1..], t.screen.attr, t.bg))[1..] == Painted(s[1..], t.screen.attr, t.bg);
      }
    }
  }

  // The colour in force behind a text, caught or not.
  lemma {:induction false} TextLeaves(t: Term, s: string)
    requires Sane(t)
    ensures Text(t, s).screen.attr == Left(s, t.screen.attr, t.bg) && Text(t, s).bg == t.bg
    ensures Text(t, s).capture.Off? == t.capture.Off?
    decreases |s|
  {
    hide AfterEscape, Coloured, Caught, Scrolled, Place;
    if s != "" {
      if Starts(s) {
        TextLeaves(t.(screen := t.screen.(attr := Coloured(s, t.screen.attr, t.bg))), AfterEscape(s));
      } else {
        TextLeaves(Char(t, s[0]), s[1..]);
      }
    }
  }

  function Texts(t: Term, list: seq<string>): (r: Term)
    requires Sane(t)
    ensures Sane(r)
  {
    if list == [] then t else Text(Texts(t, list[..|list| - 1]), list[|list| - 1])
  }

  function LeftAll(list: seq<string>, attr: byte, bg: nibble): byte
  {
    if list == [] then attr else Left(list[|list| - 1], LeftAll(list[..|list| - 1], attr, bg), bg)
  }

  // What was written string by string.
  function PaintedAll(list: seq<string>, attr: byte, bg: nibble): seq<Cell>
  {
    if list == [] then []
    else
      var n := |list| - 1;
      PaintedAll(list[..n], attr, bg) + Painted(list[n], LeftAll(list[..n], attr, bg), bg)
  }

  lemma {:induction false} PutAllConcat(lines: seq<Line>, a: seq<Cell>, b: seq<Cell>)
    requires lines != []
    ensures PutAll(lines, a + b) == PutAll(PutAll(lines, a), b)
    decreases |a|
  {
    hide Put;
    if a == [] {
      assert a + b == b;
    } else {
      assert (a + b)[1..] == a[1..] + b;
      PutAllConcat(Put(lines, a[0]), a[1..], b);
    }
  }

  // Over any number of writes since the screen was cleared.
  lemma {:induction false} SessionShows(attr: byte, bg: nibble, list: seq<string>)
    ensures var t := Texts(Term(Cleared(attr), bg, Off), list);
      && t.capture.Off? && t.screen.attr == LeftAll(list, attr, bg) && t.bg == bg
      && Shows(t.screen, PutAll([[]], PaintedAll(list, attr, bg)))
  {
    hide ShowsFrom, Cleared, Proper, Text, Painted, Left;
    ClearedShows(attr);
    ClearedAttr(attr);
    if list != [] {
      var n := |list| - 1;
      SessionShows(attr, bg, list[..n]);
      var t := Texts(Term(Cleared(attr), bg, Off), list[..n]);
      TextShows(t, PutAll([[]], PaintedAll(list[..n], attr, bg)), list[n]);
      TextLeaves(t, list[n]);
      PutAllConcat([[]], PaintedAll(list[..n], attr, bg), Painted(list[n], t.screen.attr, bg));
    }
  }

  lemma ClearedAttr(attr: byte)
    ensures Cleared(attr).attr == attr
  {
  }

  // With capture the screen keeps its cells and its cursor, and the buffer takes the characters.
  lemma {:induction false} TextCaught(t: Term, s: string)
    requires Sane(t) && t.capture.On?
    ensures var r := Text(t, s);
      && r.capture == On(CaughtAll(t.capture.text, t.capture.size, Chars(Painted(s, t.screen.attr, t.bg))), t.capture.size)
      && r.screen.(attr := t.screen.attr) == t.screen && r.bg == t.bg
    decreases |s|
  {
    hide AfterEscape, Coloured, Caught;
    if s != "" {
      if Starts(s) {
        TextCaught(t.(screen := t.screen.(attr := Coloured(s, t.screen.attr, t.bg))), AfterEscape(s));
      } else {
        TextCaught(Char(t, s[0]), s[1..]);
        var rest := Painted(s[1..], t.screen.attr, t.bg);
        assert Chars([Cell(s[0], t.screen.attr)] + rest)[1..] == Chars(rest);
      }
    }
  }

  // Text without backspaces is kept as far as it fits.
  lemma {:induction false} CaughtPlain(text: string, size: nat, s: string)
    requires |text| < size && BACKSPACE !in s
    ensures CaughtAll(text, size, s) == Truncated(text + s, size)
    decreases |s|
  {
    if s == "" {
      assert text + s == text;
    } else {
      CaughtPlain(Caught(text, size, s[0]), size, s[1..]);
      assert text + [s[0]] + s[1..] == text + s;
    }
  }

  // A backspace takes the last of them back.
  lemma CaughtBack(text: string, size: nat, s: string)
    requires |text| + |s| < size && s != "" && BACKSPACE !in s
    ensures CaughtAll(text, size, s + ['\U{8}']) == text + s[..|s| - 1]
  {
    CaughtSplit(text, size, s, ['\U{8}']);
    CaughtPlain(text, size, s);
    var kept := text + s;
    assert ['\U{8}'][1..] == "";
    assert CaughtAll(kept, size, ['\U{8}']) == CaughtAll(Caught(kept, size, '\U{8}'), size, "");
    assert kept[..|kept| - 1] == text + s[..|s| - 1];
  }

  lemma {:induction false} CaughtSplit(text: string, size: nat, a: string, b: string)
    requires |text| < size
    ensures CaughtAll(text, size, a + b) == CaughtAll(CaughtAll(text, size, a), size, b)
    decreases |a|
  {
    hide Caught;
    if a == "" {
      assert a + b == b;
    } else {
      assert (a + b)[1..] == a[1..] + b;
      CaughtSplit(Caught(text, size, a[0]), size, a[1..], b);
    }
  }

  // All that is on the screen, blanks included, and all that will be, is on the background.
  ghost predicate Backed(t: Term)
  {
    t.screen.attr / 16 == t.bg && forall k :: 0 <= k < |t.screen.cells| ==> t.screen.cells[k].attr / 16 == t.bg
  }

  lemma ColourBacked(s: string, attr: byte, bg: nibble)
    requires Starts(s) && attr / 16 == bg
    ensures Coloured(s, attr, bg) / 16 == bg
  {
  }

  lemma StepBacked(s: Screen, c: char, bg: nibble)
    requires Proper(s) && s.attr / 16 == bg && forall k :: 0 <= k < |s.cells| ==> s.cells[k].attr / 16 == bg
    ensures Step(s, c).attr == s.attr && forall k :: 0 <= k < |Step(s, c).cells| ==> Step(s, c).cells[k].attr / 16 == bg
  {
    hide Place;
    var m := Moved(s, c);
    assert forall k :: 0 <= k < |m.cells| ==> m.cells[k].attr / 16 == bg;
  }

  lemma {:induction false} TextBacked(t: Term, s: string)
    requires Sane(t) && Backed(t)
    ensures Backed(Text(t, s))
    decreases |s|
  {
    hide AfterEscape, Coloured, Caught, Step, Backed;
    if s != "" {
      if Starts(s) {
        var attr := Coloured(s, t.screen.attr, t.bg);
        Recoloured(t, s, attr);
        TextBacked(t.(screen := t.screen.(attr := attr)), AfterEscape(s));
      } else {
        CharBacked(t, s[0]);
        TextBacked(Char(t, s[0]), s[1..]);
      }
    }
  }

  lemma Recoloured(t: Term, s: string, attr: byte)
    requires Backed(t) && Starts(s) && attr == Coloured(s, t.screen.attr, t.bg)
    ensures Backed(t.(screen := t.screen.(attr := attr)))
  {
    hide Coloured;
    ColourBacked(s, t.screen.attr, t.bg);
  }

  lemma CharBacked(t: Term, c: char)
    requires Sane(t) && Backed(t)
    ensures Backed(Char(t, c))
  {
    hide Step, Caught;
    if t.capture.Off? {
      StepBacked(t.screen, c, t.bg);
    }
  }

  // Text without the escape character is shown as it is.
  lemma {:induction false} PaintedPlain(s: string, attr: byte, bg: nibble)
    requires ESCAPE !in s
    ensures Painted(s, attr, bg) == Tinted(s, attr) && Left(s, attr, bg) == attr
  {
    if s != "" {
      PaintedPlain(s[1..], attr, bg);
    }
  }
}
