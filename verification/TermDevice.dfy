// The terminal as it runs: video memory changed and scrolled in place, and the capture buffer.
module TermDevice {
  import opened Bytes
  import opened CString
  import opened TermLayout
  import opened TermOutput

  class Terminal {
    const video: array<Cell>
    var row: nat
    var col: nat
    var attr: byte
    var bg: nibble
    var buffer: array?<char>
    var size: nat
    var pos: nat

    ghost predicate Valid()
      reads this, video, buffer
    {
      && video.Length == WIDTH * HEIGHT && row < HEIGHT && col < WIDTH
      && (buffer != null ==> pos < size <= buffer.Length && buffer[pos] == '\0')
    }

    ghost function Picture(): Screen
      reads this, video
    {
      TermLayout.Screen(video[..], row, col, attr)
    }

    ghost function State(): (t: Term)
      requires Valid()
      reads this, video, buffer
      ensures Sane(t)
    {
      Term(Picture(), bg, if buffer == null then Off else On(buffer[..pos], size))
    }

    constructor ()
      ensures Valid() && fresh(video) && State() == Term(Cleared(0x0F), 0, Off)
    {
      video := new Cell[WIDTH * HEIGHT];
      row, col, attr, bg := 0, 0, 0x0F, 0;
      buffer, size, pos := null, 0, 0;
      new;
      for i := 0 to video.Length
        invariant row < HEIGHT && col < WIDTH && buffer == null && row == 0 && col == 0 && attr == 0x0F && bg == 0
        invariant forall k :: 0 <= k < i ==> video[k] == Blank(0x0F)
      {
        video[i] := Blank(0x0F);
      }
      assert video[..] == Cleared(0x0F).cells;
    }

    // The buffer takes over if there is one with room for the terminator.
    method CaptureBegin(into: array?<char>, room: nat)
      requires Valid() && (into != null ==> room <= into.Length)
      modifies this`buffer, this`size, this`pos, into
      ensures Valid() && buffer == (if room > 0 then into else null)
      ensures State() == old(State()).(capture := if into != null && room > 0 then On("", room) else Off)
    {
      buffer := if room > 0 then into else null;
      size, pos := room, 0;
      if buffer != null {
        buffer[0] := '\0';
      }
    }

    // What was caught stays in the buffer as a C string.
    method CaptureEnd()
      requires Valid()
      modifies this`buffer, this`size, this`pos
      ensures Valid() && State() == old(State()).(capture := Off)
      ensures old(buffer) != null ==>
        var caught := old(State()).capture.text;
        |caught| < old(buffer).Length && old(buffer)[..|caught|] == caught && old(buffer)[|caught|] == '\0'
    {
      buffer, size, pos := null, 0, 0;
    }

    method PutChar(c: char)
      requires Valid() && Ascii(c)
      modifies this`row, this`col, this`pos, video, buffer
      ensures Valid() && State() == Char(old(State()), c) && buffer == old(buffer)
    {
      if buffer != null {
        CatchChar(c);
        return;
      }
      ghost var s := Picture();
      if c == '\n' {
        col, row := 0, row + 1;
      } else if c == BACKSPACE {
        if col > 0 {
          col := col - 1;
          video[row * WIDTH + col] := Blank(attr);
        }
      } else {
        video[row * WIDTH + col] := Cell(c, attr);
        col := col + 1;
      }
      assert Picture() == Moved(s, c);
      if col >= WIDTH {
        col, row := 0, row + 1;
      }
      assert Picture() == Wrapped(Moved(s, c));
      if row >= HEIGHT {
        Scroll();
        row := HEIGHT - 1;
      }
    }

    method CatchChar(c: char)
      requires Valid() && buffer != null
      modifies this`pos, buffer
      ensures Valid() && State() == Char(old(State()), c)
    {
      if c == BACKSPACE {
        if pos > 0 {
          pos := pos - 1;
        }
      } else if pos < size - 1 {
        buffer[pos] := c;
        pos := pos + 1;
      }
      buffer[pos] := '\0';
      assert buffer[..pos] == Caught(old(buffer[..pos]), size, c);
    }

    // Every row moves up one place, in place, and the last is blanked.
    method Scroll()
      requires video.Length == WIDTH * HEIGHT
      modifies video
      ensures video[..] == Scrolled(old(video[..]), attr)
    {
      for i := 0 to (HEIGHT - 1) * WIDTH
        invariant forall k :: 0 <= k < i ==> video[k] == old(video[k + WIDTH])
        invariant forall k :: i <= k < video.Length ==> video[k] == old(video[k])
      {
        video[i] := video[i + WIDTH];
      }
      for i := (HEIGHT - 1) * WIDTH to HEIGHT * WIDTH
        invariant forall k :: 0 <= k < (HEIGHT - 1) * WIDTH ==> video[k] == old(video[k + WIDTH])
        invariant forall k :: (HEIGHT - 1) * WIDTH <= k < i ==> video[k] == Blank(attr)
      {
        video[i] := Blank(attr);
      }
    }

    method WriteString(s: string)
      requires Valid() && forall k :: 0 <= k < |s| ==> Ascii(s[k])
      modifies this`row, this`col, this`pos, this`attr, video, buffer
      ensures Valid() && State() == Text(old(State()), s) && buffer == old(buffer)
    {
      hide Char, Coloured, AfterEscape, Sane;
      var i := 0;
      while i < |s|
        invariant i <= |s| && Valid() && buffer == old(buffer)
        invariant Text(State(), s[i..]) == Text(old(State()), s)
        decreases |s| - i
      {
        if s[i] == ESCAPE && i + 1 < |s| && s[i + 1] == '[' {
          i := WriteEscape(s, i);
        } else {
          ghost var t := State();
          PutChar(s[i]);
          assert s[i..][1..] == s[i + 1..];
          i := i + 1;
        }
      }
    }

    method WriteEscape(s: string, at: nat) returns (i: nat)
      requires Valid() && at + 1 < |s| && s[at] == ESCAPE && s[at + 1] == '['
      modifies this`attr
      ensures Valid() && at < i <= |s| && s[i..] == AfterEscape(s[at..])
      ensures State() == old(State()).(screen := old(State()).screen.(attr := Coloured(s[at..], old(attr), bg)))
    {
      hide DigitRun, AtoiFrom, IsColour, AfterM, AfterEscape, TermLayout.Cleared;
      var code;
      i, code := ReadNumber(s, at + 2);
      EscapeAt(s, at, i, code);
      if i < |s| && s[i] == 'm' {
        i := i + 1;
        if code == 0 { attr := 0x0F + 16 * bg; }
        else if code == 31 { attr := 0x04 + 16 * bg; }
        else if code == 32 { attr := 0x02 + 16 * bg; }
        else if code == 33 { attr := 0x0E + 16 * bg; }
        else if code == 36 { attr := 0x03 + 16 * bg; }
      } else {
        i := SkipM(s, i);
      }
    }
  }

  method ReadNumber(s: string, start: nat) returns (i: nat, code: int)
    requires start <= |s|
    ensures start <= i <= |s| && DigitRun(s[start..]) == i - start && AtoiFrom(s[start..], 0) == code
  {
    i, code := start, 0;
    while i < |s| && IsDigit(s[i])
      invariant start <= i <= |s|
      invariant AtoiFrom(s[start..], 0) == AtoiFrom(s[i..], code)
      invariant DigitRun(s[start..]) == i - start + DigitRun(s[i..])
    {
      assert s[i..][1..] == s[i + 1..];
      code := Wrap32(10 * code + DigitValue(s[i]));
      i := i + 1;
    }
  }

  method SkipM(s: string, start: nat) returns (i: nat)
    requires start <= |s|
    ensures start <= i <= |s| && s[i..] == AfterM(s[start..])
  {
    i := start;
    while i < |s| && s[i] != 'm'
      invariant start <= i <= |s| && AfterM(s[i..]) == AfterM(s[start..])
    {
      assert s[i..][1..] == s[i + 1..];
      i := i + 1;
    }
    if i < |s| && s[i] == 'm' {
      assert s[i..][1..] == s[i + 1..];
      i := i + 1;
    }
  }

  // The escape at `at`, `i` being the place after its digits and `code` their value.
  lemma EscapeAt(s: string, at: nat, i: nat, code: int)
    requires at + 1 < |s| && s[at] == ESCAPE && s[at + 1] == '[' && at + 2 <= i <= |s|
    requires DigitRun(s[at + 2..]) == i - at - 2 && AtoiFrom(s[at + 2..], 0) == code
    ensures IsColour(s[at..]) <==> i < |s| && s[i] == 'm'
    ensures AtoiFrom(s[at..][2..], 0) == code
    ensures AfterEscape(s[at..]) == if i < |s| && s[i] == 'm' then s[i + 1..] else AfterM(s[i..])
  {
    hide AfterM, DigitRun, AtoiFrom;
    var t := s[at..];
    assert t[2..] == s[at + 2..];
    assert t[2..][i - at - 2..] == s[i..];
  }
}
