// The colours of what grep prints: every occurrence of the pattern in red.
module GrepPaint {
  import opened Bytes
  import opened CString
  import opened GrepText
  import opened TermLayout
  import opened TermOutput

  function RedOn(bg: nibble): byte { 4 + 16 * bg }

  function WhiteOn(bg: nibble): byte { 15 + 16 * bg }

  // The cells of a line, or of the rest of one: up to an occurrence in the colour in force, the occurrence in
  // red, and so on in white.
  function Marked(rest: string, pattern: string, attr: byte, bg: nibble): (cells: seq<Cell>)
    requires pattern != ""
    decreases |rest|
  {
    var m := FindFrom(rest, pattern, 0);
    if m < 0 then Tinted(rest, attr)
    else
      var end := m + |pattern|;
      Tinted(rest[..m], attr) + Tinted(rest[m..end], RedOn(bg)) + Marked(rest[end..], pattern, WhiteOn(bg), bg)
  }

  function MarkedLine(line: string, pattern: string, attr: byte, bg: nibble): seq<Cell>
  {
    if pattern == "" then Tinted(line, attr) else Marked(line, pattern, attr, bg)
  }

  // The colour in force behind a line.
  function Behind(line: string, pattern: string, attr: byte, bg: nibble): byte
  {
    if pattern != "" && Has(line, pattern) then WhiteOn(bg) else attr
  }

  function MarkedLines(lines: seq<string>, pattern: string, attr: byte, bg: nibble): seq<Cell>
  {
    if lines == [] then []
    else
      var after := Behind(lines[0], pattern, attr, bg);
      MarkedLine(lines[0], pattern, attr, bg) + [Cell('\n', after)] + MarkedLines(lines[1..], pattern, after, bg)
  }

  function BehindAll(lines: seq<string>, pattern: string, attr: byte, bg: nibble): byte
  {
    if lines == [] then attr else BehindAll(lines[1..], pattern, Behind(lines[0], pattern, attr, bg), bg)
  }

  // What `Printed` says, in colour.
  function PaintedGrep(pattern: string, text: string, attr: byte, bg: nibble): seq<Cell>
  {
    var found := Select(pattern, Lines(text));
    if found == [] then Tinted(NO_MATCH, attr) else MarkedLines(found, pattern, attr, bg)
  }

  function BehindGrep(pattern: string, text: string, attr: byte, bg: nibble): byte
  {
    BehindAll(Select(pattern, Lines(text)), pattern, attr, bg)
  }

  // ----- what is red -----

  // The places of the red stretches, `at` being where `rest` begins.
  function Hits(rest: string, pattern: string, at: nat): (hits: seq<nat>)
    requires pattern != ""
    ensures forall j :: 0 <= j < |hits| ==> at <= hits[j]
    decreases |rest|
  {
    var m := FindFrom(rest, pattern, 0);
    if m < 0 then [] else [at + m] + Hits(rest[m + |pattern|..], pattern, at + m + |pattern|)
  }

  // Place `k` lies in one of the stretches of length `n`.
  ghost predicate Covered(hits: seq<nat>, n: nat, k: nat) { exists j :: 0 <= j < |hits| && hits[j] <= k < hits[j] + n }

  lemma OccursShifted(line: string, at: nat, pattern: string, k: nat)
    requires at <= |line|
    ensures Occurs(line[at..], pattern, k) <==> Occurs(line, pattern, at + k)
  {
    if at + k + |pattern| <= |line| {
      assert line[at..][k..k + |pattern|] == line[at + k..at + k + |pattern|];
    }
  }

  // The first occurrence from place `at` on.
  lemma FirstHit(line: string, pattern: string, at: nat)
    requires pattern != "" && at <= |line|
    ensures var m := FindFrom(line[at..], pattern, 0);
      if m < 0 then forall k: nat :: at <= k ==> !Occurs(line, pattern, k)
      else
        var next := at + m + |pattern|;
        && next <= |line| && line[at..][m + |pattern|..] == line[next..] && Occurs(line, pattern, at + m)
        && forall k: nat :: at <= k < at + m ==> !Occurs(line, pattern, k)
  {
    hide FindFrom;
    forall k: nat | at <= k
      ensures Occurs(line, pattern, k) <==> Occurs(line[at..], pattern, k - at)
    {
      OccursShifted(line, at, pattern, k - at);
    }
  }

  // The stretches are occurrences of the pattern, in order and apart, and every occurrence from place `at` on
  // begins in one.
  ghost predicate Found(line: string, pattern: string, at: nat, hits: seq<nat>)
  {
    && (forall j :: 0 <= j < |hits| ==> Occurs(line, pattern, hits[j]))
    && (forall i, j :: 0 <= i < j < |hits| ==> hits[i] + |pattern| <= hits[j])
    && (forall k: nat :: at <= k && Occurs(line, pattern, k) ==> Covered(hits, |pattern|, k))
  }

  lemma FoundFirst(line: string, pattern: string, at: nat, first: nat, more: seq<nat>)
    requires Occurs(line, pattern, first) && Found(line, pattern, first + |pattern|, more)
    requires (forall j :: 0 <= j < |more| ==> first + |pattern| <= more[j])
    requires forall k: nat :: at <= k < first ==> !Occurs(line, pattern, k)
    ensures Found(line, pattern, at, [first] + more)
  {
    hide Occurs, Covered;
    var hits := [first] + more;
    forall k: nat | at <= k && Occurs(line, pattern, k)
      ensures Covered(hits, |pattern|, k)
    {
      CoveredFirst(first, more, |pattern|, k);
    }
    assert forall j :: 0 < j < |hits| ==> hits[j] == more[j - 1];
  }

  lemma {:induction false} HitsExact(line: string, pattern: string, at: nat)
    requires pattern != "" && at <= |line|
    ensures Found(line, pattern, at, Hits(line[at..], pattern, at))
    decreases |line| - at
  {
    hide FindFrom, Covered;
    FirstHit(line, pattern, at);
    var m := FindFrom(line[at..], pattern, 0);
    if m >= 0 {
      var next := at + m + |pattern|;
      HitsExact(line, pattern, next);
      FoundFirst(line, pattern, at, at + m, Hits(line[next..], pattern, next));
    }
  }

  lemma CoveredFirst(first: nat, more: seq<nat>, n: nat, k: nat)
    ensures Covered([first] + more, n, k) <==> first <= k < first + n || Covered(more, n, k)
  {
    var hits := [first] + more;
    if Covered(more, n, k) {
      var j :| 0 <= j < |more| && more[j] <= k < more[j] + n;
      assert hits[j + 1] == more[j];
    }
    if first <= k < first + n {
      assert hits[0] == first;
    }
  }

  // The colour of place `k`: red in an occurrence, white behind the first, and before it as it was.
  ghost function Shade(hits: seq<nat>, n: nat, k: nat, attr: byte, bg: nibble): byte
  {
    if Covered(hits, n, k) then RedOn(bg) else if hits != [] && k >= hits[0] then WhiteOn(bg) else attr
  }

  lemma ShadeFirst(first: nat, more: seq<nat>, n: nat, k: nat, attr: byte, bg: nibble)
    requires forall j :: 0 <= j < |more| ==> first + n <= more[j]
    ensures Shade([first] + more, n, k, attr, bg)
            == if k < first then attr else if k < first + n then RedOn(bg) else Shade(more, n, k, WhiteOn(bg), bg)
  {
    CoveredFirst(first, more, n, k);
  }

  // Character by character.
  lemma {:induction false} MarkedExact(rest: string, pattern: string, at: nat, attr: byte, bg: nibble)
    requires pattern != ""
    ensures |Marked(rest, pattern, attr, bg)| == |rest|
    ensures forall k :: 0 <= k < |rest| ==>
      Marked(rest, pattern, attr, bg)[k] == Cell(rest[k], Shade(Hits(rest, pattern, at), |pattern|, at + k, attr, bg))
    decreases |rest|
  {
    hide FindFrom, Shade, RedOn, WhiteOn;
    var m := FindFrom(rest, pattern, 0);
    var n := |pattern|;
    if m < 0 {
      forall k | 0 <= k < |rest|
        ensures Marked(rest, pattern, attr, bg)[k] == Cell(rest[k], Shade([], n, at + k, attr, bg))
      {
        NoHits(at + k, n, attr, bg);
      }
    } else {
      var end := m + n;
      MarkedExact(rest[end..], pattern, at + end, WhiteOn(bg), bg);
      var more := Hits(rest[end..], pattern, at + end);
      forall k | 0 <= k < |rest|
        ensures Marked(rest, pattern, attr, bg)[k] == Cell(rest[k], Shade([at + m] + more, n, at + k, attr, bg))
      {
        ShadeFirst(at + m, more, n, at + k, attr, bg);
        if k >= end {
          assert rest[k] == rest[end..][k - end];
        }
      }
    }
  }

  lemma NoHits(k: nat, n: nat, attr: byte, bg: nibble)
    ensures Shade([], n, k, attr, bg) == attr
  {
  }

  // ----- without the colours -----

  lemma MarkedChars(line: string, pattern: string, attr: byte, bg: nibble)
    ensures Chars(MarkedLine(line, pattern, attr, bg)) == line
  {
    if pattern != "" {
      MarkedExact(line, pattern, 0, attr, bg);
    }
  }

  lemma CharsConcat(a: seq<Cell>, b: seq<Cell>)
    ensures Chars(a + b) == Chars(a) + Chars(b)
  {
  }

  lemma {:induction false} LinesChars(lines: seq<string>, pattern: string, attr: byte, bg: nibble)
    ensures Chars(MarkedLines(lines, pattern, attr, bg)) == Joined(lines)
    decreases |lines|
  {
    hide Chars, MarkedLine, Behind;
    if lines != [] {
      var after := Behind(lines[0], pattern, attr, bg);
      var head, end := MarkedLine(lines[0], pattern, attr, bg), [Cell('\n', after)];
      MarkedChars(lines[0], pattern, attr, bg);
      LinesChars(lines[1..], pattern, after, bg);
      CharsConcat(head + end, MarkedLines(lines[1..], pattern, after, bg));
      CharsConcat(head, end);
      NewlineChars(after);
    } else {
      NoChars();
    }
  }

  lemma NewlineChars(attr: byte)
    ensures Chars([Cell('\n', attr)]) == "\n"
  {
  }

  lemma NoChars()
    ensures Chars([]) == ""
  {
  }

  lemma TintedChars(text: string, attr: byte)
    ensures Chars(Tinted(text, attr)) == text
  {
  }

  // The characters are those that `Printed` says.
  lemma GrepChars(pattern: string, text: string, attr: byte, bg: nibble)
    ensures Chars(PaintedGrep(pattern, text, attr, bg)) == Printed(pattern, text)
  {
    hide Chars, Select, MarkedLines, Joined, LinesFrom;
    var found := Select(pattern, Lines(text));
    TintedChars(NO_MATCH, attr);
    LinesChars(found, pattern, attr, bg);
  }

  lemma {:induction false} MarkedMore(a: seq<string>, b: seq<string>, pattern: string, attr: byte, bg: nibble)
    ensures MarkedLines(a + b, pattern, attr, bg)
            == MarkedLines(a, pattern, attr, bg) + MarkedLines(b, pattern, BehindAll(a, pattern, attr, bg), bg)
    ensures BehindAll(a + b, pattern, attr, bg) == BehindAll(b, pattern, BehindAll(a, pattern, attr, bg), bg)
    decreases |a|
  {
    hide MarkedLine, Behind;
    if a == [] {
      assert a + b == b;
    } else {
      assert (a + b)[1..] == a[1..] + b;
      MarkedMore(a[1..], b, pattern, Behind(a[0], pattern, attr, bg), bg);
    }
  }
}
