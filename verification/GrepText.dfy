// What grep prints of a text, and what a pipe of two greps prints.
module GrepText {
  import opened CString

  const LINE_SIZE: nat := 256
  const NO_MATCH := "No matches found\n"

  // ----- lines -----

  // The lines of `s` that end at or after place `i`, the one in progress having begun at `start`.
  function LinesFrom(s: string, start: nat, i: nat): (lines: seq<string>)
    requires start <= i <= |s| + 1
    ensures i <= |s| ==> lines != []
    decreases |s| + 1 - i
  {
    if i > |s| then []
    else if i == |s| || s[i] == '\n' then [s[start..i]] + LinesFrom(s, i + 1, i + 1)
    else LinesFrom(s, start, i + 1)
  }

  function Lines(s: string): seq<string> { LinesFrom(s, 0, 0) }

  predicate Has(line: string, pattern: string) { FindFrom(line, pattern, 0) >= 0 }

  // A line is cut to its buffer, and printed if it is not empty and what is left has the pattern.
  function Select(pattern: string, lines: seq<string>): seq<string>
  {
    if lines == [] then []
    else
      var l := Truncated(lines[0], LINE_SIZE);
      (if lines[0] != "" && Has(l, pattern) then [l] else []) + Select(pattern, lines[1..])
  }

  function Joined(lines: seq<string>): string
  {
    if lines == [] then "" else lines[0] + "\n" + Joined(lines[1..])
  }

  function Printed(pattern: string, text: string): string
  {
    var found := Select(pattern, Lines(text));
    if found == [] then NO_MATCH else Joined(found)
  }

  // ----- what a reader wants -----

  // The lines that are not empty and contain both patterns.
  function Both(p: string, q: string, lines: seq<string>): seq<string>
  {
    if lines == [] then []
    else
      (if lines[0] != "" && Has(lines[0], p) && Has(lines[0], q) then [lines[0]] else []) + Both(p, q, lines[1..])
  }

  // ----- and what the pipe gives -----

  predicate Whole(lines: seq<string>)
  {
    forall k :: 0 <= k < |lines| ==> lines[k] != "" && |lines[k]| < 256 && '\n' !in lines[k]
  }

  lemma {:induction false} LinesWhole(s: string, start: nat, i: nat)
    requires start <= i <= |s| + 1 && (forall k :: start <= k < i && k < |s| ==> s[k] != '\n')
    ensures forall k :: 0 <= k < |LinesFrom(s, start, i)| ==> '\n' !in LinesFrom(s, start, i)[k]
    decreases |s| + 1 - i
  {
    if i <= |s| {
      if i == |s| || s[i] == '\n' {
        LinesWhole(s, i + 1, i + 1);
      } else {
        LinesWhole(s, start, i + 1);
      }
    }
  }

  lemma {:induction false} SelectWhole(pattern: string, lines: seq<string>)
    requires forall k :: 0 <= k < |lines| ==> '\n' !in lines[k]
    ensures Whole(Select(pattern, lines))
  {
    hide Has;
    if lines != [] {
      SelectWhole(pattern, lines[1..]);
    }
  }

  // The lines of a text are those that newlines end, and what is left behind the last.
  lemma {:induction false} LinesJoined(before: string, lines: seq<string>, last: string)
    requires (forall k :: 0 <= k < |lines| ==> '\n' !in lines[k]) && '\n' !in last
    ensures LinesFrom(before + Joined(lines) + last, |before|, |before|) == lines + [last]
    decreases |lines|
  {
    var s := before + Joined(lines) + last;
    if lines == [] {
      assert s == before + last && s[|before|..] == last;
      LastLine(s, |before|, |before|);
    } else {
      var l := lines[0];
      var next := before + l + "\n";
      assert s == next + Joined(lines[1..]) + last;
      LineInside(s, |before|, |before|, l);
      LinesJoined(next, lines[1..], last);
      assert s[|before|..|before| + |l|] == l;
    }
  }

  lemma {:induction false} LastLine(s: string, start: nat, i: nat)
    requires start <= i <= |s| && '\n' !in s[start..]
    ensures LinesFrom(s, start, i) == [s[start..]]
    decreases |s| - i
  {
    if i == |s| {
      assert LinesFrom(s, |s| + 1, |s| + 1) == [];
      assert s[start..i] == s[start..];
    } else {
      assert s[i] == s[start..][i - start];
      LastLine(s, start, i + 1);
    }
  }

  lemma {:induction false} LineInside(s: string, start: nat, i: nat, l: string)
    requires start <= i <= start + |l| < |s| && s[start..start + |l|] == l && s[start + |l|] == '\n' && '\n' !in l
    ensures LinesFrom(s, start, i) == [l] + LinesFrom(s, start + |l| + 1, start + |l| + 1)
    decreases start + |l| - i
  {
    if i < start + |l| {
      assert s[i] == s[start..start + |l|][i - start] == l[i - start];
      assert l[i - start] in l;
      assert s[i] != '\n';
      LineInside(s, start, i + 1, l);
      assert LinesFrom(s, start, i) == LinesFrom(s, start, i + 1);
    } else {
      assert LinesFrom(s, start, i) == [s[start..i]] + LinesFrom(s, i + 1, i + 1);
    }
  }

  lemma {:induction false} SelectAppendEmpty(pattern: string, lines: seq<string>)
    ensures Select(pattern, lines + [""]) == Select(pattern, lines)
  {
    hide Has;
    if lines == [] {
      assert [""][1..] == [];
      assert lines + [""] == [""];
    } else {
      assert (lines + [""])[1..] == lines[1..] + [""];
      SelectAppendEmpty(pattern, lines[1..]);
    }
  }

  lemma {:induction false} SelectTwice(p: string, q: string, lines: seq<string>)
    requires forall k :: 0 <= k < |lines| ==> |lines[k]| < 256
    ensures Select(q, Select(p, lines)) == Both(p, q, lines)
  {
    hide Has;
    if lines != [] {
      SelectTwice(p, q, lines[1..]);
      var l := lines[0];
      if l != "" && Has(l, p) {
        assert Select(p, lines) == [l] + Select(p, lines[1..]);
        assert Select(p, lines)[1..] == Select(p, lines[1..]);
      } else {
        assert Select(p, lines) == Select(p, lines[1..]);
      }
    }
  }

  // Grep of what grep printed: of the lines the first selects, those the second selects.
  lemma PrintedTwice(p: string, q: string, text: string)
    requires Select(p, Lines(text)) != []
    ensures var found := Select(q, Select(p, Lines(text)));
      Printed(q, Printed(p, text)) == if found == [] then NO_MATCH else Joined(found)
  {
    hide Select, Joined, LinesFrom;
    LinesWhole(text, 0, 0);
    SelectWhole(p, Lines(text));
    var m := Select(p, Lines(text));
    LinesJoined("", m, "");
    assert "" + Joined(m) + "" == Joined(m);
    SelectAppendEmpty(q, m);
  }

  // If the first grep finds nothing, the second greps its message, and prints it in any case.
  lemma PrintedNothing(q: string)
    ensures Printed(q, NO_MATCH) == NO_MATCH
  {
    hide Has, LinesFrom;
    var l := NO_MATCH[..16];
    assert NO_MATCH == l + "\n";
    assert '\n' !in l;
    var m := [l];
    assert Whole(m);
    JoinedOne(l);
    LinesJoined("", m, "");
    assert "" + Joined(m) + "" == NO_MATCH;
    SelectAppendEmpty(q, m);
    SelectOne(q, l);
  }

  lemma JoinedOne(l: string)
    ensures Joined([l]) == l + "\n"
  {
    assert [l][1..] == [];
  }

  lemma SelectOne(q: string, l: string)
    requires l != "" && |l| < 256
    ensures Select(q, [l]) == if Has(l, q) then [l] else []
  {
    hide Has;
    assert [l][1..] == [];
  }

  lemma {:induction false} BothNone(p: string, q: string, lines: seq<string>)
    requires Select(p, lines) == [] && forall k :: 0 <= k < |lines| ==> |lines[k]| < 256
    ensures Both(p, q, lines) == []
  {
    hide Has;
    if lines != [] {
      BothNone(p, q, lines[1..]);
    }
  }

  // The pipe prints exactly the lines with both patterns, in order, or that there is no match, if no
  // line is longer than 255 characters.
  lemma PipePrintsBoth(p: string, q: string, text: string)
    requires forall k :: 0 <= k < |Lines(text)| ==> |Lines(text)[k]| < 256
    ensures var both := Both(p, q, Lines(text));
      Printed(q, Printed(p, text)) == if both == [] then "No matches found\n" else Joined(both)
  {
    hide Select, Joined, LinesFrom, Both;
    if Select(p, Lines(text)) == [] {
      PrintedNothing(q);
      BothNone(p, q, Lines(text));
    } else {
      PrintedTwice(p, q, text);
      SelectTwice(p, q, Lines(text));
    }
  }
}
