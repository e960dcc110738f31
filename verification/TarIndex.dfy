// Looking things up in an archive: the loops that step from header to header.
module TarIndex {
  import opened CString
  import opened Slices
  import opened TarArchive

  // ----- which entry -----

  // What `tar_lookup` takes for the name: the name itself, or the name up to a space.
  predicate Matches(name: string, f: string) { name == f || f + " " <= name }

  function FirstMatch(es: seq<Entry>, f: string): (k: nat)
    ensures k <= |es| && (k < |es| ==> Matches(es[k].name, f)) && forall j :: 0 <= j < k ==> !Matches(es[j].name, f)
  {
    if es == [] || Matches(es[0].name, f) then 0 else 1 + FirstMatch(es[1..], f)
  }

  function FirstNamed(es: seq<Entry>, f: string): (k: nat)
    ensures k <= |es| && (k < |es| ==> es[k].name == f) && forall j :: 0 <= j < k ==> es[j].name != f
  {
    if es == [] || es[0].name == f then 0 else 1 + FirstNamed(es[1..], f)
  }

  // The two searches find the same entry, or both none, exactly if no entry before has the name and a
  // space in front.
  lemma SearchesAgree(es: seq<Entry>, f: string)
    ensures FirstMatch(es, f) == FirstNamed(es, f) <==>
      forall j :: 0 <= j < FirstNamed(es, f) ==> !(f + " " <= es[j].name)
  {
    var m, n := FirstMatch(es, f), FirstNamed(es, f);
    assert n < |es| ==> Matches(es[n].name, f);
  }

  lemma NoSpaceAgrees(es: seq<Entry>, f: string)
    requires forall e :: e in es ==> ' ' !in e.name
    ensures FirstMatch(es, f) == FirstNamed(es, f)
  {
    forall j | 0 <= j < |es|
      ensures !(f + " " <= es[j].name)
    {
      assert es[j] in es;
      SpaceInside(es[j].name, f);
    }
    SearchesAgree(es, f);
  }

  lemma SpaceInside(name: string, f: string)
    ensures f + " " <= name ==> ' ' in name
  {
    assert f + " " <= name ==> name[|f|] == (f + " ")[|f|];
  }

  // With spaces they need not: the first search stops at another file.
  lemma SpaceMisleads(x: Entry, y: Entry)
    requires x.name == "a b" && y.name == "a"
    ensures FirstMatch([x, y], "a") == 0 && FirstNamed([x, y], "a") == 1
  {
    assert "a" + " " <= x.name;
    assert [x, y][1..] == [y];
  }

  // ----- fields -----

  lemma OctalUnfolds(s: string, n: nat)
    ensures OctalFrom(s, n) == if s != "" && IsOctal(s[0]) then OctalFrom(s[1..], WithDigit(n, s[0])) else n
  {
  }

  method GetSize(a: string, at: nat, ghost field: string) returns (size: nat)
    requires |field| == 12 && At(a, at, field)
    ensures size == SizeOf(field)
  {
    hide OctalFrom, WithDigit;
    var i := 0;
    while i < 12 && a[at + i] == ' '
      invariant i <= 12 && SkipOnlySpaces(field[i..]) == SkipOnlySpaces(field)
    {
      AtElement(a, at, field, i);
      assert field[i..][1..] == field[i + 1..];
      i := i + 1;
    }
    size := 0;
    if i < 12 {
      AtElement(a, at, field, i);
    }
    assert field[i..] == SkipOnlySpaces(field);
    while i < 12 && IsOctal(a[at + i])
      invariant i <= 12 && OctalFrom(field[i..], size) == SizeOf(field)
    {
      AtElement(a, at, field, i);
      assert field[i..][1..] == field[i + 1..];
      OctalUnfolds(field[i..], size);
      size := WithDigit(size, a[at + i]);
      i := i + 1;
    }
    OctalUnfolds(field[i..], size);
    if i < 12 {
      AtElement(a, at, field, i);
    }
  }

  // strcmp of a header's name with a C string.
  method SameName(a: string, p: nat, f: string, ghost name: string) returns (same: bool)
    requires At(a, p, name) && p + |name| < |a| && a[p + |name|] == NUL && NUL !in name && NUL !in f
    ensures same <==> name == f
  {
    var i := 0;
    while i < |f| && a[p + i] == f[i]
      invariant i <= |f| && i <= |name| && f[..i] == name[..i]
      invariant p + i < |a|
    {
      if i < |name| {
        AtElement(a, p, name, i);
        assert f[..i + 1] == f[..i] + [f[i]] && name[..i + 1] == name[..i] + [name[i]];
      }
      i := i + 1;
    }
    if i < |name| {
      AtElement(a, p, name, i);
    }
    same := i == |f| && a[p + i] == NUL;
    assert same ==> f[..i] == f && name[..i] == name;
    assert name == f ==> i == |f|;
  }

  lemma MatchAgrees(name: string, f: string, i: nat)
    requires i < |f|
    ensures Matches(name, f) ==> i < |name| && name[i] == f[i]
  {
    assert f + " " <= name ==> name[i] == (f + " ")[i];
  }

  // The match loop of `tar_lookup`.
  method MatchesAt(a: string, p: nat, f: string, ghost name: string) returns (matched: bool)
    requires At(a, p, name) && p + |name| < |a| && a[p + |name|] == NUL && NUL !in name && NUL !in f
    ensures matched <==> Matches(name, f)
  {
    var i := 0;
    while i < |f|
      invariant i <= |f| && i <= |name| && f[..i] == name[..i]
    {
      if i < |name| {
        AtElement(a, p, name, i);
      }
      MatchAgrees(name, f, i);
      if a[p + i] != f[i] {
        return false;
      }
      i := i + 1;
    }
    assert f[..i] == f;
    if i < |name| {
      AtElement(a, p, name, i);
      assert f + " " <= name <==> name[..i + 1] == f + " ";
      assert name[..i + 1] == f + [name[i]];
    } else {
      assert name[..i] == name;
    }
    matched := a[p + i] == NUL || a[p + i] == ' ';
  }

  // From one header to the next.
  method Step(a: string, p: nat, ghost es: seq<Entry>, ghost k: nat) returns (next: nat)
    requires IsArchive(a, es) && k < |es| && p == Offset(es, k)
    ensures next == Offset(es, k + 1)
  {
    hide At, Offset, SizeOf, IsArchive;
    WalkAt(a, es, k);
    var size := GetSize(a, p + 124, es[k].size);
    next := p + ((size + 511) / 512 + 1) * 512;
  }

  // ----- the searches -----

  // The place of the data, or -1 for the null pointer.
  method Lookup(a: string, f: string, ghost es: seq<Entry>) returns (r: int)
    requires IsArchive(a, es) && NUL !in f
    ensures var k := FirstMatch(es, f);
      if k < |es| then r == Offset(es, k) + BLOCK && At(a, r as nat, es[k].data) else r == -1
  {
    hide At, Offset, Matches, Stored, SizeOf;
    var p := 0;
    ghost var k := 0;
    Start(es);
    WalkAt(a, es, 0);
    while a[p] != NUL
      invariant k <= |es| && p == Offset(es, k) < |a| && (a[p] == NUL <==> k == |es|)
      invariant forall j :: 0 <= j < k ==> !Matches(es[j].name, f)
      decreases |es| - k
    {
      WalkAt(a, es, k);
      var matched := MatchesAt(a, p, f, es[k].name);
      if matched {
        return p + BLOCK;
      }
      p := Step(a, p, es, k);
      k := k + 1;
      WalkAt(a, es, k);
    }
    r := -1;
  }

  // The size of a file, or -1 if there is none of that name.
  method FileSize(a: string, f: string, ghost es: seq<Entry>) returns (r: int)
    requires IsArchive(a, es) && NUL !in f
    ensures var k := FirstNamed(es, f);
      r == if k < |es| then Wrap32(|es[k].data|) else -1
  {
    hide At, Offset, Stored, SizeOf, Wrap32;
    var p := 0;
    ghost var k := 0;
    Start(es);
    WalkAt(a, es, 0);
    while a[p] != NUL
      invariant k <= |es| && p == Offset(es, k) < |a| && (a[p] == NUL <==> k == |es|)
      invariant forall j :: 0 <= j < k ==> es[j].name != f
      decreases |es| - k
    {
      WalkAt(a, es, k);
      var same := SameName(a, p, f, es[k].name);
      if same {
        var size := GetSize(a, p + 124, es[k].size);
        return Wrap32(size);
      }
      p := Step(a, p, es, k);
      k := k + 1;
      WalkAt(a, es, k);
    }
    r := -1;
  }

  // A reader that uses both, as the callers do: it gets the data of the first entry of that name.
  method ReadFile(a: string, f: string, ghost es: seq<Entry>) returns (found: bool, data: string)
    requires IsArchive(a, es) && NUL !in f
    requires forall e :: e in es ==> ' ' !in e.name && |e.data| < 0x8000_0000
    ensures var k := FirstNamed(es, f);
      found == (k < |es|) && data == if found then es[k].data else ""
  {
    hide Offset, Stored, SizeOf, IsArchive, Fit;
    NoSpaceAgrees(es, f);
    var at := Lookup(a, f, es);
    var size := FileSize(a, f, es);
    found := at >= 0;
    data := "";
    if found {
      ghost var k := FirstNamed(es, f);
      assert es[k] in es;
      data := a[at..at + size];
    }
  }

  // ----- the listing -----

  function NamesOf(es: seq<Entry>): (names: seq<string>)
    ensures |names| == |es| && forall k :: 0 <= k < |es| ==> names[k] == es[k].name
  {
    if es == [] then [] else [es[0].name] + NamesOf(es[1..])
  }

  // The walk visits every header, in order, and nothing else.
  method ListFiles(a: string, ghost es: seq<Entry>) returns (names: seq<string>)
    requires IsArchive(a, es)
    ensures names == NamesOf(es)
  {
    hide At, Offset, Stored, SizeOf, IsArchive;
    names := [];
    var p := 0;
    ghost var k := 0;
    ArchiveFits(a, es);
    Start(es);
    WalkAt(a, es, 0);
    while a[p] != NUL
      invariant k <= |es| && p == Offset(es, k) < |a| && (a[p] == NUL <==> k == |es|)
      invariant |names| == k && forall j :: 0 <= j < k ==> names[j] == es[j].name
      decreases |es| - k
    {
      WalkAt(a, es, k);
      var name := ReadName(a, p, es[k].name);
      names := names + [name];
      p := Step(a, p, es, k);
      k := k + 1;
      WalkAt(a, es, k);
    }
  }

  lemma ArchiveFits(a: string, es: seq<Entry>)
    requires IsArchive(a, es)
    ensures forall e :: e in es ==> Fit(e)
  {
  }

  // A C string out of a header.
  method ReadName(a: string, p: nat, ghost name: string) returns (r: string)
    requires At(a, p, name) && p + |name| < |a| && a[p + |name|] == NUL && NUL !in name
    ensures r == name
  {
    var n := 0;
    while a[p + n] != NUL
      invariant n <= |name|
      decreases |name| - n
    {
      n := n + 1;
      if n < |name| {
        AtElement(a, p, name, n);
      }
    }
    if n < |name| {
      AtElement(a, p, name, n);
    }
    r := a[p..p + n];
  }
}
