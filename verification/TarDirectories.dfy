// The list of directories collected from an archive: every leading part of a name, each once, up to
// a hundred.
module TarDirectories {
  import opened CString
  import opened Slices
  import opened TarArchive
  import TarIndex

  const CAP: nat := 100
  const PATH_SIZE: nat := 256

  // ----- collecting -----

  function DropSlashes(s: string): (r: string)
    ensures r <= s && (r == "" || r[|r| - 1] != '/')
  {
    if s != "" && s[|s| - 1] == '/' then DropSlashes(s[..|s| - 1]) else s
  }

  // A path without a leading "./" and without slashes at its end.
  function Cleaned(s: string): string { DropSlashes(if "./" <= s then s[2..] else s) }

  function Add(dirs: seq<string>, s: string): (r: seq<string>)
    ensures dirs <= r
  {
    var t := Cleaned(Truncated(s, PATH_SIZE));
    if s == "" || |dirs| >= CAP || t == "" || t in dirs then dirs else dirs + [t]
  }

  // The parts of `s` before each slash from `i` on, then `s` itself.
  function AddParents(dirs: seq<string>, s: string, i: nat): (r: seq<string>)
    ensures dirs <= r
    decreases |s| - i
  {
    if i >= |s| then Add(dirs, s)
    else AddParents(if s[i] == '/' then Add(dirs, s[..i]) else dirs, s, i + 1)
  }

  predicate IsDirectory(e: Entry) { e.kind == '5' || e.kind == 'D' }

  function LastSlash(s: string): (r: int)
    ensures -1 <= r < |s| && (r >= 0 ==> s[r] == '/') && forall k :: r < k < |s| ==> s[k] != '/'
  {
    if s == "" then -1 else if s[|s| - 1] == '/' then |s| - 1 else LastSlash(s[..|s| - 1])
  }

  // What an entry contributes: a directory its whole name, a file what is before its last slash.
  function Path(e: Entry): string
  {
    if IsDirectory(e) then e.name else if LastSlash(e.name) >= 0 then e.name[..LastSlash(e.name)] else ""
  }

  function AddEntry(dirs: seq<string>, e: Entry): (r: seq<string>)
    ensures dirs <= r
  {
    if Path(e) == "" then dirs else AddParents(dirs, Truncated(Path(e), PATH_SIZE), 0)
  }

  function Collected(es: seq<Entry>): seq<string>
  {
    if es == [] then [] else AddEntry(Collected(es[..|es| - 1]), es[|es| - 1])
  }

  // ----- what the list should be -----

  // No empty component.
  predicate Clean(s: string)
  {
    s != "" && s[0] != '/' && forall k :: 0 <= k < |s| - 1 ==> !(s[k] == '/' && s[k + 1] == '/')
  }

  predicate Distinct(dirs: seq<string>) { forall i, j :: 0 <= i < j < |dirs| ==> dirs[i] != dirs[j] }

  // Every parent of a directory stands before it.
  predicate Closed(dirs: seq<string>)
  {
    forall i, k :: 0 <= i < |dirs| && 0 <= k < |dirs[i]| && dirs[i][k] == '/' ==> dirs[i][..k] in dirs[..i]
  }

  function Stripped(s: string): string { if |s| >= 2 && s[0] == '.' && s[1] == '/' then s[2..] else s }

  // A directory that an entry implies: what its name has before some slash, or for a directory's entry its name,
  // unless it ends in a slash; each without a leading "./".
  ghost predicate Implied(d: string, e: Entry)
  {
    || (exists i :: 0 <= i < |e.name| && e.name[i] == '/' && d == Stripped(e.name[..i]))
    || ((e.kind == '5' || e.kind == 'D') && e.name != "" && e.name[|e.name| - 1] != '/' && d == Stripped(e.name))
  }

  // The same of a path.
  ghost predicate PartOf(d: string, s: string)
  {
    || (exists i :: 0 <= i < |s| && s[i] == '/' && d == Stripped(s[..i]))
    || (s != "" && s[|s| - 1] != '/' && d == Stripped(s))
  }

  // ----- one path -----

  // What cleaning makes of a path without empty components: nothing of "./", and of any other the path
  // without its slash at the end and its leading "./".
  function Base(s: string): string { if s != "" && s[|s| - 1] == '/' then s[..|s| - 1] else s }

  lemma CleanedIs(s: string)
    requires Clean(s) && |s| < 256
    ensures Cleaned(Truncated(s, PATH_SIZE)) == (if s == "./" then "" else Stripped(Base(s))) && Stripped(Base(s)) != ""
  {
    var n := |s| - 1;
    var t := Base(s);
    assert s[n] == '/' ==> n > 0 && s[n - 1] != '/';
    assert t != "" && t[|t| - 1] != '/';
    var u := if "./" <= s then s[2..] else s;
    if s[n] == '/' && s != "./" {
      assert u[..|u| - 1] == Stripped(t) && DropSlashes(Stripped(t)) == Stripped(t);
    }
  }

  lemma CleanPrefix(s: string, i: nat)
    requires Clean(s) && i < |s| && s[i] == '/'
    ensures Clean(s[..i]) && Base(s[..i]) == s[..i] && s[..i] != "./"
  {
    var t := s[..i];
    assert i > 0 && s[i - 1] != '/';
    forall k | 0 <= k < |t| - 1
      ensures !(t[k] == '/' && t[k + 1] == '/')
    {
      assert !(s[k] == '/' && s[k + 1] == '/');
    }
  }

  // The parents of the path that have been passed are listed, or the list is full.
  predicate Passed(dirs: seq<string>, s: string, i: nat)
  {
    |dirs| >= CAP || forall j :: 0 <= j < i && j < |s| && s[j] == '/' ==> Stripped(s[..j]) in dirs
  }

  // The parents of what a leading part of the path stands for are what shorter ones stand for.
  lemma ParentsPassed(dirs: seq<string>, s: string, i: nat)
    requires i <= |s| && Passed(dirs, s, i)
    ensures var d := Stripped(s[..i]);
      |dirs| < CAP ==> forall k :: 0 <= k < |d| && d[k] == '/' ==> d[..k] in dirs
  {
    var t := s[..i];
    var d := Stripped(t);
    if |dirs| < CAP {
      forall k | 0 <= k < |d| && d[k] == '/'
        ensures d[..k] in dirs
      {
        var j := if d == t then k else k + 2;
        assert s[j] == '/' && Stripped(s[..j]) == d[..k];
      }
    }
  }

  lemma AddsDirectory(dirs: seq<string>, s: string, d: string)
    requires s != "" && Cleaned(Truncated(s, PATH_SIZE)) == d != "" && Distinct(dirs) && Closed(dirs)
    requires |dirs| < CAP ==> forall k :: 0 <= k < |d| && d[k] == '/' ==> d[..k] in dirs
    ensures Distinct(Add(dirs, s)) && Closed(Add(dirs, s))
    ensures |Add(dirs, s)| < CAP ==> d in Add(dirs, s)
    ensures forall x :: x in Add(dirs, s) ==> x in dirs || x == d
  {
    hide Cleaned;
    var r := Add(dirs, s);
    if |r| > |dirs| {
      forall i, k | 0 <= i < |r| && 0 <= k < |r[i]| && r[i][k] == '/'
        ensures r[i][..k] in r[..i]
      {
        if i < |dirs| {
          assert r[i] == dirs[i] && r[..i] == dirs[..i];
        } else {
          assert r[..i] == dirs;
        }
      }
    }
  }

  lemma {:induction false} ParentsAdded(dirs: seq<string>, s: string, i: nat)
    requires Clean(s) && |s| < 256 && i <= |s| && Distinct(dirs) && Closed(dirs) && Passed(dirs, s, i)
    ensures var r := AddParents(dirs, s, i);
      && Distinct(r) && Closed(r)
      && (|r| < CAP ==> forall d :: PartOf(d, s) ==> d in r)
      && (forall x :: x in r ==> x in dirs || PartOf(x, s))
    decreases |s| - i
  {
    hide Clean, Cleaned, Distinct, Closed, Add, Stripped, Truncated;
    if i == |s| {
      LastAdded(dirs, s);
    } else if s[i] == '/' {
      CleanPrefix(s, i);
      CleanedIs(s[..i]);
      ParentsPassed(dirs, s, i);
      AddsDirectory(dirs, s[..i], Stripped(s[..i]));
      assert PartOf(Stripped(s[..i]), s);
      ParentsAdded(Add(dirs, s[..i]), s, i + 1);
    } else {
      ParentsAdded(dirs, s, i + 1);
    }
  }

  lemma LastAdded(dirs: seq<string>, s: string)
    requires Clean(s) && |s| < 256 && Distinct(dirs) && Closed(dirs) && Passed(dirs, s, |s|)
    ensures var r := Add(dirs, s);
      && Distinct(r) && Closed(r)
      && (|r| < CAP ==> forall d :: PartOf(d, s) ==> d in r)
      && (forall x :: x in r ==> x in dirs || PartOf(x, s))
  {
    hide Clean, Cleaned, Distinct, Closed, Stripped, Truncated;
    var n := |Base(s)|;
    CleanedIs(s);
    assert s != "" by { NotEmpty(s); }
    assert s[..n] == Base(s);
    if s == "./" {
      assert Add(dirs, s) == dirs;
    } else {
      ParentsPassed(dirs, s, n);
      AddsDirectory(dirs, s, Stripped(Base(s)));
    }
    assert PartOf(Stripped(Base(s)), s) by {
      assert n < |s| ==> s[n] == '/';
      assert n == |s| ==> s[n - 1] != '/';
    }
  }

  lemma NotEmpty(s: string)
    requires Clean(s)
    ensures s != ""
  {
  }

  // ----- the whole archive -----

  // What the code walks of an entry's name is what the entry implies.
  lemma PathImplies(e: Entry)
    requires Clean(e.name) && |e.name| < 256
    ensures Path(e) != "" ==> Clean(Path(e)) && Truncated(Path(e), PATH_SIZE) == Path(e)
    ensures forall d :: Implied(d, e) <==> Path(e) != "" && PartOf(d, Path(e))
  {
    hide Clean, Stripped;
    var l, s := LastSlash(e.name), Path(e);
    if !IsDirectory(e) && l >= 0 {
      CleanPrefix(e.name, l);
      NotEmpty(s);
      assert s[|s| - 1] != '/';
      forall d
        ensures Implied(d, e) <==> PartOf(d, s)
      {
        assert forall i :: 0 <= i < l ==> e.name[..i] == s[..i] && e.name[i] == s[i];
      }
    }
    NotEmpty(e.name);
  }

  // The main result: no directory twice, parents before children even when the list is full, only
  // directories that some entry implies, and all of them while the list is not full.
  lemma {:induction false} CollectedExactly(es: seq<Entry>)
    requires forall e :: e in es ==> Clean(e.name) && |e.name| < 256
    ensures Distinct(Collected(es)) && Closed(Collected(es))
    ensures forall d :: d in Collected(es) ==> exists e :: e in es && Implied(d, e)
    ensures |Collected(es)| < 100 ==> forall d, e :: e in es && Implied(d, e) ==> d in Collected(es)
  {
    hide Clean, Distinct, Closed, PartOf, Implied, AddParents, Path;
    if es == [] {
      NothingCollected();
    } else {
      var n := |es| - 1;
      var rest, e := es[..n], es[n];
      assert forall x :: x in es <==> x in rest || x == e;
      CollectedExactly(rest);
      var dirs := Collected(rest);
      PathImplies(e);
      if Path(e) != "" {
        StartPassed(dirs, Path(e));
        ParentsAdded(dirs, Path(e), 0);
      }
    }
  }

  lemma NothingCollected()
    ensures Distinct([]) && Closed([])
  {
  }

  lemma StartPassed(dirs: seq<string>, s: string)
    ensures Passed(dirs, s, 0)
  {
  }

  lemma {:induction false} CollectedCapped(es: seq<Entry>)
    ensures |Collected(es)| <= 100
  {
    hide AddEntry;
    if es != [] {
      CollectedCapped(es[..|es| - 1]);
      EntryCapped(Collected(es[..|es| - 1]), es[|es| - 1]);
    }
  }

  lemma EntryCapped(dirs: seq<string>, e: Entry)
    requires |dirs| <= CAP
    ensures |AddEntry(dirs, e)| <= CAP
  {
    hide Add, Path;
    if Path(e) != "" {
      ParentsCapped(dirs, Truncated(Path(e), PATH_SIZE), 0);
    }
  }

  lemma {:induction false} ParentsCapped(dirs: seq<string>, s: string, i: nat)
    requires |dirs| <= CAP
    ensures |AddParents(dirs, s, i)| <= CAP
    decreases |s| - i
  {
    hide Cleaned;
    if i < |s| {
      ParentsCapped(if s[i] == '/' then Add(dirs, s[..i]) else dirs, s, i + 1);
    }
  }

  // ----- the table -----

  class Table {
    const paths: array<string>
    var count: nat

    ghost predicate Valid()
      reads this
    {
      paths.Length == CAP && count <= CAP
    }

    ghost function Dirs(): seq<string>
      requires Valid()
      reads this, paths
    {
      paths[..count]
    }

    constructor ()
      ensures Valid() && Dirs() == [] && fresh(paths)
    {
      paths := new string[CAP](_ => "");
      count := 0;
    }

    method AddDirectory(s: string)
      requires Valid()
      modifies this`count, paths
      ensures Valid() && Dirs() == Add(old(Dirs()), s)
    {
      if |s| == 0 || count >= CAP {
        return;
      }
      var t := Truncated(s, PATH_SIZE);
      if |t| >= 2 && t[0] == '.' && t[1] == '/' {
        t := t[2..];
      }
      t := TrimSlashes(t);
      if t == "" {
        return;
      }
      var i := 0;
      while i < count
        invariant i <= count && t !in paths[..i]
      {
        if paths[i] == t {
          return;
        }
        i := i + 1;
      }
      paths[count] := t;
      count := count + 1;
    }

    method AddParentDirectories(s: string)
      requires Valid()
      modifies this`count, paths
      ensures Valid() && Dirs() == if s == "" then old(Dirs()) else AddParents(old(Dirs()), Truncated(s, PATH_SIZE), 0)
    {
      hide Add;
      if |s| == 0 {
        return;
      }
      var t := Truncated(s, PATH_SIZE);
      var i := 0;
      while i < |t|
        invariant i <= |t| && Valid() && AddParents(Dirs(), t, i) == AddParents(old(Dirs()), t, 0)
      {
        if t[i] == '/' {
          AddDirectory(t[..i]);
        }
        i := i + 1;
      }
      AddDirectory(t);
    }

    // The walk over the archive.
    method Collect(a: string, ghost es: seq<Entry>)
      requires Valid() && Dirs() == [] && IsArchive(a, es)
      modifies this`count, paths
      ensures Valid() && Dirs() == Collected(es)
    {
      hide At, Offset, Stored, SizeOf, IsArchive, AddEntry;
      var p := 0;
      ghost var k := 0;
      TarIndex.ArchiveFits(a, es);
      Start(es);
      WalkAt(a, es, 0);
      while a[p] != NUL
        invariant k <= |es| && p == Offset(es, k) < |a| && (a[p] == NUL <==> k == |es|)
        invariant Valid() && Dirs() == Collected(es[..k])
        decreases |es| - k
      {
        WalkAt(a, es, k);
        assert es[..k + 1][..k] == es[..k];
        var name := TarIndex.ReadName(a, p, es[k].name);
        AddNamed(name, a[p + 156], es[k]);
        p := TarIndex.Step(a, p, es, k);
        k := k + 1;
        WalkAt(a, es, k);
      }
      assert es[..k] == es;
    }

    method AddNamed(name: string, kind: char, ghost e: Entry)
      requires Valid() && e.name == name && e.kind == kind && name != ""
      modifies this`count, paths
      ensures Valid() && Dirs() == AddEntry(old(Dirs()), e)
    {
      hide AddParents;
      if kind == '5' || kind == 'D' {
        AddParentDirectories(name);
      } else {
        var slash := FindLastSlash(name);
        if slash >= 0 {
          AddParentDirectories(name[..slash]);
        }
      }
    }
  }

  method TrimSlashes(s: string) returns (t: string)
    ensures t == DropSlashes(s)
  {
    t := s;
    while |t| > 0 && t[|t| - 1] == '/'
      invariant DropSlashes(t) == DropSlashes(s)
    {
      t := t[..|t| - 1];
    }
  }

  // strrchr for a slash.
  method FindLastSlash(s: string) returns (r: int)
    ensures r == LastSlash(s)
  {
    r := -1;
    for i := 0 to |s|
      invariant r == LastSlash(s[..i])
    {
      assert s[..i + 1][..i] == s[..i];
      if s[i] == '/' {
        r := i;
      }
    }
    assert s[..|s|] == s;
  }
}
