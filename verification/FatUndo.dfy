// Creating a file, writing to it and deleting it: exactly when that leaves the volume as it was.
module FatUndo {
  import opened Bytes
  import opened FatLayout
  import opened FatChains
  import opened FatContent
  import opened FatFrames
  import opened FatDirectory
  import opened FatVolume
  import opened FatFile
  import opened FatPen
  import opened FatScenarios
  import opened FatLookup
  import opened FatTree
  import opened FatStray
  import opened FatOps
  import opened FatHandles

  // ----- what a new entry does to later lookups -----

  // The entry that a create makes for `name` answers to `x`.
  predicate AnswersTo(name: Name, x: Name) { FatName(name)[0] != DELETED && NamesAgree(NameString(FatName(name)), x) }

  lemma NewSlotHits(name: Name, c: nat, x: Name)
    requires c < ENTRY_LIMIT
    ensures Hit(NewSlot(name, c), x) <==> AnswersTo(name, x)
  {
    hide FatName, NamesAgree, NameString;
    NewSlotFields(name, c);
    StoredNotFree(name);
    assert NewSlot(name, c)[0] == NewSlot(name, c)[..11][0];
  }

  lemma AnswersToItself(name: Name)
    requires name != [] && 0 !in name
    ensures AnswersTo(name, name) <==> Keepable(name)
  {
    hide NamesAgree, NameString, FatName;
    FoundAgainIff(name);
  }

  // Looking up `x` in directory `p` is the same after an entry for `name` went into slot `i`: the old
  // hit lies before the slot, or the new entry does not answer.
  ghost predicate Undisturbed(v: View, p: nat, name: Name, i: nat, x: Name)
    requires v.Sound() && HasHead(v.dirs, p)
  {
    var scan := ScanFrom(v.Dir(ChainAt(v.dirs, p)), x, 0);
    AnswersTo(name, x) ==> scan.Found? && scan.index < i
  }

  // The slots of the parent before and after.
  lemma CreatedSlots(v: View, v1: View, p: nat, name: Name, c: nat, i: nat)
    requires v.Sound() && v1.Sound() && HasHead(v.dirs, p) && HasHead(v1.dirs, p) && Created(v, v1, p, name, c, Some(i))
    ensures var was, now := v.Dir(ChainAt(v.dirs, p)), v1.Dir(ChainAt(v.dirs, p));
      && v1.dirs == v.dirs && c < ENTRY_LIMIT && |now| == |was| && 32 * i + 32 <= |was|
      && SlotAt(now, i) == NewSlot(name, c) && Unused(SlotAt(was, i))
      && (forall x: nat :: 32 * x + 32 <= |was| && x != i ==> SlotAt(now, x) == SlotAt(was, x))
      && (forall x: nat :: x < i ==> !Unused(SlotAt(was, x)))
  {
    hide View.Sound, Content, ClusterBytes, FatOf, FatFrame, DataFrame, ScanFrom, NewSlot, Patch, Abstracts;
    DirFacts(v, p);
    DirFacts(v1, p);
    var ch := ChainAt(v.dirs, p);
    SlotsOfPatch(v.Dir(ch), i, NewSlot(name, c));
    forall x: nat | x <= i
      ensures 32 * x + 32 <= |v.Dir(ch)| && SlotAt(v.Dir(ch), x) == SlotAt(ClusterBytes(v.g, v.d, p), x)
    {
      SlotInCluster(v.g, v.d, ch, 0, x);
      FirstSlotZero(v.g);
    }
  }

  lemma FirstSlotZero(g: Geometry)
    ensures g.FirstSlot(0) == 0
  {
  }

  // The slots before slot `n` are used, and the same in both: either the scan finds the same one of
  // them, or it goes on from slot `n`.
  lemma {:induction false} ScanSamePrefix(was: seq<byte>, now: seq<byte>, x: Name, n: nat, from: nat)
    requires |now| == |was| && 32 * n <= |was| && from <= n
    requires forall k: nat :: k < n ==> SlotAt(now, k) == SlotAt(was, k) && !Unused(SlotAt(was, k))
    ensures var a, b := ScanFrom(was, x, from), ScanFrom(now, x, from);
      || (a == b && a.Found? && a.index < n)
      || (a == ScanFrom(was, x, n) && b == ScanFrom(now, x, n))
    decreases n - from
  {
    if from < n {
      ScanSamePrefix(was, now, x, n, from + 1);
    }
  }

  lemma ScanOneSlot(s: seq<byte>, x: Name, i: nat)
    requires 32 * i + 32 <= |s|
    ensures var a := ScanFrom(s, x, i);
      && (a.Found? ==> a.index >= i)
      && (Terminator(SlotAt(s, i)) ==> a == Stopped)
      && (Hit(SlotAt(s, i), x) ==> a == Found(i))
      && (PassedOver(s, x, i) ==> a == ScanFrom(s, x, i + 1) && (a.Found? ==> a.index > i))
  {
    ScanMeaning(s, x, i);
    ScanMeaning(s, x, i + 1);
  }

  lemma {:induction false} ScanSameSuffix(was: seq<byte>, now: seq<byte>, x: Name, from: nat)
    requires |now| == |was| && forall k: nat :: k >= from && 32 * k + 32 <= |was| ==> SlotAt(now, k) == SlotAt(was, k)
    ensures ScanFrom(now, x, from) == ScanFrom(was, x, from)
    decreases |was| - 32 * from
  {
    if 32 * from + 32 <= |was| {
      ScanSameSuffix(was, now, x, from + 1);
    }
  }

  // Putting slot `s` in place of the unused slot `i`: what a scan for `x` then finds.
  lemma ScanWithNew(was: seq<byte>, now: seq<byte>, x: Name, i: nat, s: Slot)
    requires |now| == |was| && 32 * i + 32 <= |was| && SlotAt(now, i) == s && Unused(SlotAt(was, i)) && s[0] != 0
    requires forall k: nat :: 32 * k + 32 <= |was| && k != i ==> SlotAt(now, k) == SlotAt(was, k)
    requires forall k: nat :: k < i ==> !Unused(SlotAt(was, k))
    ensures var a, b := ScanFrom(was, x, 0), ScanFrom(now, x, 0);
      && (a.Found? ==> a.index != i)
      && (a.Found? && a.index < i ==> b == a)
      && (!(a.Found? && a.index < i) && Hit(s, x) ==> b == Found(i))
      && (a.Found? && a.index > i && !Hit(s, x) ==> b == a)
      && (!a.Found? && !Hit(s, x) ==> b.Found? ==> b.index != i)
  {
    hide ScanFrom, Hit;
    UnusedNoHit(SlotAt(was, i), x);
    ScanSamePrefix(was, now, x, i, 0);
    ScanOneSlot(was, x, i);
    ScanOneSlot(now, x, i);
    ScanSameSuffix(was, now, x, i + 1);
  }

  lemma UnusedNoHit(s: Slot, x: Name)
    ensures Unused(s) ==> !Hit(s, x)
  {
  }

  lemma EntryIsScan(v: View, p: nat, x: Name)
    requires v.Sound() && HasHead(v.dirs, p)
    ensures var d, scan := v.Dir(ChainAt(v.dirs, p)), ScanFrom(v.Dir(ChainAt(v.dirs, p)), x, 0);
      && (scan.Found? ==> 32 * scan.index + 32 <= |d| && Hit(SlotAt(d, scan.index), x))
      && EntryIn(v, p, x) == if scan.Found? then Some(SlotAt(d, scan.index)) else None
  {
    hide View.Sound, Content, Hit;
    DirFacts(v, p);
    ScanMeaning(v.Dir(ChainAt(v.dirs, p)), x, 0);
  }

  // No entry of a sound volume names a free cluster.
  lemma FreeUnnamed(v: View, ch: Chain, j: nat, c: nat)
    requires v.Sound() && ch in v.dirs && 32 * j + 32 <= |v.Dir(ch)| && v.g.InRange(c) && FatOf(v.g, v.d)[c] == FREE
    requires Visible(SlotAt(v.Dir(ch), j)) && !IsDirectory(SlotAt(v.Dir(ch), j))
    ensures SlotCluster(SlotAt(v.Dir(ch), j)) != c
  {
    hide Content, FatOf, Abstracts;
    if SlotCluster(SlotAt(v.Dir(ch), j)) == c {
      assert v.FileSlot(ch, j, c);
      FreeNoHead(v, c);
    }
  }

  lemma HeadUsed(v: View, some: set<Chain>, c: nat)
    requires v.Sound() && some <= v.cs && HasHead(some, c)
    ensures v.g.Ok(|v.d|) && v.g.InRange(c) && FatOf(v.g, v.d)[c] != FREE
  {
    hide Content, FatOf, Abstracts, View.Sound, IsChain;
    SoundIsChained(v);
    var ch := HeadChain(some, c);
    ChainedFacts(v, ch);
    ChainMembersUsed(FatOf(v.g, v.d), ch, ch[0]);
  }

  lemma FreeNoHead(v: View, c: nat)
    requires v.Sound() && v.g.InRange(c) && v.g.Ok(|v.d|) && FatOf(v.g, v.d)[c] == FREE
    ensures !HasHead(v.cs - v.dirs, c)
  {
    hide View.Sound, FatOf, HasHead;
    if HasHead(v.cs - v.dirs, c) {
      HeadUsed(v, v.cs - v.dirs, c);
    }
  }

  lemma CreatedCluster(v: View, v1: View, p: nat, name: Name, c: nat, i: nat)
    requires v.Sound() && v1.Sound() && HasHead(v.dirs, p) && HasHead(v1.dirs, p) && Created(v, v1, p, name, c, Some(i))
    ensures v.g.Ok(|v.d|) && v.g.InRange(c) && FatOf(v.g, v.d)[c] == FREE && v1.g == v.g && v1.dirs == v.dirs
    ensures v1.cs == v.cs + {[c]} && c < ENTRY_LIMIT
  {
    hide Content, ClusterBytes, FatOf, FatFrame, DataFrame, Abstracts, View.Sound, FirstUnused;
    SoundIsChained(v);
  }

  // Looking up `x` in the parent, before and after.
  lemma EntryAfter(v: View, v1: View, p: nat, name: Name, c: nat, i: nat, x: Name)
    requires v.Sound() && v1.Sound() && HasHead(v.dirs, p) && HasHead(v1.dirs, p) && Created(v, v1, p, name, c, Some(i))
    ensures c < ENTRY_LIMIT
    ensures !Undisturbed(v, p, name, i, x) ==> EntryIn(v1, p, x) == Some(NewSlot(name, c))
    ensures Undisturbed(v, p, name, i, x) && EntryIn(v, p, x).Some? ==> EntryIn(v1, p, x) == EntryIn(v, p, x)
    ensures Undisturbed(v, p, name, i, x) && EntryIn(v1, p, x).Some? && !IsDirectory(EntryIn(v1, p, x).value) ==>
      SlotCluster(EntryIn(v1, p, x).value) != c
  {
    hide View.Sound, Content, FatOf, ScanFrom, NewSlot, AnswersTo, SlotCluster, IsDirectory, EntryIn, Created, Unused, NamesAgree;
    DirFacts(v, p);
    DirFacts(v1, p);
    CreatedSlots(v, v1, p, name, c, i);
    CreatedCluster(v, v1, p, name, c, i);
    var ch := ChainAt(v.dirs, p);
    var was, now := v.Dir(ch), v1.Dir(ch);
    NewSlotHits(name, c, x);
    NewSlotStored(name, c);
    ScanWithNew(was, now, x, i, NewSlot(name, c));
    EntryIsScan(v, p, x);
    EntryIsScan(v1, p, x);
    var b := ScanFrom(now, x, 0);
    if b.Found? && b.index != i && !IsDirectory(SlotAt(was, b.index)) {
      FreeUnnamed(v, ch, b.index, c);
    }
  }

  lemma NewSlotStored(name: Name, c: nat)
    requires c < ENTRY_LIMIT
    ensures NewSlot(name, c)[0] != 0
  {
    hide FatName;
    StoredNotFree(name);
    NewSlotFields(name, c);
    assert NewSlot(name, c)[0] == NewSlot(name, c)[..11][0];
  }

  // ----- what it does to the way there -----

  // Wherever `path`, walked from `start`, passes through directory `p`, the component looked up there
  // is undisturbed.
  ghost predicate Clear(v: View, start: nat, p: nat, name: Name, i: nat, path: seq<Name>)
    requires v.Sound() && HasHead(v.dirs, start) && HasHead(v.dirs, p)
  {
    forall k :: 0 <= k < |path| && Walk(v, start, path[..k]) == Some(p) ==> Undisturbed(v, p, name, i, path[k])
  }

  lemma ClearStep(v: View, start: nat, p: nat, name: Name, i: nat, path: seq<Name>, next: nat)
    requires v.Sound() && HasHead(v.dirs, start) && HasHead(v.dirs, p) && path != [] && HasHead(v.dirs, next)
    requires EntryIn(v, start, path[0]).Some? && IsDirectory(EntryIn(v, start, path[0]).value)
    requires next == SlotCluster(EntryIn(v, start, path[0]).value)
    ensures Clear(v, start, p, name, i, path)
            <==> (start == p ==> Undisturbed(v, p, name, i, path[0])) && Clear(v, next, p, name, i, path[1..])
  {
    hide View.Sound, Undisturbed, EntryIn, IsDirectory, SlotCluster, HasHead;
    assert path[..0] == [] && Walk(v, start, []) == Some(start);
    forall k | 0 <= k < |path[1..]|
      ensures Walk(v, start, path[..k + 1]) == Walk(v, next, path[1..][..k]) && path[1..][k] == path[k + 1]
    {
      assert path[..k + 1][1..] == path[1..][..k];
    }
    if Clear(v, start, p, name, i, path) {
      forall k | 0 <= k < |path[1..]| && Walk(v, next, path[1..][..k]) == Some(p)
        ensures Undisturbed(v, p, name, i, path[1..][k])
      {
        assert Walk(v, start, path[..k + 1]) == Some(p);
      }
    }
    if (start == p ==> Undisturbed(v, p, name, i, path[0])) && Clear(v, next, p, name, i, path[1..]) {
      forall k | 0 <= k < |path| && Walk(v, start, path[..k]) == Some(p)
        ensures Undisturbed(v, p, name, i, path[k])
      {
        if k > 0 {
          assert Walk(v, next, path[1..][..k - 1]) == Some(p);
        }
      }
    }
  }

  lemma EntryKept(v: View, v': View, c: nat, x: Name)
    requires v.Sound() && v'.Sound() && HasHead(v.dirs, c) && v'.dirs == v.dirs
    requires v'.Dir(ChainAt(v.dirs, c)) == v.Dir(ChainAt(v.dirs, c))
    ensures EntryIn(v', c, x) == EntryIn(v, c, x)
  {
  }

  // A create changes no directory but the parent.
  lemma CreatedOthers(v: View, v1: View, p: nat, name: Name, c: nat, i: nat, x: nat)
    requires v.Sound() && v1.Sound() && HasHead(v.dirs, p) && HasHead(v1.dirs, p) && v1.dirs == v.dirs
    requires Created(v, v1, p, name, c, Some(i)) && HasHead(v.dirs, x) && x != p
    ensures v1.Dir(ChainAt(v.dirs, x)) == v.Dir(ChainAt(v.dirs, x))
  {
    hide Content, ClusterBytes, FatOf, FatFrame, DataFrame, NewSlot, Patch, Abstracts, FirstUnused;
    DirFacts(v, x);
    DirFacts(v, p);
    OtherChain(v, ChainAt(v.dirs, x), ChainAt(v.dirs, p), p);
    ContentKept(v.g, v.d, v1.d, [p], ChainAt(v.dirs, x));
  }

  lemma NewIsFile(name: Name, c: nat)
    requires c < ENTRY_LIMIT
    ensures !IsDirectory(NewSlot(name, c)) && SlotCluster(NewSlot(name, c)) == c
  {
    NewSlotFields(name, c);
  }

  // The walk to the parent leads there still, or nowhere.
  lemma {:induction false} WalkAfter(v: View, v1: View, p: nat, name: Name, c: nat, i: nat, start: nat, path: seq<Name>)
    requires v.Sound() && v1.Sound() && HasHead(v.dirs, p) && HasHead(v1.dirs, p) && v1.dirs == v.dirs
    requires Created(v, v1, p, name, c, Some(i)) && HasHead(v.dirs, start) && Walk(v, start, path).Some?
    ensures Walk(v1, start, path) == if Clear(v, start, p, name, i, path) then Walk(v, start, path) else None
    decreases |path|
  {
    hide View.Sound, View.Chained, EntryIn, Content, HasHead, Created, Undisturbed, IsDirectory, SlotCluster, NewSlot, Clear;
    if path == [] {
      ClearNothing(v, start, p, name, i);
    } else {
      var next := SlotCluster(EntryIn(v, start, path[0]).value);
      ClearStep(v, start, p, name, i, path, next);
      if start == p {
        EntryAfter(v, v1, p, name, c, i, path[0]);
        NewIsFile(name, c);
      } else {
        CreatedOthers(v, v1, p, name, c, i, start);
        EntryKept(v, v1, start, path[0]);
      }
      WalkAfter(v, v1, p, name, c, i, next, path[1..]);
    }
  }

  lemma ClearNothing(v: View, start: nat, p: nat, name: Name, i: nat)
    requires v.Sound() && HasHead(v.dirs, start) && HasHead(v.dirs, p)
    ensures Clear(v, start, p, name, i, [])
  {
  }

  // The path leads to the new entry exactly if the entry answers to its own name and the way there is
  // clear of it; otherwise it leads to no entry that names the new cluster.
  lemma CreatedLookup(v: View, v1: View, path: seq<Name>, c: nat, i: nat)
    requires v.Sound() && v1.Sound() && path != [] && Parent(v, path).Some? && Lookup(v, path).None?
    requires HasHead(v1.dirs, Parent(v, path).value) && path[|path| - 1] != [] && 0 !in path[|path| - 1]
    requires Created(v, v1, Parent(v, path).value, path[|path| - 1], c, Some(i))
    ensures c < ENTRY_LIMIT && HasHead(v.dirs, v.g.rootCluster)
    ensures if Keepable(path[|path| - 1]) && Clear(v, v.g.rootCluster, Parent(v, path).value, path[|path| - 1], i, path[..|path| - 1])
            then Parent(v1, path) == Parent(v, path) && Lookup(v1, path) == Some(NewSlot(path[|path| - 1], c))
            else Lookup(v1, path).Some? && !IsDirectory(Lookup(v1, path).value) ==> SlotCluster(Lookup(v1, path).value) != c
  {
    hide Content, FatOf, View.Sound, View.Chained, HasHead, EntryIn, Walk, Created, Clear, IsDirectory, SlotCluster, NewSlot,
         Keepable, AnswersTo, ScanFrom;
    var p, name := Parent(v, path).value, path[|path| - 1];
    CreatedCluster(v, v1, p, name, c, i);
    RootIsDir(v);
    WalkAfter(v, v1, p, name, c, i, v.g.rootCluster, path[..|path| - 1]);
    EntryAfter(v, v1, p, name, c, i, name);
    EntryIsScan(v, p, name);
    AnswersToItself(name);
  }

  // ----- create, write, delete -----

  // Views with the same directories lead every path to the same entry.
  lemma LookupKept(v: View, v': View, path: seq<Name>)
    requires v.Sound() && v'.Sound() && v'.g == v.g && v'.dirs == v.dirs && path != []
    requires forall x :: x in v.dirs ==> v'.Dir(x) == v.Dir(x)
    ensures Parent(v', path) == Parent(v, path) && Lookup(v', path) == Lookup(v, path)
  {
    hide Content, Abstracts, View.Sound, View.Chained, HasHead, EntryIn, Walk;
    RootIsDir(v);
    WalkSame(v, v', v.g.rootCluster, path[..|path| - 1]);
    if Parent(v, path).Some? {
      DirSame(v, v', Parent(v, path).value);
      EntryKept(v, v', Parent(v, path).value, path[|path| - 1]);
    }
  }

  lemma DirSame(v: View, v': View, c: nat)
    requires v.Sound() && v'.Sound() && v'.dirs == v.dirs && HasHead(v.dirs, c)
    requires forall x :: x in v.dirs ==> v'.Dir(x) == v.Dir(x)
    ensures v'.Dir(ChainAt(v.dirs, c)) == v.Dir(ChainAt(v.dirs, c))
  {
  }

  lemma {:induction false} WalkSame(v: View, v': View, c: nat, path: seq<Name>)
    requires v.Sound() && v'.Sound() && v'.g == v.g && v'.dirs == v.dirs && HasHead(v.dirs, c)
    requires forall x :: x in v.dirs ==> v'.Dir(x) == v.Dir(x)
    ensures Walk(v', c, path) == Walk(v, c, path)
    decreases |path|
  {
    hide Content, Abstracts, View.Sound, View.Chained, HasHead, EntryIn;
    if path != [] {
      DirSame(v, v', c);
      EntryKept(v, v', c, path[0]);
      var e := EntryIn(v, c, path[0]);
      if e.Some? && IsDirectory(e.value) {
        WalkSame(v, v', SlotCluster(e.value), path[1..]);
      }
    }
  }

  lemma RemovedShape(v: View, v': View, parent: nat, name: Name, file: Chain)
    requires v.Sound() && v'.Sound() && HasHead(v.dirs, parent) && Removed(v, v', parent, name)
    requires SlotCluster(EntryIn(v, parent, name).value) != 0
    requires file == ChainAt(v.cs - v.dirs, SlotCluster(EntryIn(v, parent, name).value))
    ensures v'.g == v.g && v'.dirs == v.dirs && v.g.Ok(|v.d|) && v.g.Ok(|v'.d|) && v'.cs == v.cs - {file}
    ensures FatOf(v.g, v'.d) == Freed(FatOf(v.g, v.d), file) && FatFrame(v.g, v.d, v'.d, file)
  {
    hide Content, FatOf, FatFrame, Abstracts, Freed, ScanFrom, EntryIn;
    SoundIsChained(v);
    SoundIsChained(v');
  }

  // Taking free clusters, using them as one chain and freeing it again restores the FAT.
  lemma FatRestored(g: Geometry, d: Disk, d1: Disk, d2: Disk, d3: Disk, c: nat, ch: Chain)
    requires g.Ok(|d|) && g.InRange(c) && FatOf(g, d)[c] == FREE && FatFrame(g, d, d1, [c])
    requires |d1| == |d| && FatOf(g, d1) == FatOf(g, d)[c := END_OF_CHAIN]
    requires [c] <= ch && FatFrame(g, d1, d2, ch[0..])
    requires forall i :: 1 <= i < |ch| ==> 2 <= ch[i] < |FatOf(g, d1)| && FatOf(g, d1)[ch[i]] == FREE
    requires |d2| == |d| && |d3| == |d| && FatOf(g, d3) == Freed(FatOf(g, d2), ch) && FatFrame(g, d2, d3, ch)
    ensures forall l :: 0 <= l < g.partitionStart + g.dataStart && l < |d| ==> d3[l] == d[l]
  {
    hide RawEntry, MetaFrame, FatFrame, Geometry.Ok, Low28;
    assert ch[0] == c && ch[0..] == ch;
    FatFrameTrans(g, d, d1, d2, [c], ch, ch);
    FatFrameTrans(g, d, d2, d3, ch, ch, ch);
    forall x | x in ch
      ensures g.InRange(x) && Low28(RawEntry(g, d3, x)) == Low28(RawEntry(g, d, x))
    {
      var i :| 0 <= i < |ch| && ch[i] == x;
      assert i > 0 ==> FatOf(g, d1)[ch[i]] == FREE;
      assert FatOf(g, d)[x] == FREE && FatOf(g, d3)[x] == FREE;
    }
    FrontRestored(g, d, d3, ch);
  }

  // The path will lead to the entry that a create puts into slot `i` of the parent.
  ghost predicate LeadsBack(v: View, path: seq<Name>, i: nat)
    requires v.Sound() && path != []
  {
    && Parent(v, path).Some? && HasHead(v.dirs, v.g.rootCluster) && Keepable(path[|path| - 1])
    && Clear(v, v.g.rootCluster, Parent(v, path).value, path[|path| - 1], i, path[..|path| - 1])
  }

  // The chains are the old ones, and no byte of the reserved sectors and the FATs differs.
  ghost predicate Restored(v: View, v': View)
  {
    && v'.g == v.g && v'.cs == v.cs && v'.dirs == v.dirs && |v'.d| == |v.d|
    && forall l :: 0 <= l < v.g.partitionStart + v.g.dataStart && l < |v.d| ==> v'.d[l] == v.d[l]
  }

  lemma WroteShape(v: View, v': View, ch0: Chain, ch: Chain)
    requires v.Sound() && v'.Sound() && Wrote(v, v', ch0, ch)
    ensures v'.g == v.g && v'.dirs == v.dirs && ch0 in v.cs - v.dirs && ch0 != [] && ch0 <= ch
    ensures v'.cs == v.cs - {ch0} + {ch} && ch in v'.cs - v'.dirs && v.g.Ok(|v.d|) && v.g.Ok(|v'.d|)
    ensures FatFrame(v.g, v.d, v'.d, ch[|ch0| - 1..])
    ensures forall i :: |ch0| <= i < |ch| ==> 2 <= ch[i] < |FatOf(v.g, v.d)| && FatOf(v.g, v.d)[ch[i]] == FREE
    ensures forall x :: x in v.dirs ==> v'.Dir(x) == v.Dir(x)
  {
    hide Content, FatOf, FatFrame, Abstracts;
  }

  // A write that leaves the directories and the one-cluster chain at `c` alone.
  ghost predicate Beside(v: View, v': View, c: nat)
    requires v.Sound() && v'.Sound()
  {
    v'.g == v.g && v'.dirs == v.dirs && [c] in v'.cs && forall x :: x in v.dirs ==> v'.Dir(x) == v.Dir(x)
  }

  lemma ThroughOther(v: View, v': View, x: nat, x': nat, buf: seq<byte>, n: int, c: nat)
    requires v.Sound() && v'.Sound() && v.g.Ok(|v.d|) && Through(v, v', x, x', buf, n) && [c] in v.cs - v.dirs && x != c
    ensures Beside(v, v', c)
  {
    hide View.Sound, Wrote, SameVolume, Stray, Content, FatOf;
    if Stray(v.g, v.d, x) {
      SameSound(v, v'.d);
      DirsKnown(v);
    } else {
      var ch0, ch :| x in ch0 && x' in ch && Wrote(v, v', ch0, ch);
      WroteShape(v, v', ch0, ch);
      assert ch0 != [c];
    }
  }

  // If the path leads to another entry than the new one, the new cluster's chain outlives the delete.
  lemma StaysBehind(v1: View, v2: View, v': View, path: seq<Name>, c: nat)
    requires v1.Sound() && v2.Sound() && v'.Sound() && path != [] && [c] in v1.cs - v1.dirs
    requires Lookup(v1, path).Some? && !IsDirectory(Lookup(v1, path).value) ==> SlotCluster(Lookup(v1, path).value) != c
    requires v2 == v1 || Beside(v1, v2, c)
    requires v' == v2 || (Parent(v2, path).Some? && Removed(v2, v', Parent(v2, path).value, path[|path| - 1]))
    ensures [c] in v'.cs
  {
    hide Content, FatOf, FatFrame, Abstracts, View.Sound, EntryIn, Walk, Wrote, Removed, SlotCluster, IsDirectory;
    if v2 != v1 {
      LookupKept(v1, v2, path);
    }
    if v' != v2 {
      RemovedOther(v2, v', path, [c]);
    }
  }

  lemma RemovedOther(v: View, v': View, path: seq<Name>, ch: Chain)
    requires v.Sound() && v'.Sound() && path != [] && Parent(v, path).Some? && ch in v.cs && ch != []
    requires Removed(v, v', Parent(v, path).value, path[|path| - 1])
    requires Lookup(v, path).Some? && !IsDirectory(Lookup(v, path).value) ==> SlotCluster(Lookup(v, path).value) != ch[0]
    ensures ch in v'.cs
  {
    hide Content, FatOf, FatFrame, Abstracts, View.Sound, Walk, ScanFrom, Freed, EntryIn;
  }

  // What a create has made: `c` was free, and the path leads to it exactly if it leads back.
  lemma CreatedPlace(v: View, v1: View, path: seq<Name>, c: nat, i: nat)
    requires v.Sound() && v1.Sound() && path != [] && Parent(v, path).Some? && Lookup(v, path).None?
    requires path[|path| - 1] != [] && 0 !in path[|path| - 1] && HasHead(v1.dirs, Parent(v, path).value)
    requires Created(v, v1, Parent(v, path).value, path[|path| - 1], c, Some(i))
    ensures v.g.Ok(|v.d|) && v.g.InRange(Parent(v, path).value) && FirstUnused(ClusterBytes(v.g, v.d, Parent(v, path).value), i)
    ensures [c] !in v.cs && [c] in v1.cs - v1.dirs && c != 0 && HasHead(v1.cs - v1.dirs, c) && ChainAt(v1.cs - v1.dirs, c) == [c]
    ensures LeadsBack(v, path, i) ==>
      && Parent(v1, path) == Parent(v, path) && Lookup(v1, path).Some?
      && !IsDirectory(Lookup(v1, path).value) && SlotCluster(Lookup(v1, path).value) == c
    ensures !LeadsBack(v, path, i) && Lookup(v1, path).Some? && !IsDirectory(Lookup(v1, path).value) ==>
      SlotCluster(Lookup(v1, path).value) != c
  {
    hide Content, ClusterBytes, FatOf, FatFrame, DataFrame, View.Sound, View.Chained, HasHead, EntryIn, Walk, Created, Keepable, Clear,
         IsDirectory, SlotCluster, NewSlot, FirstUnused, Parent, Lookup;
    var p, name := Parent(v, path).value, path[|path| - 1];
    CreatedCluster(v, v1, p, name, c, i);
    CreatedSlot(v, v1, p, name, c, i);
    CreatedLookup(v, v1, path, c, i);
    NewIsFile(name, c);
    CountedOut(v, c);
    DirsKnown(v);
    OnlyChainAt(v1, [c]);
  }

  lemma CreatedSlot(v: View, v1: View, p: nat, name: Name, c: nat, i: nat)
    requires v.Sound() && v1.Sound() && HasHead(v.dirs, p) && HasHead(v1.dirs, p) && Created(v, v1, p, name, c, Some(i))
    ensures v.g.Ok(|v.d|) && v.g.InRange(p) && FirstUnused(ClusterBytes(v.g, v.d, p), i)
  {
    hide Content, ClusterBytes, FatOf, FatFrame, DataFrame, Abstracts, View.Sound, FirstUnused;
    SoundIsChained(v);
  }

  lemma DirsKnown(v: View)
    requires v.Sound()
    ensures v.dirs <= v.cs && v.g.Ok(|v.d|)
  {
    hide FatOf, Abstracts, Content;
  }

  lemma WroteLookup(v: View, v': View, ch0: Chain, ch: Chain, path: seq<Name>)
    requires v.Sound() && v'.Sound() && Wrote(v, v', ch0, ch) && path != []
    ensures Parent(v', path) == Parent(v, path) && Lookup(v', path) == Lookup(v, path)
  {
    hide View.Sound, Wrote, Parent, Lookup;
    WroteShape(v, v', ch0, ch);
    LookupKept(v, v', path);
  }

  // The create, a write to the new file and its deletion, on values.
  lemma RestoredBy(v: View, v1: View, v2: View, v': View, path: seq<Name>, c: nat, i: nat, ch: Chain)
    requires v.Sound() && v1.Sound() && v2.Sound() && v'.Sound() && path != []
    requires Parent(v, path).Some? && HasHead(v1.dirs, Parent(v, path).value)
    requires Created(v, v1, Parent(v, path).value, path[|path| - 1], c, Some(i)) && Wrote(v1, v2, [c], ch) && [c] !in v.cs
    requires Parent(v2, path).Some? && Removed(v2, v', Parent(v2, path).value, path[|path| - 1])
    requires Lookup(v2, path).Some? && SlotCluster(Lookup(v2, path).value) == c != 0
    ensures Restored(v, v')
  {
    hide Content, ClusterBytes, FatOf, FatFrame, View.Sound, View.Chained, HasHead, EntryIn, Walk, Created, Wrote, Removed, Freed,
         SlotCluster, Geometry.Ok;
    var p, name := Parent(v, path).value, path[|path| - 1];
    CreatedShape(v, v1, p, name, c, i);
    CreatedCluster(v, v1, p, name, c, i);
    WroteShape(v1, v2, [c], ch);
    OnlyChainAt(v2, ch);
    LookupIsEntry(v2, path);
    RemovedShape(v2, v', Parent(v2, path).value, name, ch);
    NewCluster(v, ch);
    FrameSize(v.g, v1.d, v2.d, ch[0..]);
    FrameSize(v.g, v2.d, v'.d, ch);
    assert v.cs + {[c]} - {[c]} + {ch} - {ch} == v.cs;
    FatRestored(v.g, v.d, v1.d, v2.d, v'.d, c, ch);
  }

  lemma CreatedShape(v: View, v1: View, p: nat, name: Name, c: nat, i: nat)
    requires v.Sound() && v1.Sound() && HasHead(v.dirs, p) && HasHead(v1.dirs, p) && Created(v, v1, p, name, c, Some(i))
    ensures v.g.Ok(|v.d|) && v.g.Ok(|v1.d|) && FatFrame(v.g, v.d, v1.d, [c]) && FatOf(v.g, v1.d) == FatOf(v.g, v.d)[c := END_OF_CHAIN]
    ensures |v1.d| == |v.d|
  {
    hide Content, ClusterBytes, FatOf, DataFrame, Abstracts, View.Sound, FirstUnused, RawEntry;
    SoundIsChained(v);
    SoundIsChained(v1);
  }

  lemma FrameSize(g: Geometry, d: Disk, d': Disk, touched: seq<nat>)
    requires g.Ok(|d|) && FatFrame(g, d, d', touched)
    ensures |d'| == |d|
  {
  }

  // A chain that starts with a cluster that was free is not an old one.
  lemma NewCluster(v: View, ch: Chain)
    requires v.Sound() && ch != [] && v.g.Ok(|v.d|) && v.g.InRange(ch[0]) && FatOf(v.g, v.d)[ch[0]] == FREE
    ensures ch !in v.cs
  {
    hide View.Sound, FatOf;
    if ch in v.cs {
      HeadUsed(v, v.cs, ch[0]);
    }
  }

  // A create that succeeds, a write to what the path then leads to (but not to an entry without a cluster,
  // if FAT entries are in the way of cluster 0), and a delete restore the volume
  // exactly if the path leads back to the new entry. If it does not, the cluster that the create took
  // stays allocated.
  method CreateWriteDelete(fs: Volume, path: seq<Name>, buf: seq<byte>, ghost v: View)
    returns (created: int, w: int, deleted: int, ghost v': View, ghost c: nat, ghost i: nat)
    requires fs.Mounted() && Shows(fs, v) && v.Sound() && |buf| < WORD
    requires path != [] && path[|path| - 1] != [] && 0 !in path[|path| - 1]
    modifies fs.disk
    ensures v'.Sound() && Shows(fs, v')
    ensures created == 0 ==>
      && Parent(v, path).Some? && v.g.Ok(|v.d|) && v.g.InRange(Parent(v, path).value)
      && FirstUnused(ClusterBytes(v.g, v.d, Parent(v, path).value), i)
    ensures created == 0 ==> (Restored(v, v') <==> LeadsBack(v, path, i))
    ensures created == 0 && LeadsBack(v, path, i) ==> 0 <= w <= |buf| && deleted == 0
    ensures created == 0 && !LeadsBack(v, path, i) ==> [c] in v'.cs - v.cs
  {
    hide Content, ClusterBytes, FatOf, FatFrame, DataFrame, Abstracts, View.Sound, View.Chained, HasHead, EntryIn, Walk,
         Created, Wrote, Removed, Freed, Parent, Lookup, Keepable, Clear, Geometry.Ok, NewSlot, SlotCluster, IsDirectory,
         LeadsBack, OnChain, Placed, Through, Beside, Exposed, KeepsFiles, FirstUnused, Full, Restored;
    w, deleted, c, i := 0, -1, 0, 0;
    ghost var v1, slot;
    created, v1, c, slot := Create(fs, path, v);
    v' := v1;
    if created != 0 {
      return;
    }
    i := slot.value;
    CreatedPlace(v, v1, path, c, i);
    var file := OpenPlaced(fs, path, v1);
    ghost var v2 := v1;
    if file != null && (!Exposed(fs.g) || file.isDirectory || file.firstCluster != 0) {
      ghost var x := file.currentCluster;
      w, v2 := WriteHandle(file, buf, v1, false);
      if !file.isDirectory && x != c {
        ThroughOther(v1, v2, x, file.currentCluster, buf, w, c);
      }
      OnChainHead(v1, v2, file);
      if LeadsBack(v, path, i) {
        WroteLookup(v1, v2, [c], ChainAt(v2.cs - v2.dirs, c), path);
      }
    }
    deleted, v' := Delete(fs, path, v2);
    if LeadsBack(v, path, i) {
      RestoredBy(v, v1, v2, v', path, c, i, ChainAt(v2.cs - v2.dirs, c));
    } else {
      StaysBehind(v1, v2, v', path, c);
      NotRestored(v, v', [c]);
    }
  }

  lemma OnChainHead(v: View, v': View, file: File)
    requires v.Sound() && v'.Sound()
    ensures OnChain(v', file) ==> HasHead(v'.cs - v'.dirs, file.firstCluster)
    ensures OnChain(v, file) ==> HasHead(v.cs - v.dirs, file.firstCluster)
  {
    hide View.Sound, HasHead;
  }

  lemma NotRestored(v: View, v': View, ch: Chain)
    requires ch in v'.cs - v.cs
    ensures !Restored(v, v')
  {
  }

  const BCD: Name := [0x42, 0x43, 0x44]
  const BCDY: Name := [0x42, 0x43, 0x44, 0x59]

  // A/BCD/../BCDY, where the entry found for BCD in A lies behind an unused slot: the new entry for BCDY
  // goes there, and answers to BCD.
  lemma ThroughParent(v: View, path: seq<Name>, i: nat, k: nat)
    requires v.Sound() && k < |path| - 1 && path[k] == BCD && path[|path| - 1] == BCDY
    requires Parent(v, path).Some? && HasHead(v.dirs, v.g.rootCluster)
    requires Walk(v, v.g.rootCluster, path[..k]) == Parent(v, path)
    requires ScanFrom(v.Dir(ChainAt(v.dirs, Parent(v, path).value)), BCD, 0) == Found(i + 1)
    ensures Keepable(BCDY) && !LeadsBack(v, path, i)
  {
    hide View.Sound, Walk, ScanFrom, FatName, NamesAgree, NameString, HasHead;
    var init := path[..|path| - 1];
    assert init[..k] == path[..k] && init[k] == BCD;
    LettersFoundAgain(BCDY);
    NameRoundTrip(BCDY);
    PrefixAnswers(BCDY, BCD);
    assert !Undisturbed(v, Parent(v, path).value, BCDY, i, init[k]);
  }

  // A name without a dot, of at most eight bytes with bit 6 set, answers to every prefix of it.
  lemma PrefixAnswers(name: Name, x: Name)
    requires 0 < |name| <= 8 && 0 !in name && DOT !in name && Keepable(name) && x <= name
    ensures AnswersTo(name, x)
  {
    hide FatName, NamesAgree, NameString;
    NameRoundTrip(name);
    var t := NameString(FatName(name));
    forall j | 0 <= j < |t|
      ensures t[j] != 0 && Or20(t[j]) == Or20(name[j])
    {
      assert StoredAt(name, j);
      BitKept(name[j]);
    }
    NamesAgreeIff(t, x);
  }

  // ----- delete -----

  // A delete gives back exactly the clusters of the file's chain.
  lemma DeleteFreesChain(v: View, v': View, parent: nat, name: Name)
    requires v.Sound() && v'.Sound() && HasHead(v.dirs, parent) && Removed(v, v', parent, name)
    requires SlotCluster(EntryIn(v, parent, name).value) != 0
    ensures HasHead(v.cs - v.dirs, SlotCluster(EntryIn(v, parent, name).value)) && v.g.Ok(|v.d|) && v.g.Ok(|v'.d|)
    ensures var file := ChainAt(v.cs - v.dirs, SlotCluster(EntryIn(v, parent, name).value));
      && FreeClusters(FatOf(v.g, v'.d)) == FreeClusters(FatOf(v.g, v.d)) + Members(file)
      && |FreeClusters(FatOf(v.g, v'.d))| == |FreeClusters(FatOf(v.g, v.d))| + |file|
  {
    hide Abstracts, FatOf, Content, ScanFrom, EntryIn, View.Sound, View.Chained, Removed;
    RemovedFile(v, v', parent, name);
    var file := ChainAt(v.cs - v.dirs, SlotCluster(EntryIn(v, parent, name).value));
    RemovedShape(v, v', parent, name, file);
    FileFacts(v, SlotCluster(EntryIn(v, parent, name).value));
    FreedMore(FatOf(v.g, v.d), file);
  }

  lemma RemovedFile(v: View, v': View, parent: nat, name: Name)
    requires v.Sound() && v'.Sound() && HasHead(v.dirs, parent) && Removed(v, v', parent, name)
    requires SlotCluster(EntryIn(v, parent, name).value) != 0
    ensures EntryIn(v, parent, name).Some? && HasHead(v.cs - v.dirs, SlotCluster(EntryIn(v, parent, name).value))
  {
    EntryFacts(v, parent, name);
  }

  lemma FreedMore(fat: Fat, ch: Chain)
    requires IsChain(fat, ch)
    ensures FreeClusters(Freed(fat, ch)) == FreeClusters(fat) + Members(ch)
    ensures |FreeClusters(Freed(fat, ch))| == |FreeClusters(fat)| + |ch|
  {
    forall c | c in ch
      ensures c !in FreeClusters(fat) && 2 <= c < |fat|
    {
      ChainMembersUsed(fat, ch, c);
    }
    MembersCount(ch);
    assert FreeClusters(Freed(fat, ch)) == FreeClusters(fat) + Members(ch);
    assert FreeClusters(fat) !! Members(ch);
  }
}
