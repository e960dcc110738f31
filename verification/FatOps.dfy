// Opening, creating and deleting files by path.
module FatOps {
  import opened Bytes
  import opened FatLayout
  import opened FatChains
  import opened FatContent
  import opened FatFrames
  import opened FatDirectory
  import opened FatFormat
  import opened FatVolume
  import opened FatFile
  import opened FatLookup
  import opened FatTree
  import R = FatRead

  datatype Option<+T> = None | Some(value: T)

  // ----- what a path means -----

  ghost function ChainAt(cs: set<Chain>, c: nat): (ch: Chain)
    requires HasHead(cs, c)
    ensures ch in cs && ch != [] && ch[0] == c
  {
    var ch :| ch in cs && ch != [] && ch[0] == c;
    ch
  }

  // The entry called `name` in the directory that starts at `c`.
  ghost function EntryIn(v: View, c: nat, name: Name): (e: Option<Slot>)
    requires v.Sound() && HasHead(v.dirs, c)
    ensures e.Some? && IsDirectory(e.value) ==> HasHead(v.dirs, SlotCluster(e.value))
    ensures e.Some? && !IsDirectory(e.value) && SlotCluster(e.value) != 0 ==>
      HasHead(v.cs - v.dirs, SlotCluster(e.value))
  {
    var ch := ChainAt(v.dirs, c);
    ScanMeaning(v.Dir(ch), name, 0);
    match ScanFrom(v.Dir(ch), name, 0)
    case Found(i) =>
      var s := SlotAt(v.Dir(ch), i);
      assert IsDirectory(s) ==> v.DirSlot(ch, i, SlotCluster(s));
      assert !IsDirectory(s) && SlotCluster(s) != 0 ==> v.FileSlot(ch, i, SlotCluster(s));
      Some(s)
    case _ => None
  }

  // The directory that `path` leads to from the one that starts at `c`.
  ghost function Walk(v: View, c: nat, path: seq<Name>): (r: Option<nat>)
    requires v.Sound() && HasHead(v.dirs, c)
    ensures r.Some? ==> HasHead(v.dirs, r.value)
    decreases |path|
  {
    if path == [] then Some(c)
    else
      match EntryIn(v, c, path[0])
      case Some(s) => if IsDirectory(s) then Walk(v, SlotCluster(s), path[1..]) else None
      case None => None
  }

  function SubDirectory(e: Option<Slot>): Option<nat>
  {
    if e.Some? && IsDirectory(e.value) then Some(SlotCluster(e.value)) else None
  }

  // A path leads where its first part and then the rest lead, name by name through directories.
  lemma {:induction false} WalkConcat(v: View, c: nat, a: seq<Name>, b: seq<Name>)
    requires v.Sound() && HasHead(v.dirs, c)
    ensures Walk(v, c, []) == Some(c)
    ensures Walk(v, c, a + b) == match Walk(v, c, a) case Some(d) => Walk(v, d, b) case None => None
    ensures |b| == 1 ==> Walk(v, c, b) == SubDirectory(EntryIn(v, c, b[0]))
    decreases |a|
  {
    hide View.Sound, HasHead, EntryIn, SlotCluster, IsDirectory;
    if a == [] {
      assert a + b == b;
    } else {
      assert (a + b)[1..] == a[1..] + b;
      match EntryIn(v, c, a[0])
      case Some(s) =>
        if IsDirectory(s) {
          WalkConcat(v, SlotCluster(s), a[1..], b);
        }
      case None =>
    }
  }

  ghost function Parent(v: View, path: seq<Name>): (r: Option<nat>)
    requires v.Sound() && path != []
    ensures r.Some? ==> HasHead(v.dirs, r.value)
  {
    Walk(v, v.g.rootCluster, path[..|path| - 1])
  }

  ghost function Lookup(v: View, path: seq<Name>): (e: Option<Slot>)
    requires v.Sound() && path != []
  {
    match Parent(v, path)
    case Some(c) => EntryIn(v, c, path[|path| - 1])
    case None => None
  }

  // ----- resolving and opening -----

  ghost predicate Shows(fs: Volume, v: View)
    reads fs.disk
  {
    v.g == fs.g && v.d == fs.disk[..]
  }

  lemma DirFacts(v: View, c: nat)
    requires v.Sound() && HasHead(v.dirs, c)
    ensures var ch := ChainAt(v.dirs, c);
      && v.Chained() && ch in v.cs && AllInRange(v.g, ch) && IsChain(FatOf(v.g, v.d), ch) && Distinct(ch)
      && v.g.InRange(c)
  {
    ChainedFacts(v, ChainAt(v.dirs, c));
  }

  method Find(fs: Volume, dir: nat, name: Name, ghost v: View) returns (found: bool, entry: Slot)
    requires fs.Mounted() && Shows(fs, v) && v.Sound() && HasHead(v.dirs, dir)
    ensures EntryIn(v, dir, name) == if found then Some(entry) else None
  {
    hide IsChain, FatOf, Geometry.Ok, Content, ScanFrom, Abstracts;
    DirFacts(v, dir);
    found, entry := FindEntry(fs, dir, name, ChainAt(v.dirs, dir));
  }

  method ResolveParent(fs: Volume, path: seq<Name>, ghost v: View) returns (ok: bool, parent: nat)
    requires fs.Mounted() && Shows(fs, v) && v.Sound() && path != []
    ensures Parent(v, path) == if ok then Some(parent) else None
  {
    hide EntryIn, View.Sound, View.Chained, HasHead;
    ghost var init := path[..|path| - 1];
    RootIsDir(v);
    parent := fs.g.rootCluster;
    assert init[0..] == init;
    for i := 0 to |path| - 1
      invariant HasHead(v.dirs, parent)
      invariant Walk(v, v.g.rootCluster, init) == Walk(v, parent, init[i..])
    {
      assert init[i..][1..] == init[i + 1..] && init[i..][0] == path[i];
      var found, entry := Find(fs, parent, path[i], v);
      if !found {
        return false, 0;
      }
      if !IsDirectory(entry) {
        return false, 0;
      }
      parent := SlotCluster(entry);
    }
    ok := true;
  }

  lemma RootIsDir(v: View)
    requires v.Sound()
    ensures HasHead(v.dirs, v.g.rootCluster)
  {
  }

  // The empty path opens the root directory.
  method Open(fs: Volume, path: seq<Name>, ghost v: View) returns (file: File?)
    requires fs.Mounted() && Shows(fs, v) && v.Sound()
    ensures file != null ==> fresh(file) && file.fs == fs && file.currentCluster == file.firstCluster
    ensures file != null ==> file.currentOffset == 0
    ensures path == [] ==> file != null && file.isDirectory && file.firstCluster == v.g.rootCluster && file.fileSize == 0
    ensures path != [] ==> (file != null <==> Lookup(v, path).Some?)
    ensures path != [] && file != null ==>
      var s := Lookup(v, path).value;
      && file.firstCluster == SlotCluster(s) && file.fileSize == SlotSize(s) && (file.isDirectory <==> IsDirectory(s))
      // whatever fields the entry is laid out from, these are the handle's
      && Says(s, file.firstCluster, file.fileSize, file.isDirectory)
  {
    hide EntryIn, View.Sound, View.Chained, HasHead, Walk, Says;
    if path == [] {
      return new File(fs, fs.g.rootCluster, 0, true);
    }
    var ok, parent := ResolveParent(fs, path, v);
    if !ok {
      return null;
    }
    var found, entry := Find(fs, parent, path[|path| - 1], v);
    if !found {
      return null;
    }
    EntrySays(entry);
    file := new File(fs, SlotCluster(entry), SlotSize(entry), IsDirectory(entry));
  }

  // ----- creating -----

  function Zeros(n: nat): (s: seq<byte>)
    ensures |s| == n
  {
    seq(n, _ => 0)
  }

  function NewSlot(name: Name, c: nat): (s: Slot)
    requires c < ENTRY_LIMIT
  {
    FatName(name) + [ATTR_ARCHIVE] + Zeros(8) + ToLe16(c / 0x1_0000) + Zeros(4) + ToLe16(c % 0x1_0000) + Zeros(4)
  }

  lemma NewSlotFields(name: Name, c: nat)
    requires c < ENTRY_LIMIT
    ensures var s := NewSlot(name, c);
      && s[..11] == FatName(name) && s[11] == 0x20 && SlotCluster(s) == c && SlotSize(s) == 0
      && !IsDirectory(s) && s[11] % 0x10 != ATTR_LONG_NAME
  {
    hide FatName;
    var s := NewSlot(name, c);
    assert s[20..22] == ToLe16(c / 0x1_0000) && s[26..28] == ToLe16(c % 0x1_0000) && s[28..32] == Zeros(4);
    assert Le16(s, 20) == Le16(s[20..22], 0) && Le16(s, 26) == Le16(s[26..28], 0);
    assert s[28] == s[28..32][0] && s[29] == s[28..32][1] && s[30] == s[28..32][2] && s[31] == s[28..32][3];
  }

  predicate Unused(s: Slot) { s[0] == 0 || s[0] == DELETED }

  // A slot is unused if it is free or was deleted, and deleting makes it so.
  lemma UnusedReads(f: Fields, s: Slot)
    requires Formed(f)
    ensures Unused(EntrySlot(f)) <==> f.name[0] == 0x00 || f.name[0] == 0xE5
    ensures Unused(Deleted(s)) && !Visible(Deleted(s)) && (Visible(s) ==> !Unused(s))
  {
    hide EntrySlot, ToLe16, ToLe32, LongName;
    EntryPlaces(f);
  }

  // `i` is the first unused slot of `s`.
  ghost predicate FirstUnused(s: seq<byte>, i: nat)
  {
    && 32 * i + 32 <= |s| && Unused(SlotAt(s, i))
    && forall x :: 0 <= x < i ==> !Unused(SlotAt(s, x))
  }

  ghost predicate AllUsed(s: seq<byte>) { forall x :: 0 <= x && 32 * x + 32 <= |s| ==> !Unused(SlotAt(s, x)) }

  method FindUnusedSlot(data: array<byte>, bytesPerCluster: nat) returns (found: bool, i: nat)
    requires bytesPerCluster % 32 == 0 && bytesPerCluster <= data.Length
    ensures if found then FirstUnused(data[..bytesPerCluster], i) else AllUsed(data[..bytesPerCluster])
  {
    ghost var s := data[..bytesPerCluster];
    i := 0;
    while i < bytesPerCluster / 32
      invariant i <= bytesPerCluster / 32
      invariant forall x :: 0 <= x < i ==> !Unused(SlotAt(s, x))
    {
      assert data[32 * i] == SlotAt(s, i)[0];
      if data[32 * i] == 0 || data[32 * i] == DELETED {
        return true, i;
      }
      i := i + 1;
    }
    found := false;
  }

  // What a create does after the checks: `c` is marked as the end of a chain, and the entry goes to
  // the first unused slot of the parent's first cluster. A full cluster leaves `c` allocated.
  ghost predicate Created(v: View, v': View, parent: nat, name: Name, c: nat, i: Option<nat>)
    requires v.Sound() && v'.Sound() && HasHead(v.dirs, parent) && HasHead(v'.dirs, parent)
  {
    && v'.g == v.g && v'.dirs == v.dirs && v'.cs == v.cs + {[c]}
    && c < ENTRY_LIMIT && v.g.InRange(c) && FatOf(v.g, v.d)[c] == FREE
    && (forall x :: 2 <= x < c ==> x < |FatOf(v.g, v.d)| && FatOf(v.g, v.d)[x] != FREE)
    && FatOf(v'.g, v'.d) == FatOf(v.g, v.d)[c := END_OF_CHAIN] && FatFrame(v.g, v.d, v'.d, [c])
    && var ch := ChainAt(v.dirs, parent);
       && v.g.InRange(parent)
       && (i.Some? ==>
             && FirstUnused(ClusterBytes(v.g, v.d, parent), i.value) && 32 * i.value + 32 <= |v.Dir(ch)|
             && v'.Dir(ch) == Patch(v.Dir(ch), 32 * i.value, NewSlot(name, c))
             && DataFrame(v.g, v.d, v'.d, [parent]))
       && (i.None? ==> AllUsed(ClusterBytes(v.g, v.d, parent)) && DataFrame(v.g, v.d, v'.d, []))
  }

  lemma AllocCreated(v: View, parent: nat, name: Name, c: nat)
    requires v.Sound() && HasHead(v.dirs, parent) && v.g.InRange(c) && FatOf(v.g, v.d)[c] == FREE
    requires forall x :: 2 <= x < c ==> FatOf(v.g, v.d)[x] != FREE
    ensures var v1 := v.(d := PutEntry(v.g, v.d, c, END_OF_CHAIN), cs := v.cs + {[c]});
      && v1.Sound() && c < ENTRY_LIMIT && v.g.InRange(parent)
      && FatOf(v1.g, v1.d) == FatOf(v.g, v.d)[c := END_OF_CHAIN] && FatFrame(v.g, v.d, v1.d, [c])
      && DataFrame(v.g, v.d, v1.d, []) && ClusterBytes(v.g, v1.d, parent) == ClusterBytes(v.g, v.d, parent)
      && v1.Dir(ChainAt(v.dirs, parent)) == v.Dir(ChainAt(v.dirs, parent))
  {
    hide Abstracts, Content, ClusterBytes, FatOf, FatFrame, PutEntry, IsChain, Disjoint, AllInRange;
    var ch := ChainAt(v.dirs, parent);
    DirFacts(v, parent);
    AllocSound(v, c);
    SmallEntries(v.g, |v.d|, c);
    ClusterNumbersSmall(v.g, |v.d|);
    PutEntryRefinesUpdate(v.g, v.d, c, END_OF_CHAIN);
    PutEntryFrames(v.g, v.d, c, END_OF_CHAIN);
    DisjointNothing(ch);
    ContentKept(v.g, v.d, PutEntry(v.g, v.d, c, END_OF_CHAIN), [], ch);
  }

  lemma DisjointNothing(ch: Chain)
    ensures Disjoint(ch, [])
  {
  }

  lemma CreatedUnused(v: View, parent: nat, name: Name, c: nat)
    requires v.Sound() && HasHead(v.dirs, parent) && v.g.InRange(c) && FatOf(v.g, v.d)[c] == FREE
    requires forall x :: 2 <= x < c ==> FatOf(v.g, v.d)[x] != FREE
    requires v.g.InRange(parent) && AllUsed(ClusterBytes(v.g, v.d, parent))
    ensures var v1 := v.(d := PutEntry(v.g, v.d, c, END_OF_CHAIN), cs := v.cs + {[c]});
      v1.Sound() && Created(v, v1, parent, name, c, None)
  {
    hide FatFrame, DataFrame, PutEntry, ClusterBytes, View.Sound, HasHead;
    AllocCreated(v, parent, name, c);
  }

  lemma CreatedInSlot(v: View, parent: nat, name: Name, c: nat, i: nat)
    requires v.Sound() && HasHead(v.dirs, parent) && v.g.InRange(c) && FatOf(v.g, v.d)[c] == FREE && c < ENTRY_LIMIT
    requires forall x :: 2 <= x < c ==> FatOf(v.g, v.d)[x] != FREE
    requires v.g.InRange(parent) && FirstUnused(ClusterBytes(v.g, v.d, parent), i)
    ensures var v1 := v.(d := PutEntry(v.g, v.d, c, END_OF_CHAIN), cs := v.cs + {[c]});
      var v2 := v1.(d := PutSlot(v.g, v1.d, parent, i, NewSlot(name, c)));
      v2.Sound() && Created(v, v2, parent, name, c, Some(i))
  {
    hide FatFrame, DataFrame, PutEntry, ClusterBytes, View.Sound, HasHead, FatOf, Abstracts, NewSlot, FirstUnused, Patch;
    DirFacts(v, parent);
    var v1 := v.(d := PutEntry(v.g, v.d, c, END_OF_CHAIN), cs := v.cs + {[c]});
    var ch := ChainAt(v.dirs, parent);
    AllocCreated(v, parent, name, c);
    AllocSound(v, c);
    DirFacts(v1, parent);
    NewSlotFields(name, c);
    FirstUnusedFits(ClusterBytes(v.g, v.d, parent), i);
    PutSlotSound(v1, ch, 0, i, NewSlot(name, c));
    var bytes := Patch(ClusterBytes(v.g, v1.d, parent), 32 * i, NewSlot(name, c));
    PutClusterRefines(v.g, v1.d, parent, bytes);
    PutClusterFrames(v.g, v1.d, parent, bytes);
    FatFrameTrans(v.g, v.d, v1.d, PutSlot(v.g, v1.d, parent, i, NewSlot(name, c)), [c], [], [c]);
    DataFrameTrans(v.g, v.d, v1.d, PutSlot(v.g, v1.d, parent, i, NewSlot(name, c)), [], [parent], [parent]);
  }

  lemma FirstUnusedFits(s: seq<byte>, i: nat)
    requires FirstUnused(s, i)
    ensures 32 * i + 32 <= |s|
  {
  }

  // After the checks of `fat32_create`.
  method AddEntry(fs: Volume, parent: nat, name: Name, ghost v: View)
    returns (status: int, ghost v': View, ghost c: nat, ghost i: Option<nat>)
    requires fs.Mounted() && Shows(fs, v) && v.Sound() && HasHead(v.dirs, parent)
    modifies fs.disk
    ensures v'.Sound() && Shows(fs, v') && v'.dirs == v.dirs
    ensures status == 0 ==> Created(v, v', parent, name, c, i) && i.Some?
    ensures status != 0 ==> status == -1 && (v' == v || (Created(v, v', parent, name, c, i) && i.None?))
    ensures v' == v <==> Full(v.g, v.d)
  {
    hide FatOf, PutEntry, PutCluster, ClusterBytes, View.Sound, HasHead, Created, NewSlot, Patch, FirstUnused, AllUsed,
         Geometry.Ok, IsChain, AllInRange, Distinct;
    v', c, i := v, 0, None;
    DirFacts(v, parent);
    ClusterFitsBuffer(v.g, fs.disk.Length);
    SlotOffsets(v.g, 0);
    var cluster := fs.FindFreeCluster();
    if cluster == 0 {
      return -1, v', c, i;
    }
    c := cluster;
    AllocCreated(v, parent, name, c);
    var _ := fs.SetFatEntry(cluster, END_OF_CHAIN);
    v' := v.(d := fs.disk[..], cs := v.cs + {[c]});
    assert [c] in v'.cs;
    CountedOut(v, c);
    var data := new byte[BUFFER_SIZE];
    ghost var before := data[..];
    fs.ReadCluster(parent, data, 0);
    PatchParts(before, 0, ClusterBytes(v.g, v'.d, parent));
    var found, slot := FindUnusedSlot(data, fs.g.BytesPerCluster());
    if !found {
      CreatedUnused(v, parent, name, c);
      return -1, v', c, i;
    }
    FirstUnusedFits(ClusterBytes(v.g, v.d, parent), slot);
    i := Some(slot);
    ghost var read := data[..];
    var fatName := StringToFatName(name);
    CopyInto(data, 32 * slot, fatName + [ATTR_ARCHIVE] + Zeros(8) + ToLe16(cluster / 0x1_0000) + Zeros(4)
                              + ToLe16(cluster % 0x1_0000) + Zeros(4));
    IsNewSlot(name, cluster);
    PatchTake(read, 32 * slot, NewSlot(name, c), fs.g.BytesPerCluster());
    fs.WriteCluster(parent, data);
    CreatedInSlot(v, parent, name, c, slot);
    v' := v'.(d := fs.disk[..]);
    status := 0;
  }

  lemma IsNewSlot(name: Name, c: nat)
    requires c < ENTRY_LIMIT
    ensures NewSlot(name, c) == FatName(name) + [ATTR_ARCHIVE] + Zeros(8) + ToLe16(c / 0x1_0000) + Zeros(4)
                                + ToLe16(c % 0x1_0000) + Zeros(4)
  {
  }

  lemma CountedOut(v: View, c: nat)
    requires v.Sound() && v.g.InRange(c) && FatOf(v.g, v.d)[c] == FREE
    ensures [c] !in v.cs
  {
    if [c] in v.cs {
      FreeOffChain(FatOf(v.g, v.d), [c], c);
    }
  }

  // `fat32_create`.
  method Create(fs: Volume, path: seq<Name>, ghost v: View)
    returns (status: int, ghost v': View, ghost c: nat, ghost i: Option<nat>)
    requires fs.Mounted() && Shows(fs, v) && v.Sound()
    modifies fs.disk
    ensures v'.Sound() && Shows(fs, v') && v'.dirs == v.dirs
    // success: the path was free, and now has an entry of its own on a one-cluster chain
    ensures status == 0 ==>
      && path != [] && Parent(v, path).Some? && Lookup(v, path).None?
      && Created(v, v', Parent(v, path).value, path[|path| - 1], c, i) && i.Some?
    // failure: nothing has changed, or the parent's first cluster is full and one cluster is lost
    ensures status != 0 ==> status == -1
    ensures status != 0 && v' != v ==>
      && path != [] && Parent(v, path).Some? && Lookup(v, path).None?
      && Created(v, v', Parent(v, path).value, path[|path| - 1], c, i) && i.None?
    // nothing has changed exactly if the path is unusable or the volume is full
    ensures v' == v <==>
      (path != [] && Parent(v, path).Some? && Lookup(v, path).None?
       ==> Full(v.g, v.d))
  {
    hide FatOf, View.Sound, HasHead, Created, EntryIn, Walk, Geometry.Ok;
    status, v', c, i := -1, v, 0, None;
    if path == [] {
      return;
    }
    var ok, parent := ResolveParent(fs, path, v);
    if !ok {
      return;
    }
    var found, _ := Find(fs, parent, path[|path| - 1], v);
    if found {
      return;
    }
    status, v', c, i := AddEntry(fs, parent, path[|path| - 1], v);
  }

  // ----- deleting -----

  function Deleted(s: Slot): Slot { s[0 := DELETED] }

  // The entry's slot is marked deleted, and its chain, if it has one, is free.
  ghost predicate Removed(v: View, v': View, parent: nat, name: Name)
    requires v.Sound() && v'.Sound() && HasHead(v.dirs, parent)
  {
    && v'.g == v.g && v'.dirs == v.dirs
    && EntryIn(v, parent, name).Some?
    && var s, ch := EntryIn(v, parent, name).value, ChainAt(v.dirs, parent);
       var scan := ScanFrom(v.Dir(ch), name, 0);
       && !IsDirectory(s) && scan.Found? && 32 * scan.index + 32 <= |v.Dir(ch)|
       && v'.Dir(ch) == Patch(v.Dir(ch), 32 * scan.index, Deleted(s))
       && (forall x :: x in v'.cs && x != ch ==> x in v.cs && v'.Dir(x) == v.Dir(x))
       && if SlotCluster(s) == 0 then v'.cs == v.cs && FatFrame(v.g, v.d, v'.d, [])
          else
            var file := ChainAt(v.cs - v.dirs, SlotCluster(s));
            && v'.cs == v.cs - {file} && FatOf(v'.g, v'.d) == Freed(FatOf(v.g, v.d), file)
            && FatFrame(v.g, v.d, v'.d, file)
  }

  // Marking the entry leaves the volume sound, and the file's chain without an entry.
  lemma MarkedSound(v: View, ch: Chain, k: nat, i: nat)
    requires v.Sound() && ch in v.dirs && AllInRange(v.g, ch) && k < |ch| && 32 * i + 32 <= v.g.BytesPerCluster()
    requires 32 * (v.g.FirstSlot(k) + i) + 32 <= |v.Dir(ch)|
    ensures var s := SlotAt(v.Dir(ch), v.g.FirstSlot(k) + i);
      var v1 := v.(d := PutSlot(v.g, v.d, ch[k], i, Deleted(s)));
      && v1.Sound() && v1.Dir(ch) == Patch(v.Dir(ch), 32 * (v.g.FirstSlot(k) + i), Deleted(s))
      && (Visible(s) && !IsDirectory(s) && SlotCluster(s) != 0 ==>
            forall b, x: nat :: !v1.FileSlot(b, x, SlotCluster(s)))
  {
    hide Abstracts, Content, HasHead, Geometry.Ok, FatOf, PutSlot, IsChain, Patch, Geometry.FirstSlot;
    var n := v.g.FirstSlot(k) + i;
    var s := SlotAt(v.Dir(ch), n);
    var v1 := v.(d := PutSlot(v.g, v.d, ch[k], i, Deleted(s)));
    PutSlotSound(v, ch, k, i, Deleted(s));
    PatchedSlot(v.Dir(ch), n, Deleted(s), n);
    if Visible(s) && !IsDirectory(s) && SlotCluster(s) != 0 {
      assert v.FileSlot(ch, n, SlotCluster(s));
    }
  }

  lemma FreedStep(fat: Fat, ch: Chain, k: nat)
    requires k < |ch| && Distinct(ch) && ch[k] < |fat|
    ensures Freed(fat, ch[..k])[ch[k] := FREE] == Freed(fat, ch[..k + 1])
    ensures Freed(fat, ch[..k])[ch[k]] == fat[ch[k]]
  {
    assert ch[..k + 1] == ch[..k] + [ch[k]];
  }

  lemma FreedNone(fat: Fat, ch: Chain)
    ensures Freed(fat, ch[..0]) == fat && ch[..|ch|] == ch
  {
  }

  lemma FrameNone(g: Geometry, d: Disk)
    requires g.Ok(|d|)
    ensures FatFrame(g, d, d, []) && DataFrame(g, d, d, [])
  {
    hide Geometry.Ok;
  }

  // The loop that frees a chain, from its head to its end.
  method FreeFrom(fs: Volume, start: nat, ghost ch: Chain)
    requires fs.Mounted() && IsChain(fs.Entries(), ch) && AllInRange(fs.g, ch) && start == ch[0]
    modifies fs.disk
    ensures fs.Entries() == Freed(old(fs.Entries()), ch)
    ensures FatFrame(fs.g, old(fs.disk[..]), fs.disk[..], ch) && DataFrame(fs.g, old(fs.disk[..]), fs.disk[..], [])
  {
    hide IsChain, FatOf, PutEntry, FatFrame, DataFrame, Freed, Geometry.Ok, Low28;
    var cluster := start;
    ghost var k, g, d0 := 0, fs.g, fs.disk[..];
    R.ChainStart(g, d0, ch);
    ChainInRangeFirst(g, d0, ch);
    FrameNone(g, d0);
    FreedNone(FatOf(g, d0), ch);
    FatFrameTrans(g, d0, d0, d0, [], [], ch[..0]);
    while cluster != 0 && cluster < END_OF_CHAIN
      invariant k <= |ch| && fs.disk.Length == |d0|
      invariant if k < |ch| then cluster == ch[k] else cluster >= END_OF_CHAIN
      invariant FatOf(g, fs.disk[..]) == Freed(FatOf(g, d0), ch[..k])
      invariant FatFrame(g, d0, fs.disk[..], ch[..k]) && DataFrame(g, d0, fs.disk[..], [])
      decreases |ch| - k
    {
      ghost var d := fs.disk[..];
      R.ChainStep(g, d0, ch, k);
      FreedStep(FatOf(g, d0), ch, k);
      var next := fs.GetNextCluster(cluster);
      SmallEntries(g, |d|, cluster);
      PutEntryRefinesUpdate(g, d, cluster, FREE);
      PutEntryFrames(g, d, cluster, FREE);
      assert ch[..k + 1] == ch[..k] + [cluster];
      FatFrameTrans(g, d0, d, PutEntry(g, d, cluster, FREE), ch[..k], [cluster], ch[..k + 1]);
      DataFrameTrans(g, d0, d, PutEntry(g, d, cluster, FREE), [], [], []);
      var _ := fs.SetFatEntry(cluster, FREE);
      cluster := next;
      k := k + 1;
      if k < |ch| {
        R.ChainStep(g, d0, ch, k);
      }
    }
    assert k == |ch|;
  }

  lemma ChainInRangeFirst(g: Geometry, d: Disk, ch: Chain)
    requires g.Ok(|d|) && IsChain(FatOf(g, d), ch)
    ensures Distinct(ch) && ch[0] != 0 && forall i :: 0 <= i < |ch| ==> ch[i] != 0
  {
  }

  // What the free loop makes of a volume whose entry is already marked.
  lemma FreedSound(v: View, v1: View, parent: nat, name: Name, s: Slot, file: Chain, d: Disk)
    requires v.Sound() && HasHead(v.dirs, parent) && EntryIn(v, parent, name) == Some(s)
    requires !IsDirectory(s) && SlotCluster(s) != 0 && file == ChainAt(v.cs - v.dirs, SlotCluster(s))
    requires v1.Sound() && Marked(v, v1, parent, name)
    requires v.g.Ok(|v1.d|) && FatFrame(v.g, v1.d, d, file) && DataFrame(v.g, v1.d, d, [])
    requires |d| == |v1.d| && FatOf(v.g, d) == Freed(FatOf(v.g, v1.d), file)
    ensures v.(d := d, cs := v.cs - {file}).Sound()
    ensures Removed(v, v.(d := d, cs := v.cs - {file}), parent, name)
  {
    hide Abstracts, Content, Geometry.Ok, FatOf, FatFrame, DataFrame, Freed, HasHead, Patch;
    FreeSound(v1, file, d);
    DirFacts(v, parent);
    FatFrameTrans(v.g, v.d, v1.d, d, [], file, file);
  }

  // The state between marking the entry and freeing the chain.
  ghost predicate Marked(v: View, v1: View, parent: nat, name: Name)
    requires v.Sound() && v1.Sound() && HasHead(v.dirs, parent)
  {
    && v1 == v.(d := v1.d)
    && EntryIn(v, parent, name).Some?
    && var s, ch := EntryIn(v, parent, name).value, ChainAt(v.dirs, parent);
       var scan := ScanFrom(v.Dir(ch), name, 0);
       && scan.Found? && 32 * scan.index + 32 <= |v.Dir(ch)|
       && v1.Dir(ch) == Patch(v.Dir(ch), 32 * scan.index, Deleted(s))
       && (forall x :: x in v.cs && x != ch ==> v1.Dir(x) == v.Dir(x))
       && FatOf(v.g, v1.d) == FatOf(v.g, v.d) && FatFrame(v.g, v.d, v1.d, [])
       && (!IsDirectory(s) && SlotCluster(s) != 0 ==> forall b, x: nat :: !v1.FileSlot(b, x, SlotCluster(s)))
  }

  lemma MarkedFrom(v: View, parent: nat, name: Name, k: nat, i: nat)
    requires v.Sound() && HasHead(v.dirs, parent)
    requires var ch := ChainAt(v.dirs, parent);
      && AllInRange(v.g, ch) && k < |ch| && 32 * i + 32 <= v.g.BytesPerCluster()
      && ScanFrom(v.Dir(ch), name, 0) == Found(v.g.FirstSlot(k) + i)
    ensures var ch := ChainAt(v.dirs, parent);
      && EntryIn(v, parent, name).Some?
      && EntryIn(v, parent, name).value == SlotAt(ClusterBytes(v.g, v.d, ch[k]), i)
      && var v1 := v.(d := PutSlot(v.g, v.d, ch[k], i, Deleted(EntryIn(v, parent, name).value)));
         v1.Sound() && Marked(v, v1, parent, name)
  {
    hide Abstracts, Content, Geometry.Ok, FatOf, FatFrame, DataFrame, HasHead, Patch, PutCluster, ClusterBytes, Geometry.FirstSlot, IsChain;
    var ch, n := ChainAt(v.dirs, parent), v.g.FirstSlot(k) + i;
    DirFacts(v, parent);
    ScanMeaning(v.Dir(ch), name, 0);
    SlotInCluster(v.g, v.d, ch, k, i);
    MarkedSound(v, ch, k, i);
    var s := SlotAt(v.Dir(ch), n);
    var bytes := Patch(ClusterBytes(v.g, v.d, ch[k]), 32 * i, Deleted(s));
    PutClusterRefines(v.g, v.d, ch[k], bytes);
    PutClusterFrames(v.g, v.d, ch[k], bytes);
    forall x | x in v.cs && x != ch
      ensures AllInRange(v.g, x) && Content(v.g, PutSlot(v.g, v.d, ch[k], i, Deleted(s)), x) == Content(v.g, v.d, x)
    {
      ChainedFacts(v, x);
      OtherChain(v, x, ch, ch[k]);
      ContentKept(v.g, v.d, PutSlot(v.g, v.d, ch[k], i, Deleted(s)), [ch[k]], x);
    }
  }

  lemma FileFacts(v: View, c: nat)
    requires v.Sound() && HasHead(v.cs - v.dirs, c)
    ensures var file := ChainAt(v.cs - v.dirs, c);
      && v.g.Ok(|v.d|) && file in v.cs && file !in v.dirs && AllInRange(v.g, file) && IsChain(FatOf(v.g, v.d), file)
      && v.g.InRange(c)
  {
    ChainedFacts(v, ChainAt(v.cs - v.dirs, c));
  }

  // After the checks of `fat32_delete`: mark the entry and free its chain.
  method RemoveEntry(fs: Volume, parent: nat, name: Name, ghost v: View) returns (status: int, ghost v': View)
    requires fs.Mounted() && Shows(fs, v) && v.Sound() && HasHead(v.dirs, parent)
    modifies fs.disk
    ensures v'.Sound() && Shows(fs, v') && v'.dirs == v.dirs
    ensures if status == 0 then Removed(v, v', parent, name) else status == -1 && v' == v
    ensures status == 0 <==> EntryIn(v, parent, name).Some? && !IsDirectory(EntryIn(v, parent, name).value)
  {
    hide FatOf, PutCluster, ClusterBytes, View.Sound, View.Chained, HasHead, Removed, Patch, Freed, FatFrame, DataFrame,
         Geometry.Ok, IsChain, AllInRange, Distinct, EntryIn, Content, ScanFrom, Geometry.FirstSlot, SlotCluster,
         IsDirectory;
    v', status := v, -1;
    ghost var ch := ChainAt(v.dirs, parent);
    DirFacts(v, parent);
    ClusterFitsBuffer(v.g, fs.disk.Length);
    var data := new byte[BUFFER_SIZE];
    var found, cluster, i;
    ghost var k;
    found, cluster, i, k := FindSlot(fs, parent, name, data, ch);
    if !found {
      NoEntry(v, parent, name);
      return;
    }
    MarkedFrom(v, parent, name, k, i);
    var entry: Slot := data[32 * i..32 * i + 32];
    assert entry == SlotAt(data[..fs.g.BytesPerCluster()], i);
    if IsDirectory(entry) {
      return;
    }
    var fileCluster := SlotCluster(entry);
    ghost var bytes := data[..fs.g.BytesPerCluster()];
    data[32 * i] := DELETED;
    DeletedInPlace(bytes, i);
    assert data[..fs.g.BytesPerCluster()] == bytes[32 * i := DELETED];
    fs.WriteCluster(cluster, data);
    ghost var v1 := v.(d := fs.disk[..]);
    status := 0;
    if fileCluster == 0 {
      v' := v1;
      MarkedRemoved(v, v1, parent, name);
    } else {
      EntryFacts(v, parent, name);
      ghost var file := ChainAt(v.cs - v.dirs, fileCluster);
      FileFacts(v, fileCluster);
      FreeFrom(fs, fileCluster, file);
      FreedSound(v, v1, parent, name, entry, file, fs.disk[..]);
      v' := v.(d := fs.disk[..], cs := v.cs - {file});
    }
  }

  lemma NoEntry(v: View, parent: nat, name: Name)
    requires v.Sound() && HasHead(v.dirs, parent)
    ensures EntryIn(v, parent, name).Some? <==> ScanFrom(v.Dir(ChainAt(v.dirs, parent)), name, 0).Found?
  {
  }

  lemma EntryFacts(v: View, parent: nat, name: Name)
    requires v.Sound() && HasHead(v.dirs, parent) && EntryIn(v, parent, name).Some?
    requires !IsDirectory(EntryIn(v, parent, name).value) && SlotCluster(EntryIn(v, parent, name).value) != 0
    ensures HasHead(v.cs - v.dirs, SlotCluster(EntryIn(v, parent, name).value))
  {
  }

  lemma DeletedInPlace(bytes: seq<byte>, i: nat)
    requires 32 * i + 32 <= |bytes|
    ensures bytes[32 * i := DELETED] == Patch(bytes, 32 * i, Deleted(SlotAt(bytes, i)))
  {
  }

  lemma MarkedRemoved(v: View, v1: View, parent: nat, name: Name)
    requires v.Sound() && v1.Sound() && HasHead(v.dirs, parent) && Marked(v, v1, parent, name)
    requires !IsDirectory(EntryIn(v, parent, name).value) && SlotCluster(EntryIn(v, parent, name).value) == 0
    ensures Removed(v, v1, parent, name)
  {
    hide Abstracts, Content, Geometry.Ok, FatOf, FatFrame, DataFrame, Freed, HasHead, Patch;
  }

  // `fat32_delete`.
  method Delete(fs: Volume, path: seq<Name>, ghost v: View) returns (status: int, ghost v': View)
    requires fs.Mounted() && Shows(fs, v) && v.Sound()
    modifies fs.disk
    ensures v'.Sound() && Shows(fs, v') && v'.dirs == v.dirs
    ensures status == 0 ==>
      path != [] && Parent(v, path).Some? && Removed(v, v', Parent(v, path).value, path[|path| - 1])
    ensures status != 0 ==> status == -1 && v' == v
    ensures status == 0 <==> path != [] && Lookup(v, path).Some? && !IsDirectory(Lookup(v, path).value)
  {
    hide FatOf, View.Sound, HasHead, Removed, EntryIn, Walk, Geometry.Ok;
    status, v' := -1, v;
    if path == [] {
      return;
    }
    var ok, parent := ResolveParent(fs, path, v);
    if !ok {
      return;
    }
    status, v' := RemoveEntry(fs, parent, path[|path| - 1], v);
  }
}
