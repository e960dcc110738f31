// Opening a file by its path and reading it from the start: what reaches the caller of what the file's
// entry and its chain hold.
module FatOpened {
  import opened Bytes
  import opened FatLayout
  import opened FatChains
  import opened FatContent
  import opened FatDirectory
  import opened FatFormat
  import opened FatVolume
  import opened FatFile
  import opened FatTree
  import opened FatOps
  import R = FatRead

  // What the chain that starts at `c` holds.
  ghost function Stored(v: View, c: nat): seq<byte>
    requires v.Sound() && HasHead(v.cs - v.dirs, c)
  {
    FileFacts(v, c);
    Content(v.g, v.d, ChainAt(v.cs - v.dirs, c))
  }

  // The entry at `path` is laid out from `f`.
  ghost predicate Lists(v: View, path: seq<Name>, f: Fields)
    requires v.Sound() && path != []
  {
    Formed(f) && Lookup(v, path) == Some(EntrySlot(f))
  }

  // A file's chain starts at its entry's cluster.
  lemma ListedChain(v: View, path: seq<Name>, f: Fields)
    requires v.Sound() && path != [] && Lists(v, path, f) && !f.attributes.directory && f.cluster != 0
    ensures HasHead(v.cs - v.dirs, f.cluster)
  {
    hide View.Sound, EntrySlot, Walk, HasHead, SlotSize, SlotCluster, IsDirectory, Visible, EntryIn;
    EntryReads(f);
    EntryFacts(v, Parent(v, path).value, path[|path| - 1]);
  }

  lemma Opened(v: View, path: seq<Name>, f: Fields, cluster: nat, size: nat, directory: bool)
    requires v.Sound() && path != [] && Lists(v, path, f) && Says(Lookup(v, path).value, cluster, size, directory)
    ensures cluster == f.cluster && size == f.size && (directory <==> f.attributes.directory)
  {
    hide View.Sound, EntrySlot, Lookup;
  }

  // What a first read hands out.
  ghost predicate ReadFrom(v: View, f: Fields, size: nat, n: int, given: seq<byte>)
    requires v.Sound()
  {
    if f.attributes.directory then n == -1
    else
      && 0 <= n <= Min(size, f.size) && n == |given|
      && (f.cluster != 0 ==>
            && HasHead(v.cs - v.dirs, f.cluster)
            && n == Min(Min(size, f.size), |Stored(v, f.cluster)|) && given == Stored(v, f.cluster)[..n])
  }

  lemma ReadsPrefix(v: View, f: Fields, size: nat, read: seq<byte>, given: seq<byte>, k: nat, o: nat)
    requires v.Sound() && !f.attributes.directory && HasHead(v.cs - v.dirs, f.cluster) && |read| <= Min(size, f.size)
    requires v.g.Ok(|v.d|) && AllInRange(v.g, ChainAt(v.cs - v.dirs, f.cluster))
    requires k < |ChainAt(v.cs - v.dirs, f.cluster)| && o <= v.g.BytesPerCluster() && given == read
    requires R.Between(v.g, v.d, ChainAt(v.cs - v.dirs, f.cluster), 0, 0, k, o, read)
    requires |read| < size && |read| < f.size ==>
      o == v.g.BytesPerCluster() && k + 1 == |ChainAt(v.cs - v.dirs, f.cluster)|
    ensures ReadFrom(v, f, size, |read|, given)
  {
    hide View.Sound, Content, Geometry.Ok, R.Between, HasHead, AllInRange;
    var ch := ChainAt(v.cs - v.dirs, f.cluster);
    R.BetweenIsSlice(v.g, v.d, ch, 0, 0, k, o, read);
    ContentLength(v.g, v.d, ch);
    OffsetSteps(v.g, k, 0, 0);
  }

  lemma NothingStored(v: View, f: Fields, size: nat, n: int, given: seq<byte>)
    requires v.Sound() && (f.attributes.directory || f.cluster == 0)
    requires if f.attributes.directory then n == -1 else 0 <= n <= size && n == |given| && (n > 0 ==> n <= f.size)
    ensures ReadFrom(v, f, size, n, given)
  {
    hide View.Sound;
  }

  lemma Listed(v: View, path: seq<Name>, f: Fields)
    requires v.Sound() && path != [] && Lists(v, path, f)
    ensures Formed(f) && Lookup(v, path).Some?
  {
    hide View.Sound, Lookup, EntrySlot;
  }

  // A handle fresh from opening stands at its chain's first byte and is not stale.
  lemma AtStart(file: File, ch: Chain, d: Disk)
    requires file.fs.Mounted() && file.currentOffset == 0 && ch != [] && file.currentCluster == ch[0]
    requires file.fs.g.Ok(|d|) && IsChain(FatOf(file.fs.g, d), ch)
    ensures Place(file.fs.g, 0) == 0 && Stands(file, ch, 0, 0) && !R.Stale(file) && file.fs.g.Offset(0, 0) == 0
  {
    hide Geometry.Ok;
    R.ChainStart(file.fs.g, d, ch);
  }

  lemma Handed(was: seq<byte>, leftover: seq<byte>, read: seq<byte>)
    requires |read| <= |was|
    ensures Patch(was, 0, R.Delivered(false, leftover, read))[..|read|] == read
  {
    PatchParts(was, 0, read);
  }

  // Opening a path whose entry is laid out from `f`, and reading: the smaller of what is asked for, the
  // entry's size and what the chain holds, and of that the bytes from the file's start.
  method OpenAndRead(fs: Volume, path: seq<Name>, size: nat, ghost f: Fields, ghost v: View) returns (n: int, out: array<byte>)
    requires fs.Mounted() && Shows(fs, v) && v.Sound() && path != [] && Lists(v, path, f)
    ensures n <= out.Length && ReadFrom(v, f, size, n, out[..Max(n, 0)])
  {
    hide View.Sound, Content, Geometry.Ok, R.Between, HasHead, AllInRange, FatOf, IsChain, Lookup, EntrySlot, Stored, Patch,
         R.Delivered, Geometry.Offset, ReadFrom, Says, Lists, Place, Moved, R.Stale, Stands;
    Listed(v, path, f);
    ClusterFitsBuffer(fs.g, fs.disk.Length);
    var file := Open(fs, path, v);
    Opened(v, path, f, file.firstCluster, file.fileSize, file.isDirectory);
    out := new byte[size];
    var frame := new byte[BUFFER_SIZE];
    ghost var live, ch := !f.attributes.directory && f.cluster != 0, [];
    if live {
      ListedChain(v, path, f);
      FileFacts(v, f.cluster);
      ch := ChainAt(v.cs - v.dirs, f.cluster);
      AtStart(file, ch, v.d);
    }
    ghost var was, read, k, o := out[..], [], 0, 0;
    ghost var leftover := frame[..v.g.BytesPerCluster()];
    n, read, k, o := R.Read(file, size, out, frame, live, ch, 0);
    if live {
      Handed(was, leftover, read);
      ReadsPrefix(v, f, size, read, out[..n], k, o);
    } else {
      NothingStored(v, f, size, n, out[..Max(n, 0)]);
    }
  }
}
