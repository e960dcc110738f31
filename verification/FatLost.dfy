// What the code does when a write goes through a handle that has no cluster of its own: the handle of
// an entry whose cluster is 0, or of a file that was deleted since; and when that can harm the volume.
module FatLost {
  import opened Bytes
  import opened FatLayout
  import opened FatChains
  import opened FatContent
  import opened FatFrames
  import opened FatDirectory
  import opened FatVolume
  import opened FatFile
  import opened FatPen
  import opened FatTree
  import opened FatStray
  import opened FatOps
  import opened FatScenarios
  import opened FatHandles

  // `bytes` written to cluster 0 become the FAT entries there.
  lemma ZeroHitsFat(g: Geometry, d: Disk, bytes: seq<byte>, e: nat, i: nat)
    requires g.Ok(|d|) && |bytes| == g.BytesPerCluster() && InTheWay(g, e, i)
    ensures FatOf(g, PutAt(g, d, 0, bytes))[e] == Low28(Le32(bytes[512 * i..512 * i + 512], EntryOffset(e)))
  {
    hide Le32, Low28;
    EntryOnDisk(g, |d|, e);
    var lba := EntryLba(g, e);
    assert SectorLba(g, 0, i) == lba by {
      assert (0 - 2) * g.sectorsPerCluster == -2 * g.sectorsPerCluster;
    }
    SectorAtInverse(g, 0, i, lba);
    assert PutAt(g, d, 0, bytes)[lba] == bytes[512 * i..512 * i + 512];
  }

  ghost predicate AllZero(s: seq<byte>) { forall i :: 0 <= i < |s| ==> s[i] == 0 }

  lemma ZerosFree(g: Geometry, d: Disk, bytes: seq<byte>, e: nat, i: nat)
    requires g.Ok(|d|) && |bytes| == g.BytesPerCluster() && InTheWay(g, e, i) && AllZero(bytes)
    ensures FatOf(g, PutAt(g, d, 0, bytes))[e] == FREE
  {
    hide FatOf, PutAt;
    ZeroHitsFat(g, d, bytes, e, i);
  }

  // If a cluster of zeros goes there, and the root directory's entry is among those overwritten, the
  // disk is not that of any sound volume.
  lemma ZerosUnsound(g: Geometry, d: Disk, bytes: seq<byte>, i: nat, v: View)
    requires g.Ok(|d|) && |bytes| == g.BytesPerCluster() && InTheWay(g, g.rootCluster, i) && AllZero(bytes)
    requires v.g == g && v.d == PutAt(g, d, 0, bytes)
    ensures !v.Sound()
  {
    hide FatOf, PutAt, Geometry.Ok;
    ZerosFree(g, d, bytes, g.rootCluster, i);
    if v.Sound() {
      RootUsed(v);
      assert false;
    }
  }

  lemma RootUsed(v: View)
    requires v.Sound()
    ensures v.g.Ok(|v.d|) && v.g.InRange(v.g.rootCluster) && FatOf(v.g, v.d)[v.g.rootCluster] != FREE
  {
    hide FatOf, Content, Abstracts, IsChain;
    SoundIsChained(v);
    var ch := HeadChain(v.dirs, v.g.rootCluster);
    ChainedFacts(v, ch);
    ChainMembersUsed(FatOf(v.g, v.d), ch, ch[0]);
  }

  // The first bytes of `bytes` are those of `buf` from `n` on.
  predicate StartsWith(bytes: seq<byte>, buf: seq<byte>, n: nat)
  {
    n <= |buf| && if |bytes| <= |buf| - n then bytes == buf[n..n + |bytes|] else bytes[..|buf| - n] == buf[n..]
  }

  lemma FreshTurn(g: Geometry, s: Pen, seen: seq<byte>, buf: seq<byte>, n: nat)
    requires s.Fits(g) && |seen| == g.BytesPerCluster() && Place(g, s.offset) == 0 && n <= |buf|
    ensures var m := Room(g, s, |buf| - n);
      && m == Min(|buf| - n, g.BytesPerCluster())
      && StartsWith(Turn(g, s, seen, buf[n..n + m]).data, buf, n)
  {
    hide PutAt, Geometry.Ok, Place;
    var m := Room(g, s, |buf| - n);
    PatchParts(s.data, 0, buf[n..n + m]);
  }

  // Writing to an entry without a cluster, opened afresh: every byte is reported, and the first of them
  // overwrite the sectors in front of the data area.
  lemma ZeroRun(g: Geometry, s: Pen, seen: seq<byte>, buf: seq<byte>) returns (bytes: seq<byte>)
    requires s.Fits(g) && |seen| == g.BytesPerCluster() && s.cluster == 0 && s.offset == 0 && buf != []
    requires |buf| < WORD
    ensures |bytes| == g.BytesPerCluster() && StartsWith(bytes, buf, 0)
    ensures var r := Run(g, s, seen, buf);
      !r.broken && r.count == |buf| && r.pen.d == PutAt(g, s.d, 0, bytes)
  {
    hide PutAt, Geometry.Ok, StartsWith, Run, Patch;
    ClusterFitsBuffer(g, |s.d|);
    ZeroPlace(g);
    UnbrokenRun(g, s, seen, buf);
    RunNowhere(g, s, seen, buf);
    FreshTurn(g, s, seen, buf, 0);
    bytes := Turn(g, s, seen, buf[..Room(g, s, |buf|)]).data;
    assert buf[0..0 + Room(g, s, |buf|)] == buf[..Room(g, s, |buf|)];
  }

  lemma ZeroPlace(g: Geometry)
    requires g.sectorsPerCluster > 0
    ensures Place(g, 0) == 0
  {
  }

  // Writing to a file that was deleted since it was opened: every byte is reported, the first cluster of
  // them goes to a free cluster, and the next to the sectors in front of the data area.
  lemma FreedRun(g: Geometry, s: Pen, seen: seq<byte>, buf: seq<byte>) returns (bytes: seq<byte>, more: seq<byte>)
    requires s.Fits(g) && |seen| == g.BytesPerCluster() && s.offset == 0 && buf != [] && |buf| < WORD
    requires g.InRange(s.cluster) && FatOf(g, s.d)[s.cluster] == FREE
    ensures |bytes| == g.BytesPerCluster() && StartsWith(bytes, buf, 0)
    ensures |buf| > |bytes| ==> |more| == g.BytesPerCluster() && StartsWith(more, buf, |bytes|)
    ensures var r := Run(g, s, seen, buf);
      && !r.broken && r.count == |buf|
      && r.pen.d == if |buf| <= |bytes| then PutCluster(g, s.d, s.cluster, bytes)
                    else PutAt(g, PutCluster(g, s.d, s.cluster, bytes), 0, more)
  {
    hide PutAt, PutCluster, Geometry.Ok, FatOf, StartsWith, Run, Patch;
    ClusterFitsBuffer(g, |s.d|);
    ZeroPlace(g);
    UnbrokenRun(g, s, seen, buf);
    RunFreed(g, s, seen, buf);
    FreshTurn(g, s, seen, buf, 0);
    var m := Room(g, s, |buf|);
    assert buf[0..0 + m] == buf[..m];
    var t := Turn(g, s, seen, buf[..m]);
    bytes, more := t.data, [];
    if m < |buf| {
      ChunkEnds(g, 0, |buf|, m);
      var u, rest := t.(cluster := FREE), buf[m..];
      FreshTurn(g, u, u.data, buf, m);
      var k := Room(g, u, |rest|);
      assert rest[..k] == buf[m..m + k];
      more := Turn(g, u, u.data, rest[..k]).data;
    }
  }

  // ----- when such a write can harm the volume -----

  // The disk is that of some sound volume.
  ghost predicate OfSound(g: Geometry, d: Disk) { exists v: View :: v.Sound() && v.g == g && v.d == d }

  // No entry of a sound volume names its own cluster.
  lemma NoLoop(v: View, e: nat)
    requires v.Sound() && v.g.Ok(|v.d|) && v.g.InRange(e)
    ensures FatOf(v.g, v.d)[e] != e
  {
    hide FatOf, Content, IsChain;
    if FatOf(v.g, v.d)[e] == e {
      NoMark(v.g, |v.d|, e);
      ClusterNumbersSmall(v.g, |v.d|);
      var ch :| ch in v.cs && e in ch;
      ChainInRange(v.g, v.d, v.cs, ch);
      var k :| 0 <= k < |ch| && ch[k] == e;
      ChainNext(v.g, v.d, ch, k);
      assert false;
    }
  }

  // A cluster of zeros but for the word `e` where entry `e` lies in sector `i`.
  function LoopBytes(g: Geometry, e: nat, i: nat): (bytes: seq<byte>)
    requires e < WORD && i < g.sectorsPerCluster
    ensures |bytes| == g.BytesPerCluster()
  {
    Patch(Zeros(g.BytesPerCluster()), 512 * i + EntryOffset(e), ToLe32(e))
  }

  lemma LoopWord(g: Geometry, e: nat, i: nat)
    requires e < WORD && i < g.sectorsPerCluster
    ensures Le32(LoopBytes(g, e, i)[512 * i..512 * i + 512], EntryOffset(e)) == e
  {
    hide Patch, ToLe32;
    var bytes, at := LoopBytes(g, e, i), 512 * i + EntryOffset(e);
    PatchedWord(Zeros(g.BytesPerCluster()), at, e, at);
    assert bytes[512 * i..512 * i + 512][EntryOffset(e)..EntryOffset(e) + 4] == bytes[at..at + 4];
  }

  // If an entry is in the way, these bytes written to cluster 0 leave no sound volume.
  lemma LoopUnsound(g: Geometry, d: Disk, e: nat, i: nat)
    requires g.Ok(|d|) && InTheWay(g, e, i) && 2 <= e < WORD
    ensures !OfSound(g, PutAt(g, d, 0, LoopBytes(g, e, i)))
  {
    hide FatOf, PutAt, Geometry.Ok, View.Sound, LoopBytes, Le32;
    LoopWord(g, e, i);
    ZeroHitsFat(g, d, LoopBytes(g, e, i), e, i);
    SmallEntries(g, |d|, e);
    if OfSound(g, PutAt(g, d, 0, LoopBytes(g, e, i))) {
      var v: View :| v.Sound() && v.g == g && v.d == PutAt(g, d, 0, LoopBytes(g, e, i));
      NoLoop(v, e);
    }
  }

  lemma EntryInTheWay(v: View) returns (e: nat, i: nat)
    requires v.Sound() && Exposed(v.g)
    ensures v.g.Ok(|v.d|) && InTheWay(v.g, e, i) && 2 <= e < WORD
  {
    hide FatOf, View.Sound, Exposed;
    RootUsed(v);
    ClusterNumbersSmall(v.g, |v.d|);
    ClusterFitsBuffer(v.g, |v.d|);
    ExposedIff(v.g);
    e, i :| InTheWay(v.g, e, i);
    // entries 0 and 1 are in the sector of entry 2
    if e < 2 {
      e := 2;
    }
  }

  // A write of `buf` through a handle, as it was opened, whose cluster is `c`.
  ghost predicate WriteFromOpen(v: View, c: nat, s: Pen, seen: seq<byte>, again: seq<byte>, buf: seq<byte>, t: Pen, n: nat)
  {
    && s.Fits(v.g) && s.d == v.d && s.cluster == c && s.offset == 0 && |buf| < WORD
    && |seen| == v.g.BytesPerCluster() == |again| && Writes(v.g, s, seen, again, buf, t, n)
  }

  // Whatever is written, a write through a handle whose cluster is 0 or free leaves a sound volume,
  // exactly if no FAT entry is in the way.
  lemma HarmlessIff(v: View, c: nat)
    requires v.Sound() && v.g.Ok(|v.d|) && (c == 0 || (v.g.InRange(c) && FatOf(v.g, v.d)[c] == FREE))
    ensures (forall s: Pen, seen, again, buf, t: Pen, n :: WriteFromOpen(v, c, s, seen, again, buf, t, n) ==> OfSound(v.g, t.d))
            <==> !Exposed(v.g)
  {
    hide FatOf, View.Sound, Exposed, Writes, OfSound, SameVolume, Geometry.Ok, Run;
    if !Exposed(v.g) {
      forall s: Pen, seen, again, buf, t: Pen, n | WriteFromOpen(v, c, s, seen, again, buf, t, n)
        ensures OfSound(v.g, t.d)
      {
        WritesStray(v.g, s, seen, again, buf, t, n);
        SameSound(v, t.d);
        IsOfSound(v.(d := t.d));
      }
    } else {
      var s, seen, buf, t := Harm(v, c);
      assert WriteFromOpen(v, c, s, seen, seen, buf, t, |buf|);
    }
  }

  lemma IsOfSound(v: View)
    requires v.Sound()
    ensures OfSound(v.g, v.d)
  {
    hide View.Sound;
  }

  lemma WholeStart(bytes: seq<byte>, buf: seq<byte>, n: nat)
    requires StartsWith(bytes, buf, n) && |buf| == n + |bytes|
    ensures bytes == buf[n..]
  {
  }

  lemma Harm(v: View, c: nat) returns (s: Pen, seen: seq<byte>, buf: seq<byte>, t: Pen)
    requires v.Sound() && v.g.Ok(|v.d|) && (c == 0 || (v.g.InRange(c) && FatOf(v.g, v.d)[c] == FREE)) && Exposed(v.g)
    ensures WriteFromOpen(v, c, s, seen, seen, buf, t, |buf|) && !OfSound(v.g, t.d)
  {
    hide FatOf, View.Sound, Exposed, OfSound, Geometry.Ok, Run, StartsWith, PutAt, PutCluster, LoopBytes, Writes;
    var e, i := EntryInTheWay(v);
    ClusterFitsBuffer(v.g, |v.d|);
    var bpc := v.g.BytesPerCluster();
    var bytes, more;
    seen, buf := Zeros(bpc), LoopBytes(v.g, e, i);
    s := Pen(v.d, c, 0, 0, seen);
    if c == 0 {
      bytes := ZeroRun(v.g, s, seen, buf);
      WholeStart(bytes, buf, 0);
      LoopUnsound(v.g, v.d, e, i);
    } else {
      buf := Zeros(bpc) + buf;
      bytes, more := FreedRun(v.g, s, seen, buf);
      WholeStart(more, buf, bpc);
      LoopUnsound(v.g, PutCluster(v.g, v.d, c, bytes), e, i);
    }
    t := Run(v.g, s, seen, buf).pen;
    RunIsWrite(v.g, s, seen, buf);
  }

  lemma RunIsWrite(g: Geometry, s: Pen, seen: seq<byte>, buf: seq<byte>)
    requires s.Fits(g) && |seen| == g.BytesPerCluster() && !Run(g, s, seen, buf).broken
    ensures Writes(g, s, seen, seen, buf, Run(g, s, seen, buf).pen, Run(g, s, seen, buf).count)
  {
    hide Run, Geometry.Ok;
  }

  // ----- the code's runs -----

  // Open an entry without a cluster and write to it.
  method WriteToEmpty(fs: Volume, path: seq<Name>, buf: seq<byte>, ghost v: View) returns (w: int, ghost bytes: seq<byte>)
    requires fs.Mounted() && Shows(fs, v) && v.Sound() && path != [] && buf != [] && |buf| < WORD
    requires Lookup(v, path).Some? && !IsDirectory(Lookup(v, path).value) && SlotCluster(Lookup(v, path).value) == 0
    modifies fs.disk
    ensures w == |buf| && |bytes| == fs.g.BytesPerCluster() && StartsWith(bytes, buf, 0)
    ensures fs.disk[..] == PutAt(fs.g, v.d, 0, bytes)
    ensures !Exposed(fs.g) ==> v.(d := fs.disk[..]).Sound()
    ensures forall i, v': View :: InTheWay(fs.g, fs.g.rootCluster, i) && AllZero(bytes) && Shows(fs, v') ==> !v'.Sound()
  {
    hide View.Sound, EntryIn, Walk, Lookup, HasHead, Geometry.Ok, Run, PutAt, StartsWith, Place, AllZero, InTheWay, Exposed,
         SameVolume, Seen;
    var file := Open(fs, path, v);
    ClusterFitsBuffer(fs.g, fs.disk.Length);
    var scratch := new byte[BUFFER_SIZE];
    ghost var seen, again;
    ghost var s := PenOf(file, scratch);
    w, seen, again := Write(file, buf, scratch);
    bytes := ZeroRun(fs.g, s, seen, buf);
    if !Exposed(fs.g) {
      ZeroKeeps(fs.g, v.d, bytes);
      SameSound(v, fs.disk[..]);
    }
    forall i, v': View | InTheWay(fs.g, fs.g.rootCluster, i) && AllZero(bytes) && Shows(fs, v')
      ensures !v'.Sound()
    {
      ZerosUnsound(fs.g, v.d, bytes, i, v');
    }
  }

  // Open a file, delete it and write through the handle that is still open. The first cluster's length of
  // bytes does no harm on any volume.
  method WriteAfterDelete(fs: Volume, path: seq<Name>, buf: seq<byte>, ghost v: View)
    returns (deleted: int, w: int, ghost v1: View, ghost bytes: seq<byte>, ghost more: seq<byte>)
    requires fs.Mounted() && Shows(fs, v) && v.Sound() && path != [] && buf != [] && |buf| < WORD
    requires Lookup(v, path).Some? && !IsDirectory(Lookup(v, path).value) && SlotCluster(Lookup(v, path).value) != 0
    modifies fs.disk
    ensures deleted == 0 && v1.Sound() && v1.g == fs.g && fs.g.Ok(|v1.d|) && w == |buf|
    ensures Parent(v, path).Some? && Removed(v, v1, Parent(v, path).value, path[|path| - 1])
    ensures |bytes| == fs.g.BytesPerCluster() && StartsWith(bytes, buf, 0)
    ensures |buf| > |bytes| ==> |more| == fs.g.BytesPerCluster() && StartsWith(more, buf, |bytes|)
    ensures var c := SlotCluster(Lookup(v, path).value);
      && fs.g.InRange(c)
      && fs.disk[..] == if |buf| <= |bytes| then PutCluster(fs.g, v1.d, c, bytes)
                        else PutAt(fs.g, PutCluster(fs.g, v1.d, c, bytes), 0, more)
    ensures !Exposed(fs.g) || |buf| <= |bytes| ==> v1.(d := fs.disk[..]).Sound()
    ensures forall i, v': View ::
      |buf| > |bytes| && InTheWay(fs.g, fs.g.rootCluster, i) && AllZero(more) && Shows(fs, v') ==> !v'.Sound()
  {
    hide View.Sound, EntryIn, Walk, Lookup, HasHead, Geometry.Ok, Run, PutAt, PutCluster, StartsWith, Place, Removed,
         FatOf, AllZero, InTheWay, Exposed, SameVolume, Seen;
    var file := Open(fs, path, v);
    ClusterFitsBuffer(fs.g, fs.disk.Length);
    deleted, v1 := Delete(fs, path, v);
    RemovedFrees(v, v1, path);
    var scratch := new byte[BUFFER_SIZE];
    ghost var seen, again;
    ghost var s := PenOf(file, scratch);
    w, seen, again := Write(file, buf, scratch);
    bytes, more := FreedRun(fs.g, s, seen, buf);
    PutFreeSound(v1, s.cluster, bytes);
    if !Exposed(fs.g) && |buf| > |bytes| {
      ZeroKeeps(fs.g, PutCluster(fs.g, v1.d, s.cluster, bytes), more);
      SameSound(v1.(d := PutCluster(fs.g, v1.d, s.cluster, bytes)), fs.disk[..]);
    }
    forall i, v': View | |buf| > |bytes| && InTheWay(fs.g, fs.g.rootCluster, i) && AllZero(more) && Shows(fs, v')
      ensures !v'.Sound()
    {
      ZerosUnsound(fs.g, PutCluster(fs.g, v1.d, s.cluster, bytes), more, i, v');
    }
  }

  // Writing to a free cluster does no harm.
  lemma PutFreeSound(v: View, c: nat, bytes: seq<byte>)
    requires v.Sound() && v.g.Ok(|v.d|) && v.g.InRange(c) && FatOf(v.g, v.d)[c] == FREE && |bytes| == v.g.BytesPerCluster()
    ensures v.(d := PutCluster(v.g, v.d, c, bytes)).Sound()
  {
    hide View.Sound, FatOf, PutAt, PutCluster, Geometry.Ok, SameVolume;
    FreeKeeps(v.g, v.d, c, bytes);
    PutAtInRange(v.g, v.d, c, bytes);
    SameSound(v, PutCluster(v.g, v.d, c, bytes));
  }

  lemma RemovedFrees(v: View, v1: View, path: seq<Name>)
    requires v.Sound() && v1.Sound() && path != [] && Lookup(v, path).Some? && Parent(v, path).Some?
    requires Removed(v, v1, Parent(v, path).value, path[|path| - 1]) && SlotCluster(Lookup(v, path).value) != 0
    ensures var c := SlotCluster(Lookup(v, path).value);
      v1.g == v.g && v.g.Ok(|v1.d|) && v.g.InRange(c) && FatOf(v.g, v1.d)[c] == FREE
  {
    hide View.Sound, FatOf, FatFrame, Content, ScanFrom, HasHead, EntryIn, Patch, Walk, IsChain;
    OpenedFile(v, path);
    var c := SlotCluster(Lookup(v, path).value);
    FileFacts(v, c);
    SoundIsChained(v1);
    assert ChainAt(v.cs - v.dirs, c)[0] in ChainAt(v.cs - v.dirs, c);
  }
}
