// Writes through a handle whose cluster is on no chain: a free one, cluster 0 or a mark. Whether they can
// harm a volume is decided by its geometry.
module FatStray {
  import opened Bytes
  import opened FatLayout
  import opened FatChains
  import opened FatContent
  import opened FatFrames
  import opened FatVolume
  import opened FatFile
  import opened FatPen
  import opened FatTree
  import M = FatMount

  // FAT entry `e` lies in the sector in front of the data area that the code takes for sector `i` of
  // cluster 0. With one FAT, the sectors there are the last of the FAT.
  predicate InTheWay(g: Geometry, e: nat, i: nat)
  {
    && e < g.totalClusters + 2 && i < g.sectorsPerCluster
    && EntryLba(g, e) == g.partitionStart + g.dataStart - 2 * g.sectorsPerCluster + i
  }

  // The sectors of the FAT that hold entries reach into those that the code takes for cluster 0.
  predicate Exposed(g: Geometry)
  {
    && g.fatStart < g.dataStart - g.sectorsPerCluster
    && g.dataStart - 2 * g.sectorsPerCluster <= g.fatStart + (g.totalClusters + 1) * 4 / 512
  }

  lemma ExposedIff(g: Geometry)
    requires g.sectorsPerCluster > 0
    ensures Exposed(g) <==> exists e, i :: InTheWay(g, e, i)
  {
    if Exposed(g) {
      var from := g.dataStart - 2 * g.sectorsPerCluster;
      var x := if g.fatStart < from then from else g.fatStart;
      assert InTheWay(g, (x - g.fatStart) * 128, x - from);
    }
  }

  // A second FAT of at least two clusters' length keeps the first one's entries out of the way.
  lemma TwoFatsApart(g: Geometry, n: nat, fats: nat)
    requires g.Ok(n) && g.dataStart == g.fatStart + fats * g.fatSize && fats >= 2 && g.fatSize >= 2 * g.sectorsPerCluster
    ensures !Exposed(g)
  {
    assert fats * g.fatSize >= 2 * g.fatSize;
  }

  // So it can be told from the boot sector.
  lemma MountedApart(boot: Sector, partitionStart: nat, sectors: nat)
    requires boot[13] != 0 && M.Mount(boot, partitionStart).Mounted? && M.Mount(boot, partitionStart).g.Ok(sectors)
    requires Le16(boot, 14) + boot[16] as nat * Le32(boot, 36) < WORD
    requires boot[16] >= 2 && Le32(boot, 36) >= 2 * boot[13] as nat
    ensures !Exposed(M.Mount(boot, partitionStart).g)
  {
    hide Le16, Le32, Geometry.Ok, M.TotalSectors, Exposed;
    NoWrap(Le16(boot, 14) + boot[16] as nat * Le32(boot, 36));
    TwoFatsApart(M.Mount(boot, partitionStart).g, sectors, boot[16] as nat);
  }

  // Cluster 0 covers the second cluster's length in front of the data area, as far as the device has it.
  lemma ZeroSector(g: Geometry, n: nat, l: nat)
    requires g.Ok(n) && l < n
    ensures SectorAt(g, 0, l) < g.sectorsPerCluster <==>
      g.partitionStart + g.dataStart - 2 * g.sectorsPerCluster <= l < g.partitionStart + g.dataStart - g.sectorsPerCluster
  {
    var x := l - g.partitionStart - g.dataStart + 2 * g.sectorsPerCluster;
    assert 0 <= g.totalClusters * g.sectorsPerCluster;
    assert (0 - 2) * g.sectorsPerCluster == -2 * g.sectorsPerCluster;
    assert 0 <= x + MAX_SECTORS && x < MAX_SECTORS + 16;
    assert SectorAt(g, 0, l) == if x < 0 then x + WORD else x;
  }

  // ----- what does no harm -----

  // Disk `d'` has the same FAT as `d`, and the same bytes in every cluster that is not free.
  ghost predicate SameVolume(g: Geometry, d: Disk, d': Disk)
    requires g.Ok(|d|)
  {
    && |d'| == |d| && FatOf(g, d') == FatOf(g, d)
    && forall c: nat :: g.InRange(c) && FatOf(g, d)[c] != FREE ==> ClusterBytes(g, d', c) == ClusterBytes(g, d, c)
  }

  lemma SameVolumeTrans(g: Geometry, d: Disk, d': Disk, d'': Disk)
    requires g.Ok(|d|) && SameVolume(g, d, d') && SameVolume(g, d', d'')
    ensures SameVolume(g, d, d'')
  {
    hide FatOf, ClusterBytes, Geometry.Ok;
  }

  lemma ZeroKeepsEntry(g: Geometry, d: Disk, s: seq<byte>, e: nat)
    requires g.Ok(|d|) && |s| == g.BytesPerCluster() && !Exposed(g) && e < g.totalClusters + 2
    ensures RawEntry(g, PutAt(g, d, 0, s), e) == RawEntry(g, d, e)
  {
    hide SectorAt, Exposed, Le32;
    EntryOnDisk(g, |d|, e);
    var l := EntryLba(g, e);
    ZeroSector(g, |d|, l);
    ExposedIff(g);
    var i := l - (g.partitionStart + g.dataStart - 2 * g.sectorsPerCluster);
    if 0 <= i {
      assert !InTheWay(g, e, i);
    }
  }

  lemma ZeroKeepsCluster(g: Geometry, d: Disk, s: seq<byte>, c: nat)
    requires g.Ok(|d|) && |s| == g.BytesPerCluster() && g.InRange(c)
    ensures ClusterBytes(g, PutAt(g, d, 0, s), c) == ClusterBytes(g, d, c)
  {
    hide SectorAt, Geometry.Ok, ClusterLba;
    ClusterOnDisk(g, |d|, c);
    forall l | ClusterLba(g, c) <= l < ClusterLba(g, c) + g.sectorsPerCluster
      ensures PutAt(g, d, 0, s)[l] == d[l]
    {
      ZeroSector(g, |d|, l);
    }
  }

  // If no entry is in the way, no write to cluster 0 touches the FAT or a cluster.
  lemma ZeroKeeps(g: Geometry, d: Disk, s: seq<byte>)
    requires g.Ok(|d|) && |s| == g.BytesPerCluster() && !Exposed(g)
    ensures SameVolume(g, d, PutAt(g, d, 0, s))
  {
    hide PutAt, RawEntry, ClusterBytes, Exposed, Geometry.Ok;
    forall e | 0 <= e < g.totalClusters + 2
      ensures RawEntry(g, PutAt(g, d, 0, s), e) == RawEntry(g, d, e)
    {
      ZeroKeepsEntry(g, d, s, e);
    }
    forall c: nat | g.InRange(c)
      ensures ClusterBytes(g, PutAt(g, d, 0, s), c) == ClusterBytes(g, d, c)
    {
      ZeroKeepsCluster(g, d, s, c);
    }
  }

  lemma FreeKeeps(g: Geometry, d: Disk, c: nat, s: seq<byte>)
    requires g.Ok(|d|) && |s| == g.BytesPerCluster() && g.InRange(c) && FatOf(g, d)[c] == FREE
    ensures SameVolume(g, d, PutAt(g, d, c, s))
  {
    hide PutAt, PutCluster, RawEntry, ClusterBytes, Geometry.Ok, FatOf;
    PutAtInRange(g, d, c, s);
    PutClusterRefines(g, d, c, s);
  }

  lemma SameSound(v: View, d: Disk)
    requires v.Sound() && v.g.Ok(|v.d|) && SameVolume(v.g, v.d, d)
    ensures v.(d := d).Sound() && FatOf(v.g, d) == FatOf(v.g, v.d)
    ensures forall ch :: ch in v.cs ==> AllInRange(v.g, ch) && Content(v.g, d, ch) == Content(v.g, v.d, ch)
  {
    hide Abstracts, Content, FatOf, IsChain, AllInRange, ClusterBytes;
    ChainedFrom(v.g, d, v.cs, v.dirs);
    forall ch | ch in v.cs
      ensures AllInRange(v.g, ch) && Content(v.g, d, ch) == Content(v.g, v.d, ch)
    {
      ChainedFacts(v, ch);
      InRangeMembers(v.g, ch);
      forall c | c in ch
        ensures FatOf(v.g, v.d)[c] != FREE
      {
        ChainMembersUsed(FatOf(v.g, v.d), ch, c);
      }
      ContentFrame(v.g, v.d, d, ch);
    }
    Carried(v, v.(d := d));
  }

  // ----- runs from such a cluster -----

  predicate Stray(g: Geometry, d: Disk, c: nat)
    requires g.Ok(|d|)
  {
    c == 0 || IsMark(c) || (g.InRange(c) && FatOf(g, d)[c] == FREE)
  }

  lemma NoMark(g: Geometry, n: nat, c: nat)
    requires g.Ok(n) && g.InRange(c)
    ensures c != 0 && !IsMark(c)
  {
    ClusterNumbersSmall(g, n);
  }

  lemma StrayPut(g: Geometry, d: Disk, c: nat, s: seq<byte>)
    requires g.Ok(|d|) && |s| == g.BytesPerCluster() && Stray(g, d, c) && !Exposed(g)
    ensures SameVolume(g, d, PutAt(g, d, c, s))
  {
    hide PutAt, ClusterBytes, Geometry.Ok, FatOf, Exposed;
    if c == 0 {
      ZeroKeeps(g, d, s);
    } else if IsMark(c) {
      PutAtMark(g, d, c, s);
    } else {
      FreeKeeps(g, d, c, s);
    }
  }

  // A free cluster leads to cluster 0, and that to a mark.
  lemma StrayOnward(g: Geometry, d: Disk, c: nat)
    requires g.Ok(|d|) && Stray(g, d, c)
    ensures var s := Onward(g, d, c);
      s.To? && s.d == d && Stray(g, d, s.cluster) && s.cluster < END_OF_CHAIN && s.cluster == Next(g, d, c)
  {
    hide FatOf, Geometry.Ok;
    if IsMark(c) {
      MarkOutside(g, |d|, c);
    }
  }

  lemma StraySame(g: Geometry, d: Disk, d': Disk, c: nat)
    requires g.Ok(|d|) && SameVolume(g, d, d') && Stray(g, d, c)
    ensures g.Ok(|d'|) && Stray(g, d', c)
  {
    hide FatOf, ClusterBytes, Geometry.Ok;
  }

  lemma {:induction false} RunStray(g: Geometry, s: Pen, seen: seq<byte>, buf: seq<byte>)
    requires s.Fits(g) && |seen| == g.BytesPerCluster() && Stray(g, s.d, s.cluster) && !Exposed(g)
    ensures var r := Run(g, s, seen, buf);
      SameVolume(g, s.d, r.pen.d) && Stray(g, r.pen.d, r.pen.cluster) && (r.count == |buf| || r.broken)
    decreases |buf|
  {
    hide PutAt, Patch, Geometry.Ok, FatOf, Place, Onward, SameVolume, Stray, Exposed, Run;
    if buf == [] {
      RunNothing(g);
      SameVolumeSelf(g, s.d);
    } else {
      RunTurn(g, s, seen, buf);
      var m := Room(g, s, |buf|);
      var t := Turn(g, s, seen, buf[..m]);
      StrayPut(g, s.d, s.cluster, t.data);
      StraySame(g, s.d, t.d, s.cluster);
      if m < |buf| && Place(g, t.offset) == 0 {
        StrayOnward(g, t.d, t.cluster);
        var u := t.(cluster := Onward(g, t.d, t.cluster).cluster);
        RunStray(g, u, u.data, buf[m..]);
        SameVolumeTrans(g, s.d, t.d, Run(g, u, u.data, buf[m..]).pen.d);
      }
    }
  }

  lemma SameVolumeSelf(g: Geometry, d: Disk)
    requires g.Ok(|d|)
    ensures SameVolume(g, d, d)
  {
  }

  // If no entry is in the way, a write through such a handle reports every byte and leaves the volume
  // as it was.
  lemma WritesStray(g: Geometry, s: Pen, seen: seq<byte>, again: seq<byte>, buf: seq<byte>, t: Pen, n: nat)
    requires s.Fits(g) && |seen| == g.BytesPerCluster() == |again| && Stray(g, s.d, s.cluster) && !Exposed(g)
    requires Writes(g, s, seen, again, buf, t, n)
    ensures SameVolume(g, s.d, t.d) && Stray(g, t.d, t.cluster) && n == |buf|
  {
    hide Geometry.Ok, SameVolume, Stray, Exposed, Run, Seen;
    var r := Run(g, s, seen, buf);
    RunStray(g, s, seen, buf);
    if r.broken {
      RunStray(g, r.pen, again, buf[r.count..]);
      SameVolumeTrans(g, s.d, r.pen.d, t.d);
    }
  }

  // ----- where a file's handle can be -----

  // 0, a mark, or a cluster of the volume that is not bad and no directory's.
  ghost predicate OutsideDirs(v: View, c: nat)
    requires v.Chained()
  {
    c == 0 || IsMark(c) || (v.g.InRange(c) && FatOf(v.g, v.d)[c] != BAD && forall ch :: ch in v.dirs ==> c !in ch)
  }

  // Such a cluster is on a file's chain or on none.
  lemma StrayOrOnFile(v: View, c: nat) returns (ch: Chain)
    requires v.Sound() && v.g.Ok(|v.d|) && OutsideDirs(v, c)
    ensures Stray(v.g, v.d, c) || (ch in v.cs - v.dirs && c in ch)
  {
    hide FatOf, Content, IsChain, AllInRange;
    ch := [];
    if !Stray(v.g, v.d, c) {
      ch :| ch in v.cs && c in ch;
    }
  }

  lemma FileOutside(v: View, ch: Chain, c: nat)
    requires v.Sound() && ch in v.cs - v.dirs && c in ch
    ensures v.g.Ok(|v.d|) && OutsideDirs(v, c)
  {
    hide FatOf, Content, IsChain;
    ChainedFacts(v, ch);
    InRangeMembers(v.g, ch);
    ChainMembersUsed(FatOf(v.g, v.d), ch, c);
    forall x | x in v.dirs
      ensures c !in x
    {
      if c in x {
        SharedClusterSameChain(v.cs, ch, x, c);
      }
    }
  }

  lemma OutsideNext(v: View, c: nat)
    requires v.Sound() && v.g.Ok(|v.d|) && OutsideDirs(v, c)
    ensures OutsideDirs(v, Next(v.g, v.d, c))
  {
    hide FatOf, Content, IsChain, View.Sound, Stray, OutsideDirs, Onward;
    var ch := StrayOrOnFile(v, c);
    if Stray(v.g, v.d, c) {
      StrayOnward(v.g, v.d, c);
      StrayOutside(v, Next(v.g, v.d, c));
    } else {
      SoundIsChained(v);
      ChainedFacts(v, ch);
      var k :| 0 <= k < |ch| && ch[k] == c;
      ChainNext(v.g, v.d, ch, k);
      if k + 1 < |ch| {
        FileOutside(v, ch, ch[k + 1]);
      } else {
        MarkOutsideDirs(v, Next(v.g, v.d, c));
      }
    }
  }

  lemma MarkOutsideDirs(v: View, c: nat)
    requires v.Chained() && IsMark(c)
    ensures OutsideDirs(v, c)
  {
  }

  lemma StrayOutside(v: View, c: nat)
    requires v.Sound() && v.g.Ok(|v.d|) && Stray(v.g, v.d, c)
    ensures OutsideDirs(v, c)
  {
    hide FatOf, Content, IsChain;
    forall ch | ch in v.dirs && c in ch
      ensures FatOf(v.g, v.d)[c] != FREE
    {
      ChainedFacts(v, ch);
      ChainMembersUsed(FatOf(v.g, v.d), ch, c);
    }
  }

  lemma {:induction false} OutsideAlong(v: View, c: nat, n: nat)
    requires v.Sound() && v.g.Ok(|v.d|) && OutsideDirs(v, c)
    ensures OutsideDirs(v, Along(v.g, v.d, c, n))
  {
    hide View.Sound, OutsideDirs, Next;
    if n > 0 {
      OutsideAlong(v, c, n - 1);
      OutsideNext(v, Along(v.g, v.d, c, n - 1));
    }
  }

  lemma OutsideMoved(v: View, c: nat, c': nat)
    requires v.Sound() && v.g.Ok(|v.d|) && OutsideDirs(v, c) && Moved(v.g, v.d, c, c')
    ensures OutsideDirs(v, c')
  {
    hide View.Sound, OutsideDirs;
    var n: nat :| c' == Along(v.g, v.d, c, n);
    OutsideAlong(v, c, n);
  }

  lemma {:induction false} MarkAlong(g: Geometry, d: Disk, c: nat, n: nat)
    requires g.Ok(|d|) && IsMark(c)
    ensures IsMark(Along(g, d, c, n))
  {
    hide FatOf, Geometry.Ok;
    if n > 0 {
      MarkAlong(g, d, c, n - 1);
      MarkOutside(g, |d|, Along(g, d, c, n - 1));
    }
  }

  lemma MarkMoved(g: Geometry, d: Disk, c: nat, c': nat)
    requires g.Ok(|d|) && Moved(g, d, c, c')
    ensures IsMark(c) ==> IsMark(c')
  {
    hide Geometry.Ok;
    var n: nat :| c' == Along(g, d, c, n);
    if IsMark(c) {
      MarkAlong(g, d, c, n);
    }
  }
}
