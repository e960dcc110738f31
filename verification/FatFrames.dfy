// What the disk-level steps leave alone: frames of the FAT and of the data area, and how they
// compose.
module FatFrames {
  import opened Bytes
  import opened FatLayout
  import opened FatChains
  import opened FatContent

  predicate Includes(s: seq<nat>, t: seq<nat>) { forall c :: c in t ==> c in s }

  // The number of the FAT entry that byte `b` of sector `l` belongs to.
  function EntryOfByte(g: Geometry, l: nat, b: nat): int { (l - g.partitionStart - g.fatStart) * 128 + b / 4 }

  // In front of the data area, every byte outside the FAT entries in `touched` is as before: the
  // reserved sectors and the second FAT copy included.
  ghost predicate MetaFrame(g: Geometry, d: Disk, d': Disk, touched: seq<nat>)
    requires g.Ok(|d|)
  {
    && |d'| == |d|
    && forall l, b :: 0 <= l < g.partitionStart + g.dataStart && 0 <= b < 512 && l < |d| && EntryOfByte(g, l, b) !in touched ==>
         d'[l][b] == d[l][b]
  }

  lemma MetaFrameTrans(g: Geometry, d: Disk, d': Disk, d'': Disk, s: seq<nat>, t: seq<nat>, all: seq<nat>)
    requires g.Ok(|d|) && MetaFrame(g, d, d', s) && MetaFrame(g, d', d'', t) && Includes(all, s) && Includes(all, t)
    ensures MetaFrame(g, d, d'', all)
  {
    hide EntryOfByte, Geometry.Ok;
  }

  lemma PutEntryMeta(g: Geometry, d: Disk, c: nat, value: nat)
    requires g.Ok(|d|) && g.InRange(c)
    ensures MetaFrame(g, d, PutEntry(g, d, c, value), [c])
  {
    EntryOnDisk(g, |d|, c);
    forall l, b | 0 <= l < g.partitionStart + g.dataStart && 0 <= b < 512 && l < |d| && EntryOfByte(g, l, b) !in [c]
      ensures PutEntry(g, d, c, value)[l][b] == d[l][b]
    {
      if l == EntryLba(g, c) {
        EntryBytes(g, c, b);
      }
    }
  }

  lemma EntryBytes(g: Geometry, c: nat, b: nat)
    requires b < 512
    ensures EntryOfByte(g, EntryLba(g, c), b) == c <==> EntryOffset(c) <= b < EntryOffset(c) + 4
  {
  }

  lemma PutClusterMeta(g: Geometry, d: Disk, c: nat, s: seq<byte>)
    requires g.Ok(|d|) && g.InRange(c) && |s| == g.BytesPerCluster()
    ensures MetaFrame(g, d, PutCluster(g, d, c, s), [])
  {
    ClusterOnDisk(g, |d|, c);
  }

  // In front of the data area, only the low 28 bits of the FAT entries in `touched` differ.
  ghost predicate FatFrame(g: Geometry, d: Disk, d': Disk, touched: seq<nat>)
    requires g.Ok(|d|)
  {
    && MetaFrame(g, d, d', touched)
    && forall c :: 0 <= c < g.totalClusters + 2 ==>
         && Top4(RawEntry(g, d', c)) == Top4(RawEntry(g, d, c))
         && (c !in touched ==> RawEntry(g, d', c) == RawEntry(g, d, c))
  }

  // The data area differs only in clusters of `touched`.
  ghost predicate DataFrame(g: Geometry, d: Disk, d': Disk, touched: seq<nat>)
    requires g.Ok(|d|)
  {
    && |d'| == |d|
    && forall c: nat :: g.InRange(c) && c !in touched ==> ClusterBytes(g, d', c) == ClusterBytes(g, d, c)
  }

  lemma FatFrameTrans(g: Geometry, d: Disk, d': Disk, d'': Disk, s: seq<nat>, t: seq<nat>, all: seq<nat>)
    requires g.Ok(|d|) && FatFrame(g, d, d', s) && FatFrame(g, d', d'', t) && Includes(all, s) && Includes(all, t)
    ensures FatFrame(g, d, d'', all)
  {
    hide RawEntry, Top4, Geometry.Ok, MetaFrame;
    MetaFrameTrans(g, d, d', d'', s, t, all);
    assert |d''| == |d| by {
      MetaFrameSize(g, d, d', s);
      MetaFrameSize(g, d', d'', t);
    }
  }

  lemma MetaFrameSize(g: Geometry, d: Disk, d': Disk, touched: seq<nat>)
    requires g.Ok(|d|) && MetaFrame(g, d, d', touched)
    ensures |d'| == |d|
  {
  }

  lemma DataFrameTrans(g: Geometry, d: Disk, d': Disk, d'': Disk, s: seq<nat>, t: seq<nat>, all: seq<nat>)
    requires g.Ok(|d|) && DataFrame(g, d, d', s) && DataFrame(g, d', d'', t) && Includes(all, s) && Includes(all, t)
    ensures DataFrame(g, d, d'', all)
  {
    hide ClusterBytes, Geometry.Ok;
  }

  lemma PutEntryFrames(g: Geometry, d: Disk, c: nat, value: nat)
    requires g.Ok(|d|) && g.InRange(c)
    ensures FatFrame(g, d, PutEntry(g, d, c, value), [c]) && DataFrame(g, d, PutEntry(g, d, c, value), [])
  {
    hide RawEntry, PutEntry, ClusterBytes, Geometry.Ok, MetaFrame;
    PutEntryMeta(g, d, c, value);
    PutEntryRefinesUpdate(g, d, c, value);
    forall x: nat | g.InRange(x)
      ensures ClusterBytes(g, PutEntry(g, d, c, value), x) == ClusterBytes(g, d, x)
    {
      PutEntryKeepsClusters(g, d, c, value, x);
    }
  }

  lemma PutClusterFrames(g: Geometry, d: Disk, c: nat, s: seq<byte>)
    requires g.Ok(|d|) && g.InRange(c) && |s| == g.BytesPerCluster()
    ensures FatFrame(g, d, PutCluster(g, d, c, s), []) && DataFrame(g, d, PutCluster(g, d, c, s), [c])
  {
    hide RawEntry, PutCluster, ClusterBytes, Geometry.Ok, MetaFrame;
    PutClusterMeta(g, d, c, s);
    PutClusterRefines(g, d, c, s);
  }

  // The disk after linking free cluster `c` behind `tail`.
  function LinkOnDisk(g: Geometry, d: Disk, tail: nat, c: nat): (d': Disk)
    requires g.Ok(|d|) && g.InRange(tail) && g.InRange(c)
    ensures |d'| == |d|
  {
    PutEntry(g, PutEntry(g, d, tail, c), c, END_OF_CHAIN)
  }

  lemma SmallEntries(g: Geometry, n: nat, c: nat)
    requires g.Ok(n) && g.InRange(c)
    ensures Low28(c) == c && Low28(END_OF_CHAIN) == END_OF_CHAIN && Low28(FREE) == FREE
  {
    ClusterNumbersSmall(g, n);
  }

  lemma LinkRefines(g: Geometry, d: Disk, tail: nat, c: nat)
    requires g.Ok(|d|) && g.InRange(tail) && g.InRange(c)
    ensures var d' := LinkOnDisk(g, d, tail, c);
      FatOf(g, d') == Linked(FatOf(g, d), tail, c) && FatFrame(g, d, d', [tail, c]) && DataFrame(g, d, d', [])
  {
    hide PutEntry, FatOf, FatFrame, DataFrame, Geometry.Ok, Low28;
    SmallEntries(g, |d|, c);
    var d1 := PutEntry(g, d, tail, c);
    PutEntryRefinesUpdate(g, d, tail, c);
    PutEntryRefinesUpdate(g, d1, c, END_OF_CHAIN);
    PutEntryFrames(g, d, tail, c);
    PutEntryFrames(g, d1, c, END_OF_CHAIN);
    FatFrameTrans(g, d, d1, LinkOnDisk(g, d, tail, c), [tail], [c], [tail, c]);
    DataFrameTrans(g, d, d1, LinkOnDisk(g, d, tail, c), [], [], []);
  }

  lemma ChainInRange(g: Geometry, d: Disk, cs: set<Chain>, ch: Chain)
    requires g.Ok(|d|) && Abstracts(FatOf(g, d), cs) && ch in cs
    ensures AllInRange(g, ch) && Distinct(ch) && IsChain(FatOf(g, d), ch)
  {
  }

  // If the entries that may differ have the same low 28 bits after all, no byte in front of the data
  // area differs.
  lemma FrontRestored(g: Geometry, d: Disk, d': Disk, touched: seq<nat>)
    requires g.Ok(|d|) && FatFrame(g, d, d', touched)
    requires forall c :: c in touched ==> g.InRange(c) && Low28(RawEntry(g, d', c)) == Low28(RawEntry(g, d, c))
    ensures |d'| == |d|
    ensures forall l :: 0 <= l < g.partitionStart + g.dataStart && l < |d| ==> d'[l] == d[l]
  {
    hide EntryOfByte, RawEntry;
    forall l, b | 0 <= l < g.partitionStart + g.dataStart && l < |d| && 0 <= b < 512
      ensures d'[l][b] == d[l][b]
    {
      var e := EntryOfByte(g, l, b);
      if e in touched {
        EntryAt(g, l, b, e);
        EntryOnDisk(g, |d|, e);
        SameEntrySameBytes(g, d, d', e);
        assert d'[l][b] == d'[l][EntryOffset(e)..EntryOffset(e) + 4][b - EntryOffset(e)];
        assert d[l][b] == d[l][EntryOffset(e)..EntryOffset(e) + 4][b - EntryOffset(e)];
      }
    }
  }

  lemma EntryAt(g: Geometry, l: nat, b: nat, e: nat)
    requires b < 512 && EntryOfByte(g, l, b) == e
    ensures l == EntryLba(g, e) && EntryOffset(e) <= b < EntryOffset(e) + 4
  {
  }

  lemma SameEntrySameBytes(g: Geometry, d: Disk, d': Disk, c: nat)
    requires g.Ok(|d|) && |d'| == |d| && g.InRange(c) && EntryLba(g, c) < |d|
    requires Top4(RawEntry(g, d', c)) == Top4(RawEntry(g, d, c)) && Low28(RawEntry(g, d', c)) == Low28(RawEntry(g, d, c))
    ensures var l, o := EntryLba(g, c), EntryOffset(c); d'[l][o..o + 4] == d[l][o..o + 4]
  {
    assert RawEntry(g, d', c) == RawEntry(g, d, c);
    SameWordSameBytes(d'[EntryLba(g, c)], d[EntryLba(g, c)], EntryOffset(c));
  }

  lemma ChainNext(g: Geometry, d: Disk, ch: Chain, k: nat)
    requires g.Ok(|d|) && IsChain(FatOf(g, d), ch) && k < |ch|
    ensures g.InRange(ch[k]) && ch[k] < END_OF_CHAIN
    ensures if k + 1 < |ch| then FatOf(g, d)[ch[k]] == ch[k + 1] < END_OF_CHAIN else FatOf(g, d)[ch[k]] >= END_OF_CHAIN
  {
    ClusterNumbersSmall(g, |d|);
  }
}
