// The mounted volume: sector and cluster transfers, and the three operations on FAT entries, each
// proved against the disk-level functions of FatLayout.
module FatVolume {
  import opened Bytes
  import opened FatLayout

  // What the code reads for entry `c`, out of range included.
  function Next(g: Geometry, d: Disk, c: nat): nat
    requires g.Ok(|d|)
  {
    if g.InRange(c) then FatOf(g, d)[c] else BAD
  }

  // The cluster that it comes to from `c` in `n` steps along the FAT.
  function Along(g: Geometry, d: Disk, c: nat, n: nat): nat
    requires g.Ok(|d|)
  {
    if n == 0 then c else Next(g, d, Along(g, d, c, n - 1))
  }

  ghost predicate Moved(g: Geometry, d: Disk, c: nat, c': nat)
    requires g.Ok(|d|)
  {
    exists n: nat :: c' == Along(g, d, c, n)
  }

  lemma MovedNot(g: Geometry, d: Disk, c: nat)
    requires g.Ok(|d|)
    ensures Moved(g, d, c, c)
  {
    assert Along(g, d, c, 0) == c;
  }

  lemma MovedOn(g: Geometry, d: Disk, c: nat, c': nat)
    requires g.Ok(|d|) && Moved(g, d, c, c')
    ensures Moved(g, d, c, Next(g, d, c'))
  {
    var n: nat :| c' == Along(g, d, c, n);
    assert Along(g, d, c, n + 1) == Next(g, d, c');
  }

  // No cluster is free.
  ghost predicate Full(g: Geometry, d: Disk)
    requires g.Ok(|d|)
  {
    forall c: nat :: g.InRange(c) ==> FatOf(g, d)[c] != FREE
  }

  // The first free cluster from `c` on, or 0.
  function FreeFrom(fat: Fat, c: nat): (r: nat)
    ensures if r == 0 then forall x :: 2 <= c <= x < |fat| ==> fat[x] != FREE
            else c <= r < |fat| && fat[r] == FREE && forall x :: c <= x < r ==> fat[x] != FREE
    decreases |fat| - c
  {
    if c >= |fat| then 0 else if fat[c] == FREE then c else FreeFrom(fat, c + 1)
  }

  lemma NothingSeen(g: Geometry, d: Disk, c: nat)
    ensures Seen(g, d, c, [])
  {
  }

  lemma NothingPut(g: Geometry, d: Disk, c: nat, s: seq<byte>)
    ensures PutSectors(g, d, c, s, 0) == d
  {
  }

  class Volume {
    const g: Geometry
    const disk: array<Sector>

    constructor (g: Geometry, disk: array<Sector>)
      requires g.Ok(disk.Length)
      ensures this.g == g && this.disk == disk && Mounted()
    {
      this.g := g;
      this.disk := disk;
    }

    predicate Mounted() { g.Ok(disk.Length) }

    ghost function Entries(): (fat: Fat)
      requires Mounted()
      reads disk
      ensures |fat| == g.totalClusters + 2
    {
      FatOf(g, disk[..])
    }

    // Any address: where the device has no sector, `buffer` gets what the static sector buffer held.
    method ReadSector(sector: nat, buffer: array<byte>, at: nat)
      requires at + 512 <= buffer.Length
      modifies buffer
      ensures buffer[..] == Patch(old(buffer[..]), at, buffer[at..at + 512])
      ensures var lba := Lba(g, sector);
        lba < disk.Length ==> buffer[at..at + 512] == disk[lba]
    {
      hide Patch;
      var lba := Lba(g, sector);
      assert |seq(512, _ => 0 as byte)| == 512;
      var data: Sector :| |data| == 512;
      if lba < disk.Length {
        data := disk[lba];
      }
      ghost var before := buffer[..];
      CopyInto(buffer, at, data);
      PatchParts(before, at, data);
      assert buffer[at..at + 512] == buffer[..][at..at + 512];
    }

    // A write to where the device has no sector is dropped.
    method WriteSector(sector: nat, buffer: array<byte>, at: nat)
      requires at + 512 <= buffer.Length
      modifies disk
      ensures var lba := Lba(g, sector);
        disk[..] == if lba < disk.Length then old(disk[..])[lba := buffer[at..at + 512]] else old(disk[..])
    {
      var lba := Lba(g, sector);
      if lba < disk.Length {
        disk[lba] := buffer[at..at + 512];
      }
    }

    // Any cluster number: the code does not check it.
    method ReadCluster(cluster: nat, buffer: array<byte>, at: nat)
      requires Mounted() && at + g.BytesPerCluster() <= buffer.Length
      modifies buffer
      ensures var bytes := buffer[at..at + g.BytesPerCluster()];
        buffer[..] == Patch(old(buffer[..]), at, bytes) && Seen(g, disk[..], cluster, bytes)
      ensures g.InRange(cluster) ==> buffer[..] == Patch(old(buffer[..]), at, ClusterBytes(g, disk[..], cluster))
    {
      hide ClusterBytes, SectorLba, SectorNumber, Lba, Patch, Seen;
      ghost var before, bytes := buffer[..], [];
      PatchAppend(before, at, [], []);
      NothingSeen(g, disk[..], cluster);
      for i := 0 to g.sectorsPerCluster
        invariant |bytes| == 512 * i
        invariant buffer[..] == Patch(before, at, bytes) && Seen(g, disk[..], cluster, bytes)
      {
        SectorComputed(g, cluster, i);
        ReadSector(SectorNumber(g, cluster, i), buffer, at + 512 * i);
        ghost var piece: Sector := buffer[at + 512 * i..at + 512 * i + 512];
        PatchAppend(before, at, bytes, piece);
        SeenMore(g, disk[..], cluster, bytes, i, piece);
        bytes := bytes + piece;
      }
      PatchParts(before, at, bytes);
      assert buffer[at..at + g.BytesPerCluster()] == buffer[..][at..at + |bytes|];
      if g.InRange(cluster) {
        SeenInRange(g, disk[..], cluster, bytes);
      }
    }

    method WriteCluster(cluster: nat, buffer: array<byte>)
      requires Mounted() && g.BytesPerCluster() <= buffer.Length
      modifies disk
      ensures disk[..] == PutAt(g, old(disk[..]), cluster, buffer[..g.BytesPerCluster()])
      ensures g.InRange(cluster) ==> disk[..] == PutCluster(g, old(disk[..]), cluster, buffer[..g.BytesPerCluster()])
    {
      hide SectorLba, SectorNumber, Lba, PutSectors, PutCluster;
      ghost var s, before := buffer[..g.BytesPerCluster()], disk[..];
      NothingPut(g, before, cluster, s);
      for i := 0 to g.sectorsPerCluster
        invariant disk[..] == PutSectors(g, before, cluster, s, i)
      {
        SectorComputed(g, cluster, i);
        PutOneMore(g, before, cluster, s, i);
        assert 512 * i + 512 <= |s| && buffer[..|s|] == s;
        assert buffer[512 * i..512 * i + 512] == s[512 * i..512 * i + 512];
        WriteSector(SectorNumber(g, cluster, i), buffer, 512 * i);
      }
      if g.InRange(cluster) {
        PutAtInRange(g, before, cluster, s);
      }
    }

    method GetNextCluster(cluster: nat) returns (next: nat)
      requires Mounted()
      ensures next == Next(g, disk[..], cluster)
      ensures next == if 2 <= cluster < g.totalClusters + 2 then Entries()[cluster] else 0x0FFF_FFF7
    {
      hide Patch, Geometry.Ok, Le32, Low28, Lba;
      if cluster < 2 || cluster >= g.totalClusters + 2 {
        return BAD;
      }
      EntryOnDisk(g, disk.Length, cluster);
      var fatOffset := cluster * 4;
      var fatSector := g.fatStart + fatOffset / 512;
      var offsetInSector := fatOffset % 512;
      LbaOnDevice(g, fatSector);
      var data := new byte[512];
      ghost var data0 := data[..];
      ReadSector(fatSector, data, 0);
      PatchParts(data0, 0, disk[EntryLba(g, cluster)]);
      assert data[..] == data[0..512] == disk[EntryLba(g, cluster)];
      next := Low28(Le32(data[..], offsetInSector));
    }

    method SetFatEntry(cluster: nat, value: nat) returns (status: int)
      requires Mounted()
      modifies disk
      ensures status == if g.InRange(cluster) then 0 else -1
      ensures disk[..] == if g.InRange(cluster) then PutEntry(g, old(disk[..]), cluster, value) else old(disk[..])
    {
      hide Patch, Geometry.Ok, Le32, Splice, Lba;
      if cluster < 2 || cluster >= g.totalClusters + 2 {
        return -1;
      }
      EntryOnDisk(g, disk.Length, cluster);
      var fatOffset := cluster * 4;
      var fatSector := g.fatStart + fatOffset / 512;
      var offsetInSector := fatOffset % 512;
      LbaOnDevice(g, fatSector);
      var data := new byte[512];
      ghost var data0 := data[..];
      ReadSector(fatSector, data, 0);
      PatchParts(data0, 0, disk[EntryLba(g, cluster)]);
      assert data[..] == data[0..512] == disk[EntryLba(g, cluster)];
      assert Le32(data[..], offsetInSector) == RawEntry(g, disk[..], cluster);
      var word := Splice(Le32(data[..], offsetInSector), value);
      StoreWord(data, offsetInSector, word);
      assert data[0..512] == Patch(disk[EntryLba(g, cluster)], EntryOffset(cluster), ToLe32(word));
      WriteSector(fatSector, data, 0);
      return 0;
    }

    method FindFreeCluster() returns (cluster: nat)
      requires Mounted()
      ensures cluster == FreeFrom(Entries(), 2)
      ensures cluster == 0 ==> Full(g, disk[..])
      ensures cluster != 0 ==> g.InRange(cluster) && Entries()[cluster] == FREE
      ensures cluster != 0 ==> forall c :: 2 <= c < cluster ==> FatOf(g, disk[..])[c] != FREE
    {
      cluster := 2;
      while cluster < g.totalClusters + 2
        invariant 2 <= cluster <= g.totalClusters + 2
        invariant FreeFrom(Entries(), 2) == FreeFrom(Entries(), cluster)
      {
        var entry := GetNextCluster(cluster);
        if entry == FREE {
          return;
        }
        cluster := cluster + 1;
      }
      cluster := 0;
    }
  }

  method StoreWord(data: array<byte>, at: nat, word: nat)
    requires at + 4 <= data.Length && word < 0x1_0000_0000
    modifies data
    ensures data[..] == Patch(old(data[..]), at, ToLe32(word))
  {
    var bytes := ToLe32(word);
    data[at], data[at + 1], data[at + 2], data[at + 3] := bytes[0], bytes[1], bytes[2], bytes[3];
  }
}
