// The byte level of a mounted FAT32 volume: where FAT entries and clusters lie on the disk, what
// overwriting one of them does, and that mounting yields regions that do not overlap.
module FatLayout {
  import opened Bytes

  type Sector = s: seq<byte> | |s| == 512 witness seq(512, _ => 0)
  type Disk = seq<Sector>

  const FREE: nat := 0x0000_0000
  const BAD: nat := 0x0FFF_FFF7
  const END_OF_CHAIN: nat := 0x0FFF_FFF8
  const ENTRY_LIMIT: nat := 0x1000_0000 // one more than the largest 28-bit entry
  const MAX_SECTORS: nat := 0x100_0000 // the driver drops any LBA above 0xFFFFFF
  const WORD: nat := 0x1_0000_0000 // addresses and offsets are 32 bits wide

  type Fat = f: seq<nat> | |f| <= MAX_SECTORS + 2

  datatype Geometry = Geometry(
    partitionStart: nat,
    fatStart: nat,
    dataStart: nat,
    rootCluster: nat,
    sectorsPerCluster: nat,
    fatSize: nat,
    totalClusters: nat)
  {
    function BytesPerCluster(): nat { 512 * sectorsPerCluster }

    // The file offset of byte `o` of a chain's cluster number `k`.
    function Offset(k: nat, o: nat): nat { k * BytesPerCluster() + o }

    // The directory slot number of a chain's cluster number `k`.
    function FirstSlot(k: nat): nat { k * (16 * sectorsPerCluster) }

    predicate InRange(cluster: nat) { 2 <= cluster < totalClusters + 2 }

    // What the code needs of a volume on a device of `sectors` sectors: a cluster fits the 4096-byte
    // buffers, the first FAT has an entry for every cluster and ends before the data area, and the
    // data area ends on the device.
    predicate Ok(sectors: nat)
    {
      && 1 <= sectorsPerCluster <= 8
      && fatStart + fatSize <= dataStart
      && (totalClusters + 2) * 4 <= fatSize * 512
      && partitionStart + dataStart + totalClusters * sectorsPerCluster <= sectors <= MAX_SECTORS
    }
  }

  lemma ClusterFitsBuffer(g: Geometry, n: nat)
    requires g.Ok(n)
    ensures 512 <= g.BytesPerCluster() <= 4096
  {
  }

  lemma ClusterNumbersSmall(g: Geometry, n: nat)
    requires g.Ok(n)
    ensures g.totalClusters <= MAX_SECTORS
  {
    assert g.totalClusters <= g.totalClusters * g.sectorsPerCluster;
  }

  lemma NoWrap(n: nat)
    requires n < WORD
    ensures n % WORD == n
  {
  }

  // ----- FAT entries -----

  function EntryLba(g: Geometry, c: nat): nat { g.partitionStart + g.fatStart + c * 4 / 512 }

  function EntryOffset(c: nat): (o: nat)
    ensures o + 4 <= 512 && o % 4 == 0
  {
    c * 4 % 512
  }

  // A 32-bit entry is a 28-bit cluster value below 4 reserved bits.
  function Low28(raw: nat): nat { raw % ENTRY_LIMIT }

  function Top4(raw: nat): nat { raw / ENTRY_LIMIT }

  // All 32 bits of entry `c`.
  function RawEntry(g: Geometry, d: Disk, c: nat): (v: nat)
    requires g.Ok(|d|) && c < g.totalClusters + 2
    ensures v < 0x1_0000_0000
  {
    EntryOnDisk(g, |d|, c);
    Le32(d[EntryLba(g, c)], EntryOffset(c))
  }

  // The FAT as the array of its 28-bit entries.
  function FatOf(g: Geometry, d: Disk): (fat: Fat)
    requires g.Ok(|d|)
    ensures |fat| == g.totalClusters + 2
    ensures forall c :: 0 <= c < |fat| ==> fat[c] == Low28(RawEntry(g, d, c))
  {
    ClusterNumbersSmall(g, |d|);
    seq(g.totalClusters + 2, c requires 0 <= c < g.totalClusters + 2 => Low28(RawEntry(g, d, c)))
  }

  // Two entries in one sector occupy disjoint 4-byte stretches.
  lemma EntriesDisjoint(g: Geometry, a: nat, b: nat)
    requires a != b && EntryLba(g, a) == EntryLba(g, b)
    ensures EntryOffset(a) + 4 <= EntryOffset(b) || EntryOffset(b) + 4 <= EntryOffset(a)
  {
    assert a * 4 / 512 == b * 4 / 512;
  }

  // `raw` with its low 28 bits replaced by those of `value`, its top 4 bits kept.
  function Splice(raw: nat, value: nat): (w: nat)
    requires raw < 0x1_0000_0000
    ensures w < 0x1_0000_0000
  {
    raw - Low28(raw) + Low28(value)
  }

  lemma SpliceParts(raw: nat, value: nat)
    requires raw < 0x1_0000_0000
    ensures Low28(Splice(raw, value)) == Low28(value)
    ensures Top4(Splice(raw, value)) == Top4(raw)
  {
  }

  lemma EntryOnDisk(g: Geometry, n: nat, c: nat)
    requires g.Ok(n) && c < g.totalClusters + 2
    ensures g.partitionStart + g.fatStart <= EntryLba(g, c) < g.partitionStart + g.fatStart + g.fatSize
    ensures EntryLba(g, c) < g.partitionStart + g.dataStart <= n <= MAX_SECTORS
  {
    assert g.totalClusters * g.sectorsPerCluster >= 0;
  }

  // Entry `c` with its low 28 bits replaced.
  function PutEntry(g: Geometry, d: Disk, c: nat, value: nat): (d': Disk)
    requires g.Ok(|d|) && c < g.totalClusters + 2
    ensures |d'| == |d|
  {
    EntryOnDisk(g, |d|, c);
    var lba := EntryLba(g, c);
    var word := Splice(RawEntry(g, d, c), value);
    d[lba := Patch(d[lba], EntryOffset(c), ToLe32(word))]
  }

  // ----- clusters -----

  function ClusterLba(g: Geometry, c: nat): nat
    requires 2 <= c
  {
    g.partitionStart + g.dataStart + (c - 2) * g.sectorsPerCluster
  }

  lemma TimesMonotone(a: nat, b: nat, m: nat)
    requires a <= b
    ensures a * m <= b * m
  {
  }

  lemma ClusterOnDisk(g: Geometry, n: nat, c: nat)
    requires g.Ok(n) && g.InRange(c)
    ensures g.partitionStart + g.dataStart <= ClusterLba(g, c)
    ensures ClusterLba(g, c) + g.sectorsPerCluster <= n
  {
    assert (c - 2) * g.sectorsPerCluster + g.sectorsPerCluster == (c - 1) * g.sectorsPerCluster;
    TimesMonotone(c - 1, g.totalClusters, g.sectorsPerCluster);
  }

  // Distinct clusters lie in disjoint sector ranges.
  lemma ClustersDisjoint(g: Geometry, n: nat, a: nat, b: nat)
    requires g.Ok(n) && g.InRange(a) && g.InRange(b) && a != b
    ensures || ClusterLba(g, a) + g.sectorsPerCluster <= ClusterLba(g, b)
            || ClusterLba(g, b) + g.sectorsPerCluster <= ClusterLba(g, a)
  {
    hide Geometry.Ok;
    var lo, hi := if a < b then a else b, if a < b then b else a;
    TimesMonotone(lo - 1, hi - 2, g.sectorsPerCluster);
    assert (lo - 1) * g.sectorsPerCluster == (lo - 2) * g.sectorsPerCluster + g.sectorsPerCluster;
  }

  function ClusterBytes(g: Geometry, d: Disk, c: nat): (s: seq<byte>)
    requires g.Ok(|d|) && g.InRange(c)
    ensures |s| == g.BytesPerCluster()
  {
    ClusterOnDisk(g, |d|, c);
    seq(g.BytesPerCluster(), i requires 0 <= i < g.BytesPerCluster() => d[ClusterLba(g, c) + i / 512][i % 512])
  }

  // The disk with all the sectors of cluster `c` overwritten by `s`.
  function PutCluster(g: Geometry, d: Disk, c: nat, s: seq<byte>): (d': Disk)
    requires g.Ok(|d|) && g.InRange(c) && |s| == g.BytesPerCluster()
    ensures |d'| == |d|
  {
    var lba := ClusterLba(g, c);
    seq(|d|, i requires 0 <= i < |d| =>
      if lba <= i < lba + g.sectorsPerCluster then s[(i - lba) * 512..(i - lba) * 512 + 512] else d[i])
  }

  // ----- clusters the volume does not have -----

  function Lba(g: Geometry, sector: nat): nat { (g.partitionStart + sector) % WORD }

  lemma LbaOnDevice(g: Geometry, sector: nat)
    requires g.partitionStart + sector < MAX_SECTORS
    ensures Lba(g, sector) == g.partitionStart + sector
  {
  }

  // Sector `i` of cluster `c`, counted from the start of the partition.
  function SectorNumber(g: Geometry, c: nat, i: nat): nat
  {
    ((g.dataStart + (c - 2) * g.sectorsPerCluster) % WORD + i) % WORD
  }

  // Where the code looks for sector `i` of cluster `c`, whatever `c` is: it computes in 32 bits, and
  // does not ask whether the volume has such a cluster.
  function SectorLba(g: Geometry, c: nat, i: nat): nat
  {
    (g.partitionStart + g.dataStart + (c - 2) * g.sectorsPerCluster + i) % WORD
  }

  lemma SectorComputed(g: Geometry, c: nat, i: nat)
    ensures Lba(g, SectorNumber(g, c, i)) == SectorLba(g, c, i)
  {
    var x := g.dataStart + (c - 2) * g.sectorsPerCluster;
    assert (g.partitionStart + (x % WORD + i) % WORD) % WORD == (g.partitionStart + x + i) % WORD;
  }

  // The sector of cluster `c` that would lie at `lba`.
  function SectorAt(g: Geometry, c: nat, lba: nat): nat
  {
    (lba - g.partitionStart - g.dataStart - (c - 2) * g.sectorsPerCluster) % WORD
  }

  lemma SectorAtInverse(g: Geometry, c: nat, i: nat, lba: nat)
    requires i < WORD && lba < WORD
    ensures SectorAt(g, c, lba) == i <==> lba == SectorLba(g, c, i)
  {
    var x := g.partitionStart + g.dataStart + (c - 2) * g.sectorsPerCluster;
    assert (lba - x) % WORD == i <==> lba == (x + i) % WORD;
  }

  // `s` is what reading cluster `c`, or its first sectors, gives: where the device has no such sector
  // it may be anything.
  ghost predicate Seen(g: Geometry, d: Disk, c: nat, s: seq<byte>)
  {
    forall i {:trigger SectorLba(g, c, i)} :: 0 <= i && 512 * i + 512 <= |s| && SectorLba(g, c, i) < |d| ==>
      s[512 * i..512 * i + 512] == d[SectorLba(g, c, i)]
  }

  lemma SeenMore(g: Geometry, d: Disk, c: nat, s: seq<byte>, i: nat, piece: Sector)
    requires Seen(g, d, c, s) && |s| == 512 * i
    requires SectorLba(g, c, i) < |d| ==> piece == d[SectorLba(g, c, i)]
    ensures Seen(g, d, c, s + piece)
  {
    hide SectorLba;
    forall k {:trigger SectorLba(g, c, k)} | 0 <= k && 512 * k + 512 <= |s + piece| && SectorLba(g, c, k) < |d|
      ensures (s + piece)[512 * k..512 * k + 512] == d[SectorLba(g, c, k)]
    {
      if k < i {
        assert (s + piece)[512 * k..512 * k + 512] == s[512 * k..512 * k + 512];
      }
    }
  }

  // The disk with the first `n` sectors of `s` written to cluster `c`: sectors that the device does
  // not have are dropped.
  function PutSectors(g: Geometry, d: Disk, c: nat, s: seq<byte>, n: nat): (d': Disk)
    requires 512 * n <= |s|
    ensures |d'| == |d|
  {
    seq(|d|, l requires 0 <= l < |d| => var i := SectorAt(g, c, l); if i < n then s[512 * i..512 * i + 512] else d[l])
  }

  function PutAt(g: Geometry, d: Disk, c: nat, s: seq<byte>): (d': Disk)
    requires |s| == g.BytesPerCluster()
    ensures |d'| == |d|
  {
    PutSectors(g, d, c, s, g.sectorsPerCluster)
  }

  lemma PutOneMore(g: Geometry, d: Disk, c: nat, s: seq<byte>, i: nat)
    requires 512 * i + 512 <= |s| && i < WORD && |d| <= MAX_SECTORS
    ensures var was, lba := PutSectors(g, d, c, s, i), SectorLba(g, c, i);
      PutSectors(g, d, c, s, i + 1) == if lba < |d| then was[lba := s[512 * i..512 * i + 512]] else was
  {
    hide SectorLba, SectorAt;
    forall l | 0 <= l < |d|
      ensures SectorAt(g, c, l) == i <==> l == SectorLba(g, c, i)
    {
      SectorAtInverse(g, c, i, l);
    }
  }

  lemma SectorInRange(g: Geometry, n: nat, c: nat, i: nat)
    requires g.Ok(n) && g.InRange(c) && i < g.sectorsPerCluster
    ensures SectorLba(g, c, i) == ClusterLba(g, c) + i < n
  {
    ClusterOnDisk(g, n, c);
  }

  lemma SeenInRange(g: Geometry, d: Disk, c: nat, s: seq<byte>)
    requires g.Ok(|d|) && g.InRange(c) && |s| == g.BytesPerCluster() && Seen(g, d, c, s)
    ensures s == ClusterBytes(g, d, c)
  {
    hide SectorLba, ClusterLba;
    forall i | 0 <= i < |s|
      ensures s[i] == ClusterBytes(g, d, c)[i]
    {
      var k := i / 512;
      SectorInRange(g, |d|, c, k);
      assert s[i] == s[512 * k..512 * k + 512][i % 512];
    }
  }

  lemma SectorAtInRange(g: Geometry, n: nat, c: nat, l: nat)
    requires g.Ok(n) && g.InRange(c) && l < n
    ensures var i, lba := SectorAt(g, c, l), ClusterLba(g, c);
      if lba <= l < lba + g.sectorsPerCluster then i == l - lba else i >= g.sectorsPerCluster
  {
    ClusterOnDisk(g, n, c);
    assert 0 <= g.totalClusters * g.sectorsPerCluster;
    var x := l - ClusterLba(g, c);
    assert SectorAt(g, c, l) == x % WORD;
    assert 8 < x + WORD < 2 * WORD;
  }

  lemma PutAtInRange(g: Geometry, d: Disk, c: nat, s: seq<byte>)
    requires g.Ok(|d|) && g.InRange(c) && |s| == g.BytesPerCluster()
    ensures PutAt(g, d, c, s) == PutCluster(g, d, c, s)
  {
    hide SectorAt, ClusterLba, Geometry.Ok;
    forall l | 0 <= l < |d|
      ensures PutAt(g, d, c, s)[l] == PutCluster(g, d, c, s)[l]
    {
      SectorAtInRange(g, |d|, c, l);
    }
  }

  lemma MarkBeyond(g: Geometry, n: nat, c: nat, l: nat)
    requires g.Ok(n) && BAD <= c < ENTRY_LIMIT && l < n
    ensures SectorAt(g, c, l) >= g.sectorsPerCluster
  {
    var x := (c - 2) * g.sectorsPerCluster;
    TimesMonotone(1, g.sectorsPerCluster, c - 2);
    TimesMonotone(g.sectorsPerCluster, 8, c - 2);
    assert 0 <= g.totalClusters * g.sectorsPerCluster;
    assert BAD - 2 <= x <= 8 * (ENTRY_LIMIT - 2);
    assert SectorAt(g, c, l) == l - g.partitionStart - g.dataStart - x + WORD;
  }

  // A bad or end-of-chain mark taken for a cluster number lies beyond every device.
  lemma PutAtMark(g: Geometry, d: Disk, c: nat, s: seq<byte>)
    requires g.Ok(|d|) && BAD <= c < ENTRY_LIMIT && |s| == g.BytesPerCluster()
    ensures PutAt(g, d, c, s) == d
  {
    hide Geometry.Ok;
    forall l | 0 <= l < |d|
      ensures SectorAt(g, c, l) >= g.sectorsPerCluster
    {
      MarkBeyond(g, |d|, c, l);
    }
  }

  // ----- refinement: writing an entry is an array update, and touches nothing else -----

  lemma PutEntryReadsBack(g: Geometry, d: Disk, c: nat, value: nat, x: nat)
    requires g.Ok(|d|) && g.InRange(c) && x < g.totalClusters + 2
    ensures RawEntry(g, PutEntry(g, d, c, value), x)
            == if x == c then Splice(RawEntry(g, d, c), value) else RawEntry(g, d, x)
  {
    var word := Splice(RawEntry(g, d, c), value);
    EntryOnDisk(g, |d|, c);
    EntryOnDisk(g, |d|, x);
    if EntryLba(g, x) == EntryLba(g, c) {
      if x != c {
        EntriesDisjoint(g, x, c);
      }
      PatchedWord(d[EntryLba(g, c)], EntryOffset(c), word, EntryOffset(x));
    }
  }

  lemma PutEntryRefinesUpdate(g: Geometry, d: Disk, c: nat, value: nat)
    requires g.Ok(|d|) && g.InRange(c)
    ensures var d' := PutEntry(g, d, c, value);
      && FatOf(g, d') == FatOf(g, d)[c := Low28(value)]
      && Top4(RawEntry(g, d', c)) == Top4(RawEntry(g, d, c))
      && (forall x :: 0 <= x < g.totalClusters + 2 && x != c ==> RawEntry(g, d', x) == RawEntry(g, d, x))
  {
    SpliceParts(RawEntry(g, d, c), value);
    forall x | 0 <= x < g.totalClusters + 2
      ensures RawEntry(g, PutEntry(g, d, c, value), x)
              == if x == c then Splice(RawEntry(g, d, c), value) else RawEntry(g, d, x)
    {
      PutEntryReadsBack(g, d, c, value, x);
    }
  }

  // A FAT update leaves the bytes of every cluster alone.
  lemma PutEntryKeepsClusters(g: Geometry, d: Disk, c: nat, value: nat, x: nat)
    requires g.Ok(|d|) && g.InRange(c) && g.InRange(x)
    ensures ClusterBytes(g, PutEntry(g, d, c, value), x) == ClusterBytes(g, d, x)
  {
    ClusterOnDisk(g, |d|, x);
    EntryOnDisk(g, |d|, c);
  }

  // A cluster write leaves the FAT and every other cluster alone.
  lemma PutClusterRefines(g: Geometry, d: Disk, c: nat, s: seq<byte>)
    requires g.Ok(|d|) && g.InRange(c) && |s| == g.BytesPerCluster()
    ensures var d' := PutCluster(g, d, c, s);
      && ClusterBytes(g, d', c) == s
      && (forall x :: g.InRange(x) && x != c ==> ClusterBytes(g, d', x) == ClusterBytes(g, d, x))
      && (forall x :: 0 <= x < g.totalClusters + 2 ==> RawEntry(g, d', x) == RawEntry(g, d, x))
      && FatOf(g, d') == FatOf(g, d)
  {
    var d' := PutCluster(g, d, c, s);
    ClusterOnDisk(g, |d|, c);
    var lba := ClusterLba(g, c);
    forall i | 0 <= i < g.BytesPerCluster()
      ensures ClusterBytes(g, d', c)[i] == s[i]
    {
      assert d'[lba + i / 512] == s[i / 512 * 512..i / 512 * 512 + 512];
    }
    forall x | g.InRange(x) && x != c
      ensures ClusterBytes(g, d', x) == ClusterBytes(g, d, x)
    {
      ClusterOnDisk(g, |d|, x);
      ClustersDisjoint(g, |d|, x, c);
    }
    forall x | 0 <= x < g.totalClusters + 2
      ensures RawEntry(g, d', x) == RawEntry(g, d, x)
    {
      EntryOnDisk(g, |d|, x);
    }
  }
}
