// Looking a name up in a directory: the walk over the directory's chain finds what the scan of its
// content finds.
module FatLookup {
  import opened Bytes
  import opened FatLayout
  import opened FatChains
  import opened FatContent
  import opened FatDirectory
  import opened FatVolume
  import opened FatFile
  import R = FatRead

  lemma SlotOffsets(g: Geometry, k: nat)
    ensures g.Offset(k, 0) == 32 * g.FirstSlot(k) && g.BytesPerCluster() % 32 == 0
    ensures g.FirstSlot(k + 1) == g.FirstSlot(k) + g.BytesPerCluster() / 32
  {
    assert (k + 1) * (16 * g.sectorsPerCluster) == k * (16 * g.sectorsPerCluster) + 16 * g.sectorsPerCluster;
  }

  // Content before, in and after cluster number `k`.
  lemma ContentAround(g: Geometry, d: Disk, ch: Chain, k: nat)
    requires g.Ok(|d|) && AllInRange(g, ch) && k < |ch|
    ensures Content(g, d, ch) == Content(g, d, ch[..k]) + ClusterBytes(g, d, ch[k]) + Content(g, d, ch[k + 1..])
    ensures |Content(g, d, ch[..k])| == 32 * g.FirstSlot(k)
  {
    hide ClusterBytes, Geometry.Ok;
    ContentConcat(g, d, ch[..k + 1], ch[k + 1..]);
    assert ch[..k + 1] + ch[k + 1..] == ch && ch[..k + 1][..k] == ch[..k];
    ContentLength(g, d, ch[..k]);
    SlotOffsets(g, k);
  }

  lemma SlotInCluster(g: Geometry, d: Disk, ch: Chain, k: nat, i: nat)
    requires g.Ok(|d|) && AllInRange(g, ch) && k < |ch| && 32 * i + 32 <= g.BytesPerCluster()
    ensures 32 * (g.FirstSlot(k) + i) + 32 <= |Content(g, d, ch)|
    ensures SlotAt(Content(g, d, ch), g.FirstSlot(k) + i) == SlotAt(ClusterBytes(g, d, ch[k]), i)
  {
    hide ClusterBytes, Content, Geometry.Ok, Geometry.FirstSlot;
    ContentAround(g, d, ch, k);
    SlotInMiddle(Content(g, d, ch[..k]), ClusterBytes(g, d, ch[k]), Content(g, d, ch[k + 1..]), g.FirstSlot(k), i);
  }

  lemma SlotInMiddle(a: seq<byte>, b: seq<byte>, c: seq<byte>, n: nat, i: nat)
    requires |a| == 32 * n && 32 * i + 32 <= |b|
    ensures SlotAt(a + b + c, n + i) == SlotAt(b, i)
  {
  }

  // One cluster's scan, seen from the content as a whole.
  lemma ScanStep(g: Geometry, d: Disk, ch: Chain, k: nat, name: Name)
    requires g.Ok(|d|) && AllInRange(g, ch) && k < |ch|
    requires ScanFrom(Content(g, d, ch[..k]), name, 0) == Exhausted
    ensures var r := ScanFrom(ClusterBytes(g, d, ch[k]), name, 0);
      && (r.Exhausted? ==> ScanFrom(Content(g, d, ch[..k + 1]), name, 0) == Exhausted)
      && (!r.Exhausted? ==> ScanFrom(Content(g, d, ch), name, 0) == r.After(g.FirstSlot(k)))
  {
    hide ClusterBytes, Geometry.Ok, ScanFrom, Geometry.FirstSlot;
    var a, b, c := Content(g, d, ch[..k]), ClusterBytes(g, d, ch[k]), Content(g, d, ch[k + 1..]);
    ContentAround(g, d, ch, k);
    SlotOffsets(g, k);
    assert ch[..k + 1][..k] == ch[..k];
    ScanConcat(a, b, name, 0, g.FirstSlot(k));
    ScanConcat(a + b, c, name, 0, g.FirstSlot(k) + g.BytesPerCluster() / 32);
  }

  // The loop that `fat32_find_entry` and `fat32_delete` share. It leaves the cluster of a hit in
  // `data`, the frame's cluster buffer.
  method FindSlot(fs: Volume, dirCluster: nat, name: Name, data: array<byte>, ghost ch: Chain)
    returns (found: bool, cluster: nat, i: nat, ghost k: nat)
    requires fs.Mounted() && AllInRange(fs.g, ch) && IsChain(fs.Entries(), ch) && dirCluster == ch[0]
    requires data.Length == BUFFER_SIZE
    modifies data
    ensures found == ScanFrom(Content(fs.g, fs.disk[..], ch), name, 0).Found?
    ensures found ==> k < |ch| && cluster == ch[k] && 32 * i + 32 <= fs.g.BytesPerCluster()
    ensures found ==> ScanFrom(Content(fs.g, fs.disk[..], ch), name, 0) == Found(fs.g.FirstSlot(k) + i)
    ensures found ==> data[..fs.g.BytesPerCluster()] == ClusterBytes(fs.g, fs.disk[..], ch[k])
  {
    hide IsChain, FatOf, Geometry.Ok, ClusterBytes, Patch, Content, ScanFrom, Geometry.FirstSlot, Geometry.Offset;
    ghost var g, d := fs.g, fs.disk[..];
    R.ChainStart(g, d, ch);
    ClusterFitsBuffer(g, fs.disk.Length);
    SlotOffsets(g, 0);
    cluster, k, i := dirCluster, 0, 0;
    EmptyScan(name);
    R.ContentParts(g, d, ch, 0);
    while true
      invariant k < |ch| && cluster == ch[k]
      invariant ScanFrom(Content(g, d, ch[..k]), name, 0) == Exhausted
      decreases |ch| - k
    {
      ghost var before := data[..];
      R.ChainStep(g, d, ch, k);
      fs.ReadCluster(cluster, data, 0);
      PatchParts(before, 0, ClusterBytes(g, d, ch[k]));
      var r := ScanCluster(data, fs.g.BytesPerCluster(), name);
      ScanStep(g, d, ch, k, name);
      if !r.Exhausted? {
        return r.Found?, cluster, if r.Found? then r.index else 0, k;
      }
      var next := fs.GetNextCluster(cluster);
      if next >= END_OF_CHAIN {
        R.ContentParts(g, d, ch, k + 1);
        return false, cluster, 0, k;
      }
      cluster, k := next, k + 1;
    }
  }

  lemma EmptyScan(name: Name)
    ensures ScanFrom([], name, 0) == Exhausted
  {
  }

  // `fat32_find_entry`.
  method FindEntry(fs: Volume, dirCluster: nat, name: Name, ghost ch: Chain) returns (found: bool, entry: Slot)
    requires fs.Mounted() && AllInRange(fs.g, ch) && IsChain(fs.Entries(), ch) && dirCluster == ch[0]
    ensures found == ScanFrom(Content(fs.g, fs.disk[..], ch), name, 0).Found?
    ensures found ==>
      var index := ScanFrom(Content(fs.g, fs.disk[..], ch), name, 0).index;
      32 * index + 32 <= |Content(fs.g, fs.disk[..], ch)| && entry == SlotAt(Content(fs.g, fs.disk[..], ch), index)
  {
    hide IsChain, FatOf, Geometry.Ok, ClusterBytes, Content, ScanFrom, Geometry.FirstSlot;
    ClusterFitsBuffer(fs.g, fs.disk.Length);
    var data := new byte[BUFFER_SIZE];
    entry := seq(32, _ => 0);
    var cluster, i;
    ghost var k;
    found, cluster, i, k := FindSlot(fs, dirCluster, name, data, ch);
    if found {
      SlotInCluster(fs.g, fs.disk[..], ch, k, i);
      entry := data[32 * i..32 * i + 32];
      assert entry == SlotAt(data[..fs.g.BytesPerCluster()], i);
    }
  }
}
