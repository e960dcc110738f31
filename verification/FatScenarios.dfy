// Writes and reads in a row through one handle: what was written is read back after a rewind; without
// one, what a second write or a read works on depends on whether the first ended at a cluster's end.
module FatScenarios {
  import opened Bytes
  import opened FatLayout
  import opened FatChains
  import opened FatContent
  import opened FatFrames
  import opened FatVolume
  import opened FatFile
  import opened FatPen
  import W = FatWrite
  import R = FatRead

  lemma UptoTake(g: Geometry, d: Disk, ch: Chain, k: nat, o: nat)
    requires g.Ok(|d|) && AllInRange(g, ch) && k < |ch| && o <= g.BytesPerCluster()
    ensures g.Offset(k, o) <= |Content(g, d, ch)| == g.Offset(|ch|, 0)
    ensures Upto(g, d, ch, k, o) == Content(g, d, ch)[..g.Offset(k, o)]
  {
    hide ClusterBytes, Geometry.Ok;
    UptoIsPrefix(g, d, ch, k, o);
    ContentLength(g, d, ch[..k]);
    ContentLength(g, d, ch);
  }

  // What a write leaves of the content, seen as a whole.
  lemma SettledContent(j: W.Job, d: Disk, m: W.Mark, n: nat)
    requires W.Settled(j, d, m, n) && Abstracts(FatOf(j.g, j.d0), j.cs) && j.ch0 in j.cs
    ensures j.Ok() && j.g.Ok(|d|) && AllInRange(j.g, m.ch) && IsChain(FatOf(j.g, d), m.ch) && j.ch0 <= m.ch
    ensures Abstracts(FatOf(j.g, d), j.cs - {j.ch0} + {m.ch}) && n <= |j.buf|
    ensures j.k0 <= m.k < |m.ch| && |m.ch| == Max(|j.ch0|, m.k + 1) && 0 < m.o <= j.g.BytesPerCluster()
    ensures |m.ch| + |FreeClusters(FatOf(j.g, d))| == |j.ch0| + |FreeClusters(FatOf(j.g, j.d0))|
    ensures j.g.Offset(j.k0, j.o0) <= |Content(j.g, j.d0, j.ch0)| && j.g.Offset(m.k, m.o) == j.g.Offset(j.k0, j.o0) + n
    ensures |Content(j.g, d, m.ch)| == j.g.Offset(|m.ch|, 0) >= j.g.Offset(m.k, m.o)
    ensures Content(j.g, d, m.ch)[..j.g.Offset(m.k, m.o)]
            == Content(j.g, j.d0, j.ch0)[..j.g.Offset(j.k0, j.o0)] + j.buf[..n]
  {
    hide Content, ClusterBytes, Upto, FatOf, IsChain, FatFrame, DataFrame, Geometry.Offset, FreeClusters;
    W.SettledFacts(j, d, m, n);
    W.FilledFacts(j, d, m, n);
    W.FreeCounts(j, d, m);
    W.GrownChains(j, d, m);
    W.FilledLength(j, d, m, n);
    UptoTake(j.g, j.d0, j.ch0, j.k0, j.o0);
    UptoTake(j.g, d, m.ch, m.k, m.o);
  }

  lemma WholeSet(cs: set<Chain>, ch: Chain)
    requires ch in cs
    ensures cs - {ch} + {ch} == cs
  {
  }

  lemma DoneContent(j: W.Job, d: Disk, m: W.Mark, n: nat)
    requires W.Done(j, d, m, n) && Abstracts(FatOf(j.g, j.d0), j.cs) && j.ch0 in j.cs && j.g.Ok(|j.d0|)
    ensures j.Ok() && j.g.Ok(|d|) && AllInRange(j.g, m.ch) && IsChain(FatOf(j.g, d), m.ch) && j.ch0 <= m.ch
    ensures Abstracts(FatOf(j.g, d), j.cs - {j.ch0} + {m.ch}) && n <= |j.buf|
    ensures j.k0 <= m.k < |m.ch| && |m.ch| == Max(|j.ch0|, m.k + 1) && m.o <= j.g.BytesPerCluster() && (n > 0 <==> j.buf != [])
    ensures if n > 0 then m.o > 0 else m == W.Mark(j.ch0, j.k0, j.o0)
    ensures |m.ch| + |FreeClusters(FatOf(j.g, d))| == |j.ch0| + |FreeClusters(FatOf(j.g, j.d0))|
    ensures j.g.Offset(j.k0, j.o0) <= |Content(j.g, j.d0, j.ch0)| && j.g.Offset(m.k, m.o) == j.g.Offset(j.k0, j.o0) + n
    ensures |Content(j.g, d, m.ch)| == j.g.Offset(|m.ch|, 0) >= j.g.Offset(m.k, m.o)
    ensures Content(j.g, d, m.ch)[..j.g.Offset(m.k, m.o)]
            == Content(j.g, j.d0, j.ch0)[..j.g.Offset(j.k0, j.o0)] + j.buf[..n]
  {
    hide Content, ClusterBytes, FatOf, IsChain, FreeClusters, Abstracts, W.Settled, Geometry.Offset, Geometry.Ok, W.Space;
    if j.buf == [] {
      ChainInRange(j.g, j.d0, j.cs, j.ch0);
      WholeSet(j.cs, j.ch0);
      UptoTake(j.g, j.d0, j.ch0, j.k0, j.o0);
      W.SomeSpace(j);
    } else {
      SettledContent(j, d, m, n);
    }
  }

  // ----- write, rewind, read -----

  lemma EmptyWrite(g: Geometry, d: Disk, cs: set<Chain>, ch: Chain)
    requires g.Ok(|d|) && Abstracts(FatOf(g, d), cs) && ch in cs
    ensures AllInRange(g, ch) && IsChain(FatOf(g, d), ch) && ch != [] && g.sectorsPerCluster > 0 && ClustersFor(g, 0) == 0
  {
    hide FatOf, Geometry.Ok, Abstracts, IsChain, Content;
    ClusterFitsBuffer(g, |d|);
    ChainInRange(g, d, cs, ch);
    R.ChainStart(g, d, ch);
    OffsetDivides(g, 0, g.BytesPerCluster() - 1);
  }

  lemma WrittenFromStart(j: W.Job, d: Disk, m: W.Mark, n: nat)
    requires W.Done(j, d, m, n) && Abstracts(FatOf(j.g, j.d0), j.cs) && j.ch0 in j.cs && j.k0 == 0 && j.o0 == 0 && j.g.Ok(|j.d0|)
    ensures AllInRange(j.g, m.ch) && IsChain(FatOf(j.g, d), m.ch) && j.ch0 <= m.ch && j.g.Ok(|d|) && n <= |j.buf|
    ensures j.buf[..n] <= Content(j.g, d, m.ch)
    ensures j.g.sectorsPerCluster > 0 && |m.ch| == Max(|j.ch0|, ClustersFor(j.g, n))
  {
    hide Content, ClusterBytes, Abstracts, FatOf, IsChain, Geometry.Ok, Geometry.Offset, ClustersFor, W.Done, FreeClusters;
    DoneContent(j, d, m, n);
    ClusterFitsBuffer(j.g, |d|);
    ZeroOffset(j.g);
    if n == 0 {
      EmptyWrite(j.g, j.d0, j.cs, j.ch0);
    } else {
      ClustersForBounds(j.g, n, m.k, m.o);
    }
  }

  lemma ZeroOffset(g: Geometry)
    ensures g.Offset(0, 0) == 0
    ensures g.sectorsPerCluster > 0 ==> Place(g, 0) == 0
  {
  }

  // A read from the start of all that was written returns all of it.
  lemma ReadsAll(g: Geometry, d: Disk, ch: Chain, k: nat, o: nat, read: seq<byte>, written: seq<byte>)
    requires g.Ok(|d|) && AllInRange(g, ch) && k < |ch| && written <= Content(g, d, ch)
    requires R.Between(g, d, ch, 0, 0, k, o, read) && |read| <= |written|
    requires |read| < |written| ==> k + 1 == |ch| && o == g.BytesPerCluster()
    ensures read == written
  {
    hide Content, ClusterBytes, Geometry.Ok, R.Between;
    R.BetweenIsSlice(g, d, ch, 0, 0, k, o, read);
    ContentLength(g, d, ch);
    OffsetSteps(g, k, 0, 0);
  }

  lemma RoomFor(g: Geometry, n: nat)
    requires g.sectorsPerCluster > 0
    ensures n <= g.Offset(ClustersFor(g, n), 0)
  {
    var bpc := g.BytesPerCluster();
    assert n + bpc - 1 == ClustersFor(g, n) * bpc + (n + bpc - 1) % bpc;
  }

  lemma FromStart(file: File)
    requires file.fs.Mounted()
    ensures file.currentOffset == 0 ==> !R.Stale(file)
  {
  }

  lemma DeliversAll(leftover: seq<byte>, read: seq<byte>)
    ensures R.Delivered(false, leftover, read) == read
  {
  }

  // Write through a handle as it was opened, rewind it and read it back; then read the whole chain.
  method WriteThenRead(file: File, buf: seq<byte>, scratch: array<byte>, out: array<byte>, whole: array<byte>,
                       ghost cs: set<Chain>, ghost ch0: Chain)
    returns (w: int, r: int, x: nat, ghost ch: Chain)
    requires file.fs.Mounted() && !file.isDirectory && scratch.Length == BUFFER_SIZE
    requires Abstracts(file.fs.Entries(), cs) && ch0 in cs && ch0 != [] && file.firstCluster == ch0[0]
    requires file.currentCluster == file.firstCluster && file.currentOffset == 0
    requires |buf| <= 0xFFFF_F000 && out.Length >= |buf| && out != scratch && whole != scratch && whole != out
    requires file.fs.g.Offset(ClustersFor(file.fs.g, |buf|), 0) <= whole.Length
    modifies file`currentCluster, file`currentOffset, file`fileSize, file.fs.disk, scratch, out, whole
    // as much is written as fits in the chain and the free clusters, and the read gives back exactly that
    ensures w == Min(|buf|, file.fs.g.Offset(|ch0| + |FreeClusters(old(file.fs.Entries()))|, 0))
    ensures r == w && out[..w] == buf[..w]
    // in as few clusters as hold it; a short count means that no cluster is free
    ensures IsChain(file.fs.Entries(), ch) && ch0 <= ch && |ch| == Max(|ch0|, ClustersFor(file.fs.g, w))
    ensures w < |buf| ==> Full(file.fs.g, file.fs.disk[..])
    // reading the chain gives the same bytes
    ensures w <= x <= whole.Length && whole[..w] == buf[..w]
  {
    hide Abstracts, FatOf, IsChain, Content, ClusterBytes, Geometry.Ok, Geometry.Offset, ClustersFor, Patch, Place,
         W.Done, AllInRange, R.Between, R.Stale, R.Delivered, FreeClusters, Unbroken;
    ghost var g, j := file.fs.g, W.JobOf(file, cs, ch0, 0, scratch, buf);
    EmptyWrite(g, j.d0, cs, ch0);
    ZeroOffset(g);
    SmallWrite(g, |buf|);
    ghost var m;
    w, m := W.WriteInOne(file, buf, scratch, true, cs, ch0, 0);
    ghost var d := file.fs.disk[..];
    ch := m.ch;
    DoneCount(j, d, m, w);
    WrittenFromStart(j, d, m, w);
    // rewind
    file.currentCluster, file.currentOffset := file.firstCluster, 0;
    ghost var out0 := out[..];
    FromStart(file);
    ClusterFitsBuffer(g, file.fs.disk.Length);
    ghost var leftover := scratch[..g.BytesPerCluster()][Place(g, 0)..];
    ghost var read, k, o;
    r, read, k, o := R.Read(file, w, out, scratch, true, ch, 0);
    DeliversAll(leftover, read);
    ReadsAll(g, d, ch, k, o, read, buf[..w]);
    PatchParts(out0, 0, read);
    assert out[..w] == out[0..w];
    x := R.ReadClusterChain(file.fs, file.firstCluster, whole, |buf|, ch);
    RoomFor(g, |buf|);
    assert whole[..x][..w] == whole[..w];
  }

  lemma DoneCount(j: W.Job, d: Disk, m: W.Mark, n: int)
    requires W.Done(j, d, m, n)
    ensures j.Ok() && n == Min(|j.buf|, W.Space(j)) >= 0
    ensures n < |j.buf| ==> j.g.Ok(|d|) && Full(j.g, d)
  {
    hide Geometry.Ok, Geometry.Offset, FatOf, FreeClusters, Full, W.Settled;
    W.SomeSpace(j);
  }

  lemma SmallWrite(g: Geometry, n: nat)
    requires g.sectorsPerCluster > 0 && n < WORD
    ensures Unbroken(g, 0, n)
  {
  }

  // ----- two writes in a row -----

  // A write of `n` bytes from byte `o0` of cluster number `k0` ends at a cluster's end.
  predicate EndsFull(g: Geometry, o0: nat, n: nat)
    requires g.sectorsPerCluster > 0
  {
    Place(g, o0 + n) == 0
  }

  lemma EndsFullIff(g: Geometry, k0: nat, o0: nat, n: nat, k: nat, o: nat)
    requires g.sectorsPerCluster > 0 && g.Offset(k, o) == g.Offset(k0, o0) + n && 0 < o <= g.BytesPerCluster()
    ensures EndsFull(g, o0, n) <==> o == g.BytesPerCluster()
  {
    OffsetBoundary(g, k, o);
    ModMultiple(o0 + n, k0, g.BytesPerCluster());
  }

  // Where the second write of two starts: at the end of the first, or a cluster before it.
  function SecondStart(g: Geometry, k0: nat, o0: nat, first: nat, second: nat): int
    requires g.sectorsPerCluster > 0
  {
    g.Offset(k0, o0) + first - if first == 0 || second == 0 || !EndsFull(g, o0, first) then 0 else g.BytesPerCluster()
  }

  // The first of two writes is `j`, with the handle in cluster number `k0` of chain `ch0`; the second
  // writes `b`, and leaves the disk `d` and the chain `ch`. The second goes behind the first unless
  // that ended at a cluster's end; then it overwrites that cluster.
  ghost predicate InARow(j: W.Job, b: seq<byte>, d: Disk, ch: Chain, w1: int, w2: int)
  {
    && j.Ok() && j.g.Ok(|d|) && AllInRange(j.g, ch) && j.g.Offset(j.k0, j.o0) <= |Content(j.g, j.d0, j.ch0)|
    && 0 <= w1 == Min(|j.buf|, W.Space(j))
    && var start := SecondStart(j.g, j.k0, j.o0, w1, |b|);
       var front := Content(j.g, j.d0, j.ch0)[..j.g.Offset(j.k0, j.o0)] + j.buf[..w1];
       && 0 <= start <= |front|
       && 0 <= w2 == Min(|b|, j.g.Offset(|j.ch0| + |FreeClusters(FatOf(j.g, j.d0))|, 0) - start)
       && front[..start] + b[..w2] <= Content(j.g, d, ch)
       // in the last cluster, the file then starts with the two one behind the other exactly if the
       // first is empty, the second is empty or the first does not end at a cluster's end
       && (j.k0 + 1 == |j.ch0| ==>
             (front + b[..w2] <= Content(j.g, d, ch) <==> |j.buf| == 0 || |b| == 0 || !EndsFull(j.g, j.o0, w1)))
  }

  lemma RowFrom(j: W.Job, d1: Disk, m1: W.Mark, w1: nat, j2: W.Job, d2: Disk, m2: W.Mark, w2: nat)
    requires W.Done(j, d1, m1, w1) && Abstracts(FatOf(j.g, j.d0), j.cs) && j.ch0 in j.cs && j.g.Ok(|j.d0|)
    requires j2.g == j.g && j2.cs == j.cs - {j.ch0} + {m1.ch} && j2.d0 == d1 && j2.ch0 == m1.ch && j2.k0 == m1.k
    requires j2.o0 == (if m1.o == j.g.BytesPerCluster() then 0 else m1.o) && W.Done(j2, d2, m2, w2)
    ensures InARow(j, j2.buf, d2, m2.ch, w1, w2)
  {
    hide Content, ClusterBytes, Geometry.Ok, Geometry.Offset, Abstracts, FatOf, FreeClusters, IsChain, W.Settled, EndsFull, Full;
    ClusterFitsBuffer(j.g, |j.d0|);
    DoneContent(j, d1, m1, w1);
    assert m1.ch in j2.cs;
    DoneContent(j2, d2, m2, w2);
    W.SomeSpace(j);
    W.SomeSpace(j2);
    OffsetSteps(j.g, m1.k, 0, j.g.BytesPerCluster());
    if w1 > 0 {
      EndsFullIff(j.g, j.k0, j.o0, w1, m1.k, m1.o);
    }
    var front := Content(j.g, j.d0, j.ch0)[..j.g.Offset(j.k0, j.o0)] + j.buf[..w1];
    assert Content(j.g, d1, m1.ch)[..j.g.Offset(j2.k0, j2.o0)] == front[..j.g.Offset(j2.k0, j2.o0)];
    OffsetSteps(j.g, m2.k, 0, m2.o);
    OffsetSteps(j.g, m2.k, 0, j.g.BytesPerCluster());
  }

  method TwoWrites(file: File, a: seq<byte>, b: seq<byte>, scratch: array<byte>,
                   ghost cs: set<Chain>, ghost ch0: Chain, ghost k0: nat)
    returns (w1: int, w2: int, ghost ch: Chain)
    requires file.fs.Mounted() && !file.isDirectory && scratch.Length == BUFFER_SIZE
    requires Abstracts(file.fs.Entries(), cs) && ch0 in cs && Stands(file, ch0, k0, Place(file.fs.g, file.currentOffset))
    requires file.currentOffset < WORD && |a| < WORD && |b| < WORD
    requires Unbroken(file.fs.g, file.currentOffset, |a| + |b|)
    modifies file`currentCluster, file`currentOffset, file`fileSize, file.fs.disk, scratch
    ensures InARow(old(W.JobOf(file, cs, ch0, k0, scratch, a)), b, file.fs.disk[..], ch, w1, w2)
  {
    hide Abstracts, FatOf, IsChain, Content, ClusterBytes, Geometry.Ok, Geometry.Offset, W.Done, AllInRange, FreeClusters,
         Place, Unbroken, InARow;
    ghost var g, j1 := file.fs.g, W.JobOf(file, cs, ch0, k0, scratch, a);
    ClusterFitsBuffer(g, file.fs.disk.Length);
    ghost var offset := file.currentOffset;
    UnbrokenPart(g, offset, |a| + |b|, |a|);
    ghost var m1, m2;
    w1, m1 := W.WriteInOne(file, a, scratch, true, cs, ch0, k0);
    DoneCount(j1, file.fs.disk[..], m1, w1);
    DoneContent(j1, file.fs.disk[..], m1, w1);
    ghost var d1, cs1 := file.fs.disk[..], cs - {ch0} + {m1.ch};
    ghost var j2 := W.JobOf(file, cs1, m1.ch, m1.k, scratch, b);
    UnbrokenPart(g, offset, |a| + |b|, w1 + |b|);
    PlaceKept(g, offset, w1 + |b|, w1);
    w2, m2 := W.WriteInOne(file, b, scratch, true, cs1, m1.ch, m1.k);
    ch := m2.ch;
    DoneCount(j2, file.fs.disk[..], m2, w2);
    RowFrom(j1, d1, m1, w1, j2, file.fs.disk[..], m2, w2);
  }

  // ----- a write and a read in a row -----

  // What a read hands out behind a write that ended at offset `end`: if that is a cluster's end, the
  // cluster just written, again. Otherwise, but for the first cluster, what follows.
  ghost predicate ReadOn(g: Geometry, d: Disk, ch: Chain, end: nat, bytes: seq<byte>)
    requires g.Ok(|d|) && AllInRange(g, ch)
  {
    var from := if Place(g, end) == 0 then end - g.BytesPerCluster() else end;
    && 0 <= from && from + |bytes| <= |Content(g, d, ch)|
    && (Place(g, end) == 0 || end >= g.BytesPerCluster() ==> bytes == Content(g, d, ch)[from..from + |bytes|])
  }

  method WriteThenReadOn(file: File, buf: seq<byte>, size: nat, scratch: array<byte>, frame: array<byte>, out: array<byte>,
                         ghost cs: set<Chain>, ghost ch0: Chain, ghost k0: nat)
    returns (w: int, r: int, ghost ch: Chain)
    requires file.fs.Mounted() && !file.isDirectory && scratch.Length == BUFFER_SIZE == frame.Length
    requires out != scratch && out != frame && size <= out.Length
    requires Abstracts(file.fs.Entries(), cs) && ch0 in cs && ch0 != [] && file.firstCluster == ch0[0]
    requires Stands(file, ch0, k0, Place(file.fs.g, file.currentOffset)) && OnTrack(file, k0, Place(file.fs.g, file.currentOffset))
    requires file.currentOffset + |buf| < WORD && buf != []
    modifies file`currentCluster, file`currentOffset, file`fileSize, file.fs.disk, scratch, frame, out
    ensures AllInRange(file.fs.g, ch) && 0 < w <= |buf| && 0 <= r <= size
    ensures w == Min(|buf|, W.Space(old(W.JobOf(file, cs, ch0, k0, scratch, buf))))
    ensures ReadOn(file.fs.g, file.fs.disk[..], ch, old(file.currentOffset) + w, out[..r])
  {
    hide Abstracts, FatOf, IsChain, Content, ClusterBytes, Geometry.Ok, Geometry.Offset, Patch, Place, W.Done, AllInRange,
         R.Between, R.Stale, R.Delivered, FreeClusters, Unbroken, W.Space;
    ghost var g, j := file.fs.g, W.JobOf(file, cs, ch0, k0, scratch, buf);
    ClusterFitsBuffer(g, file.fs.disk.Length);
    UnbrokenBelow(g, file.currentOffset, |buf|);
    ghost var m;
    w, m := W.WriteInOne(file, buf, scratch, true, cs, ch0, k0);
    ghost var d := file.fs.disk[..];
    ch := m.ch;
    DoneContent(j, d, m, w);
    DoneCount(j, d, m, w);
    W.PlaceAt(g, m.k, m.o);
    NotStale(file, ch, m.k, if m.o == g.BytesPerCluster() then 0 else m.o);
    ghost var out0, leftover := out[..], frame[..g.BytesPerCluster()][Place(g, file.currentOffset)..];
    ghost var read, k, o;
    r, read, k, o := R.Read(file, size, out, frame, true, ch, m.k);
    DeliversAll(leftover, read);
    if m.o == g.BytesPerCluster() || m.k > 0 {
      PatchParts(out0, 0, read);
      assert out[..r] == out[..][0..|read|];
    }
    HandedOn(g, d, ch, m.k, m.o, k, o, read, out[..r]);
  }

  lemma HandedOn(g: Geometry, d: Disk, ch: Chain, k1: nat, o1: nat, k: nat, o: nat, read: seq<byte>, bytes: seq<byte>)
    requires g.Ok(|d|) && AllInRange(g, ch) && k1 < |ch| && k < |ch| && 0 < o1 <= g.BytesPerCluster()
    requires R.Between(g, d, ch, k1, if o1 == g.BytesPerCluster() then 0 else o1, k, o, read) && |bytes| == |read|
    requires o1 == g.BytesPerCluster() || k1 > 0 ==> bytes == read
    ensures ReadOn(g, d, ch, g.Offset(k1, o1), bytes)
  {
    hide Content, ClusterBytes, Geometry.Ok, Geometry.Offset, Place, R.Between;
    ClusterFitsBuffer(g, |d|);
    W.PlaceAt(g, k1, o1);
    R.BetweenIsSlice(g, d, ch, k1, if o1 == g.BytesPerCluster() then 0 else o1, k, o, read);
    OffsetSteps(g, k1, 0, o1);
    OffsetSteps(g, k1, 0, g.BytesPerCluster());
    if k1 > 0 {
      OffsetMonotone(g, 1, k1);
    }
    ZeroOffset(g);
    OffsetSteps(g, 0, 0, g.BytesPerCluster());
  }

  lemma UnbrokenBelow(g: Geometry, offset: nat, n: nat)
    requires g.sectorsPerCluster > 0 && offset + n < WORD
    ensures Unbroken(g, offset, n)
  {
  }

  lemma NotStale(file: File, ch: Chain, k: nat, o: nat)
    requires file.fs.Mounted() && Stands(file, ch, k, o) && IsChain(file.fs.Entries(), ch) && file.firstCluster == ch[0]
    ensures o == 0 || k > 0 ==> !R.Stale(file)
  {
    hide FatOf, Geometry.Ok;
    PlaceIs(file.fs.g, file.currentOffset);
  }

  // A write of `buf`, reported as `w` bytes, behind a read that stopped at byte `end` of the chain: if
  // that is its end, every byte is reported, and not one reaches the disk. Behind any other read the
  // bytes go to where it stopped.
  ghost predicate WriteOn(g: Geometry, d0: Disk, ch0: Chain, end: nat, buf: seq<byte>, w: int, d: Disk, ch: Chain)
    requires g.Ok(|d0|) && g.Ok(|d|) && AllInRange(g, ch0) && AllInRange(g, ch)
  {
    && end <= |Content(g, d0, ch0)| && 0 < w <= |buf|
    && (end == |Content(g, d0, ch0)| ==> w == |buf| && d == d0)
    && (end < |Content(g, d0, ch0)| ==> ch0 <= ch && Content(g, d0, ch0)[..end] + buf[..w] <= Content(g, d, ch))
  }

  method ReadThenWrite(file: File, size: nat, buf: seq<byte>, scratch: array<byte>, frame: array<byte>, out: array<byte>,
                       ghost cs: set<Chain>, ghost ch0: Chain, ghost k0: nat)
    returns (r: int, w: int, ghost ch: Chain)
    requires file.fs.Mounted() && !file.isDirectory && scratch.Length == BUFFER_SIZE == frame.Length
    requires out != scratch && out != frame && size <= out.Length
    requires Abstracts(file.fs.Entries(), cs) && ch0 in cs && Stands(file, ch0, k0, Place(file.fs.g, file.currentOffset))
    requires file.currentOffset + size + |buf| < WORD && buf != []
    modifies file`currentCluster, file`currentOffset, file`fileSize, file.fs.disk, scratch, frame, out
    ensures AllInRange(file.fs.g, ch0) && AllInRange(file.fs.g, ch) && 0 <= r <= size && 0 < w <= |buf|
    ensures WriteOn(file.fs.g, old(file.fs.disk[..]), ch0,
      file.fs.g.Offset(k0, Place(file.fs.g, old(file.currentOffset))) + r, buf, w, file.fs.disk[..], ch)
  {
    hide Abstracts, FatOf, IsChain, Content, ClusterBytes, Geometry.Ok, Geometry.Offset, Patch, Place, W.Done, AllInRange,
         R.Between, R.Stale, R.Delivered, FreeClusters, Unbroken, W.Space, Run;
    ghost var g, d := file.fs.g, file.fs.disk[..];
    ClusterFitsBuffer(g, file.fs.disk.Length);
    EmptyWrite(g, d, cs, ch0);
    ghost var read, k, o;
    r, read, k, o := R.Read(file, size, out, frame, true, ch0, k0);
    UnbrokenBelow(g, file.currentOffset, |buf|);
    UptoTake(g, d, ch0, k, o);
    ch := ch0;
    OffsetSteps(g, k, 0, o);
    OffsetSteps(g, k, 0, g.BytesPerCluster());
    OffsetMonotone(g, k + 1, |ch0|);
    ghost var live, m, j := o < g.BytesPerCluster(), W.Mark(ch0, 0, 0), W.JobOf(file, cs, ch0, k, scratch, buf);
    w, m := W.WriteInOne(file, buf, scratch, live, cs, ch0, k);
    if live {
      DoneContent(j, file.fs.disk[..], m, w);
      ch := m.ch;
    }
  }
}
