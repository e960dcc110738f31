// Reading through a file handle, and reading a whole chain.
module FatRead {
  import opened Bytes
  import opened FatLayout
  import opened FatChains
  import opened FatContent
  import opened FatVolume
  import opened FatFile

  // The code reloads its cluster buffer at a cluster's start, and inside any cluster but the first.
  predicate Stale(file: File)
    requires file.fs.Mounted()
    reads file
  {
    file.currentOffset % file.fs.g.BytesPerCluster() != 0 && file.currentCluster == file.firstCluster
  }

  // On its file's chain a handle is stale exactly if it stands inside the first cluster.
  lemma StaleIff(file: File, ch: Chain, k: nat, o: nat)
    requires file.fs.Mounted() && Stands(file, ch, k, o) && Distinct(ch) && ch[0] == file.firstCluster
    ensures Stale(file) <==> k == 0 && o > 0
  {
    hide Geometry.Ok;
  }

  // What a read hands out for the bytes `read`: on a stale handle the buffer's old bytes come first.
  function Delivered(stale: bool, leftover: seq<byte>, read: seq<byte>): (s: seq<byte>)
    ensures |s| == |read|
  {
    if !stale then read
    else if |read| <= |leftover| then leftover[..|read|]
    else leftover + read[|leftover|..]
  }

  // The bytes from offset (k0, o0) to (k, o) are `read`.
  predicate Between(g: Geometry, d: Disk, ch: Chain, k0: nat, o0: nat, k: nat, o: nat, read: seq<byte>)
    requires g.Ok(|d|) && AllInRange(g, ch) && k0 < |ch| && k < |ch| && o0 <= g.BytesPerCluster()
  {
    o <= g.BytesPerCluster() && Upto(g, d, ch, k, o) == Upto(g, d, ch, k0, o0) + read
  }

  lemma BetweenExtends(g: Geometry, d: Disk, ch: Chain, k0: nat, o0: nat, k: nat, o: nat, read: seq<byte>, count: nat)
    requires g.Ok(|d|) && AllInRange(g, ch) && k0 < |ch| && k < |ch| && o0 <= g.BytesPerCluster()
    requires Between(g, d, ch, k0, o0, k, o, read) && o + count <= g.BytesPerCluster()
    ensures Between(g, d, ch, k0, o0, k, o + count, read + ClusterBytes(g, d, ch[k])[o..o + count])
  {
    hide Content, ClusterBytes, Geometry.Ok;
    var c := ClusterBytes(g, d, ch[k]);
    assert c[..o + count] == c[..o] + c[o..o + count];
    assert Upto(g, d, ch, k, o + count) == Upto(g, d, ch, k, o) + c[o..o + count];
  }

  lemma BetweenNext(g: Geometry, d: Disk, ch: Chain, k0: nat, o0: nat, k: nat, read: seq<byte>)
    requires g.Ok(|d|) && AllInRange(g, ch) && k0 < |ch| && k + 1 < |ch| && o0 <= g.BytesPerCluster()
    requires Between(g, d, ch, k0, o0, k, g.BytesPerCluster(), read)
    ensures Between(g, d, ch, k0, o0, k + 1, 0, read)
  {
    hide Content, ClusterBytes, Upto, Geometry.Ok;
    UptoNext(g, d, ch, k);
  }

  // What the bytes between two marks mean for the content as a whole.
  lemma BetweenIsSlice(g: Geometry, d: Disk, ch: Chain, k0: nat, o0: nat, k: nat, o: nat, read: seq<byte>)
    requires g.Ok(|d|) && AllInRange(g, ch) && k0 < |ch| && k < |ch| && o0 <= g.BytesPerCluster()
    requires Between(g, d, ch, k0, o0, k, o, read)
    ensures g.Offset(k0, o0) + |read| == g.Offset(k, o) <= |Content(g, d, ch)|
    ensures Content(g, d, ch)[g.Offset(k0, o0)..g.Offset(k, o)] == read
  {
    hide ClusterBytes, Geometry.Ok;
    UptoIsPrefix(g, d, ch, k, o);
    ContentLength(g, d, ch[..k]);
    ContentLength(g, d, ch[..k0]);
  }

  // One turn of the read loop. `bytes` is what the cluster buffer holds when it is copied from.
  method ReadChunk(file: File, size: nat, out: array<byte>, n: nat, data: array<byte>) returns (count: nat, ghost bytes: seq<byte>)
    requires file.fs.Mounted() && data.Length == BUFFER_SIZE
    requires n < size <= out.Length && file.currentOffset < file.fileSize && out != data
    modifies file`currentOffset, out, data
    ensures var g, o := file.fs.g, Place(file.fs.g, old(file.currentOffset));
      && count == Min(Min(size - n, g.BytesPerCluster() - o), file.fileSize - old(file.currentOffset)) > 0
      && |bytes| == g.BytesPerCluster() && out[..] == Patch(old(out[..]), n, bytes[o..o + count])
    ensures file.currentOffset == old(file.currentOffset) + count
    ensures if old(Stale(file)) then bytes == old(data[..file.fs.g.BytesPerCluster()])
            else Seen(file.fs.g, file.fs.disk[..], file.currentCluster, bytes)
  {
    hide Patch, Seen;
    var bpc := file.fs.g.BytesPerCluster();
    ClusterFitsBuffer(file.fs.g, file.fs.disk.Length);
    var clusterOffset := file.currentOffset % bpc;
    if clusterOffset == 0 || file.currentCluster != file.firstCluster {
      file.fs.ReadCluster(file.currentCluster, data, 0);
      assert data[0..0 + bpc] == data[..bpc];
    }
    bytes := data[..bpc];
    count := Min(Min(size - n, bpc - clusterOffset), file.fileSize - file.currentOffset);
    assert data[clusterOffset..clusterOffset + count] == bytes[clusterOffset..clusterOffset + count];
    CopyInto(out, n, data[clusterOffset..clusterOffset + count]);
    file.currentOffset := file.currentOffset + count;
  }

  lemma DeliveredNothing(stale: bool, leftover: seq<byte>)
    ensures Delivered(stale, leftover, []) == []
  {
  }

  // A turn that hands out `piece` for the next bytes `chunk` of the file.
  lemma DeliverStep(out0: seq<byte>, stale: bool, leftover: seq<byte>, read: seq<byte>, chunk: seq<byte>, piece: seq<byte>)
    requires |read| + |chunk| <= |out0| && |piece| == |chunk|
    requires read == [] ==> |chunk| <= |leftover| && piece == if stale then leftover[..|chunk|] else chunk
    requires read != [] ==> |read| >= |leftover| && piece == chunk
    ensures Patch(Patch(out0, 0, Delivered(stale, leftover, read)), |read|, piece)
            == Patch(out0, 0, Delivered(stale, leftover, read + chunk))
  {
    hide Patch;
    PatchAppend(out0, 0, Delivered(stale, leftover, read), piece);
    if read == [] {
      assert read + chunk == chunk;
    }
    assert Delivered(stale, leftover, read) + piece == Delivered(stale, leftover, read + chunk);
  }

  // After a chunk: on to the next cluster at a cluster's end. False at the end of the chain.
  method NextForRead(file: File) returns (more: bool)
    requires file.fs.Mounted()
    modifies file`currentCluster
    ensures file.currentCluster == if Place(file.fs.g, file.currentOffset) != 0 then old(file.currentCluster)
                                   else Next(file.fs.g, file.fs.disk[..], old(file.currentCluster))
    ensures more <==> Place(file.fs.g, file.currentOffset) != 0 || file.currentCluster < END_OF_CHAIN
  {
    if file.currentOffset % file.fs.g.BytesPerCluster() == 0 {
      file.currentCluster := file.fs.GetNextCluster(file.currentCluster);
      if file.currentCluster >= END_OF_CHAIN {
        return false;
      }
    }
    more := true;
  }

  lemma TailTake(s: seq<byte>, from: nat, n: nat)
    requires from + n <= |s|
    ensures s[from..][..n] == s[from..from + n]
  {
  }

  // A read in the making: the volume, the chain the handle stands on and at which byte of which of its
  // clusters, whether it is stale, what the cluster buffer holds behind that byte, and what `out` held.
  datatype Job = Job(g: Geometry, d: Disk, ch: Chain, k0: nat, o0: nat, stale: bool, leftover: seq<byte>, out0: seq<byte>)
  {
    predicate Ok() { g.Ok(|d|) && IsChain(FatOf(g, d), ch) && AllInRange(g, ch) && k0 < |ch| && o0 < g.BytesPerCluster() }
  }

  // Where it has got to: the bytes `read` were handed out, and the handle stands at byte `o` of
  // cluster number `k`.
  ghost predicate Reached(j: Job, k: nat, o: nat, read: seq<byte>, out: seq<byte>)
  {
    && j.Ok() && k < |j.ch| && Between(j.g, j.d, j.ch, j.k0, j.o0, k, o, read)
    && |out| == |j.out0| && |read| <= |j.out0| && out == Patch(j.out0, 0, Delivered(j.stale, j.leftover, read))
  }

  lemma ReachedStart(j: Job)
    requires j.Ok()
    ensures Reached(j, j.k0, j.o0, [], j.out0)
  {
    hide Patch, IsChain, FatOf, Geometry.Ok, AllInRange;
    PatchAppend(j.out0, 0, [], []);
    DeliveredNothing(j.stale, j.leftover);
  }

  // A turn hands out `count` bytes of `bytes`, which is the cluster under the handle or, in the first
  // turn of a stale handle, what the buffer held.
  lemma ReachedTurn(j: Job, k: nat, o: nat, read: seq<byte>, out: seq<byte>, bytes: seq<byte>, count: nat, out': seq<byte>)
    requires Reached(j, k, o, read, out) && 0 < count && |read| + count <= |j.out0| && o + count <= j.g.BytesPerCluster() == |bytes|
    requires out' == Patch(out, |read|, bytes[o..o + count])
    requires j.g.Ok(|j.d|) && j.g.InRange(j.ch[k]) && |j.leftover| == j.g.BytesPerCluster() - j.o0
    requires if read == [] && j.stale then bytes[o..] == j.leftover else bytes == ClusterBytes(j.g, j.d, j.ch[k])
    requires if read == [] then o == j.o0 else |read| >= |j.leftover|
    ensures Reached(j, k, o + count, read + ClusterBytes(j.g, j.d, j.ch[k])[o..o + count], out')
  {
    hide IsChain, Between, FatOf, Geometry.Ok, ClusterBytes, Patch, Delivered, AllInRange;
    BetweenExtends(j.g, j.d, j.ch, j.k0, j.o0, k, o, read, count);
    TailTake(bytes, o, count);
    DeliverStep(j.out0, j.stale, j.leftover, read, ClusterBytes(j.g, j.d, j.ch[k])[o..o + count], bytes[o..o + count]);
  }

  // The FAT takes a handle at a cluster's end to the start of the next one, or to a mark.
  lemma ReachedNext(j: Job, k: nat, read: seq<byte>, out: seq<byte>)
    requires Reached(j, k, j.g.BytesPerCluster(), read, out)
    ensures j.g.Ok(|j.d|) && k < |j.ch|
    ensures if k + 1 < |j.ch| then Next(j.g, j.d, j.ch[k]) == j.ch[k + 1] < END_OF_CHAIN && Reached(j, k + 1, 0, read, out)
            else END_OF_CHAIN <= Next(j.g, j.d, j.ch[k]) < ENTRY_LIMIT
  {
    hide Between, Geometry.Ok, ClusterBytes, Patch, Delivered;
    ClusterNumbersSmall(j.g, |j.d|);
    if k + 1 < |j.ch| {
      BetweenNext(j.g, j.d, j.ch, j.k0, j.o0, k, read);
    }
  }

  lemma ReachedFacts(j: Job, k: nat, o: nat, read: seq<byte>, out: seq<byte>)
    requires Reached(j, k, o, read, out)
    ensures j.g.Ok(|j.d|) && AllInRange(j.g, j.ch) && k < |j.ch| && j.g.InRange(j.ch[k]) && o <= j.g.BytesPerCluster()
    ensures Between(j.g, j.d, j.ch, j.k0, j.o0, k, o, read) && |read| <= |j.out0|
    ensures out == Patch(j.out0, 0, Delivered(j.stale, j.leftover, read))
    ensures j.g.Offset(k, o) == j.g.Offset(j.k0, j.o0) + |read|
  {
    hide IsChain, FatOf, Geometry.Ok, ClusterBytes, Patch, Delivered;
    BetweenIsSlice(j.g, j.d, j.ch, j.k0, j.o0, k, o, read);
  }

  lemma ChainUsable(g: Geometry, d: Disk, ch: Chain)
    requires g.Ok(|d|) && IsChain(FatOf(g, d), ch)
    ensures AllInRange(g, ch)
  {
  }

  // One turn for a handle that stands on a chain: what is handed out, and where that leaves it.
  lemma LiveTurn(j: Job, k: nat, o: nat, read: seq<byte>, out: seq<byte>, bytes: seq<byte>, offset: nat, count: nat, out': seq<byte>)
    requires Reached(j, k, o, read, out) && 0 < count && |read| + count <= |j.out0| && o + count <= j.g.BytesPerCluster() == |bytes|
    requires out' == Patch(out, |read|, bytes[o..o + count]) && |j.leftover| == j.g.BytesPerCluster() - j.o0
    requires if read == [] && j.stale then bytes[o..] == j.leftover else Seen(j.g, j.d, j.ch[k], bytes)
    requires if read == [] then o == j.o0 else |read| >= |j.leftover|
    requires j.g.sectorsPerCluster > 0 && Place(j.g, offset) == o
    ensures j.g.Ok(|j.d|) && j.g.InRange(j.ch[k])
    ensures Reached(j, k, o + count, read + ClusterBytes(j.g, j.d, j.ch[k])[o..o + count], out')
    ensures Place(j.g, offset + count) == if o + count == j.g.BytesPerCluster() then 0 else o + count
  {
    hide IsChain, Between, FatOf, Geometry.Ok, ClusterBytes, Patch, Delivered, AllInRange, Seen, Place, Reached;
    ReachedFacts(j, k, o, read, out);
    if !(read == [] && j.stale) {
      SeenInRange(j.g, j.d, j.ch[k], bytes);
    }
    ReachedTurn(j, k, o, read, out, bytes, count, out');
    PlaceAfter(j.g, offset, count);
  }

  // A turn of the loop up to the move to the next cluster.
  method ReadTurn(file: File, size: nat, out: array<byte>, n: nat, data: array<byte>,
                  ghost live: bool, ghost j: Job, ghost k: nat, ghost o: nat, ghost read: seq<byte>)
    returns (count: nat, ghost o': nat, ghost read': seq<byte>)
    requires file.fs.Mounted() && data.Length == BUFFER_SIZE && file.fs.g == j.g && file.fs.disk[..] == j.d
    requires n < size <= out.Length && file.currentOffset < file.fileSize && out != data
    requires live ==> Reached(j, k, o, read, out[..]) && Stands(file, j.ch, k, o) && |read| == n
    requires live && n == 0 ==> o == j.o0 && data[..j.g.BytesPerCluster()][o..] == j.leftover && Stale(file) == j.stale
    requires live && n > 0 ==> o == 0 && n >= |j.leftover|
    requires |j.leftover| == j.g.BytesPerCluster() - j.o0
    modifies file`currentOffset, out, data
    ensures 0 < count && n + count <= size && file.currentOffset == old(file.currentOffset) + count <= file.fileSize
    ensures out[n + count..] == old(out[n + count..])
    ensures live ==> Reached(j, k, o', read', out[..]) && |read'| == n + count && o < o' <= j.g.BytesPerCluster()
    ensures live ==> Place(j.g, file.currentOffset) == if o' == j.g.BytesPerCluster() then 0 else o'
    ensures live && n + count < size && file.currentOffset < file.fileSize ==>
      o' == j.g.BytesPerCluster() && n + count >= |j.leftover|
  {
    hide IsChain, Between, FatOf, Geometry.Ok, Geometry.Offset, ClusterBytes, Patch, Delivered, Reached, Place, AllInRange, Seen;
    ghost var before, offset := out[..], file.currentOffset;
    ghost var bytes;
    o', read' := o, read;
    count, bytes := ReadChunk(file, size, out, n, data);
    PatchParts(before, n, bytes[Place(file.fs.g, offset)..Place(file.fs.g, offset) + count]);
    assert out[n + count..] == out[..][n + count..];
    if live {
      PlaceIs(j.g, offset);
      assert read == [] <==> n == 0;
      ReachedFacts(j, k, o, read, before);
      LiveTurn(j, k, o, read, before, bytes, offset, count, out[..]);
      read', o' := read + ClusterBytes(j.g, j.d, j.ch[k])[o..o + count], o + count;
    }
  }

  // `data` is the frame's uninitialised cluster buffer. Of a handle that stands in cluster number `k0`
  // of a chain (`live`), the read goes on to byte `o` of cluster number `k`.
  method Read(file: File, size: nat, out: array<byte>, data: array<byte>, ghost live: bool, ghost ch: Chain, ghost k0: nat)
    returns (n: int, ghost read: seq<byte>, ghost k: nat, ghost o: nat)
    requires file.fs.Mounted() && data.Length == BUFFER_SIZE && size <= out.Length && out != data
    requires live ==> IsChain(file.fs.Entries(), ch) && Stands(file, ch, k0, Place(file.fs.g, file.currentOffset))
    modifies file`currentCluster, file`currentOffset, out, data
    ensures if file.isDirectory then n == -1 else 0 <= n <= size
    ensures file.currentOffset == old(file.currentOffset) + Max(n, 0) && (n > 0 ==> file.currentOffset <= file.fileSize)
    ensures out[Max(n, 0)..] == old(out[Max(n, 0)..])
    ensures file.isDirectory ==> file.currentCluster == old(file.currentCluster)
    // the count falls short only at the end of the file or of a chain
    ensures 0 <= n < size ==> file.currentOffset >= file.fileSize || file.currentCluster >= END_OF_CHAIN
    // wherever the handle was, it moves along the FAT
    ensures Moved(file.fs.g, file.fs.disk[..], old(file.currentCluster), file.currentCluster)
    // the bytes read are those of the chain from where the handle stands, and they are handed out
    // unless the handle is stale
    ensures live ==>
      var g, o0 := file.fs.g, Place(file.fs.g, old(file.currentOffset));
      && AllInRange(g, ch) && k < |ch| && o <= g.BytesPerCluster()
      && |read| == Max(n, 0) && Between(g, file.fs.disk[..], ch, k0, o0, k, o, read)
      && out[..] == Patch(old(out[..]), 0, Delivered(old(Stale(file)), old(data[..file.fs.g.BytesPerCluster()])[o0..], read))
      && g.Offset(k, o) == g.Offset(k0, o0) + |read|
    ensures live && 0 <= n < size ==> file.currentOffset >= file.fileSize || o == file.fs.g.BytesPerCluster()
    // where the handle stands
    ensures live ==> if o < file.fs.g.BytesPerCluster() then Stands(file, ch, k, o)
                     else k + 1 == |ch| && END_OF_CHAIN <= file.currentCluster < ENTRY_LIMIT
  {
    hide IsChain, Between, FatOf, Geometry.Ok, Geometry.Offset, ClusterBytes, Patch, Delivered, Reached, Place, AllInRange, Seen,
         Stale, Next, Moved;
    ghost var g, d := file.fs.g, file.fs.disk[..];
    ClusterFitsBuffer(g, file.fs.disk.Length);
    n, read, k, o := -1, [], k0, Place(g, file.currentOffset);
    ghost var stale, leftover := Stale(file), data[..g.BytesPerCluster()][o..];
    ghost var j := Job(g, d, ch, k, o, stale, leftover, out[..]);
    MovedNot(g, d, file.currentCluster);
    if live {
      ChainUsable(g, d, ch);
      ReachedStart(j);
      ReachedFacts(j, k, o, [], out[..]);
    }
    if file.isDirectory {
      return;
    }
    n := 0;
    while n < size && file.currentOffset < file.fileSize
      invariant 0 <= n <= size && file.currentOffset == old(file.currentOffset) + n && (n > 0 ==> file.currentOffset <= file.fileSize)
      invariant out.Length == |j.out0| && out[n..] == j.out0[n..]
      invariant Moved(g, d, old(file.currentCluster), file.currentCluster)
      invariant live ==> |read| == n && Reached(j, k, o, read, out[..]) && o < g.BytesPerCluster() && Stands(file, ch, k, o)
      invariant n == 0 ==> k == k0 && o == j.o0 && data[..g.BytesPerCluster()][o..] == leftover && Stale(file) == stale
      invariant live && 0 < n < size && file.currentOffset < file.fileSize ==> o == 0 && n >= |leftover|
    {
      var more, count;
      ghost var before := out[..];
      count, o, read := ReadTurn(file, size, out, n, data, live, j, k, o, read);
      n := n + count;
      assert out[n..] == out[..][n..] && before[n..] == before[n - count..][count..];
      MovedOn(g, d, old(file.currentCluster), file.currentCluster);
      more := NextForRead(file);
      if live && o == g.BytesPerCluster() {
        ReachedNext(j, k, read, out[..]);
        if k + 1 < |ch| {
          k, o := k + 1, 0;
        }
      }
      if !more {
        break;
      }
    }
    if live {
      ReachedFacts(j, k, o, read, out[..]);
    }
  }

  // A handle stands at byte `o0` of cluster number `k0`, and its offset is that of byte `o0` of cluster
  // number `q`: the read of `n` bytes hands out what the file holds at the offset.
  ghost predicate Right(g: Geometry, d: Disk, ch: Chain, k0: nat, q: nat, o0: nat, stale: bool, leftover: seq<byte>, n: nat)
    requires g.Ok(|d|) && AllInRange(g, ch)
  {
    && g.Offset(k0, o0) + n <= |Content(g, d, ch)| && g.Offset(q, o0) + n <= |Content(g, d, ch)|
    && Delivered(stale, leftover, Content(g, d, ch)[g.Offset(k0, o0)..g.Offset(k0, o0) + n])
       == Content(g, d, ch)[g.Offset(q, o0)..g.Offset(q, o0) + n]
  }

  function OtherByte(b: byte): (x: byte)
    ensures x != b
  {
    if b == 0 then 1 else 0
  }

  // Whatever the clusters and the buffer hold, a read is right exactly if the handle is on track and
  // not stale.
  lemma ReadRightIff(g: Geometry, d: Disk, ch: Chain, k0: nat, q: nat, o0: nat, stale: bool, n: nat)
    requires g.Ok(|d|) && IsChain(FatOf(g, d), ch) && AllInRange(g, ch) && o0 < g.BytesPerCluster() && 0 < n
    requires k0 < |ch| && q < |ch| && g.Offset(k0, o0) + n <= g.Offset(|ch|, 0) && g.Offset(q, o0) + n <= g.Offset(|ch|, 0)
    ensures (forall s, leftover :: |s| == g.BytesPerCluster() && |leftover| == g.BytesPerCluster() - o0 ==>
              Right(g, PutCluster(g, d, ch[k0], s), ch, k0, q, o0, stale, leftover, n))
            <==> q == k0 && !stale
  {
    hide FatOf, Geometry.Ok, Geometry.Offset, ClusterBytes, Content, PutCluster;
    forall s: seq<byte> | |s| == g.BytesPerCluster()
      ensures |Content(g, PutCluster(g, d, ch[k0], s), ch)| == g.Offset(|ch|, 0)
    {
      ContentLength(g, PutCluster(g, d, ch[k0], s), ch);
      OffsetZero(g, |ch|);
    }
    var was := ClusterBytes(g, d, ch[q])[o0];
    var s := ClusterBytes(g, d, ch[k0])[o0 := if q == k0 then was else OtherByte(was)];
    var leftover := seq(g.BytesPerCluster() - o0, _ => OtherByte(was));
    var d' := PutCluster(g, d, ch[k0], s);
    PutClusterRefines(g, d, ch[k0], s);
    ContentByte(g, d', ch, k0, o0);
    ContentByte(g, d', ch, q, o0);
    assert q != k0 ==> ch[q] != ch[k0];
    var read := Content(g, d', ch)[g.Offset(k0, o0)..g.Offset(k0, o0) + n];
    assert read[0] == s[o0] && Content(g, d', ch)[g.Offset(q, o0)..g.Offset(q, o0) + n][0] == was;
    assert stale ==> Delivered(stale, leftover, read)[0] == OtherByte(was);
    assert !(q == k0 && !stale) ==> !Right(g, d', ch, k0, q, o0, stale, leftover, n);
  }

  // What a read leaves in `out`, as its contract tells it, is what the file holds at the offset, exactly if
  // it is right.
  lemma HandsOutIff(g: Geometry, d: Disk, ch: Chain, k0: nat, q: nat, o0: nat, k: nat, o: nat, read: seq<byte>,
                    stale: bool, leftover: seq<byte>, out0: seq<byte>, out: seq<byte>)
    requires g.Ok(|d|) && AllInRange(g, ch) && k0 < |ch| && k < |ch| && o0 <= g.BytesPerCluster()
    requires Between(g, d, ch, k0, o0, k, o, read) && g.Offset(q, o0) + |read| <= |Content(g, d, ch)|
    requires |read| <= |out0| && out == Patch(out0, 0, Delivered(stale, leftover, read))
    ensures Right(g, d, ch, k0, q, o0, stale, leftover, |read|)
            <==> out[..|read|] == Content(g, d, ch)[g.Offset(q, o0)..g.Offset(q, o0) + |read|]
  {
    hide Geometry.Ok, Geometry.Offset, ClusterBytes, Content, Between, Patch, Delivered;
    BetweenIsSlice(g, d, ch, k0, o0, k, o, read);
    PatchParts(out0, 0, Delivered(stale, leftover, read));
    assert out[..|read|] == out[0..|read|];
  }

  lemma OffsetZero(g: Geometry, k: nat)
    ensures k * g.BytesPerCluster() == g.Offset(k, 0)
  {
  }

  lemma ChainStart(g: Geometry, d: Disk, ch: Chain)
    requires g.Ok(|d|) && IsChain(FatOf(g, d), ch)
    ensures ch != [] && ch[0] < END_OF_CHAIN && g.Offset(0, 0) == 0 && g.sectorsPerCluster > 0 && Content(g, d, ch[..0]) == []
  {
    ClusterNumbersSmall(g, |d|);
  }

  lemma ChainStep(g: Geometry, d: Disk, ch: Chain, k: nat)
    requires g.Ok(|d|) && IsChain(FatOf(g, d), ch) && k < |ch|
    ensures AllInRange(g, ch) && g.InRange(ch[k]) && ch[k] < END_OF_CHAIN && g.sectorsPerCluster > 0
    ensures if k + 1 < |ch| then FatOf(g, d)[ch[k]] == ch[k + 1] else FatOf(g, d)[ch[k]] >= END_OF_CHAIN
    ensures Content(g, d, ch[..k + 1]) == Content(g, d, ch[..k]) + ClusterBytes(g, d, ch[k])
  {
    ClusterNumbersSmall(g, |d|);
    assert ch[..k + 1][..k] == ch[..k];
  }

  lemma ContentParts(g: Geometry, d: Disk, ch: Chain, k: nat)
    requires g.Ok(|d|) && AllInRange(g, ch) && k <= |ch|
    ensures Content(g, d, ch[..k]) <= Content(g, d, ch) && |Content(g, d, ch[..k])| == g.Offset(k, 0)
    ensures k == |ch| ==> Content(g, d, ch[..k]) == Content(g, d, ch)
  {
    ContentConcat(g, d, ch[..k], ch[k..]);
    assert ch[..k] + ch[k..] == ch;
    ContentLength(g, d, ch[..k]);
  }

  // The whole chain from its head, at most `max` bytes of it. Every cluster is read entire, so the
  // buffer needs room for whole clusters.
  method ReadClusterChain(fs: Volume, start: nat, buffer: array<byte>, max: nat, ghost ch: Chain)
    returns (bytesRead: nat)
    requires fs.Mounted() && AllInRange(fs.g, ch) && IsChain(fs.Entries(), ch) && start == ch[0]
    requires max <= 0xFFFF_F000 && fs.g.Offset(ClustersFor(fs.g, max), 0) <= buffer.Length
    modifies buffer
    ensures bytesRead <= buffer.Length
    ensures bytesRead == Min(max, |Content(fs.g, fs.disk[..], ch)|)
    ensures buffer[..bytesRead] == Content(fs.g, fs.disk[..], ch)[..bytesRead]
  {
    hide IsChain, FatOf, Geometry.Ok, Geometry.Offset, ClusterBytes, Patch, Content, ClustersFor;
    ghost var g, d := fs.g, fs.disk[..];
    ghost var k: nat := 0;
    var cluster := start;
    bytesRead := 0;
    ChainStart(g, d, ch);
    while cluster < END_OF_CHAIN && bytesRead < max
      invariant k <= |ch| && bytesRead == Min(max, g.Offset(k, 0)) && g.Offset(k, 0) <= buffer.Length
      invariant buffer[..g.Offset(k, 0)] == Content(g, d, ch[..k])
      invariant if k < |ch| then cluster == ch[k] else cluster >= END_OF_CHAIN
      decreases |ch| - k
    {
      ChainStep(g, d, ch, k);
      OffsetSteps(g, k, 0, g.BytesPerCluster());
      ClusterFits(g, max, k);
      var toRead := fs.g.BytesPerCluster();
      if bytesRead + toRead > max {
        toRead := max - bytesRead;
      }
      ghost var before := buffer[..];
      fs.ReadCluster(cluster, buffer, bytesRead);
      PatchParts(before, bytesRead, ClusterBytes(g, d, ch[k]));
      assert buffer[..g.Offset(k + 1, 0)] == buffer[..bytesRead] + buffer[bytesRead..g.Offset(k + 1, 0)];
      bytesRead := bytesRead + toRead;
      cluster := fs.GetNextCluster(cluster);
      k := k + 1;
    }
    ContentParts(g, d, ch, k);
  }
}
