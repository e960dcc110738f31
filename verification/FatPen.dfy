// `fat32_write` for any handle, whatever its current cluster is: what it makes of the disk and of the
// handle is a function of the two.
module FatPen {
  import opened Bytes
  import opened FatLayout
  import opened FatVolume
  import opened FatContent
  import opened FatFile

  // What the write loop works on: the disk, the handle's cluster, offset and size, and what the
  // frame's cluster buffer holds.
  datatype Pen = Pen(d: Disk, cluster: nat, offset: nat, size: nat, data: seq<byte>)
  {
    predicate Fits(g: Geometry) { g.Ok(|d|) && |data| == g.BytesPerCluster() && offset < WORD }
  }

  // One turn up to the cluster write. `seen` is what reloading the buffer reads. It is reloaded only
  // when the offset is inside the cluster; otherwise the cluster receives, behind the new bytes,
  // whatever the buffer held.
  function Turn(g: Geometry, s: Pen, seen: seq<byte>, chunk: seq<byte>): (t: Pen)
    requires s.Fits(g) && |seen| == g.BytesPerCluster() && Place(g, s.offset) + |chunk| <= g.BytesPerCluster()
    ensures t.Fits(g) && |t.d| == |s.d|
  {
    var o := Place(g, s.offset);
    var bytes := Patch(if o != 0 then seen else s.data, o, chunk);
    var offset := (s.offset + |chunk|) % WORD;
    Pen(PutAt(g, s.d, s.cluster, bytes), s.cluster, offset, Max(s.size, offset), bytes)
  }

  datatype Step = NoRoom | To(d: Disk, cluster: nat)

  // The move to the next cluster: the one that the FAT names, or at a chain's end the first free one,
  // linked behind it.
  function Onward(g: Geometry, d: Disk, cluster: nat): (s: Step)
    requires g.Ok(|d|)
    ensures s.To? ==> |s.d| == |d|
  {
    var next := Next(g, d, cluster);
    if next < END_OF_CHAIN then To(d, next)
    else
      var free := FreeFrom(FatOf(g, d), 2);
      if free == 0 then NoRoom else To(PutEntry(g, PutEntry(g, d, cluster, free), free, END_OF_CHAIN), free)
  }

  function Room(g: Geometry, s: Pen, n: nat): (m: nat)
    requires s.Fits(g)
    ensures m <= n && Place(g, s.offset) + m <= g.BytesPerCluster() && (n > 0 ==> m > 0)
  {
    Min(g.BytesPerCluster() - Place(g, s.offset), n)
  }

  datatype Outcome = Outcome(pen: Pen, count: nat, broken: bool)
  {
    function Plus(n: nat): Outcome { Outcome(pen, count + n, broken) }
  }

  // The loop from its start: what it leaves, and the count it reports. Where the offset passes 4 GiB it
  // may come out inside a cluster although one was just filled (`broken`); the loop then goes on in
  // the same cluster, as if a second write began there.
  function Run(g: Geometry, s: Pen, seen: seq<byte>, buf: seq<byte>): (r: Outcome)
    requires s.Fits(g) && |seen| == g.BytesPerCluster()
    ensures r.pen.Fits(g) && |r.pen.d| == |s.d| && r.count <= |buf|
    decreases |buf|
  {
    if buf == [] then Outcome(s, 0, false)
    else
      var m := Room(g, s, |buf|);
      var t := Turn(g, s, seen, buf[..m]);
      if m == |buf| then Outcome(t, m, false)
      else if Place(g, t.offset) != 0 then Outcome(t, m, true)
      else
        match Onward(g, t.d, t.cluster)
        case NoRoom => Outcome(t, m, false)
        case To(d, c) => Run(g, t.(d := d, cluster := c), t.data, buf[m..]).Plus(m)
  }

  // Offsets are 32 bits wide. A write that does not pass 4 GiB keeps its place in the cluster, and so
  // does any where the cluster size divides 4 GiB.
  predicate Unbroken(g: Geometry, offset: nat, n: nat)
    requires g.sectorsPerCluster > 0
  {
    offset + n < WORD || WORD % g.BytesPerCluster() == 0
  }

  lemma PlaceKept(g: Geometry, offset: nat, n: nat, m: nat)
    requires g.sectorsPerCluster > 0 && Unbroken(g, offset, n) && m <= n
    ensures Place(g, (offset + m) % WORD) == Place(g, offset + m)
    ensures Unbroken(g, (offset + m) % WORD, n - m)
  {
    var bpc, x := g.BytesPerCluster(), offset + m;
    if WORD % bpc == 0 {
      var q, p := x / WORD, WORD / bpc;
      assert x == q * WORD + x % WORD && WORD == p * bpc;
      assert q * (p * bpc) == (q * p) * bpc;
      ModMultiple(x % WORD, q * p, bpc);
    }
  }

  // After the chunk that fills a cluster the offset is at a boundary; after a shorter one it is not.
  lemma ChunkEnds(g: Geometry, offset: nat, n: nat, m: nat)
    requires g.sectorsPerCluster > 0 && Unbroken(g, offset, n) && 0 < m <= n
    requires Place(g, offset) + m <= g.BytesPerCluster()
    ensures Place(g, (offset + m) % WORD) == if Place(g, offset) + m == g.BytesPerCluster() then 0 else Place(g, offset) + m
  {
    hide Unbroken;
    PlaceKept(g, offset, n, m);
    PlaceAfter(g, offset, m);
  }

  ghost function PenOf(file: File, data: array<byte>): (s: Pen)
    requires file.fs.Mounted() && data.Length == BUFFER_SIZE
    reads file, file.fs.disk, data
  {
    Pen(file.fs.disk[..], file.currentCluster, file.currentOffset, file.fileSize, data[..file.fs.g.BytesPerCluster()])
  }

  method WriteChunk(file: File, buf: seq<byte>, n: nat, data: array<byte>) returns (m: nat, ghost seen: seq<byte>)
    requires file.fs.Mounted() && data.Length == BUFFER_SIZE && n < |buf| && file.currentOffset < WORD
    modifies file`currentOffset, file`fileSize, file.fs.disk, data
    ensures m == Room(file.fs.g, old(PenOf(file, data)), |buf| - n) > 0 && |seen| == file.fs.g.BytesPerCluster()
    ensures PenOf(file, data) == Turn(file.fs.g, old(PenOf(file, data)), seen, buf[n..n + m])
    ensures Place(file.fs.g, old(file.currentOffset)) != 0 ==>
      Seen(file.fs.g, old(file.fs.disk[..]), file.currentCluster, seen)
    ensures file.currentOffset < WORD
  {
    hide Patch, Seen, PutAt;
    var bpc := file.fs.g.BytesPerCluster();
    var clusterOffset := file.currentOffset % bpc;
    seen := data[..bpc];
    if clusterOffset != 0 {
      ghost var data0 := data[..];
      file.fs.ReadCluster(file.currentCluster, data, 0);
      seen := data[..bpc];
      assert data[0..0 + bpc] == seen;
    }
    m := Min(bpc - clusterOffset, |buf| - n);
    ghost var data1 := data[..];
    CopyInto(data, clusterOffset, buf[n..n + m]);
    PatchTake(data1, clusterOffset, buf[n..n + m], bpc);
    file.fs.WriteCluster(file.currentCluster, data);
    file.currentOffset := (file.currentOffset + m) % WORD;
    if file.currentOffset > file.fileSize {
      file.fileSize := file.currentOffset;
    }
  }

  method NextForWrite(file: File) returns (ok: bool)
    requires file.fs.Mounted()
    modifies file`currentCluster, file.fs.disk
    ensures Onward(file.fs.g, old(file.fs.disk[..]), old(file.currentCluster))
            == if ok then To(file.fs.disk[..], file.currentCluster) else NoRoom
    ensures !ok ==> file.fs.disk[..] == old(file.fs.disk[..]) && file.currentCluster == old(file.currentCluster)
  {
    hide Geometry.Ok, PutEntry, FatOf;
    var next := file.fs.GetNextCluster(file.currentCluster);
    if next >= END_OF_CHAIN {
      next := file.fs.FindFreeCluster();
      if next == 0 {
        return false;
      }
      var _ := file.fs.SetFatEntry(file.currentCluster, next);
      var _ := file.fs.SetFatEntry(next, END_OF_CHAIN);
    }
    file.currentCluster := next;
    ok := true;
  }

  lemma RunFrom(g: Geometry, s: Pen, seen: seq<byte>, buf: seq<byte>)
    requires s.Fits(g) && |seen| == g.BytesPerCluster() && Place(g, s.offset) == 0
    ensures Run(g, s, seen, buf) == Run(g, s, s.data, buf)
  {
    hide Onward, PutAt, Patch, Geometry.Ok, Place;
  }

  lemma RunTurn(g: Geometry, s: Pen, seen: seq<byte>, buf: seq<byte>)
    requires s.Fits(g) && |seen| == g.BytesPerCluster() && buf != []
    ensures var m := Room(g, s, |buf|);
      var t := Turn(g, s, seen, buf[..m]);
      && (m == |buf| ==> Run(g, s, seen, buf) == Outcome(t, m, false))
      && (m < |buf| && Place(g, t.offset) != 0 ==> Run(g, s, seen, buf) == Outcome(t, m, true))
      && (m < |buf| && Place(g, t.offset) == 0 && Onward(g, t.d, t.cluster).NoRoom? ==>
            Run(g, s, seen, buf) == Outcome(t, m, false))
      && (m < |buf| && Place(g, t.offset) == 0 && Onward(g, t.d, t.cluster).To? ==>
            var u := t.(d := Onward(g, t.d, t.cluster).d, cluster := Onward(g, t.d, t.cluster).cluster);
            Run(g, s, seen, buf) == Run(g, u, u.data, buf[m..]).Plus(m))
  {
    hide Turn, Onward, Geometry.Ok, Place;
  }

  lemma RunNothing(g: Geometry)
    ensures forall x: seq<byte>, p: Pen :: |x| == g.BytesPerCluster() && p.Fits(g) ==> Run(g, p, x, []) == Outcome(p, 0, false)
  {
  }

  lemma TurnMoves(g: Geometry, s: Pen, seen: seq<byte>, chunk: seq<byte>)
    requires s.Fits(g) && |seen| == g.BytesPerCluster() && Place(g, s.offset) + |chunk| <= g.BytesPerCluster()
    ensures var t := Turn(g, s, seen, chunk);
      t.cluster == s.cluster && t.offset == (s.offset + |chunk|) % WORD && t.size == Max(s.size, t.offset)
  {
  }

  lemma NotFull(g: Geometry, s: Pen, n: nat)
    requires s.Fits(g) && Room(g, s, n) < n
    ensures g.sectorsPerCluster > 0 && Place(g, s.offset) + Room(g, s, n) == g.BytesPerCluster()
  {
    hide Place;
  }

  // A run breaks only where the offset passes 4 GiB, and only if the cluster size does not divide that.
  lemma {:induction false} RunBreaks(g: Geometry, s: Pen, seen: seq<byte>, buf: seq<byte>)
    requires s.Fits(g) && |seen| == g.BytesPerCluster()
    ensures var r := Run(g, s, seen, buf);
      r.broken ==> r.count < |buf| && Place(g, r.pen.offset) != 0 && !Unbroken(g, s.offset, r.count)
    decreases |buf|
  {
    hide Onward, Geometry.Ok, Place, Run, Turn, Unbroken, Room;
    if buf == [] {
      RunNothing(g);
    } else {
      RunTurn(g, s, seen, buf);
      var m := Room(g, s, |buf|);
      var t := Turn(g, s, seen, buf[..m]);
      TurnMoves(g, s, seen, buf[..m]);
      if m < |buf| {
        NotFull(g, s, |buf|);
        if Place(g, t.offset) != 0 {
          if Unbroken(g, s.offset, m) {
            ChunkEnds(g, s.offset, m, m);
          }
        } else if Onward(g, t.d, t.cluster).To? {
          var u := t.(d := Onward(g, t.d, t.cluster).d, cluster := Onward(g, t.d, t.cluster).cluster);
          RunBreaks(g, u, u.data, buf[m..]);
          var r := Run(g, u, u.data, buf[m..]);
          if Unbroken(g, s.offset, m + r.count) {
            PlaceKept(g, s.offset, m + r.count, m);
          }
        }
      }
    }
  }

  // Behind the break the offset is small, so the rest of the write does not break again.
  lemma RestUnbroken(g: Geometry, s: Pen, seen: seq<byte>, buf: seq<byte>)
    requires s.Fits(g) && |seen| == g.BytesPerCluster() && |buf| < WORD && Run(g, s, seen, buf).broken
    ensures var r := Run(g, s, seen, buf);
      r.count < |buf| && Place(g, r.pen.offset) != 0 && r.pen.offset + (|buf| - r.count) < WORD
  {
    hide Run, Place, Geometry.Ok;
    RunBreaks(g, s, seen, buf);
    RunOffset(g, s, seen, buf);
  }

  lemma UnbrokenPart(g: Geometry, offset: nat, total: nat, n: nat)
    requires g.sectorsPerCluster > 0 && Unbroken(g, offset, total) && n <= total
    ensures Unbroken(g, offset, n)
  {
  }

  lemma UnbrokenRun(g: Geometry, s: Pen, seen: seq<byte>, buf: seq<byte>)
    requires s.Fits(g) && |seen| == g.BytesPerCluster() && Unbroken(g, s.offset, |buf|)
    ensures !Run(g, s, seen, buf).broken
  {
    hide Run, Place, Geometry.Ok, Unbroken;
    RunBreaks(g, s, seen, buf);
    if Run(g, s, seen, buf).broken {
      UnbrokenPart(g, s.offset, |buf|, Run(g, s, seen, buf).count);
    }
  }

  // A write takes pen `s` to pen `t` and reports `n` bytes: in one run or, if that breaks, in two. `seen`
  // is what reloading the buffer reads at the start, `again` what it reads at the break.
  ghost predicate Writes(g: Geometry, s: Pen, seen: seq<byte>, again: seq<byte>, buf: seq<byte>, t: Pen, n: nat)
    requires s.Fits(g) && |seen| == g.BytesPerCluster() == |again|
  {
    var r := Run(g, s, seen, buf);
    if !r.broken then r == Outcome(t, n, false)
    else
      && Seen(g, r.pen.d, r.pen.cluster, again) && n >= r.count
      && Run(g, r.pen, again, buf[r.count..]) == Outcome(t, n - r.count, false)
  }

  // In the loop: `n` bytes of `buf` are written, of them `base` before a break, and the pen is `p`.
  ghost predicate Midway(g: Geometry, s: Pen, seen: seq<byte>, again: seq<byte>, buf: seq<byte>, base: nat, n: nat, p: Pen)
  {
    && s.Fits(g) && p.Fits(g) && |seen| == g.BytesPerCluster() == |again| && base <= n <= |buf|
    && (base == 0 && n == 0 ==> p == s)
    && (base == 0 && n > 0 ==> Run(g, s, seen, buf) == Run(g, p, p.data, buf[n..]).Plus(n))
    && (base > 0 ==>
          && Run(g, s, seen, buf).broken && base == Run(g, s, seen, buf).count
          && var q := Run(g, s, seen, buf).pen;
             if n == base then p == q && Place(g, p.offset) != 0
             else
               && Seen(g, q.d, q.cluster, again)
               && Run(g, q, again, buf[base..]) == Run(g, p, p.data, buf[n..]).Plus(n - base))
    && (base < n < |buf| ==> Place(g, p.offset) == 0)
  }

  lemma MidwayStart(g: Geometry, s: Pen, seen: seq<byte>, again: seq<byte>, buf: seq<byte>)
    requires s.Fits(g) && |seen| == g.BytesPerCluster() == |again|
    ensures Midway(g, s, seen, again, buf, 0, 0, s)
  {
    hide Run, Place, Geometry.Ok;
  }

  // What the run from the pen gives, seen from the start of the write.
  lemma MidwayRest(g: Geometry, s: Pen, seen: seq<byte>, again: seq<byte>, buf: seq<byte>, base: nat, n: nat, p: Pen,
                   now: seq<byte>)
    requires Midway(g, s, seen, again, buf, base, n, p) && n < |buf| < WORD && |now| == g.BytesPerCluster()
    requires Place(g, p.offset) != 0 ==> Seen(g, p.d, p.cluster, now)
    ensures var seen', again' := if base == 0 && n == 0 then now else seen, if 0 < base == n then now else again;
      var r := Run(g, p, now, buf[n..]).Plus(n - base);
      && (base == 0 ==> Run(g, s, seen', buf) == r)
      && (base > 0 ==>
            && Run(g, s, seen', buf).broken && base == Run(g, s, seen', buf).count && !r.broken
            && var q := Run(g, s, seen', buf).pen;
               Seen(g, q.d, q.cluster, again') && Run(g, q, again', buf[base..]) == r)
  {
    hide Run, Place, Geometry.Ok, Seen;
    if base < n {
      RunFrom(g, p, now, buf[n..]);
    } else {
      assert buf[0..] == buf;
    }
    if base > 0 {
      RestUnbroken(g, s, seen, buf);
      UnbrokenRun(g, Run(g, s, seen, buf).pen, if base == n then now else again, buf[base..]);
    }
  }

  // One turn of the loop, up to the move to the next cluster.
  lemma MidwayTurn(g: Geometry, s: Pen, seen: seq<byte>, again: seq<byte>, buf: seq<byte>, base: nat, n: nat, p: Pen,
                   now: seq<byte>, m: nat, t: Pen)
    requires Midway(g, s, seen, again, buf, base, n, p) && n < |buf| < WORD && |now| == g.BytesPerCluster()
    requires Place(g, p.offset) != 0 ==> Seen(g, p.d, p.cluster, now)
    requires p.Fits(g) && m == Room(g, p, |buf| - n) && t == Turn(g, p, now, buf[n..n + m])
    ensures m > 0 && g.Ok(|t.d|) && g.sectorsPerCluster > 0
    ensures var seen', again' := if base == 0 && n == 0 then now else seen, if 0 < base == n then now else again;
      && (n + m == |buf| ==> Writes(g, s, seen', again', buf, t, |buf|) && Midway(g, s, seen', again', buf, base, n + m, t))
      && (n + m < |buf| && Place(g, t.offset) != 0 ==> base == 0 && Midway(g, s, seen', again', buf, n + m, n + m, t))
      && (n + m < |buf| && Place(g, t.offset) == 0 ==>
            && (Onward(g, t.d, t.cluster).NoRoom? ==> Writes(g, s, seen', again', buf, t, n + m))
            && (Onward(g, t.d, t.cluster).To? ==>
                  var u := t.(d := Onward(g, t.d, t.cluster).d, cluster := Onward(g, t.d, t.cluster).cluster);
                  Midway(g, s, seen', again', buf, base, n + m, u)))
  {
    hide Run, Place, Geometry.Ok, Seen, Turn, Onward, Room;
    var rest := buf[n..];
    assert rest[..m] == buf[n..n + m] && rest[m..] == buf[n + m..];
    MidwayRest(g, s, seen, again, buf, base, n, p, now);
    RunTurn(g, p, now, rest);
    assert m > 0;
    RunNothing(g);
  }

  // `data` is the frame's uninitialised cluster buffer.
  method Write(file: File, buf: seq<byte>, data: array<byte>) returns (n: int, ghost seen: seq<byte>, ghost again: seq<byte>)
    requires file.fs.Mounted() && data.Length == BUFFER_SIZE && file.currentOffset < WORD && |buf| < WORD
    modifies file`currentCluster, file`currentOffset, file`fileSize, file.fs.disk, data
    ensures |seen| == file.fs.g.BytesPerCluster() == |again|
    ensures !file.isDirectory && buf != [] && Place(file.fs.g, old(file.currentOffset)) != 0 ==>
      Seen(file.fs.g, old(file.fs.disk[..]), old(file.currentCluster), seen)
    ensures if file.isDirectory then n == -1 && PenOf(file, data) == old(PenOf(file, data))
            else 0 <= n && Writes(file.fs.g, old(PenOf(file, data)), seen, again, buf, PenOf(file, data), n)
  {
    hide Turn, Onward, Seen, Geometry.Ok, Run, Room, Place, FatOf, Midway, Writes;
    ClusterFitsBuffer(file.fs.g, file.fs.disk.Length);
    var bpc := file.fs.g.BytesPerCluster();
    n, seen, again := -1, data[..bpc], data[..bpc];
    if file.isDirectory {
      return;
    }
    n := 0;
    ghost var g, s := file.fs.g, PenOf(file, data);
    ghost var base: nat := 0;
    MidwayStart(g, s, seen, again, buf);
    WritesNothing(g, s, seen, again);
    while n < |buf|
      invariant 0 <= n <= |buf| && |seen| == bpc == |again| && file.currentOffset < WORD
      invariant Midway(g, s, seen, again, buf, base, n, PenOf(file, data))
      invariant n > 0 && Place(g, s.offset) != 0 ==> Seen(g, s.d, s.cluster, seen)
      invariant n == 0 ==> base == 0
      invariant n == |buf| ==> Writes(g, s, seen, again, buf, PenOf(file, data), n)
    {
      ghost var p := PenOf(file, data);
      var m;
      ghost var now;
      m, now := WriteChunk(file, buf, n, data);
      ghost var t := PenOf(file, data);
      MidwayFacts(g, s, seen, again, buf, base, n, p);
      MidwayTurn(g, s, seen, again, buf, base, n, p, now, m, t);
      seen, again := if base == 0 && n == 0 then now else seen, if 0 < base == n then now else again;
      n := n + m;
      PlaceIs(g, file.currentOffset);
      if file.currentOffset % bpc == 0 && n < |buf| {
        var ok := NextForWrite(file);
        if !ok {
          return;
        }
        assert PenOf(file, data) == t.(d := file.fs.disk[..], cluster := file.currentCluster);
      } else if n < |buf| {
        base := n;
      }
    }
  }

  lemma WritesNothing(g: Geometry, s: Pen, seen: seq<byte>, again: seq<byte>)
    requires s.Fits(g) && |seen| == g.BytesPerCluster() == |again|
    ensures Writes(g, s, seen, again, [], s, 0)
  {
    RunNothing(g);
  }

  lemma MidwayFacts(g: Geometry, s: Pen, seen: seq<byte>, again: seq<byte>, buf: seq<byte>, base: nat, n: nat, p: Pen)
    requires Midway(g, s, seen, again, buf, base, n, p)
    ensures base == 0 && n == 0 ==> p == s
  {
    hide Run, Place, Geometry.Ok, Seen;
  }

  // ----- what every run does to the offset and the size -----

  lemma AddWrapped(offset: nat, m: nat, n: nat)
    ensures ((offset + m) % WORD + n) % WORD == (offset + (m + n)) % WORD
  {
  }

  lemma {:induction false} RunOffset(g: Geometry, s: Pen, seen: seq<byte>, buf: seq<byte>)
    requires s.Fits(g) && |seen| == g.BytesPerCluster()
    ensures var r := Run(g, s, seen, buf);
      r.pen.offset == (s.offset + r.count) % WORD && (s.size < WORD ==> r.pen.size < WORD)
    decreases |buf|
  {
    hide Onward, Geometry.Ok, Place, Run, Turn;
    if buf == [] {
      RunNothing(g);
    } else {
      RunTurn(g, s, seen, buf);
      var m := Room(g, s, |buf|);
      var t := Turn(g, s, seen, buf[..m]);
      TurnMoves(g, s, seen, buf[..m]);
      var step := Onward(g, t.d, t.cluster);
      if m < |buf| && step.To? {
        var u := t.(d := step.d, cluster := step.cluster);
        RunOffset(g, u, u.data, buf[m..]);
        AddWrapped(s.offset, m, Run(g, u, u.data, buf[m..]).count);
      }
    }
  }

  lemma {:induction false} RunSize(g: Geometry, s: Pen, seen: seq<byte>, buf: seq<byte>)
    requires s.Fits(g) && |seen| == g.BytesPerCluster() && s.offset + |buf| < WORD
    ensures var r := Run(g, s, seen, buf);
      r.pen.offset == s.offset + r.count && r.pen.size == if buf == [] then s.size else Max(s.size, r.pen.offset)
    decreases |buf|
  {
    hide Onward, Geometry.Ok, Place, Run, Turn;
    if buf == [] {
      RunNothing(g);
    } else {
      RunTurn(g, s, seen, buf);
      var m := Room(g, s, |buf|);
      var t := Turn(g, s, seen, buf[..m]);
      TurnMoves(g, s, seen, buf[..m]);
      NoWrap(s.offset + m);
      var step := Onward(g, t.d, t.cluster);
      if m < |buf| && step.To? {
        var u := t.(d := step.d, cluster := step.cluster);
        RunSize(g, u, u.data, buf[m..]);
      }
    }
  }

  // ----- runs that leave their chain, or never were on one -----

  lemma MarkOutside(g: Geometry, n: nat, c: nat)
    requires g.Ok(n) && BAD <= c
    ensures !g.InRange(c)
  {
    ClusterNumbersSmall(g, n);
  }

  // From a bad or end-of-chain mark: every byte is reported written, and the disk is as before.
  lemma {:induction false} RunBeyond(g: Geometry, s: Pen, seen: seq<byte>, buf: seq<byte>)
    requires s.Fits(g) && |seen| == g.BytesPerCluster() && BAD <= s.cluster < ENTRY_LIMIT
    ensures var r := Run(g, s, seen, buf);
      (r.count == |buf| || r.broken) && r.pen.d == s.d && BAD <= r.pen.cluster < ENTRY_LIMIT
    decreases |buf|
  {
    hide PutAt, Patch, Geometry.Ok, FatOf, Place;
    if buf != [] {
      var m := Room(g, s, |buf|);
      var t := Turn(g, s, seen, buf[..m]);
      PutAtMark(g, s.d, s.cluster, t.data);
      MarkOutside(g, |s.d|, s.cluster);
      if m < |buf| && Place(g, t.offset) == 0 {
        RunBeyond(g, t.(cluster := BAD), t.data, buf[m..]);
      }
    }
  }

  // From a cluster that the volume does not have: the first chunk goes to where that cluster would
  // lie, the rest nowhere, and every byte is reported written.
  lemma RunNowhere(g: Geometry, s: Pen, seen: seq<byte>, buf: seq<byte>)
    requires s.Fits(g) && |seen| == g.BytesPerCluster() && !g.InRange(s.cluster) && buf != []
    ensures var r := Run(g, s, seen, buf);
      (r.count == |buf| || r.broken) && r.pen.d == Turn(g, s, seen, buf[..Room(g, s, |buf|)]).d
  {
    hide PutAt, Patch, Geometry.Ok, FatOf, Place;
    var m := Room(g, s, |buf|);
    var t := Turn(g, s, seen, buf[..m]);
    if m < |buf| && Place(g, t.offset) == 0 {
      RunBeyond(g, t.(cluster := BAD), t.data, buf[m..]);
    }
  }

  // From a cluster that is free: the first chunk goes there, the next to where cluster 0 would lie,
  // the rest nowhere, and every byte is reported written.
  lemma RunFreed(g: Geometry, s: Pen, seen: seq<byte>, buf: seq<byte>)
    requires s.Fits(g) && |seen| == g.BytesPerCluster() && g.InRange(s.cluster) && FatOf(g, s.d)[s.cluster] == FREE
    requires buf != []
    ensures var m, r := Room(g, s, |buf|), Run(g, s, seen, buf);
      var t := Turn(g, s, seen, buf[..m]);
      && (r.count == |buf| || r.broken)
      && t.d == PutCluster(g, s.d, s.cluster, t.data)
      && (m == |buf| || Place(g, t.offset) != 0 ==> r.pen.d == t.d)
      && (m < |buf| && Place(g, t.offset) == 0 ==>
            var u, rest := t.(cluster := FREE), buf[m..];
            r.pen.d == Turn(g, u, u.data, rest[..Room(g, u, |rest|)]).d)
  {
    hide PutAt, PutCluster, Patch, Geometry.Ok, FatOf, Place;
    var m := Room(g, s, |buf|);
    var t := Turn(g, s, seen, buf[..m]);
    PutAtInRange(g, s.d, s.cluster, t.data);
    PutClusterRefines(g, s.d, s.cluster, t.data);
    if m < |buf| && Place(g, t.offset) == 0 {
      RunNowhere(g, t.(cluster := FREE), t.data, buf[m..]);
    }
  }
}
