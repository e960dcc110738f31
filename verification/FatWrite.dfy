// Writing through a file handle.
module FatWrite {
  import opened Bytes
  import opened FatLayout
  import opened FatChains
  import opened FatContent
  import opened FatFrames
  import opened FatVolume
  import opened FatFile
  import opened FatPen

  // A write in the making: the volume before it, the chain it starts on and at which byte of which
  // of its clusters, what the frame's uninitialised cluster buffer held, and the bytes to write.
  datatype Job = Job(g: Geometry, cs: set<Chain>, d0: Disk, ch0: Chain, k0: nat, o0: nat,
                     data0: seq<byte>, buf: seq<byte>)
  {
    predicate Ok()
    {
      && g.Ok(|d0|) && AllInRange(g, ch0) && k0 < |ch0| && o0 < g.BytesPerCluster() && |data0| == g.BytesPerCluster()
    }
  }

  // Where it has got to: byte `o` of cluster number `k` of chain `ch`.
  datatype Mark = Mark(ch: Chain, k: nat, o: nat)
  {
    function Cluster(): nat
      requires k < |ch|
    {
      ch[k]
    }

    function Next(c: nat): Mark { Mark(if k + 1 < |ch| then ch else ch + [c], k + 1, 0) }
  }

  // The chain `ch0` of `cs` has become `ch`, by clusters that were free.
  ghost predicate Grown(j: Job, d: Disk, ch: Chain)
    requires j.Ok() && |d| == |j.d0|
  {
    && j.ch0 <= ch && ch !in j.cs - {j.ch0}
    && AllInRange(j.g, ch) && Distinct(ch)
    && (forall i :: |j.ch0| <= i < |ch| ==> FatOf(j.g, j.d0)[ch[i]] == FREE)
    && Abstracts(FatOf(j.g, d), j.cs - {j.ch0} + {ch})
  }

  // The chain has grown no further than needed. Of the FAT, only the old tail and the new clusters'
  // entries differ; of the data area, only the clusters passed over.
  ghost predicate Written(j: Job, d: Disk, m: Mark)
  {
    && j.Ok() && |d| == |j.d0|
    && Grown(j, d, m.ch)
    && j.k0 <= m.k < |m.ch| && m.o <= j.g.BytesPerCluster()
    && (|m.ch| == |j.ch0| || |m.ch| == m.k + 1)
    && FatFrame(j.g, j.d0, d, m.ch[|j.ch0| - 1..])
    && DataFrame(j.g, j.d0, d, m.ch[j.k0..m.k + 1])
  }

  // The file reads, up to the mark, as before up to where the write began, then the first `n` bytes.
  ghost predicate Filled(j: Job, d: Disk, m: Mark, n: nat)
  {
    && Written(j, d, m) && n <= |j.buf|
    && Upto(j.g, d, m.ch, m.k, m.o) == Upto(j.g, j.d0, j.ch0, j.k0, j.o0) + j.buf[..n]
  }

  // What a cluster holds behind the bytes a write puts in it: in the first cluster its old bytes if
  // the write began inside it, else what the frame's buffer held; in later ones the cluster before.
  ghost function Background(j: Job, d: Disk, m: Mark): (s: seq<byte>)
    requires Written(j, d, m)
    ensures |s| == j.g.BytesPerCluster()
  {
    if m.k > j.k0 then ClusterBytes(j.g, d, m.ch[m.k - 1])
    else if j.o0 != 0 then ClusterBytes(j.g, j.d0, j.ch0[j.k0])
    else j.data0
  }

  // Before a turn of the loop: the turn will write the cluster under the handle on top of its
  // background.
  ghost predicate Ready(j: Job, d: Disk, m: Mark, n: nat, data: seq<byte>)
  {
    && Filled(j, d, m, n) && m.o < j.g.BytesPerCluster() && |data| == j.g.BytesPerCluster()
    && Under(j, d, m, data) == Background(j, d, m)
  }

  // What the turn writes on top of.
  ghost function Under(j: Job, d: Disk, m: Mark, data: seq<byte>): (s: seq<byte>)
    requires Written(j, d, m) && |data| == j.g.BytesPerCluster()
    ensures |s| == j.g.BytesPerCluster()
  {
    if m.o != 0 then ClusterBytes(j.g, d, m.ch[m.k]) else data
  }

  // After a turn: the cluster under the handle holds its background behind the written bytes.
  ghost predicate Settled(j: Job, d: Disk, m: Mark, n: nat)
  {
    && Filled(j, d, m, n) && 0 < m.o
    && ClusterBytes(j.g, d, m.ch[m.k])[m.o..] == Background(j, d, m)[m.o..]
  }

  // The buffer holds the cluster under the handle.
  ghost predicate Mirrors(j: Job, d: Disk, m: Mark, data: seq<byte>)
    requires Written(j, d, m)
  {
    data == ClusterBytes(j.g, d, m.ch[m.k])
  }

  // ----- the steps, on values -----

  lemma FilledFacts(j: Job, d: Disk, m: Mark, n: nat)
    requires Filled(j, d, m, n)
    ensures j.Ok() && |d| == |j.d0| && AllInRange(j.g, m.ch) && IsChain(FatOf(j.g, d), m.ch)
    ensures j.k0 <= m.k < |m.ch| && m.o <= j.g.BytesPerCluster() && n <= |j.buf| && Written(j, d, m)
  {
  }

  lemma StartReady(j: Job)
    requires j.Ok() && Abstracts(FatOf(j.g, j.d0), j.cs) && j.ch0 in j.cs
    ensures Ready(j, j.d0, Mark(j.ch0, j.k0, j.o0), 0, j.data0)
  {
    hide Abstracts, IsChain, ClusterBytes, RawEntry, Geometry.Ok, Upto;
    ChainInRange(j.g, j.d0, j.cs, j.ch0);
    assert j.cs - {j.ch0} + {j.ch0} == j.cs;
  }

  lemma WrittenChunk(j: Job, d: Disk, m: Mark, s: seq<byte>, o: nat)
    requires Written(j, d, m)
    requires m.o <= o <= |s| == j.g.BytesPerCluster() && s[..m.o] == ClusterBytes(j.g, d, m.ch[m.k])[..m.o]
    ensures var d', m' := PutCluster(j.g, d, m.ch[m.k], s), m.(o := o);
      && Written(j, d', m') && ClusterBytes(j.g, d', m.ch[m.k]) == s
      && Background(j, d', m') == Background(j, d, m)
      && Upto(j.g, d', m.ch, m.k, o) == Upto(j.g, d, m.ch, m.k, m.o) + s[m.o..o]
  {
    hide Abstracts, PutCluster, ClusterBytes, FatFrame, DataFrame, FatOf, Geometry.Ok;
    var c := m.ch[m.k];
    var d' := PutCluster(j.g, d, c, s);
    PutClusterRefines(j.g, d, c, s);
    PutClusterFrames(j.g, d, c, s);
    FatFrameTrans(j.g, j.d0, d, d', m.ch[|j.ch0| - 1..], [], m.ch[|j.ch0| - 1..]);
    assert c == m.ch[j.k0..m.k + 1][m.k - j.k0];
    DataFrameTrans(j.g, j.d0, d, d', m.ch[j.k0..m.k + 1], [c], m.ch[j.k0..m.k + 1]);
    WriteInChain(j.g, d, m.ch, m.k, m.o, s);
  }

  lemma TurnParts(j: Job, d: Disk, m: Mark, data: seq<byte>, t: seq<byte>, s: seq<byte>)
    requires Written(j, d, m) && |data| == j.g.BytesPerCluster() && m.o + |t| <= j.g.BytesPerCluster()
    requires s == Patch(Under(j, d, m, data), m.o, t)
    ensures s[..m.o] == ClusterBytes(j.g, d, m.ch[m.k])[..m.o]
    ensures s[m.o..m.o + |t|] == t
    ensures s[m.o + |t|..] == Under(j, d, m, data)[m.o + |t|..]
  {
    hide Patch, ClusterBytes, AllInRange, Geometry.Ok, Grown, FatFrame, DataFrame;
    PatchParts(Under(j, d, m, data), m.o, t);
  }

  // A turn's cluster write takes a ready state to a settled one.
  lemma TurnSettles(j: Job, d: Disk, m: Mark, n: nat, data: seq<byte>, count: nat, s: seq<byte>)
    requires Ready(j, d, m, n, data) && 0 < count && n + count <= |j.buf| && m.o + count <= j.g.BytesPerCluster()
    requires s == Patch(Under(j, d, m, data), m.o, j.buf[n..n + count])
    ensures j.g.Ok(|d|) && j.g.InRange(m.ch[m.k])
    ensures var d', m' := PutCluster(j.g, d, m.ch[m.k], s), m.(o := m.o + count);
      Settled(j, d', m', n + count) && ClusterBytes(j.g, d', m.ch[m.k]) == s
  {
    hide Written, Background, ClusterBytes, PutCluster, Upto, Patch, Geometry.Ok, IsChain, Under, AllInRange;
    FilledFacts(j, d, m, n);
    TurnParts(j, d, m, data, j.buf[n..n + count], s);
    WrittenChunk(j, d, m, s, m.o + count);
    AppendSlices(Upto(j.g, j.d0, j.ch0, j.k0, j.o0), j.buf, n, count);
  }

  lemma AppendSlices(u: seq<byte>, buf: seq<byte>, n: nat, count: nat)
    requires n + count <= |buf|
    ensures u + buf[..n] + buf[n..n + count] == u + buf[..n + count]
  {
  }

  lemma WrittenNext(j: Job, d: Disk, m: Mark)
    requires Written(j, d, m) && m.o == j.g.BytesPerCluster() && m.k + 1 < |m.ch|
    ensures Written(j, d, Mark(m.ch, m.k + 1, 0))
    ensures Upto(j.g, d, m.ch, m.k + 1, 0) == Upto(j.g, d, m.ch, m.k, m.o)
  {
    hide Abstracts, ClusterBytes, FatFrame, FatOf, Geometry.Ok;
    UptoNext(j.g, d, m.ch, m.k);
    assert m.ch[j.k0..m.k + 2] == m.ch[j.k0..m.k + 1] + [m.ch[m.k + 1]];
  }

  lemma GrownFacts(j: Job, d: Disk, ch: Chain)
    requires j.Ok() && |d| == |j.d0| && Grown(j, d, ch)
    ensures j.g.Ok(|d|) && AllInRange(j.g, ch) && |j.ch0| <= |ch| && (ch != [] ==> j.g.InRange(ch[|ch| - 1]))
  {
  }

  lemma GrowAbstraction(j: Job, d: Disk, ch: Chain, c: nat)
    requires j.Ok() && |d| == |j.d0| && Grown(j, d, ch) && FatFrame(j.g, j.d0, d, ch[|j.ch0| - 1..])
    requires j.g.InRange(c) && FatOf(j.g, d)[c] == FREE
    ensures Grown(j, LinkOnDisk(j.g, d, ch[|ch| - 1], c), ch + [c]) && c !in ch
  {
    hide Abstracts, IsChain, LinkOnDisk, FatOf, DataFrame, Geometry.Ok, RawEntry;
    ExtendReplaced(FatOf(j.g, d), j.cs, j.ch0, ch, c);
    LinkRefines(j.g, d, ch[|ch| - 1], c);
    assert c !in ch[|j.ch0| - 1..];
    assert RawEntry(j.g, d, c) == RawEntry(j.g, j.d0, c);
  }

  lemma GrowFrames(j: Job, d: Disk, ch: Chain, c: nat, d': Disk)
    requires j.Ok() && |d| == |j.d0| && |j.ch0| <= |ch|
    requires FatFrame(j.g, j.d0, d, ch[|j.ch0| - 1..]) && FatFrame(j.g, d, d', [ch[|ch| - 1], c])
    requires DataFrame(j.g, j.d0, d, ch[j.k0..|ch|]) && DataFrame(j.g, d, d', [])
    ensures FatFrame(j.g, j.d0, d', (ch + [c])[|j.ch0| - 1..])
    ensures DataFrame(j.g, j.d0, d', (ch + [c])[j.k0..|ch| + 1])
  {
    hide FatFrame, DataFrame, Geometry.Ok;
    var was, now := ch[|j.ch0| - 1..], (ch + [c])[|j.ch0| - 1..];
    assert now == was + [c] && was[|was| - 1] == ch[|ch| - 1];
    FatFrameTrans(j.g, j.d0, d, d', was, [ch[|ch| - 1], c], now);
    assert (ch + [c])[j.k0..|ch| + 1] == ch[j.k0..|ch|] + [c];
    DataFrameTrans(j.g, j.d0, d, d', ch[j.k0..|ch|], [], (ch + [c])[j.k0..|ch| + 1]);
  }

  lemma UptoGrow(g: Geometry, d: Disk, ch: Chain, c: nat, d': Disk)
    requires g.Ok(|d|) && AllInRange(g, ch) && ch != [] && g.InRange(c) && DataFrame(g, d, d', [])
    ensures Upto(g, d', ch + [c], |ch|, 0) == Upto(g, d, ch, |ch| - 1, g.BytesPerCluster())
    ensures ClusterBytes(g, d', ch[|ch| - 1]) == ClusterBytes(g, d, ch[|ch| - 1])
  {
    assert forall x :: x in ch ==> g.InRange(x);
    hide ClusterBytes, Geometry.Ok;
    ContentFrame(g, d, d', ch);
    assert (ch + [c])[..|ch|] == ch;
  }

  lemma WrittenGrow(j: Job, d: Disk, m: Mark, c: nat)
    requires Written(j, d, m) && m.o == j.g.BytesPerCluster() && m.k + 1 == |m.ch|
    requires j.g.InRange(c) && FatOf(j.g, d)[c] == FREE
    ensures var d', ch' := LinkOnDisk(j.g, d, m.ch[m.k], c), m.ch + [c];
      && Written(j, d', Mark(ch', m.k + 1, 0))
      && Upto(j.g, d', ch', m.k + 1, 0) == Upto(j.g, d, m.ch, m.k, m.o)
      && ClusterBytes(j.g, d', m.ch[m.k]) == ClusterBytes(j.g, d, m.ch[m.k])
  {
    hide Grown, AllInRange, FatFrame, DataFrame, LinkOnDisk, FatOf, Upto, ClusterBytes, Geometry.Ok;
    GrownFacts(j, d, m.ch);
    GrowAbstraction(j, d, m.ch, c);
    var d' := LinkOnDisk(j.g, d, m.ch[m.k], c);
    LinkRefines(j.g, d, m.ch[m.k], c);
    GrowFrames(j, d, m.ch, c, d');
    UptoGrow(j.g, d, m.ch, c, d');
  }

  // `c` is what the code takes as the cluster after number `k`.
  ghost predicate Follows(g: Geometry, d: Disk, ch: Chain, k: nat, c: nat)
    requires g.Ok(|d|) && k < |ch|
  {
    if k + 1 < |ch| then c == ch[k + 1] else g.InRange(c) && FatOf(g, d)[c] == FREE
  }

  ghost function Advanced(g: Geometry, d: Disk, ch: Chain, k: nat, c: nat): (d': Disk)
    requires g.Ok(|d|) && k < |ch| && g.InRange(ch[k]) && Follows(g, d, ch, k, c)
    ensures |d'| == |d|
  {
    if k + 1 < |ch| then d else LinkOnDisk(g, d, ch[k], c)
  }

  // Moving on from a full cluster takes a settled state to a ready one.
  lemma NextReady(j: Job, d: Disk, m: Mark, n: nat, data: seq<byte>, c: nat)
    requires Filled(j, d, m, n) && m.o == j.g.BytesPerCluster() && Mirrors(j, d, m, data)
    requires j.g.Ok(|d|) && m.k < |m.ch| && j.g.InRange(m.ch[m.k]) && Follows(j.g, d, m.ch, m.k, c)
    ensures m.k + 1 < |m.Next(c).ch| && m.Next(c).Cluster() == c && m.Next(c).k == m.k + 1 && m.Next(c).o == 0
    ensures Ready(j, Advanced(j.g, d, m.ch, m.k, c), m.Next(c), n, data)
  {
    hide Written, ClusterBytes, Upto, LinkOnDisk, Geometry.Ok, IsChain;
    FilledFacts(j, d, m, n);
    if m.k + 1 < |m.ch| {
      WrittenNext(j, d, m);
    } else {
      WrittenGrow(j, d, m, c);
    }
  }

  lemma ReadyFacts(j: Job, d: Disk, m: Mark, n: nat, data: seq<byte>)
    requires Ready(j, d, m, n, data)
    ensures Written(j, d, m) && Filled(j, d, m, n) && m.o < j.g.BytesPerCluster() && |data| == j.g.BytesPerCluster()
    ensures j.g.Ok(|d|) && m.k < |m.ch| && j.g.InRange(m.ch[m.k])
    ensures Under(j, d, m, data) == if m.o != 0 then ClusterBytes(j.g, d, m.ch[m.k]) else data
  {
  }

  lemma SettledFacts(j: Job, d: Disk, m: Mark, n: nat)
    requires Settled(j, d, m, n)
    ensures Written(j, d, m) && Filled(j, d, m, n) && 0 < m.o <= j.g.BytesPerCluster()
    ensures |d| == |j.d0| && m.k < |m.ch| && IsChain(FatOf(j.g, d), m.ch)
  {
  }

  // ----- the run of the code's loop, from a handle that stands on a chain -----

  lemma OnwardFollows(g: Geometry, d: Disk, ch: Chain, k: nat)
    requires g.Ok(|d|) && IsChain(FatOf(g, d), ch) && k < |ch|
    ensures g.InRange(ch[k])
    ensures Onward(g, d, ch[k]).NoRoom? ==> k + 1 == |ch| && Full(g, d)
    ensures Onward(g, d, ch[k]).To? ==>
      var s := Onward(g, d, ch[k]);
      Follows(g, d, ch, k, s.cluster) && s.d == Advanced(g, d, ch, k, s.cluster)
  {
    hide IsChain, Geometry.Ok, PutEntry, FatOf;
    ChainNext(g, d, ch, k);
  }

  // A pen that stands at the mark.
  ghost predicate At(g: Geometry, s: Pen, m: Mark)
  {
    && s.Fits(g) && m.k < |m.ch| && s.cluster == m.Cluster()
    && Place(g, s.offset) == if m.o == g.BytesPerCluster() then 0 else m.o
  }

  // A pen in the cluster of the mark.
  ghost predicate Over(g: Geometry, s: Pen, m: Mark) { s.Fits(g) && m.k < |m.ch| && s.cluster == m.Cluster() }

  // A pen poised over the mark: what a reload reads is the cluster it stands in.
  ghost predicate Poised(j: Job, s: Pen, seen: seq<byte>, m: Mark, n: nat)
  {
    && At(j.g, s, m) && |seen| == j.g.BytesPerCluster() && n < |j.buf|
    && (m.o != 0 ==> j.g.InRange(s.cluster) && seen == ClusterBytes(j.g, s.d, s.cluster))
    && Ready(j, s.d, m, n, s.data)
  }

  // The pen after a turn.
  ghost predicate Turned(j: Job, t: Pen, m: Mark, n: nat)
  {
    && Over(j.g, t, m) && n <= |j.buf| && (n < |j.buf| ==> m.o == j.g.BytesPerCluster())
    && Filled(j, t.d, m, n) && Mirrors(j, t.d, m, t.data) && Settled(j, t.d, m, n)
  }

  lemma PoisedFacts(j: Job, s: Pen, seen: seq<byte>, m: Mark, n: nat)
    requires Poised(j, s, seen, m, n)
    ensures At(j.g, s, m) && n < |j.buf| && Ready(j, s.d, m, n, s.data)
    ensures s.Fits(j.g) && |seen| == j.g.BytesPerCluster() && m.o == Place(j.g, s.offset)
    ensures m.k < |m.ch| && s.cluster == m.ch[m.k]
    ensures j.g.InRange(s.cluster) && (m.o != 0 ==> seen == ClusterBytes(j.g, s.d, s.cluster))
  {
    hide ClusterBytes, FatFrame, DataFrame, Abstracts, Upto, Place;
  }

  lemma TurnStays(g: Geometry, s: Pen, seen: seq<byte>, m: Mark, n: nat, chunk: seq<byte>)
    requires s.Fits(g) && |seen| == g.BytesPerCluster() && |chunk| == Room(g, s, n) && 0 < n
    requires At(g, s, m) && m.o == Place(g, s.offset)
    ensures Over(g, Turn(g, s, seen, chunk), m.(o := m.o + |chunk|)) && (|chunk| < n ==> m.o + |chunk| == g.BytesPerCluster())
  {
    hide Patch, PutAt, Geometry.Ok, Place;
  }

  lemma TurnReaches(j: Job, s: Pen, seen: seq<byte>, m: Mark, n: nat, count: nat, t: Pen)
    requires s.Fits(j.g) && |seen| == j.g.BytesPerCluster() && n < |j.buf|
    requires count == Room(j.g, s, |j.buf| - n) && t == Turn(j.g, s, seen, j.buf[n..n + count])
    requires Poised(j, s, seen, m, n)
    ensures Turned(j, t, m.(o := m.o + count), n + count)
  {
    hide Ready, Settled, Filled, Written, Under, Background, Place, FatOf, ClusterBytes, PutCluster, PutSectors, IsChain, Patch,
         Geometry.Ok, AllInRange, Poised, At, Over;
    PoisedFacts(j, s, seen, m, n);
    ReadyFacts(j, s.d, m, n, s.data);
    PutAtInRange(j.g, s.d, s.cluster, t.data);
    TurnStays(j.g, s, seen, m, |j.buf| - n, j.buf[n..n + count]);
    TurnSettles(j, s.d, m, n, s.data, count, t.data);
    SettledFacts(j, t.d, m.(o := m.o + count), n + count);
  }

  lemma TurnedFacts(j: Job, t: Pen, m: Mark, n: nat)
    requires Turned(j, t, m, n)
    ensures Settled(j, t.d, m, n) && Over(j.g, t, m) && n <= |j.buf| && (n < |j.buf| ==> m.o == j.g.BytesPerCluster())
    ensures j.g.Ok(|t.d|) && t.Fits(j.g) && m.k < |m.ch| && t.cluster == m.ch[m.k] && IsChain(FatOf(j.g, t.d), m.ch)
  {
    hide ClusterBytes, FatFrame, DataFrame, Upto, Geometry.Ok;
  }

  lemma TurnedNext(j: Job, t: Pen, m: Mark, n: nat, step: Step)
    requires Turned(j, t, m, n) && n < |j.buf| && t.Fits(j.g) && Place(j.g, t.offset) == 0 && step == Onward(j.g, t.d, t.cluster)
    ensures step.NoRoom? ==> m.k < |m.ch| && m.k + 1 == |m.ch| && Full(j.g, t.d)
    ensures step.To? ==>
      Poised(j, t.(d := step.d, cluster := step.cluster), t.data, m.Next(step.cluster), n)
  {
    hide Ready, Settled, Filled, Written, Mirrors, FatOf, Place, ClusterBytes, Onward, LinkOnDisk, IsChain, Geometry.Ok,
         AllInRange, Full, Follows, Advanced;
    TurnedFacts(j, t, m, n);
    OnwardFollows(j.g, t.d, m.ch, m.k);
    if step.To? {
      NextReady(j, t.d, m, n, t.data, step.cluster);
    }
  }

  // The loop takes chain `ch0` from byte `o0` of its cluster number `k0` to the mark that is returned.
  lemma {:induction false} RunSettles(j: Job, s: Pen, seen: seq<byte>, m: Mark, n: nat) returns (m': Mark)
    requires Poised(j, s, seen, m, n) && s.Fits(j.g) && |seen| == j.g.BytesPerCluster()
    ensures var r := Run(j.g, s, seen, j.buf[n..]);
      && r.count > 0 && Over(j.g, r.pen, m') && Settled(j, r.pen.d, m', n + r.count)
      && (n + r.count < |j.buf| ==> m'.o == j.g.BytesPerCluster())
      // a short count without a break means that no cluster is free, and that the chain is full
      && (n + r.count < |j.buf| && !r.broken ==> Full(j.g, r.pen.d) && m'.k + 1 == |m'.ch|)
    decreases |j.buf| - n
  {
    hide Ready, Settled, Poised, Turned, Place, FatOf, Turn, Onward, Run, Room, IsChain, Geometry.Ok, Full, Mark.Next, At, Over;
    PoisedFacts(j, s, seen, m, n);
    var rest := j.buf[n..];
    var count := Room(j.g, s, |rest|);
    assert rest[..count] == j.buf[n..n + count] && rest[count..] == j.buf[n + count..];
    var t := Turn(j.g, s, seen, rest[..count]);
    TurnReaches(j, s, seen, m, n, count, t);
    RunTurn(j.g, s, seen, rest);
    m' := m.(o := m.o + count);
    TurnedFacts(j, t, m', n + count);
    if count < |rest| && Place(j.g, t.offset) == 0 {
      var step := Onward(j.g, t.d, t.cluster);
      TurnedNext(j, t, m', n + count, step);
      if step.To? {
        m' := RunSettles(j, t.(d := step.d, cluster := step.cluster), t.data, m'.Next(step.cluster), n + count);
      }
    }
  }

  // ----- how much is written -----

  // How many bytes fit behind byte `o0` of cluster number `k0`: in its chain, and in free clusters.
  ghost function Space(j: Job): int
    requires j.Ok()
  {
    j.g.Offset(|j.ch0| + |FreeClusters(FatOf(j.g, j.d0))|, 0) - j.g.Offset(j.k0, j.o0)
  }

  lemma OthersKept(j: Job, d: Disk, m: Mark)
    requires Written(j, d, m)
    ensures |j.ch0| <= |m.ch| && forall c :: 2 <= c < |FatOf(j.g, d)| && c !in m.ch ==> FatOf(j.g, d)[c] == FatOf(j.g, j.d0)[c]
  {
    hide Abstracts, DataFrame, RawEntry, MetaFrame, IsChain, Geometry.Ok;
    assert forall c :: c !in m.ch ==> c !in m.ch[|j.ch0| - 1..];
  }

  lemma GrownChains(j: Job, d: Disk, m: Mark)
    requires Written(j, d, m) && Abstracts(FatOf(j.g, j.d0), j.cs) && j.ch0 in j.cs
    ensures j.g.Ok(|j.d0|) && j.g.Ok(|d|) && IsChain(FatOf(j.g, j.d0), j.ch0) && IsChain(FatOf(j.g, d), m.ch) && j.ch0 <= m.ch
    ensures forall i :: |j.ch0| <= i < |m.ch| ==> FatOf(j.g, j.d0)[m.ch[i]] == FREE
  {
    hide DataFrame, FatFrame, FatOf, IsChain, Geometry.Ok;
  }

  lemma FreeCounts(j: Job, d: Disk, m: Mark)
    requires Written(j, d, m) && Abstracts(FatOf(j.g, j.d0), j.cs) && j.ch0 in j.cs
    ensures |m.ch| + |FreeClusters(FatOf(j.g, d))| == |j.ch0| + |FreeClusters(FatOf(j.g, j.d0))|
  {
    hide Written, Abstracts, FatOf, FreeClusters, Geometry.Ok, IsChain;
    OthersKept(j, d, m);
    GrownChains(j, d, m);
    FreeTaken(FatOf(j.g, j.d0), FatOf(j.g, d), j.ch0, m.ch);
  }

  lemma SettledCount(j: Job, d: Disk, m: Mark, n: nat)
    requires Settled(j, d, m, n) && Abstracts(FatOf(j.g, j.d0), j.cs) && j.ch0 in j.cs
    requires n < |j.buf| ==> j.g.Ok(|d|) && Full(j.g, d) && m.o == j.g.BytesPerCluster() && m.k + 1 == |m.ch|
    ensures j.Ok() && n == Min(|j.buf|, Space(j)) && j.g.Offset(m.k, m.o) == j.g.Offset(j.k0, j.o0) + n
  {
    hide Settled, Filled, Written, Abstracts, FatOf, Upto, Geometry.Offset, Geometry.Ok, AllInRange;
    SettledFacts(j, d, m, n);
    FilledFacts(j, d, m, n);
    FreeCounts(j, d, m);
    FilledLength(j, d, m, n);
    OffsetSteps(j.g, m.k, 0, m.o);
    OffsetSteps(j.g, m.k, 0, j.g.BytesPerCluster());
    OffsetMonotone(j.g, m.k + 1, |m.ch|);
    OffsetMonotone(j.g, |m.ch|, |m.ch| + |FreeClusters(FatOf(j.g, d))|);
    if n < |j.buf| {
      assert FreeClusters(FatOf(j.g, d)) == {};
    }
  }

  lemma FilledLength(j: Job, d: Disk, m: Mark, n: nat)
    requires Filled(j, d, m, n)
    ensures j.g.Offset(m.k, m.o) == j.g.Offset(j.k0, j.o0) + n
  {
    hide Abstracts, FatOf, FatFrame, DataFrame, ClusterBytes, Content;
    ContentLength(j.g, d, m.ch[..m.k]);
    ContentLength(j.g, j.d0, j.ch0[..j.k0]);
  }

  // The part of a job that is done when `n` bytes are written.
  function Part(j: Job, n: nat): Job
    requires n <= |j.buf|
  {
    j.(buf := j.buf[..n])
  }

  lemma SettledPart(j: Job, d: Disk, m: Mark, n: nat)
    requires Settled(j, d, m, n)
    ensures n <= |j.buf| && Settled(Part(j, n), d, m, n)
  {
    hide Abstracts, FatOf, Upto, ClusterBytes, FatFrame, DataFrame, Geometry.Ok, AllInRange;
    assert Part(j, n).buf[..n] == j.buf[..n];
    assert Written(Part(j, n), d, m);
  }

  // A run that starts at byte `o0` of cluster number `k0` of chain `ch0` writes as much as fits in the
  // chain and the free clusters, or all up to a break, and stops in the last cluster written, even if
  // that is now full.
  lemma Lands(j: Job, s: Pen, seen: seq<byte>) returns (m: Mark)
    requires j.Ok() && Abstracts(FatOf(j.g, j.d0), j.cs) && j.ch0 in j.cs
    requires s.d == j.d0 && s.data == j.data0 && At(j.g, s, Mark(j.ch0, j.k0, j.o0))
    requires |seen| == j.g.BytesPerCluster() && (j.o0 != 0 && j.buf != [] ==> Seen(j.g, j.d0, s.cluster, seen))
    ensures var r := Run(j.g, s, seen, j.buf);
      && Done(if r.broken then Part(j, r.count) else j, r.pen.d, m, r.count) && Over(j.g, r.pen, m)
      && (j.buf == [] ==> r.pen == s) && (r.broken ==> r.count > 0 && m.o == j.g.BytesPerCluster())
  {
    hide Ready, Settled, Abstracts, FatOf, Run, Geometry.Ok, Geometry.Offset, Full, Place, Seen, ClusterBytes, FreeClusters;
    m := Mark(j.ch0, j.k0, j.o0);
    if j.buf == [] {
      RunNothing(j.g);
      SomeSpace(j);
    } else {
      StartReady(j);
      if j.o0 != 0 {
        SeenInRange(j.g, j.d0, s.cluster, seen);
      }
      assert j.buf[0..] == j.buf;
      m := RunSettles(j, s, seen, m, 0);
      var r := Run(j.g, s, seen, j.buf);
      if r.broken {
        RunBreaks(j.g, s, seen, j.buf);
        SettledPart(j, r.pen.d, m, r.count);
        SettledCount(Part(j, r.count), r.pen.d, m, r.count);
      } else {
        SettledCount(j, r.pen.d, m, r.count);
      }
    }
  }

  lemma SomeSpace(j: Job)
    requires j.Ok()
    ensures Space(j) > 0
  {
    hide Geometry.Ok, FatOf, FreeClusters;
    OffsetMonotone(j.g, j.k0 + 1, |j.ch0| + |FreeClusters(FatOf(j.g, j.d0))|);
    OffsetSteps(j.g, j.k0, 0, j.o0);
    OffsetSteps(j.g, j.k0, 0, j.g.BytesPerCluster());
  }

  // A write is done: it wrote `n` bytes, as much as fits, and ended at the mark.
  ghost predicate Done(j: Job, d: Disk, m: Mark, n: int)
  {
    && j.Ok() && |d| == |j.d0| && n == Min(|j.buf|, Space(j))
    && (if j.buf == [] then m == Mark(j.ch0, j.k0, j.o0) && d == j.d0 else n > 0 && Settled(j, d, m, n))
    && (n < |j.buf| ==> Full(j.g, d))
    && j.g.Offset(m.k, m.o) == j.g.Offset(j.k0, j.o0) + n
  }

  ghost function JobOf(file: File, cs: set<Chain>, ch0: Chain, k0: nat, data: array<byte>, buf: seq<byte>): Job
    requires file.fs.Mounted() && data.Length == BUFFER_SIZE
    reads file, file.fs.disk, data
  {
    Job(file.fs.g, cs, file.fs.disk[..], ch0, k0, Place(file.fs.g, file.currentOffset), data[..file.fs.g.BytesPerCluster()], buf)
  }

  // What is left to do after the run `r` broke at the mark: the handle is still in the cluster just
  // filled, at the place in it that the offset now has.
  function Resumed(j: Job, r: Outcome, m: Mark): Job
    requires j.g.sectorsPerCluster > 0 && r.count <= |j.buf|
  {
    Job(j.g, j.cs - {j.ch0} + {m.ch}, r.pen.d, m.ch, m.k, Place(j.g, r.pen.offset), r.pen.data, j.buf[r.count..])
  }

  // A write is finished: it was done in one run, or in the two on either side of a break.
  ghost predicate Finished(j: Job, r: Outcome, m1: Mark, d: Disk, m: Mark, n: int)
  {
    if !r.broken then Done(j, d, m, n)
    else
      && j.g.sectorsPerCluster > 0 && r.count <= |j.buf| && n > r.count
      && Done(Part(j, r.count), r.pen.d, m1, r.count) && m1.o == j.g.BytesPerCluster()
      && Done(Resumed(j, r, m1), d, m, n - r.count)
  }

  lemma DoneAbstracts(j: Job, d: Disk, m: Mark, n: nat)
    requires Done(j, d, m, n) && j.buf != []
    ensures j.g.Ok(|d|) && AllInRange(j.g, m.ch) && m.k < |m.ch| && Abstracts(FatOf(j.g, d), j.cs - {j.ch0} + {m.ch})
  {
    hide Abstracts, FatOf, Upto, ClusterBytes, FatFrame, DataFrame, Geometry.Ok, AllInRange, Space, Full;
    GrownFacts(j, d, m.ch);
  }

  lemma ResumedOk(j: Job, r: Outcome, m: Mark)
    requires r.count <= |j.buf| && r.count > 0 && Done(Part(j, r.count), r.pen.d, m, r.count) && Over(j.g, r.pen, m)
    ensures j.g.sectorsPerCluster > 0
    ensures var j2 := Resumed(j, r, m);
      && j2.Ok() && Abstracts(FatOf(j2.g, j2.d0), j2.cs) && j2.ch0 in j2.cs && At(j2.g, r.pen, Mark(j2.ch0, j2.k0, j2.o0))
  {
    hide Abstracts, FatOf, Done, Place, AllInRange;
    DoneAbstracts(Part(j, r.count), r.pen.d, m, r.count);
  }

  lemma SpaceLeft(j: Job, d: Disk, m: Mark, n: nat)
    requires Done(j, d, m, n) && j.buf != []
    ensures n > 0
  {
    hide Settled, Full, Space;
  }

  // What a write does to a handle that stands on a chain.
  lemma WriteLands(j: Job, s: Pen, seen: seq<byte>, again: seq<byte>, t: Pen, n: nat) returns (m: Mark, m1: Mark)
    requires j.Ok() && Abstracts(FatOf(j.g, j.d0), j.cs) && j.ch0 in j.cs && |j.buf| < WORD
    requires s.d == j.d0 && s.data == j.data0 && At(j.g, s, Mark(j.ch0, j.k0, j.o0))
    requires |seen| == j.g.BytesPerCluster() == |again| && (j.o0 != 0 && j.buf != [] ==> Seen(j.g, j.d0, s.cluster, seen))
    requires Writes(j.g, s, seen, again, j.buf, t, n)
    ensures Finished(j, Run(j.g, s, seen, j.buf), m1, t.d, m, n) && Over(j.g, t, m)
  {
    hide Abstracts, FatOf, Run, Geometry.Ok, Done, Place, Seen;
    var r := Run(j.g, s, seen, j.buf);
    m := Lands(j, s, seen);
    m1 := m;
    if r.broken {
      RestUnbroken(j.g, s, seen, j.buf);
      ResumedOk(j, r, m1);
      var j2 := Resumed(j, r, m1);
      m := Lands(j2, r.pen, again);
      SpaceLeft(j2, t.d, m, n - r.count);
    }
  }

  // Where a handle stands that was at byte `o0` of its cluster: at the mark.
  lemma DonePlace(j: Job, d: Disk, m: Mark, n: nat, offset: nat)
    requires Done(j, d, m, n) && Unbroken(j.g, offset, |j.buf|) && Place(j.g, offset) == j.o0
    ensures m.o <= j.g.BytesPerCluster()
    ensures Place(j.g, (offset + n) % WORD) == if m.o == j.g.BytesPerCluster() then 0 else m.o
  {
    hide Settled, Full, Space, Unbroken, Place, Geometry.Offset, Geometry.Ok;
    ClusterFitsBuffer(j.g, |j.d0|);
    UnbrokenPart(j.g, offset, |j.buf|, n);
    PlaceKept(j.g, offset, n, n);
    MarkInCluster(j, d, m, n);
    PlaceMoved(j.g, offset, j.k0, j.o0, n);
    PlaceAt(j.g, m.k, m.o);
  }

  lemma MarkInCluster(j: Job, d: Disk, m: Mark, n: nat)
    requires Done(j, d, m, n)
    ensures j.Ok() && m.o <= j.g.BytesPerCluster() && n <= |j.buf| && j.g.Offset(m.k, m.o) == j.g.Offset(j.k0, j.o0) + n
  {
    hide Full, Space, Geometry.Offset, Grown, FatFrame, DataFrame, Upto, ClusterBytes;
  }

  lemma PlaceMoved(g: Geometry, offset: nat, k: nat, o: nat, n: nat)
    requires g.sectorsPerCluster > 0 && Place(g, offset) == o
    ensures Place(g, offset + n) == Place(g, g.Offset(k, o) + n)
  {
    hide Place;
    PlaceIs(g, offset);
    PlaceIs(g, offset + n);
    PlaceIs(g, g.Offset(k, o) + n);
    RemainderMoved(offset, k, o, n, g.BytesPerCluster());
  }

  lemma RemainderMoved(offset: nat, k: nat, o: nat, n: nat, bpc: nat)
    requires bpc > 0 && offset % bpc == o
    ensures (offset + n) % bpc == (k * bpc + o + n) % bpc
  {
    var q := offset / bpc;
    WholeClusters(offset, bpc);
    SameRemainder(q, k, o + n, bpc);
  }

  lemma WholeClusters(offset: nat, bpc: nat)
    requires bpc > 0
    ensures offset == offset / bpc * bpc + offset % bpc
  {
  }

  lemma SameRemainder(a: nat, b: nat, n: nat, bpc: nat)
    requires bpc > 0
    ensures (a * bpc + n) % bpc == (b * bpc + n) % bpc
  {
    ModMultiple(n, a, bpc);
    ModMultiple(n, b, bpc);
  }

  lemma PlaceAt(g: Geometry, k: nat, o: nat)
    requires g.sectorsPerCluster > 0 && o <= g.BytesPerCluster()
    ensures Place(g, g.Offset(k, o)) == if o == g.BytesPerCluster() then 0 else o
  {
    ChunkInCluster(k, 0, o, g.BytesPerCluster());
  }

  // A write through a handle that stands in a bad or end-of-chain mark.
  lemma WritesBeyond(g: Geometry, s: Pen, seen: seq<byte>, again: seq<byte>, buf: seq<byte>, t: Pen, n: nat)
    requires s.Fits(g) && |seen| == g.BytesPerCluster() == |again| && IsMark(s.cluster)
    requires Writes(g, s, seen, again, buf, t, n) && |buf| < WORD
    ensures n == |buf| && t.d == s.d && IsMark(t.cluster)
  {
    hide Run, Geometry.Ok, Place, Seen;
    var r := Run(g, s, seen, buf);
    RunBeyond(g, s, seen, buf);
    if r.broken {
      RunBeyond(g, r.pen, again, buf[r.count..]);
    }
  }

  // What every write does to the offset and the size.
  lemma WritesMove(g: Geometry, s: Pen, seen: seq<byte>, again: seq<byte>, buf: seq<byte>, t: Pen, n: nat)
    requires s.Fits(g) && |seen| == g.BytesPerCluster() == |again| && Writes(g, s, seen, again, buf, t, n) && |buf| < WORD
    ensures t.Fits(g) && n <= |buf| && t.offset == (s.offset + n) % WORD && (s.size < WORD ==> t.size < WORD)
    ensures s.offset + |buf| < WORD ==> t.offset == s.offset + n && t.size == if buf == [] then s.size else Max(s.size, t.offset)
    ensures buf != [] ==> n > 0
  {
    hide Run, Geometry.Ok, Place, Seen;
    var r := Run(g, s, seen, buf);
    RunOffset(g, s, seen, buf);
    RunCounts(g, s, seen, buf);
    if r.broken {
      RunBreaks(g, s, seen, buf);
      RunOffset(g, r.pen, again, buf[r.count..]);
      AddWrapped(s.offset, r.count, n - r.count);
    } else if s.offset + |buf| < WORD {
      RunSize(g, s, seen, buf);
    }
  }

  lemma RunCounts(g: Geometry, s: Pen, seen: seq<byte>, buf: seq<byte>)
    requires s.Fits(g) && |seen| == g.BytesPerCluster()
    ensures buf != [] ==> Run(g, s, seen, buf).count > 0
  {
    hide Turn, Onward, Geometry.Ok, Place;
  }

  // The write through a handle that stands in cluster number `k0` of chain `ch0` (`live`), or through
  // one that a read left behind the end of its chain.
  method WriteFrom(file: File, buf: seq<byte>, data: array<byte>, ghost live: bool,
                   ghost cs: set<Chain>, ghost ch0: Chain, ghost k0: nat)
    returns (n: int, ghost m: Mark, ghost r: Outcome, ghost m1: Mark)
    requires file.fs.Mounted() && data.Length == BUFFER_SIZE && !file.isDirectory
    requires live ==>
      Abstracts(file.fs.Entries(), cs) && ch0 in cs && Stands(file, ch0, k0, Place(file.fs.g, file.currentOffset))
    requires !live ==> IsMark(file.currentCluster)
    requires file.currentOffset < WORD && |buf| < WORD
    modifies file`currentCluster, file`currentOffset, file`fileSize, file.fs.disk, data
    ensures live ==> Finished(old(JobOf(file, cs, ch0, k0, data, buf)), r, m1, file.fs.disk[..], m, n)
    // in one run, unless the offset passes 4 GiB and the cluster size does not divide that
    ensures r.broken ==> !Unbroken(file.fs.g, old(file.currentOffset), |buf|)
    ensures r.pen.offset == (old(file.currentOffset) + r.count) % WORD
    // the handle stands in the last cluster written, even if that is now full
    ensures live ==> Stands(file, m.ch, m.k, Place(file.fs.g, file.currentOffset))
    ensures live && Unbroken(file.fs.g, old(file.currentOffset), |buf|) ==>
      m.o <= file.fs.g.BytesPerCluster()
      && Place(file.fs.g, file.currentOffset) == if m.o == file.fs.g.BytesPerCluster() then 0 else m.o
    // behind the end of a chain every byte is reported, and not one reaches the disk
    ensures !live ==> n == |buf| && file.fs.disk[..] == old(file.fs.disk[..]) && IsMark(file.currentCluster)
    ensures 0 <= n <= |buf| && file.currentOffset == (old(file.currentOffset) + n) % WORD
    ensures old(file.fileSize) < WORD ==> file.fileSize < WORD
    ensures old(file.currentOffset) + |buf| < WORD ==>
      file.fileSize == if n > 0 then Max(old(file.fileSize), file.currentOffset) else old(file.fileSize)
  {
    hide Ready, Settled, Abstracts, FatOf, Run, Geometry.Ok, Geometry.Offset, Full, Place, Seen, ClusterBytes, Unbroken, Space,
         Writes, Done;
    ClusterFitsBuffer(file.fs.g, file.fs.disk.Length);
    ghost var s, j := PenOf(file, data), JobOf(file, cs, ch0, k0, data, buf);
    ghost var seen, again;
    n, seen, again := Write(file, buf, data);
    r := Run(j.g, s, seen, buf);
    m, m1 := Mark(ch0, k0, 0), Mark(ch0, k0, 0);
    if live {
      ChainInRange(j.g, j.d0, cs, ch0);
      m, m1 := WriteLands(j, s, seen, again, PenOf(file, data), n);
    } else {
      WritesBeyond(j.g, s, seen, again, buf, PenOf(file, data), n);
    }
    WritesMove(j.g, s, seen, again, buf, PenOf(file, data), n);
    RunOffset(j.g, s, seen, buf);
    if Unbroken(j.g, s.offset, |buf|) {
      UnbrokenRun(j.g, s, seen, buf);
      if live {
        DonePlace(j, file.fs.disk[..], m, n, s.offset);
      }
    }
  }

  // The same, if it does not break.
  method WriteInOne(file: File, buf: seq<byte>, data: array<byte>, ghost live: bool,
                    ghost cs: set<Chain>, ghost ch0: Chain, ghost k0: nat)
    returns (n: int, ghost m: Mark)
    requires file.fs.Mounted() && data.Length == BUFFER_SIZE && !file.isDirectory
    requires live ==>
      Abstracts(file.fs.Entries(), cs) && ch0 in cs && Stands(file, ch0, k0, Place(file.fs.g, file.currentOffset))
    requires !live ==> IsMark(file.currentCluster)
    requires file.currentOffset < WORD && |buf| < WORD && Unbroken(file.fs.g, file.currentOffset, |buf|)
    modifies file`currentCluster, file`currentOffset, file`fileSize, file.fs.disk, data
    ensures live ==> Done(old(JobOf(file, cs, ch0, k0, data, buf)), file.fs.disk[..], m, n)
    ensures live ==>
      Stands(file, m.ch, m.k, if m.o == file.fs.g.BytesPerCluster() then 0 else m.o) && m.o <= file.fs.g.BytesPerCluster()
    ensures !live ==> n == |buf| && file.fs.disk[..] == old(file.fs.disk[..]) && IsMark(file.currentCluster)
    ensures 0 <= n <= |buf| && file.currentOffset == (old(file.currentOffset) + n) % WORD
    ensures old(file.currentOffset) + |buf| < WORD ==>
      file.fileSize == if n > 0 then Max(old(file.fileSize), file.currentOffset) else old(file.fileSize)
  {
    hide Abstracts, FatOf, Geometry.Ok, Unbroken, Done, Place;
    ghost var r, m1;
    n, m, r, m1 := WriteFrom(file, buf, data, live, cs, ch0, k0);
  }
}
