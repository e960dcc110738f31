// The bytes of a file: what the clusters of its chain hold, in order, and how cluster writes and
// chain growth act on them.
module FatContent {
  import opened Bytes
  import opened FatLayout
  import opened FatChains

  predicate AllInRange(g: Geometry, ch: Chain) { forall i :: 0 <= i < |ch| ==> g.InRange(ch[i]) }

  function Content(g: Geometry, d: Disk, ch: Chain): (s: seq<byte>)
    requires g.Ok(|d|) && AllInRange(g, ch)
  {
    if ch == [] then [] else Content(g, d, ch[..|ch| - 1]) + ClusterBytes(g, d, ch[|ch| - 1])
  }

  lemma {:induction false} ContentLength(g: Geometry, d: Disk, ch: Chain)
    requires g.Ok(|d|) && AllInRange(g, ch)
    ensures |Content(g, d, ch)| == |ch| * g.BytesPerCluster()
  {
    if ch != [] {
      ContentLength(g, d, ch[..|ch| - 1]);
      assert |ch| * g.BytesPerCluster() == (|ch| - 1) * g.BytesPerCluster() + g.BytesPerCluster();
    }
  }

  // The content up to byte `o` of the chain's cluster number `k`.
  function Upto(g: Geometry, d: Disk, ch: Chain, k: nat, o: nat): (s: seq<byte>)
    requires g.Ok(|d|) && AllInRange(g, ch) && k < |ch| && o <= g.BytesPerCluster()
  {
    Content(g, d, ch[..k]) + ClusterBytes(g, d, ch[k])[..o]
  }

  lemma {:induction false} ContentFrame(g: Geometry, d: Disk, d': Disk, ch: Chain)
    requires g.Ok(|d|) && |d'| == |d| && AllInRange(g, ch)
    requires forall c :: c in ch ==> g.InRange(c) && ClusterBytes(g, d', c) == ClusterBytes(g, d, c)
    ensures Content(g, d', ch) == Content(g, d, ch)
  {
    if ch != [] {
      assert ch[|ch| - 1] in ch;
      ContentFrame(g, d, d', ch[..|ch| - 1]);
    }
  }

  lemma {:induction false} ContentConcat(g: Geometry, d: Disk, a: Chain, b: Chain)
    requires g.Ok(|d|) && AllInRange(g, a) && AllInRange(g, b)
    ensures AllInRange(g, a + b) && Content(g, d, a + b) == Content(g, d, a) + Content(g, d, b)
  {
    if b == [] {
      assert a + b == a;
    } else {
      ContentConcat(g, d, a, b[..|b| - 1]);
      assert (a + b)[..|a + b| - 1] == a + b[..|b| - 1];
    }
  }

  lemma UptoIsPrefix(g: Geometry, d: Disk, ch: Chain, k: nat, o: nat)
    requires g.Ok(|d|) && AllInRange(g, ch) && k < |ch| && o <= g.BytesPerCluster()
    ensures Upto(g, d, ch, k, o) <= Content(g, d, ch)
  {
    ContentConcat(g, d, ch[..k + 1], ch[k + 1..]);
    assert ch[..k + 1] + ch[k + 1..] == ch && ch[..k + 1][..k] == ch[..k];
    assert Content(g, d, ch[..k + 1]) == Content(g, d, ch[..k]) + ClusterBytes(g, d, ch[k]);
  }

  lemma ContentByte(g: Geometry, d: Disk, ch: Chain, k: nat, o: nat)
    requires g.Ok(|d|) && AllInRange(g, ch) && k < |ch| && o < g.BytesPerCluster()
    ensures g.Offset(k, o) < |Content(g, d, ch)| && Content(g, d, ch)[g.Offset(k, o)] == ClusterBytes(g, d, ch[k])[o]
  {
    hide Geometry.Ok, ClusterBytes;
    UptoIsPrefix(g, d, ch, k, o + 1);
    ContentLength(g, d, ch[..k]);
    assert Upto(g, d, ch, k, o + 1)[g.Offset(k, o)] == ClusterBytes(g, d, ch[k])[..o + 1][o];
  }

  // Moving from the end of one cluster to the start of the next.
  lemma UptoNext(g: Geometry, d: Disk, ch: Chain, k: nat)
    requires g.Ok(|d|) && AllInRange(g, ch) && k + 1 < |ch|
    ensures Upto(g, d, ch, k + 1, 0) == Upto(g, d, ch, k, g.BytesPerCluster())
  {
    assert ch[..k + 1][..k] == ch[..k];
  }

  // Writing cluster number `k` of a chain replaces its bytes and no others of the chain.
  lemma WriteInChain(g: Geometry, d: Disk, ch: Chain, k: nat, o: nat, s: seq<byte>)
    requires g.Ok(|d|) && AllInRange(g, ch) && Distinct(ch) && k < |ch|
    requires |s| == g.BytesPerCluster() && o <= |s| && s[..o] == ClusterBytes(g, d, ch[k])[..o]
    ensures var d' := PutCluster(g, d, ch[k], s);
      forall m :: o <= m <= |s| ==> Upto(g, d', ch, k, m) == Upto(g, d, ch, k, o) + s[o..m]
  {
    var d' := PutCluster(g, d, ch[k], s);
    PutClusterRefines(g, d, ch[k], s);
    ContentFrame(g, d, d', ch[..k]);
  }

  // ----- offsets and cluster positions -----

  lemma OffsetInside(g: Geometry, k: nat, o: nat)
    requires o < g.BytesPerCluster()
    ensures g.Offset(k, o) % g.BytesPerCluster() == o
  {
    var bpc, off := g.BytesPerCluster(), g.Offset(k, o);
    assert (k - off / bpc) * bpc == off % bpc - o;
    SmallMultiple(k - off / bpc, bpc);
  }

  lemma OffsetSteps(g: Geometry, k: nat, o: nat, m: nat)
    ensures g.Offset(k + 1, 0) == g.Offset(k, g.BytesPerCluster())
    ensures g.Offset(k, o + m) == g.Offset(k, o) + m
  {
    assert (k + 1) * g.BytesPerCluster() == k * g.BytesPerCluster() + g.BytesPerCluster();
  }

  lemma OffsetBoundary(g: Geometry, k: nat, o: nat)
    requires 0 < o <= g.BytesPerCluster()
    ensures g.Offset(k, o) % g.BytesPerCluster() == 0 <==> o == g.BytesPerCluster()
  {
    if o == g.BytesPerCluster() {
      OffsetSteps(g, k, 0, 0);
      OffsetInside(g, k + 1, 0);
    } else {
      OffsetInside(g, k, o);
    }
  }

  // How many clusters hold `n` bytes.
  function ClustersFor(g: Geometry, n: nat): nat
    requires g.sectorsPerCluster > 0
  {
    (n + g.BytesPerCluster() - 1) / g.BytesPerCluster()
  }

  lemma ClustersForBounds(g: Geometry, n: nat, k: nat, o: nat)
    requires g.sectorsPerCluster > 0 && n == g.Offset(k, o) && 0 < o <= g.BytesPerCluster()
    ensures ClustersFor(g, n) == k + 1
  {
    OffsetDivides(g, k + 1, o - 1);
  }

  lemma OffsetDivides(g: Geometry, k: nat, o: nat)
    requires o < g.BytesPerCluster()
    ensures g.Offset(k, o) / g.BytesPerCluster() == k
  {
    var bpc, off := g.BytesPerCluster(), g.Offset(k, o);
    assert (k - off / bpc) * bpc == off % bpc - o;
    SmallMultiple(k - off / bpc, bpc);
  }

  lemma OffsetMonotone(g: Geometry, a: nat, b: nat)
    requires a <= b
    ensures g.Offset(a, 0) <= g.Offset(b, 0)
  {
  }

  // A cluster that starts before byte `n` ends within the clusters that hold `n` bytes.
  lemma ClusterFits(g: Geometry, n: nat, k: nat)
    requires g.sectorsPerCluster > 0 && g.Offset(k, 0) < n
    ensures g.Offset(k + 1, 0) <= g.Offset(ClustersFor(g, n), 0)
  {
    var bpc, q := g.BytesPerCluster(), ClustersFor(g, n);
    assert n + bpc - 1 == q * bpc + (n + bpc - 1) % bpc;
    assert (k + 1) * bpc == k * bpc + bpc && (q + 1) * bpc == q * bpc + bpc;
    assert k >= q ==> (k + 1) * bpc >= (q + 1) * bpc;
    OffsetMonotone(g, k + 1, q);
  }

  lemma SmallMultiple(x: int, m: int)
    requires 0 < m && -m < x * m < m
    ensures x == 0
  {
    assert x >= 1 ==> x * m >= m;
    assert x <= -1 ==> x * m <= -m;
  }

  // An offset's place in its cluster.
  function Place(g: Geometry, offset: nat): (o: nat)
    requires g.sectorsPerCluster > 0
    ensures o < g.BytesPerCluster()
  {
    offset % g.BytesPerCluster()
  }

  lemma ModMultiple(a: nat, k: nat, m: nat)
    requires m > 0
    ensures (k * m + a) % m == a % m
  {
    var x := (k * m + a) / m - k - a / m;
    assert x * m == a % m - (k * m + a) % m;
    SmallMultiple(x, m);
  }

  lemma SplitOffset(offset: nat, m: nat, bpc: nat)
    requires bpc > 0 && m <= bpc - offset % bpc
    ensures (offset + m) % bpc == if offset % bpc + m == bpc then 0 else offset % bpc + m
  {
    assert offset == offset / bpc * bpc + offset % bpc;
    ChunkInCluster(offset / bpc, offset % bpc, m, bpc);
  }

  lemma PlaceIs(g: Geometry, offset: nat)
    requires g.sectorsPerCluster > 0
    ensures Place(g, offset) == offset % g.BytesPerCluster()
  {
  }

  lemma PlaceAfter(g: Geometry, offset: nat, m: nat)
    requires g.sectorsPerCluster > 0 && Place(g, offset) + m <= g.BytesPerCluster()
    ensures Place(g, offset + m) == if Place(g, offset) + m == g.BytesPerCluster() then 0 else Place(g, offset) + m
  {
    var bpc := g.BytesPerCluster();
    SplitOffset(offset, m, bpc);
  }

  lemma ChunkInCluster(q: nat, o: nat, m: nat, bpc: nat)
    requires o < bpc && o + m <= bpc
    ensures (q * bpc + o + m) % bpc == if o + m == bpc then 0 else o + m
  {
    ModMultiple(o + m, q, bpc);
    if o + m == bpc {
      ModMultiple(0, 1, bpc);
    } else {
      ModMultiple(o + m, 0, bpc);
    }
  }
}
