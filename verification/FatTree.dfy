// The invariant of a whole volume: the FAT stands for a set of chains, some of them directories, and
// every directory entry names a chain of its kind, no two files sharing one.
module FatTree {
  import opened Bytes
  import opened FatLayout
  import opened FatChains
  import opened FatContent
  import opened FatFrames
  import opened FatDirectory
  import opened FatLookup
  import W = FatWrite

  ghost predicate HasHead(cs: set<Chain>, c: nat) { exists ch :: ch in cs && ch != [] && ch[0] == c }

  // A volume's bytes, the chains its FAT stands for, and those among them that are directories.
  datatype View = View(g: Geometry, d: Disk, cs: set<Chain>, dirs: set<Chain>)
  {
    ghost predicate Chained()
    {
      g.Ok(|d|) && Abstracts(FatOf(g, d), cs) && dirs <= cs && forall ch :: ch in cs ==> AllInRange(g, ch)
    }

    ghost function Dir(ch: Chain): (s: seq<byte>)
      requires Chained() && ch in cs
    {
      Content(g, d, ch)
    }

    // Slot `i` of directory `ch` is a file's, and names cluster `c`.
    ghost predicate FileSlot(ch: Chain, i: nat, c: nat)
      requires Chained()
    {
      && ch in dirs && 32 * i + 32 <= |Dir(ch)|
      && Visible(SlotAt(Dir(ch), i)) && !IsDirectory(SlotAt(Dir(ch), i)) && SlotCluster(SlotAt(Dir(ch), i)) == c != 0
    }

    ghost predicate DirSlot(ch: Chain, i: nat, c: nat)
      requires Chained()
    {
      && ch in dirs && 32 * i + 32 <= |Dir(ch)|
      && Visible(SlotAt(Dir(ch), i)) && IsDirectory(SlotAt(Dir(ch), i)) && SlotCluster(SlotAt(Dir(ch), i)) == c
    }

    ghost predicate Sound()
    {
      && Chained()
      && HasHead(dirs, g.rootCluster)
      && (forall ch, i: nat, c :: DirSlot(ch, i, c) ==> HasHead(dirs, c))
      && (forall ch, i: nat, c :: FileSlot(ch, i, c) ==> HasHead(cs - dirs, c))
      && (forall a, i: nat, b, k: nat, c :: FileSlot(a, i, c) && FileSlot(b, k, c) ==> a == b && i == k)
    }
  }

  lemma HeadChain(cs: set<Chain>, c: nat) returns (ch: Chain)
    requires HasHead(cs, c)
    ensures ch in cs && ch != [] && ch[0] == c
  {
    ch :| ch in cs && ch != [] && ch[0] == c;
  }

  // The invariant carries over to a view whose directories read the same, if every chain that an
  // entry names still has a chain at its head.
  lemma Carried(v: View, v': View)
    requires v.Sound() && v'.Chained() && v'.g == v.g && v'.dirs == v.dirs
    requires forall ch :: ch in v.dirs ==> v'.Dir(ch) == v.Dir(ch)
    requires forall ch, i: nat, c :: v.FileSlot(ch, i, c) ==> HasHead(v'.cs - v'.dirs, c)
    ensures v'.Sound()
  {
    hide Abstracts, Content, HasHead, Geometry.Ok;
    assert forall ch, i: nat, c :: v'.DirSlot(ch, i, c) ==> v.DirSlot(ch, i, c);
    assert forall ch, i: nat, c :: v'.FileSlot(ch, i, c) ==> v.FileSlot(ch, i, c);
  }

  // Overwriting one slot of one directory.
  lemma SlotRewritten(v: View, v': View, ch: Chain, i: nat, s: Slot)
    requires v.Sound() && v'.Chained() && v'.g == v.g && v'.dirs == v.dirs && v'.cs == v.cs && ch in v.dirs
    requires 32 * i + 32 <= |v.Dir(ch)| && v'.Dir(ch) == Patch(v.Dir(ch), 32 * i, s)
    requires forall x :: x in v.dirs && x != ch ==> v'.Dir(x) == v.Dir(x)
    requires Visible(s) ==> !IsDirectory(s) && SlotCluster(s) != 0 && HasHead(v.cs - v.dirs, SlotCluster(s))
    requires Visible(s) ==> forall b, k: nat :: !v.FileSlot(b, k, SlotCluster(s))
    ensures v'.Sound()
    ensures forall b, k: nat, c :: v'.FileSlot(b, k, c) && (b != ch || k != i) ==> v.FileSlot(b, k, c)
  {
    hide Abstracts, Content, HasHead, Geometry.Ok, Patch;
    SlotsOfPatch(v.Dir(ch), i, s);
    assert forall b, k: nat, c :: v'.DirSlot(b, k, c) ==> v.DirSlot(b, k, c);
    assert forall b, k: nat, c :: v'.FileSlot(b, k, c) ==>
      v.FileSlot(b, k, c) || (b == ch && k == i && c == SlotCluster(s) && Visible(s));
  }

  lemma SlotsOfPatch(d: seq<byte>, i: nat, s: Slot)
    requires 32 * i + 32 <= |d|
    ensures forall k: nat :: 32 * k + 32 <= |d| ==>
      SlotAt(Patch(d, 32 * i, s), k) == if k == i then s else SlotAt(d, k)
  {
    forall k: nat | 32 * k + 32 <= |d|
      ensures SlotAt(Patch(d, 32 * i, s), k) == if k == i then s else SlotAt(d, k)
    {
      PatchedSlot(d, i, s, k);
    }
  }

  lemma PatchedSlot(d: seq<byte>, i: nat, s: Slot, k: nat)
    requires 32 * i + 32 <= |d| && 32 * k + 32 <= |d|
    ensures SlotAt(Patch(d, 32 * i, s), k) == if k == i then s else SlotAt(d, k)
  {
    PatchElements(d, 32 * i, s);
  }

  // ----- what the disk-level steps do to a sound volume -----

  lemma SoundIsChained(v: View)
    requires v.Sound()
    ensures v.Chained() && v.g.Ok(|v.d|)
  {
  }

  lemma ChainedFacts(v: View, ch: Chain)
    requires v.Chained() && ch in v.cs
    ensures AllInRange(v.g, ch) && IsChain(FatOf(v.g, v.d), ch) && ch != [] && v.g.InRange(ch[0])
  {
  }

  lemma InRangeMembers(g: Geometry, ch: Chain)
    requires AllInRange(g, ch)
    ensures forall c :: c in ch ==> g.InRange(c)
  {
  }

  lemma ChainedFrom(g: Geometry, d: Disk, cs: set<Chain>, dirs: set<Chain>)
    requires g.Ok(|d|) && Abstracts(FatOf(g, d), cs) && dirs <= cs
    ensures View(g, d, cs, dirs).Chained()
  {
    forall ch | ch in cs
      ensures AllInRange(g, ch)
    {
      ChainInRange(g, d, cs, ch);
    }
  }

  // A data frame that avoids a chain keeps the chain's content.
  lemma ContentKept(g: Geometry, d: Disk, d': Disk, touched: seq<nat>, ch: Chain)
    requires g.Ok(|d|) && DataFrame(g, d, d', touched) && AllInRange(g, ch) && Disjoint(ch, touched)
    ensures Content(g, d', ch) == Content(g, d, ch)
  {
    hide ClusterBytes, Geometry.Ok;
    InRangeMembers(g, ch);
    ContentFrame(g, d, d', ch);
  }

  // Allocating a free cluster as a chain of its own.
  lemma AllocSound(v: View, c: nat)
    requires v.Sound() && v.g.InRange(c) && FatOf(v.g, v.d)[c] == FREE
    ensures v.(d := PutEntry(v.g, v.d, c, END_OF_CHAIN), cs := v.cs + {[c]}).Sound()
    ensures HasHead(v.cs + {[c]} - v.dirs, c)
    ensures forall b, k: nat :: !v.(d := PutEntry(v.g, v.d, c, END_OF_CHAIN), cs := v.cs + {[c]}).FileSlot(b, k, c)
  {
    hide Abstracts, Content, Geometry.Ok, FatOf, IsChain, PutEntry, DataFrame, FatFrame;
    var d' := PutEntry(v.g, v.d, c, END_OF_CHAIN);
    var v' := v.(d := d', cs := v.cs + {[c]});
    SmallEntries(v.g, |v.d|, c);
    PutEntryRefinesUpdate(v.g, v.d, c, END_OF_CHAIN);
    StartChain(FatOf(v.g, v.d), v.cs, c);
    PutEntryFrames(v.g, v.d, c, END_OF_CHAIN);
    ChainedFrom(v.g, d', v'.cs, v.dirs);
    forall ch | ch in v.dirs
      ensures v'.Dir(ch) == v.Dir(ch)
    {
      ContentKept(v.g, v.d, d', [], ch);
    }
    forall ch | ch in v.cs
      ensures ch == [] || ch[0] != c
    {
      assert ch != [] ==> ch[0] in ch;
    }
    assert [c] in v'.cs - v'.dirs;
    assert forall x :: HasHead(v.cs - v.dirs, x) ==> HasHead(v'.cs - v'.dirs, x);
    Carried(v, v');
    assert forall b, k: nat :: v'.FileSlot(b, k, c) ==> v.FileSlot(b, k, c);
  }

  // Overwriting slot `i` of cluster number `k` of a directory, as the code writes it back.
  function PutSlot(g: Geometry, d: Disk, cluster: nat, i: nat, s: Slot): (d': Disk)
    requires g.Ok(|d|) && g.InRange(cluster) && 32 * i + 32 <= g.BytesPerCluster()
    ensures |d'| == |d|
  {
    PutCluster(g, d, cluster, Patch(ClusterBytes(g, d, cluster), 32 * i, s))
  }

  lemma PutSlotContent(g: Geometry, d: Disk, ch: Chain, k: nat, i: nat, s: Slot)
    requires g.Ok(|d|) && AllInRange(g, ch) && Distinct(ch) && k < |ch| && 32 * i + 32 <= g.BytesPerCluster()
    ensures 32 * (g.FirstSlot(k) + i) + 32 <= |Content(g, d, ch)|
    ensures Content(g, PutSlot(g, d, ch[k], i, s), ch) == Patch(Content(g, d, ch), 32 * (g.FirstSlot(k) + i), s)
  {
    hide Content, ClusterBytes, Geometry.Ok, Geometry.FirstSlot, PutCluster, Patch;
    var d' := PutSlot(g, d, ch[k], i, s);
    var bytes := Patch(ClusterBytes(g, d, ch[k]), 32 * i, s);
    PutClusterRefines(g, d, ch[k], bytes);
    ContentAround(g, d, ch, k);
    ContentAround(g, d', ch, k);
    InRangeMembers(g, ch);
    ContentFrame(g, d, d', ch[..k]);
    ContentFrame(g, d, d', ch[k + 1..]);
    PatchInMiddle(Content(g, d, ch[..k]), ClusterBytes(g, d, ch[k]), Content(g, d, ch[k + 1..]), g.FirstSlot(k), i, s);
  }

  lemma PatchInMiddle(a: seq<byte>, b: seq<byte>, c: seq<byte>, n: nat, i: nat, s: Slot)
    requires |a| == 32 * n && 32 * i + 32 <= |b|
    ensures a + Patch(b, 32 * i, s) + c == Patch(a + b + c, 32 * (n + i), s)
  {
  }

  lemma PutSlotSound(v: View, ch: Chain, k: nat, i: nat, s: Slot)
    requires v.Sound() && ch in v.dirs && AllInRange(v.g, ch) && k < |ch| && 32 * i + 32 <= v.g.BytesPerCluster()
    requires Visible(s) ==> !IsDirectory(s) && SlotCluster(s) != 0 && HasHead(v.cs - v.dirs, SlotCluster(s))
    requires Visible(s) ==> forall b, x: nat :: !v.FileSlot(b, x, SlotCluster(s))
    ensures 32 * (v.g.FirstSlot(k) + i) + 32 <= |v.Dir(ch)|
    ensures v.(d := PutSlot(v.g, v.d, ch[k], i, s)).Sound()
    ensures v.(d := PutSlot(v.g, v.d, ch[k], i, s)).Dir(ch) == Patch(v.Dir(ch), 32 * (v.g.FirstSlot(k) + i), s)
    ensures forall b, x: nat, c :: (b != ch || x != v.g.FirstSlot(k) + i) ==>
      v.(d := PutSlot(v.g, v.d, ch[k], i, s)).FileSlot(b, x, c) ==> v.FileSlot(b, x, c)
  {
    hide Abstracts, Content, HasHead, Geometry.Ok, FatOf, PutCluster, Patch, IsChain, ClusterBytes, FatFrame, DataFrame;
    ChainedFacts(v, ch);
    ChainInRange(v.g, v.d, v.cs, ch);
    var bytes := Patch(ClusterBytes(v.g, v.d, ch[k]), 32 * i, s);
    var d' := PutSlot(v.g, v.d, ch[k], i, s);
    var v' := v.(d := d');
    PutClusterRefines(v.g, v.d, ch[k], bytes);
    PutClusterFrames(v.g, v.d, ch[k], bytes);
    ChainedFrom(v.g, d', v.cs, v.dirs);
    PutSlotContent(v.g, v.d, ch, k, i, s);
    forall x | x in v.dirs && x != ch
      ensures v'.Dir(x) == v.Dir(x)
    {
      OtherChain(v, x, ch, ch[k]);
      ContentKept(v.g, v.d, d', [ch[k]], x);
    }
    SlotRewritten(v, v', ch, v.g.FirstSlot(k) + i, s);
  }

  lemma OtherChain(v: View, x: Chain, ch: Chain, c: nat)
    requires v.Chained() && x in v.cs && ch in v.cs && x != ch && c in ch
    ensures c !in x && Disjoint(x, [c]) && Disjoint(x, ch)
  {
    assert Disjoint(ch, x) && Disjoint(x, ch);
  }

  // Writing a file through a handle.
  lemma WriteSound(v: View, j: W.Job, d: Disk, m: W.Mark)
    requires v.Sound() && j.g == v.g && j.d0 == v.d && j.cs == v.cs && j.ch0 in v.cs - v.dirs && W.Written(j, d, m)
    ensures v.(d := d, cs := v.cs - {j.ch0} + {m.ch}).Sound() && m.ch !in v.dirs && m.ch[0] == j.ch0[0]
    ensures forall ch :: ch in v.cs && ch != j.ch0 ==> Disjoint(ch, m.ch)
    ensures forall ch :: ch in v.cs && ch != j.ch0 ==> Content(v.g, d, ch) == Content(v.g, v.d, ch)
  {
    hide Abstracts, Content, Geometry.Ok, FatOf, IsChain, DataFrame, FatFrame, Disjoint, AllInRange;
    var v' := v.(d := d, cs := v.cs - {j.ch0} + {m.ch});
    GrownChain(v, j, d, m);
    ChainedFrom(v.g, d, v'.cs, v.dirs);
    forall ch | ch in v.cs && ch != j.ch0
      ensures AllInRange(v.g, ch) && Disjoint(ch, m.ch) && Content(v.g, d, ch) == Content(v.g, v.d, ch)
    {
      ChainedFacts(v, ch);
      ChainsApart(v', ch, m.ch, m.ch[j.k0..m.k + 1]);
      ContentKept(v.g, v.d, d, m.ch[j.k0..m.k + 1], ch);
    }
    forall x | HasHead(v.cs - v.dirs, x)
      ensures HasHead(v'.cs - v'.dirs, x)
    {
      var ch := HeadChain(v.cs - v.dirs, x);
      assert ch != j.ch0 ==> ch in v'.cs - v'.dirs;
      assert m.ch in v'.cs - v'.dirs;
    }
    Carried(v, v');
  }

  lemma GrownChain(v: View, j: W.Job, d: Disk, m: W.Mark)
    requires v.Chained() && j.g == v.g && j.cs == v.cs && j.ch0 in v.cs - v.dirs && W.Written(j, d, m)
    ensures v.g.Ok(|d|) && Abstracts(FatOf(v.g, d), v.cs - {j.ch0} + {m.ch})
    ensures m.ch !in v.cs - {j.ch0} && m.ch != [] && m.ch !in v.dirs && m.ch[0] == j.ch0[0]
    ensures DataFrame(v.g, j.d0, d, m.ch[j.k0..m.k + 1])
  {
    hide Abstracts, FatOf, IsChain, DataFrame, FatFrame;
  }

  lemma ChainsApart(v: View, a: Chain, b: Chain, part: seq<nat>)
    requires v.Chained() && a in v.cs && b in v.cs && a != b && forall c :: c in part ==> c in b
    ensures Disjoint(a, b) && Disjoint(a, part)
  {
    assert Disjoint(a, b);
  }

  // Freeing the chain of a file that no entry names any more.
  lemma FreeSound(v: View, ch: Chain, d: Disk)
    requires v.Sound() && ch in v.cs - v.dirs && |d| == |v.d|
    requires ch != [] && forall b, k: nat :: !v.FileSlot(b, k, ch[0])
    requires FatOf(v.g, d) == Freed(FatOf(v.g, v.d), ch) && DataFrame(v.g, v.d, d, [])
    ensures v.(d := d, cs := v.cs - {ch}).Sound()
    ensures forall x :: x in v.cs ==> Content(v.g, d, x) == Content(v.g, v.d, x)
  {
    hide Abstracts, Content, Geometry.Ok, FatOf, IsChain, DataFrame, Freed;
    var v' := v.(d := d, cs := v.cs - {ch});
    FreeChain(FatOf(v.g, v.d), v.cs, ch);
    ChainedFrom(v.g, d, v'.cs, v.dirs);
    forall x | x in v.cs
      ensures Content(v.g, d, x) == Content(v.g, v.d, x)
    {
      ContentKept(v.g, v.d, d, [], x);
    }
    forall b, k: nat, c | v.FileSlot(b, k, c)
      ensures HasHead(v'.cs - v'.dirs, c)
    {
      var x := HeadChain(v.cs - v.dirs, c);
      assert x in v'.cs - v'.dirs;
    }
    Carried(v, v');
  }
}
