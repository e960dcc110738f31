// Any number of open handles on a sound volume: what operations through one of them do to the volume
// and to the others.
module FatHandles {
  import opened Bytes
  import opened FatLayout
  import opened FatChains
  import opened FatContent
  import opened FatFrames
  import opened FatDirectory
  import opened FatVolume
  import opened FatFile
  import opened FatPen
  import opened FatTree
  import opened FatOps
  import opened FatScenarios
  import opened FatStray
  import F = FatWellFormed
  import W = FatWrite
  import R = FatRead

  // ----- a write, seen on the volume -----

  // One file's chain grows, by clusters that were free; no other chain's bytes change, and of the FAT
  // only the entries of the old tail and the new clusters.
  ghost predicate Wrote(v: View, v': View, ch0: Chain, ch: Chain)
    requires v.Sound() && v'.Sound()
  {
    && v'.g == v.g && v'.dirs == v.dirs && ch0 in v.cs - v.dirs && ch0 != [] && ch0 <= ch
    && v'.cs == v.cs - {ch0} + {ch} && ch !in v.dirs
    && (forall i :: |ch0| <= i < |ch| ==> 2 <= ch[i] < |FatOf(v.g, v.d)| && FatOf(v.g, v.d)[ch[i]] == FREE)
    && (forall x :: x in v.cs && x != ch0 ==> x in v'.cs && v'.Dir(x) == v.Dir(x))
    && FatFrame(v.g, v.d, v'.d, ch[|ch0| - 1..])
  }

  lemma SettledWrote(v: View, j: W.Job, d: Disk, m: W.Mark, n: nat)
    requires v.Sound() && j.g == v.g && j.d0 == v.d && j.cs == v.cs && j.ch0 in v.cs - v.dirs && W.Settled(j, d, m, n)
    ensures v.(d := d, cs := v.cs - {j.ch0} + {m.ch}).Sound()
    ensures Wrote(v, v.(d := d, cs := v.cs - {j.ch0} + {m.ch}), j.ch0, m.ch)
  {
    hide Content, ClusterBytes, FatOf, FatFrame, DataFrame, Abstracts, View.Sound, IsChain, Disjoint, Upto;
    W.SettledFacts(j, d, m, n);
    WriteSound(v, j, d, m);
    SoundIsChained(v);
    SoundIsChained(v.(d := d, cs := v.cs - {j.ch0} + {m.ch}));
    ChainedFacts(v, j.ch0);
    ChainedFacts(v.(d := d, cs := v.cs - {j.ch0} + {m.ch}), m.ch);
  }

  lemma NothingWritten(v: View, ch: Chain)
    requires v.Sound() && ch in v.cs - v.dirs
    ensures Wrote(v, v, ch, ch)
  {
    hide Content, ClusterBytes, FatOf, Abstracts, IsChain, MetaFrame;
    ChainedFacts(v, ch);
    FrameNone(v.g, v.d);
    assert v.cs - {ch} + {ch} == v.cs;
    FatFrameTrans(v.g, v.d, v.d, v.d, [], [], ch[|ch| - 1..]);
  }

  lemma DoneWrote(v: View, j: W.Job, d: Disk, m: W.Mark, n: nat)
    requires v.Sound() && j.g == v.g && j.d0 == v.d && j.cs == v.cs && j.ch0 in v.cs - v.dirs && W.Done(j, d, m, n)
    ensures v.(d := d, cs := v.cs - {j.ch0} + {m.ch}).Sound()
    ensures Wrote(v, v.(d := d, cs := v.cs - {j.ch0} + {m.ch}), j.ch0, m.ch)
  {
    hide W.Settled, View.Sound, W.Space, Wrote, Geometry.Ok, Full;
    if j.buf == [] {
      NothingWritten(v, j.ch0);
      WholeSet(v.cs, j.ch0);
    } else {
      SettledWrote(v, j, d, m, n);
    }
  }

  lemma OnlyThisChain(v: View, ch0: Chain, ch: Chain)
    requires v.Sound() && ch0 in v.cs && ch0 != [] && ch0 <= ch && ch in v.cs
    ensures ch == ch0
  {
    hide FatOf, Content, IsChain;
    assert ch0[0] in ch0 && ch[0] in ch;
    SharedClusterSameChain(v.cs, ch0, ch, ch0[0]);
  }

  lemma WroteFacts(v: View, v': View, ch0: Chain, ch: Chain)
    requires v.Sound() && v'.Sound() && Wrote(v, v', ch0, ch)
    ensures v.g.Ok(|v.d|) && v.g.Ok(|v'.d|) && ch in v'.cs && IsChain(FatOf(v.g, v'.d), ch)
    ensures forall c :: 0 <= c < |FatOf(v.g, v.d)| && c !in ch[|ch0| - 1..] ==> FatOf(v.g, v'.d)[c] == FatOf(v.g, v.d)[c]
  {
    hide Content, IsChain, MetaFrame, RawEntry;
    ChainedFacts(v', ch);
  }

  // Two writes in a row to one chain are like one.
  lemma WroteTrans(v: View, v1: View, v2: View, ch0: Chain, ch1: Chain, ch2: Chain)
    requires v.Sound() && v1.Sound() && v2.Sound() && Wrote(v, v1, ch0, ch1) && Wrote(v1, v2, ch1, ch2)
    ensures Wrote(v, v2, ch0, ch2)
  {
    hide View.Sound, FatOf, FatFrame, Content, IsChain, View.Chained, Geometry.Ok;
    WroteFacts(v, v1, ch0, ch1);
    if ch1 in v.cs {
      OnlyThisChain(v, ch0, ch1);
    }
    forall i | |ch0| <= i < |ch2|
      ensures 2 <= ch2[i] < |FatOf(v.g, v.d)| && FatOf(v.g, v.d)[ch2[i]] == FREE
    {
      if i < |ch1| {
        assert ch2[i] == ch1[i];
      } else if ch2[i] in ch1 {
        ChainMembersUsed(FatOf(v1.g, v1.d), ch1, ch2[i]);
      }
    }
    assert ch2[|ch0| - 1..] == ch1[|ch0| - 1..] + ch2[|ch1|..];
    assert ch2[|ch1| - 1] == ch1[|ch1| - 1] && ch2[|ch1| - 1..] == [ch2[|ch1| - 1]] + ch2[|ch1|..];
    FatFrameTrans(v.g, v.d, v1.d, v2.d, ch1[|ch0| - 1..], ch2[|ch1| - 1..], ch2[|ch0| - 1..]);
  }

  lemma FinishedWrote(v: View, j: W.Job, r: Outcome, m1: W.Mark, d: Disk, m: W.Mark, n: nat) returns (v': View)
    requires v.Sound() && j.g == v.g && j.d0 == v.d && j.cs == v.cs && j.ch0 in v.cs - v.dirs
    requires W.Finished(j, r, m1, d, m, n)
    ensures v'.Sound() && v'.g == v.g && v'.d == d && Wrote(v, v', j.ch0, m.ch)
  {
    hide View.Sound, Wrote, Geometry.Ok, W.Done, Place;
    if !r.broken {
      v' := v.(d := d, cs := v.cs - {j.ch0} + {m.ch});
      DoneWrote(v, j, d, m, n);
    } else {
      var v1 := v.(d := r.pen.d, cs := v.cs - {j.ch0} + {m1.ch});
      DoneWrote(v, W.Part(j, r.count), r.pen.d, m1, r.count);
      WroteHead(v, v1, j.ch0, m1.ch);
      v' := v1.(d := d, cs := v1.cs - {m1.ch} + {m.ch});
      DoneWrote(v1, W.Resumed(j, r, m1), d, m, n - r.count);
      WroteTrans(v, v1, v', j.ch0, m1.ch, m.ch);
    }
  }

  // ----- handles -----

  // Where operations leave a handle of the table. A file's handle is in no directory; unless its file was
  // deleted since it was opened (`gone`) or has no cluster, it is on the file's chain or behind its end.
  ghost predicate Placed(v: View, file: File, gone: bool)
    requires v.Sound()
    reads file
  {
    && file.fs.g == v.g && file.currentOffset < WORD && file.fileSize < WORD
    && (file.isDirectory || OutsideDirs(v, file.currentCluster))
    && (gone || file.isDirectory || file.firstCluster == 0 || IsMark(file.currentCluster) || OnChain(v, file))
  }

  ghost predicate OnChain(v: View, file: File)
    requires v.Sound()
    reads file
  {
    OnFile(v, file.firstCluster, file.currentCluster)
  }

  // Cluster `c` is on the chain of the file that starts at `first`.
  ghost predicate OnFile(v: View, first: nat, c: nat)
    requires v.Sound()
  {
    HasHead(v.cs - v.dirs, first) && c in ChainAt(v.cs - v.dirs, first)
  }

  // The chain of a file is the only one with its head.
  lemma OnlyChainAt(v: View, ch: Chain)
    requires v.Sound() && ch in v.cs - v.dirs && ch != []
    ensures HasHead(v.cs - v.dirs, ch[0]) && ChainAt(v.cs - v.dirs, ch[0]) == ch
  {
    hide View.Sound, FatOf, Content;
    SoundIsChained(v);
    assert HasHead(v.cs - v.dirs, ch[0]);
    SharedClusterSameChain(v.cs, ch, ChainAt(v.cs - v.dirs, ch[0]), ch[0]);
  }

  // Every file of `v` but the one at `c` is a file of `v'`, with its clusters and perhaps more, and what
  // was in no directory still is in none.
  ghost predicate KeepsFiles(v: View, v': View, except: set<nat>)
    requires v.Sound() && v'.Sound()
  {
    && (forall c :: OutsideDirs(v, c) ==> OutsideDirs(v', c))
    && forall c :: HasHead(v.cs - v.dirs, c) && c !in except ==>
         HasHead(v'.cs - v'.dirs, c) && ChainAt(v.cs - v.dirs, c) <= ChainAt(v'.cs - v'.dirs, c)
  }

  // No cluster has become bad.
  ghost predicate NoneSpoilt(v: View, v': View)
    requires v.Chained() && v'.Chained()
  {
    && v'.g == v.g && v'.dirs == v.dirs
    && forall c: nat :: v.g.InRange(c) && FatOf(v.g, v'.d)[c] == BAD ==> FatOf(v.g, v.d)[c] == BAD
  }

  lemma OutsideStill(v: View, v': View)
    requires v.Sound() && v'.Sound() && NoneSpoilt(v, v')
    ensures forall c :: OutsideDirs(v, c) ==> OutsideDirs(v', c)
  {
    hide FatOf, Content, View.Sound;
    SoundIsChained(v);
    SoundIsChained(v');
  }

  lemma WroteSpoilsNone(v: View, v': View, ch0: Chain, ch: Chain)
    requires v.Sound() && v'.Sound() && Wrote(v, v', ch0, ch)
    ensures NoneSpoilt(v, v')
  {
    hide FatOf, Content, IsChain, View.Sound, FatFrame, Geometry.Ok;
    WroteFacts(v, v', ch0, ch);
    forall c: nat | v.g.InRange(c) && FatOf(v.g, v'.d)[c] == BAD
      ensures FatOf(v.g, v.d)[c] == BAD
    {
      if c in ch {
        ChainMembersUsed(FatOf(v.g, v'.d), ch, c);
      }
    }
  }

  lemma PlacedStill(v: View, v': View, file: File, gone: bool, gone': bool, except: set<nat>)
    requires v.Sound() && v'.Sound() && v'.g == v.g && KeepsFiles(v, v', except) && Placed(v, file, gone)
    requires gone' <==> gone || file.firstCluster in except
    ensures Placed(v', file, gone')
  {
    hide View.Sound, HasHead, OutsideDirs;
    if OnChain(v, file) && file.firstCluster !in except {
      assert ChainAt(v.cs - v.dirs, file.firstCluster) <= ChainAt(v'.cs - v'.dirs, file.firstCluster);
    }
  }

  lemma WroteKeeps(v: View, v': View, ch0: Chain, ch: Chain)
    requires v.Sound() && v'.Sound() && Wrote(v, v', ch0, ch)
    ensures KeepsFiles(v, v', {})
  {
    hide View.Sound, FatOf, FatFrame, Content, View.Chained, OutsideDirs, NoneSpoilt;
    WroteSpoilsNone(v, v', ch0, ch);
    OutsideStill(v, v');
    forall c | HasHead(v.cs - v.dirs, c)
      ensures HasHead(v'.cs - v'.dirs, c) && ChainAt(v.cs - v.dirs, c) <= ChainAt(v'.cs - v'.dirs, c)
    {
      var x := ChainAt(v.cs - v.dirs, c);
      var y := if x == ch0 then ch else x;
      assert y in v'.cs - v'.dirs && y[0] == c;
      OnlyChainAt(v', y);
    }
  }

  lemma MoreKeeps(v: View, v': View, c: nat)
    requires v.Sound() && v'.Sound() && v'.dirs == v.dirs && v'.cs == v.cs + {[c]} && NoneSpoilt(v, v')
    ensures KeepsFiles(v, v', {})
  {
    hide View.Sound, OutsideDirs, NoneSpoilt;
    OutsideStill(v, v');
    forall x | HasHead(v.cs - v.dirs, x)
      ensures HasHead(v'.cs - v'.dirs, x) && ChainAt(v.cs - v.dirs, x) <= ChainAt(v'.cs - v'.dirs, x)
    {
      OnlyChainAt(v', ChainAt(v.cs - v.dirs, x));
    }
  }

  lemma FewerKeep(v: View, v': View, file: Chain)
    requires v.Sound() && v'.Sound() && v'.dirs == v.dirs && file in v.cs - v.dirs && file != [] && v'.cs == v.cs - {file}
    requires NoneSpoilt(v, v')
    ensures KeepsFiles(v, v', {file[0]})
  {
    hide View.Sound, OutsideDirs, NoneSpoilt;
    OutsideStill(v, v');
    forall x | HasHead(v.cs - v.dirs, x) && x !in {file[0]}
      ensures HasHead(v'.cs - v'.dirs, x) && ChainAt(v.cs - v.dirs, x) <= ChainAt(v'.cs - v'.dirs, x)
    {
      OnlyChainAt(v', ChainAt(v.cs - v.dirs, x));
    }
  }

  // ----- operations through a handle -----

  lemma OnChainStands(v: View, file: File) returns (k: nat)
    requires v.Sound() && v.g == file.fs.g && OnChain(v, file)
    ensures var ch := ChainAt(v.cs - v.dirs, file.firstCluster);
      && v.g.Ok(|v.d|) && ch in v.cs - v.dirs && Abstracts(FatOf(v.g, v.d), v.cs) && IsChain(FatOf(v.g, v.d), ch)
      && Stands(file, ch, k, Place(v.g, file.currentOffset)) && AllInRange(v.g, ch)
  {
    hide FatOf, Geometry.Ok, Content, IsChain, Abstracts;
    var ch := ChainAt(v.cs - v.dirs, file.firstCluster);
    SoundIsChained(v);
    ChainedFacts(v, ch);
    ClusterFitsBuffer(v.g, |v.d|);
    FileAbstracts(v);
    k :| 0 <= k < |ch| && ch[k] == file.currentCluster;
  }

  lemma FileAbstracts(v: View)
    requires v.Sound()
    ensures v.g.Ok(|v.d|) && Abstracts(FatOf(v.g, v.d), v.cs)
  {
    hide Abstracts, FatOf, Geometry.Ok;
  }

  lemma StandsOnChain(v: View, file: File, ch: Chain, k: nat, o: nat)
    requires v.Sound() && ch in v.cs - v.dirs && ch != [] && ch[0] == file.firstCluster && Stands(file, ch, k, o)
    ensures OnChain(v, file)
  {
    hide View.Sound, Place;
    OnlyChainAt(v, ch);
  }

  method ReadHandle(file: File, size: nat, ghost v: View, ghost gone: bool) returns (n: int, out: array<byte>)
    requires file.fs.Mounted() && Shows(file.fs, v) && v.Sound() && Placed(v, file, gone)
    modifies file`currentCluster, file`currentOffset
    ensures Placed(v, file, gone) && fresh(out)
  {
    hide View.Sound, FatOf, IsChain, AllInRange, Content, R.Between, R.Delivered, R.Stale, Geometry.Offset, Place, Abstracts, HasHead,
         Patch, Geometry.Ok;
    var frame := new byte[BUFFER_SIZE];
    out := new byte[size];
    ghost var live, ch, k0 := OnChain(v, file), [], 0;
    if live {
      k0 := OnChainStands(v, file);
      ch := ChainAt(v.cs - v.dirs, file.firstCluster);
    }
    ghost var read, k, o;
    n, read, k, o := R.Read(file, size, out, frame, live, ch, k0);
    MarkMoved(v.g, v.d, old(file.currentCluster), file.currentCluster);
    if !file.isDirectory {
      OutsideMoved(v, old(file.currentCluster), file.currentCluster);
    }
    if live && o < v.g.BytesPerCluster() {
      StandsOnChain(v, file, ch, k, o);
    }
  }

  // A write to a chain of the volume, from the cluster that the pen is in.
  lemma WritesOnChain(v: View, s: Pen, seen: seq<byte>, again: seq<byte>, buf: seq<byte>, t: Pen, n: nat, ch0: Chain)
    returns (v': View, ch: Chain)
    requires v.Sound() && s.Fits(v.g) && s.d == v.d && ch0 in v.cs - v.dirs && s.cluster in ch0 && |buf| < WORD
    requires |seen| == v.g.BytesPerCluster() == |again| && Writes(v.g, s, seen, again, buf, t, n)
    requires buf != [] && Place(v.g, s.offset) != 0 ==> Seen(v.g, s.d, s.cluster, seen)
    ensures v'.Sound() && v'.g == v.g && v'.d == t.d && Wrote(v, v', ch0, ch) && t.cluster in ch
  {
    hide View.Sound, Wrote, Geometry.Ok, W.Finished, Writes, Place, Seen, FatOf, Abstracts, IsChain, AllInRange;
    SoundIsChained(v);
    FileAbstracts(v);
    ChainedFacts(v, ch0);
    ClusterFitsBuffer(v.g, |v.d|);
    var k0 :| 0 <= k0 < |ch0| && ch0[k0] == s.cluster;
    var j := W.Job(v.g, v.cs, v.d, ch0, k0, Place(v.g, s.offset), s.data, buf);
    var m, m1 := W.WriteLands(j, s, seen, again, t, n);
    v' := FinishedWrote(v, j, Run(v.g, s, seen, buf), m1, t.d, m, n);
    ch := m.ch;
  }

  // What a write through a file's handle does to the volume: on a chain, that grows and no other changes;
  // elsewhere every byte is reported and the volume stays as it was.
  ghost predicate Through(v: View, v': View, c: nat, c': nat, buf: seq<byte>, n: int)
    requires v.Sound() && v'.Sound() && v.g.Ok(|v.d|)
  {
    if Stray(v.g, v.d, c) then
      && n == |buf| && v' == v.(d := v'.d) && SameVolume(v.g, v.d, v'.d) && Stray(v.g, v.d, c')
      && (IsMark(c) ==> v' == v && IsMark(c'))
    else exists ch0, ch :: c in ch0 && c' in ch && Wrote(v, v', ch0, ch)
  }

  lemma WritesThrough(v: View, s: Pen, seen: seq<byte>, again: seq<byte>, buf: seq<byte>, t: Pen, n: nat) returns (v': View)
    requires v.Sound() && s.Fits(v.g) && s.d == v.d && OutsideDirs(v, s.cluster) && |buf| < WORD
    requires |seen| == v.g.BytesPerCluster() == |again| && Writes(v.g, s, seen, again, buf, t, n)
    requires buf != [] && Place(v.g, s.offset) != 0 ==> Seen(v.g, s.d, s.cluster, seen)
    requires v.g.Ok(|v.d|) && (Exposed(v.g) && Stray(v.g, v.d, s.cluster) ==> IsMark(s.cluster))
    ensures v'.Sound() && v'.g == v.g && v'.d == t.d && Through(v, v', s.cluster, t.cluster, buf, n)
  {
    hide View.Sound, Wrote, Geometry.Ok, Writes, Place, Seen, FatOf, OutsideDirs, SameVolume, Exposed;
    if IsMark(s.cluster) {
      W.WritesBeyond(v.g, s, seen, again, buf, t, n);
      SameVolumeSelf(v.g, v.d);
      v' := v;
    } else if Stray(v.g, v.d, s.cluster) {
      WritesStray(v.g, s, seen, again, buf, t, n);
      SameSound(v, t.d);
      v' := v.(d := t.d);
    } else {
      var ch0 := StrayOrOnFile(v, s.cluster);
      var ch;
      v', ch := WritesOnChain(v, s, seen, again, buf, t, n, ch0);
    }
  }

  lemma OnFileNotStray(v: View, first: nat, c: nat)
    requires v.Sound() && v.g.Ok(|v.d|) && OnFile(v, first, c)
    ensures !Stray(v.g, v.d, c)
  {
    hide View.Sound, FatOf, IsChain, Geometry.Ok;
    FileFacts(v, first);
    ChainMembersUsed(FatOf(v.g, v.d), ChainAt(v.cs - v.dirs, first), c);
    InRangeMembers(v.g, ChainAt(v.cs - v.dirs, first));
    NoMark(v.g, |v.d|, c);
  }

  // What that leaves of the files, and of a handle of the one that starts at `first`.
  lemma ThroughKeeps(v: View, v': View, first: nat, c: nat, c': nat, buf: seq<byte>, n: int)
    requires v.Sound() && v'.Sound() && v.g.Ok(|v.d|) && Through(v, v', c, c', buf, n)
    ensures v'.g == v.g && v'.dirs == v.dirs && KeepsFiles(v, v', {}) && OutsideDirs(v', c') && (IsMark(c) ==> IsMark(c'))
    ensures OnFile(v, first, c) ==>
      OnFile(v', first, c') && Wrote(v, v', ChainAt(v.cs - v.dirs, first), ChainAt(v'.cs - v'.dirs, first))
  {
    hide View.Sound, FatOf, Wrote, KeepsFiles, SameVolume, OutsideDirs, Geometry.Ok, HasHead, NoneSpoilt;
    if Stray(v.g, v.d, c) {
      StraySame(v.g, v.d, v'.d, c');
      StrayOutside(v', c');
      SameSpoilsNone(v, v');
      SameFiles(v, v', {});
      if OnFile(v, first, c) {
        OnFileNotStray(v, first, c);
      }
    } else {
      var ch0, ch :| c in ch0 && c' in ch && Wrote(v, v', ch0, ch);
      WroteHead(v, v', ch0, ch);
      WroteKeeps(v, v', ch0, ch);
      FileOutside(v', ch, c');
      if OnFile(v, first, c) {
        OneFile(v, first, c, ch0);
        OnlyChainAt(v', ch);
      }
    }
  }

  lemma OneFile(v: View, first: nat, c: nat, ch: Chain)
    requires v.Sound() && OnFile(v, first, c) && ch in v.cs && c in ch
    ensures ch == ChainAt(v.cs - v.dirs, first) && ch != [] && ch[0] == first
  {
    hide FatOf, Content, HasHead, IsChain;
    SharedClusterSameChain(v.cs, ch, ChainAt(v.cs - v.dirs, first), c);
  }

  lemma SameSpoilsNone(v: View, v': View)
    requires v.Sound() && v'.Sound() && v.g.Ok(|v.d|) && v' == v.(d := v'.d) && SameVolume(v.g, v.d, v'.d)
    ensures NoneSpoilt(v, v')
  {
    hide FatOf, Content;
    SoundIsChained(v);
    SoundIsChained(v');
  }

  // If FAT entries are in the way of cluster 0, only through a handle whose file has a cluster and was not
  // deleted since.
  predicate MayWriteThrough(g: Geometry, file: File, gone: bool)
    reads file
  {
    !Exposed(g) || (!gone && (file.isDirectory || file.firstCluster != 0))
  }

  lemma MayWrite(v: View, file: File, gone: bool)
    requires v.Sound() && v.g.Ok(|v.d|) && Placed(v, file, gone) && !file.isDirectory
    requires MayWriteThrough(v.g, file, gone)
    ensures OutsideDirs(v, file.currentCluster)
    ensures Exposed(v.g) && Stray(v.g, v.d, file.currentCluster) ==> IsMark(file.currentCluster)
  {
    hide View.Sound, OutsideDirs, Stray, Exposed, OnFile;
    if OnChain(v, file) {
      OnFileNotStray(v, file.firstCluster, file.currentCluster);
    }
  }

  // A write through any handle that may be written through.
  method WriteHandle(file: File, buf: seq<byte>, ghost v: View, ghost gone: bool) returns (w: int, ghost v': View)
    requires file.fs.Mounted() && Shows(file.fs, v) && v.Sound() && Placed(v, file, gone) && |buf| < WORD
    requires MayWriteThrough(file.fs.g, file, gone)
    modifies file`currentCluster, file`currentOffset, file`fileSize, file.fs.disk
    ensures v'.Sound() && Shows(file.fs, v') && v'.dirs == v.dirs && KeepsFiles(v, v', {}) && Placed(v', file, gone)
    ensures if file.isDirectory then w == -1 && v' == v
            else 0 <= w <= |buf| && Through(v, v', old(file.currentCluster), file.currentCluster, buf, w)
    // a handle on its file's chain stays there, and it is that chain that grows and changes
    ensures !file.isDirectory && old(OnChain(v, file)) ==>
      OnChain(v', file) && Wrote(v, v', ChainAt(v.cs - v.dirs, file.firstCluster), ChainAt(v'.cs - v'.dirs, file.firstCluster))
  {
    hide View.Sound, FatOf, IsChain, AllInRange, Content, Geometry.Offset, Place, Abstracts, HasHead, Geometry.Ok, Wrote,
         KeepsFiles, Writes, Exposed, OnFile, Through, Seen, MayWriteThrough, OutsideDirs, Stray;
    w, v' := -1, v;
    SameKeeps(v);
    SoundIsChained(v);
    if file.isDirectory {
      return;
    }
    var scratch := new byte[BUFFER_SIZE];
    ghost var seen, again;
    ghost var s := PenOf(file, scratch);
    MayWrite(v, file, gone);
    ClusterFitsBuffer(v.g, |v.d|);
    w, seen, again := Write(file, buf, scratch);
    v' := WritesThrough(v, s, seen, again, buf, PenOf(file, scratch), w);
    W.WritesMove(v.g, s, seen, again, buf, PenOf(file, scratch), w);
    ThroughKeeps(v, v', file.firstCluster, s.cluster, file.currentCluster, buf, w);
  }

  lemma SameKeeps(v: View)
    requires v.Sound()
    ensures KeepsFiles(v, v, {})
  {
    hide View.Sound, OutsideDirs;
  }

  // The head of a chain stays.
  lemma WroteHead(v: View, v': View, ch0: Chain, ch: Chain)
    requires v.Sound() && v'.Sound() && Wrote(v, v', ch0, ch)
    ensures ch0 in v.cs - v.dirs && ch != [] && ch0 != [] && ch[0] == ch0[0]
    ensures ch in v'.cs - v'.dirs && v'.g == v.g && v'.dirs == v.dirs
  {
    hide View.Sound, FatOf, FatFrame, Content;
  }

  // ----- runs over a table of handles -----

  // The size of a write is a 32-bit word.
  type Data = s: seq<byte> | |s| < WORD witness []

  datatype Op = OpenOp(path: seq<Name>) | CreateOp(path: seq<Name>) | DeleteOp(path: seq<Name>)
              | ReadOp(handle: nat, size: nat) | WriteOp(handle: nat, data: Data)

  // The handles that a program has opened, and for each whether its file was deleted since.
  ghost predicate Table(fs: Volume, v: View, files: seq<File>, gone: seq<bool>)
    reads fs.disk, files
  {
    fs.Mounted() && Shows(fs, v) && v.Sound() && AllPlaced(fs, v, files, gone, |files|)
  }

  // All handles but that with number `but` are placed.
  ghost predicate AllPlaced(fs: Volume, v: View, files: seq<File>, gone: seq<bool>, but: nat)
    requires v.Sound()
    reads files
  {
    && |gone| == |files| && (forall h, i :: 0 <= h < i < |files| ==> files[h] != files[i])
    && forall h :: 0 <= h < |files| && h != but ==> files[h].fs == fs && Placed(v, files[h], gone[h])
  }

  lemma OpenedFile(v: View, path: seq<Name>)
    requires v.Sound() && path != [] && Lookup(v, path).Some?
    requires !IsDirectory(Lookup(v, path).value) && SlotCluster(Lookup(v, path).value) != 0
    ensures HasHead(v.cs - v.dirs, SlotCluster(Lookup(v, path).value))
  {
    LookupIsEntry(v, path);
    EntryFacts(v, Parent(v, path).value, path[|path| - 1]);
  }

  lemma LookupIsEntry(v: View, path: seq<Name>)
    requires v.Sound() && path != [] && Lookup(v, path).Some?
    ensures Parent(v, path).Some? && HasHead(v.dirs, Parent(v, path).value)
    ensures EntryIn(v, Parent(v, path).value, path[|path| - 1]) == Lookup(v, path)
  {
  }

  // A handle as `fat32_open` leaves it.
  method OpenPlaced(fs: Volume, path: seq<Name>, ghost v: View) returns (file: File?)
    requires fs.Mounted() && Shows(fs, v) && v.Sound()
    ensures file != null ==> fresh(file) && file.fs == fs && Placed(v, file, false)
    ensures file != null && path != [] ==>
      && Lookup(v, path).Some? && file.firstCluster == SlotCluster(Lookup(v, path).value)
      && (file.isDirectory <==> IsDirectory(Lookup(v, path).value))
    ensures file != null ==> file.currentOffset == 0 && file.currentCluster == file.firstCluster
    ensures file != null && !file.isDirectory && file.firstCluster != 0 ==> OnChain(v, file)
    ensures file == null ==> path != [] && Lookup(v, path).None?
  {
    hide View.Sound, EntryIn, Walk, HasHead, Parent, Lookup, FatOf;
    SoundIsChained(v);
    file := Open(fs, path, v);
    if file != null && !file.isDirectory && file.firstCluster != 0 {
      OpenedFile(v, path);
      ghost var ch := ChainAt(v.cs - v.dirs, file.firstCluster);
      assert ch[0] in ch;
      FileOutside(v, ch, ch[0]);
    }
  }

  // The first cluster of the deleted file's chain is the one that its entry named.
  lemma RemovedKeeps(v: View, v': View, path: seq<Name>)
    requires v.Sound() && v'.Sound() && path != [] && Parent(v, path).Some? && v'.dirs == v.dirs
    requires Removed(v, v', Parent(v, path).value, path[|path| - 1])
    ensures Lookup(v, path).Some? && KeepsFiles(v, v', {SlotCluster(Lookup(v, path).value)}) && v'.g == v.g
  {
    hide View.Sound, FatOf, FatFrame, Content, ScanFrom, Freed, HasHead, EntryIn, KeepsFiles, Patch, Walk, NoneSpoilt;
    var s := Lookup(v, path).value;
    RemovedSpoilsNone(v, v', Parent(v, path).value, path[|path| - 1]);
    if SlotCluster(s) == 0 {
      SameFiles(v, v', {SlotCluster(s)});
    } else {
      OpenedFile(v, path);
      FewerKeep(v, v', ChainAt(v.cs - v.dirs, SlotCluster(s)));
    }
  }

  lemma RemovedSpoilsNone(v: View, v': View, parent: nat, name: Name)
    requires v.Sound() && v'.Sound() && HasHead(v.dirs, parent) && Removed(v, v', parent, name)
    ensures NoneSpoilt(v, v')
  {
    hide Content, ScanFrom, HasHead, EntryIn, Patch, RawEntry, MetaFrame, Abstracts;
  }

  lemma SameFiles(v: View, v': View, except: set<nat>)
    requires v.Sound() && v'.Sound() && v'.cs == v.cs && v'.dirs == v.dirs && NoneSpoilt(v, v')
    ensures KeepsFiles(v, v', except)
  {
    hide View.Sound, OutsideDirs, NoneSpoilt;
    OutsideStill(v, v');
  }

  // The caller's bookkeeping: handles of the file that started at `c` are of no use any more.
  method MarkGone(files: seq<File>, gone: seq<bool>, c: nat) returns (gone': seq<bool>)
    requires |gone| == |files|
    ensures |gone'| == |files|
    ensures forall h :: 0 <= h < |files| ==> (gone'[h] <==> gone[h] || files[h].firstCluster == c)
  {
    gone' := [];
    for h := 0 to |files|
      invariant |gone'| == h && forall x :: 0 <= x < h ==> (gone'[x] <==> gone[x] || files[x].firstCluster == c)
    {
      gone' := gone' + [gone[h] || files[h].firstCluster == c];
    }
  }

  // What an operation, through handle `h` if there is one, leaves of the table.
  lemma TableStill(fs: Volume, v: View, v': View, files: seq<File>, gone: seq<bool>, gone': seq<bool>, except: set<nat>, h: nat)
    requires v.Sound() && AllPlaced(fs, v, files, gone, h) && fs.Mounted() && Shows(fs, v') && v'.Sound() && v'.g == v.g
    requires |gone'| == |files| && KeepsFiles(v, v', except)
    requires forall x :: 0 <= x < |files| ==> (gone'[x] <==> gone[x] || files[x].firstCluster in except)
    requires h < |files| ==> files[h].fs == fs && Placed(v', files[h], gone'[h])
    ensures Table(fs, v', files, gone')
  {
    hide View.Sound, KeepsFiles, OnChain, Placed;
    forall x | 0 <= x < |files| && x != h
      ensures Placed(v', files[x], gone'[x])
    {
      PlacedStill(v, v', files[x], gone[x], gone'[x], except);
    }
  }

  method PerformOpen(fs: Volume, path: seq<Name>, files: seq<File>, gone: seq<bool>, ghost v: View)
    returns (files': seq<File>, gone': seq<bool>)
    requires Table(fs, v, files, gone)
    ensures Table(fs, v, files', gone')
    ensures files <= files' && forall h :: |files| <= h < |files'| ==> fresh(files'[h])
  {
    hide View.Sound, OnChain, Placed, Lookup;
    files', gone' := files, gone;
    var file := OpenPlaced(fs, path, v);
    if file != null {
      files', gone' := files + [file], gone + [false];
    }
  }

  method PerformCreate(fs: Volume, path: seq<Name>, ghost files: seq<File>, ghost gone: seq<bool>, ghost v: View)
    returns (ghost v': View)
    requires Table(fs, v, files, gone)
    modifies fs.disk
    ensures Table(fs, v', files, gone) && v'.dirs == v.dirs
  {
    hide View.Sound, KeepsFiles, OnChain, FatOf, Created, Parent, Lookup, Full, Placed;
    var status;
    ghost var c, i;
    status, v', c, i := Create(fs, path, v);
    CreatedKeeps(v, v', path, status, c, i);
    TableStill(fs, v, v', files, gone, gone, {}, |files|);
  }

  method PerformDelete(fs: Volume, path: seq<Name>, files: seq<File>, gone: seq<bool>, ghost v: View)
    returns (gone': seq<bool>, ghost v': View)
    requires Table(fs, v, files, gone)
    modifies fs.disk
    ensures Table(fs, v', files, gone') && v'.dirs == v.dirs
  {
    hide View.Sound, KeepsFiles, OnChain, FatOf, Removed, EntryIn, Walk, HasHead, Placed;
    var file := OpenPlaced(fs, path, v);
    var status;
    status, v' := Delete(fs, path, v);
    gone' := gone;
    if status == 0 {
      gone' := MarkGone(files, gone, file.firstCluster);
      RemovedKeeps(v, v', path);
      TableStill(fs, v, v', files, gone, gone', {file.firstCluster}, |files|);
    }
  }

  method PerformRead(fs: Volume, h: nat, size: nat, files: seq<File>, gone: seq<bool>, ghost v: View)
    requires Table(fs, v, files, gone) && h < |files|
    modifies files[h]
    ensures Table(fs, v, files, gone)
  {
    hide View.Sound, KeepsFiles, OnChain, Placed;
    SameKeeps(v);
    var n, out := ReadHandle(files[h], size, v, gone[h]);
    TableStill(fs, v, v, files, gone, gone, {}, h);
  }

  method PerformWrite(fs: Volume, h: nat, data: seq<byte>, files: seq<File>, gone: seq<bool>, ghost v: View)
    returns (ghost v': View)
    requires Table(fs, v, files, gone) && h < |files| && |data| < WORD && MayWriteThrough(fs.g, files[h], gone[h])
    modifies fs.disk, files[h]
    ensures Table(fs, v', files, gone) && v'.dirs == v.dirs
  {
    hide View.Sound, KeepsFiles, OnChain, Wrote, Placed, MayWriteThrough, Through;
    var w;
    w, v' := WriteHandle(files[h], data, v, gone[h]);
    TableStill(fs, v, v', files, gone, gone, {}, h);
  }

  // One operation of a program that writes through a handle only if it may.
  method Perform(fs: Volume, op: Op, files: seq<File>, gone: seq<bool>, ghost v: View)
    returns (files': seq<File>, gone': seq<bool>, ghost v': View)
    requires Table(fs, v, files, gone)
    modifies fs.disk, files
    ensures Table(fs, v', files', gone') && v'.dirs == v.dirs
    ensures files <= files' && forall h :: |files| <= h < |files'| ==> fresh(files'[h])
  {
    hide Table, MayWriteThrough;
    TableLengths(fs, v, files, gone);
    files', gone', v' := files, gone, v;
    match op
    case OpenOp(path) =>
      files', gone' := PerformOpen(fs, path, files, gone, v);
    case CreateOp(path) =>
      v' := PerformCreate(fs, path, files, gone, v);
    case DeleteOp(path) =>
      gone', v' := PerformDelete(fs, path, files, gone, v);
    case ReadOp(handle, size) =>
      if handle < |files| {
        PerformRead(fs, handle, size, files, gone, v);
      }
    case WriteOp(handle, data) =>
      if handle < |files| && MayWriteThrough(fs.g, files[handle], gone[handle]) {
        v' := PerformWrite(fs, handle, data, files, gone, v);
      }
  }

  lemma TableLengths(fs: Volume, v: View, files: seq<File>, gone: seq<bool>)
    requires Table(fs, v, files, gone)
    ensures |gone| == |files|
  {
    hide View.Sound, Placed;
  }

  lemma CreatedMore(v: View, v': View, parent: nat, name: Name, c: nat, i: Option<nat>)
    requires v.Sound() && v'.Sound() && HasHead(v.dirs, parent) && HasHead(v'.dirs, parent) && Created(v, v', parent, name, c, i)
    ensures v'.g == v.g && v'.dirs == v.dirs && v'.cs == v.cs + {[c]} && NoneSpoilt(v, v')
  {
    hide View.Sound, FatOf, FatFrame, Content;
  }

  lemma CreatedKeeps(v: View, v': View, path: seq<Name>, status: int, c: nat, i: Option<nat>)
    requires v.Sound() && v'.Sound() && v'.dirs == v.dirs
    requires status == 0 || v' != v ==>
      path != [] && Parent(v, path).Some? && Created(v, v', Parent(v, path).value, path[|path| - 1], c, i)
    ensures v'.g == v.g && KeepsFiles(v, v', {})
  {
    hide View.Sound, Created, KeepsFiles, EntryIn, Walk, HasHead, NoneSpoilt;
    if v' == v {
      SameKeeps(v);
    } else {
      CreatedMore(v, v', Parent(v, path).value, path[|path| - 1], c, i);
      MoreKeeps(v, v', c);
    }
  }

  // Every run, whatever is open, keeps the volume sound, so its FAT well formed, and no cluster is lost
  // or gained: each stays free, bad or on exactly one chain.
  method PerformAll(fs: Volume, ops: seq<Op>, ghost v: View) returns (files: seq<File>, gone: seq<bool>, ghost v': View)
    requires fs.Mounted() && Shows(fs, v) && v.Sound()
    modifies fs.disk
    ensures Table(fs, v', files, gone) && v'.dirs == v.dirs
    ensures F.WellFormed(fs.Entries())
    ensures |FreeClusters(fs.Entries())| + |BadClusters(fs.Entries())| + TotalLength(v'.cs) == fs.g.totalClusters
  {
    hide View.Sound, FatOf, F.WellFormed, FreeClusters, BadClusters, TotalLength, Geometry.Ok, Placed;
    files, gone, v' := [], [], v;
    for i := 0 to |ops|
      invariant Table(fs, v', files, gone) && v'.dirs == v.dirs
      invariant forall h :: 0 <= h < |files| ==> fresh(files[h])
    {
      files, gone, v' := Perform(fs, ops[i], files, gone, v');
    }
    SoundMeans(v');
  }

  lemma SoundMeans(v: View)
    requires v.Sound()
    ensures v.g.Ok(|v.d|) && Abstracts(FatOf(v.g, v.d), v.cs) && F.WellFormed(FatOf(v.g, v.d))
    ensures |FreeClusters(FatOf(v.g, v.d))| + |BadClusters(FatOf(v.g, v.d))| + TotalLength(v.cs) == v.g.totalClusters
  {
    hide Abstracts, FatOf, F.WellFormed, FreeClusters, BadClusters, TotalLength, Content;
    F.WellFormedIffChains(FatOf(v.g, v.d));
    Conservation(FatOf(v.g, v.d), v.cs);
  }
}
