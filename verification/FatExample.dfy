// A volume of two clusters on which a create disturbs the way to its own entry.
module FatExample {
  import opened Bytes
  import opened FatLayout
  import opened FatChains
  import opened FatContent
  import opened FatDirectory
  import opened FatTree
  import opened FatOps
  import opened FatUndo

  const SMALL: Geometry := Geometry(0, 0, 1, 2, 1, 1, 2)

  // The entry BCD, a directory: the root itself.
  const BCD_SLOT: Slot := FatName(BCD) + [0x10] + Zeros(8) + ToLe16(0) + Zeros(4) + ToLe16(2) + Zeros(4)

  // A deleted entry, the entry BCD, and none.
  function RootBytes(): Sector { [DELETED] + Zeros(31) + BCD_SLOT + Zeros(448) }

  function FatBytes(): Sector { Patch(Zeros(512), 8, ToLe32(END_OF_CHAIN)) }

  function SmallDisk(): (d: Disk)
    ensures |d| == 3
  {
    [FatBytes(), RootBytes(), Zeros(512)]
  }

  // The FAT has one chain, of one cluster; that is the root directory.
  ghost predicate Tiny(v: View)
  {
    && v.g.Ok(|v.d|) && v.g.totalClusters == 2 && v.g.rootCluster == 2 && v.cs == {[2]} && v.dirs == {[2]}
    && FatOf(v.g, v.d)[2] == END_OF_CHAIN && FatOf(v.g, v.d)[3] == FREE && ClusterBytes(v.g, v.d, 2) == RootBytes()
  }

  lemma BcdSlotFields()
    ensures BCD_SLOT[..11] == FatName(BCD) && BCD_SLOT[11] == 0x10 && SlotCluster(BCD_SLOT) == 2
  {
    hide FatName;
    var s := BCD_SLOT;
    assert s[20..22] == ToLe16(0) && s[26..28] == ToLe16(2);
    assert Le16(s, 20) == Le16(s[20..22], 0) && Le16(s, 26) == Le16(s[26..28], 0);
  }

  lemma BcdFound()
    ensures Hit(BCD_SLOT, BCD) && Visible(BCD_SLOT) && IsDirectory(BCD_SLOT)
  {
    hide NamesAgree, NameString, FatName;
    BcdSlotFields();
    LettersFoundAgain(BCD);
    StoredNotFree(BCD);
    assert BCD_SLOT[0] == BCD_SLOT[..11][0];
  }

  lemma RootSlots()
    ensures |RootBytes()| == 512 && SlotAt(RootBytes(), 0)[0] == DELETED && SlotAt(RootBytes(), 1) == BCD_SLOT
    ensures forall i: nat :: 2 <= i && 32 * i + 32 <= 512 ==> SlotAt(RootBytes(), i)[0] == 0
  {
    hide FatName;
  }

  lemma FatWords()
    ensures Le32(FatBytes(), 8) == END_OF_CHAIN && Le32(FatBytes(), 12) == 0
  {
    hide Patch, ToLe32;
    PatchedWord(Zeros(512), 8, END_OF_CHAIN, 8);
    PatchedWord(Zeros(512), 8, END_OF_CHAIN, 12);
  }

  lemma SmallOk()
    ensures SMALL.Ok(3)
  {
  }

  lemma SmallSectors()
    ensures SmallDisk()[0] == FatBytes() && SmallDisk()[1] == RootBytes()
  {
    hide FatBytes, RootBytes, Zeros;
  }

  lemma FirstEntries(g: Geometry)
    requires g.partitionStart == 0 && g.fatStart == 0
    ensures EntryLba(g, 2) == 0 && EntryLba(g, 3) == 0 && EntryOffset(2) == 8 && EntryOffset(3) == 12
  {
  }

  lemma LowParts()
    ensures Low28(END_OF_CHAIN) == END_OF_CHAIN && Low28(0) == FREE
  {
  }

  lemma EntryIs(g: Geometry, d: Disk, c: nat)
    requires g.Ok(|d|) && c < g.totalClusters + 2
    ensures EntryLba(g, c) < |d| && FatOf(g, d)[c] == Low28(Le32(d[EntryLba(g, c)], EntryOffset(c)))
  {
    hide Le32, Low28;
    EntryOnDisk(g, |d|, c);
  }

  lemma SmallFat()
    ensures SMALL.Ok(3) && FatOf(SMALL, SmallDisk())[2] == END_OF_CHAIN && FatOf(SMALL, SmallDisk())[3] == FREE
  {
    hide Le32, FatBytes, RootBytes, Zeros, Geometry.Ok, FatOf, SmallDisk, Low28, EntryLba, EntryOffset;
    SmallOk();
    FatWords();
    FirstEntries(SMALL);
    LowParts();
    SmallSectors();
    EntryIs(SMALL, SmallDisk(), 2);
    EntryIs(SMALL, SmallDisk(), 3);
  }

  lemma OneSector(g: Geometry, d: Disk, c: nat)
    requires g.Ok(|d|) && g.InRange(c) && g.sectorsPerCluster == 1
    ensures ClusterLba(g, c) < |d| && ClusterBytes(g, d, c) == d[ClusterLba(g, c)]
  {
    ClusterOnDisk(g, |d|, c);
  }

  lemma SmallCluster()
    ensures SMALL.Ok(3) && ClusterBytes(SMALL, SmallDisk(), 2) == RootBytes()
  {
    hide ClusterBytes, FatBytes, RootBytes, Zeros, Geometry.Ok, SmallDisk;
    SmallOk();
    SmallSectors();
    OneSector(SMALL, SmallDisk(), 2);
  }

  lemma SmallTiny()
    ensures Tiny(View(SMALL, SmallDisk(), {[2]}, {[2]}))
  {
    hide FatOf, ClusterBytes, RootBytes, SmallDisk, Geometry.Ok;
    SmallFat();
    SmallCluster();
  }

  lemma TinyRoot(v: View)
    requires Tiny(v)
    ensures v.Chained() && v.Dir([2]) == RootBytes()
  {
    hide FatOf, ClusterBytes, RootBytes;
    assert [2][..0] == [];
    assert Content(v.g, v.d, []) == [];
  }

  lemma TinySound(v: View)
    requires Tiny(v)
    ensures v.Sound()
  {
    hide FatOf, FatName, Content, RootBytes, ToLe16, Abstracts, ClusterBytes;
    TinyRoot(v);
    RootSlots();
    BcdFound();
    BcdSlotFields();
    assert [2][0] == 2;
    assert HasHead(v.dirs, 2);
    forall ch, i: nat, c | v.DirSlot(ch, i, c)
      ensures c == 2
    {
      assert i == 1;
    }
    forall ch, i: nat, c
      ensures !v.FileSlot(ch, i, c)
    {
      if ch in v.dirs && 32 * i + 32 <= |v.Dir(ch)| && Visible(SlotAt(v.Dir(ch), i)) {
        assert i == 1;
      }
    }
  }

  lemma BcdInRoot(v: View)
    requires Tiny(v)
    ensures v.Sound() && HasHead(v.dirs, 2) && EntryIn(v, 2, BCD) == Some(BCD_SLOT)
    ensures ScanFrom(v.Dir(ChainAt(v.dirs, 2)), BCD, 0) == Found(1)
  {
    hide FatOf, FatName, Content, NamesAgree, NameString, View.Sound, Hit, RootBytes, ScanFrom, ClusterBytes;
    TinySound(v);
    TinyRoot(v);
    RootIsDir(v);
    OnlyDir(v, 2);
    RootScan();
    RootSlots();
    EntryIsScan(v, 2, BCD);
  }

  lemma OneStep(v: View, x: Name, s: Slot)
    requires v.Sound() && HasHead(v.dirs, 2) && EntryIn(v, 2, x) == Some(s) && IsDirectory(s) && SlotCluster(s) == 2
    ensures Walk(v, 2, []) == Some(2) == Walk(v, 2, [x])
  {
    hide View.Sound, EntryIn, HasHead;
    assert [x][1..] == [];
  }

  // The path BCD/BCDY: BCD leads back to the root, where a new entry BCDY will answer to BCD.
  lemma TinyDisturbs(v: View, path: seq<Name>)
    requires Tiny(v) && path == [BCD, BCDY]
    ensures v.Sound() && Parent(v, path).Some? && HasHead(v.dirs, v.g.rootCluster)
    ensures Walk(v, v.g.rootCluster, path[..0]) == Parent(v, path)
    ensures ScanFrom(v.Dir(ChainAt(v.dirs, Parent(v, path).value)), BCD, 0) == Found(1)
    ensures Keepable(BCDY) && !LeadsBack(v, path, 0)
  {
    hide FatOf, FatName, Content, NamesAgree, NameString, View.Sound, Hit, Keepable, LeadsBack, Walk, EntryIn, ScanFrom,
         SlotCluster, IsDirectory, HasHead, ClusterBytes, RootBytes;
    BcdInRoot(v);
    BcdFound();
    BcdSlotFields();
    OneStep(v, BCD, BCD_SLOT);
    assert path[..1] == [BCD] && path[..0] == [];
    ThroughParent(v, path, 0, 0);
  }

  // There is such a volume.
  lemma CanDisturb() returns (v: View)
    ensures v.Sound() && Parent(v, [BCD, BCDY]) == Some(v.g.rootCluster) && Keepable(BCDY) && !LeadsBack(v, [BCD, BCDY], 0)
  {
    hide Tiny, View.Sound, Walk, EntryIn, Keepable, LeadsBack, SmallDisk;
    v := View(SMALL, SmallDisk(), {[2]}, {[2]});
    SmallTiny();
    TinyDisturbs(v, [BCD, BCDY]);
    assert [BCD, BCDY][..0] == [];
    WalkNowhere(v);
  }

  lemma WalkNowhere(v: View)
    requires v.Sound() && HasHead(v.dirs, v.g.rootCluster)
    ensures Walk(v, v.g.rootCluster, []) == Some(v.g.rootCluster)
  {
    hide View.Sound, HasHead;
  }

  lemma OnlyDir(v: View, c: nat)
    requires v.dirs == {[2]} && HasHead(v.dirs, c)
    ensures ChainAt(v.dirs, c) == [2]
  {
  }

  lemma RootScan()
    ensures ScanFrom(RootBytes(), BCD, 0) == Found(1)
  {
    hide FatName, NamesAgree, NameString, RootBytes;
    RootSlots();
    BcdFound();
    ScanOneSlot(RootBytes(), BCD, 0);
    ScanOneSlot(RootBytes(), BCD, 1);
  }
}
