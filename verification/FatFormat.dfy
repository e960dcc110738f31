// The records that the FAT32 specification lays down, field by field: what the code takes out of a boot
// sector and a directory entry is what was put there.
module FatFormat {
  import opened Bytes
  import opened FatLayout
  import opened FatDirectory
  import opened FatMount

  // ----- directory entries -----

  // The attribute byte: one bit each, from the lowest, and two bits without a meaning.
  datatype Attributes = Attributes(readOnly: bool, hidden: bool, system: bool, volume: bool, directory: bool,
                                   archive: bool, rest: nat)

  function Bit(b: bool): nat { if b then 1 else 0 }

  function AttributeByte(a: Attributes): byte
    requires a.rest < 4
  {
    Bit(a.readOnly) + 2 * Bit(a.hidden) + 4 * Bit(a.system) + 8 * Bit(a.volume) + 16 * Bit(a.directory)
    + 32 * Bit(a.archive) + 64 * a.rest
  }

  // An entry's fields. `created` is what lies between the attributes and the high half of the cluster,
  // `modified` what lies between the halves.
  datatype Fields = Fields(name: seq<byte>, attributes: Attributes, created: seq<byte>, cluster: nat, modified: seq<byte>,
                           size: nat)

  predicate Formed(f: Fields)
  {
    |f.name| == 11 && f.attributes.rest < 4 && |f.created| == 8 && f.cluster < WORD && |f.modified| == 4 && f.size < WORD
  }

  function EntrySlot(f: Fields): Slot
    requires Formed(f)
  {
    f.name + [AttributeByte(f.attributes)] + f.created + ToLe16(f.cluster / 0x1_0000) + f.modified
    + ToLe16(f.cluster % 0x1_0000) + ToLe32(f.size)
  }

  // Part of a long name, and no entry of its own.
  predicate LongName(a: Attributes) { a.readOnly && a.hidden && a.system && a.volume }

  // The fields come back. The search sees the entry unless its first byte says that it is free (00) or
  // deleted (E5), or it is part of a long name.
  lemma EntryReads(f: Fields)
    requires Formed(f)
    ensures var s := EntrySlot(f);
      && s[..11] == f.name && SlotCluster(s) == f.cluster && SlotSize(s) == f.size
      && (IsDirectory(s) <==> f.attributes.directory)
      && (Terminator(s) <==> f.name[0] == 0x00)
      && (Visible(s) <==> f.name[0] != 0x00 && f.name[0] != 0xE5 && !LongName(f.attributes))
  {
    hide Le32, ToLe32, ToLe16;
    var s := EntrySlot(f);
    EntryPlaces(f);
    WordMoved(s, 28);
    WordReads(f.size);
    HalfMoved(s, 20);
    HalfMoved(s, 26);
    HalfReads(f.cluster / 0x1_0000);
    HalfReads(f.cluster % 0x1_0000);
    AttributeReads(f.attributes);
  }

  lemma EntryPlaces(f: Fields)
    requires Formed(f)
    ensures var s := EntrySlot(f);
      && s[..11] == f.name && s[0] == f.name[0] && s[11] == AttributeByte(f.attributes)
      && s[20..22] == ToLe16(f.cluster / 0x1_0000) && s[26..28] == ToLe16(f.cluster % 0x1_0000) && s[28..32] == ToLe32(f.size)
  {
    hide ToLe16, ToLe32, AttributeByte;
  }

  lemma AttributeReads(a: Attributes)
    requires a.rest < 4
    ensures AttributeByte(a) / 16 % 2 == Bit(a.directory) && (AttributeByte(a) % 16 == 15 <==> LongName(a))
  {
    var low, high := Bit(a.readOnly) + 2 * Bit(a.hidden) + 4 * Bit(a.system) + 8 * Bit(a.volume), Bit(a.archive) + 2 * a.rest;
    Nibbles(low, Bit(a.directory), high);
  }

  lemma Nibbles(low: nat, bit: nat, high: nat)
    requires low < 16 && bit < 2
    ensures var n := low + 16 * bit + 32 * high; n % 16 == low && n / 16 % 2 == bit
  {
    var n := low + 16 * bit + 32 * high;
    assert n / 16 == bit + 2 * high;
  }

  // Every entry is laid out from some fields.
  lemma EveryEntry(s: Slot) returns (f: Fields)
    ensures Formed(f) && EntrySlot(f) == s
  {
    hide Le16, Le32, ToLe16, ToLe32, AttributeByte;
    var a := AttributesOf(s[11]);
    AttributeBits(s[11]);
    f := Fields(s[..11], a, s[12..20], 0x1_0000 * Le16(s, 20) + Le16(s, 26), s[22..26], Le32(s, 28));
    HalfBack(s, 20);
    HalfBack(s, 26);
    WordBack(s, 28);
    assert s == s[..11] + [s[11]] + s[12..20] + s[20..22] + s[22..26] + s[26..28] + s[28..32];
  }

  predicate Odd(n: nat) { n % 2 == 1 }

  function Half(n: nat): nat { n / 2 }

  function AttributesOf(b: byte): Attributes
  {
    var n1 := Half(b);
    var n2 := Half(n1);
    var n3 := Half(n2);
    var n4 := Half(n3);
    var n5 := Half(n4);
    Attributes(Odd(b), Odd(n1), Odd(n2), Odd(n3), Odd(n4), Odd(n5), Half(n5))
  }

  lemma AttributeBits(b: byte)
    ensures AttributesOf(b).rest < 4 && AttributeByte(AttributesOf(b)) == b
  {
    hide Odd, Bit, Half, AttributeByte;
    var n2 := Half(Half(b));
    var n4 := Half(Half(n2));
    Quartered(b);
    assert n2 < 64;
    Quartered(n2);
    assert n4 < 16;
    Quartered(n4);
    assert b == 16 * n4 + 8 * Bit(Odd(Half(n2))) + 4 * Bit(Odd(n2)) + 2 * Bit(Odd(Half(b))) + Bit(Odd(b));
    ByteOf(Odd(b), Odd(Half(b)), Odd(n2), Odd(Half(n2)), Odd(n4), Odd(Half(n4)), Half(Half(n4)), n4, b);
  }

  lemma Quartered(n: nat)
    ensures n == 4 * Half(Half(n)) + 2 * Bit(Odd(Half(n))) + Bit(Odd(n)) && 4 * Half(Half(n)) <= n
  {
    hide Odd, Bit, Half;
    Halved(n);
    Halved(Half(n));
  }

  lemma ByteOf(b0: bool, b1: bool, b2: bool, b3: bool, b4: bool, b5: bool, rest: nat, n4: nat, b: nat)
    requires n4 == 4 * rest + 2 * Bit(b5) + Bit(b4) && n4 < 16
    requires b == 16 * n4 + 8 * Bit(b3) + 4 * Bit(b2) + 2 * Bit(b1) + Bit(b0)
    ensures rest < 4 && AttributeByte(Attributes(b0, b1, b2, b3, b4, b5, rest)) == b
  {
  }

  lemma Halved(n: nat)
    ensures n == 2 * Half(n) + Bit(Odd(n)) && Bit(Odd(n)) <= 1
  {
  }

  lemma HalfBack(s: seq<byte>, at: nat)
    requires at + 2 <= |s|
    ensures ToLe16(Le16(s, at)) == s[at..at + 2]
  {
  }

  lemma WordBack(s: seq<byte>, at: nat)
    requires at + 4 <= |s|
    ensures ToLe32(Le32(s, at)) == s[at..at + 4]
  {
    hide Le16, ToLe16;
    HalfBack(s, at);
    HalfBack(s, at + 2);
    assert s[at..at + 4] == s[at..at + 2] + s[at + 2..at + 4];
  }

  // What an entry says when opened: its cluster, its size, and whether it is a directory.
  ghost predicate Says(s: Slot, cluster: nat, size: nat, directory: bool)
  {
    forall f :: Formed(f) && EntrySlot(f) == s ==> cluster == f.cluster && size == f.size && (directory <==> f.attributes.directory)
  }

  lemma EntrySays(s: Slot)
    ensures Says(s, SlotCluster(s), SlotSize(s), IsDirectory(s))
  {
    hide EntrySlot, SlotCluster, SlotSize, IsDirectory, Visible, Terminator, LongName;
    forall f | Formed(f) && EntrySlot(f) == s
      ensures SlotCluster(s) == f.cluster && SlotSize(s) == f.size && (IsDirectory(s) <==> f.attributes.directory)
    {
      EntryReads(f);
    }
  }

  lemma WordMoved(s: seq<byte>, at: nat)
    requires at + 4 <= |s|
    ensures Le32(s, at) == Le32(s[at..at + 4], 0)
  {
  }

  lemma HalfMoved(s: seq<byte>, at: nat)
    requires at + 2 <= |s|
    ensures Le16(s, at) == Le16(s[at..at + 2], 0)
  {
  }

  lemma WordReads(v: nat)
    requires v < WORD
    ensures Le32(ToLe32(v), 0) == v
  {
  }

  lemma HalfReads(v: nat)
    requires v < 0x1_0000
    ensures Le16(ToLe16(v), 0) == v
  {
  }

  // A word lies with its lowest byte first.
  lemma WordBytes(a: byte, b: byte, c: byte, d: byte)
    ensures Le32([a, b, c, d], 0) == a as nat + 0x100 * b as nat + 0x1_0000 * c as nat + 0x100_0000 * d as nat
    ensures Le16([a, b], 0) == a as nat + 0x100 * b as nat
  {
  }

  // ----- the boot sector -----

  // The fields that mounting reads, and between them, in order, those that it does not.
  datatype Boot = Boot(jump: seq<byte>, sectorsPerCluster: byte, reserved: nat, fats: byte, rootEntries: seq<byte>,
                       small: nat, media: seq<byte>, oldFatSize: nat, tracks: seq<byte>, large: nat, fatSize: nat,
                       flags: seq<byte>, rootCluster: nat, info: seq<byte>, signature: byte, tail: seq<byte>)

  predicate Written(b: Boot)
  {
    && |b.jump| == 13 && b.reserved < 0x1_0000 && |b.rootEntries| == 2 && b.small < 0x1_0000 && |b.media| == 1
    && b.oldFatSize < 0x1_0000 && |b.tracks| == 8 && b.large < WORD && b.fatSize < WORD && |b.flags| == 4
    && b.rootCluster < WORD && |b.info| == 18 && |b.tail| == 445
  }

  function BootSector(b: Boot): (s: Sector)
    requires Written(b)
  {
    b.jump + [b.sectorsPerCluster] + ToLe16(b.reserved) + [b.fats] + b.rootEntries + ToLe16(b.small) + b.media
    + ToLe16(b.oldFatSize) + b.tracks + ToLe32(b.large) + ToLe32(b.fatSize) + b.flags + ToLe32(b.rootCluster) + b.info
    + [b.signature] + b.tail
  }

  lemma BootPlaces(b: Boot)
    requires Written(b)
    ensures var s := BootSector(b);
      && s[13] == b.sectorsPerCluster && s[14..16] == ToLe16(b.reserved) && s[16] == b.fats && s[19..21] == ToLe16(b.small)
      && s[22..24] == ToLe16(b.oldFatSize) && s[32..36] == ToLe32(b.large) && s[36..40] == ToLe32(b.fatSize)
      && s[44..48] == ToLe32(b.rootCluster) && s[66] == b.signature
  {
    hide ToLe16, ToLe32;
  }

  lemma BootReads(b: Boot)
    requires Written(b)
    ensures var s := BootSector(b);
      && Le16(s, 14) == b.reserved && Le16(s, 19) == b.small && Le16(s, 22) == b.oldFatSize && Le32(s, 32) == b.large
      && Le32(s, 36) == b.fatSize && Le32(s, 44) == b.rootCluster
  {
    hide Le16, Le32, ToLe16, ToLe32, BootSector;
    var s := BootSector(b);
    BootPlaces(b);
    HalfMoved(s, 14);
    HalfMoved(s, 19);
    HalfMoved(s, 22);
    WordMoved(s, 32);
    WordMoved(s, 36);
    WordMoved(s, 44);
    HalfReads(b.reserved);
    HalfReads(b.small);
    HalfReads(b.oldFatSize);
    WordReads(b.large);
    WordReads(b.fatSize);
    WordReads(b.rootCluster);
  }

  function Total(b: Boot): nat { if b.small != 0 then b.small else b.large }

  function SystemArea(b: Boot): nat { b.reserved + b.fats as nat * b.fatSize }

  predicate Mountable(b: Boot) { Written(b) && b.sectorsPerCluster != 0 && SystemArea(b) <= Total(b) }

  // The volume that the fields describe: the first FAT behind the reserved sectors, the data behind all FATs,
  // the root where its field says, and as many whole clusters as the sectors behind the system area hold.
  function Described(b: Boot, partitionStart: nat): Geometry
    requires Mountable(b)
  {
    Geometry(partitionStart, b.reserved, SystemArea(b), b.rootCluster, b.sectorsPerCluster, b.fatSize,
             (Total(b) - SystemArea(b)) / b.sectorsPerCluster)
  }

  predicate MountsAs(boot: Sector, partitionStart: nat, r: MountResult) { boot[13] != 0 && Mount(boot, partitionStart) == r }

  // Mounting a boot sector so laid out gives that volume, unless it lacks the extended signature (28 or 29) or
  // has an old-style FAT size.
  lemma MountReads(b: Boot, partitionStart: nat)
    requires Mountable(b)
    ensures MountsAs(BootSector(b), partitionStart,
                     if b.signature != 0x28 && b.signature != 0x29 then InvalidSignature
                     else if b.oldFatSize != 0 then NotFat32
                     else Mounted(Described(b, partitionStart)))
  {
    hide Le16, Le32, ToLe16, ToLe32, BootSector, DataStart, TotalSectors;
    BootPlaces(b);
    BootReads(b);
    RegionsRead(b);
    NoWrap(Total(b) - SystemArea(b));
  }

  lemma RegionsRead(b: Boot)
    requires Written(b) && SystemArea(b) < WORD
    ensures DataStart(BootSector(b)) == SystemArea(b)
    ensures TotalSectors(BootSector(b)) == Total(b)
  {
    hide Le16, Le32, ToLe16, ToLe32, BootSector;
    BootPlaces(b);
    BootReads(b);
    NoWrap(SystemArea(b));
  }

  // ----- where things lie -----

  // Byte `i` of the device.
  function ByteAt(d: Disk, i: nat): byte
    requires i < 512 * |d|
  {
    d[i / 512][i % 512]
  }

  // The word of the four bytes from there on, lowest first.
  function WordAt(d: Disk, i: nat): nat
    requires i + 4 <= 512 * |d|
  {
    ByteAt(d, i) as nat + 0x100 * ByteAt(d, i + 1) as nat + 0x1_0000 * ByteAt(d, i + 2) as nat + 0x100_0000 * ByteAt(d, i + 3) as nat
  }

  // Entry `c` of the FAT is the low 28 bits of the word 4 c bytes behind the reserved sectors.
  lemma EntryPlace(g: Geometry, d: Disk, c: nat)
    requires g.Ok(|d|) && c < g.totalClusters + 2
    ensures var at := 512 * (g.partitionStart + g.fatStart) + 4 * c;
      at + 4 <= 512 * |d| && FatOf(g, d)[c] == WordAt(d, at) % 0x1000_0000
  {
    hide Geometry.Ok, Le32, WordAt, EntryOffset, EntryLba;
    EntryOnDisk(g, |d|, c);
    EntryAddress(g, c);
    SectorWord(d, EntryLba(g, c), EntryOffset(c));
  }

  lemma EntryAddress(g: Geometry, c: nat)
    ensures 512 * EntryLba(g, c) + EntryOffset(c) == 512 * (g.partitionStart + g.fatStart) + 4 * c
  {
    assert 4 * c == 512 * (c * 4 / 512) + c * 4 % 512;
  }

  lemma SectorWord(d: Disk, l: nat, o: nat)
    requires l < |d| && o + 4 <= 512
    ensures 512 * l + o + 4 <= 512 * |d| && Le32(d[l], o) == WordAt(d, 512 * l + o)
  {
    hide Le32, ByteAt;
    SectorByte(d, l, o);
    SectorByte(d, l, o + 1);
    SectorByte(d, l, o + 2);
    SectorByte(d, l, o + 3);
    WordMoved(d[l], o);
    WordBytes(d[l][o], d[l][o + 1], d[l][o + 2], d[l][o + 3]);
    assert d[l][o..o + 4] == [d[l][o], d[l][o + 1], d[l][o + 2], d[l][o + 3]];
  }

  lemma SectorByte(d: Disk, l: nat, o: nat)
    requires l < |d| && o < 512
    ensures 512 * l + o < 512 * |d| && ByteAt(d, 512 * l + o) == d[l][o]
  {
    assert (512 * l + o) / 512 == l;
  }

  // Cluster 2 lies at the start of the data area, and the others behind it in order.
  lemma ClusterPlace(g: Geometry, d: Disk, c: nat, o: nat)
    requires g.Ok(|d|) && g.InRange(c) && o < g.BytesPerCluster()
    ensures Lies(g, d, c, o, 512 * (g.partitionStart + g.dataStart + (c - 2) * g.sectorsPerCluster) + o)
  {
    hide Geometry.Ok;
    ClusterOnDisk(g, |d|, c);
    SectorByte(d, ClusterLba(g, c) + o / 512, o % 512);
  }

  predicate Lies(g: Geometry, d: Disk, c: nat, o: nat, at: nat)
    requires g.Ok(|d|) && g.InRange(c) && o < g.BytesPerCluster()
  {
    at < 512 * |d| && ClusterBytes(g, d, c)[o] == ByteAt(d, at)
  }
}
