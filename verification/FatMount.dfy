// The geometry computed at mount from the boot sector, and when it keeps the FAT and the clusters
// apart.
module FatMount {
  import opened Bytes
  import opened FatLayout

  datatype MountResult = Mounted(g: Geometry) | InvalidSignature | NotFat32

  function TotalSectors(boot: Sector): nat
  {
    if Le16(boot, 19) != 0 then Le16(boot, 19) else Le32(boot, 32)
  }

  function DataStart(boot: Sector): nat { (Le16(boot, 14) + boot[16] as nat * Le32(boot, 36)) % WORD }

  // `fat32_mount` after it has read the boot sector; all arithmetic is on 32-bit words. The
  // volume's label and the filesystem-type string do not matter.
  function Mount(boot: Sector, partitionStart: nat): MountResult
    requires boot[13] != 0
  {
    if boot[66] != 0x29 && boot[66] != 0x28 then InvalidSignature
    else if Le16(boot, 22) != 0 then NotFat32
    else
      var dataSectors := (TotalSectors(boot) - DataStart(boot)) % WORD;
      Mounted(Geometry(partitionStart, Le16(boot, 14), DataStart(boot), Le32(boot, 44), boot[13], Le32(boot, 36),
                       dataSectors / boot[13]))
  }

  // What a boot sector must say about itself: small clusters, at least one FAT, no wrap-around in
  // the size of the system area, and FATs that cover every cluster.
  predicate Plausible(boot: Sector)
  {
    && 1 <= boot[13] <= 8 && boot[16] >= 1
    && Le16(boot, 14) + boot[16] as nat * Le32(boot, 36) < WORD
    && (DataStart(boot) <= TotalSectors(boot) ==>
          ((TotalSectors(boot) - DataStart(boot)) / boot[13] as nat + 2) * 4 <= Le32(boot, 36) * 512)
  }

  // A plausible volume on a device that holds it is mounted with its regions apart, exactly if the
  // total sector count is not less than the start of the data area; if it is, the subtraction wraps.
  lemma MountedOkIff(boot: Sector, partitionStart: nat, sectors: nat)
    requires Plausible(boot) && partitionStart + TotalSectors(boot) <= sectors <= MAX_SECTORS
    requires Mount(boot, partitionStart).Mounted?
    ensures Mount(boot, partitionStart).g.Ok(sectors) <==> DataStart(boot) <= TotalSectors(boot)
  {
    hide Le16, Le32, Geometry.Ok, TotalSectors;
    var fats, fatSize := boot[16] as nat, Le32(boot, 36);
    NoWrap(Le16(boot, 14) + fats * fatSize);
    TotalIsWord(boot);
    GeometryOkIff(Mount(boot, partitionStart).g, fats, TotalSectors(boot), sectors);
  }

  lemma TotalIsWord(boot: Sector)
    ensures TotalSectors(boot) < WORD
  {
  }

  lemma GeometryOkIff(g: Geometry, fats: nat, total: nat, sectors: nat)
    requires 1 <= g.sectorsPerCluster <= 8 && fats >= 1 && total < WORD && g.dataStart < WORD
    requires g.dataStart == g.fatStart + fats * g.fatSize
    requires g.totalClusters == (total - g.dataStart) % WORD / g.sectorsPerCluster
    requires g.dataStart <= total ==> ((total - g.dataStart) / g.sectorsPerCluster + 2) * 4 <= g.fatSize * 512
    requires g.partitionStart + total <= sectors <= MAX_SECTORS
    ensures g.Ok(sectors) <==> g.dataStart <= total
  {
    assert g.fatSize <= fats * g.fatSize;
    var n := (total - g.dataStart) % WORD;
    FloorTimes(n, g.sectorsPerCluster);
    assert n == if g.dataStart <= total then total - g.dataStart else total - g.dataStart + WORD;
  }

  lemma FloorTimes(n: nat, m: nat)
    requires m > 0
    ensures n - m < n / m * m <= n
  {
  }
}
