// The file handle.
module FatFile {
  import opened FatLayout
  import opened FatChains
  import opened FatContent
  import opened FatVolume

  const BUFFER_SIZE: nat := 4096

  class File {
    const fs: Volume
    var firstCluster: nat
    var currentCluster: nat
    var currentOffset: nat
    var fileSize: nat
    var isDirectory: bool

    constructor (fs: Volume, firstCluster: nat, fileSize: nat, isDirectory: bool)
      ensures this.fs == fs && this.firstCluster == firstCluster && this.fileSize == fileSize
      ensures currentCluster == firstCluster && currentOffset == 0 && this.isDirectory == isDirectory
    {
      this.fs := fs;
      this.firstCluster, this.currentCluster, this.currentOffset := firstCluster, firstCluster, 0;
      this.fileSize, this.isDirectory := fileSize, isDirectory;
    }
  }

  function Min(a: int, b: int): int { if a < b then a else b }

  function Max(a: int, b: int): int { if a > b then a else b }

  // The handle stands at byte `o` of cluster number `k` of the chain. Its offset says no more than
  // that; a handle is on track if it is the file offset of that byte.
  predicate Stands(file: File, ch: Chain, k: nat, o: nat)
    reads file
  {
    && k < |ch| && file.currentCluster == ch[k]
    && file.fs.g.sectorsPerCluster > 0 && Place(file.fs.g, file.currentOffset) == o
  }

  predicate OnTrack(file: File, k: nat, o: nat)
    reads file
  {
    file.currentOffset == file.fs.g.Offset(k, o)
  }

  // The cluster is a mark that the FAT uses for a bad cluster or the end of a chain.
  predicate IsMark(cluster: nat) { BAD <= cluster < ENTRY_LIMIT }
}
