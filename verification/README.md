# LakOS: a verification of its file system, interpreters and text tools

LakOS is a small i386 kernel. This project models the parts of it that can be separated from the
hardware, and proves what they are for:

- **FAT32** (`Fat*.dfy`, over `Bytes.dfy`). Sectors, clusters and 28-bit FAT entries are bytes on a
  device; reading, writing, creating and deleting are methods that change those bytes in place. Two layers
  are proved over them: the bytes refine an array of entries, and the array stands for a set of
  disjoint acyclic cluster chains. `View.Sound` is the invariant of a whole volume, directories
  included, and every run of operations through any number of open handles keeps it.
- **The script language lsh** (`Lsh*.dfy`). Control flow is run straight from the flat lines by
  scanning for keywords; it is proved to agree with a tree semantics. Variables, substitution,
  conditions and plain lines are modelled on top, and a class runs it all from its tables.
- **The terminal** (`Term*.dfy`). The 80 by 25 screen is always the last 25 rows of the unbounded
  wrapped layout of everything written, every character in the colour its escapes chose; the capture buffer is included.
- **The assembler** (`Asm*.dfy`). Lines become machine code, a decoder written from the Intel manual
  gets the program back, and running the code is running the source.
- **The calculator** (`Calc*.dfy`), over an abstract arithmetic, so that the claim is about grouping
  and order and stays exact for floating point; over the reals a text evaluates to the value school rules give it.
- **The IP header checksum** (`NetChecksum.dfy`), **tar archives** (`Tar*.dfy`), **the line editor
  with its history ring** (`Shell*.dfy`), and **the pipe of two greps** (`Grep*.dfy`).

Formats and notations are written down on their own, as their author sees them: the fields of a directory entry and a
boot sector (`FatFormat`), a tar header, a condition or a script line (`LshLines`, `LshPrograms`), an assembler line, numerals,
literals, text with escapes. Lemmas say that the code reads exactly that, so constants and tables are told apart from
what they stand for.

`CString.dfy` holds the C string functions the components rest on, `Slices.dfy` where a part lies in a sequence.

The methods follow the C functions statement by statement: a buffer that C changes in place is an array
changed in place, a static table is a field. Each method is proved equal to a specification function or
states its effect outright, and the results below are about those functions. Ghost parameters carry what
only the proofs know, such as the chain a file lies on.

## What the code does not do

Some properties one would expect do not hold. The model keeps the code as it is, and each of these is stated
as a contract or a lemma with the exact condition where there is one.

- A write that ends exactly at the end of a cluster leaves the handle in that cluster. So the next write through it
  overwrites that cluster: two writes append exactly if the first or the second is empty or the first does not end there
  (`FatScenarios.TwoWrites`, its `InARow`). And the next read hands out the cluster just written again
  (`FatScenarios.WriteThenReadOn`).
- A read that resumes inside the first cluster of a file hands out whatever the frame's buffer held (`FatRead.Read`,
  `Stale` and `Delivered`). Whatever the clusters hold, a read is right exactly if the handle is in the cluster its offset
  belongs to and not stale (`FatRead.ReadRightIff`).
- A read that stops at the end of the chain leaves the end-of-chain mark as the handle's cluster. A write after it reports
  every byte, and not one reaches the disk (`FatScenarios.ReadThenWrite`).
- A write through the handle of an entry whose cluster is 0 overwrites the sectors in front of the data area, with one FAT the
  last of the FAT (`FatLost.WriteToEmpty`). One through the handle of a file deleted since goes to a free cluster, then
  to the same sectors (`FatLost.WriteAfterDelete`). Over all contents such a write leaves a sound volume exactly if no FAT
  entry lies there (`FatLost.HarmlessIff`), which the geometry tells (`FatStray.ExposedIff`): two FATs of two clusters' length or
  more are enough (`FatStray.MountedApart`). On such volumes every run keeps the volume sound; on the others every run
  that makes no such write (`FatHandles.PerformAll`).
- A handle of a deleted file whose cluster another file has taken since writes into that file (`FatHandles.WriteHandle`, its
  `Through`).
- A write that passes 4 GiB with a cluster size that does not divide it goes on inside the cluster it has just filled, over the
  bytes just written (`FatPen.RunBreaks`, `FatWrite.WriteFrom`).
- The tail of a cluster written from its start holds what the buffer held before (`FatWrite.Background`).
- Creating a file, writing to it and deleting it restores the volume exactly if the path leads back to the new entry: its name
  answers to itself, and where the path passes through the parent the new entry does not come first
  (`FatUndo.CreateWriteDelete`, its `LeadsBack`). `A/BCD/../BCDY` can fail (`FatUndo.ThroughParent`,
  `FatExample.CanDisturb`).
- A created name matches itself exactly if bit 6 is set in every stored byte, so names with digits do not
  (`FatDirectory.FoundAgainIff`); the comparison accepts prefixes (`FatDirectory.NamesAgreeIff`).
- A create in a parent whose first cluster is full fails and leaves one cluster allocated (`FatOps.Create`).
- A boot sector whose data area starts behind its last sector makes the cluster count wrap
  (`FatMount.MountedOkIff`).
- An `else` of an inner `if` is counted against the outer one (`LshControl.FindElseExact`,
  `LshControl.SimulationFails`). That condition is exact for each scan, and for whole scripts if no test line stands inside its
  own statement again and every else-branch has a plain line of its own (`LshConverse.SimulationIff`). For others a wrong scan
  may never matter, for any machine and state (`LshControl.NotNecessary`).
- The `${x}` form drops the character after the brace (`LshVars.BraceDropsNext`).
- A number with a minus sign counts as 0 in a condition (`LshLines.MinusIsZero`).
- `mov` with a register as its source loads 0 (`AsmSource.MovRegisterLoadsZero`), a blank in front of the comma makes
  the destination unknown (`AsmSource.BlankBeforeComma`), and `in` and `out` with `ax` are encoded as their 32-bit forms
  (`AsmCode.Code`).
- `run` adds no return if the last byte of a number is C3 (`AsmSession.RunAddsReturn`, `AsmSession.ReturnMissed`), and
  executes at most 63 bytes of the code (`AsmSession.ExecutedExact`): thirteen moves are too many
  (`AsmSession.ThirteenMovesCut`). The return goes wherever the top of the stack points, so besides the program must leave
  the return address there (`AsmSession.RunReturnsExactly`): if the stack pointer changes by push and pop alone and no more is
  popped than was pushed, exactly if all that was pushed is popped (`AsmSession.DisciplinedReturns`). `push eax` fails
  (`AsmSession.PushGoesElsewhere`).
- The two tar searches differ if an earlier name continues the one sought with a space
  (`TarIndex.SearchesAgree`).
- History entries more than ten back show newer ones (`ShellEditor.RecallExact`).
- The checksum does not tell 0000 from FFFF (`NetChecksum.OneWordChanged`).

## Model

| member | source | states |
|---|---|---|
| `FatLayout.EntriesDisjoint` | kernel/fs/fat32.c:93-99 | two entries in one sector take disjoint 4-byte stretches, so no entry straddles a sector or overlaps another |
| `FatLayout.ClustersDisjoint` | kernel/fs/fat32.c:58-82 | distinct in-range clusters lie in disjoint sector ranges |
| `FatLayout.PutEntryRefinesUpdate` | kernel/fs/fat32.c:104-128 | setting an entry is one update of the array of 28-bit entries: low 28 bits of the value there, its top 4 bits kept, every other raw entry as before |
| `FatLayout.PutEntryKeepsClusters` | kernel/fs/fat32.c:104-128 | setting an entry changes no byte of any cluster |
| `FatLayout.PutClusterRefines` | kernel/fs/fat32.c:71-82 | writing a cluster changes its bytes to those given, no other cluster and no FAT entry |
| `FatMount.MountedOkIff` | kernel/fs/fat32.c:173-193 | the mounted regions keep FAT, clusters and device bounds apart exactly if the data area does not start behind the last sector |
| `FatFormat.MountReads` | kernel/fs/fat32.c:155-190 | a boot sector laid out from its fields mounts to the volume that they describe, root cluster and all, unless the signature is missing or the FAT size is old-style |
| `FatFormat.EntryPlace` | kernel/fs/fat32.c:93-99 | entry c of the FAT is the low 28 bits of the little-endian word 4 c bytes behind the reserved sectors of the device |
| `FatFormat.ClusterPlace` | kernel/fs/fat32.c:58-69 | cluster 2 lies at the start of the data area, the others behind it in order, byte by byte |
| `FatVolume.Volume.ReadCluster` | kernel/fs/fat32.c:45-69 | for any cluster number: the buffer gets the sectors where the code looks for it, as far as the device has them; for one in range exactly the cluster's bytes, at the place asked for |
| `FatVolume.Volume.WriteCluster` | kernel/fs/fat32.c:52-82 | for any cluster number: exactly the sectors of the device at which the code looks for it are overwritten; for one in range exactly that cluster |
| `FatLayout.PutAtMark` | kernel/fs/fat32.c:71-82 | a bad or end-of-chain mark taken for a cluster number lies beyond every device, so that the write changes nothing |
| `FatVolume.Volume.GetNextCluster` | kernel/fs/fat32.c:84-102 | returns the low 28 bits of the entry, and the bad-cluster mark for a number out of range |
| `FatVolume.Volume.SetFatEntry` | kernel/fs/fat32.c:104-128 | read-modify-write of one sector: the disk with that one entry spliced, or unchanged and -1 out of range |
| `FatVolume.Volume.FindFreeCluster` | kernel/fs/fat32.c:130-137 | the first free cluster, or 0 exactly when none is free |
| `FatChains.StartChain` | kernel/fs/fat32.c:608-614 | marking a free cluster as an end adds a one-cluster chain and disturbs no other |
| `FatChains.ExtendChain` | kernel/fs/fat32.c:485-494 | linking a free cluster behind a tail extends that chain and leaves the others |
| `FatChains.FreeChain` | kernel/fs/fat32.c:806-810 | freeing the members of a chain removes exactly that chain |
| `FatChains.AbstractionUnique` | kernel/fs/fat32.c:104-137 | the set of chains is determined by the FAT |
| `FatChains.Conservation` | kernel/fs/fat32.c:130-137 | free clusters, bad clusters and the lengths of all chains add up to the clusters of the volume |
| `FatWellFormed.WellFormedIffChains` | kernel/fs/fat32.c:104-137 | the entry-by-entry condition (links in range and used, no two predecessors, no cycle) holds exactly if the FAT stands for disjoint chains |
| `FatContent.WriteInChain` | kernel/fs/fat32.c:460-474 | writing one cluster of a chain changes exactly that stretch of the file's bytes |
| `FatContent.ContentConcat` | kernel/fs/fat32.c:827-849 | a chain's bytes are those of its parts in order |
| `FatFrames.LinkRefines` | kernel/fs/fat32.c:485-494 | the two entry updates that extend a chain, as one: the array linked, only those two entries touched, no cluster touched |
| `FatFrames.FrontRestored` | kernel/fs/fat32.c:104-128 | if the touched entries have their old low 28 bits, every byte in front of the data area is as before |
| `FatPen.WriteChunk` | kernel/fs/fat32.c:457-481 | what one turn reloads, patches and writes, whatever the handle's cluster is, and how offset and size move |
| `FatPen.NextForWrite` | kernel/fs/fat32.c:483-496 | the cluster that the FAT names, or at a chain's end the first free one, linked behind it; refused only if none is free, with nothing changed |
| `FatPen.Write` | kernel/fs/fat32.c:449-502 | the loop, for any handle: disk, handle, buffer and count afterwards are those of `Run`, or of two runs in a row where the first breaks at 4 GiB; nothing for a directory |
| `FatPen.RunBreaks` | kernel/fs/fat32.c:457-496 | a run breaks only where the offset passes 4 GiB with a cluster size that does not divide it; the offset is then inside a cluster although one was just filled |
| `FatPen.RunBeyond` | kernel/fs/fat32.c:464-496 | from a bad or end-of-chain mark every byte up to a break is reported and the disk is as before |
| `FatPen.RunNowhere` | kernel/fs/fat32.c:464-496 | from a cluster the volume does not have, only the first chunk reaches the disk, and every byte up to a break is reported |
| `FatPen.RunFreed` | kernel/fs/fat32.c:464-496 | from a free cluster, the first chunk goes there, the second to where cluster 0 would lie, the rest nowhere, and every byte up to a break is reported |
| `FatWrite.TurnSettles` | kernel/fs/fat32.c:457-481 | on a chain, one turn puts the next bytes at the mark and keeps all else of the file, the FAT and the other clusters |
| `FatWrite.NextReady` | kernel/fs/fat32.c:483-496 | moving on from a full cluster, along the chain or by linking a free one, keeps what was written and the growth invariant |
| `FatWrite.Lands` | kernel/fs/fat32.c:449-502 | from any place on a chain, whatever the offset says, a run up to its end or its break: the count is the smaller of the request and what fits in the rest of the chain and the free clusters; the file reads as before up to that place, then the bytes written; only the old tail's and the new clusters' entries and the clusters passed over change; the pen ends in the last cluster written |
| `FatWrite.WriteFrom` | kernel/fs/fat32.c:449-502 | the same of the code's loop, at any offset: in one run, or in two where the first breaks, the second in the cluster just filled at the place the wrapped offset has in it; and through a handle behind its chain's end every byte is reported and the disk is as before |
| `FatRead.BetweenIsSlice` | kernel/fs/fat32.c:410-447 | the bytes between two places of a chain are that slice of the file's content |
| `FatRead.ReadChunk` | kernel/fs/fat32.c:418-433 | what one turn copies out, from the cluster the handle names or, on a stale handle, from the old buffer |
| `FatRead.Read` | kernel/fs/fat32.c:410-447 | for any handle: count, offset and what of the buffer is untouched; for one on a chain, whatever its offset says, the bytes handed out are those of the chain from its place on (behind the stale ones, if it is stale); short only at the end of the file or chain; where the handle ends; and any handle, on a chain or not, moves along the FAT |
| `FatRead.StaleIff` | kernel/fs/fat32.c:418-424 | a handle on its file's chain is stale exactly if it stands inside the first cluster |
| `FatRead.ReadRightIff` | kernel/fs/fat32.c:418-433 | over all contents of the cluster and the buffer, a read gives what the file holds at the handle's offset exactly if the offset belongs to the handle's cluster and the handle is not stale |
| `FatRead.HandsOutIff` | kernel/fs/fat32.c:410-447 | what the read leaves in the caller's buffer is what the file holds at the offset exactly if it is right in that sense |
| `FatRead.ReadClusterChain` | kernel/fs/fat32.c:827-849 | reads exactly the smaller of the limit and the chain's length, and gives the prefix of its content |
| `FatScenarios.WriteThenRead` | kernel/fs/fat32.c:410-502 | write to an opened file, rewind, read: exactly the smaller of the request and the room is written and comes back, the chain has the old clusters or as many as hold the bytes, a short count means a full volume, and the chain read gives the same prefix |
| `FatScenarios.TwoWrites` | kernel/fs/fat32.c:449-502 | two writes through a handle anywhere on a chain: both counts, where the second starts (at the end of the first, or a cluster before it) and what the file holds up to its end; in the last cluster they stand one behind the other exactly if one is empty or the first does not end at a cluster's end |
| `FatScenarios.WriteThenReadOn` | kernel/fs/fat32.c:410-502 | a read behind a write that ended at a cluster's end hands out that cluster again; behind another, past the first cluster, what follows |
| `FatScenarios.ReadThenWrite` | kernel/fs/fat32.c:410-502 | a write behind a read that reached the end of the chain reports every byte and changes nothing; behind any other it goes to where the read stopped |
| `FatDirectory.NameToString` | kernel/fs/fat32.c:244-260 | the 8.3 name as a dotted string |
| `FatDirectory.StringToFatName` | kernel/fs/fat32.c:262-280 | the 8.3 name of a string, bit 6 set in every stored byte |
| `FatDirectory.CompareName` | kernel/fs/fat32.c:282-292 | the comparison loop accepts exactly what `NamesAgree` says |
| `FatDirectory.NamesAgreeIff` | kernel/fs/fat32.c:282-292 | names agree exactly if they are the same up to bit 5 as far as both go |
| `FatDirectory.FoundAgainIff` | kernel/fs/fat32.c:262-292 | a created name, dot or not, matches itself exactly if bit 6 is set in all its stored bytes |
| `FatDirectory.LettersFoundAgain` | kernel/fs/fat32.c:262-292 | a name of letters with at most one dot is found again and does not look deleted |
| `FatNames.PaddedReads` | kernel/fs/fat32.c:244-260 | a base of at most eight bytes and an extension of at most three, each padded with spaces, read as `base.ext` |
| `FatNames.DottedStored` | kernel/fs/fat32.c:262-280 | `base.ext` is stored padded, its extension cut to three bytes, bit 6 set in each |
| `FatNames.UndottedStored` | kernel/fs/fat32.c:262-280 | a name without a dot is stored padded, cut to eight bytes |
| `FatNames.SameButForCase` | kernel/fs/fat32.c:282-292 | names of letters, digits, dots and dashes are taken for the same exactly if they are but for the case of letters, as far as both go |
| `FatFormat.EntryReads` | kernel/include/fat32.h:40-52 | from an entry laid out from its fields, name, cluster, size, kind and whether the search sees it come back, for every name, attribute, cluster and size |
| `FatFormat.EveryEntry` | kernel/include/fat32.h:40-52 | every 32-byte entry is laid out from some fields |
| `FatDirectory.ScanMeaning` | kernel/fs/fat32.c:331-351 | what the scan finds hits, and every slot before it is live and does not |
| `FatDirectory.ScanConcat` | kernel/fs/fat32.c:319-358 | scanning cluster by cluster is scanning the directory's content |
| `FatLookup.FindSlot` | kernel/fs/fat32.c:319-358 | the walk over the directory's chain finds the slot the scan of its content finds, or none if there is none |
| `FatLookup.FindEntry` | kernel/fs/fat32.c:319-358 | returns the first matching slot of the directory, if any |
| `FatTree.AllocSound` | kernel/fs/fat32.c:608-614 | allocating a free cluster keeps the volume sound, and no entry names it yet |
| `FatTree.PutSlotSound` | kernel/fs/fat32.c:616-645 | rewriting one directory slot, to a deleted one or to a file of its own, keeps the volume sound and every other entry |
| `FatTree.WriteSound` | kernel/fs/fat32.c:449-502 | a write through a handle keeps the volume sound and every byte of every other chain |
| `FatTree.FreeSound` | kernel/fs/fat32.c:806-810 | freeing a chain that no entry names keeps the volume sound and every other chain's bytes |
| `FatOps.ResolveParent` | kernel/fs/fat32.c:590-600 | the loop over the components leads to the directory the path means, or fails if it means none |
| `FatOps.WalkConcat` | kernel/fs/fat32.c:360-408 | a path leads where its first part and then the rest lead, name by name through directories |
| `FatOps.Open` | kernel/fs/fat32.c:360-408 | opens exactly the paths that lead to an entry; whatever fields the entry is laid out from, their cluster, size and kind are the handle's; the empty path opens the root |
| `FatOpened.OpenAndRead` | kernel/fs/fat32.c:360-447 | opening a file and reading hands out the smallest of what is asked for, the size in its entry and what its chain holds, and these are the first bytes of the chain; a directory is refused |
| `FatOps.NewSlotFields` | kernel/fs/fat32.c:621-636 | a new entry has its 8.3 name, its cluster, size 0, and is a file that the search sees |
| `FatOps.UnusedReads` | kernel/fs/fat32.c:621-636 | a slot is unused exactly if its name begins with 00 or E5; deleting makes it so, and no visible one is |
| `FatOps.FindUnusedSlot` | kernel/fs/fat32.c:621-636 | the first free or deleted slot of a cluster, or none if all are used |
| `FatOps.Create` | kernel/fs/fat32.c:582-648 | success: the path was free and now has an entry on a one-cluster chain; failure: nothing changed, or the parent's first cluster is full and one cluster is lost; nothing changed exactly if the path is unusable or the volume full |
| `FatOps.FreeFrom` | kernel/fs/fat32.c:806-810 | the loop ends, frees exactly the chain's entries and touches no cluster |
| `FatOps.Delete` | kernel/fs/fat32.c:738-813 | succeeds exactly on a path to a file; its slot is marked, exactly its chain is freed, every other chain reads as before |
| `FatStray.ExposedIff` | kernel/fs/fat32.c:58-82 | some FAT entry lies in the sectors that the code takes for cluster 0 exactly if the FAT's first sector, its last sector with an entry and the start of the data area say so |
| `FatStray.MountedApart` | kernel/fs/fat32.c:173-193 | a boot sector with two FATs or more, each at least two clusters long, mounts to a volume where none does |
| `FatStray.ZeroKeeps` | kernel/fs/fat32.c:71-82 | if none does, writing any bytes to cluster 0 changes no FAT entry and no cluster |
| `FatStray.WritesStray` | kernel/fs/fat32.c:449-502 | if none does, a write from a free cluster, cluster 0 or a mark, at any offset, reports every byte, keeps the FAT and every cluster that is not free, and ends in such a cluster |
| `FatHandles.WriteHandle` | kernel/fs/fat32.c:449-502 | through any handle that may be written through: on a file's chain only that chain grows, by clusters that were free, and changes; elsewhere every byte is reported and the volume stays; every other handle stays placed, and one on its own file's chain stays on it |
| `FatHandles.ReadHandle` | kernel/fs/fat32.c:410-447 | a read leaves the handle on its file's chain or behind its end, and one of a deleted or empty file outside every directory |
| `FatHandles.Perform` | kernel/fs/fat32.c:360-813 | open, create, delete, read or write over a table of handles keeps the volume sound and every handle placed: all of them, if no FAT entry is in the way of cluster 0; else without writes through handles of deleted files or of entries without a cluster |
| `FatHandles.PerformAll` | kernel/fs/fat32.c:360-813 | every run of these keeps the volume sound, the FAT well formed, and the number of clusters accounted for |
| `FatLost.HarmlessIff` | kernel/fs/fat32.c:449-502 | over all contents, sizes and buffers, a write through a handle as opened whose cluster is 0 or free leaves the disk of a sound volume exactly if no FAT entry is in the way |
| `FatLost.WriteToEmpty` | kernel/fs/fat32.c:360-502 | a write to an opened entry whose cluster is 0: every byte is reported, the first of them replace the sectors in front of the data area; the volume stays sound if no FAT entry is in the way, and no sound volume is left if the root's is and the bytes are zero |
| `FatLost.WriteAfterDelete` | kernel/fs/fat32.c:360-813 | a write to a file deleted since it was opened: every byte is reported, the first cluster of them goes to the free cluster and does no harm, the next to the sectors in front of the data area, with the same consequences |
| `FatUndo.CreatedLookup` | kernel/fs/fat32.c:360-408 | after a create the path leads to the new entry exactly if its name answers to itself and the way there is clear of it |
| `FatUndo.CreateWriteDelete` | kernel/fs/fat32.c:582-813 | create, write and delete restore every byte of the reserved sectors and the FATs and the set of chains exactly if the path leads back to the new entry; otherwise the new cluster stays allocated |
| `FatUndo.ThroughParent` | kernel/fs/fat32.c:282-292 | where BCD is found behind an unused slot of the parent, a path through BCD does not lead back to a new BCDY, though that name answers to itself |
| `FatExample.CanDisturb` | kernel/fs/fat32.c:282-292 | there is a sound volume and such a path |
| `FatUndo.DeleteFreesChain` | kernel/fs/fat32.c:801-810 | after a delete the free clusters are the old ones and exactly the file's |
| `LshControl.FindElseExact` | kernel/comand/lsh.c:206-244 | on a nested script the scan finds an `if`'s own `fi`, and its own `else` (or that it has none) exactly if its then-branch lets it |
| `LshControl.FindDoneExact` | kernel/comand/lsh.c:219-230 | the scan finds a `while`'s own `done` |
| `LshControl.BlockRunsScript` | kernel/comand/lsh.c:246-301 | running lines where a script's text lies is evaluating its tree and going on behind it |
| `LshControl.Simulation` | kernel/comand/lsh.c:206-301 | over any meaning of tests and lines, running the flattened script does what its tree says, loops cut at 1000 |
| `LshControl.SimulationFails` | kernel/comand/lsh.c:232-244 | a script with an `else` inside a then-branch on which both branches run |
| `LshControl.NotNecessary` | kernel/comand/lsh.c:232-301 | a script with a wrong scan that runs as its tree says for every machine and state |
| `LshConverse.SimulationIff` | kernel/comand/lsh.c:232-301 | for scripts where no test line stands inside its own statement again and every else-branch has a plain line of its own: whatever tests are true, the lines run as the tree does, exactly if the scan finds every else |
| `LshConverse.NestedTold` | kernel/comand/lsh.c:232-244 | the script on which both branches run is one of these |
| `LshControl.RunsAtMost` | kernel/comand/lsh.c:246-301 | such a run runs at most the sum over its plain lines of 1000 to the number of loops around each |
| `LshVars.AssignSound` | kernel/comand/lsh.c:45-57 | an assignment keeps the table: distinct names, at most 64, everything within its buffer |
| `LshVars.StoreIsMap` | kernel/comand/lsh.c:36-57 | any run of assignments leaves exactly the first 64 names, each with the last value given to it, cut to 255 characters |
| `LshVars.LookupLastWrite` | kernel/comand/lsh.c:59-65 | looking a name up gives that value, or nothing |
| `LshVars.ExpandsReferences` | kernel/comand/lsh.c:84-119 | the scan replaces each `$name` by its value once and keeps everything else |
| `LshVars.PiecesReadable` | kernel/comand/lsh.c:84-119 | every text without `${` is such a text |
| `LshVars.NameCharacters` | kernel/comand/lsh.c:67-69 | names are made of letters, digits and underscores |
| `LshVars.BraceCut` | kernel/comand/lsh.c:92-98 | a name of more than 31 characters in braces is cut there, and the next character dropped |
| `LshVars.BraceDropsNext` | kernel/comand/lsh.c:92-98 | for every name, character and rest: the braced form drops the character after its brace |
| `LshVars.AssignReads` | kernel/comand/lsh.c:45-65 | after an assignment the name has the value, and every other name what it had |
| `LshLines.ComparesNumbers` | kernel/comand/lsh.c:121-151 | operands that stand for numbers, as digits or through a variable, are compared as numbers by all six operators, as 32-bit words |
| `LshLines.ComparesTexts` | kernel/comand/lsh.c:153-159 | `eq` and `ne` compare texts after substitution, as far as 255 characters |
| `LshLines.MinusIsZero` | kernel/comand/lsh.c:121-126 | a minus sign in front of a digit makes the operand 0 |
| `LshLines.OtherIsZero` | kernel/comand/lsh.c:121-140 | and so does anything else that is no number and no reference |
| `LshLines.AssignmentRuns` | kernel/comand/lsh.c:308-352 | `name=value` assigns the value with its references replaced, with or without the line's end |
| `LshLines.QuotedRuns` | kernel/comand/lsh.c:329-338 | `name="value"` does so with what is between the quotes |
| `LshLines.SetRuns` | kernel/comand/lsh.c:355-379 | `set name value` does the same in any spacing |
| `LshLines.SetEmpty` | kernel/comand/lsh.c:355-379 | without a value it assigns the empty text |
| `LshLines.PrintRuns` | kernel/comand/lsh.c:381-391 | `print text` says the text with its references replaced, at most 255 characters, without its last newline, and ends the line |
| `LshLines.ShRuns` | kernel/comand/lsh.c:397-408 | `sh text` hands that to the shell, unless it is empty |
| `LshLines.ExitRuns` | kernel/comand/lsh.c:393-395 | `exit` in a script does nothing |
| `LshLines.SleepRuns` | kernel/comand/lsh.c:410-417 | `sleep` neither says nor changes anything |
| `LshLines.UnknownSaid` | kernel/comand/lsh.c:419-421 | any other line is quoted in the message about unknown commands |
| `LshLines.ConditionReads` | kernel/comand/lsh.c:164-202 | a condition of two operands and one of eight operators, in any spacing and whatever blanks end the line, compares those operands with that operator |
| `LshPrograms.KindsRead` | kernel/comand/lsh.c:246-301 | after any blanks, `if` and `while` with what follows, `else`, `fi`, `done`, empty lines and comments are told apart |
| `LshPrograms.PlainReads` | kernel/comand/lsh.c:246-301 | a longer word that begins like a keyword is a plain line |
| `LshPrograms.TestReads` | kernel/comand/lsh.c:259-283 | the test of an `if` or `while` line, in any spacing, holds exactly if its operands stand in the relation it names, numbers or texts |
| `LshPrograms.IfElseRuns` | kernel/comand/lsh.c:253-273 | the lines of an `if` with such a test run as the lines of its then-branch exactly if the relation holds, and else as those of its else-branch |
| `LshPrograms.IfRuns` | kernel/comand/lsh.c:253-273 | one without an `else` runs its branch exactly if the relation holds |
| `LshPrograms.WhileRuns` | kernel/comand/lsh.c:275-295 | a `while` runs its body as long as the relation holds between what its operands then stand for, at most 1000 times, and after 1000 says so |
| `LshPrograms.LineRuns` | kernel/comand/lsh.c:246-301 | lines run in order; blank lines and comments do nothing |
| `LshPrograms.NotClosed` | kernel/comand/lsh.c:253-281 | an `if` without `fi` and a `while` without `done` say so and end the run |
| `LshPrograms.StrayPassed` | kernel/comand/lsh.c:297-299 | an `else`, `fi` or `done` that belongs to nothing is passed over |
| `LshPrograms.IfPrints` | kernel/comand/lsh.c:253-301 | `if .. print this, else print that, fi` says one or the other, references replaced, exactly as the relation holds or not |
| `LshLines.ExecuteSound` | kernel/comand/lsh.c:303-422 | every plain line keeps the table sound |
| `LshLines.RunSound` | kernel/comand/lsh.c:246-422 | every run of any lines, well nested or not, keeps the table sound |
| `LshInterpreter.Interpreter.SetVar` | kernel/comand/lsh.c:45-57 | in place on the tables: the assignment of `LshVars` |
| `LshInterpreter.Interpreter.ExpandVariables` | kernel/comand/lsh.c:84-119 | the output is the substituted text cut to one less than the buffer |
| `LshInterpreter.Interpreter.EvalExpr` | kernel/comand/lsh.c:121-140 | the number of an operand |
| `LshInterpreter.Interpreter.CompareValues` | kernel/comand/lsh.c:142-162 | the comparison as specified |
| `LshInterpreter.Interpreter.ParseCondition` | kernel/comand/lsh.c:164-202 | the condition as specified: the first operator of the list that occurs |
| `LshInterpreter.Interpreter.FindMatchingFi` | kernel/comand/lsh.c:206-217 | the loop finds what `FindFi` says |
| `LshInterpreter.Interpreter.FindMatchingDone` | kernel/comand/lsh.c:219-230 | the loop finds what `FindDone` says |
| `LshInterpreter.Interpreter.FindElseLine` | kernel/comand/lsh.c:232-244 | the loop finds what `FindElse` says |
| `LshInterpreter.Interpreter.ExecuteLine` | kernel/comand/lsh.c:303-422 | the effect of a plain line on variables and output |
| `LshInterpreter.Interpreter.ExecuteBlock` | kernel/comand/lsh.c:246-301 | terminates on any lines, and leaves variables and output as `LshControl.Block` says |
| `LshInterpreter.Interpreter.RunScript` | kernel/comand/lsh.c:576-582 | a loaded script whose elses are found runs as its tree says, and leaves the table sound |
| `CString.StrStr` | kernel/lib.c:51-60 | the first place where the needle occurs, or none |
| `CString.StrChr` | kernel/lib.c:70-76 | the first place of the character, or none |
| `CString.Atoi` | kernel/lib.c:29-36 | the value of the leading digits, wrapped to 32 bits |
| `TermLayout.RowsPut` | kernel/kernel.c:210-228 | what one character in its colour does to the wrapped rows of the layout |
| `TermLayout.StepShows` | kernel/kernel.c:199-239 | one character keeps the screen the last 25 rows of the layout, each character in its colour, the cursor at its end, through wrap and scroll |
| `TermLayout.SinceInitialised` | kernel/kernel.c:137-239 | after any text since the screen was cleared it shows the last 25 rows of all of it |
| `TermOutput.TextShows` | kernel/kernel.c:254-279 | writing a string with escapes shows the layout of its characters, each in the colour in force |
| `TermOutput.PaintsMeaning` | kernel/kernel.c:254-279 | text with escapes gives the characters between them, each in the colour last chosen: codes 0, 31, 32, 33 and 36 over the background, other codes nothing, other escapes swallowed up to their m |
| `TermOutput.SessionShows` | kernel/kernel.c:137-279 | the same over any number of strings since the screen was cleared |
| `TermOutput.TextCaught` | kernel/kernel.c:200-208 | with capture on, the buffer takes the characters and the screen keeps its cells and cursor |
| `TermOutput.CaughtPlain` | kernel/kernel.c:114-135 | text without backspaces is kept as far as it fits before the terminator |
| `TermOutput.CaughtBack` | kernel/kernel.c:200-208 | a backspace takes the last character caught back |
| `TermOutput.TextBacked` | kernel/kernel.c:199-279 | everything on the screen, blanks included, stays on the background through any text |
| `TermDevice.Terminal.PutChar` | kernel/kernel.c:199-239 | in place on video memory or buffer: the step as specified |
| `TermDevice.Terminal.Scroll` | kernel/kernel.c:228-235 | the in-place loop moves every row up by one and blanks the last |
| `TermDevice.Terminal.WriteString` | kernel/kernel.c:254-279 | the loop with its escape parser has the effect of `TermOutput.Text` |
| `TermDevice.Terminal.CaptureBegin` | kernel/kernel.c:114-122 | capture starts with an empty string if there is a buffer with room |
| `TermDevice.Terminal.CaptureEnd` | kernel/kernel.c:124-135 | the buffer holds what was caught as a C string, and output goes to the screen again |
| `CalcTree.EvaluatesTree` | kernel/comand/calc.c:8-108 | a tree printed with the parentheses it needs and any blanks is read to its end, whatever follows, with exactly its operations, left-associated; an error is reported exactly if some divisor is zero |
| `CalcTree.EvaluatesPrinted` | kernel/comand/calc.c:8-108 | the same for any tree, parentheses put in where precedence needs them |
| `CalcTree.NumberReads` | kernel/comand/calc.c:12-41 | a literal is read to its end and gives what its digits stand for, each taken in at its place behind those before it |
| `CalcExact.EvaluatesExactly` | kernel/comand/calc.c:8-108 | over the reals the text of any tree evaluates to its value by school rules, literals by their decimal digits; an error exactly if some divisor is zero |
| `CalcExact.DecimalDenotes` | kernel/comand/calc.c:24-27 | the decimal digits of any number denote it |
| `CalcTree.UnclosedReads` | kernel/comand/calc.c:46-54 | a parenthesis that is not closed is taken as closed at the end |
| `CalcTree.NothingIsZero` | kernel/comand/calc.c:12-41 | where a number should stand and none does, zero is taken and nothing read |
| `CalcTree.DivisionByZeroStops` | kernel/comand/calc.c:72-79 | a division by zero reports one error, gives zero, and leaves what follows unread |
| `CalcMachine.Calculator.ParseNumber` | kernel/comand/calc.c:12-41 | the value, and the position behind the number |
| `CalcMachine.Calculator.ParseFactor` | kernel/comand/calc.c:43-57 | the value, position and errors as specified |
| `CalcMachine.Calculator.ParseTerm` | kernel/comand/calc.c:59-87 | the same for a term, its loop included |
| `CalcMachine.Calculator.ParseExpr` | kernel/comand/calc.c:89-108 | the same for an expression; terminates on every text and never passes its end |
| `AsmCode.Decodes` | kernel/comand/asm.c:59-499 | every instruction's code, whatever stands around it, decodes to that instruction |
| `AsmCode.Disassembles` | kernel/comand/asm.c:720-730 | the decoder recovers exactly the program from its code |
| `AsmCode.CodeRunsSource` | kernel/comand/asm.c:524-562 | for straight-line code, fetching, decoding and executing is running the source, and a return behind it goes where the source leaves the top of the stack pointing |
| `AsmCode.PushPop` | kernel/comand/asm.c:304-343 | what `push` and `pop` stand for: the value comes back and the stack pointer is as before |
| `AsmCode.AddSubUndo` | kernel/comand/asm.c:186-266 | what `add` and `sub` stand for: each undoes the other |
| `AsmCode.XorUndo` | kernel/comand/asm.c:146-184 | `xor` with another register undoes itself |
| `AsmCode.IncDecUndo` | kernel/comand/asm.c:268-302 | `inc` and `dec` undo each other |
| `AsmSource.NumeralReads` | kernel/comand/asm.c:5-51 | a numeral of any sign, radix and size, in capitals or not, comes back from its text, wrapped to 32 bits, whatever blanks come before and whatever else behind |
| `AsmSource.RegisterExact` | kernel/comand/asm.c:112-130 | a word is read as a register exactly if it is one's name, and then as that register's number in the processor's encoding |
| `AsmSource.StatementReads` | kernel/comand/asm.c:59-499 | a line, with any number of spaces before, between and after its parts but none before the comma, gives exactly the code of the instruction it names |
| `AsmSource.DataNumber` | kernel/comand/asm.c:458-469 | `db` with a number puts out its lowest byte |
| `AsmSource.DataCharacter` | kernel/comand/asm.c:458-469 | `db` with a quote puts out the character behind it |
| `AsmSource.CommentSilent` | kernel/comand/asm.c:488-490 | an empty line and a comment give no code and no message |
| `AsmSource.UnknownComplains` | kernel/comand/asm.c:471-497 | a word that is no instruction gives a message and no code |
| `AsmSource.CommaMissing` | kernel/comand/asm.c:100-445 | operands without a comma: `mov` complains, the others do nothing |
| `AsmSource.PairRefused` | kernel/comand/asm.c:100-411 | `mov`, `xor`, `add`, `sub` and `cmp` refuse anything but a register in front of the comma, `xor`, `sub` and `cmp` behind it, too |
| `AsmSource.SingleRefused` | kernel/comand/asm.c:268-343 | `inc`, `dec` and `pop` refuse anything but a register |
| `AsmSource.HighRefused` | kernel/comand/asm.c:232-411 | `sub` and `cmp` refuse esp, ebp, esi and edi |
| `AsmSource.PortsOnly` | kernel/comand/asm.c:413-445 | `out` and `in` do nothing with other registers than al and ax |
| `AsmSource.BlankBeforeComma` | kernel/comand/asm.c:100-411 | with a space before the comma the same operands of `mov`, `xor`, `add`, `sub` and `cmp` give no code but a complaint |
| `AsmSource.MovRegisterLoadsZero` | kernel/comand/asm.c:100-144 | `mov` of a register loads 0 |
| `AsmSession.EncodeInstruction` | kernel/comand/asm.c:59-82 | the scanning loops split a line as `AsmText.Encode` does |
| `AsmSession.ReadNumber` | kernel/comand/asm.c:5-51 | the digit loop computes `AsmText.Strtoi` |
| `AsmSession.Assembler.AssembleLine` | kernel/comand/asm.c:720-745 | the code is appended to the buffer if it fits with a byte to spare; otherwise nothing changes |
| `AsmSession.Assembler.AssembleAll` | kernel/comand/asm.c:720-745 | a session of lines leaves in the buffer what `Assembled` says |
| `AsmSession.AssembledExact` | kernel/comand/asm.c:720-745 | a program is assembled whole exactly if its code leaves a byte of the buffer free |
| `AsmSession.SessionDecodes` | kernel/comand/asm.c:720-745 | the buffer after a session decodes to exactly the program typed |
| `AsmSession.Assembler.Run` | kernel/comand/asm.c:673-680 | the buffer gets its return, and what is called is at most its first 63 bytes |
| `AsmSession.RunAddsReturn` | kernel/comand/asm.c:673-680 | the buffer then decodes to the program with a return behind it, and ends in one exactly unless the last byte of another last instruction is C3 |
| `AsmSession.ReturnMissed` | kernel/comand/asm.c:675-677 | `mov eax, 0xC3000000` gets no return |
| `AsmSession.ExecutedExact` | kernel/comand/asm.c:524-527 | the bytes called decode to the whole finished program exactly if that has at most 63 bytes |
| `AsmStack.BalancedLeaves` | kernel/comand/asm.c:304-343 | a program that changes the stack pointer by push and pop alone, never pops more than it pushed and pops all of it leaves the return address on top, the caller's stack pointer behind it and the caller's stack as it was |
| `AsmStack.LeftoverOnTop` | kernel/comand/asm.c:304-343 | if it leaves a word, what is on top does not depend on the return address |
| `AsmSession.RunReturnsExactly` | kernel/comand/asm.c:524-562 | called with any return address, a straight-line program comes back exactly if it has at most 63 bytes with its return, its last byte is not taken for one, and its source leaves the return address on top of the stack |
| `AsmSession.DisciplinedReturns` | kernel/comand/asm.c:524-562 | a program that changes the stack pointer by push and pop alone and never pops more than it pushed comes back from every call exactly if, besides the first two, it pops all it pushed |
| `AsmSession.PushGoesElsewhere` | kernel/comand/asm.c:524-562 | `push` of a register alone does not come back but goes where the register points |
| `AsmSession.SessionReturnsExactly` | kernel/comand/asm.c:673-745 | the same as `RunReturnsExactly` for a program typed into a session |
| `AsmSession.ThirteenMovesCut` | kernel/comand/asm.c:524-527 | thirteen moves never come back |
| `NetChecksum.FoldedMeaning` | kernel/drivers/tcpip.c:123-126 | folding keeps the sum modulo 65535, and only zero gives zero |
| `NetChecksum.StampedAccepted` | kernel/drivers/tcpip.c:343-347 | with the complement of the sum in a field that was zero, any header of up to 65537 words is accepted |
| `NetChecksum.OneWordChanged` | kernel/drivers/tcpip.c:390-394 | an accepted header with one word changed is accepted exactly if the words are equal, or are 0 and FFFF and the rest is not all zero |
| `NetChecksum.NoOverflow` | kernel/drivers/tcpip.c:114-122 | up to 65537 words the 32-bit counter holds the true sum |
| `NetChecksum.OverflowBeyond` | kernel/drivers/tcpip.c:114-122 | 65538 words of FFFF exceed it |
| `NetChecksum.ChecksumsSwap` | kernel/drivers/tcpip.c:114-128 | on even lengths the checksum in the processor's byte order is the byte swap of the one in network order |
| `NetChecksum.OddPadded` | kernel/drivers/tcpip.c:120-122 | an odd last byte counts as if a zero followed |
| `NetChecksum.ChecksumOf` | kernel/drivers/tcpip.c:114-128 | the loops compute the network-order checksum |
| `NetChecksum.StampHeader` | kernel/drivers/tcpip.c:338-347 | afterwards the header is accepted, and only the checksum field has changed |
| `NetChecksum.CheckHeader` | kernel/drivers/tcpip.c:384-394 | rejects packets below 20 bytes, and of the others accepts exactly those whose header, as long as it says it is, folds to FFFF |
| `NetChecksum.SendAndReceive` | kernel/drivers/tcpip.c:330-394 | a header as sent is accepted on arrival |
| `TarArchive.UstarReads` | kernel/fs/tar.c:22-32 | a size field as POSIX.1 writes it is read back for every size below 4 GiB |
| `TarArchive.FieldReads` | kernel/fs/tar.c:22-32 | a size field of blanks, octal digits and anything else behind them gives the number, as a 32-bit word |
| `TarArchive.WalkAt` | kernel/fs/tar.c:181-198 | at every stop of the walk: a header with its fields in place, the next stop at the next header, and the zero block exactly at the end |
| `TarIndex.SearchesAgree` | kernel/fs/tar.c:316-355 | both searches find the same entry, or none, exactly if no earlier name continues the one sought with a space |
| `TarIndex.NoSpaceAgrees` | kernel/fs/tar.c:316-355 | so they agree if no name has a space |
| `TarIndex.SpaceMisleads` | kernel/fs/tar.c:316-355 | with the names `a b` and `a` they differ on `a` |
| `TarIndex.GetSize` | kernel/fs/tar.c:22-32 | the loops read the size field as specified |
| `TarIndex.Lookup` | kernel/fs/tar.c:316-339 | the data of the first matching entry, or null |
| `TarIndex.FileSize` | kernel/fs/tar.c:341-355 | the size of the first entry of that name, or -1 |
| `TarIndex.ReadFile` | kernel/fs/tar.c:316-355 | used together: the data of the first entry of that name, or none |
| `TarIndex.ListFiles` | kernel/fs/tar.c:181-198 | the walk visits exactly the headers, in order |
| `TarDirectories.CollectedExactly` | kernel/fs/tar.c:88-179 | no directory twice, parents before children even when the list is full, only directories that some entry implies (what its name has before a slash; for a directory's entry the name itself; without a leading `./`), and all of them below the cap of 100 |
| `TarDirectories.CollectedCapped` | kernel/fs/tar.c:88-132 | never more than 100 |
| `TarDirectories.Table.AddDirectory` | kernel/fs/tar.c:88-132 | in place on the table: the cleaned path appended unless empty, known or the table is full |
| `TarDirectories.Table.AddParentDirectories` | kernel/fs/tar.c:134-154 | every leading part of a path, then the path |
| `TarDirectories.Table.Collect` | kernel/fs/tar.c:156-179 | the walk collects what `Collected` says |
| `ShellEditor.RunKeeps` | kernel/shell.c:127-241 | over any keys the line stays within 255 characters and the log of commands only grows |
| `ShellEditor.RecallExact` | kernel/shell.c:200-213 | a place of the ring holds a log entry exactly if it is among the last ten |
| `ShellEditor.UpsAndDowns` | kernel/shell.c:200-241 | k ups and j downs show the entry k - j back, cursor at its end, if it is among the last ten |
| `ShellEditor.UpsThenDowns` | kernel/shell.c:200-241 | as many downs as ups lead back to the empty new line |
| `ShellEditor.Types` | kernel/shell.c:143-156 | of any typed text, exactly as much goes in at the cursor as 255 characters allow |
| `ShellEditor.Erases` | kernel/shell.c:159-172 | backspaces take characters out from the cursor back to the start |
| `ShellEditor.Deletes` | kernel/shell.c:175-187 | the delete key takes them out behind the cursor up to the end |
| `ShellEditor.MovesBack` | kernel/shell.c:175-187 | the cursor moved back, characters deleted and the cursor moved on again: exactly those behind it are gone, and it is back |
| `ShellEditor.Ignored` | kernel/shell.c:419-442 | enter on an empty line and the character 0 do nothing |
| `ShellEditor.EditEnterRecall` | kernel/shell.c:127-442 | text typed, the cursor moved back, more text typed and entered: the log gets the spliced line and up shows it |
| `ShellLine.LineEditor.Insert` | kernel/shell.c:143-156 | the shifting loop inserts at the cursor, or nothing happens at 255 characters |
| `ShellLine.LineEditor.DeleteBefore` | kernel/shell.c:159-172 | the shifting loop removes the character before the cursor |
| `ShellLine.LineEditor.DeleteAt` | kernel/shell.c:175-187 | and the one at it |
| `ShellLine.LineEditor.AddToHistory` | kernel/shell.c:190-197 | the ring takes the command, and the unbounded log grows by it |
| `ShellLine.LineEditor.PreviousHistory` | kernel/shell.c:200-213 | up, as specified on the log |
| `ShellLine.LineEditor.NextHistory` | kernel/shell.c:216-241 | down, as specified on the log |
| `ShellLine.LineEditor.HandleKey` | kernel/shell.c:419-442 | enter, backspace or a character, as specified; enter yields the line typed |
| `ShellLine.LineEditor.HandleAll` | kernel/shell.c:127-442 | any sequence of keys does to the buffer and ring what it does to the text pair and log |
| `GrepText.LinesJoined` | kernel/commands.c:662-689 | the lines of a text are those that newlines end and what is left behind the last |
| `GrepText.PrintedTwice` | kernel/commands.c:618-901 | grep of what grep printed selects from the lines the first selected |
| `GrepText.PipePrintsBoth` | kernel/commands.c:618-901 | with lines of at most 255 characters that is exactly the non-empty lines with both patterns, in order, or the message that there is no match |
| `GrepPaint.HitsExact` | kernel/commands.c:122-148 | what is marked are occurrences of the pattern, in order and apart, and every occurrence begins in one of them |
| `GrepPaint.MarkedExact` | kernel/commands.c:122-148 | character by character: red in what is marked, white behind the first, before it as it was |
| `GrepPipe.PrintHighlightedLine` | kernel/commands.c:122-148 | the line reaches screen or buffer in exactly these colours, and leaves white behind |
| `GrepPipe.Grep` | kernel/commands.c:662-689 | the line loop writes exactly the selected lines, in colour, or that there is no match, to screen or capture buffer |
| `GrepCommand.TypedReads` | kernel/commands.c:436-463 | the command line, in any spacing, is taken apart into the patterns and the file typed |
| `GrepCommand.LongPattern` | kernel/commands.c:624-638 | a pattern of more than 255 characters is cut there, and what is left of it is taken for the file |
| `GrepCommand.RunPipe` | kernel/commands.c:436-463 | the screen takes what the second grep makes, in colour, of as much of the first one's output as fits 1023 characters |
| `GrepCommand.PipeFindsBoth` | kernel/commands.c:436-463 | typed in any spacing, over a file with lines of at most 255 characters and first output of at most 1023: exactly the lines with both patterns, in order |

## Left out

- Devices: port I/O, ATA, the network card, keyboard, mouse, the clock and interrupts; the disk is an array of 512-byte
  sectors that never fails, keys are a sequence of events. Sector numbers stay below the limit of kernel/drivers/ata.c:131.
- FAT32: path strings (the operations take the list of components), the mount table and its strings, printing,
  `fat32_mkdir`, `fat32_list_directory`, `fat32_exists`, `fat32_get_file_size`, the second FAT copy, FSInfo, long names.
- FAT32: the shared sector buffer is not kept between calls: reading a sector that the device does not have gives any bytes.
  The uninitialised cluster buffers of `fat32_read` and `fat32_write` are parameters of the methods.
- FatPen.Write: counts are below 2^32 and are not turned into negative numbers.
- FatScenarios.TwoWrites: two writes that do not break at 4 GiB; what one that breaks does is said by `FatWrite.WriteFrom`.
- FatTree.View: a volume made elsewhere with a subdirectory of the root is not sound, since its `..` entry has cluster 0, which
  the code takes for a cluster in front of the data area.
- FatMount.Mount: a boot sector with no sectors per cluster, on which the code divides by zero; sectors are 512 bytes.
- FatRead.ReadClusterChain: the buffer needs room for whole clusters, since the code reads every cluster entire.
- LshControl.Simulation: one direction for scripts whose else-branches cannot be told apart; there the condition is not necessary.
- LshInterpreter.Interpreter: the interactive loop, loading from the archive, and what a command line handed to the shell
  does (it is an event); `sleep` has no effect.
- LshVars.Expanded: for `${x}` or an unclosed brace at the very end of a text the code reads one byte past the terminator;
  the model stops there.
- TermDevice.Terminal: the hardware cursor, the palette, `terminal_putchar_at` and the clock; characters are ASCII, since
  others spill into the attribute byte; changing the background.
- CalcParse.Arith: rounding of floating point and the printing of the result; the operations are abstract, or exact over the reals.
- AsmText.Encode: which message is printed (only whether one is), and the listing of the source lines.
- AsmCode.RunCode: flags, and code that writes to itself. The code is apart from the memory the program uses, though it lies on the
  same stack (kernel/comand/asm.c:524): pushes are taken not to reach it.
- NetChecksum.StampHeader: filling in the other fields of the packet; ICMP checksums, stored in the other byte order.
- TarArchive.IsArchive: archives whose names fill all 100 bytes, and `tar_path_exists` and `tar_list_directory`.
- TarDirectories.CollectedExactly: names with an empty component.
- ShellLine.LineEditor: redrawing the line, tab completion, and running the command that enter yields.
- GrepCommand.ParsePipe: its copying loops are functions on strings; the file system is a map from names to contents.
- GrepCommand.PipeFindsBoth: text with escape, backspace or zero characters.
- Memory layout, the user table and passwords, the in-memory files, the graphical interface, ELF loading and
  the other commands.
