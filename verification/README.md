# Verified models of the WiiBridge host

WiiBridge shows a console a disk that exists nowhere. The host serves its bytes over NBD from read-only
disc images, synthesized MBR/FAT32 metadata and, for the GameCube, memory cards that the console writes.
This project models that storage stack, and three small state machines beside it, in Dafny, and proves
that what the console reads and writes is one flat disk whatever the layers underneath do.
`dafny verify dfyconfig.toml` checks everything.

## How the parts fit

- **GameCube save cards** (`SaveJournal`, `SaveDisk`, `SaveBlocks`, `SaveOverlay`, `SaveRecovery`, `SaveRuns`,
  `SavePowerCuts`). A card is a base image, a map of dirty 512-byte blocks and an append-only journal. The
  class `SaveDisk.FileSystem` keeps the directory and, as `history`, every durable state it ever passed through; a
  power cut leaves any of these states, and any step may fail. The class `SaveOverlay.SaveCard` is the open
  card. `Contents` is what reads observe, `limbo` what a restart that accepts the journal would yield; on an
  `Intact` card they are the same and the counters cover the whole journal. Operations carry a `Promise`: every
  durable state since some point opens to one of two cards, or to none; a sound promise adds that a whole
  previous card decides and that the metadata is this card's, which fixes when a state whose journal loads
  opens (`SaveDisk.Survives`). `SaveRecovery.OpenCard` is startup; `OpensTo` is its pure reference. `SaveRuns`
  composes them into whole runs, and `SavePowerCuts` says what one power cut costs.
- **Wii disk** (`WiiGeometry`, `WiiLayout`, `WiiFat`, `WiiDisk`, `WiiRecords`, `WiiBuild`, `WiiDriver`, `WiiVolume`,
  `WiiLibrary`). Geometry choice, segments, run-length FAT chains synthesized sector by sector, source extents,
  boot records, the two directories, and a `ReadAt` that equals one flat image. `WiiVolume` mounts that image from
  its first sector, decoding partition table and boot sector, and finds files by name;
  `WiiLibrary.LibraryReadable` concludes that every file of every scanned library is read back.
- **GameCube disk** (`VirtualExtents`, `LongNames`, `Fat32Geometry`, `Fat32Build`, `Fat32Backend`,
  `Fat32Theorems`, `Fat32Driver`, `Fat32Lookup`, `Fat32Volume`). The FAT32 builder, its long names, and a backend that layers
  save cards over metadata over sources over zeros by binary search. The table it writes is proved equal to the run-length table
  of `WiiFat`, so the same driver serves both disks: `FatBoot` mounts, `FatDirectory` scans directories and `FatDriver` follows
  links, each from bytes only and with the format's numbers written out. `Fat32Lookup` follows a path from the
  root cluster to a file's bytes, `Fat32Volume` starts from the first sector. The backend's `SaveStore`
  assumes that a call on a card takes full effect or none. That is how a `SaveOverlay.SaveCard` behaves as long as
  no write fails midway; a card whose base image cannot be read after an append, or whose checkpoint and rollback
  both fail, does not.
- **NBD transmission** (`Nbd`). `Parse` is the framing, independent of any export; the server is proved to cut
  the stream exactly as `Parse` does, to answer every request once, in order, and to sync for every flush.
- **Rolling counters, export manager, catalog, CISO** (`RollingRates`, `ExportManager`, `Catalog`, `Ciso`).
- `Basics`, `Bytes`, `FatInfo` and `Search` hold shared definitions; `Search.FirstIndex` is Go's `sort.Search`.

A `reliable` or `sound` flag marks a run in which storage does not fail. With it the methods promise success;
without it every storage step may fail at any time, reads of a card's base image included, and a partial read
may deliver any prefix.

## What the proofs found

- After a power cut in a checkpoint startup can refuse the card. `SavePowerCuts.CheckpointThenPowerCut` gives
  the exact condition for every durable state, faults included: it opens if and only if the journal loads and a
  previous card, when present, is whole, and otherwise at most one image is staged and the metadata knows the
  active image. Two states fail it. Where hard links do not exist, every checkpoint passes through an incomplete copy of the card
  (`SavePowerCuts.CheckpointWithoutLinks`); and when a late step fails, the rollback passes through the old
  image beside the new metadata (`SavePowerCuts.RollbackThenPowerCut`). Where no call fails and hard links
  exist, a checkpoint that starts with nothing else staged is never refused.
- A write adds one more refused state: a journal that stops inside the record being appended. Everything else a
  power cut can leave during a write opens as after a checkpoint (`SavePowerCuts.WriteThenPowerCut`), as long as
  the counters cover the journal.
- Every restore that succeeds without a previous card passes through a refused state: the selected backup and
  its copy are both staged, which startup takes as a conflict (`SavePowerCuts.RestorePassesConflict`).
- A second power cut right after the rename of a startup rollback opens only when the metadata knows the old
  image and at most one image is staged (`SavePowerCuts.RollbackGap`).
- A write can fail with its record whole in the journal: when the sync of the append fails, which blocks the card,
  or when the append succeeds and a block of the base image cannot be read, which does not. In the second case the
  card keeps a prefix of the write, which its answer counts, and the counters miss the record. Three properties
  then fail, each with a run that shows it and a condition that says exactly when.
  - A restore that finds nothing dirty leaves the journal, and the next startup lays the record over the restored
    image (`SavePowerCuts.FailedWriteOutlivesRestore`). `SaveOverlay.SaveCard.Restore`: after success a startup
    yields the chosen bytes or refuses, unless and only unless nothing was dirty and the journal leads the chosen
    image to another card. With dirty blocks the flush of the restore can open to the record as well
    (`SavePowerCuts.FlushOpensToFailedWrite`).
  - An acknowledged write can leave a journal that startup refuses (`SavePowerCuts.AcknowledgedThenRefused`).
    `SaveOverlay.SaveCard.WriteSaveAt`: afterwards the journal loads if and only if the write began with a
    checkpoint, or the real journal, whatever the counters say, had room for the record within both limits.
  - A failed write can show in part, and after a restart in full (`SavePowerCuts.PrefixThenWhole`).
    `SaveOverlay.SaveCard.WriteSaveAt` and `SaveRuns.RunLive`: of every write exactly the bytes that its answer
    counts are on the card.

  A checkpoint that has something to flush ends all three: a card that is not blocked is intact again.
- Up to about 2 GiB the two-pass FAT sizing can leave a table shorter than the clusters the boot sector implies;
  `Fat32Geometry.TableCoversExactly` says exactly when, and `TableCoversAbove` gives the largest such size.
  `CalculateLibrarySize` never returns one.
- The tree builder looks for duplicates among whole file paths, so a file and a directory of one name can stand side
  by side; where the file comes first, no driver reaches what is in the directory
  (`Fat32Lookup.TwinHidesDirectory`). A child is found under its own name exactly if none before it has that name
  (`Fat32Lookup.FoundUnderOwnName`).
- The Wii builder takes the checksum of a short name before it puts the name in capitals, so a game id with small
  letters would hide its long name (`WiiRecords.SmallLettersHide`); a driver accepts the long name exactly if both
  checksums agree (`WiiRecords.LongNameAccepted`). The scanner admits no such id.
- In `CalculateLibrarySize` the overflow checks are redundant in effect: every library they refuse exceeds the
  format as well, so exact arithmetic decides the same way.

## Model

| member | source | states |
|---|---|---|
| `SaveRuns.RunSteps` | server/host-daemon/gamecube/saveoverlay.go:367-1172 | over any sequence of writes, reads, flushes, backups, restores and uploads with faults, power cuts and restarts anywhere, a card that still opens holds the start image with the steps' parts applied in order: the whole of an acknowledged step, of any other a prefix of its write, the image of its exchange, or nothing; only runs in which a restore or upload follows a write that failed are excepted; where no call fails and hard links exist, the writes, reads and flushes acknowledged are exactly those in range and within the limits, and without a power cut the run opens exactly when the reference says and stops nowhere |
| `SaveRuns.RunLive` | server/host-daemon/gamecube/saveoverlay.go:438-1172 | without power cuts the card is one flat array whatever fails, base reads included: it holds, in order, of each write exactly the bytes that its answer counts and the images of the exchanges that took place; the bytes that a read counts are what the array held at that moment; automatic flushes do not show; a card on working storage grants exactly the requests in range and within the limits |
| `SaveRuns.Advance` | server/host-daemon/gamecube/saveoverlay.go:367-1172 | one step of such a run, with or without a power cut and restart, keeps that account unless it exchanges the card over the journal of a failed write |
| `SaveRuns.Perform` | server/host-daemon/gamecube/saveoverlay.go:438-1172 | every durable state an action passes through reopens to the card or what its journal had made of it, before or after the action; the answer says what was done; on working storage exactly the plain requests within range and limits succeed; only a failed write ends an intact card |
| `SaveRuns.InterruptedStartups` | server/host-daemon/gamecube/saveoverlay.go:367-418 | any number of startups, each beginning with the disk at which the one before was cut off and on storage that may fail, still lead to the same card; each that works comes to its end exactly when its disk opens, and leaves the journal empty; the last opens the card exactly when its disk does |
| `SavePowerCuts.CheckpointThenPowerCut` | server/host-daemon/gamecube/saveoverlay.go:642-762 | a power cut at any durable step of a checkpoint, on storage where any call may fail, is followed by a startup that succeeds exactly when the journal loads and the previous card is whole or, without one, at most one image is staged and the metadata knows the active image by identity or checksum; an intact card comes back as it was, any other as it was or as its journal has it; where no call fails the checkpoint takes place, and with links only staged leftovers can stop a card whose journal loads |
| `SavePowerCuts.CheckpointWithoutLinks` | server/host-daemon/gamecube/saveoverlay.go:1508-1513 | where hard links do not exist and nothing fails, every checkpoint succeeds and passes through a state that startup refuses |
| `SavePowerCuts.RollbackThenPowerCut` | server/host-daemon/gamecube/saveoverlay.go:1527-1556 | a run of a checkpoint whose marker cannot be removed, cut between the rollback rename and its metadata write, leaves the old image beside the new metadata, and startup refuses it |
| `SavePowerCuts.RollbackGap` | server/host-daemon/gamecube/saveoverlay.go:1602-1613 | a startup rollback of any sound directory, whatever its journal and marker, cut right after its rename, opens again exactly when the journal loads and either the rename moved nothing or at most one image is staged and the metadata knows the old image, and then to what the rollback would have yielded |
| `SavePowerCuts.InterruptedRollback` | server/host-daemon/gamecube/saveoverlay.go:1558-1635 | every durable state that a startup rollback of a sound directory passes through, on storage where any call may fail, stays sound and opens exactly under the condition of a checkpoint, to the card the base and the journal make; success means rolled back, and on working storage it succeeds exactly without a previous card or with a whole one |
| `SavePowerCuts.WriteThenPowerCut` | server/host-daemon/gamecube/saveoverlay.go:478-566 | a power cut at any durable step of a write, automatic checkpoints and faults included, is followed by a startup that succeeds exactly under the condition of a checkpoint and when the journal loads; while all records are counted, it does not load exactly when it stops inside the new record; an intact card comes back before or after the write; where no call fails, a write within the limits is done |
| `SavePowerCuts.RestoreThenPowerCut` | server/host-daemon/gamecube/saveoverlay.go:945-1172 | a power cut at any durable step of a restore, faults included, is followed by a startup that succeeds under the same exact condition, blocked cards included, and yields the old card, what its journal had made of it, or what a restart makes of the chosen image; an intact card comes back old or chosen; where no call fails and the safety backup can be taken, the restore is done |
| `SavePowerCuts.RestorePassesConflict` | server/host-daemon/gamecube/saveoverlay.go:945-1172 | every restore that succeeds without a previous card passes through a state that startup refuses; where hard links exist, one with two staged images |
| `SavePowerCuts.RestoreAndUndo` | server/host-daemon/gamecube/saveoverlay.go:945-992 | restoring the safety backup of a restore brings the replaced card back; on working storage, with every backup described, going there and back always succeeds |
| `SavePowerCuts.FailedWriteOutlivesRestore` | server/host-daemon/gamecube/saveoverlay.go:524-566 | two runs: an append reaches the disk whole and its sync fails, which blocks the card, or the base read behind a good append fails, which does not; a restore succeeds, power is lost, and the next startup yields the restored image with the unacknowledged record laid over it |
| `SavePowerCuts.FlushOpensToFailedWrite` | server/host-daemon/gamecube/saveoverlay.go:642-762 | after either failure a power cut in the flush of a restore makes startup yield the record that nobody acknowledged |
| `SavePowerCuts.AcknowledgedThenRefused` | server/host-daemon/gamecube/saveoverlay.go:524-549 | a run: a base read fails behind a good append, so the counters miss the record; a later write within the limits is acknowledged, and startup refuses the card because the two records together exceed a limit |
| `SavePowerCuts.PrefixThenWhole` | server/host-daemon/gamecube/saveoverlay.go:524-539 | a run: a write longer than a block fails on its second base block; the first part of it shows until a restart, which shows all of it |
| `SaveRecovery.OpenCard` | server/host-daemon/gamecube/saveoverlay.go:367-418 | a card that opens, on any storage, holds exactly what the base and the journal of the directory make, intact and with an empty journal, and is confirmed if the metadata told the truth; on reliable storage that can keep the card it opens exactly when the pure reference `OpensTo` says so |
| `SaveRecovery.RecoverInterruptedActivation` | server/host-daemon/gamecube/saveoverlay.go:1558-1635 | rolls back to the previous image exactly when one exists and is trusted, through the state right after its rename; every durable state in between keeps the promise, soundness included |
| `SaveRecovery.PrepareDirectory` | server/host-daemon/gamecube/saveoverlay.go:367-390 | rollback, validation and the conflict check leave the image the journal belongs to as the active one, and on a reliable directory succeed exactly when the reference does |
| `SaveRecovery.ValidateCardFiles` | server/host-daemon/gamecube/saveoverlay.go:1319-1353 | accepts exactly the images whose identity or checksum the metadata vouches for |
| `SaveRecovery.RejectCheckpointConflicts` | server/host-daemon/gamecube/saveoverlay.go:1455-1481 | refuses more than one staged image and otherwise changes nothing startup decides on |
| `SaveRecovery.LoadJournal` | server/host-daemon/gamecube/saveoverlay.go:568-621 | loads only journals the reference decoder accepts, into dirty blocks whose overlay is the replay, and refuses another only when a read fails |
| `SaveOverlay.SaveCard.ReadSaveAt` | server/host-daemon/gamecube/saveoverlay.go:438-476 | the bytes that the result counts are those of the one flat card, all that were requested unless a base read fails; exactly the ranges outside it are refused |
| `SaveOverlay.SaveCard.ReadMixed` | server/host-daemon/gamecube/saveoverlay.go:451-475 | the block loop with coalesced clean spans reads the flat card, up to the first base read that fails |
| `SaveOverlay.SaveCard.CleanRun` | server/host-daemon/gamecube/saveoverlay.go:460-465 | a coalesced span contains no dirty block |
| `SaveOverlay.SaveCard.WriteSaveAt` | server/host-daemon/gamecube/saveoverlay.go:478-550 | the bytes that the result counts, and no others, change on the flat card: all of a successful write, a prefix when the base cannot be read behind the append, none otherwise; range, blocking and the limits refuse exactly as coded, and on working storage nothing else does; every durable state lands on the card or what its journal had made of it, before or after the write; an intact card stays so unless append or base read fail; afterwards startup accepts the journal exactly when a checkpoint made room or the real journal, uncounted records included, had room |
| `SaveOverlay.SaveCard.LoadsWithinLimits` | server/host-daemon/gamecube/saveoverlay.go:568-592 | startup accepts the journal of an open, unblocked card exactly when all its records, counted or not, are within both limits |
| `SaveOverlay.WithinLimitsMeans` | server/host-daemon/gamecube/saveoverlay.go:478-523 | the limits admit a request exactly if startup would accept a journal of this one record and the 512-byte blocks that it touches may all be dirty |
| `SaveOverlay.SaveCard.MakeRoom` | server/host-daemon/gamecube/saveoverlay.go:500-516 | automatic flushes are invisible and leave room under every limit |
| `SaveOverlay.SaveCard.AppendJournal` | server/host-daemon/gamecube/saveoverlay.go:552-566 | after a torn or failed append the journal still leads to one card, the one without the record or the one with it |
| `SaveOverlay.SaveCard.Absorb` | server/host-daemon/gamecube/saveoverlay.go:524-539 | the dirty blocks take in exactly the bytes counted, all of them unless a base read fails, and one new block per block touched for the first time |
| `SaveOverlay.SaveCard.FlushCard` | server/host-daemon/gamecube/saveoverlay.go:642-762 | checkpoint: contents unchanged, dirty blocks and journal emptied on success, the card kept on any single fault, and every durable state endures, faults included; success without hard links passes through a refused state |
| `SaveOverlay.SaveCard.ReplaceBase` | server/host-daemon/gamecube/saveoverlay.go:655-738 | the base becomes the flat card while the journal still leads to it |
| `SaveOverlay.SaveCard.StageCheckpoint` | server/host-daemon/gamecube/saveoverlay.go:655-697 | the checkpoint file holds the flat card and nothing else changes |
| `SaveOverlay.SaveCard.Install` | server/host-daemon/gamecube/saveoverlay.go:698-738 | previous image, activation, metadata and commit as one step that a crash anywhere leaves openable, undone on failure |
| `SaveOverlay.SaveCard.PreparePrevious` | server/host-daemon/gamecube/saveoverlay.go:1491-1515 | the previous image is a link or full, validated copy of the active one and decides startup; where links are missing and the checksum is right it still succeeds |
| `SaveOverlay.SaveCard.CopyPrevious` | server/host-daemon/gamecube/saveoverlay.go:994-1024 | the copy that stands in for a hard link: whole and checked on success, an incomplete one that startup refuses on the way |
| `SaveOverlay.SaveCard.CommitPrevious` | server/host-daemon/gamecube/saveoverlay.go:1517-1525 | removing the previous image makes the confirmed active one decide |
| `SaveOverlay.SaveCard.RestorePrevious` | server/host-daemon/gamecube/saveoverlay.go:1527-1556 | a rollback restores the previous image, or leaves a state in which startup still decides; on the way the old image stands beside the metadata as they were |
| `SaveOverlay.SaveCard.ResetJournal` | server/host-daemon/gamecube/saveoverlay.go:739-752 | the journal goes only after the base has absorbed it |
| `SaveOverlay.SaveCard.BackupCard` | server/host-daemon/gamecube/saveoverlay.go:871-943 | stores the card under the new name with a description that carries its checksum, keeps exactly the newest configured number of backups and their descriptions, and keeps the promise throughout |
| `SaveOverlay.SaveCard.PruneBackups` | server/host-daemon/gamecube/saveoverlay.go:1701-1737 | keeps exactly the newest backups up to the configured number, byte for byte and with their descriptions |
| `SaveOverlay.SaveCard.Backup` | server/host-daemon/gamecube/saveoverlay.go:843-869 | a backup is the flat card, described by its checksum, and taking one does not change the card |
| `SaveOverlay.SaveCard.SafetyBackup` | server/host-daemon/gamecube/saveoverlay.go:980-985 | before a restore or upload replaces it, the card as it stands is stored and described under the given name; no older backup is kept in place of a newer one |
| `SaveOverlay.SaveCard.NewestBackupSound` | server/host-daemon/gamecube/saveoverlay.go:871-943 | a backup under the newest name outlives the pruning and can be restored |
| `SaveOverlay.SaveCard.ActivateCandidate` | server/host-daemon/gamecube/saveoverlay.go:1097-1172 | the card becomes the validated candidate, or stays as it was |
| `SaveOverlay.SaveCard.Restore` | server/host-daemon/gamecube/saveoverlay.go:945-992 | success means the chosen bytes of a backup described for this card with their checksum, even when the safety backup prunes them; that backup holds the card as it was, under the given name, and the newest configured number of backups is kept with their descriptions; every durable state, on any card, opens to the old card, to what its journal had made of it, or to what a restart makes of the chosen image, and is as sound as the card was; after success the next startup yields the chosen bytes or refuses, unless and only unless nothing was dirty and the journal leads the chosen image elsewhere; an intact card stays intact |
| `SaveOverlay.SaveCard.Upload` | server/host-daemon/gamecube/saveoverlay.go:1026-1079 | as for a restore, the safety backup of the old card included; a stream of any other length is refused and leaves the card, and every durable state keeps its promise |
| `SaveJournal.JournalRoundTrip` | server/host-daemon/gamecube/saveoverlay.go:552-621 | parsing an encoded journal gives back its records, then whatever follows |
| `SaveJournal.RecordLayout` | server/host-daemon/gamecube/saveoverlay.go:552-566 | mark, offset, length, checksum and data lie where the format has them |
| `SaveJournal.WholeJournalAccepted` | server/host-daemon/gamecube/saveoverlay.go:568-621 | a journal of whole records decodes to the same writes, exactly when their payload is within the limit |
| `SaveJournal.ReplayAgrees` | server/host-daemon/gamecube/saveoverlay.go:524-539 | two cards that differ only inside the last record are one card after the replay |
| `SaveJournal.TornJournalRejected` | server/host-daemon/gamecube/saveoverlay.go:583-595 | a journal that ends in a proper prefix of a record is refused |
| `SaveJournal.ParseOnto` | server/host-daemon/gamecube/saveoverlay.go:568-621 | only encodings of the parsed records are accepted |
| `SaveJournal.ReplayIdempotent` | server/host-daemon/gamecube/saveoverlay.go:568-621 | replaying a journal over its own result changes nothing |
| `SaveBlocks.OverlayPatch` | server/host-daemon/gamecube/saveoverlay.go:524-539 | writing into one dirty block patches the flat card |
| `SaveBlocks.OverlayIdempotent` | server/host-daemon/gamecube/saveoverlay.go:668-682 | overlaying the flat card again gives the flat card |
| `SaveDisk.SoundOpens` | server/host-daemon/gamecube/saveoverlay.go:367-418 | exactly when a sound state of the directory can be opened, and to what; under a sure promise only staged images and the journal can be in the way |
| `SaveDisk.OpensWhereItLands` | server/host-daemon/gamecube/saveoverlay.go:367-418 | a directory that opens at all opens to a card it lands on |
| `WiiLibrary.LibraryReadable` | server/host-daemon/vdisk/vdisk.go:170-313 | every file of every library of scanned games with whole sources is read back by its name from the first sector on: the driver mounts the volume, reads either table copy, finds WBFS in the root and the file in WBFS, and byte b of the j-th cluster it is led to is byte j * cluster + b of the file, zeros behind its end |
| `WiiVolume.DiskToBytes` | server/host-daemon/vdisk/vdisk.go:170-313 | the same for any library whose names fit one long entry, whose short names have no small letters, and where no earlier file has the name |
| `WiiVolume.DiskMounts` | server/host-daemon/vdisk/vdisk.go:221-231 | the partition table and the boot sector, read off the disk and decoded, give the volume that the builder laid out: the same clusters, both table copies, the root in cluster 2, the last byte of the disk; boot and information sector have equal backups |
| `WiiVolume.FileFound` | server/host-daemon/vdisk/vdisk.go:264-285 | looking a file up by name, from the root cluster through the bytes of both directories, gives its first cluster and size |
| `WiiVolume.RecordsOnDisk` | server/host-daemon/vdisk/vdisk.go:221-231 | sector 0, the first two sectors of the partition and their backups six sectors on read back as rendered |
| `WiiVolume.RootOnDisk` | server/host-daemon/vdisk/vdisk.go:265-281 | the root cluster reads as the root directory, zeros behind it |
| `WiiVolume.DirectoryOnDisk` | server/host-daemon/vdisk/vdisk.go:267-285 | the clusters from 3 on read as the WBFS directory, zeros behind it |
| `WiiVolume.DirectoryFits` | server/host-daemon/vdisk/vdisk.go:194-202 | two entries for each file and two more fit the clusters reserved for the directory |
| `WiiVolume.DiskIdentity` | server/host-daemon/vdisk/vdisk.go:209-226 | disk and volume carry the same signature, never zero, and the volume is called WIIBRIDGE |
| `WiiVolume.HintOnDisk` | server/host-daemon/vdisk/vdisk.go:227-231 | the information sector has its marks, and its hint is the first free cluster of the table |
| `WiiVolume.RootLabelled` | server/host-daemon/vdisk/vdisk.go:265-267 | the root directory begins with the volume name |
| `WiiLibrary.ScannedPresentable` | server/host-daemon/vdisk/vdisk.go:183-193 | in a library of scanned games every name fits and no file hides another |
| `WiiLibrary.NamesDiffer` | server/host-daemon/vdisk/vdisk.go:183-193 | no two files of a library of scanned games have the same name |
| `WiiLibrary.NumberFits` | server/host-daemon/vdisk/vdisk.go:183-193 | no segment of a disk that can be built has a number of four digits, so its name fits one long entry |
| `WiiRecords.MakeDirectory` | server/host-daemon/vdisk/vdisk.go:268-280 | the directory, entry pair by entry pair |
| `WiiRecords.FilesScan` | server/host-daemon/vdisk/vdisk.go:268-280 | scanning the directory finds exactly the files, under their names, in order, behind the dot entries |
| `WiiRecords.LongNameAccepted` | server/host-daemon/vdisk/vdisk.go:714-740 | a driver accepts a long name exactly if the checksum of the short name as derived equals that of the short name as stored, in capitals |
| `WiiRecords.SmallLettersHide` | server/host-daemon/vdisk/vdisk.go:714-740 | a short name with small letters, which no scanned id leads to, hides the long one: a concrete name |
| `WiiDriver.DriverReadsBytes` | server/host-daemon/vdisk/vdisk.go:243-313 | a driver that decodes each link from the bytes of either table copy visits exactly the file's clusters; byte b of the j-th is byte j * cluster + b of the file |
| `WiiBuild.DriverReadsFile` | server/host-daemon/vdisk/vdisk.go:243-313 | byte b of the j-th cluster met by following the table is byte j * cluster + b of the file: its slice of the concatenated sources, then zeros |
| `WiiBuild.FollowsFile` | server/host-daemon/vdisk/vdisk.go:243-263 | the table leads from a file's first cluster through exactly ceil(length / cluster) clusters to the end mark |
| `WiiBuild.FileOnDisk` | server/host-daemon/vdisk/vdisk.go:287-313 | every position of a file's clusters holds that file or its padding on the flat disk |
| `WiiBuild.Build` | server/host-daemon/vdisk/vdisk.go:170-337 | a built disk has the first fitting geometry, the layout below and the rendered records; the allocation check never fails and contiguous sources never meet a gap |
| `WiiBuild.BuiltIsWellFormed` | server/host-daemon/vdisk/vdisk.go:231-313 | every built disk meets what reading relies on, and its extents tile the file clusters without gap |
| `WiiBuild.FreeClusters` | server/host-daemon/vdisk/vdisk.go:239-263 | a table entry is zero exactly behind the allocated clusters |
| `WiiBuild.FreeCountOnDisk` | server/host-daemon/vdisk/vdisk.go:239-242 | the free count that a driver reads equals the zero entries of the disk's clusters, and is neither 0 nor 0xffffffff |
| `WiiBuild.InfoFree` | server/host-daemon/vdisk/vdisk.go:704-712 | the information sector carries the geometry's free clusters |
| `WiiBuild.AllocateRuns` | server/host-daemon/vdisk/vdisk.go:243-263 | runs are handed out in order without overlap and always add up to the geometry |
| `WiiBuild.MapFile` | server/host-daemon/vdisk/vdisk.go:288-311 | the extents of a file, source piece by source piece, then padding |
| `WiiBuild.MapFiles` | server/host-daemon/vdisk/vdisk.go:287-313 | the extents of all files from cluster to cluster |
| `WiiBuild.SameClusters` | server/host-daemon/vdisk/vdisk.go:124-137 | geometry selection and allocation count the same clusters |
| `WiiLayout.SplitGames` | server/host-daemon/vdisk/vdisk.go:183-199 | the loop gives exactly the segments below |
| `WiiLayout.SegmentsTile` | server/host-daemon/vdisk/vdisk.go:184-198 | segments tile each game without gap or overlap |
| `WiiLayout.SegmentFitsChainLength` | server/host-daemon/vdisk/vdisk.go:30-34 | no segment reaches 4 GiB when rounded up to clusters |
| `WiiLayout.ContiguousLocates` | server/host-daemon/vdisk/vdisk.go:339-346 | contiguous sources answer every offset of the image |
| `WiiLayout.NeverGap` | server/host-daemon/vdisk/vdisk.go:292-296 | no contiguous library meets the extent-gap error |
| `WiiLayout.PiecesContent` | server/host-daemon/vdisk/vdisk.go:290-307 | the pieces of a file hold the concatenated sources |
| `WiiLayout.AllContent` | server/host-daemon/vdisk/vdisk.go:287-313 | over a file's clusters the extent list holds that file, whatever surrounds it |
| `WiiLayout.AllTile` | server/host-daemon/vdisk/vdisk.go:287-313 | all extents together tile the payload |
| `WiiGeometry.SelectDiskGeometry` | server/host-daemon/vdisk/vdisk.go:106-168 | takes the first fitting cluster size, and refuses only negative sizes or when none fits |
| `WiiGeometry.TryCluster` | server/host-daemon/vdisk/vdisk.go:122-166 | the early exits refuse exactly the candidates that do not fit |
| `WiiGeometry.FitsExactly` | server/host-daemon/vdisk/vdisk.go:122-166 | a cluster size fits exactly if some FAT32 volume of at most 2^32 sectors with such clusters has room for the files, the directories, a free cluster and two whole tables |
| `WiiGeometry.SmallestFitting` | server/host-daemon/vdisk/vdisk.go:106-121 | from 32 GiB on clusters have 64 sectors; below, the smallest of four sizes that fits is taken |
| `WiiGeometry.ClassifyMeaning` | server/host-daemon/vdisk/vdisk.go:107-121 | the 32 KiB layout is forced exactly from 32 GiB of payload on |
| `WiiGeometry.GeometrySound` | server/host-daemon/vdisk/vdisk.go:136-165 | an accepted geometry has 65525 to 0x0fffffee clusters, one free, a table large enough for all entries, and fits MBR and 32-bit LBA |
| `WiiGeometry.ClustersForBytes` | server/host-daemon/vdisk/vdisk.go:99-104 | the smallest number of clusters that holds the bytes |
| `WiiGeometry.RoundUpAgrees` | server/host-daemon/vdisk/vdisk.go:259-259 | the two ways of rounding up agree |
| `WiiFat.OwnedEntry` | server/host-daemon/vdisk/vdisk.go:412-434 | inside a run each entry leads to the next cluster and the last one ends the chain |
| `WiiFat.FreeEntry` | server/host-daemon/vdisk/vdisk.go:412-434 | an entry that no run owns is zero |
| `WiiFat.OneOwner` | server/host-daemon/vdisk/vdisk.go:412-434 | no cluster belongs to two files |
| `WiiFat.FollowReadsRun` | server/host-daemon/vdisk/vdisk.go:412-434 | following the table visits exactly the run, in order, and stops |
| `WiiFat.EntryDecodes` | server/host-daemon/vdisk/vdisk.go:436-465 | the four table bytes of a cluster decode to its entry |
| `WiiFat.ReservedEntries` | server/host-daemon/vdisk/vdisk.go:412-418 | the two reserved entries, byte by byte |
| `WiiFat.FillFatSector` | server/host-daemon/vdisk/vdisk.go:436-465 | one search and a walk over runs write exactly the bytes that entry-by-entry lookup gives |
| `WiiDisk.ReadAt` | server/host-daemon/vdisk/vdisk.go:513-623 | every read returns the bytes of one flat image, or a correct prefix and the source failure; it fails exactly for ranges outside the disk or on a source |
| `WiiDisk.ReadGap` | server/host-daemon/vdisk/vdisk.go:554-563 | clearing to the end of a sector never hides payload |
| `WiiDisk.ReadExtent` | server/host-daemon/vdisk/vdisk.go:564-618 | reading across a whole extent never crosses metadata |
| `WiiDisk.ReadFat` | server/host-daemon/vdisk/vdisk.go:531-541 | partial and whole table sectors read the same table |
| `WiiDisk.FatCopiesAgree` | server/host-daemon/vdisk/vdisk.go:403-410 | both table copies read identically at every byte |
| `WiiDisk.FatSectorIndex` | server/host-daemon/vdisk/vdisk.go:403-410 | a sector shows the table exactly inside one of the two copies |
| `WiiDisk.ImageSplit` | server/host-daemon/vdisk/vdisk.go:513-623 | splitting a read changes nothing |
| `Fat32Driver.DriverReadsBytes` | server/host-daemon/fat32virtual/layout.go:194-294 | a driver that knows the disk's bytes only: the directory entry decodes to the file's first cluster and size, each link is decoded from table bytes, and byte b of the j-th cluster visited is byte j * 32768 + b of the source or save file, zeros behind its end |
| `Fat32Volume.DiskToBytes` | server/host-daemon/fat32virtual/layout.go:194-307 | from the first sector on, through nothing but the disk: on the volume that the driver mounts, by either table copy, a path from the root cluster leads to the file with its size, and byte b of the j-th cluster is byte j * 32768 + b of the source or save file, zeros behind its end |
| `Fat32Volume.DiskMounts` | server/host-daemon/fat32virtual/layout.go:227-242 | the partition table and the boot sector of every built disk, read off it and decoded, give the volume that the builder laid out, which ends with the disk; boot and information sector have equal backups |
| `Fat32Volume.RecordsOnDisk` | server/host-daemon/fat32virtual/layout.go:227-242 | sector 0, the first two sectors of the partition and their backups six sectors on read back as rendered |
| `Fat32Volume.DiskIdentity` | server/host-daemon/fat32virtual/layout.go:189-193 | disk and volume carry the same identity, never zero, and the volume its name |
| `Fat32Volume.HintOnDisk` | server/host-daemon/fat32virtual/layout.go:233-242 | the information sector has its marks, and its hint is the first free cluster of the table, or 0xffffffff if there is none |
| `Fat32Driver.BuiltMounts` | server/host-daemon/fat32virtual/layout.go:194-307 | every disk that the builder makes meets what that driver relies on, by either copy of the table |
| `Fat32Driver.EntryNamesFile` | server/host-daemon/fat32virtual/layout.go:504-545 | the entry of a file, read off the disk, names its first cluster and its size |
| `FatDriver.ChaseVisitsRun` | server/host-daemon/vdisk/vdisk.go:412-434 | links decoded from table bytes, 28 bits each, visit exactly a run, in order, and stop at a mark from 0x0ffffff8 on |
| `FatBoot.Mounts` | server/host-daemon/fat32virtual/layout.go:596-631 | a driver that decodes partition table and boot sector gets the volume that was written |
| `FatBoot.BootIdentity` | server/host-daemon/fat32virtual/layout.go:609-631 | media byte, hidden sectors, identity and name lie where the format has them |
| `Fat32Lookup.PathToBytes` | server/host-daemon/fat32virtual/layout.go:194-294 | a driver that starts at the root cluster of its volume, knows nothing but the disk's bytes, and decodes directory slots, long names with a checksum of its own, and links finds a file under its path, with its size and attribute, and byte b of the j-th cluster is byte j * 32768 + b of the source or save file, zeros behind its end |
| `Fat32Lookup.FollowsTree` | server/host-daemon/fat32virtual/layout.go:359-423 | whatever path the driver follows from any directory, the disk leads it exactly where the tree does, or nowhere when the tree has no such node |
| `FatDirectory.DirectoryScans` | server/host-daemon/fat32virtual/layout.go:504-545 | scanning a directory's bytes slot by slot finds exactly its children, in order, each under its long name, behind the dot entries |
| `Fat32Lookup.DirectoryRead` | server/host-daemon/fat32virtual/layout.go:256-264 | chasing a directory's clusters from its first one on reads exactly its bytes |
| `Fat32Lookup.DirectoryLeads` | server/host-daemon/fat32virtual/layout.go:504-524 | the root's clusters begin with the volume name, those of any other directory with itself and its parent, which is 0 for the root |
| `FatDirectory.LongEntriesBelong` | server/host-daemon/fat32virtual/layout.go:547-607 | the long entries of a child count down from the marked one, carry the checksum that the driver computes from its short name, and decode to its name |
| `FatDirectory.ChecksumIs` | server/host-daemon/fat32virtual/layout.go:588-594 | the checksum in the long entries is the one that a driver computes, turning the sum right by one bit before each byte |
| `FatDirectory.ChecksumOfGameIso` | server/host-daemon/fat32virtual/layout.go:588-594 | the checksum of one short name as a number |
| `Fat32Lookup.FoundUnderOwnName` | server/host-daemon/fat32virtual/layout.go:504-545 | a child is found under its own name exactly if none before it in the directory has that name |
| `Fat32Lookup.TwinHidesDirectory` | server/host-daemon/fat32virtual/layout.go:359-401 | the check for duplicates does not keep names apart: a file beside a directory of the same name hides what is in it |
| `Fat32Theorems.DriverReadsFile` | server/host-daemon/fat32virtual/layout.go:194-294 | byte b of the j-th cluster met by following the table is byte j * 32768 + b of the source or save file, zeros behind its end |
| `Fat32Theorems.FileOnDisk` | server/host-daemon/fat32virtual/layout.go:265-294 | a file's clusters hold exactly its source or card bytes, then zeros |
| `Fat32Theorems.TableOnDisk` | server/host-daemon/fat32virtual/layout.go:243-255 | either table copy reads, byte for byte, as the run-length table |
| `Fat32Theorems.FreeCountOnDisk` | server/host-daemon/fat32virtual/layout.go:233-242 | the free count stored on the disk equals the number of zero entries of the clusters the disk has |
| `Fat32Theorems.StretchOnDisk` | server/host-daemon/fat32virtual/layout.go:222-264 | every stretch of placed metadata reads back from the disk |
| `Fat32Theorems.SlackUnheld` | server/host-daemon/fat32virtual/layout.go:265-294 | no other extent reaches into the rest of a file's last cluster |
| `Fat32Theorems.BuiltMetadataLaid` | server/host-daemon/fat32virtual/layout.go:229-264 | a built disk shows its records and their backups, its information sector, both table copies and every directory |
| `Fat32Theorems.BuiltFilesLaid` | server/host-daemon/fat32virtual/layout.go:265-303 | a built disk has its files in their clusters and all metadata below them |
| `Fat32Build.Build` | server/host-daemon/fat32virtual/layout.go:125-330 | succeeds exactly for the acceptable libraries; the result is well formed with no two extents together and carries the rendered records, and a directory never overflows its reservation |
| `Fat32Build.Assemble` | server/host-daemon/fat32virtual/layout.go:194-307 | given clusters and geometry, succeeds exactly when files are valid, ranges lie in their files and no save object is named twice |
| `Fat32Build.AssembledIsSound` | server/host-daemon/fat32virtual/layout.go:295-307 | all extents are sorted and disjoint as built, so validation can refuse nothing but source ranges and shared objects |
| `Fat32Build.PlacementsApart` | server/host-daemon/fat32virtual/layout.go:222-264 | records, table copies and directories never overlap and lie below the files |
| `Fat32Build.FilesClimb` | server/host-daemon/fat32virtual/layout.go:265-294 | source and save extents ascend as built and stay apart |
| `Fat32Build.MetadataSound` | server/host-daemon/fat32virtual/layout.go:295-297 | sorting the metadata list keeps all of it, in order |
| `Fat32Build.ObjectsDistinct` | server/host-daemon/fat32virtual/layout.go:662-675 | the save list has one extent per object exactly when no two files share one |
| `Fat32Build.ReservationFits` | server/host-daemon/fat32virtual/layout.go:144-156 | the clusters counted before allocation are those the written directory needs |
| `Fat32Build.CountClusters` | server/host-daemon/fat32virtual/layout.go:144-170 | the cluster counts, refused exactly when a file exceeds the format |
| `Fat32Build.MapFiles` | server/host-daemon/fat32virtual/layout.go:265-294 | the two extent lists, refused exactly for invalid save or source files |
| `FatInfo.FsInfoDecodes` | server/host-daemon/fat32virtual/layout.go:633-641 | the two counters are stored where a driver reads them |
| `Fat32Geometry.CalculateLibrarySize` | server/host-daemon/gamecube/library.go:872-904 | returns the smallest whole GiB, at least 8, with room for the payload, its percentage of headroom, the save reserve and 256 MiB; the checked 64-bit sum refuses exactly the libraries for which every such size exceeds the format or the configured maximum |
| `Fat32Geometry.LibrarySizeAccepted` | server/host-daemon/fat32virtual/layout.go:126-129 | every size the library calculation returns is one the builder takes, and at least 8 GiB |
| `Fat32Geometry.TableCoversClusters` | server/host-daemon/fat32virtual/layout.go:171-188 | for every library size the table has an entry for each cluster the boot sector implies, and there are at least 65525 |
| `Fat32Geometry.TableCoversExactly` | server/host-daemon/fat32virtual/layout.go:171-188 | the table has an entry for each implied cluster exactly when many clusters are used, the estimate asks for 512 table sectors, or the clusters freed by the shorter table fit its spare entries |
| `Fat32Geometry.TableCoversAbove` | server/host-daemon/fat32virtual/layout.go:171-188 | it always suffices above about 2 GiB, and at exactly that size it is too short with one used cluster |
| `Fat32Geometry.GeometryHolds` | server/host-daemon/fat32virtual/layout.go:171-188 | any accepted geometry holds the allocated clusters and their entries |
| `Fat32Geometry.RoomSuffices` | server/host-daemon/fat32virtual/layout.go:171-188 | a disk is accepted if the used clusters fit behind two tables large enough for them, for 65525 clusters and for all that the disk could hold |
| `Fat32Geometry.RunsOrdered` | server/host-daemon/fat32virtual/layout.go:194-215 | the chains partition the allocated clusters |
| `Fat32Geometry.FreeBeyond` | server/host-daemon/fat32virtual/layout.go:194-215 | an entry is zero exactly behind the allocated clusters |
| `Fat32Geometry.FreeCountExact` | server/host-daemon/fat32virtual/layout.go:233-240 | free count equals zero entries |
| `Fat32Geometry.WriteChain` | server/host-daemon/fat32virtual/layout.go:198-209 | one chain, entry by entry, becomes the table's own entries |
| `Fat32Geometry.BuildFat` | server/host-daemon/fat32virtual/layout.go:194-215 | the table in memory is byte for byte the run-length table |
| `LongNames.LongNameRoundTrip` | server/host-daemon/fat32virtual/layout.go:547-577 | decoding the stored entries, unit by unit where the format has them, gives back every name without a zero unit; there are no more entries than needed, filled with 0xffff |
| `LongNames.SequenceNumbers` | server/host-daemon/fat32virtual/layout.go:553-566 | up to 255 units, entry d carries number d and only the first stored one the end mark; every entry is marked as a long one and carries the checksum |
| `LongNames.MakeLfn` | server/host-daemon/fat32virtual/layout.go:547-577 | the entries, last thirteen units first, each byte as the format places it |
| `LongNames.ShortEntryDecodes` | server/host-daemon/fat32virtual/layout.go:579-586 | name, attribute, first cluster and size read back |
| `LongNames.BuildDirectory` | server/host-daemon/fat32virtual/layout.go:504-545 | the directory bytes; the reserved clusters are never overrun |
| `LongNames.DirectoryBegins` | server/host-daemon/fat32virtual/layout.go:504-524 | a root directory begins with the volume name, any other one with its own and its parent's first cluster |
| `LongNames.ReservedClusters` | server/host-daemon/fat32virtual/layout.go:144-156 | enough whole clusters for all entries, at least one |
| `VirtualExtents.FindSpan` | server/host-daemon/fat32virtual/backend.go:380-408 | binary search finds the range that a full scan finds |
| `VirtualExtents.NextStart` | server/host-daemon/fat32virtual/backend.go:323-338 | no range starts between an unheld position and where its zeros end |
| `VirtualExtents.ValidateRanges` | server/host-daemon/fat32virtual/layout.go:643-683 | accepts only maps in bounds, with one extent per save object, without overlap, and refuses no other map whose starts differ |
| `VirtualExtents.NeighboursSuffice` | server/host-daemon/fat32virtual/layout.go:676-682 | after sorting, comparing neighbours finds every overlap |
| `VirtualExtents.SortSorts` | server/host-daemon/fat32virtual/layout.go:676-676 | sorting reorders and nothing else |
| `Fat32Backend.Backend.ReadAt` | server/host-daemon/fat32virtual/backend.go:222-358 | every read returns the pointwise layered image: save, else metadata, else source, else zero; a failure leaves a correct prefix |
| `Fat32Backend.Backend.WriteAt` | server/host-daemon/fat32virtual/backend.go:162-200 | success changes exactly the requested bytes of the whole disk; each refusal comes exactly when coded and changes nothing |
| `Fat32Backend.RefusalMeans` | server/host-daemon/fat32virtual/backend.go:162-200 | a write is taken exactly if the backend is open with a store and one save extent holds all of it; it crosses a boundary exactly if one holds its first byte and none holds all |
| `Fat32Backend.Open` | server/host-daemon/fat32virtual/backend.go:75-136 | whatever opens has passed validation and can be served if its lists are sorted, and every map that the builder makes opens |
| `Fat32Backend.ApartLists` | server/host-daemon/fat32virtual/layout.go:676-682 | one overlap check over all extents keeps the three lists apart |
| `Fat32Backend.Backend.OpenSource` | server/host-daemon/fat32virtual/backend.go:433-474 | the handle cache stays within its limit, without duplicates, most recent first, giving up the least recently used handle |
| `Fat32Backend.Backend.DropCached` | server/host-daemon/fat32virtual/backend.go:476-490 | exactly the failed file leaves the cache |
| `Fat32Backend.Backend.ReadZeros` | server/host-daemon/fat32virtual/backend.go:323-344 | zeros up to the next extent of any list |
| `Fat32Backend.Backend.ReadSource` | server/host-daemon/fat32virtual/backend.go:275-322 | a source read, with the identity check first, delivers image bytes and drops the handle on failure |
| `Fat32Backend.WriteShowsExactly` | server/host-daemon/fat32virtual/backend.go:184-194 | a write inside one extent shows at its own positions only, because each object has one extent |
| `Fat32Backend.SharedObjectWouldShowTwice` | server/host-daemon/fat32virtual/layout.go:662-675 | without that check a write would show at a second place: a concrete map |
| `Fat32Backend.Run` | server/host-daemon/fat32virtual/backend.go:162-358 | any run of reads, writes and close behaves like one flat array: every read that answers gets what the starting disk with the writes acknowledged before it holds, and is withheld only outside the disk, after a close or when storage fails; a write is acknowledged unless it is refused or its storage fails; the disk ends as the acknowledged writes leave it |
| `Fat32Backend.OutsideNeverChanges` | server/host-daemon/fat32virtual/backend.go:162-200 | over any run no byte outside a save extent changes |
| `Fat32Backend.ImageSplit` | server/host-daemon/fat32virtual/backend.go:222-358 | splitting a read changes nothing |
| `Nbd.Server.Transmission` | server/nbd-plugin/nbd.go:374-556 | the stream is cut into consecutive requests, answered in order with exactly the status and payload the rules give; the output is their reply frames; the syncs of the disk are the flushes of a writable export, one for one, and their outcomes are the answers; the session ends only where the stream does |
| `Nbd.Server.ServeNext` | server/nbd-plugin/nbd.go:385-517 | consumes exactly one request's own bytes, or stops for the reason the stream gives |
| `Nbd.Server.ServeRead` | server/nbd-plugin/nbd.go:419-431 | payload exactly on a good read and exactly its length, from the right offset |
| `Nbd.Server.ServeWrite` | server/nbd-plugin/nbd.go:438-486 | consumes the payload whatever the answer and writes only inside a writable export |
| `Nbd.Server.ServeOther` | server/nbd-plugin/nbd.go:432-509 | a flush of a writable export is exactly one sync and reports its outcome, of a read-only one none; trim, write-zeroes and unknown commands are refused without a call |
| `Nbd.Server.AcquireBuffer` | server/nbd-plugin/nbd.go:101-116 | a reused or new buffer always has room for header and payload |
| `Nbd.CallsStayInside` | server/nbd-plugin/nbd.go:418-486 | no call of a session leaves [0, size) |
| `Nbd.FlushesAreSyncs` | server/nbd-plugin/nbd.go:432-437 | over any session the outcomes of the syncs are, in order, the answers to the flushes |
| `Nbd.StopsAtHeader` | server/nbd-plugin/nbd.go:394-402 | a request stops the stream exactly if it is a disconnect, a write above the limit, or cut off in its payload |
| `Nbd.StopsBeforeHeader` | server/nbd-plugin/nbd.go:385-397 | the stream ends exactly where fewer than 28 bytes are left, and is refused exactly where other bytes than the magic are |
| `Nbd.RequestRoundTrip` | server/nbd-plugin/nbd.go:385-402 | every request that a client encodes is parsed back with nothing taken from its neighbours |
| `Nbd.StaysInStep` | server/nbd-plugin/nbd.go:385-402 | in a stream of requests the k-th is found where it starts |
| `Nbd.AnswersInOrder` | server/nbd-plugin/nbd.go:384-556 | the k-th answer is for the k-th request, under its handle |
| `Nbd.AllAnswered` | server/nbd-plugin/nbd.go:384-556 | on a sound connection every request of the stream is answered before it ends |
| `Nbd.ReplyDecodes` | server/nbd-plugin/nbd.go:518-525 | a client reads status, handle and payload back from a reply |
| `RollingRates.NoSampleLost` | shared/perf/perf.go:106-136 | whatever the interleaving of atomic steps, once all calls are done operations equal the calls and bytes their sum, modulo 2^64 |
| `RollingRates.RunKeepsInvariant` | shared/perf/perf.go:106-136 | the invariant holds in every state of every run |
| `RollingRates.StepKeepsInvariant` | shared/perf/perf.go:106-136 | no atomic step of any caller breaks it |
| `RollingRates.CanFinish` | shared/perf/perf.go:106-136 | from every reachable state some continuation completes all calls |
| `RollingRates.SomebodyAdvances` | shared/perf/perf.go:106-136 | while a call is pending some caller's next step brings the bucket closer to completion |
| `ExportManager.Run` | server/host-daemon/exportprofile/manager.go:99-194 | any interleaving is a run of a pure state machine from the manager's view at the start to its view at the end, with the answers that machine gives; every state in between is Active exactly while an unreleased handle exists, and that handle's profile is current and not closed since it began |
| `ExportManager.Manager.BeginSession` | server/host-daemon/exportprofile/manager.go:99-125 | a session begins exactly in the three exporting states and pins the current profile |
| `ExportManager.Manager.Release` | server/host-daemon/exportprofile/manager.go:113-124 | the first release ends the session, any further one changes nothing |
| `ExportManager.Manager.MarkConnected` | server/host-daemon/exportprofile/manager.go:127-135 | only from Exporting |
| `ExportManager.Manager.Disconnect` | server/host-daemon/exportprofile/manager.go:137-153 | only without sessions, and idempotent |
| `ExportManager.Manager.Select` | server/host-daemon/exportprofile/manager.go:155-181 | only when disconnected; ends in Exporting, Error or RecoveryRequired exactly as validation and clean-up report, and closes the previous profile exactly when it was replaced |
| `ExportManager.Manager.Recover` | server/host-daemon/exportprofile/manager.go:183-194 | only from the two failure states |
| `ExportManager.Manager.New` | server/host-daemon/exportprofile/manager.go:73-82 | starts exporting exactly a validated immutable Wii profile |
| `Catalog.Store.CommitSourceScan` | server/host-daemon/store/source_scan.go:14-49 | publishes rows, snapshot and source together or changes none of them, succeeds whenever scan, preparation and storage do, and keeps the catalog reflecting its whole history |
| `Catalog.Store.ReconcileAll` | server/host-daemon/store/source_scan.go:27-37 | all catalogs of a scan reconciled, in any order, with the same result |
| `Catalog.ReconcileCatalog` | server/host-daemon/store/store.go:434-515 | under each id the last item's payload becomes a fresh playable row, every row of the platform without an item gains one omission, other platforms stay; refused exactly for an invalid platform or item |
| `Catalog.ReconciledOneWay` | server/host-daemon/store/store.go:434-515 | the items of a scan leave no choice about the catalog after it |
| `Catalog.UpsertSeen` | server/host-daemon/store/store.go:443-470 | under each id the last item's payload becomes a fresh playable row and no other row changes; refused exactly for an invalid item |
| `Catalog.MarkMissing` | server/host-daemon/store/store.go:494-514 | every unseen row of the platform counts one more omission, is confirmed missing from the threshold on and keeps the time when it first was; no other row changes |
| `Catalog.Store.AcknowledgeMissing` | server/host-daemon/store/store.go:552-563 | removes a row exactly when it is confirmed missing |
| `Catalog.AvailabilityFollowsStreak` | server/host-daemon/store/store.go:434-515 | missing count equals the latest omissions in a row, playable exactly at 0, confirmed exactly from 2 on |
| `Catalog.LeavesOnlyConfirmed` | server/host-daemon/store/store.go:552-563 | an item leaves only by acknowledgement after at least two omissions in a row |
| `Catalog.ScanReflected` | server/host-daemon/store/store.go:434-515 | reconciling keeps the catalog equal to what its history demands |
| `Catalog.Run` | server/host-daemon/store/source_scan.go:14-49 | after any sequence of committed and rolled-back scans and acknowledgements the catalog reflects exactly the successful ones; an operation succeeds only when the history permits it, and on reliable storage whenever it does |
| `Ciso.NewReader` | server/host-daemon/gamecube/scanner.go:543-564 | accepts exactly the files with the header, the block size, a stored block and room for all of them |
| `Ciso.ReadAt` | server/host-daemon/gamecube/scanner.go:575-610 | reads the sparse expansion; short exactly at the logical end |
| `Ciso.ReadBlock` | server/host-daemon/gamecube/scanner.go:580-606 | counts the stored blocks before it to find the physical one, inside the file |
| `Ciso.LogicalSize` | server/host-daemon/gamecube/scanner.go:566-573 | the end of the last stored block |
| `Ciso.StoredBlocksDisjoint` | server/host-daemon/gamecube/scanner.go:588-603 | distinct stored blocks use disjoint ranges inside the file |
| `Ciso.PackedReadsBack` | server/host-daemon/gamecube/scanner.go:575-610 | header, map and the marked blocks of an image, one after another, read back as that image |
| `Ciso.PackedIsAccepted` | server/host-daemon/gamecube/scanner.go:543-564 | such a file is accepted unless no block is marked |

## Left out

- SavePowerCuts.RollbackThenPowerCut: the failing removal of the marker changes nothing, so it does not appear as a call; likewise the failing sync or base read in the runs after failed writes.
- SaveOverlay.SaveCard.FlushCard: after two faults in one call, when a checkpoint and its rollback both fail, the open handle may differ from the disk (`stranded`); what later calls on that handle do is not modelled, the next startup is.
- SaveRuns.RunSteps: which backups, restores and uploads succeed depends on the backup directory and the staged files and is left to their own contracts; a restore brings the image that its backup holds at that moment, and which earlier contents that was is not tracked through a run.
- SaveRuns.RunSteps: in a run in which a restore or upload follows a failed write, what a restart yields is left to `SaveOverlay.SaveCard.Restore`.
- The save store as a whole: one card is modelled, so the lock, the closed flag, `Sync` over all cards and shared limits are not.
- A base image shortened or changed by somebody else while the card is open.
- Fat32Backend.SaveStore: the cards behind the backend take a call completely or not at all; a card with a failed write in its journal is covered by `SaveRuns`, not by `Fat32Backend.Run`.
- File identity is an opaque tag chosen when a file is created; a write keeps it, although the source's identity includes the modification time. Symbolic links, modes, ownership and directory creation are not modelled.
- SHA-256 is a function of the configuration, total and with 32-byte results; where a check relies on it, nothing else is assumed.
- Backup names are numbers in creation order; the second file name tried within one second, timestamps and status fields are not modelled.
- Dirty blocks are merged into a checkpoint in block order, which the source reaches by sorting the keys.
- The names of Wii files are sequences of code units below 0x10000, and short names take the low byte of a character; the hashes that give short names and signatures their digits are parameters.
- The Wii builder sorts games by identifier first; here they come in that order.
- A whole table sector that the Wii disk writes straight into the caller's buffer passes through the scratch sector here, like a partial one.
- Source identity checks: a source is online when its identity verifies and it is long enough; how the host establishes that is not modelled.
- The GameCube builder's tree of paths, its duplicate and unsafe-path checks, and 8.3 aliases, which the source does not make unique: directories, children and short names enter as a collected tree.
- Fat32Build.Build: the hash that gives the volume its identity is a parameter, the volume name enters as eleven bytes, and layout hashes and checksums are left out.
- Fat32Backend.Open: what a backend on unsorted lists answers is not modelled; the layout hashes are not compared, and the save store's cards are taken to have the declared sizes.
- Fat32Backend.Backend.ReadAt: the extent lists must be sorted, as `Fat32Build.Build` makes them and the binary searches need; the source's own validation, and `Fat32Backend.Open`, do not check that.
- `sort.Slice` is not stable; the model sorts stably. Only starts that are equal could differ, and built maps have none.
- UTF-16 encoding of names: names are sequences of code units.
- Fat32Lookup.PathToBytes: names are compared unit by unit, while drivers ignore case; names have 1 to 255 units, as the format asks and the source does not check, and short names and the volume name do not begin with 0x00 or 0xe5.
- Nbd.Server.Transmission: option negotiation, TLS, deadlines and metrics are not modelled; a failed export write may have changed any bytes.
- RollingRates.NoSampleLost: for calls of one positive second on a bucket that holds an older one, as many as one likes; calls of different seconds on one bucket at once, and the snapshot reader, are not modelled.
- `RollingRates.CanFinish` gives a schedule that finishes, not that the Go scheduler picks it.
- The export manager's mutex: each call is one atomic step. What a profile's validation and clean-up report are parameters.
- `ReconcileCatalog` with other thresholds than 2 is modelled, but runs use the 2 of `CommitSourceScan`.
- SQL, migrations, JSON encoding and the other tables; a transaction is a copy of the rows that is published or dropped.
- Ciso.NewReader: the physical size is the file's length; a file that shrinks later shows as a failed read.
- 64-bit overflow in offsets is not modelled except in `CalculateLibrarySize`; accepted geometries keep every offset below 2^42.
- HTTP, templates, authentication, the Pi side, WBFS and GameCube header scanning, performance reports and logging.
