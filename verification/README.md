# SliceFS, modelled and proved in Dafny

SliceFS keeps file metadata in digest tables over an append-only, content-addressed blob store, logs
its roots and snapshots to segment files, and writes file content through open handles that either
stream into a hash or buffer. This project models that core and proves what it promises: what files
contain, what reference and link counts mean, what survives a kill, what garbage collection leaves
visible, and that the byte formats, the calendar and the locking are right.

`dafny verify dfyconfig.toml` checks everything.

## How it is organised

| part | modules |
|---|---|
| bytes and sequences | `ByteCodec`, `VarBytes`, `Utf8`, `Seqs`, `Ordered` |
| segment log | `Segment` (format, reader, torn tails), `SegmentWriting`, `SegmentNames`, `Replay`, `Wal` |
| offline garbage collection | `Gc`, `GcRuns` |
| blob store, tables, commit and load | `Cas`, `Tables`, `Persist` |
| metadata as callers see it | `StoreView` (operations on values), `Links`, `Accounting` |
| metadata as it is stored | `Inodes`, `Directory`, `Xattrs`, `StoreTies`, `Meaning`, `DictStore` (the store object) |
| filesystem | `Fs` (calls on values), `FsRuns`, `Renames`, `FsRoots`, `FsTotals`, `FsRefs`, `FsContents`, `FsPresence`, `FsHandles`, `SliceFs` (the filesystem object), `SliceRuns` |
| runs with kills, snapshots | `Crash`, `SnapshotSwitch`, `SnapshotIndex` |
| whole lives of a store | `Lifetimes`, `SwitchLives`, `MountedRuns`, `SnapshotRuns` |
| calendar, locks | `Calendar`, `Locks` |

The store and the filesystem are objects whose methods take the source's steps on digest tables,
buffers and handle maps. Each method is proved to have the effect of a function on values (`StoreView`,
`Fs`), and `SliceRuns.Run` carries this to any sequence of calls. The theorems about runs are about
those functions. What the two levels share is the relation `StoreTies.Ties`: every table entry names a
stored byte string that decodes to what the view holds.

`Lifetimes` puts everything together: filesystem and attribute calls on a mounted store, commits string
by string, snapshots, root switches, kills at any point, mounts from the segment directory and offline
garbage collection, in any order. Its events are shown to be steps of the machine in `Crash`, and
`MountedRuns` and `SnapshotRuns` show that the objects' calls, commits, mounts and snapshots are its
events.

Digests are numbers below 2^224 whose order is the order of the seven words. The hash is a parameter.
No theorem supposes that it is injective: theorems about values say which pushed strings must not clash
with stored ones. The objects record every string they push, and a flag `intact` that is lost exactly
when one of those strings, taken in order, overwrites a different one, or when a new name, count or
number does not fit its field on disk. Every method says so (`Kept`), with the condition for fitting
stated on what callers see. Pushes that clash exhibit two different strings with one digest
(`Cas.UncleanIsCollision`).

## Where the code does not keep a property

Each of these is stated as an exact condition, for all inputs.

- A truncation to zero through an open handle keeps the old manifest, so closing brings the old bytes
  back (`FsHandles.TruncateToZeroIff`) and leaves a root nobody counts (`FsRefs.ReleaseCountsIff`).
  Opening with O_TRUNC is the same case (`FsHandles.OpenTruncIff`). Until the file is written again it
  reads as before (`FsContents.ReadReturnsContent`), and a write elsewhere than at the start falls back
  to the old bytes (`FsHandles.WriteHolds`).
- A handle opened on an existing file starts empty: a write at offset 0 replaces the file
  (`FsHandles.ReopenedWriteIff`), a truncation to n > 0 bytes makes it n zeros
  (`FsHandles.ReopenedTruncateIff`), and the old digest's reference is never given back
  (`FsRefs.OpenCountsIff`, `FsHandles.ReopenLeaks`).
- Reading an empty file that has no manifest yet gives EIO (`FsContents.ReadReturnsContent`).
- Renaming an entry onto itself removes it (`Renames.RenameMovesIff`). Renaming a directory elsewhere
  leaves its `..` and both parents' link counts as they were (`Renames.RenamedDirectoryParent`). Renaming
  onto a directory, empty or not, leaves that directory without an entry (`Renames.RenameOntoDirectory`).
  Renaming `.` or `..` reports an error but links the directory at the new place all the same
  (`Renames.RenameDotSource`), and so can give the root an entry (`FsRoots.RootNamed`). No other renames
  put the links out of order (`Renames.RenameLinksIff`).
- A garbage collection pass fails at a file too short for a header, such as a session killed before its
  header is written leaves (`GcRuns.PassSucceedsIff`). A pass that fails or is killed can put an older root in front of the
  next mount, and an older version behind a name (`GcRuns.UnfinishedPassShows`; concrete directories in
  `GcRuns.UnfinishedPassRevertsRoot` and `GcRuns.FailedPassRevertsRoot`).
- A snapshot named by the empty string is read back unnamed (`Segment.FrameReadsBackIff`).
- Segment ids of a million and more sort out of order (`SegmentNames.NamesSortIff`).

## Model

| member | source | states |
|---|---|---|
| `FsHandles.WritePathRefinement` | crates/slicefs-cli/src/filesystem.rs:280-741 | through one handle, any sequence of writes, truncations (to zero as well) and fsyncs leaves in flight exactly the fold of plain pwrite and resize, where falling back to the committed file makes no difference; byte count and streaming offset are its length |
| `FsHandles.WriteHolds` | crates/slicefs-cli/src/filesystem.rs:280-384 | one write makes the bytes in flight their pwrite if and only if the handle does not fall back to a committed file that the write would show through |
| `FsHandles.CreatedHandleRefines` | crates/slicefs-cli/src/filesystem.rs:240-384 | the same for a handle returned by create, starting from the empty file |
| `FsHandles.BufferedForGood` | crates/slicefs-cli/src/filesystem.rs:289-339 | in every run of calls a handle that fell back to the plain buffer never streams again |
| `FsHandles.ReadsStableAcrossCommits` | crates/slicefs-cli/src/filesystem.rs:395-631 | a read returns the same bytes before fsync, after fsync, after release alone and after fsync then release (the early return), also for a handle that committed before; after each commit the manifest resolves to them and the size is their length |
| `FsHandles.TruncateToZeroIff` | crates/slicefs-cli/src/filesystem.rs:644-675 | truncating an open file to zero and closing it leaves it empty if and only if nothing but empty content was committed; otherwise reads give the old bytes while the size says 0 |
| `FsHandles.ReopenedWriteIff` | crates/slicefs-cli/src/filesystem.rs:1266-1294 | the first write through a reopened handle is a pwrite on the file if and only if it is not at offset 0 or covers the whole file |
| `FsHandles.ReopenedTruncateIff` | crates/slicefs-cli/src/filesystem.rs:676-720 | truncating through a reopened handle to n > 0 bytes makes the file n zeros; that is the resize of the file if and only if its first n bytes are zeros |
| `FsHandles.OpenTruncIff` | crates/slicefs-cli/src/filesystem.rs:1266-1294 | opening with O_TRUNC and closing empties the file if and only if nothing but empty content was committed; otherwise the old bytes are still read while the size says 0 |
| `FsHandles.RewrittenAfterTrunc` | crates/slicefs-cli/src/filesystem.rs:1266-1294 | opening with O_TRUNC, writing from offset 0 and closing makes the file exactly the new bytes, whatever was committed |
| `FsHandles.ReopenLeaks` | crates/slicefs-cli/src/filesystem.rs:395-468 | rewriting a reopened file from offset 0 leaves only the new bytes and keeps the old digest's count, which no manifest then accounts for |
| `FsContents.ContentRefinement` | crates/slicefs-cli/src/filesystem.rs:240-798 | over every guarded run of all calls, each live file contains exactly what pwrite and resize make of it, in flight or committed, through truncations to nothing over committed bytes that are written again before the file is closed; sizes agree when no handle has bytes |
| `FsContents.ReadReturnsContent` | crates/slicefs-cli/src/filesystem.rs:493-538 | a read returns the file's content, or EIO for an empty file without a manifest, if and only if a handle has bytes or the manifest is not stale: an emptied file not yet written again reads as what was committed before |
| `FsContents.ReadsAfterRuns` | crates/slicefs-cli/src/filesystem.rs:493-538 | the same after any guarded run from a fresh store, with what a stale read returns |
| `FsPresence.ContentIsPresent` | crates/slicefs-cli/src/filesystem.rs:240-1212 | after every run of calls, whatever their results, every digest a manifest names is that of content pushed |
| `FsHandles.PwriteMeans` | crates/slicefs-cli/src/filesystem.rs:325-330 | a write puts its bytes at the offset, keeps the others, and fills a gap with zeros, even when it writes no bytes |
| `FsHandles.ResizeMeans` | crates/slicefs-cli/src/filesystem.rs:698-698 | a resize keeps the common prefix and fills with zeros |
| `FsHandles.ClipMeans` | crates/slicefs-cli/src/filesystem.rs:535-537 | a read returns the bytes at its offset, fewer only at the end of the file |
| `FsHandles.SizeUpdateMeans` | crates/slicefs-cli/src/filesystem.rs:455-467 | a commit writes size and both times, a truncation size and change time; nothing else changes but the byte total |
| `FsContents.PwriteCovers` | crates/slicefs-cli/src/filesystem.rs:325-330 | a write at offset 0 replaces the content if and only if it is at least as long |
| `FsRefs.RefcountConservation` | crates/slicefs-cli/src/filesystem.rs:280-1212 | over every guarded run, each digest's count equals the number of live inodes whose manifest names it minus those whose open handle gave up its committed root, or has stuck at the largest value |
| `FsRefs.RefcountsExactWhenClosed` | crates/slicefs-cli/src/filesystem.rs:395-468 | from a fresh store, whenever no handle is open, each count that has not stuck is exactly the number of live files naming the digest |
| `FsRefs.StuckForGood` | crates/metadata/src/store.rs:150-193 | in every run, guarded or not, a count that reaches the largest 64-bit value stays there |
| `FsRefs.ReleaseCountsIff` | crates/slicefs-cli/src/filesystem.rs:405-416 | release keeps the counts exact if and only if the handle has bytes, or still holds its root, or nothing is committed, or the count is stuck |
| `FsRefs.OpenCountsIff` | crates/slicefs-cli/src/filesystem.rs:1266-1294 | opening for writing keeps the counts exact if and only if the file has no committed bytes, or the count is stuck |
| `FsRuns.LinkCounts` | crates/slicefs-cli/src/filesystem.rs:937-1212 | over every guarded run: a live file's link count is the number of entries naming it, no entry dangles, a live directory has 2 links plus one per child directory and a `..` that agrees with its one entry |
| `FsRuns.LinkCountsFromFresh` | crates/slicefs-cli/src/filesystem.rs:937-1212 | the same from a fresh store |
| `Renames.LinkStepIff` | crates/slicefs-cli/src/filesystem.rs:937-1212 | links that are in order stay so over a call if and only if its guard holds: 32-bit counts do not wrap, and a rename that passes its checks has a source other than `.` and `..`, moves a directory only within its parent and displaces no directory |
| `Renames.LinkCountsIff` | crates/slicefs-cli/src/filesystem.rs:937-1212 | links that start in order are in order after each call of a run if and only if every call is guarded |
| `Renames.RenameLinksIff` | crates/slicefs-cli/src/filesystem.rs:1084-1153 | the same for a rename: in order if and only if it stops at its checks or moves well; renaming a file onto itself counts as moving well, since it is an unlink |
| `Renames.RenameDotSource` | crates/slicefs-cli/src/filesystem.rs:1107-1141 | a rename whose source name is `.` or `..` reports EINVAL after it has displaced what was at the new place, file or directory, and linked the directory there: the links never agree afterwards |
| `Renames.RenameMovesIff` | crates/slicefs-cli/src/filesystem.rs:1084-1153 | renaming a file over nothing or over a file moves it if and only if the two places differ; onto itself it removes the entry |
| `Renames.RenamedDirectoryParent` | crates/slicefs-cli/src/filesystem.rs:1132-1141 | renaming a directory to a free place leaves its `..` and all link counts as they were, so the links agree afterwards if and only if it stays in its parent |
| `Renames.RenameOntoDirectory` | crates/slicefs-cli/src/filesystem.rs:1111-1134 | renaming onto an existing directory succeeds whatever it holds: the directory keeps its inode with one link fewer while no entry names it, so the links never agree afterwards |
| `FsRoots.RootStepIff` | crates/slicefs-cli/src/filesystem.rs:240-1212 | over every call the root stays a live directory that no entry names, if and only if the call is not a rename that reaches it through a dot entry |
| `FsRoots.RootNamed` | crates/slicefs-cli/src/filesystem.rs:1107-1141 | such a rename leaves an ordinary entry that names the root |
| `SliceFs.SliceFsFilesystem.constructor` | crates/slicefs-cli/src/filesystem.rs:104-117 | over any store, new or loaded, whose manifests name stored content: the filesystem with that content and no open handle |
| `SliceRuns.Run` | crates/slicefs-cli/src/filesystem.rs:240-1294 | any sequence of calls on the object is the run of the same calls on values, if and only if no pushed string clashes, in order, and what is added fits its fields |
| `SliceRuns.Perform` | crates/slicefs-cli/src/filesystem.rs:240-1294 | each call on the object is the step of the value model |
| `SliceRuns.RunAndRead` | crates/slicefs-cli/src/filesystem.rs:493-538 | on a new store, after any guarded calls on the object, a read through the object returns what the plain byte sequences hold; only a file emptied and not written since reads as what was committed before |
| `SliceFs.SliceFsFilesystem.Write` | crates/slicefs-cli/src/filesystem.rs:280-384 | the object's write is the write of the value model: fallback, pwrite, and the reference given up; it pushes the bytes in flight exactly when it falls back; the object stays intact if and only if no pushed string clashes |
| `SliceFs.SliceFsFilesystem.Release` | crates/slicefs-cli/src/filesystem.rs:395-468 | closing, with the early return and the hand-over of the reference, as in the value model; the object stays intact if and only if no pushed string clashes |
| `SliceFs.SliceFsFilesystem.Fsync` | crates/slicefs-cli/src/filesystem.rs:552-631 | committing a snapshot of the bytes in flight, as in the value model; the object stays intact if and only if no pushed string clashes |
| `SliceFs.SliceFsFilesystem.SetattrSize` | crates/slicefs-cli/src/filesystem.rs:640-798 | truncation through a handle or by path, as in the value model; the object stays intact if and only if no pushed string clashes |
| `SliceFs.SliceFsFilesystem.Read` | crates/slicefs-cli/src/filesystem.rs:493-538 | returns the clipped bytes of some handle with bytes on the file, or of the manifest when there is none; the object stays intact if and only if no pushed string clashes |
| `SliceFs.SliceFsFilesystem.Open` | crates/slicefs-cli/src/filesystem.rs:1266-1294 | opening, with truncation on request and the handle forgotten on failure; the object stays intact if and only if no pushed string clashes |
| `SliceFs.SliceFsFilesystem.Create` | crates/slicefs-cli/src/filesystem.rs:240-265 | inode, entry and handle; a failed entry takes the inode away again; the object stays intact if and only if no pushed string clashes and what is added fits its fields |
| `SliceFs.SliceFsFilesystem.Mknod` | crates/slicefs-cli/src/filesystem.rs:857-870 | refuses every kind but regular files; otherwise as create, without a handle; the object stays intact if and only if no pushed string clashes and what is added fits its fields |
| `SliceFs.SliceFsFilesystem.Mkdir` | crates/slicefs-cli/src/filesystem.rs:937-951 | as in the value model; the object stays intact if and only if no pushed string clashes and what is added fits its fields |
| `SliceFs.SliceFsFilesystem.Rmdir` | crates/slicefs-cli/src/filesystem.rs:957-997 | refuses non-directories and occupied directories; removes entry, inode and one parent link; the object stays intact if and only if no pushed string clashes |
| `SliceFs.SliceFsFilesystem.Unlink` | crates/slicefs-cli/src/filesystem.rs:1007-1046 | refuses directories; the last link takes the references and the inode; the object stays intact if and only if no pushed string clashes |
| `SliceFs.SliceFsFilesystem.HardLink` | crates/slicefs-cli/src/filesystem.rs:1052-1076 | refuses directories; one more entry and one more link; the object stays intact if and only if no pushed string clashes and what is added fits its fields |
| `SliceFs.SliceFsFilesystem.Rename` | crates/slicefs-cli/src/filesystem.rs:1084-1153 | displaces the target, links at the new place, unlinks at the old; an error in the middle keeps what was done; the object stays intact if and only if no pushed string clashes and what is added fits its fields |
| `SliceFs.SliceFsFilesystem.Symlink` | crates/slicefs-cli/src/filesystem.rs:1159-1212 | the target is stored as content with one reference; the object stays intact if and only if no pushed string clashes and what is added fits its fields |
| `SliceFs.OverwriteBuffer` | crates/slicefs-cli/src/filesystem.rs:325-330 | in-place overwrite of a zero-extended buffer is pwrite |
| `SliceFs.ResizeBuffer` | crates/slicefs-cli/src/filesystem.rs:658-658 | in-place resize keeps the common prefix and fills with zeros |
| `DictStore.DictMetadataStore.constructor` | crates/metadata/src/store.rs:91-135 | a fresh store shows the root directory alone, and is intact if and only if the four strings it pushes do not clash |
| `DictStore.DictMetadataStore.IncrementRefcount` | crates/metadata/src/store.rs:158-171 | one more reference, stuck at the largest value |
| `DictStore.DictMetadataStore.DecrementRefcount` | crates/metadata/src/store.rs:180-193 | one less reference, removed at zero, no-op when stuck or absent |
| `DictStore.DictMetadataStore.CreateInode` | crates/metadata/src/store.rs:389-413 | the digest tables keep standing for the view with the new inode under the next number |
| `DictStore.DictMetadataStore.GetInode` | crates/metadata/src/store.rs:415-422 | decodes to exactly the inode of the view, or NotFound |
| `DictStore.DictMetadataStore.UpdateInode` | crates/metadata/src/store.rs:424-456 | replaces the inode in both tables and moves the byte total by the difference |
| `DictStore.DictMetadataStore.DeleteInode` | crates/metadata/src/store.rs:458-487 | removes the inode from both tables and its size and count from the totals |
| `DictStore.DictMetadataStore.CreateDirectory` | crates/metadata/src/store.rs:489-553 | inode, dots, parent entry and parent link as in the view; a failure uses up at most a number; the object stays intact if and only if no pushed string clashes and number and entry fit |
| `DictStore.DictMetadataStore.ListDirectory` | crates/metadata/src/store.rs:555-562 | lists each name of the directory once with its inode |
| `DictStore.DictMetadataStore.Lookup` | crates/metadata/src/store.rs:564-572 | finds exactly what the directory holds |
| `DictStore.DictMetadataStore.Link` | crates/metadata/src/store.rs:574-586 | adds an entry, or the error the view gives |
| `DictStore.DictMetadataStore.Unlink` | crates/metadata/src/store.rs:588-600 | removes an entry, or the error the view gives |
| `DictStore.DictMetadataStore.SetManifest` | crates/metadata/src/store.rs:602-610 | records the block list |
| `DictStore.DictMetadataStore.GetManifest` | crates/metadata/src/store.rs:612-619 | decodes to exactly the recorded list, or NotFound |
| `DictStore.DictMetadataStore.SetXattr` | crates/metadata/src/store.rs:621-644 | sets one attribute of the list; the object stays intact if and only if no pushed string clashes and the attribute fits its fields |
| `DictStore.DictMetadataStore.GetXattr` | crates/metadata/src/store.rs:646-659 | finds the attribute, or NotFound |
| `DictStore.DictMetadataStore.ListXattrs` | crates/metadata/src/store.rs:661-674 | lists the names; none for an inode without attributes |
| `DictStore.DictMetadataStore.RemoveXattr` | crates/metadata/src/store.rs:676-701 | removes the attribute, or NotFound; the object stays intact if and only if no pushed string clashes |
| `DictStore.DictMetadataStore.Commit` | crates/metadata/src/store.rs:707-793 | pushes the six tables and the 184-byte record that names them; all are stored afterwards; the store stays intact if and only if those seven strings do not clash |
| `DictStore.LoadFromRoot` | crates/metadata/src/store.rs:857-952 | succeeds exactly when every part decodes and the root inode is there; a recorded state is shown again, intact, with its totals recounted |
| `DictStore.CommitAndReload` | crates/metadata/src/store.rs:707-952 | committing and loading from the root shows the same inodes, directories, manifests, attributes and counts with recounted totals, and the very same view where the totals were exact; only a clash among the seven strings pushed can prevent it |
| `DictStore.SumSizes` | crates/metadata/src/store.rs:926-931 | the loop over the loaded inodes gives their total size modulo 2^64 |
| `StoreTies.RecordedForGood` | crates/metadata/src/store.rs:295-332 | a recorded state stays recorded, unchanged, in every larger blob store |
| `Meaning.RootMeansOneView` | crates/metadata/src/store.rs:857-952 | whatever a root was committed from, loading it shows one and the same view |
| `Accounting.TotalsAreExact` | crates/metadata/src/store.rs:389-553 | over every run of store operations and reloads with totals below 2^64, logical bytes are the sum of live sizes, the inode count is their number, and all numbers in use are below the counter |
| `FsTotals.TotalsOverRuns` | crates/slicefs-cli/src/filesystem.rs:240-1212 | the same over every run of filesystem calls for which the totals have room, failed and half-done calls included |
| `FsTotals.TotalsFromFresh` | crates/slicefs-cli/src/filesystem.rs:240-1212 | the same from a fresh store |
| `Accounting.NumbersNeverReused` | crates/metadata/src/inode_map.rs:32-70 | inode numbers are handed out strictly increasing through deletions and reloads |
| `Accounting.TotalInOrder` | crates/metadata/src/store.rs:926-931 | recounting in key order gives the total |
| `Inodes.InodeCodec` | crates/metadata/src/inode.rs:27-65 | 56-byte strings and inodes with 64-, 32-bit and signed 64-bit fields correspond one to one |
| `Inodes.SerializeInode` | crates/metadata/src/inode.rs:27-40 | filling the buffer field by field gives the encoding |
| `Xattrs.XattrCodec` | crates/metadata/src/xattr.rs:25-76 | a byte string decodes to a list if and only if the list has valid names and 32-bit lengths and encodes to that string |
| `Xattrs.SerializeXattrs` | crates/metadata/src/xattr.rs:25-35 | the appending loop gives the encoding |
| `Xattrs.DeserializeXattrs` | crates/metadata/src/xattr.rs:37-76 | the cursor loop decodes, with every truncation refused |
| `Xattrs.SetRefinesMap` | crates/metadata/src/xattr.rs:101-107 | setting is a map update and never repeats a name |
| `Xattrs.GetRefinesMap` | crates/metadata/src/xattr.rs:110-112 | getting is a map lookup |
| `Xattrs.RemoveRefinesMap` | crates/metadata/src/xattr.rs:122-126 | removing takes the name from the map and tells whether it was there |
| `Xattrs.NamesListed` | crates/metadata/src/xattr.rs:115-117 | the listing holds each name of the map once |
| `Xattrs.SetXattrEntry` | crates/metadata/src/xattr.rs:101-107 | replaces the first entry with the name, or appends |
| `Xattrs.RemoveXattrEntry` | crates/metadata/src/xattr.rs:122-126 | keeps the other entries in order |
| `Directory.ListRoundTrip` | crates/metadata/src/directory.rs:71-139 | an encoded entry list decodes to itself |
| `Directory.DecodedListFits` | crates/metadata/src/directory.rs:89-139 | whatever decodes can be encoded again |
| `Directory.SerializeEntryList` | crates/metadata/src/directory.rs:71-87 | the loop in key order gives the encoding |
| `Directory.DeserializeEntryList` | crates/metadata/src/directory.rs:89-139 | the cursor loop decodes, later keys replacing earlier ones |
| `Directory.AddRefines` | crates/metadata/src/directory.rs:181-200 | on list digests, adding is adding to a map from names to inodes; present names are refused, dots are protected, and everything stored before still resolves, provided name and list do not clash and fit their fields |
| `Directory.RemoveRefines` | crates/metadata/src/directory.rs:207-224 | removing is removing from the map; absent names are refused, dots are protected, and everything stored before still resolves |
| `Directory.LookupRefines` | crates/metadata/src/directory.rs:230-244 | looking up finds exactly what the map holds |
| `Directory.ListRefines` | crates/metadata/src/directory.rs:247-256 | listing gives each name of the map once with its inode |
| `Directory.OldDigestsResolve` | crates/metadata/src/directory.rs:181-224 | an old digest resolves to the same entries in every larger store |
| `Directory.NewListRepresents` | crates/metadata/src/directory.rs:161-174 | a new directory holds itself as `.` and its parent as `..` |
| `Directory.AddDirEntry` | crates/metadata/src/directory.rs:181-200 | the method does what the digest-level operation says |
| `Directory.RemoveDirEntry` | crates/metadata/src/directory.rs:207-224 | the method does what the digest-level operation says |
| `Tables.TableRoundTrip` | crates/metadata/src/store.rs:802-849 | a counted table decodes to itself, in both layouts |
| `Tables.SerializeTable` | crates/metadata/src/store.rs:802-812 | the loop in key order gives the encoding |
| `Tables.DeserializeTable` | crates/metadata/src/store.rs:815-849 | the loop decodes, with wrong lengths refused |
| `Tables.InodeMapRoundTrip` | crates/metadata/src/inode_map.rs:89-134 | the inode map decodes to itself |
| `Tables.RecoveredNextIno` | crates/metadata/src/inode_map.rs:104-134 | the recovered next number is above every key |
| `Tables.DeserializeInodeMap` | crates/metadata/src/inode_map.rs:104-134 | the loop with its running maximum decodes |
| `Tables.ManifestCodec` | crates/metadata/src/manifest.rs:17-53 | block lists and byte strings of whole digests correspond one to one |
| `Tables.DeserializeManifest` | crates/metadata/src/manifest.rs:30-53 | the loop decodes, with partial digests refused |
| `Persist.LoadOfCommit` | crates/metadata/src/store.rs:707-1017 | loading a committed root is the identity on everything persisted; refused exactly when the root inode is missing |
| `Persist.RecommitIsSameRoot` | crates/metadata/src/store.rs:707-952 | committing a freshly loaded state names the same root |
| `Persist.CommittedForGood` | crates/metadata/src/store.rs:707-793 | a committed state stays loadable in every later store |
| `Segment.TornTail` | crates/metadata/src/segment/reader.rs:47-97 | for every file of records and ignored frames, closed or not, and every cut at 16 bytes or later, the reader yields exactly the records whose frames end at or before the cut |
| `Segment.WholeIsMaximal` | crates/metadata/src/segment/reader.rs:47-97 | the number of complete frames is the largest that fits before the cut |
| `Segment.FrameReadsBackIff` | crates/metadata/src/segment/mod.rs:186-245 | an entry reads back from its own frame if and only if its name is absent or non-empty and its payload length fits 32 bits |
| `Segment.EmptyNameIsLost` | crates/metadata/src/segment/mod.rs:196-238 | a snapshot named by the empty string reads back unnamed |
| `Segment.EntriesAreStorable` | crates/metadata/src/segment/mod.rs:217-245 | everything the reader yields can be written again without loss |
| `Segment.HeaderRoundTrip` | crates/metadata/src/segment/mod.rs:137-168 | a written header parses to its id |
| `Segment.SegmentReader.Next` | crates/metadata/src/segment/reader.rs:47-97 | the loop over the byte stream takes exactly the steps of the reading function |
| `Segment.ReadSegment` | crates/metadata/src/segment/reader.rs:21-97 | opening and draining a file gives its entries or the open error |
| `SegmentWriting.SegmentWriter.WriteEntry` | crates/metadata/src/segment/writer.rs:35-44 | appends one frame to what is written, never shrinking what is in the file |
| `SegmentWriting.SegmentWriter.Sync` | crates/metadata/src/segment/writer.rs:47-50 | everything written is in the file |
| `SegmentWriting.SegmentWriter.Close` | crates/metadata/src/segment/writer.rs:53-58 | adds the end marker and syncs |
| `SegmentWriting.RunReadsBack` | crates/metadata/src/segment/writer.rs:35-58 | a run of written records reads back, followed by whatever comes after |
| `Gc.LoadStoreFromSegments` | crates/metadata/src/segment/mod.rs:49-98 | the loop over the sorted files gives the last root and all snapshot records of their concatenated entries, skipping short files |
| `Replay.SetSnapshots` | crates/metadata/src/store.rs:279-287 | the two indexes of the replayed list |
| `Replay.RepeatedPrefix` | crates/metadata/src/segment/mod.rs:49-98 | entries that repeat a later log change neither the root nor the indexes |
| `Gc.NextIdBounds` | crates/slicefs-cli/src/mount.rs:319-340 | the next id is one above the largest, or 1 |
| `Gc.CompactSegment` | crates/metadata/src/segment/compaction.rs:40-81 | the output file holds the same records under the new id, closed |
| `Gc.SegmentDir.RunGc` | crates/metadata/src/gc/mod.rs:83-113 | the loop over the listing is the pass, with its statistics and its first error |
| `Gc.ReplayMeansLog` | crates/metadata/src/segment/mod.rs:49-98 | however many copies the directory holds, replay means the logical log |
| `GcRuns.RunKeepsLayout` | crates/metadata/src/gc/mod.rs:83-113 | over every run of sessions, sessions cut off before their header, and passes that succeed, an id's content depends only on its remainder modulo 100,000 and the highest level is complete |
| `GcRuns.NameOrderIsIdOrder` | crates/metadata/src/segment/mod.rs:56-74 | in the directory of any run within the limits, a listing is sorted by file name if and only if it is in the order of ids, so replay reads the log in order |
| `GcRuns.GcIsInvisible` | crates/metadata/src/gc/mod.rs:83-113 | at any point of any run a pass in any listing order succeeds if and only if no file is too short for a header, and then leaves the root and both snapshot indexes unchanged for the next mount |
| `GcRuns.UnfinishedPass` | crates/metadata/src/gc/mod.rs:99-110 | after a pass that ended early, by a kill or at a short file, the directory means the logical log followed once more by the newest segments copied so far |
| `GcRuns.UnfinishedPassShows` | crates/metadata/src/gc/mod.rs:99-110 | so the root is the last one if and only if the copies record no root or end in it; every version and name is still found, a name recorded in the copies means the version it has there, and versions mean the same records where none repeats |
| `GcRuns.PassSucceedsIff` | crates/metadata/src/gc/mod.rs:83-113 | a pass succeeds if and only if every listed file has a header or was written anew by the compaction of one listed before it |
| `GcRuns.PassGetsTo` | crates/metadata/src/gc/mod.rs:99-110 | a pass that fails has done exactly what a pass over the files before the failing one does, and reports that file's error |
| `GcRuns.UnfinishedPassRevertsRoot` | crates/metadata/src/gc/mod.rs:99-110 | two sessions and a pass killed after the first file put the older root back |
| `GcRuns.FailedPassRevertsRoot` | crates/metadata/src/gc/mod.rs:99-110 | two sessions, one cut off before its header, and a pass that comes to the short file second: the pass fails and the older root is back |
| `SegmentNames.NamesSortAsIds` | crates/metadata/src/segment/mod.rs:56-74 | below a million, file names sort as ids |
| `SegmentNames.NamesSortIff` | crates/metadata/src/segment/mod.rs:56-74 | of two ids the smaller has the smaller name if and only if it is at most the number made by as many leading digits of the larger as it has itself |
| `SegmentNames.SevenDigitsSortFirst` | crates/metadata/src/segment/mod.rs:56-74 | so the first copy of level ten sorts before the first of level two |
| `SegmentNames.DigitsParseBack` | crates/metadata/src/gc/mod.rs:116-120 | the id is recovered from the digits of a name, whatever the padding |
| `SegmentNames.CompactedNamesAgree` | crates/metadata/src/segment/compaction.rs:46-46 | both paddings give the same name to every id a compaction writes |
| `Lifetimes.CrashSafety` | crates/metadata/src/store.rs:707-793 | however a store lived (calls, commits, snapshots, switches, kills, mounts, collections) and wherever it was killed, before its segment had a header included: the directory replays, and the root it ends in and every snapshot load to exactly the state they were committed from, with all blobs and all file content in place |
| `Lifetimes.CallsAreMutations` | crates/slicefs-cli/src/filesystem.rs:240-1212 | every call on a mounted store leaves tables all of whose blobs and file content are present, so it is an allowed mutation of the crash machine |
| `Lifetimes.TiedIsSound` | crates/metadata/src/store.rs:707-793 | tables that stand for a view whose content was pushed name only blobs that are there |
| `Lifetimes.LivesAreRuns` | crates/metadata/src/store.rs:707-793 | every life of a store is a run of the crash machine; a collection is no step at all |
| `Lifetimes.MountFromDirectory` | crates/slicefs-cli/src/mount.rs:255-314 | mounting from the segment directory, with all its copies and stubs, is mounting from the logical log, and brings up what the last root was committed from |
| `Lifetimes.RecoversLastCommit` | crates/metadata/src/wal/per_op.rs:27-34 | under per-operation logging, killing the mounted store between operations, whatever its segment file holds by then, and mounting it again brings up what the last completed commit was made from |
| `Lifetimes.SnapshotsAreImmutable` | crates/metadata/src/store.rs:295-332 | a snapshot found at some point is found with the same record after anything that follows, collections and switches included, and its root shows the same inodes, directories, manifests, attributes and counts over the same bytes |
| `MountedRuns.Call` | crates/slicefs-cli/src/filesystem.rs:240-1294 | a call on the object that leaves it intact, and does not reach the root through a dot entry, is an event of the store's life, and the object mirrors what the event leads to |
| `MountedRuns.SetAttribute` | crates/metadata/src/store.rs:621-644 | the same for setting an attribute |
| `MountedRuns.RemoveAttribute` | crates/metadata/src/store.rs:676-701 | the same for removing an attribute |
| `MountedRuns.Commit` | crates/metadata/src/store.rs:707-793 | the object's commit is the commit of the life: the same seven pushes, then the record of the same root |
| `MountedRuns.MountStore` | crates/slicefs-cli/src/mount.rs:255-314 | replaying the directory in the order of its file names, loading the last root and building the filesystem gives an object that mirrors the mount of the life |
| `MountedRuns.LoadKept` | crates/metadata/src/store.rs:857-952 | loading the root of any snapshot, or the last root, of a store that lived in any way shows what it was committed from |
| `MountedRuns.FreshBegins` | crates/metadata/src/store.rs:91-135 | a new store begins a life |
| `Crash.PerOpRecovery` | crates/metadata/src/wal/per_op.rs:27-34 | under per-operation logging the recovered root is that of the last completed commit or root switch, or of the one being logged |
| `Crash.SnapshotIndexAgrees` | crates/metadata/src/store.rs:279-357 | logged versions are unique and increasing, and between operations the indexes in memory are those a fresh replay builds |
| `SnapshotSwitch.FindMeans` | crates/metadata/src/store.rs:348-357 | finding gives an entry if and only if it is the one with that version, or the last one logged with that name |
| `SnapshotSwitch.SwitchWorks` | crates/slicefs-cli/src/snapshot.rs:147-225 | after a switch and a fresh replay the live state is the target's, the previous state is under the new version and the automatic name, and every earlier version and every other name resolve as before |
| `SwitchLives.SwitchAfterAnyLife` | crates/slicefs-cli/src/snapshot.rs:147-225 | the same for the segment directory of a store that lived in any way before, collections included: what the switch needs of the log is a conclusion |
| `SnapshotIndex.Catalog.CreateSnapshot` | crates/metadata/src/store.rs:295-332 | logs the root and a record under the next version and updates both indexes to those of the log |
| `SnapshotIndex.Catalog.Find` | crates/metadata/src/store.rs:348-357 | answers from the indexes what the log means |
| `SnapshotIndex.Catalog.NextVersion` | crates/metadata/src/store.rs:300-304 | one above the largest version, from 1 |
| `SnapshotIndex.Catalog.Switch` | crates/slicefs-cli/src/snapshot.rs:147-225 | appends exactly the three records of a switch, or nothing when the target is unknown |
| `SnapshotRuns.CreateSnapshot` | crates/metadata/src/store.rs:295-332 | creating a snapshot on the mounted objects is the snapshot of the store's life: the same pushes and records, after which filesystem and index mirror the life and the new version's root shows the filesystem of that moment |
| `SnapshotRuns.SnapshotLasts` | crates/metadata/src/store.rs:295-332 | a snapshot in the index of a mounted store whose records are written is found by every later mount, whatever happens in between, with the same record and showing the same filesystem |
| `SnapshotRuns.MountIndex` | crates/slicefs-cli/src/mount.rs:255-314 | the snapshot index that a mount sets up from the replayed records is that of the life |
| `Wal.WalConservation` | crates/metadata/src/wal/flush_on_fsync.rs:35-55 | for every strategy and every interleaving of calls, the records in the file followed by the entries kept are exactly the logged sequence |
| `Wal.CrashRecoversSettled` | crates/metadata/src/wal/periodic.rs:31-51 | a kill between calls recovers exactly the prefix up to the last flush, or everything under per-operation logging |
| `Wal.ShutdownReplaysAll` | crates/metadata/src/wal/flush_on_fsync.rs:35-55 | after shutdown everything logged replays |
| `Wal.StrategiesAgree` | crates/metadata/src/wal/mod.rs:58-96 | so all strategies replay identically after shutdown |
| `Wal.PerOpWal.LogMutation` | crates/metadata/src/wal/per_op.rs:27-34 | the entry is in the file when the call returns |
| `Wal.BufferedWal.LogMutation` | crates/metadata/src/wal/flush_on_fsync.rs:36-39 | the entry is kept in memory, the file unchanged |
| `Wal.BufferedWal.FlushAndSync` | crates/metadata/src/wal/flush_on_fsync.rs:41-50 | the kept entries are written in order and synced |
| `Calendar.DaysAreCalendarDays` | crates/slicefs-cli/src/snapshot.rs:247-260 | as long as the year fits 32 bits: day 0 is 1970-01-01, every day is a valid date, and day n + 1 is the Gregorian successor of day n |
| `Calendar.DatesOrderDays` | crates/slicefs-cli/src/snapshot.rs:247-260 | dates order as their days do, so none is repeated |
| `Calendar.EveryDateIsADay` | crates/slicefs-cli/src/snapshot.rs:247-260 | every valid date from 1970 on is the date of its day number |
| `Calendar.FieldsOrderTimes` | crates/slicefs-cli/src/snapshot.rs:230-244 | printed fields are valid clock readings and order as the times do |
| `Locks.StoreNeverDeadlocks` | crates/metadata/src/store.rs:7-14 | for any number of threads, each running any sequence of store methods along any of their paths, early returns included, and any schedule, some thread can run until all are done, and the run can be completed |
| `Locks.NoDeadlock` | crates/metadata/src/store.rs:7-14 | threads that take locks in rank order are never all stuck, under any schedule |
| `Locks.PathIsOrderly` | crates/metadata/src/store.rs:158-793 | in front of an orderly thread every path of rank-ordered locking code, with branches, early returns and a lock passed on, is orderly and ends holding what it began with |
| `Locks.StoreMethodsAreOrderly` | crates/metadata/src/store.rs:158-793 | every path through every method takes its locks in increasing rank and drops all of them |
| `Locks.EveryoneFinishes` | crates/metadata/src/store.rs:7-14 | from every reachable state all threads can be run to the end |

## Left out

- FUSE callbacks and reply handling, mount options, watchdog, signals, command line, `statfs`, `scrub`, `seed`: forwarding, process control and report printing.
- Background garbage collection: its threshold is never reached in a mount, and its live set is a stub.
- The block engine, compression and the local block stores: the blob store is a map from digests to byte strings, a streaming state is the bytes pushed so far, and ending it pushes them.
- I/O errors, reordering on power loss, and clock values: calls succeed in writing, a kill keeps what was written, and times are arguments.
- Interleaving inside calls: calls and commits are atomic with respect to each other, so a commit that reads its tables while another thread changes them, or two handles racing on one file, are not part of this model. Of threads, only the order of locks is.
- `setattr` on mode, owner, group and times; offsets and buffering in `readdir`; the attribute callbacks of the filesystem, which forward to the store methods modelled here.
- `NoWal`, and the exchange flag of rename, which is always refused.
- Text output of the snapshot listing: `Calendar.FieldsOrderTimes` is about the printed fields, not their padding.
- FsRefs.RefcountConservation: guarded; a file must be closed when its entry is removed or it is truncated by path, must have no committed bytes when it is opened for writing, and a handle without bytes must not leave behind a root it gave up. The last two conditions are exact.
- FsContents.ContentRefinement: guarded; one handle per file; a file truncated to nothing over committed bytes is not closed before it is written again, nor written first where the old bytes would show; a handle that has written nothing to a file with content is truncated only where the file holds zeros and its first bytes at the start must cover the file; and pushed strings must not clash. The conditions on closing, truncations and first bytes are exact (`FsHandles.TruncateToZeroIff`, `FsHandles.WriteHolds`, `FsHandles.ReopenedTruncateIff`, `FsHandles.ReopenedWriteIff`).
- FsRuns.LinkCounts: guarded; 32-bit link counts must not wrap, and a rename that passes its checks must have a source other than `.` and `..`, move a directory only within its parent, and displace no directory. The guard is exact, call by call (`Renames.LinkStepIff`).
- GcRuns.GcIsInvisible: for fewer than 100,000 segments and ids below a million, which are the limits of the id scheme.
- SliceFs.SliceFsFilesystem.Write: the end of a write must be below 2^64; the byte count of a handle is not wrapped.
- SliceRuns.Run: arguments have the widths of the calls' parameters, and times fit their fields.
- DictStore.DictMetadataStore.Commit: no table has 2^64 entries.
- Accounting.TotalsAreExact: for totals below 2^64 and new directories of size 0.
- FsTotals.TotalsOverRuns: for totals that stay below 2^64 with what the next call adds.
- Lifetimes.CrashSafety: no call is a rename that reaches the root directory through `.` or `..`, which is exactly what gives the root an entry (`FsRoots.RootStepIff`), and no table has 2^64 entries; collections run to their end within the limits above. What a collection that ends early leaves is `GcRuns.UnfinishedPassShows`.
- Lifetimes.SnapshotsAreImmutable: within the same limits. A name may be given to a later snapshot; versions may not.
- MountedRuns.MountStore: the mount lock and the refusal of legacy stores are not part of this model; the snapshot index of the mounted store is set up by `SnapshotRuns.MountIndex`.
- SnapshotRuns.CreateSnapshot: for versions below 2^64 and a name that a record can hold: UTF-8, and not empty.
- Locks.StoreNeverDeadlocks: covers the store's mutexes and those of its log; the open-file table of the filesystem is not part of this model, and neither is a panic while a lock is held.
