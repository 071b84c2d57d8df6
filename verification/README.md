# NexxoN OS drivers: model and proofs

A Dafny model of the parts of the NexxoN OS sources in which state, arithmetic and protocols are hardest
to get right, with proofs about every input, every run or every interleaving:

- **exFAT driver** (`src/drivers/exfat.c`). The device is a FAT, an allocation bitmap and cluster bytes;
  class `Volume` holds it together with the allocation hint, the write stream and the read cursor, and its
  methods follow the driver's functions down to single device writes. A ghost `tree` says what the bytes
  mean, `Inv` ties the two together, and `trace` records every device state, so that properties of
  intermediate states can be stated. Names and entry sets: `ExfatNames`, `ExfatEntrySet`; their
  bytes: `ExfatFormat`; scanning: `ExfatScan`, `ExfatForeign`, `ExfatHeap`, `ExfatLayout`; ownership:
  `ExfatSpace`; the tree: `ExfatTree`; growing and appending: `ExfatGrow`, `ExfatAppend`, `ExfatEdit`; the operations: `ExfatStream`, `ExfatContents`,
  `ExfatOps`, `ExfatRemove`, `ExfatSubtree`, `ExfatTarget`, `ExfatPasses`, `ExfatMkdir`, `ExfatRename`,
  `ExfatCursor`, `ExfatVolume`; the main results in one place: `ExfatTheorems`, `ExfatRun`; a failing
  deletion: `ExfatAstray`.
- **FAT16/32 driver** (`src/drivers/fat.c`). `FatTable`: the table in all its copies, allocator, chains and
  the stream's clusters. `FatNames`: short names, aliases and long names; `FatFormat`: their bytes.
  `FatDir`: a directory as its slots on top of the table, with lookup, free runs, growth, creation, deletion and rename, each sector
  write recorded in `log`. `FatTree`: which entry names which chain. `FatVolume`: table, directories and
  stream together, with the driver's operations. `FatRun`: ownership and whole runs. `FatCursor`: chunked
  reads with the cached cursor.
- **Browser wire protocol** (`proxy/server.js`, `src/drivers/browser.c`). `Wire`: messages, printer and
  parser automaton. `BrowserPump`: the receiver with its buffers, bulk path, carry, stalls and job slot.
  `Handoff`: tick and decode worker as single interleaved steps.
- **HDA audio pump** (`src/drivers/hda.c`): `Hda`. **E1000 receive ring** (`src/drivers/e1000.c`): `E1000`.
  **HTML tree builder** (`src/drivers/dom.c`): `DomText` says which nodes a page
  means, `Dom` builds them in the arena, `DomPage` prints documents and reads them back.
- `Arith`, `Bits`, `Bytes`, `Circular`: division, bits, byte fields and rings, shared by the others.

`dafny verify dfyconfig.toml` checks everything.

## What the proofs found

Some promises hold only under a condition. Where an item says "if and only if", the condition is exact.

- Deleting a contiguous exFAT file frees all its clusters if and only if it is at most 4 GiB less one
  cluster long (`ExfatTree.FreeCountExact`, `ExfatRemove.LeftNothing`). The clusters of a longer file that
  stay marked are those behind the wrapped count; nothing else is affected (`ExfatRemove.UnlinkInv`). They
  become an owner without a name; this, and a directory with entries deleted through a cut path, is the only
  way in which owners lose their names (`ExfatRemove.OrphansExact`, `ExfatRun.Perform`).
- A read inside a file fails if and only if its offset lies in the last cluster below 4 GiB, or the
  cursor was stranded by such a read of the same path and the offset is not below the cursor's wrapped
  position (`ExfatVolume.Volume.ReadAt`). So on a file of 4 GiB a read at offset 0 can fail
  (`ExfatRun.ReadsFail`).
- `ex_delete_one` acts on the entry its path names if and only if the text of the parent is shorter than 255
  bytes (`ExfatTarget.TargetExact`). Deleting a directory tree hands it longer texts: in the tree of
  `ExfatAstray.Astray` the driver deletes a file of another directory. When all directories of the subtree
  have shorter texts, tree deletion succeeds if and only if names have at most 63 bytes, paths fit and there
  are at most 4096 descendants, and it never touches anything outside (`ExfatVolume.Volume.Delete`). Whatever
  the texts, a subtree that is gone had its clusters in such directories (`ExfatPasses.GoneNeedsShort`).
- A committed exFAT stream is reachable under its path if and only if no other entry of the directory has the
  name: `exfat_write_close` does not look again (`ExfatTheorems.StreamReadsBack`).
- An exFAT directory whose entries end exactly at the end of its chain has no end marker (`ExfatOps.EndExact`);
  mkdir, rename and the commit of a stream are refused there, with room on the volume
  (`ExfatVolume.Volume.Mkdir`, `Rename`, `WriteClose`).
- An exFAT set that ends with an entry other than a name is never reported, so a file with a vendor entry behind its
  name cannot be seen (`ExfatForeign.ForeignExact`, `ExfatForeign.VendorHidden`).
- `fat_write_file` releases the old chain before it allocates the new one. When the free clusters and the old
  chain together are too few, the entry is left naming free clusters; this happens if and only if the old
  file had a chain (`FatVolume.Volume.WriteFile`).
- `fat_dir_is_empty` sees only 16 KiB of each cluster. With larger clusters a directory that holds a file can
  be deleted (`FatRun.HiddenEntry`), and the file's chain is lost (`FatTree.RemoveExact`).
- FAT deletion and rename accept the dot entries: deleting the single dot of an empty directory releases the
  directory its parent still names, and a renamed dot becomes a second entry for a directory
  (`FatVolume.Volume.DeleteLocated`, `FatVolume.Volume.Rename`, `FatRun.RemovalHarms`).
- A FAT stream can be committed after its directory was removed: nothing keeps the directory while the stream
  is open. When the entry can be made where the directory was, the volume stays in order if and only if another
  directory has taken over the cluster and its end mark does not lie before it
  (`FatVolume.Volume.StreamClose`); `FatRun.CommitRemoved` is a run that ends with clusters nobody names.
- `fat_read_at` fails inside a file under the same condition as its exFAT counterpart
  (`FatCursor.Reader.ReadAt`, `FatCursor.FailTwice`).
- A FAT16 table of 256 sectors offers cluster numbers from 0xFFF8 on, and a link to one of these reads back as
  the end of the chain (`FatTable.LinkExact`).
- A FAT stream of 4 GiB or more is committed with its length modulo 2^32 (`FatVolume.Volume.StreamClose`).
- A FAT name of 53 to 64 characters is written in five slots but read back without its first 52 characters:
  `FatNames.LongRoundTrip`, `FatDir.KnownAs`. The creation and rename results are therefore stated for the
  name under which lookups know the file, which is the name itself up to 52 characters.
- The decode worker checks the page generation before it takes the lock for the exchange, so a frame of the page
  before can still become the front one: a job that passed its check is current at the exchange if and only if
  nobody has navigated in between (`Handoff.CurrentExact`, `Handoff.StaleFrame`). The comment in
  `br_local_reset_stream` says that this never happens.
- `hda_play_pcm` with room for everything reports the frames it was given if and only if the stride divides
  frames times 1024, or exceeds that product by less than 1024; a frame from 96000 Hz to 44100 Hz counts as two
  (`Hda.TakenExact`, `Hda.TakenTooMany`). At 4194304 Hz and above the stride is cut to 32 bits (`Hda.RateCut`).
- The ring reset in `e1000_poll` is dead code with a NIC that stores a frame, announces it and moves its head
  in one step (`E1000.Rx.SelfHeal`). A NIC that announces first makes the poll reach it (`E1000.LaggingHead`).

Where the source's comments differ from its code the model follows the code: besides the comment in
`br_local_reset_stream`, the one above `fat_name_is_legal_lfn` says that 64 characters fit the five-entry decoder, which they do not, as above.

## Model

| member | source | states |
|---|---|---|
| ExfatNames.NameRoundTrip | src/drivers/exfat.c:57-75 | a well-formed UTF-8 name of at most 255 bytes (BMP, no NUL, no surrogates) survives decoding to UTF-16 units and encoding back |
| ExfatNames.UnitsRoundTrip | src/drivers/exfat.c:478-494 | the other direction: plain units written by any implementation come back unit for unit after being shown as UTF-8 |
| ExfatNames.EncodedExact | src/drivers/exfat.c:57-75 | a unit shown as UTF-8 is its one, two or three bytes of the standard form; zero disappears and a surrogate becomes an underscore |
| ExfatNames.ToUnits | src/drivers/exfat.c:478-494 | the UTF-8 to UTF-16 loop yields the first 255 units of the decoded name |
| ExfatNames.CompareNames | src/drivers/exfat.c:81-85 | the comparison loop finds two names equal if and only if they have the same length and byte for byte are the same or one ASCII letter in both cases |
| ExfatTheorems.CaseResolves | src/drivers/exfat.c:267-301 | paths whose components differ in the case of ASCII letters alone lead to the same entry and the same directory |
| ExfatNames.WellFormedSpellable | src/drivers/exfat.c:57-75 | every well-formed name of 1 to 255 bytes is accepted by the set builder and reads back as itself |
| ExfatEntrySet.ComputeChecksum | src/drivers/exfat.c:468-475 | the checksum loop, skipping bytes 2 and 3, computes SetChecksum (section 6.3.3 of the Microsoft exFAT specification), whose value is pinned bit by bit in ExfatFormat.ChecksumExact |
| ExfatFormat.RotAddTurns | src/drivers/exfat.c:473-473 | one step of both sums moves each of the sixteen bits one place down, the lowest to the top, and adds the byte modulo 2^16; no other number is such a step |
| ExfatFormat.ChecksumExact | src/drivers/exfat.c:468-475 | SetChecksum is where that rotating sum ends after bytes 0, 1, 4, 5 and so on of the set, and nothing else is |
| ExfatFormat.HashExact | src/drivers/exfat.c:456-464 | NameHash is where it ends after the low and the high byte of each unit of the name, the 26 small ASCII letters taken as capitals |
| ExfatFormat.SetLayout | src/drivers/exfat.c:498-536 | every byte of a built set: types 0x85, 0xC0 and 0xC1, counts, checksum and hash, attributes, time stamps, both lengths, first cluster and the units fifteen to an entry, zeros elsewhere (sections 7.4, 7.6 and 7.7 of the specification) |
| ExfatFormat.RegrownLayout | src/drivers/exfat.c:715-739 | rewriting a length puts it at offsets 8 and 24 of the Stream entry and renews the checksum; no other byte changes |
| ExfatFormat.RetiredLayout | src/drivers/exfat.c:860-860 | retiring an entry clears the top bit of its type and touches no other byte |
| ExfatEntrySet.ChecksumSkipsField | src/drivers/exfat.c:468-475 | two sets that differ only in the checksum field have the same checksum |
| ExfatEntrySet.ChecksumCompletes | src/drivers/exfat.c:498-536 | storing the checksum makes a built set complete and leaves what it decodes to unchanged |
| ExfatEntrySet.BuildSet | src/drivers/exfat.c:498-536 | the builder returns the File, Stream and Name entries of the name, or nothing for an empty name |
| ExfatEntrySet.BuildNameEntry | src/drivers/exfat.c:525-533 | one File Name entry holds the next up to 15 units |
| ExfatEntrySet.BuiltSetDecodes | src/drivers/exfat.c:498-536 | a built set is well-shaped, carries its SetChecksum and decodes to the name, kind, first cluster, length and allocation flag it was built from |
| ExfatEntrySet.NameSurvives | src/drivers/exfat.c:498-661 | name, attributes, cluster and length survive building the set and reading it back (sections 7.4, 7.6 and 7.7 of the specification) |
| ExfatEntrySet.WithSizeDecodes | src/drivers/exfat.c:715-739 | rewriting both length fields and the checksum changes the decoded length and nothing else |
| ExfatScan.ScanRun | src/drivers/exfat.c:585-661 | a scan that stops at the wanted name reports the first set of that name of the full walk, and otherwise where the walk ended |
| ExfatScan.FirstWantedLookup | src/drivers/exfat.c:585-661 | in a directory made of complete sets and dead entries, the scan hits exactly the first item of that name, with the places of its entries |
| ExfatScan.ListingAppend | src/drivers/exfat.c:169-242 | the listing of a directory with one more item is the old listing followed by that item |
| ExfatForeign.ForeignExact | src/drivers/exfat.c:169-242 | a set with entries of other types after the Stream entry is reported, with its name cut to the length the Stream entry gives, if and only if its last entry is a name and its names are long enough; otherwise the scanner passes over it and stays inside the set |
| ExfatForeign.VendorHidden | src/drivers/exfat.c:202-239 | so a file with a vendor entry behind its name is not seen at all |
| ExfatLayout.RawLookupExact | src/drivers/exfat.c:585-661 | on a consistent volume a scan of the raw bytes hits and misses exactly as the directory tree does |
| ExfatLayout.RawResolveExact | src/drivers/exfat.c:267-301 | on a consistent volume every path resolves on the raw bytes exactly as it does in the directory tree |
| ExfatLayout.RawResolves | src/drivers/exfat.c:267-301 | also in the middle of an operation, as long as the bytes still show a tree, every path of that tree resolves on them |
| ExfatSpace.OneOwner | src/drivers/exfat.c:407-452 | no cluster occurs twice: not in two owners and not at two places of one |
| ExfatSpace.SpaceNew | src/drivers/exfat.c:407-434 | a free cluster taken as a chain of its own keeps ownership exact |
| ExfatSpace.SpaceExtend | src/drivers/exfat.c:914-934 | a free cluster taken and linked behind the last one of a chain keeps ownership exact |
| ExfatSpace.SpaceFree | src/drivers/exfat.c:439-452 | releasing an owner clears the bits and links of exactly its clusters and keeps all other owners intact |
| ExfatSpace.ChainBound | src/drivers/exfat.c:186-186 | chains are no longer than the volume, so the walkers' cluster limit never cuts one off |
| ExfatVolume.Volume.AllocClus | src/drivers/exfat.c:407-434 | two hinted passes over the bitmap: returns a cluster that was free, marks it used and end-of-chain, and is the first such one from the hint on, or else from the start; 0 only when every cluster is in use |
| ExfatVolume.Volume.FreeChain | src/drivers/exfat.c:439-452 | chained: exactly the owner's clusters become free; contiguous: exactly the first clusters of the run that the 32-bit count reaches |
| ExfatTree.FreeCountExact | src/drivers/exfat.c:442-446 | the 32-bit cluster count of a contiguous run is right if and only if the run is at most 4 GiB less one cluster long |
| ExfatRemove.LeftNothing | src/drivers/exfat.c:442-452 | so deleting an entry leaves none of its clusters marked if and only if it is chained or at most that long |
| ExfatRemove.UnlinkInv | src/drivers/exfat.c:841-864 | whatever is left behind, deleting an entry keeps the volume consistent: the clusters that stay marked become a run without a name |
| ExfatRemove.OrphansExact | src/drivers/exfat.c:841-864 | a deletion leaves an owner without a name if and only if it does not reach all clusters of the entry or the entry is a directory whose entries name clusters |
| ExfatVolume.Volume.ScanDir | src/drivers/exfat.c:585-661 | the walk over sectors, clusters and links returns what the scanner automaton makes of all entries of the directory, and the cluster of the end marker |
| ExfatVolume.Volume.ListDir | src/drivers/exfat.c:169-242 | a listing is the directory's live entries in order, cut at the caller's maximum, each with its name cut at 63 bytes and its length at 32 bits |
| ExfatContents.ListedExact | src/drivers/exfat.c:306-317 | what a listing shows of an entry: the first 63 bytes of its name, its kind, and its length or 4294967295 when that is smaller |
| ExfatVolume.Volume.ResolvePath | src/drivers/exfat.c:267-301 | a path leads to the entry the tree gives it, when that is of the wanted kind |
| ExfatVolume.Volume.DirRefResolve | src/drivers/exfat.c:688-712 | finds a directory together with the places of its own entry set, if and only if the path names a directory |
| ExfatVolume.Volume.UpdateMeta | src/drivers/exfat.c:715-739 | a directory's set carries the new length and a fresh checksum; nothing else in the directory changes, and intermediate states mix old and new entries of that set only |
| ExfatVolume.Volume.GrowDir | src/drivers/exfat.c:759-793 | a directory gets one zeroed cluster linked at its end and its recorded length and checksum follow; on a full volume nothing changes; every state in between still shows all directories |
| ExfatVolume.Volume.AppendEntries | src/drivers/exfat.c:797-834 | success leaves the directory holding its old items and the new set, across sectors and old or new clusters, with or without room for an end marker; failure happens only when the volume runs full; every written state still shows the old tree |
| ExfatAppend.AppendTerminated | src/drivers/exfat.c:797-834 | writing the end marker behind the last entry completes the append |
| ExfatAppend.AppendFull | src/drivers/exfat.c:815-820 | a set that ends exactly at the end of the chain is complete without an end marker |
| ExfatOps.EndExact | src/drivers/exfat.c:815-820 | a full walk of a directory meets no end marker if and only if its entries fill the chain to the last slot; new entries are refused there |
| ExfatVolume.Volume.DeleteOne | src/drivers/exfat.c:841-864 | acts on the entry that the path means once the text of its parent is cut at 254 bytes; result code exactly as that entry dictates (missing, not empty, deleted); on success it is gone with the clusters its length reaches; otherwise nothing changes |
| ExfatTarget.TargetExact | src/drivers/exfat.c:664-673 | the entry acted on is the one the path names if and only if the text of its parent is shorter than 255 bytes |
| ExfatVolume.Volume.Delete | src/drivers/exfat.c:866-906 | single entries as above. A directory with content, when every directory below it has a text shorter than 255 bytes: success if and only if all names have at most 63 bytes, all paths fit the 300-byte buffer and there are at most 4096 descendants; then exactly the subtree is gone; otherwise every directory and file outside is unchanged; no owner loses its name when the subtree has no over-long contiguous file. On every input: no entry appears, remaining files keep their bytes, the volume stays consistent, and owners lose their names if and only if one of the deletions made leaves clusters behind |
| ExfatVolume.Volume.RemoveLeaf | src/drivers/exfat.c:877-896 | each pass descends along the first entries of listings and deletes the entry that the cut path of the leaf means, or ends the deletion |
| ExfatPasses.DescentEnds | src/drivers/exfat.c:877-889 | the descent ends at the target when it is empty, and else at a file or empty directory below it whose names a listing shows whole |
| ExfatPasses.LeafFound | src/drivers/exfat.c:890-896 | when texts are short enough, what a pass deletes is that leaf, inside the subtree |
| ExfatPasses.ClearingPass | src/drivers/exfat.c:873-903 | a pass either removes one more entry of the subtree or stops, without effect, at a name or path that does not fit |
| ExfatPasses.ClearingEnds | src/drivers/exfat.c:866-906 | when the target itself can be deleted, all its entries have been handled one by one, and exactly the subtree is gone |
| ExfatPasses.TreeGoneStep | src/drivers/exfat.c:866-906 | deleting the emptied directory completes the deletion: exactly the subtree's clusters are free (save what the 32-bit count leaves), every directory outside is unchanged and every file outside keeps its bytes |
| ExfatPasses.DeepStays | src/drivers/exfat.c:664-673 | whatever the paths, entries in directories with a text of 255 bytes or more keep their clusters |
| ExfatPasses.PassHarms | src/drivers/exfat.c:873-903 | a pass leaves owners without a name if and only if the entry it deletes does, so that this can be told of a whole tree deletion beforehand, pass by pass |
| ExfatPasses.LostExact | src/drivers/exfat.c:442-446 | deleting a subtree entry by entry leaves nothing marked if and only if it has no contiguous file longer than 4 GiB less one cluster |
| ExfatPasses.GoneNeedsShort | src/drivers/exfat.c:664-673 | when a whole subtree is gone, every entry of it with clusters that deletions reach lay in a directory with a text shorter than 255 bytes |
| ExfatAstray.Astray | src/drivers/exfat.c:664-673 | a concrete tree with two directories whose paths agree in the first 254 bytes: deleting one deletes a file of the other |
| ExfatSubtree.LeafEntries | src/drivers/exfat.c:841-864 | removing a leaf removes one entry of the tree and no other |
| ExfatTheorems.DeletedFrees | src/drivers/exfat.c:841-864 | after a deletion bitmap and FAT differ exactly at the clusters of the entry that its length reaches |
| ExfatTheorems.DeletedName | src/drivers/exfat.c:841-864 | the deleted name is gone when no other entry had it |
| ExfatTheorems.DeletionKeepsFiles | src/drivers/exfat.c:841-864 | every path to another file leads where it led |
| ExfatVolume.Volume.WriteOpen | src/drivers/exfat.c:936-956 | opens if and only if no stream is open, a cluster fits the buffer and the path is free or deletable; a refusal changes nothing; an existing file or empty directory of that name is deleted |
| ExfatVolume.Volume.FlushCluster | src/drivers/exfat.c:914-934 | the waiting bytes, zero-padded, become one more cluster of the stream; no other owner changes; fails only on a full volume, without effect |
| ExfatVolume.Volume.WriteAppend | src/drivers/exfat.c:958-978 | the stream holds the bytes so far followed by the new ones; when the volume runs full the stream is dropped and all else is as before |
| ExfatVolume.Volume.WriteClose | src/drivers/exfat.c:980-1014 | abort frees the stream's clusters and leaves everything else; commit is refused exactly when the parent is missing or the directory has no end marker, and then drops the stream alone; otherwise it succeeds or the volume ran full; success turns the stream into a file with exactly the appended bytes, with all other owners as they were, but for the directory, which may have grown; its last set is the one built for the name, attribute 0x20, the stream's cluster and length, and flags 1 |
| ExfatVolume.Volume.Abort | src/drivers/exfat.c:983-988 | an abandoned stream leaves no owner behind and no byte of another cluster changed |
| ExfatVolume.Volume.WriteFile | src/drivers/exfat.c:1017-1022 | open, append and commit in one go: refused openings change nothing, refused commits leave the deletion alone, and otherwise the file is written, with all other owners as they were, or the volume ran full |
| ExfatTheorems.StreamReadsBack | src/drivers/exfat.c:914-1022 | however the data was split into appends, the committed file reads back as exactly that data; its path leads to it if and only if no other entry had the name |
| ExfatTheorems.StreamKeepsOthers | src/drivers/exfat.c:914-1022 | a commit leaves path and bytes of every other file as they were |
| ExfatTheorems.OverwriteReadsBack | src/drivers/exfat.c:1017-1022 | writing a file over whatever deletable entry was there reads back as exactly the data |
| ExfatTheorems.OverwriteKeepsOthers | src/drivers/exfat.c:1017-1022 | and leaves path and bytes of every other file as they were |
| ExfatTheorems.CreationKeepsFiles | src/drivers/exfat.c:797-834 | a new entry at the end of a directory redirects no path to a file |
| ExfatTheorems.CreationResolves | src/drivers/exfat.c:797-834 | the new entry is what its path names if and only if no earlier entry has the name |
| ExfatContents.CommittedBefore | src/drivers/exfat.c:958-1014 | what a commit does can be told from the state before the last appends |
| ExfatVolume.Volume.Mkdir | src/drivers/exfat.c:1024-1057 | refused exactly when the parent is missing, the name is taken or the directory has no end marker, and then nothing changes; otherwise it succeeds or the volume ran full; success: a zeroed cluster of its own became the empty directory under that path and the only new owner, its set built with attribute 0x10 and flags 1; everything else as before |
| ExfatMkdir.DirDone | src/drivers/exfat.c:1024-1057 | writing the set of a fresh cluster makes it part of the tree |
| ExfatVolume.Volume.Rename | src/drivers/exfat.c:1063-1109 | refused exactly as the tree and the end marker dictate, with the code they dictate and without effect; otherwise it succeeds or the volume ran full; success moves the entry to the new name with its cluster, length and kind, in a set built for exactly these, and no owner comes or goes; after every single device write the old or the new path leads to them |
| ExfatRename.AcceptableExact | src/drivers/exfat.c:1065-1073 | accepted are names of 1 to 200 bytes without control characters and without the nine reserved ones |
| ExfatRename.RenamedResolves | src/drivers/exfat.c:1063-1109 | the new path names the renamed entry |
| ExfatRename.OldNameGone | src/drivers/exfat.c:1063-1109 | the old path names nothing any more |
| ExfatRename.SafeByOld | src/drivers/exfat.c:1063-1109 | in any device state that shows the old tree, the old path leads to the file on the raw bytes |
| ExfatRename.SafeByNew | src/drivers/exfat.c:1063-1109 | in any device state that shows the new entry, the new path leads to the file on the raw bytes |
| ExfatRename.NoCycle | src/drivers/exfat.c:688-712 | the path to a directory does not pass through an entry of that directory |
| ExfatVolume.Volume.ReadFile | src/drivers/exfat.c:333-364 | a whole-file read returns the front of the file's bytes, cut at the buffer, and the length cut at 32 bits; fails exactly when the path names no file |
| ExfatVolume.Volume.ReadAt | src/drivers/exfat.c:1112-1163 | inside the file a read returns the bytes at the offset if and only if the offset is below 4 GiB less one cluster and the same path's cursor was not stranded by an earlier failed read at or below that offset; every outcome leaves a cursor that later reads can rely on |
| ExfatVolume.Volume.Seek | src/drivers/exfat.c:1133-1142 | moving the cursor reaches the cluster of the offset exactly when the offset is below 4 GiB less one cluster; otherwise it leaves the cursor past the end of the chain, at a known position |
| ExfatRun.ReadsFail | src/drivers/exfat.c:1112-1163 | on a chained file of 4 GiB a read in the last cluster fails, and the next one at offset 0 then fails too, though alone it succeeds |
| ExfatCursor.WrapStep | src/drivers/exfat.c:1133-1142 | the 32-bit cursor offset never passes the last cluster boundary below 4 GiB; it starts over there |
| ExfatCursor.CursorFrame | src/drivers/exfat.c:1112-1130 | a cached cursor stays right across stream writes |
| ExfatRun.Perform | src/drivers/exfat.c:759-1163 | any single operation, refused and failed ones included, keeps the volume in order unless the volume runs full; and then no owner loses its name if and only if the operation is none of the harmful ones listed in Harms; what it does to tree, device and stream is what Does says of that operation |
| ExfatRun.NamesAtEnd | src/drivers/exfat.c:841-1022 | along a run owners lose their names at the harmful operations and nowhere else, and none gets its name back |
| ExfatRun.Run | src/drivers/exfat.c:759-1163 | after any sequence of operations, refused and failed ones included, every used cluster belongs to the system region or to exactly one owner; chains are disjoint, acyclic and end; the bitmap says so. From a volume on which every owner had a name, every owner is the root, the open stream or named exactly once if and only if no operation was harmful. Each operation of the run has done what Does says. Only an operation during which the volume ran full ends a run |
| ExfatRun.InvOwned | src/drivers/exfat.c:407-452 | the volume invariant means that ownership: each owner is the root, the open stream, named by exactly one entry, or one of those that deletions left without a name |
| ExfatRun.ChecksumsCurrent | src/drivers/exfat.c:468-739 | in every consistent state each live entry set, grown directories included, carries the SetChecksum of its current bytes |
| FatTable.ValueWritten | src/drivers/fat.c:538-571 | a written FAT entry reads back as the value; FAT32's top four bits stay |
| FatTable.ValueRestored | src/drivers/fat.c:538-571 | writing a value and the old one back restores the raw entry |
| FatTable.LinkExact | src/drivers/fat.c:538-571 | a link reads back as written if and only if the cluster's number lies below the end marks |
| FatTable.Table.NextCluster | src/drivers/fat.c:150-187 | the next cluster of a chain, 0 at its end |
| FatTable.Table.WriteEntry | src/drivers/fat.c:538-571 | one entry changes, in every copy alike |
| FatTable.Table.AllocCluster | src/drivers/fat.c:576-614 | two hinted passes: a cluster in range that was free, the first from the hint on or else from the start, only its entry marked; 0 only when none is free |
| FatTable.Table.FreeChain | src/drivers/fat.c:617-623 | ends on every table whose links are in range, cyclic ones included, clearing the entries met |
| FatTable.FreeAllChain | src/drivers/fat.c:617-623 | from the head of a well-formed chain exactly that chain is cleared |
| FatTable.ChainedNew | src/drivers/fat.c:576-614 | a new chain keeps every used entry in exactly one chain |
| FatTable.ChainedExtend | src/drivers/fat.c:1496-1505 | so does adding a cluster to a chain |
| FatTable.ChainedFree | src/drivers/fat.c:617-623 | and releasing one |
| FatTable.Table.ReleaseChain | src/drivers/fat.c:1011-1019 | exactly the chain's entries become free and it is nobody's any more |
| FatTable.Table.StreamFlush | src/drivers/fat.c:1496-1505 | the stream gets one more cluster, or nothing changes and no cluster is free |
| FatTable.Table.StreamAbort | src/drivers/fat.c:1561-1569 | after an abort every FAT copy is, entry for entry, what it was when the stream was opened |
| FatTable.Table.StreamRoundTrip | src/drivers/fat.c:1496-1569 | open without an existing entry, any number of flushes, abort: no FAT copy has changed; the table runs full exactly when fewer entries are free |
| FatTable.FreeGained | src/drivers/fat.c:617-623 | releasing a chain makes as many entries free as it has clusters |
| FatTree.LooseAddOk | src/drivers/fat.c:1496-1505 | a chain without a name, like the open stream's, keeps the naming exact |
| FatTree.FileAddOk | src/drivers/fat.c:719-801 | so does a new file entry for such a chain |
| FatTree.DirAddOk | src/drivers/fat.c:807-872 | and a new directory with its dot entries |
| FatTree.MoveOk | src/drivers/fat.c:1395-1440 | and a rename of an entry that is no dot |
| FatTree.RetargetOk | src/drivers/fat.c:763-786 | and an entry rewritten in place for a new chain |
| FatTree.RemoveExact | src/drivers/fat.c:1011-1019 | removing an entry and its chain keeps the naming exact if and only if a removed directory names no chain any more |
| FatTree.DotNamed | src/drivers/fat.c:1395-1440 | a renamed dot entry never keeps it: two entries name one directory |
| FatTree.HeadLost | src/drivers/fat.c:1011-1019 | nor does a directory whose chain is gone |
| FatTree.ParentHolds | src/drivers/fat.c:1003-1009 | a directory's parent is never empty, so its double dot cannot be deleted |
| FatVolume.Volume.WriteFile | src/drivers/fat.c:719-801 | a new file: written if and only if enough clusters are free and an entry can be made, else nothing changes; an overwrite: written if and only if the free clusters and the old chain are enough, else the old chain is gone and the entry still names it, which leaves the volume in order only when the file was empty of clusters; a directory of that name is refused |
| FatVolume.Volume.Mkdir | src/drivers/fat.c:807-872 | succeeds if and only if a cluster is free and an entry can be made; then the new cluster holds the dot entries for itself and its parent and is named by that entry alone; otherwise nothing changes |
| FatVolume.Volume.DirIsEmpty | src/drivers/fat.c:991-1009 | finds a directory empty if and only if the first 16 KiB of each of its clusters hold only dot entries |
| FatVolume.Volume.DeleteLocated | src/drivers/fat.c:1011-1019 | result code exactly as the directory dictates; on success entry and chain are gone and as many clusters are free as it had; the volume stays in order if and only if the entry was no dot and a deleted directory named no chains |
| FatVolume.Volume.Rename | src/drivers/fat.c:1395-1440 | result code exactly as the directory dictates, refusals without effect; on success the entry names its old chain under the new name, also when the directory had to grow; the volume stays in order if and only if the entry was no dot |
| FatVolume.Volume.StreamOpen | src/drivers/fat.c:1507-1537 | refused exactly when a stream is open, the cluster exceeds the buffer or the name is a directory's; an existing file is retired with its chain |
| FatVolume.Volume.FlushCluster | src/drivers/fat.c:1496-1505 | the stream gets one more cluster if and only if one is free |
| FatVolume.Volume.Append | src/drivers/fat.c:1539-1559 | the bytes are taken if and only if the free clusters hold them; else the stream is dropped and exactly its clusters are free again |
| FatVolume.Volume.StreamClose | src/drivers/fat.c:1561-1586 | abort frees exactly the stream's clusters; commit succeeds if and only if the tail finds a cluster and an entry can be made where the stream's directory is, or where its first cluster is now when it has been removed; without success the stream is dropped; with success the volume is in order if and only if the directory is still there or another one has taken over its first cluster, and then the entry names the stream's chain, one cluster at least, with the length modulo 2^32 |
| FatVolume.Volume.CommitInto | src/drivers/fat.c:1199-1387 | a stream committed into the later clusters of another directory becomes an entry of that directory if and only if its end mark does not lie before them |
| FatVolume.Volume.CommitLost | src/drivers/fat.c:1199-1387 | a stream committed where no directory is leaves its clusters in use without a name, unless no entry can be made there |
| FatDir.TailIn | src/drivers/fat.c:1199-1387 | an entry made in the end of a directory, with no end mark before it, is one entry more of the whole directory |
| FatCursor.Reader.ReadAt | src/drivers/fat.c:1443-1488 | inside a file a read returns the bytes at the offset if and only if the offset is below 4 GiB less one cluster and the same path's cursor was not left behind the end of the file by an earlier failed read at or below that offset; every outcome leaves the cursor on that file |
| FatCursor.Reader.Seek | src/drivers/fat.c:1465-1470 | moving the cursor reaches the cluster of the offset exactly when the offset is below 4 GiB less one cluster; otherwise it ends behind the last cluster |
| FatCursor.FailTwice | src/drivers/fat.c:1443-1488 | on a file of 4 GiB less one byte a read in the last cluster fails, and then one at its start fails too |
| FatRun.UsedOwned | src/drivers/fat.c:576-623 | in a volume in order an entry of the table is in use exactly when it belongs to a chain, and then to one only |
| FatRun.ChainNamed | src/drivers/fat.c:719-1586 | each chain is the root's, the open stream's or named by exactly one live entry, whose directory bit is right |
| FatRun.EntryOwned | src/drivers/fat.c:719-1586 | each live entry names such a chain or none |
| FatRun.Perform | src/drivers/fat.c:719-1586 | any single operation leaves the volume in order if and only if it is none of the harmful ones listed in Harms, and then it has done what Does says of it |
| FatRun.ValidOwned | src/drivers/fat.c:576-623 | in a volume in order all copies of the table agree, its entries in use are those of the chains, each in one chain only, and every chain is the root's, the open stream's or named by exactly one live entry |
| FatRun.Run | src/drivers/fat.c:719-1586 | after any sequence of operations, refused and failed ones included, ownership is as just said, unless one of them was harmful; each operation has done what Does says; a run stops only behind a harmful operation, and then the volume is not in order |
| FatRun.CommitRemoved | src/drivers/fat.c:1507-1586 | a stream opened in an empty directory that is then removed: committing it leaves the volume wrong, unless the name can get no entry where the directory was |
| FatRun.RemovalHarms | src/drivers/fat.c:1003-1019 | on clusters up to 16 KiB the only harmful removal is that of the single dot of an empty directory |
| FatRun.HiddenEntry | src/drivers/fat.c:258-306 | on larger clusters a directory whose file lies behind 512 deleted entries is taken for empty |
| FatNames.ShortRoundTrip | src/drivers/fat.c:625-643 | a base[.ext] name written as eleven bytes reads back as the name, up to case |
| FatNames.Is83Short | src/drivers/fat.c:1102-1124 | every name the driver stores as a short name alone reads back as itself, up to case |
| FatNames.AliasShort | src/drivers/fat.c:1145-1190 | every candidate alias NAME~n reads back as itself |
| FatNames.LfnSlotUnits | src/drivers/fat.c:1345-1368 | a long-name slot holds its thirteen units, sequence number and marker where readers look for them |
| FatNames.LongRoundTrip | src/drivers/fat.c:219-244 | the slots written for a long name read back as the name if and only if they are at most four; with a fifth, only the characters from the 53rd on are read |
| FatNames.SameNameExact | src/drivers/fat.c:347-356 | two names compare equal if and only if they have the same length and byte for byte are the same or one ASCII letter in both cases |
| FatFormat.Make83Exact | src/drivers/fat.c:625-643 | a short name is the first eight bytes before the last dot and the first three behind it, small letters as capitals, blanks behind; so no byte of it is a small letter |
| FatFormat.Parse83Exact | src/drivers/fat.c:246-254 | eleven bytes read as what stands before the first blank of the first eight and of the last three, with a dot between unless the ninth is blank, up to the first zero |
| FatFormat.Is83Exact | src/drivers/fat.c:1102-1124 | a name is stored short if and only if it is one to eight letters, digits or marks ! # $ % & ( ) - @ ^ _ { } ~, apostrophe or grave accent, alone or with a dot and one to three more |
| FatFormat.LegalExact | src/drivers/fat.c:1129-1143 | a name is legal if and only if it has 1 to 64 bytes, each such a character, blank, + , . ; = [ ] or above 126, and does not end in a blank or dot |
| FatFormat.AliasExact | src/drivers/fat.c:1145-1190 | the n-th alias: up to six letters, digits, underscores or hyphens from before the last dot (FILE when there are none; five from the tenth on), a tilde, the number, and up to three from behind the dot, in capitals |
| FatFormat.CharsExact | src/drivers/fat.c:206-213 | a long-name slot reads as its units in order without terminators and padding, a question mark for each above 127 |
| FatFormat.ChecksumExact | src/drivers/fat.c:1094-1099 | the checksum of a short name is where an eight-bit sum ends that is rotated right by one, bit for bit, before each byte is added, and nothing else is |
| FatFormat.EntrySetLayout | src/drivers/fat.c:1342-1386 | every byte of a new entry: long-name slots with descending numbers, the highest marked, thirteen characters at their offsets, 0x0F and the checksum; then the short name, attributes, cluster halves and size, zeros elsewhere |
| FatFormat.LongNameExact | src/drivers/fat.c:219-244 | a run of slots spells its five parts in order, at most 63 bytes; a part is what the last slot with its number holds, slots behind the first with number five not counted |
| FatDir.Directory.Locate | src/drivers/fat.c:887-966 | finds the first live entry whose short or long name matches, with the collected long-name slots, cluster, size and kind; misses only when there is none |
| FatFormat.FoundExact | src/drivers/fat.c:887-966 | that is the first slot that is not free, deleted, a long-name slot or a volume label, lies before the end mark and goes by the name |
| FatFormat.ItemExact | src/drivers/fat.c:946-953 | first cluster in two halves, size, and directory bit are where the driver reads them |
| FatFormat.CaseFound | src/drivers/fat.c:347-356 | names that differ in the case of ASCII letters alone are found at the same place with the same long-name slots and content |
| FatDir.Directory.FindFreeRun | src/drivers/fat.c:1199-1297 | the first place where enough slots in a row are free, after growing the directory if need be; fails only when there is none and it cannot grow |
| FatDir.Directory.Grow | src/drivers/fat.c:1281-1291 | fails only when every cluster is in use; a cluster is linked before it is zeroed: every state in between has the old slots in front |
| FatDir.Directory.GenAlias | src/drivers/fat.c:1145-1190 | the first of 99 aliases that no entry has |
| FatDir.Directory.CreateDirent | src/drivers/fat.c:1318-1387 | code -2 exactly for illegal names, -1 exactly for want of an alias, or of room with no cluster to grow into, and then without effect; on success the set is in the first fitting place, and in a tidy directory lookups find it and everything found before; a grown directory's chain is one cluster longer in the table |
| FatDir.Directory.MarkDeleted | src/drivers/fat.c:970-982 | the entry and its collected long-name slots are marked, one write each |
| FatDir.Directory.Rename | src/drivers/fat.c:1395-1440 | codes -2 and -3 exactly for illegal and taken names; on success, in a tidy directory, the entry has the new name and old content, every other entry shows what it did, and after every write the old or the new name leads to the content |
| FatDir.PlacedShows | src/drivers/fat.c:1342-1386 | until its last slot is written a new set is invisible to lookups; then it shows, and all other entries show what they did |
| FatDir.CreationFinds | src/drivers/fat.c:1199-1387 | lookup after creation: names found before lead where they led, the new name and its alias lead to the new entry, nothing else is found |
| FatDir.KnownAs | src/drivers/fat.c:219-254 | the name a long-named file can be found under is the name it was created with if and only if that has at most 52 characters |
| FatDir.PlacedTidy | src/drivers/fat.c:1199-1387 | creation keeps a directory tidy: only free slots behind the end mark, no orphaned long-name slots |
| FatDir.ErasedShows | src/drivers/fat.c:970-982 | while an entry is being deleted slot by slot, all other entries show what they did |
| FatDir.DeletionFinds | src/drivers/fat.c:1011-1019 | lookup after deletion: names of other entries lead where they led, a name only the deleted entry had leads nowhere |
| FatDir.RenameShort | src/drivers/fat.c:1415-1427 | once the short name is rewritten, and while the old long name is being retired, the new name leads to the entry |
| FatDir.WritingKeeps | src/drivers/fat.c:1318-1387 | in every state while a set is written, every name that led somewhere still leads there |
| FatDir.MarkingKeeps | src/drivers/fat.c:1437-1437 | in every state while the old set is retired, the new name leads to an entry with the old content |
| FatDir.RenamedFinds | src/drivers/fat.c:1395-1440 | after a rename the new name leads to the entry, names of other entries lead where they led, and the old name leads nowhere unless another entry has it |
| Wire.WireRoundTrip | proxy/server.js:106-134 | any sequence of messages within the limits, printed by the sender, is parsed back as exactly those messages in order, whatever the header buffer held |
| Wire.FeedConcat | src/drivers/browser.c:762-869 | parsing is independent of how the bytes are cut |
| Wire.DispatchPrinted | src/drivers/browser.c:775-835 | a printed header line opens the payload of its message |
| BrowserPump.Receiver.ParseByte | src/drivers/browser.c:762-869 | one byte moves the parser as one step of the automaton; completed messages are logged in order |
| BrowserPump.Receiver.BulkConsume | src/drivers/browser.c:877-920 | a bulk copy does what feeding the same bytes one at a time does |
| BrowserPump.Receiver.PayloadComplete | src/drivers/browser.c:676-720 | a payload is dropped exactly when its markers are wrong, skipped exactly when it is a full frame with a backlog behind it and the last one was not skipped, otherwise submitted, or held when the job slot is busy |
| BrowserPump.Receiver.JobSubmit | src/drivers/browser.c:652-670 | with the slot idle the job refers to the filled buffer and the other buffer is filled next; with the slot busy nothing changes |
| BrowserPump.Receiver.Retry | src/drivers/browser.c:946-949 | a held message is submitted once, or stays held |
| BrowserPump.Receiver.Pump | src/drivers/browser.c:930-988 | a pump loses and repeats nothing: received bytes are parsed, carried, or still in the ring; it stalls only on a busy job slot, with nothing consumed when it was stalled on one before; otherwise it parses all it carries and at least a chunk of what waits, and never takes more than three |
| BrowserPump.Receiver.LocalReset | src/drivers/browser.c:1001-1016 | a reset starts a fresh framing with an empty carry |
| BrowserPump.Receiver.WorkerDone | src/drivers/browser.c:635-646 | the worker reads exactly the bytes that were submitted, in order of submission |
| BrowserPump.Delivered | src/drivers/browser.c:930-988 | what has been completed is a prefix of the messages sent, and all of them once all bytes are parsed |
| BrowserPump.Session | src/drivers/browser.c:762-988 | for any cutting into arrivals, any pump budgets and any stalls, the messages come out as sent, and the payloads the worker has decoded are the submitted ones in order; frame ends end a frame, audio is played, a picture is dropped if and only if its markers are wrong, every other tile is submitted, and a full frame is skipped only with more than 8 KiB waiting; between two skipped full frames one was submitted |
| BrowserPump.SkipExact | src/drivers/browser.c:694-706 | whether a full frame with good markers is skipped follows from the frames before it and the bytes waiting: it is skipped if and only if the last one was not and more than 8 KiB wait |
| BrowserPump.NoDoubleSkip | src/drivers/browser.c:694-706 | no two full frames in a row are skipped |
| Handoff.HandoffSafe | src/drivers/browser.c:599-670 | under every interleaving: payload bytes never go into the buffer of a queued or running job, front and back are the two arrays outside the locked exchange, and the presenter never reads an array being decoded into |
| Handoff.RunOk | src/drivers/browser.c:302-311 | every reachable state keeps the job and frame invariants |
| Handoff.JobEnds | src/drivers/browser.c:599-645 | when a job ends, front and back frame have changed places if and only if it is an image that passed its generation check; otherwise they are where they were |
| Handoff.JobFinishes | src/drivers/browser.c:635-645 | a queued or running job ends within nine steps of the worker alone, unless the presenter holds the lock, which it can always release |
| Handoff.FailureEnds | src/drivers/browser.c:605-609 | a decode that fails ends its job in one more step and moves no frame |
| Handoff.PresenterGets | src/drivers/browser.c:303-311 | a presenter that is ready gets the lock after at most five steps of the worker |
| Handoff.ByteStored | src/drivers/browser.c:843-855 | a payload byte is stored at its place in the buffer being filled, and nothing else changes |
| Handoff.CurrentExact | src/drivers/browser.c:610-614 | a job that passed its check still belongs to the current page at a later step if and only if nobody has navigated in between |
| Handoff.StaleFrame | src/drivers/browser.c:599-618 | a run in which the user navigates between the check and the exchange, and the frame of the page before becomes the front one |
| Hda.Player.PlayPcm | src/drivers/hda.c:571-602 | queues the resampled frames that fit, in order, and reports the matching number of input frames, for every rate |
| Hda.Player.Tick | src/drivers/hda.c:609-679 | behind what is unplayed, or behind a lead of silence when that is silence throughout and longer, come exactly the queued frames that fit, at the software volume, then silence; afterwards the ring is full, or the FIFO is empty and the ring silent all round |
| Hda.Player.Resync | src/drivers/hda.c:628-638 | rewinding the writer discards only silence |
| Hda.Player.Drain | src/drivers/hda.c:643-662 | frames go from FIFO to ring in order, at the software volume |
| Hda.VolumeExact | src/drivers/hda.c:645-653 | muted output is silence, without software gain or at 100 a frame is unchanged, otherwise each sample is its share in hundredths, cut toward zero |
| Hda.StrideExact | src/drivers/hda.c:581-582 | the stride is the input rate times 1024, modulo 2^32, divided by the stream rate and rounded down, and at least one |
| Hda.OutExact | src/drivers/hda.c:583-584 | as many output frames as whole strides fit into the input, and at least one |
| Hda.InputExact | src/drivers/hda.c:589-589 | an output frame is taken from the input frame that its strides have reached |
| Hda.Player.Pad | src/drivers/hda.c:669-678 | padding adds silence behind the unplayed frames |
| Hda.Player.Play | src/drivers/hda.c:609-613 | what the reader plays, without inserted silence, stays a prefix of what was queued |
| Hda.NoOverflow | src/drivers/hda.c:577-590 | the resampler's products stay inside 32 bits |
| Hda.SameRate | src/drivers/hda.c:581-589 | at equal rates below 4194304 Hz every input frame is queued unchanged |
| Hda.SameRateExact | src/drivers/hda.c:581-583 | and only there: above, the rate times 1024 passes 32 bits and the stride is wrong |
| Hda.RateCut | src/drivers/hda.c:581-583 | 4194304 Hz is played with 1024 output frames for one input frame |
| Hda.TakenExact | src/drivers/hda.c:581-601 | when everything fits, the report equals the frames given if and only if the stride divides frames times 1024, or, when it exceeds that, is less than 1024 more; with larger strides more frames are reported than were given |
| Hda.TakenTooMany | src/drivers/hda.c:581-601 | one frame from 96000 Hz to 44100 Hz is reported as two |
| E1000.Rx.Poll | src/drivers/e1000.c:666-707 | with the NIC acting between any two steps, frames are taken once and in arrival order; when it ends, every frame the NIC had accepted before the call has been taken, and delivered to an attached stack; the tail is one behind the cursor between descriptors |
| E1000.Rx.SelfHeal | src/drivers/e1000.c:687-706 | the reset branch is never reached with a conforming NIC |
| E1000.Rx.TakeOne | src/drivers/e1000.c:668-679 | one frame is delivered and its descriptor recycled |
| E1000.Rx.constructor | src/drivers/e1000.c:287-308 | the initial ring is empty with the tail one behind the cursor |
| E1000.HeadAtTail | src/drivers/e1000.c:688-690 | head and tail meet only when the ring holds as many frames as it can |
| E1000.LaggingHead | src/drivers/e1000.c:687-706 | from an idle ring, a NIC that announces a frame before moving its head lets the poll reach the reset, with the frame just taken; with the head moved first it does not |
| E1000.EmptyIdle | src/drivers/e1000.c:666-707 | every reachable empty ring is such a ring |
| Dom.Doc.ParseHtml | src/drivers/dom.c:133-276 | for every input parsing ends, a visit from the root passes indices 0, 1, ..., used-1 in exactly that order, and kinds, names, texts and parents of the nodes are the first 512 that DomText.Page gives for the text and tags of the page |
| DomPage.PageRoundTrip | src/drivers/dom.c:133-276 | any document of fitting names and texts, nested at most 31 deep, printed as HTML with its marks escaped, is read back as exactly its nodes in document order under the body |
| DomText.TagNameExact | src/drivers/dom.c:176-187 | the name of a tag is what stands before the first blank or slash, 15 bytes at most, in small letters |
| DomText.VoidExact | src/drivers/dom.c:76-83 | void are the thirteen elements of the HTML Living Standard, in any case |
| DomText.BodyExact | src/drivers/dom.c:120-131 | a page that starts with an H and has an empty line begins behind the first one, any other at its front |
| DomText.TextPlus | src/drivers/dom.c:255-262 | the text of a node: a gap becomes one blank, none in front, and what does not fit 127 bytes is dropped |
| Dom.Doc.AddNode | src/drivers/dom.c:52-62 | a node is added as the last child of the top open element, and the arena stays in document order; refused only when the arena is full |
| Dom.Doc.AppendChild | src/drivers/dom.c:52-62 | the walk over the siblings ends at the last one, and only that link changes |
| Dom.Doc.Tag | src/drivers/dom.c:160-228 | a tag ends at the first bracket; whether it adds an element, opens it, closes one, or switches script and style off or on is exactly as the name, the slash and the state dictate |
| Dom.Doc.Close | src/drivers/dom.c:206-213 | pops to the innermost open element of that name above the body, and leaves the stack as it is if and only if there is none |
| Dom.Doc.Entity | src/drivers/dom.c:230-252 | decodes exactly the six named entities |
| DomPage.EntityExact | src/drivers/dom.c:230-252 | &amp; &lt; &gt; &quot; &apos; and &nbsp; are read as the characters they stand for |
| Dom.AppendLaid | src/drivers/dom.c:52-62 | hanging a node off the rightmost path keeps every subtree a stretch of the arena |
| Dom.VisitRange | src/drivers/dom.c:445-455 | in an arena of that shape the visit of a node passes its stretch in index order |

## Left out

- ExfatVolume.Volume.Mkdir: when the volume runs full while the entry is added, the result says only that; the new cluster stays marked, as in the source.
- ExfatVolume.Volume.Rename: the same when the volume runs full while the new set is added.
- ExfatVolume.Volume.WriteClose: the same when the directory cannot grow.
- ExfatVolume.Volume.Delete: with a directory of 255 bytes of text or more below the target, success no longer means that the whole subtree is gone; what is stated then is that no entry appears, remaining files keep their bytes, the first pass removes what its cut path means, and deep entries keep their clusters.
- ExfatRun.Run: an operation during which the volume ran full ends the run when it leaves clusters marked.
- ExfatVolume.Volume.FreeChain: a contiguous file's recorded length fits its clusters.
- ExfatNames.ToUnits: names do not end inside a multi-byte sequence; the source reads past the end of such a name.
- ExfatEntrySet.BuildSet: the same.
- FatVolume.Volume.WriteFile: lengths and chains, not the bytes of files; what a removed directory's cluster shows at a commit is given.
- FatVolume.Volume.FlushCluster: the same.
- FatVolume.Volume.Append: the same.
- FatCursor.Reader.ReadAt: clusters are at most 16 KiB; with larger ones the source copies from behind its read buffer. What a lookup finds is given.
- FatTable.Table.AllocCluster: tables end below the number 0xFFF8, or 0x0FFFFFF8 on FAT32, from which links read as end marks.
- FatVolume.Volume.DeleteLocated: operations are given the first cluster of the directory; the walk along a path and the deletion of whole trees, which repeats this operation, are not modelled.
- FatDir.Directory.CreateDirent: names are ASCII; other characters are written as UCS-2 and read back as question marks.
- FatDir.Directory.Rename: the results about what is found are for tidy directories (only free slots after the end mark, no orphaned long-name slots, at most five of them in a row).
- Dom.Doc.Tag: attributes are not part of the nodes.
- Hda.Player.Play: the reader does not pass the writer between ticks unless the whole ring is silence, and a tick is one step for it.
- E1000.Rx.Poll: the NIC stores, announces and moves its head in one step, and the poll is not entered again from its own callback or an interrupt.
- BrowserPump.Receiver.Pump: the clock is an arbitrary choice, bytes arrive between pumps, and the connection watchdog is not modelled.
- BrowserPump.Receiver.ParseByte: decimal numbers are unbounded; a header with a number beyond 32 bits overflows in the source.
- Handoff.StaleFrame: the flags that ask for presenting are not part of the state; what is stated is which frame array is the front one.
- Device errors: every device callback succeeds. Retries and error returns for failed reads and writes are not modelled.
- ExfatForeign.ForeignExact: sets with entries of other types are scanned; the directories in the tree hold sets as this driver writes them, so deleting or renaming such a set is not modelled.
- exFAT: directories with the contiguous flag, other time stamps than the fixed one, the up-case table, mounting and the volume label.
- exFAT: read-modify-write of FAT and bitmap sectors is modelled entry by entry; directory and file sectors are modelled byte by byte. The bitmap is kept apart from the cluster bytes.
- exFAT: paths are lists of components whose text fits the 256-byte buffers; splitting the text at slashes is left out, as it would only add easy members.
- exFAT: one volume; the stream buffer the source shares between volumes is the volume's own. Lengths above 2^31 as negative `int` results are not modelled.
- FAT: FAT12, FSInfo and timestamps; directory slots are addressed by position in the directory, not by sector and offset, and clusters of a directory are consecutive pieces of that sequence.
- FAT: number of clusters and capacity of the table agree.
- Browser: JPEG and MP3 decoding are opaque, drawing and scaling are left out; skipping depends on the ring's length only.
- HDA, E1000: register bring-up, transmit, codec setup.
- DOM: style sheets, layout and text measurement.
- NXFS, TCP, scheduler, VFS, windows, dialogs, settings and userland programs: not part of this model.
