# Verified model of Aegir's disk builder and host tools

This project models, in Dafny, the algorithms Aegir's host tools carry themselves, and proves what
they promise. `dafny verify dfyconfig.toml` checks all of it.

The centre is the Be File System formatter, `scripts/mkfs_bfs.py`: the greedy node planner, the
bottom-up B+tree, the typed indices with tagged links and duplicate chains, the allocation-group
geometry, the bump allocator's recursive layout, the bitmap and superblock, and the sizing loop.
Its partner is not a second model but the guest's own reader, `libs/freestanding/aegir-bfs` and the
path walk of `apps/freestanding/aegir-fs-bfs`: the main theorem says that mounting the bytes
`make_bfs` leaves and walking any path reads exactly what the path names in the input tree.

Around it stand the tools that carry an algorithm of their own: the console runner's line splitter
and gated step scheduler, the PNG row unfilter, the ILBM decoder with the encoder of its driver, the
gettext catalogue compiler with the toolkit's reader and its plural expressions, and the run-length class table with its
emitted binary search.

## How the modules follow the program

- Planning and nodes: `NodePlan`, `NodeCodec`, `TreeLinks`; keys and sorting in `Keys`, byte fields in `Bytes`.
- Directory trees: `DirectoryTree` (shape), `DirectoryStream` (bytes and builder),
  `DirectoryReader`, `DirectoryLookup`, `DirectoryListing` (the guest).
- Indices: `IndexTree` (builder), `IndexReader`, `IndexLookup`, `IndexWalking`, `IndexLimits`,
  `SmallIndex`.
- The volume: `Geometry`, `Inode`, `Layout`, `Ownership`, `VolumePlan`, `Image`, `Mount`,
  `BuiltVolume`; the running builder in `Builder` (class `Layouter`) and `MakeVolume`; the guest's
  reads in `VolumeReader`; the theorems in `RoundTrip`, `VolumeReads`, `Formatter`,
  `IndexAgreement`, `PathReach`, `StoredIndices`, `VolumeIndices`, `VolumeListing`, `InodeRecord`,
  `VolumeWitnesses`.
- Sizing and partitions: `LayoutCost`, `LayoutBounds`, `Sizing`, `MinimumSize`, `SizingLimits`,
  `PartitionTable`.
- The other tools: `StepScheduler`, `SchedulerRuns`, `SchedulerPrompts`, `SchedulerFirings`,
  `ConsoleLines`; `PngFilter`, `PngRules`; `ByteRun`, `IffChunks`, `PlanarImage`, `PlanarCodec`,
  `IlbmImage`, `IlbmPixels`; `Utf8`, `CatalogueText`, `CatalogueParser`, `CatalogueLoose`,
  `CatalogueForms`, `CatalogueImage`, `CatalogueLookup`, `CatalogueCompiler`, `PluralExpression`,
  `PluralMeaning`, `PluralHeader`, `CataloguePlurals`; `BidiTable`.

Code that changes things step by step is a method over arrays or a class, proved equal to a
function of its inputs or of the old state; the lemmas are about those functions.

## What turned out not to hold

The code is modelled as it is. Where it falls short of what it or its documentation says, a lemma
gives the exact condition and another a concrete input.

- The guest's `node_key` bounds a key by the block size although a node is two blocks
  (`libs/freestanding/aegir-bfs/src/volume.cc:609`). A directory lists in full exactly when every
  leaf's keys end within a block (`ListsAllIff`; for a directory reached by its path in a built
  volume, `PathListsIff`). A root of eight files with names of 255 bytes is enough to lose one
  (`ListingFallsShort`). Lookup by name is not affected (`FindIsLookup`).
- The builder says `index_walk` follows right links (`scripts/mkfs_bfs.py:382-386`). It reads the
  first leaf only: `WalkFindsIff`, in a built volume `NameWalkFindsIff`. Of sixteen files with names
  of 255 bytes the last is missed: `NameMissed`.
- `index_walk` counts the caller's position down as it passes duplicate nodes and never back up, so
  a key with more than 125 values is walked for ever: `WalkStopsIff`. The last_modified index has
  one key, so this is every volume of more than 125 files (`TimeWalkStopsIff`); 126 files of a byte
  are one (`TimesDoNotEnd`).
- `_typed_tree`'s docstring says a tree bigger than one leaf is refused; the code chains leaves, and
  so does the model.
- `bfs_minimum_bytes` says it returns the smallest size, reached from above. It returns the greatest
  fixed point at or below its first guess or the least at or above it (`RunIsExtremal`), which is
  the smallest holding size exactly when none of three smaller sizes holds the tree
  (`MinimumIsSmallestIff`); `NotTheSmallest` is a tree where it is not. The first guess counts one
  block a directory, and a tree whose layout outgrows the guess's bitmap raises:
  `MinimumReturnsIff`, `TooManyDirectories`, and `FoldersAreMany` gives such trees.
- The name index takes every entry, but the walk cuts a path at slashes and takes an empty component
  for the parent, and the builder checks no names: an entry is reached by some path exactly when no
  name on its way is empty or holds a slash (`EntryReachedIff`), and only then do index and paths
  agree (`NameIndexAgrees`). `NameUnreached` is a volume with an entry no path reaches.
- The runner says a gated step types one line and waits for the prompt. Presses held while a shell
  is busy all leave on its next readiness line (`SeveralOnOnePrompt`), and because the readiness
  count is shared, another shell's prompt opens the gate (`AnothersPrompt`). A shell gets a prompt
  between any two presses exactly when no readiness line of its own finds two presses held for it
  and no press is typed at once into it while it is busy (`PromptedIff`); with one shell on the
  console the first condition is enough (`OneShellPromptedIff`).
- `parse_po` cuts its text with `splitlines`, which also cuts at six characters that are no newline
  in a .po file and have no escape (U+001C to U+001E, U+0085, U+2028, U+2029). Printed entries come
  back exactly when no value holds one (`ParseRoundTripIff`); `LineCut` is a message that does.
- A catalogue entry with both a context and a plural is filed under a name no lookup spells:
  `ContextFoundIff`, and `LostInContext` is one.
- A plural form's number is its place among the forms there are, so a form after a missing one is
  read under another number: `FormAtRank`, `FormsReadIff`, `FormAnsweredIff`, and `FormMoved` is
  one.
- The ILBM encoder writes any palette, and the decoder raises on one that is not whole triples:
  `ImageRoundTrip`, `CutPalette`.

## Model

| member | source | states |
|---|---|---|
| `NodePlan.MakePlan` | scripts/mkfs_bfs.py:200-213 | the loop yields the recursive greedy plan, for every key list |
| `NodePlan.MakeTypedPlan` | scripts/mkfs_bfs.py:387-399 | the index builder's own planner, whose test has no entry limit, yields the same plan |
| `NodePlan.PlanGreedy` | scripts/mkfs_bfs.py:195-213 | the plan cuts the keys in order into consecutive non-empty nodes; each of two or more fits, and none but the last has room for the next key |
| `NodePlan.PlanIsMinimal` | scripts/mkfs_bfs.py:200-213 | no in-order partition into fitting nodes has fewer nodes |
| `NodePlan.PlanFits` | scripts/mkfs_bfs.py:192-213 | with names of at most 255 bytes every planned node fits, a node of one included |
| `NodePlan.PlanShrinksIff` | scripts/mkfs_bfs.py:313-329 | a level of two or more gets smaller exactly when two neighbouring keys fit one node; otherwise the level loop would make it again |
| `NodePlan.PlanHalves` | scripts/mkfs_bfs.py:313-329 | with names of at most 255 bytes a level is at most half the one below, rounded up |
| `NodePlan.FitsIs` | scripts/mkfs_bfs.py:184-198 | a node takes 28 bytes, its keys filled to a multiple of eight and ten bytes an entry, in 4096 |
| `NodeCodec.BuildNode` | scripts/mkfs_bfs.py:216-246 | the bytes written in place are the node's image: links, count, packed keys, cumulative lengths, aligned values |
| `NodeCodec.NodeRoundTrip` | libs/freestanding/aegir-bfs/src/volume.cc:581-617 | reading a node's image through the guest's length and value arrays gives the three links, the count, every key and every value |
| `DirectoryTree.TreeShape` | scripts/mkfs_bfs.py:271-343 | the tree's entries in order are the input, every leaf sits at the header's depth, no node is empty |
| `DirectoryTree.LinksExact` | scripts/mkfs_bfs.py:271-343 | node `i` is at node offset `i + 1`, and the child links are exactly the offsets of all nodes but the root, each once |
| `DirectoryTree.StackDepth` | scripts/mkfs_bfs.py:313-329 | a tree of at most two to the b leaves has at most b + 1 levels |
| `TreeLinks.DirectoryHeader` | scripts/mkfs_bfs.py:330-343 | the header's bytes give the tree magic, the node size and string keys, the depth at which every leaf sits and the root's offset, and no free node |
| `TreeLinks.DirectoryLeafLinks` | scripts/mkfs_bfs.py:297-305 | the links in every leaf's bytes name the leaves before and behind it, and none at the ends |
| `TreeLinks.DirectoryInnerLinks` | scripts/mkfs_bfs.py:317-325 | an inner node's bytes name no neighbours, and for its overflow child another node |
| `DirectoryStream.BuildTree` | scripts/mkfs_bfs.py:249-343 | the level loop terminates and its stream is the image of that tree |
| `DirectoryReader.DirFind` | libs/freestanding/aegir-bfs/src/volume.cc:641-709 | the descent and the leaf walk compute the lookup function the theorems below speak of |
| `DirectoryReader.DirEntry` | libs/freestanding/aegir-bfs/src/volume.cc:820-870 | the listing call computes the listing function the theorems below speak of |
| `DirectoryLookup.FindPresent` | libs/freestanding/aegir-bfs/src/volume.cc:641-709 | a name under a node is found with its value within the node's height |
| `DirectoryLookup.FindAbsent` | libs/freestanding/aegir-bfs/src/volume.cc:641-709 | a name in no leaf is not found by any number of steps |
| `DirectoryLookup.FindIsLookup` | scripts/mkfs_bfs.py:249-343 | for every strictly sorted entry list that one run stores, `dir_find` in the built stream equals lookup in the list, at any depth |
| `DirectoryListing.EntryIsListed` | libs/freestanding/aegir-bfs/src/volume.cc:597-617 | listing entry number n shows that entry, in order along the right links, exactly when its key ends within one block of its leaf |
| `DirectoryListing.NoEntryPastTheEnd` | libs/freestanding/aegir-bfs/src/volume.cc:820-870 | past the last entry the listing shows nothing |
| `DirectoryListing.ListsAllIff` | libs/freestanding/aegir-bfs/src/volume.cc:597-617 | a directory lists in full exactly when the packed keys of every leaf end within one block |
| `VolumeListing.PathListsIff` | libs/freestanding/aegir-bfs/src/volume.cc:820-870 | in a built volume, at every path to a directory: `dir_entry` lists all its sorted names, `.` and `..` included, exactly when every leaf planned for them ends within a block; the last name of a longer leaf is never listed, and nothing past the end |
| `VolumeWitnesses.ListingFallsShort` | libs/freestanding/aegir-bfs/src/volume.cc:609-611 | a volume built from eight to thirteen files with names of 255 bytes: every file reads by its name and the last entry of the root's listing is not shown |
| `Keys.KeyCompare` | libs/freestanding/aegir-bfs/src/bplustree.cc:73-88 | negative, zero or positive as one key is below, equal to or above the other in byte order |
| `Keys.BytesBelowIff` | libs/freestanding/aegir-bfs/src/bplustree.cc:73-88 | one key is below another exactly when they agree up to a place where it has the smaller byte or ends |
| `Keys.NumbersBelow` | scripts/mkfs_bfs.py:360-381 | eight-byte keys are ordered as the signed numbers they hold, least significant byte first |
| `Bytes.LeByte` | scripts/mkfs_bfs.py:92-104 | byte i of a packed number is its digit of weight 256 to the i |
| `IndexTree.LinkRoundTrip` | scripts/mkfs_bfs.py:350-351 | a tagged link to an aligned offset reads back its type and offset and is at least 2 to the 62, so no plain block number is taken for one |
| `IndexTree.IndexConserves` | scripts/mkfs_bfs.py:360-381 | grouping and sorting keep exactly the multiset of pairs |
| `IndexTree.IndexAscends` | scripts/mkfs_bfs.py:360-381 | the groups' keys are distinct and ascend in the index's type order, signed for int64 |
| `TreeLinks.PairsInOrder` | scripts/mkfs_bfs.py:360-381 | walking a built index gives its pairs by key in the type's order and by value under a key |
| `TreeLinks.IndexLinks` | scripts/mkfs_bfs.py:421-440 | an index's header gives the tree magic, its key type, one level and its first leaf, and its leaves' links name both neighbours |
| `TreeLinks.DuplicateLeft` | scripts/mkfs_bfs.py:452-460 | a duplicate node has no left neighbour |
| `IndexTree.BuildIndex` | scripts/mkfs_bfs.py:354-460 | the stream written is a header, the chained leaves and the duplicate nodes of the groups |
| `IndexReader.IndexWalk` | libs/freestanding/aegir-bfs/src/volume.cc:724-818 | one call computes the walk function, the caller's position included |
| `IndexLookup.IndexRoundTrip` | scripts/mkfs_bfs.py:354-460 | walking a built index's leaf chain and expanding its duplicate chains yields exactly the input pairs, keys in type order |
| `IndexWalking.WalkFindsIff` | libs/freestanding/aegir-bfs/src/volume.cc:740-784 | `index_walk` finds an indexed key exactly when the first leaf holds it |
| `IndexWalking.WalkFindsNoStranger` | libs/freestanding/aegir-bfs/src/volume.cc:740-784 | a key no pair carries is found by no call |
| `IndexWalking.WalkStopsIff` | libs/freestanding/aegir-bfs/src/volume.cc:786-818 | repeated calls for a key of the first leaf end, after listing all its values, exactly when it has at most 125; otherwise they return its first 126 values for ever |
| `VolumeListing.NameWalkFindsIff` | libs/freestanding/aegir-bfs/src/volume.cc:711-784 | in a built volume, through the index found by name: `index_walk` finds a name exactly when it is one of those in the index's first leaf |
| `VolumeListing.TimeWalkStopsIff` | libs/freestanding/aegir-bfs/src/volume.cc:711-818 | in a built volume, listing the files by their time ends exactly when the input tree has at most 125 files |
| `VolumeWitnesses.NameMissed` | libs/freestanding/aegir-bfs/src/volume.cc:740-784 | a volume built from sixteen or more files with names of 255 bytes: every file reads by its name and the sixteenth and later are not found through the name index |
| `VolumeWitnesses.TimesDoNotEnd` | libs/freestanding/aegir-bfs/src/volume.cc:786-818 | a volume built from 126 or more files: listing them by their time does not end |
| `VolumeWitnesses.NameUnreached` | apps/freestanding/aegir-fs-bfs/src/main.cc:293-316 | a volume built from one file whose name is empty or holds a slash: the name index has it, and no path of any user reaches it |
| `IndexLimits.TimesWalkStopsIff` | scripts/mkfs_bfs.py:548-548 | a walk of the last_modified index, which has one key for all files, ends exactly when there are at most 125 files |
| `IndexLimits.LongNamesMissed` | libs/freestanding/aegir-bfs/src/volume.cc:740-784 | of names of 255 bytes the sixteenth and later are in the index and `index_walk` does not find them |
| `Geometry.FindGeometry` | scripts/mkfs_bfs.py:113-131 | the two loops compute the recursive geometry |
| `Geometry.GeometryFits` | scripts/mkfs_bfs.py:113-131 | the shift is 14 to 16, a group is its bitmap blocks' bits, the count is the one a mount checks, and the bitmap covers every block |
| `Geometry.DataStartMonotone` | scripts/mkfs_bfs.py:471-481 | a larger volume's data never starts earlier |
| `Inode.GroupStart` | scripts/mkfs_bfs.py:107-110 | group times group size plus start is the block |
| `Inode.RunFields` | scripts/mkfs_bfs.py:107-110 | a run's eight bytes read back as the group, start, length and block |
| `Inode.BuildInode` | scripts/mkfs_bfs.py:146-183 | the bytes written in place are the inode's image, with the range its runs cover |
| `Inode.InodeFields` | libs/freestanding/aegir-bfs/src/volume.cc:255-281 | an inode's image passes the guest's checks and gives back mode, size, run, parent, the twelve direct runs and no indirect ones |
| `Inode.NameRoundTrip` | libs/freestanding/aegir-bfs/src/attribute.cc:184-212 | the guest reads the name back without trailing zero bytes, and none from an inode without one |
| `Inode.TrimmedIs` | libs/freestanding/aegir-bfs/src/attribute.cc:197-203 | what is left of a name is its part before the zero bytes at its end |
| `InodeRecord.RecordReads` | libs/freestanding/aegir-bfs/src/volume.cc:255-281 | `read_inode` of a written inode gives mode, type, time, size, its own run, its parent's and its name as given, owner and group 0 and no attributes; the other times and the direct range are in their places |
| `InodeRecord.EntryRecorded` | scripts/mkfs_bfs.py:541-567 | for every entry of a built volume, by the names on its way: its inode reads back with its kind's mode and its size, the fixture's time, owner 0, no attributes, its own block, its directory's and its name |
| `InodeRecord.RootRecorded` | scripts/mkfs_bfs.py:554-570 | the root's inode likewise, its own parent and without a name |
| `InodeRecord.IndicesRecorded` | scripts/mkfs_bfs.py:609-627 | the five inodes of the indices read back with their modes, type codes and time 0, under the indices directory |
| `InodeRecord.TimeKeyIsTime` | scripts/mkfs_bfs.py:548-548 | every pair of the last_modified index has for its key the time read from the inode it names |
| `InodeRecord.SizeKeyIsSize` | scripts/mkfs_bfs.py:547-547 | every pair of the size index, the size read from it |
| `InodeRecord.NameKeyIsName` | scripts/mkfs_bfs.py:546-552 | every pair of the name index, the name read from it |
| `Layout.LocateLaid` | scripts/mkfs_bfs.py:505-567 | children fill the blocks between a directory's inode and its tree, one after another |
| `Builder.Layouter.Take` | scripts/mkfs_bfs.py:485-489 | the allocator hands out its next block and moves past the count |
| `Builder.Layouter.BuildFile` | scripts/mkfs_bfs.py:518-548 | a file is laid out as its inode, its data blocks and its index pairs, and refused exactly when it needs more than 65535 blocks |
| `Builder.Layouter.BuildDir` | scripts/mkfs_bfs.py:505-567 | the recursive build appends exactly the inode and data writes and the index pairs of the placed subtree, and refuses exactly when some stream needs more than one run |
| `Ownership.OwnsExtent` | scripts/mkfs_bfs.py:483-570 | the inode and data writes of an entry cover its extent, each block once |
| `MakeVolume.PlaceTree` | scripts/mkfs_bfs.py:576-582 | a tree's pieces go to consecutive blocks, the last filled with zeros, and it is refused exactly when it needs more than 65535 |
| `MakeVolume.LayOut` | scripts/mkfs_bfs.py:483-627 | the whole layout, indices included, is the planned volume's writes, or nothing exactly when some stream needs more than one run or a block's group number more than 31 bits |
| `VolumePlan.WritesOwnSpan` | scripts/mkfs_bfs.py:483-631 | every block from `data_start` up to `used_blocks` is written exactly once, and no other block is written |
| `Image.ApplyHolds` | scripts/mkfs_bfs.py:629-631 | writes to distinct blocks are all in the image at the end |
| `Image.BuildBitmap` | scripts/mkfs_bfs.py:633-640 | setting the bits one by one gives the bitmap of the first `used_blocks` blocks, or an index error exactly when it has fewer bits |
| `Image.BitmapMarks` | scripts/mkfs_bfs.py:633-640 | bit b is set exactly when b is below `used_blocks` |
| `MakeVolume.Buffer.Assign` | scripts/mkfs_bfs.py:629-631 | the bytes at the place are the data, those before and behind are kept, and the length is the larger of the old one and the end of the data |
| `MakeVolume.MakeBfs` | scripts/mkfs_bfs.py:463-671 | returns the used count exactly when every stream fits one run, every run's group number its field and the bitmap has room for every used block; leaves the written image, or an untouched buffer when the layout raises |
| `MakeVolume.WrittenInside` | scripts/mkfs_bfs.py:629-671 | with room for the volume the written image is the buffer with each region in its place |
| `BuiltVolume.OutsideUntouched` | scripts/mkfs_bfs.py:629-671 | no byte outside the partition changes |
| `Mount.OpenRoundTrip` | libs/freestanding/aegir-bfs/src/volume.cc:62-118 | a written superblock opens with the builder's block count, used count, shift, root and indices |
| `Mount.OpensIff` | libs/freestanding/aegir-bfs/src/volume.cc:62-98 | any bytes mount exactly when their superblock holds the magics' bytes, the byte order and the block size, and the groups just cover the blocks |
| `Mount.DetailsRoundTrip` | libs/freestanding/aegir-bfs/src/volume.cc:107-116 | a written superblock is clean, its log is empty and where it was given, and its name is the first 31 bytes of the label |
| `VolumeReader.ReadStream` | libs/freestanding/aegir-bfs/src/volume.cc:382-418 | reading over the direct runs gives the stored bytes, and zeros past them |
| `VolumeReader.WalkPath` | apps/freestanding/aegir-fs-bfs/src/main.cc:281-319 | the loops over the path's bytes compute the walk through its components: a slash ends one, a trailing slash begins none |
| `VolumeReader.SpelledReads` | apps/freestanding/aegir-fs-bfs/src/main.cc:293-316 | every list of components without a slash, empty ones included, is the components of some path |
| `VolumeReader.SearchBits` | apps/freestanding/aegir-fs-bfs/src/main.cc:209-222 | a user may search by the last bit of the owner's or group's digit of the mode if the inode is theirs, of the others' if not |
| `RoundTrip.FileIsRead` | libs/freestanding/aegir-bfs/src/volume.cc:382-418 | a stored file's inode is live and its stream cut to its size is the content |
| `RoundTrip.DirIsRead` | scripts/mkfs_bfs.py:554-567 | a stored directory's inode is live, its stream is its tree, its parent run names its parent |
| `RoundTrip.WalkIsSeek` | apps/freestanding/aegir-fs-bfs/src/main.cc:281-319 | a walk from any stored directory is the same walk through the input tree, with `.`, `..` and empty components, owner or not |
| `VolumeReads.Mounts` | scripts/mkfs_bfs.py:642-665 | the guest mounts a built volume and has the builder's figures |
| `VolumeReads.BuiltDetails` | scripts/mkfs_bfs.py:642-671 | a built volume is clean, its empty log fills the blocks between bitmap and data, its name is the label's first 31 bytes, and the sectors around the superblock are erased |
| `VolumeReads.BitmapAgrees` | scripts/mkfs_bfs.py:633-651 | in a built volume block b is marked exactly when b is below the superblock's used count |
| `VolumeReads.BuiltVolumeReads` | scripts/mkfs_bfs.py:463-671 | mounting a built volume and walking any path gives what the path names in the input tree, every byte |
| `Formatter.FormattedReads` | scripts/mkfs_bfs.py:463-671 | the same from the buffer `make_bfs` leaves and for every path's bytes, with everything outside the partition unchanged |
| `SmallIndex.SmallIndexIsTree` | scripts/mkfs_bfs.py:601-608 | an index of distinct string keys in one leaf is byte for byte the directory tree of its sorted pairs |
| `StoredIndices.IndicesFound` | libs/freestanding/aegir-bfs/src/volume.cc:711-722 | `index_inode` finds the four indices of a built volume by name and each reads as the stream built |
| `IndexAgreement.ReachIsLoc` | apps/freestanding/aegir-fs-bfs/src/main.cc:281-319 | a path of proper names reaches the inode block the layout gave that entry |
| `PathReach.WalkIsSpellable` | apps/freestanding/aegir-fs-bfs/src/main.cc:281-319 | however a walk goes up and down, it ends on an entry whose way has no empty name and none with a slash |
| `PathReach.OneWay` | scripts/mkfs_bfs.py:505-567 | no two ways through the layout lead to one inode block |
| `IndexAgreement.PairsRise` | scripts/mkfs_bfs.py:498-552 | the gathered pairs name inodes in allocation order, none twice |
| `VolumeIndices.EntryReachedIff` | apps/freestanding/aegir-fs-bfs/src/main.cc:281-319 | in a built volume an entry is reached by some path's bytes, for any user and however the path goes, exactly when no name on its way is empty or holds a slash |
| `VolumeIndices.NameIndexAgrees` | scripts/mkfs_bfs.py:498-552 | a pair is in the volume's name index and no name on its way is empty or holds a slash, exactly when some path's bytes end in its name and lead any user to its inode; one pair an inode |
| `VolumeIndices.PlainIndexAgrees` | scripts/mkfs_bfs.py:498-552 | where no name of the tree is empty or holds a slash, the name index is exactly what paths find |
| `VolumeIndices.SizeIndexAgrees` | scripts/mkfs_bfs.py:498-552 | a pair is in the size index and its way can be spelled, exactly when its inode is a file some path reads, of that length; one pair a file |
| `VolumeIndices.TimeIndexAgrees` | scripts/mkfs_bfs.py:498-552 | a pair is in the last_modified index and its way can be spelled, exactly when its key is the fixture time and its inode a file some path reads; one pair a file |
| `LayoutCost.LocateShift` | scripts/mkfs_bfs.py:483-570 | the layout from a later block is the layout from an earlier one, every block shifted |
| `LayoutCost.UsedIsCost` | scripts/mkfs_bfs.py:674-703 | blocks used are the start of the data plus a cost of the tree alone, and whether a stream is too long does not depend on the volume either |
| `LayoutBounds.StreamableIsSmall` | scripts/mkfs_bfs.py:483-627 | a tree whose streams each fit one run takes fewer than 2 to the 41 blocks, since the name index bounds its entries |
| `Sizing.GuessesKeepDirection` | scripts/mkfs_bfs.py:695-702 | successive guesses never change direction |
| `Sizing.Settles` | scripts/mkfs_bfs.py:695-702 | when the first two guesses are within reach number j of each other, a bound that grows 16384-fold with j, the sequence reaches a fixed point within j + 3 passes |
| `Sizing.ReturnsIff` | scripts/mkfs_bfs.py:695-703 | given those passes, the loop returns exactly when the tree fits the largest volume the first guess's bitmap describes |
| `Sizing.RunIsFixed` | scripts/mkfs_bfs.py:695-703 | a returned size is a fixed point |
| `Sizing.RunIsExtremal` | scripts/mkfs_bfs.py:695-703 | from above it is the greatest fixed point at or below the guess, from below the least at or above it |
| `Sizing.SmallestIff` | scripts/mkfs_bfs.py:674-681 | a fixed point is the smallest holding size exactly when none of three smaller sizes, the ends of the two shorter logs and of the next smaller bitmap, holds the tree |
| `Sizing.TwiceHolds` | scripts/make_disk.py:645-652 | every volume at least twice a fixed point's size holds the tree |
| `MinimumSize.CountBlocks` | scripts/mkfs_bfs.py:682-690 | the recursive loop counts an inode per entry and the blocks of each file |
| `MinimumSize.MinimumBytes` | scripts/mkfs_bfs.py:674-703 | the loop around `make_bfs` returns the sizing function's answer in bytes, or nothing where it raises |
| `MinimumSize.MinimumReturnsIff` | scripts/mkfs_bfs.py:674-703 | for every tree of legal names: a size is returned exactly when every stream fits one run and the first guess's bitmap has room; the limit of 64 passes never decides |
| `MinimumSize.MinimumHolds` | scripts/mkfs_bfs.py:674-703 | the returned size holds the tree and is filled exactly, and any size at least twice as large holds it |
| `MinimumSize.MinimumIsSmallestIff` | scripts/mkfs_bfs.py:674-703 | no smaller volume holds the tree exactly when none of the three smaller sizes at which a log or the next smaller bitmap ends does |
| `SizingLimits.TooManyDirectories` | scripts/mkfs_bfs.py:682-697 | 3300 to 8000 empty directories can be stored but are not sized: the first guess counts one block each where five are needed |
| `SizingLimits.FoldersAreMany` | scripts/mkfs_bfs.py:682-697 | as many empty directories named by three letters are such a tree |
| `SizingLimits.OneFileCost` | scripts/mkfs_bfs.py:483-627 | one file costs its blocks and thirty-one more |
| `SizingLimits.NotTheSmallest` | scripts/mkfs_bfs.py:674-681 | a file of 19454 blocks is sized at 21536 blocks though 20000 hold it, and 20481 do not |
| `PartitionTable.LayPartitions` | scripts/make_disk.py:632-656 | the row loop computes the partition rows, or nothing where sizing raises |
| `PartitionTable.RowsLaidOut` | scripts/make_disk.py:640-655 | rows are disjoint, in order, start on whole megabytes and have the sectors asked for |
| `PartitionTable.RowsPacked` | scripts/make_disk.py:640-655 | every partition starts on the first whole megabyte behind the one before it |
| `PartitionTable.SystemSectorsAre` | scripts/make_disk.py:644-653 | the system partition is the fewest whole megabytes that hold its tree's minimum twice |
| `PartitionTable.RowsInImage` | scripts/make_disk.py:659-663 | every row lies in the image with a megabyte behind it, and the image is whole megabytes |
| `PartitionTable.DiskBytesAre` | scripts/make_disk.py:659-663 | the image is the fewest whole megabytes with one left behind the last partition |
| `PartitionTable.SystemPartitionFits` | scripts/make_disk.py:644-653 | the system partition, doubled and rounded up, holds its tree |
| `StepScheduler.Runner.Release` | scripts/run_target.py:1333-1353 | the loop over a copy of the held presses hands out exactly those of the ready shell, in order, and keeps the others |
| `StepScheduler.Runner.Consider` | scripts/run_target.py:1354-1404 | one step fires exactly when its cap, its predecessor in the chain, its captures and its trigger allow, and its press is typed or held as the gate says |
| `StepScheduler.Runner.Accept` | scripts/run_target.py:1333-1404 | a console line takes the state to the one the step function gives |
| `SchedulerRuns.EveryRun` | scripts/run_target.py:1333-1404 | in every run: fired waiting steps are a prefix of the waiting steps; no step exceeds its cap; each press asked for was handed over once or is held; a released press left on the first later readiness line of its own shell; two presses into a shell are apart by a readiness line or left on the same one |
| `SchedulerFirings.FiringsExact` | scripts/run_target.py:1354-1404 | in every run: the counts are those of the firings, a name's value is the text of the last firing that captured it, firings come in the order of lines and steps, and a step fires on a line exactly when by the firings before it is below its cap, the waiting step before it has fired, every name in its trigger is captured and its trigger is found with those values |
| `SchedulerFirings.PressExact` | scripts/run_target.py:1548-1572 | a firing's keys go out without a gate, are held when a press into its shell went out since the last readiness line, and go into the shell at once otherwise |
| `SchedulerFirings.ReleasedExact` | scripts/run_target.py:1333-1353 | a readiness line hands over, in the order they were held, exactly the keys held for its shell before it |
| `SchedulerFirings.KeptExact` | scripts/run_target.py:1333-1353 | and leaves the others in their order |
| `SchedulerPrompts.PromptedIff` | scripts/run_target.py:1333-1404 | in every run and for every shell: any two presses into it have one of its readiness lines between them exactly when no readiness line of its own came while two or more were held for it and every press typed at once into it found it ready since the last |
| `SchedulerPrompts.OneShellPromptedIff` | scripts/run_target.py:1548-1572 | with one shell on the console that is so exactly when no readiness line came while two or more presses were held for it |
| `SchedulerRuns.SeveralOnOnePrompt` | scripts/run_target.py:1333-1353 | two held presses leave on one readiness line, and before it every step has fired while they are still held |
| `SchedulerRuns.AnothersPrompt` | scripts/run_target.py:1548-1572 | another shell's readiness line lets a press into a shell that has not prompted since its last one |
| `ConsoleLines.SplitLines` | scripts/run_target.py:82-99 | the pieces are complete lines and a remainder without a newline, and join to the input |
| `ConsoleLines.SplitUnique` | scripts/run_target.py:82-99 | there is only one such split |
| `ConsoleLines.Pump` | scripts/run_target.py:1207-1230 | what is handed on is the split of all bytes read, the unfinished line last |
| `ConsoleLines.PumpIgnoresChunks` | scripts/run_target.py:1207-1230 | the lines do not depend on how the bytes arrive in chunks |
| `ConsoleLines.PumpLosesNothing` | scripts/run_target.py:1207-1230 | the lines join to all bytes read |
| `PngFilter.PaethIsNearest` | scripts/png.py:20-25 | the predictor is one of the three and nearest to a + b - c, ties to the left and then above |
| `PngFilter.RestoreRow` | scripts/png.py:38-52 | the in-place loops restore a scanline for every filter type |
| `PngFilter.Unfilter` | scripts/png.py:28-55 | the rows restored one from another, or nothing where a row is not all there |
| `PngFilter.RestoreFiltered` | scripts/png.py:38-52 | restoring a filtered row gives it back, for every type and pixel size |
| `PngFilter.DecodeEncoded` | scripts/png.py:28-55 | decoding any image filtered with any type per row gives the image |
| `PngFilter.EncodeDecoded` | scripts/png.py:28-55 | filtering decoded rows with the types the data names gives the data |
| `PngRules.RowMeets` | scripts/png.py:38-52 | every byte of a restored row meets its type's rule in the PNG specification, stated apart from the decoder |
| `PngRules.ImageMeets` | scripts/png.py:28-55 | and so does every byte of an image, above whose first row there are zeros |
| `ByteRun.ByteRun1` | scripts/ilbm.py:45-59 | the loop computes the expansion, short literals and missing repeat bytes included |
| `ByteRun.ExpandsPackets` | scripts/ilbm.py:45-59 | any sequence of literal, repeat and no-op packets expands to what the packets mean |
| `ByteRun.ExpandsCut` | scripts/ilbm.py:45-59 | a literal run that the data ends in gives what there is of it |
| `ByteRun.ExpandsNothing` | scripts/ilbm.py:45-59 | a repeat whose byte is missing raises |
| `ByteRun.ExpandsBounded` | scripts/ilbm.py:45-59 | the output is at most 64 times the input |
| `ByteRun.PackLiteral` | scripts/ilbm_conformance.cc:133-146 | the packer writes literal packets of at most 128 bytes |
| `ByteRun.PackRoundTrip` | scripts/ilbm_conformance.cc:133-146 | what it writes expands to its input |
| `IffChunks.PutChunk` | scripts/ilbm_conformance.cc:64-70 | id, big-endian size, data and padding to an even length |
| `IffChunks.MakeForm` | scripts/ilbm_conformance.cc:72-80 | the form header and the chunks |
| `IffChunks.Chunks` | scripts/ilbm.py:29-42 | the generator yields the chunks of the data, or raises on another form |
| `IffChunks.FormRoundTrip` | scripts/ilbm.py:29-42 | a written form reads back as exactly its chunks |
| `IffChunks.ChunkCut` | scripts/ilbm.py:29-42 | a chunk that the file ends in is given with what there is of it |
| `IlbmPixels.FormBegins` | scripts/ilbm_conformance.cc:72-80 | a form is its name, its length with the most significant byte first, its kind and its chunks |
| `IlbmPixels.ChunkBegins` | scripts/ilbm_conformance.cc:64-70 | a chunk is its name, its length likewise, its data and a zero where that is odd |
| `PlanarCodec.PlanesOf` | scripts/ilbm_conformance.cc:115-131 | bits set in place in zeroed bytes make the planes of every row, plane by plane |
| `PlanarCodec.DecodePlanes` | scripts/ilbm.py:96-113 | the planar loop computes each pixel's index and mask bit, or fails exactly when a plane's bytes are missing |
| `PlanarCodec.PlanesRoundTrip` | scripts/ilbm.py:96-113 | for every width, height, plane count and indices below two to the planes, with any mask plane or none, decoding the planes gives the indices and the mask |
| `IlbmImage.MakePalette` | scripts/ilbm.py:88-90 | the triples of the colour map, black alone without one, or an index error exactly when the last triple is cut |
| `IlbmImage.Decode` | scripts/ilbm.py:62-120 | header, palette, compression and planes of the last chunk of each kind, each pixel's colour and whether mask or transparent colour leaves it in, or nothing where it raises |
| `IlbmPixels.DecodeMeans` | scripts/ilbm.py:62-120 | whatever file decodes: the last header, colour map and body among its chunks give the size, and every pixel's index by its bits in the planes, its colour by the map's three bytes, black past them, and its visibility by the mask bit, the transparent index or neither |
| `IlbmImage.ImageRoundTrip` | scripts/ilbm_conformance.cc:148-157 | every picture written as a file, packed or not, with a mask plane or without, decodes to itself, pixel by pixel, exactly when its palette is whole triples; otherwise decoding raises |
| `IlbmPixels.PixelsComeBack` | scripts/ilbm_conformance.cc:148-157 | of every picture written with whole triples, each pixel comes back with its index, the palette bytes at three times the index, black past them, and visible as its mask bit, the transparent index or neither says |
| `IlbmImage.CutPalette` | scripts/ilbm.py:88-90 | a palette of one byte: the file is written and decoding it raises |
| `CatalogueText.Unescape` | scripts/compile_po.py:29-45 | the cursor loop computes the unescaped string |
| `CatalogueText.EscapeRoundTrip` | scripts/compile_po.py:29-45 | unescaping undoes escaping, for every string |
| `CatalogueText.EscapeLetters` | scripts/compile_po.py:32-35 | each escape letter stands for its character, any other for itself, and so does a backslash at the end |
| `CatalogueText.DecodeBare` | scripts/compile_po.py:48-52 | a value without quotes is taken as it stands, but for its escapes |
| `CatalogueText.DecodeQuoted` | scripts/compile_po.py:48-52 | a quoted string decodes to itself |
| `CatalogueParser.ParsePo` | scripts/compile_po.py:55-104 | the loop over the text's lines computes the parser's fold, or stops where it exits |
| `CatalogueText.LinesComeBack` | scripts/compile_po.py:62-62 | lines that hold none of the eleven breaks of `splitlines`, with a newline behind each, are what it gives back |
| `CatalogueParser.ParseRoundTripIff` | scripts/compile_po.py:55-104 | printing any entries, fields in any order, no translation or form twice, each value cut over any number of continuation lines, and parsing the text gives the entries exactly when no value holds one of the six line breaks that are printed as themselves |
| `CatalogueParser.ParsedUnbroken` | scripts/compile_po.py:55-104 | no entry parsed from any text holds one of the six |
| `CatalogueParser.ParseRoundTrip` | scripts/compile_po.py:55-104 | without one the entries come back even where a field is printed twice in an entry |
| `CatalogueParser.LineCut` | scripts/compile_po.py:62-62 | a message with a line separator: its line is cut in two and the parser exits |
| `CatalogueParser.FieldsComeBack` | scripts/compile_po.py:55-104 | an entry printed from fields of different kinds has exactly those fields |
| `CatalogueLoose.NormalParses` | scripts/compile_po.py:62-72 | every text parses as the lines that matter in it: no comments, no blanks around lines, one blank line after an entry, no quoted line outside one |
| `CatalogueLoose.LooseRoundTrip` | scripts/compile_po.py:55-104 | a file written by hand around printed entries, with comments anywhere, blanks around lines and blank lines around entries, gives the entries |
| `CatalogueLoose.CommentAnywhere` | scripts/compile_po.py:70-71 | a comment line may stand anywhere |
| `CatalogueLoose.BlanksAround` | scripts/compile_po.py:63-63 | blanks may stand around any line |
| `CatalogueLoose.BlankTwice` | scripts/compile_po.py:64-69 | a second blank line changes nothing |
| `CatalogueLoose.BlankFirst` | scripts/compile_po.py:64-69 | nor does one before the first entry |
| `CatalogueLoose.StripIs` | scripts/compile_po.py:63-63 | stripping leaves the part between the blanks at both ends |
| `CatalogueLoose.KeywordSpaced` | scripts/compile_po.py:55-55 | any blanks, or none, may stand between a keyword, with its number if it is a form, and its value |
| `CatalogueLookup.OriginalInjective` | scripts/compile_po.py:107-115 | entries of separator-free strings with one original agree in context, message and plural |
| `CatalogueForms.NulField` | libs/hosted/aegir-trinket/src/translation.cc:70-88 | the loop computes the field at an index |
| `CatalogueForms.FormAtRank` | scripts/compile_po.py:118-122 | every form is read at its place among the forms there are |
| `CatalogueForms.FormsReadIff` | scripts/compile_po.py:118-122 | a form that is not empty and differs from the others is read under its own number exactly when no lower number is missing |
| `CatalogueForms.FormMoved` | scripts/compile_po.py:118-122 | a catalogue that gives form 1 alone is read with it under 0 and not under 1 |
| `CatalogueForms.RankIsIndexIff` | scripts/compile_po.py:118-122 | a form's place among the joined ones is its index exactly when no lower index is missing |
| `CatalogueImage.BuildMo` | scripts/compile_po.py:125-155 | the bytes appended are the image of the sorted pairs, or nothing exactly when a count, length or offset needs more than 32 bits |
| `CatalogueImage.RegionsTile` | scripts/compile_po.py:125-155 | header, two tables and two string regions tile the image with no gap or overlap, where the header says |
| `CatalogueImage.MoFormat` | scripts/compile_po.py:136-151 | the image by its bytes: magic, revision 0, count, the tables at 28 and behind it, no hash table, and in each table a length and then a place for every string |
| `CatalogueImage.MessagesRead` | scripts/compile_po.py:125-155 | the image holds the input's pairs, in the byte order of the originals, each behind its two descriptors |
| `CatalogueLookup.ParseMo` | libs/hosted/aegir-trinket/src/translation.cc:342-406 | the message loop files every message in the table its original names |
| `CatalogueLookup.CatalogueServes` | libs/hosted/aegir-trinket/src/translation.cc:342-406 | after parsing a built image a table slot is filled exactly when an entry belongs there, with its translation |
| `CatalogueLookup.ContextFoundIff` | libs/hosted/aegir-trinket/src/translation.cc:389-395 | an entry with a context is found by context and message exactly when it has no plural |
| `CatalogueLookup.LostInContext` | libs/hosted/aegir-trinket/src/translation.cc:458-470 | one entry with a context and a plural: it is in the image, and asking for it by context and message gives the message back |
| `CatalogueCompiler.TranslateEntry` | scripts/compile_po.py:118-122 | the loop joins the forms in the order of their numbers, or takes the single translation where there are none |
| `CatalogueCompiler.Compile` | scripts/compile_po.py:167-172 | text to image: parsed, named, sorted and packed, or nothing where a step stops, the header entry is missing or a field needs more than 32 bits |
| `CatalogueCompiler.CatalogueLoads` | scripts/compile_po.py:167-172 | every printed catalogue whose values hold none of the six breaks and whose names hold no separator and differ, header first, compiles to an image the reader loads |
| `CatalogueCompiler.CatalogueEndToEnd` | libs/hosted/aegir-trinket/src/translation.cc:447-470 | printed, compiled, loaded and asked: every entry without a plural gives its own translation, by message or by context and message |
| `PluralExpression.Evaluator.RunConditional` | libs/hosted/aegir-trinket/src/translation.cc:135-147 | the recursive descent over the text, its position moved in place, computes the conditional's value and where it stops |
| `PluralExpression.Evaluator.RunBinary` | libs/hosted/aegir-trinket/src/translation.cc:149-233 | the six loops of binary operators likewise, each level's operators in the order they are tried |
| `PluralExpression.Evaluator.RunUnary` | libs/hosted/aegir-trinket/src/translation.cc:235-247 | signs and negation likewise |
| `PluralExpression.Evaluator.RunPrimary` | libs/hosted/aegir-trinket/src/translation.cc:249-270 | brackets, the count and numbers likewise |
| `PluralMeaning.OpIs` | libs/hosted/aegir-trinket/src/translation.cc:149-233 | every operator gives the value C says, stated apart from the evaluator: quotient toward zero, remainder of the dividend's sign, and zero for a division by zero |
| `PluralMeaning.MeaningIs` | libs/hosted/aegir-trinket/src/translation.cc:89-271 | every expression has exactly one value by C's rules, and it is the one the theorems below speak of |
| `PluralMeaning.SignsAreC` | libs/hosted/aegir-trinket/src/translation.cc:149-247 | the operators' signs are C's, and one binds more strongly than another exactly when it is higher in C's table |
| `PluralMeaning.Evaluates` | libs/hosted/aegir-trinket/src/translation.cc:89-271 | for every C expression in n, written with the brackets its precedence and grouping need, any more, and any blanks between tokens, the evaluator gives the expression's one value |
| `PluralMeaning.ThreeForms` | scripts/translation_conformance.cc:176-193 | the three-form expression picks the first form for counts that end in 1 but not 11, the second for those that end in 2 to 4 but not 12 to 14, and the third for all others |
| `PluralHeader.ParseHeader` | libs/hosted/aegir-trinket/src/translation.cc:295-337 | the line loop computes the settings from a header's bytes |
| `PluralHeader.HeaderRead` | libs/hosted/aegir-trinket/src/translation.cc:295-337 | a header with one line for the plural forms, anywhere among others, sets the count and the expression it was written from |
| `CataloguePlurals.PickForm` | libs/hosted/aegir-trinket/src/translation.cc:472-489 | evaluates the expression for a count and replaces a number no form has |
| `CataloguePlurals.DefaultPicks` | libs/hosted/aegir-trinket/src/translation.cc:292-293 | without a header line a count of one takes the first form and any other the second |
| `CataloguePlurals.PluralsEndToEnd` | libs/hosted/aegir-trinket/src/translation.cc:472-489 | a catalogue printed with a header written from any expression, compiled, loaded and asked for a count, answers with the form whose place among the entry's is the expression's value, or with the message or its plural where that form is missing or empty |
| `CataloguePlurals.PluralAnswers` | libs/hosted/aegir-trinket/src/translation.cc:472-489 | for counts below 2 to the 63: the answer is the form the expression's value, by C's rules, names, and for a value that is no form's number the first form for one and the second for others |
| `CataloguePlurals.FormAnsweredIff` | libs/hosted/aegir-trinket/src/translation.cc:472-489 | a form like no other text of its entry is the answer to its own number exactly when no lower number is missing |
| `Utf8.EncodeInjective` | scripts/compile_po.py:125-155 | different strings encode to different bytes, so originals stay apart |
| `BidiTable.ClassTable` | scripts/gen_bidi_tables.py:57-103 | after overwriting spans in file order each code point has the class of the last span that covers it |
| `BidiTable.RunLengths` | scripts/gen_bidi_tables.py:106-114 | the runs cover the array in order, each of one class, neighbours of different ones |
| `BidiTable.RunsUnique` | scripts/gen_bidi_tables.py:106-114 | there is only one such cover |
| `BidiTable.Lookup` | scripts/gen_bidi_tables.py:194-209 | the emitted search over the runs is the flat array at every code point and the default past it |
| `BidiTable.TableLookup` | scripts/gen_bidi_tables.py:57-114 | table, runs and search together give the last span that covers a code point |

## Left out

- `MakeVolume.MakeBfs`: names of at most 255 bytes, distinct in their directory and not `.` or `..`
  (`Legal`); the builder checks none of them, and what it does with others is not modelled.
- `MakeVolume.LayOut`: likewise.
- `Builder.Layouter.BuildDir`: likewise.
- `Builder.Layouter.BuildFile`: a name of at most 255 bytes.
- `MinimumSize.MinimumBytes`: trees of legal names, as above.
- `MinimumSize.MinimumReturnsIff`: likewise.
- `PartitionTable.LayPartitions`: likewise, for the system partition's tree.
- `DirectoryStream.BuildTree`: names of at most 255 bytes; with longer ones two keys need not fit a
  node and the level loop need not end (`PlanShrinksIff`).
- `IndexTree.BuildIndex`: keys of at most 255 bytes, so that every planned leaf fits its node.
- `NodeCodec.BuildNode`: entries that fit a node, which is what the planner hands it.
- `Inode.BuildInode`: a name of at most 255 bytes and at most twelve runs; the builder makes one run.
- `DirectoryReader.DirFind`: trees of the builder's node size only; a node whose arrays run past its
  end is refused, where the guest reads on into what an earlier node left in its buffer.
- `DirectoryReader.DirEntry`: likewise.
- `IndexReader.IndexWalk`: likewise; the stream stands for the index's inode.
- `Mount.OpensIff`: volumes of the builder's block size only; the guest also mounts other block sizes.
- `VolumeReader.ReadStream`: inodes all of whose direct runs lie in the volume and that have no
  indirect runs; a read that fails on the device is not modelled.
- `VolumeReader.WalkPath`: callers of the system class, who pass every permission check, are not
  modelled.
- `CatalogueLookup.ParseMo`: the byte order the builder writes only.
- `CatalogueParser.ParsePo`: takes the decoded text, in which carriage returns may still stand
  (`read_text` has turned them into newlines, which `splitlines` cuts alike); the digits of an index
  are the ASCII ones.
- `PluralMeaning.Evaluates`: values are unbounded integers; where the evaluator's 64-bit arithmetic
  overflows, C++ leaves the result open.
- `PluralHeader.ParseHeader`: likewise for the count of forms.
- `CataloguePlurals.PluralsEndToEnd`: forms without the separator.
- `BidiTable.ClassTable`: the data file's lines as parsed spans.
- `BidiTable.TableLookup`: likewise.
- `MinimumSize.MinimumHolds`: volumes of at least twice the size below 2 to the 45 blocks, where every
  group number fits its field.
- `_tree`'s `values` and `duplicates` parameters and a data type other than string: no caller passes
  them.
- Trees of another node size and data runs through indirect blocks in the guest's reader: the
  builder writes neither.
- 64-bit wrap-around in the guest's offset arithmetic: streams of one run stay far below it.
- `index_inode`'s answer for a volume without indices: this builder writes none.
- The guest's writer, journal, queries, attributes and block allocator.
- Python's sort: a stable insertion sort stands for it.
- Big-endian .mo images, and the hash maps behind the reader's three tables, which are one map keyed
  by table and name.
- PNG chunks, zlib and pixel unpacking.
- Regular expressions, screens, clicks, dumps, timeouts and sockets of the runner: a trigger is a
  function of the line and the captures, and the text of a press is not modelled.
- The mirror and bracket tables and the width tables, which repeat the class table's algorithm.
- File contents of the disk image, FAT partitions and the GPT itself.
- Check, fetch, pin and toolchain scripts: process and file plumbing.
