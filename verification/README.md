# NTFS driver: a Dafny model of its algorithmic core

This project models the parts of the NTFS kernel extension that decide whether a volume stays readable: the mft records
and the attribute list that ties them together, directory lookup and enumeration, the LZNT1 decompressor, the inode
cache, the bitmap run setter, the attribute sizes, and the collation orders that all of them rest on. Disk, page cache,
vnodes and memory allocation appear only as steps that may fail.

`dafny verify dfyconfig.toml` verifies everything.

## How it is laid out

| files | what they model |
|---|---|
| `Errno`, `Bytes`, `Collate` | error numbers; little endian fields, rounding; collation and name comparison |
| `AttrArea`, `Attr`, `MftRecord` | one mft record as a byte array changed in place, and the sequence of attribute records it parses into |
| `AttrSearch` | the early-exit search in one mft record |
| `InodeState`, `InodeSteps` | a base record, its extent records and the attribute list: the invariant, and what moving, adding and removing do to it |
| `ListBytes`, `ListAttr`, `ListSync`, `Context` | the list as bytes, the attribute that stores it, agreement of cache and store, search contexts that follow a moved attribute |
| `ListLookup`, `AttrLookup`, `Insertion` | lookup through the list, and where a new attribute belongs |
| `InodeFacts`, `Inode`, `InodeRun` | the operations themselves, on a class whose fields they change, and any sequence of them |
| `RecordSteps`, `Crowded` | the steps on records as effects of the byte edits; a record with too many attributes |
| `DirTree`, `IndexTree`, `ReaddirRun`, `Readdir` | directory lookup; lookup, next and position in the index tree; enumeration in several calls with directory hints |
| `Lznt1`, `Decompressor`, `Tokenizer`, `CompressionBlock`, `CompressedRead` | the format, the decompressor, what it accepts, whole compression blocks, reads of a compressed attribute |
| `InodeHash`, `InodeCache`, `InodeRelease` | the inode hash, the cache as a state machine of any number of threads, and the release of a volume |
| `Bitmap` | setting a run of bits with rollback |
| `Sizes` | allocated, data and initialized size |

An mft record is a byte array in `MftRecord`, where every memmove is shown to be a step on the parsed sequence of attribute
records; from `InodeState` on a record is that sequence, with its attribute records still as bytes, and `RecordSteps` shows
that the steps taken there are the effects of the byte edits.

The central results:

- Every insert, move, list addition, list sync and delete of an attribute keeps the invariant `Inode.NtfsInode.Valid`:
  each attribute but the list has exactly one list entry that leads to it by record and instance number and describes it,
  records and list are sorted, every record fits, and the stored list is the cached one. No attribute changes but for its
  instance number (`Contents` is kept, or changed by just the attribute inserted or deleted). An error means that something
  outside has failed, which a ghost counter counts, or it is named by the outcome, with the state that explains it.
- Any sequence of such operations keeps the invariant, and the attributes are those at the start, with those inserted and
  without those deleted (`InodeRun.Run`).
- A run of `readdir` calls delivers strictly ascending names whatever happens to the directory in between. Every name that
  was there all the time, and is in front of all names with illegal characters at which a call went on, is delivered exactly
  once (`ReaddirRun.RunDelivers`, tied to the code by `Readdir.DirIndex.Enumerate`). That is every name that was there all the
  time if none in the directory has an illegal character (`ReaddirRun.RunDeliversAll`).
- The lookup in the index tree, by halving in every node and going down, ends at the first name not in front of the one asked
  for, in every sorted tree exactly if that one has no illegal character (`IndexTree.LookupLands`, `IndexTree.LandsExactly`).
- In every reachable state of the inode cache no two hashed inodes answer to the same key, and the release of an unmounted
  volume is neither lost nor done twice (`InodeCache.RunSafe`); once it is done no inode of the volume is in memory
  (`InodeRelease.RunReleased`).
- Decompressing what the LZNT1 format defines gives what it stands for, from any sub-block on
  (`Lznt1.TokensDecode`, `CompressionBlock.DecompressesSuffix`, `CompressedRead.ReadCompressed`), and what is accepted is
  known exactly (`Tokenizer.AcceptedExactly`).

## Where the code does not do what one would expect

Each of these is stated with an input, or by the contract of the operation, next to the exact condition under which the
expectation holds.

- Names with `"`, `*`, `<`, `>` or `?` collate after each other both ways (`Collate.StarIsAfterAndBefore`,
  `Collate.AntisymmetricExactly`), so a directory lookup of such a name can miss it (`DirTree.HiddenIsMissed`,
  `DirTree.FindsExactlyLegal`).
- The index lookup that a `readdir` call goes on with can end too far behind if the name has such a character
  (`IndexTree.PastAll`, `IndexTree.StarIsPassed`, `IndexTree.LandsExactly`), and the names passed over are lost, even in a
  directory that does not change: of "*", "b" and "c" none is delivered if the first call had room for "." and ".." only
  (`ReaddirRun.StarsAreLost`, and `ReaddirRun.NamesAreLost` for every such name). Calls that go on at a name leave nothing out
  exactly if it has no such character (`ReaddirRun.CoversExactly`). Nothing is delivered twice or out of order all the same.
- A search in an mft record for a value gives up too early under any name (`AttrSearch.AnyNameMisses`), and under a name of
  which there are case variants on a volume that ignores case (`AttrSearch.CaseVariantMisses`). It succeeds exactly if some
  match has only smaller values under the name in front of it (`AttrSearch.SearchIsExhaustive`). Inserting where such a
  search ended can leave the record unsorted (`AttrSearch.CaseVariantUnsorted`, `AttrSearch.InsertSortedExactly`). So can
  inserting under a name with an illegal character, which passes over names that it belongs in front of
  (`AttrSearch.StarUnsorted`).
- A lookup by vcn returns the first extent even if that starts behind the vcn (`ListLookup.OnlyExtentAnyway`), exactly if all
  extents do (`ListLookup.FirstExtentAnyway`, `ListLookup.LookupIsFlatSearch`).
- An attribute that `ntfs_attr_record_move` has deleted from an extent record is not put back if no new record can be allocated
  and the old one cannot be mapped again: it is lost, and its list entry leads nowhere (`MftRecord.MoveRecord`,
  `Inode.NtfsInode.RecordMove`, `InodeSteps.LostEntry`). If it came from the base record, or the record can be mapped, it is
  restored.
- `ntfs_attr_list_add` takes it for impossible that the 1024-byte buffer for the list is too small, but a base record with 40
  attributes of 24 bytes is enough (`Crowded.FullRecordIsTooMany`), as are more than 32 of any size
  (`Crowded.ManyAreTooMany`); it panics exactly if the entries take more than the buffer or an extent other than the first of
  an attribute is in the base record (`Inode.NtfsInode.BuildList`).
- If the record of the new, non-resident list does not fit, `ntfs_attr_list_add` means to move index roots and the standard
  information out, but looks for their entries in the cached list of the inode, which is set only at the end: with such
  attributes in the base record it follows a null or stale pointer, without them it is out of space
  (`Inode.NtfsInode.ListAdd`, outcomes `NoCache` and `OutOfSpace`).
- `ntfs_attr_list_delete` leaves the number of elements in the runlist of a non-resident list as it was, so that adding a list
  to the inode later panics, exactly if the dropped list was non-resident (`Inode.NtfsInode.ListDelete`,
  `Inode.NtfsInode.ListAdd`, outcome `Stale`).
- Deleting the only attribute that has a list entry panics, unless it is alone in an extent record, when the list goes
  (`Inode.NtfsInode.RecordDelete`, outcome `LastEntry`).
- Inserting an attribute that does not fit in front of the only attribute of the base record panics, exactly then
  (`Inode.NtfsInode.InsertHere`, outcome `Alone`).
- Extending or adding the list can succeed and yet give up the search context, if that points into an extent record which
  cannot be mapped again (`Inode.NtfsInode.SyncExtend`, `Inode.NtfsInode.ListAdd`).
- The decompressor refuses a block whose last sub-block has fewer than six bytes to the end of the block
  (`CompressionBlock.SixBytesNeeded`), and its range check lets one byte too many through (`Tokenizer.OneByteTooMany`), exactly
  if a single byte token stands behind a full sub-block (`Tokenizer.AcceptedExactly`, `Tokenizer.SubBlockExactly`).
- Looking at the first and last cluster of a compression block misses a hole between them (`CompressedRead.HoleInTheMiddle`,
  `CompressedRead.ProbesExactly`).
- Rolling a bitmap run back restores it exactly if the bits all had the other value (`Bitmap.RolledBack`).
- A resident read that starts at or behind the end leaves the buffer as it was, where its documentation promises zeros
  (`Sizes.StaleRead`, `Sizes.ReadExactly`).
- `ntfs_attr_set_initialized_size` keeps the order of the sizes exactly if it is called within the allocated size
  (`Sizes.AttrInode.SetInitializedSize`).

Further differences between code and comments that the model follows the code in: `ntfs_collate_binary` returns the raw
result of `memcmp`, not -1, 0 or 1; name equality stops at a NUL character; resizing a resident value leaves the padding
behind it as it was; an inode that is being reclaimed is never met in the hash, so the test for it while searching never
succeeds; a failed shrinking resize can leave the size in the page cache above the data size.

## Model

| member | source | states |
|---|---|---|
| Collate.LexEqual | kext/ntfs_collate.c:54-77 | the reference order on sequences has no ties but between equal sequences |
| Collate.LexAntisymmetric | kext/ntfs_collate.c:54-77 | the reference order answers opposite signs when its arguments are exchanged |
| Collate.LexTransitive | kext/ntfs_collate.c:54-77 | the reference order is transitive, strictly so unless both steps are ties |
| Collate.CollateBinary | kext/ntfs_collate.c:54-77 | for any two lengths the result has the sign of the reference order on the byte strings; zero only for equal ones |
| Collate.CollateUlongs | kext/ntfs_collate.c:129-168 | the result is the reference order on the sequences of 32-bit words, for any two lengths that are multiples of four; zero only for equal strings |
| Collate.CollateNames | kext/ntfs_unistr.c:144-186 | the result is the order of the (folded) names, or 1 if an illegal character of the first name is reached |
| Collate.AreNamesEqual | kext/ntfs_unistr.c:115-124 | true exactly if the lengths agree and the (folded) names agree up to the first NUL |
| Collate.EqualOnLegal | kext/ntfs_unistr.c:115-124 | for a first name without NUL the equality is equality of the (folded) names |
| Collate.OrderOnLegal | kext/ntfs_unistr.c:144-186 | for a first name without illegal characters the collation is the reference order of the (folded) names |
| Collate.AntisymmetricExactly | kext/ntfs_unistr.c:144-186 | the collation of two names is antisymmetric exactly if no illegal character is reached that its order would contradict |
| Collate.StarIsAfterAndBefore | kext/ntfs_unistr.c:144-186 | "*" and "a" each collate after the other |
| Collate.CollateFilename | kext/ntfs_collate.c:92-121 | the result is the order ignoring case and, on a tie, respecting it; for a name without illegal characters that is the total order of file names |
| Collate.CollatedMeans | kext/ntfs_collate.c:92-121 | an answer of "before" is always right and "equal" only between equal names, whatever the characters; "after" can be wrong only for a name with illegal ones |
| Collate.FileOrderTotal | kext/ntfs_collate.c:92-121 | file name order is a total order whose only ties are between equal names |
| Collate.FoldedBlock | kext/ntfs_collate.c:92-121 | names equal up to case form one contiguous block of the order |
| AttrArea.ParseFlatten | kext/ntfs_attr.c:813-837 | attribute records put together with a terminator parse back into exactly these records |
| AttrArea.FlattenParse | kext/ntfs_attr.c:813-837 | whatever parses is its records put together, followed by the terminator |
| Attr.ResidentBlobFields | kext/ntfs_attr.c:2336-2387 | a new resident record reads back the type, name, value and instance it was built from |
| Attr.WithInstanceKeeps | kext/ntfs_attr.c:3628-3640 | a new instance number changes only its two bytes |
| MftRecord.Record.constructor | kext/ntfs_mft.c:1813-1872 | an mft record laid out in memory is valid and holds no attributes |
| MftRecord.Record.IsOnlyOne | kext/ntfs_attr.c:1473-1479 | true exactly if the record holds one attribute |
| MftRecord.Record.DeleteInternal | kext/ntfs_attr.c:1495-1504 | the memmove removes just this attribute from the parsed sequence, and the used bytes are those around it |
| MftRecord.Record.MakeSpace | kext/ntfs_attr.c:1722-1750 | a blank record appears at the place in the parsed sequence; ENOSPC exactly if it does not fit, and then no byte changes |
| MftRecord.Record.SpaceAndBack | kext/ntfs_attr.c:1495-1750 | making space and deleting it again leaves every used byte as it was |
| MftRecord.Record.Resize | kext/ntfs_attr.c:1766-1791 | the record is replaced in the parsed sequence by one of the new size with the same leading bytes, or removed; ENOSPC changes nothing |
| MftRecord.Record.ValueResize | kext/ntfs_attr.c:2888-2907 | the value is cut or continued with zeros, name and other records stay; ENOSPC changes nothing |
| MftRecord.Record.InsertResident | kext/ntfs_attr.c:2336-2387 | exactly the complete new record is inserted, with the next instance number; ENOSPC changes nothing |
| MftRecord.Record.InsertBlob | kext/ntfs_attr.c:3868-3878 | a copy of a whole record is put back at the place, byte for byte |
| MftRecord.MoveRecord | kext/ntfs_attr.c:3690-3878 | on success the attribute is in the new record with a new instance and gone from the old one; on failure every used byte of the source is restored exactly if it was not touched, is the base record, or can be mapped again, and otherwise the attribute is gone |
| AttrSearch.FindInRecord | kext/ntfs_attr.c:794-911 | the loop stops at the first attribute it does not skip, with the error that goes with it |
| AttrSearch.SearchIsExhaustive | kext/ntfs_attr.c:794-911 | on a sorted record, for a name without NUL, the early exit finds the first match exactly if some match has no greater value under the name asked for in front of it; that is any match at all unless a value is asked for under any name or among case variants |
| AttrSearch.AnyNameMisses | kext/ntfs_attr.c:878-907 | a sorted record with a match that such a search does not find |
| AttrSearch.CaseVariantMisses | kext/ntfs_attr.c:878-907 | a sorted record with a match that a search by name and value does not find |
| AttrSearch.Enumerate | kext/ntfs_attr.c:794-911 | repeated searches stop once at each attribute they find, in order, and end where a single pass over the record would |
| AttrSearch.EnumeratesMatches | kext/ntfs_attr.c:794-911 | on a sorted record what they find are the matches, all but those behind a greater value under the name asked for |
| AttrSearch.InsertSortedExactly | kext/ntfs_attr.c:770-793 | an attribute inserted where ENOENT left the context keeps the record sorted exactly if no attribute of its name up to case is out of place with it and the search gave up before coming to a name that an illegal character makes it pass over |
| AttrSearch.CaseVariantUnsorted | kext/ntfs_attr.c:770-793 | a record that becomes unsorted that way |
| AttrSearch.StarUnsorted | kext/ntfs_attr.c:770-793 | inserting "*" behind "b", where the search ends, leaves the record unsorted |
| AttrSearch.InsertKeepsSorted | kext/ntfs_attr.c:770-793 | it stays sorted if names equal up to case are equal and the name has no illegal character |
| ListBytes.ListRoundTrip | kext/ntfs_layout.h:980-1019 | the stored list value decodes to the entries it was encoded from |
| ListAttr.ListWriteRefines | kext/ntfs_attr_list.c:1630-1641 | resizing the value in the record and copying the list into it gives the list record of the model |
| ListSync.WriteBack | kext/ntfs_attr_list.c:2100-2117 | writing from an offset below which cache and store agree makes the whole value the cached list |
| ListSync.MoveAgrees | kext/ntfs_attr_list.c:1608-1615 | after a move, cache and store still agree below the smaller of the old offset and that of the rewritten entry |
| ListSync.EntryPatch | kext/ntfs_attr.c:3822-3832 | overwriting reference and instance of an entry in place gives the entry of the moved attribute |
| Context.ContextFollows | kext/ntfs_attr.c:3647-3667 | the context fix-up after a move still points at the attribute it pointed at, wherever that is now |
| Context.ContextShifts | kext/ntfs_attr_list.c:1642-1649 | so does the fix-up after the list attribute has been resized |
| Context.ContextPastInsert | kext/ntfs_attr_list.c:836-842 | and the one after the list attribute has been inserted |
| InodeSteps.MoveKeeps | kext/ntfs_attr.c:3576-3670 | moving an attribute to an extent record and updating its entry keeps the list invariant and the contents |
| InodeSteps.AddKeeps | kext/ntfs_attr.c:2560-2720 | adding an attribute and its entry keeps the list invariant and adds just this to the contents |
| InodeSteps.RemoveKeeps | kext/ntfs_attr.c:1570-1693 | removing an attribute and its entry, and its record if left empty, keeps the list invariant and removes just this |
| InodeSteps.LostEntry | kext/ntfs_attr.c:3835-3856 | removing an attribute without its entry leaves an entry that leads nowhere, and no list invariant |
| InodeSteps.BuildKeeps | kext/ntfs_attr_list.c:282-400 | the list built from a base record satisfies the list invariant |
| Inode.NtfsInode.MoveForList | kext/ntfs_attr.c:3576-3670 | on success record, entry and context are those of the moved attribute; it fails exactly if no mft record can be allocated, and then nothing changes |
| Inode.NtfsInode.FindEntry | kext/ntfs_attr_list.c:1540-1591 | the entry search ends at the entry of just the attribute to be moved, so the checks for a corrupt list cannot fail |
| Inode.NtfsInode.MoveOut | kext/ntfs_attr_list.c:1540-1615 | one round: the contents stay, the offset is lowered so that cache and store agree below it |
| Inode.NtfsInode.MakeRoomResident | kext/ntfs_attr_list.c:1447-1616 | the loop ends, keeps contents and agreement, when it reports room the resize that follows cannot fail, and an error comes only from outside |
| Inode.NtfsInode.MakeRoomNonResident | kext/ntfs_attr_list.c:1826-2071 | the passes end, on success the resize that follows cannot fail, and without a failure outside ENOSPC comes only with nothing but the list attribute left |
| Inode.NtfsInode.WriteResident | kext/ntfs_attr_list.c:1617-1650 | the stored value is the cached list, contents and context stay |
| Inode.NtfsInode.WriteNonResident | kext/ntfs_attr_list.c:2072-2117 | the same for a list in clusters, unless writing fails |
| Inode.NtfsInode.MakeNonResident | kext/ntfs_attr_list.c:1659-1790 | a resident list that becomes non-resident is stored whole, unless something outside fails or the record does not fit, which takes more than the resident one had |
| Inode.NtfsInode.ExtendNonResident | kext/ntfs_attr_list.c:1826-2117 | a non-resident list is extended and rewritten from the lowered offset, after which it is the cached list |
| Inode.NtfsInode.SyncExtend | kext/ntfs_attr_list.c:1326-2158 | if the store agrees with the cache below the offset, success makes them equal although entries are rewritten on the way; unless something outside fails it succeeds, the base record holds nothing but the list, or the record of a list that becomes non-resident does not fit; on failure records and cached list still belong together; the context follows, or is given up if it points into an extent record, which has to be mapped again |
| Inode.NtfsInode.SyncShrink | kext/ntfs_attr_list.c:1105-1286 | the same for a list that became shorter; unless something outside fails it succeeds, its allocation was not whole clusters, or fewer clusters take more mapping pairs |
| Inode.NtfsInode.ShrunkRecord | kext/ntfs_attr_list.c:1188-1265 | the shrunk list record has the new size, keeps its instance and does not grow; the panic on the allocated size comes exactly if that is below the clusters the new size takes, which it cannot be if it is whole clusters |
| Inode.NtfsInode.ListIsNeeded | kext/ntfs_attr_list.c:80-135 | true exactly if an entry other than the one skipped leads to an extent record |
| Inode.NtfsInode.ListDelete | kext/ntfs_attr_list.c:152-202 | just the list attribute leaves the base record; the runlist elements of a non-resident one are left behind |
| Inode.NtfsInode.RecordDelete | kext/ntfs_attr.c:1537-1705 | the invariant is kept and exactly the attribute is gone; the list is dropped only when all that remains is in the base record, and then nothing else is lost, and whether a later addition of a list panics over extents or runlist elements left behind is stated exactly; the panic on an empty list comes exactly with the only entry, unless its record goes |
| Inode.NtfsInode.BuildList | kext/ntfs_attr_list.c:266-400 | the list has an entry for each attribute of the base record, in order; it panics exactly if the buffer is too small or an extent other than the first is among them |
| Inode.NtfsInode.MakeRoomForNew | kext/ntfs_attr_list.c:415-565 | the loop ends, keeps records and list under construction linked, and when it succeeds the insert that follows cannot fail |
| Inode.NtfsInode.AddNonResident | kext/ntfs_attr_list.c:576-826 | a list in clusters is inserted and stored whole, unless something outside fails or its record does not fit, with nothing to move out or nowhere to look it up |
| Inode.NtfsInode.ListAdd | kext/ntfs_attr_list.c:228-880 | the inode gets a list with the same attributes in the same order, stored whole, and the context follows or, if it points into an extent record that cannot be mapped again, is given up; it fails exactly if something outside does, memory included, or the outcome says why; on failure no attribute is lost, wherever it has been moved to |
| Inode.NtfsInode.RecordMove | kext/ntfs_attr.c:3690-3878 | the contents stay, the entry leads to the new place, and patching just that entry in the store keeps it equal to the cached list; on failure nothing changes or the contents still stay, unless the attribute is lost, which takes an extent record that cannot be mapped again, and then the list invariant is broken |
| Inode.NtfsInode.InsertHere | kext/ntfs_attr.c:2422-2605 | with a list, or if it fits: the invariant is kept and exactly the new attribute is added; it is refused with `Alone` exactly if it does not fit and the place is in front of the only attribute of the base record |
| Inode.NtfsInode.RecordInsert | kext/ntfs_attr.c:2422-2735 | the invariant is kept and exactly the new attribute is added, in the base record, after adding a list, or in an extent record, and the context points at it unless it is in an extent record that cannot be mapped again; unless something outside fails it is refused only for the reason the outcome names; on failure no attribute is lost |
| Inode.NtfsInode.Lookup | kext/ntfs_attr.c:1312-1335 | found exactly if the inode has such an attribute, with its record, position and entry; by name and vcn it is the extent that starts last at or below the vcn if one does, and else the first; otherwise the places where it belongs |
| Inode.NtfsInode.LookupAndInsert | kext/ntfs_vfsops.c:5332-5361 | an attribute that is there is not inserted again; one that was inserted can be looked up, and the context points at it unless it is in an extent record that cannot be mapped again |
| Inode.NtfsInode.LookupAndDelete | kext/ntfs_vfsops.c:5332-5379 | exactly one attribute as asked for is gone; if there was none nothing changes |
| InodeRun.Run | kext/ntfs_attr.c:1537-3834 | any sequence of insertions, deletions and moves keeps the invariant; the attributes at the end and those deleted are those at the start and those inserted; it stops early only if something outside fails, an outcome says why, or an insertion finds instance numbers about to wrap |
| InodeRun.Conserved | kext/ntfs_attr.c:1537-3834 | whatever the steps, nothing comes or goes but what is inserted or deleted |
| Crowded.ManyAreTooMany | kext/ntfs_attr_list.c:353-360 | more than 32 attributes of any size overflow the buffer for the list |
| Crowded.FullRecordIsTooMany | kext/ntfs_attr_list.c:353-360 | an inode as good as any whose base record of 1024 bytes holds 40 attributes does so |
| RecordSteps.Delete | kext/ntfs_attr.c:1495-1504 | the byte edit that deletes an attribute is the step on the record that the inode operations take |
| RecordSteps.Insert | kext/ntfs_attr.c:2336-2387 | so is the insertion of a resident attribute, and it fits exactly if the record says so |
| RecordSteps.Move | kext/ntfs_attr.c:3690-3834 | so is the move to a new record |
| RecordSteps.SetListValue | kext/ntfs_attr_list.c:1630-1641 | and giving the resident list another value |
| Insertion.RecordWithNew | kext/ntfs_attr.c:2422-2605 | the new attribute at the position found keeps the mft record sorted and within its size |
| Insertion.ListWithNew | kext/ntfs_attr.c:2618-2720 | its entry at the position found keeps the list sorted |
| ListLookup.FindInstance | kext/ntfs_attr.c:1146-1205 | the walk by instance number ends at the attribute of the entry, so the checks for a mismatch cannot fail |
| ListLookup.WalkList | kext/ntfs_attr.c:1025-1205 | the loop stops at the first entry it does not skip, with the attribute that it leads to |
| ListLookup.FindInList | kext/ntfs_attr.c:976-1269 | the answer of the walk, and on failure where the search in the base record for the place to insert at ends |
| ListLookup.EndOfSearch | kext/ntfs_attr.c:1225-1269 | if the base record has no match, that is the insertion point |
| ListLookup.ListSearchExact | kext/ntfs_attr.c:1025-1205 | ENOENT exactly if no entry is of the type and name; otherwise the entry with the greatest vcn that does not exceed the one given, or the first of all if every one does |
| ListLookup.ListValueExact | kext/ntfs_attr.c:1025-1205 | by value: the first attribute that holds it, ENOENT exactly if there is none |
| ListLookup.FirstExtentAnyway | kext/ntfs_attr.c:1086-1106 | if all extents start behind the vcn asked for, the first of them is returned |
| ListLookup.OnlyExtentAnyway | kext/ntfs_attr.c:1086-1106 | a list with an only extent at 10 answers with it for vcn 5 |
| ListLookup.LookupIsFlatSearch | kext/ntfs_attr.c:976-1269 | the answer through the list is that of a search over the attributes of all records: the extent that starts last at or below the vcn if one does, and else the first |
| ListLookup.ValueLookupIsFlatSearch | kext/ntfs_attr.c:976-1269 | the same by value |
| ListLookup.EntryBelongs | kext/ntfs_attr.c:1225-1269 | an entry inserted where ENOENT left the context keeps the list sorted, if its name has no illegal character |
| AttrLookup.PlainLookup | kext/ntfs_attr.c:1312-1335 | without a list the answer is whether the inode has the attribute |
| AttrLookup.ListedLookup | kext/ntfs_attr.c:1312-1335 | with a list it is the same question over all records, and the extent found is the one for the vcn |
| DirTree.LookupName | kext/ntfs_dir.c:117-631 | the loops over entries and levels compute the recursive search of the tree |
| DirTree.OneDescentSuffices | kext/ntfs_dir.c:188-341 | one descent finds the exact name if it is anywhere; else, on a volume that ignores case, a name that differs in case only exactly if there is one anywhere |
| DirTree.FindsExactlyLegal | kext/ntfs_dir.c:441-631 | the name is found in every directory that holds it exactly if it has no illegal character |
| DirTree.HiddenIsMissed | kext/ntfs_dir.c:188-341 | for every name with an illegal character there is a balanced directory that holds it where the search misses it |
| IndexTree.LookupInNode | kext/ntfs_index.c:819-933 | the loop that halves the entries of a node computes the recursive search |
| IndexTree.LookupLands | kext/ntfs_index.c:987-1050 | in every sorted tree a lookup ends at the first name not in front of the one asked for if that has no illegal character, and never in front of that place |
| IndexTree.LandsExactly | kext/ntfs_index.c:987-1050 | it ends there in every sorted tree exactly if the name has no illegal character |
| IndexTree.PastAll | kext/ntfs_index.c:819-933 | for every name with an illegal character there is a balanced tree that holds it where the lookup passes over every name |
| IndexTree.StarIsPassed | kext/ntfs_index.c:819-933 | in a root with "*", "b" and "c" the lookup of "*" ends behind all three |
| IndexTree.NameIsPosition | kext/ntfs_dir.c:1267-1343 | in an unchanged directory, going on by a name without illegal characters and going on by its position are the same |
| IndexTree.IndexLookup | kext/ntfs_dir.c:1278-1330 | the descent, and going up again from the end of a leaf, leave exactly the names from where the lookup ends; ENOENT exactly if there are none |
| IndexTree.LookupNext | kext/ntfs_index.c:1261-1385 | the path goes on to the next name in order, over all levels of the tree; ENOENT exactly behind the last |
| IndexTree.LookupByPosition | kext/ntfs_index.c:1095-1230 | the path leads to the name at the position; ENOENT exactly if there are not so many |
| ReaddirRun.CallHands | kext/ntfs_dir.c:1039-1486 | a call hands out visible entries in order, none in front of its start and all in front of where it stops, whatever the characters of the name it goes on at |
| ReaddirRun.CallCovers | kext/ntfs_dir.c:1039-1486 | and no visible entry in between is left out, if the name gone on at has no illegal character |
| ReaddirRun.RunDelivers | kext/ntfs_dir.c:1039-1486 | over any run of calls on a changing directory names strictly ascend, and at the end every name visible throughout, and in front of all names with illegal characters gone on at, has been delivered exactly once |
| ReaddirRun.RunDeliversAll | kext/ntfs_dir.c:1039-1486 | every name visible throughout has been delivered exactly once if no name in the directory had an illegal character |
| ReaddirRun.CoversExactly | kext/ntfs_dir.c:1227-1330 | the calls that go on at a visible name leave nothing out, on any directory, exactly if it has no illegal character |
| ReaddirRun.NamesAreLost | kext/ntfs_dir.c:1227-1330 | for every name with an illegal character a run on an unchanged directory of three visible names that delivers none of them |
| ReaddirRun.StarsAreLost | kext/ntfs_dir.c:1227-1330 | so it is with "*", "b" and "c" in the root |
| Readdir.DirIndex.DirhintGet | kext/ntfs_dir.c:820-884 | the hint with the offset comes first with its name, else a new or the oldest one; the list stays ordered by age and at most 32 long |
| Readdir.DirIndex.DirhintPut | kext/ntfs_dir.c:896-905 | just this hint leaves the list |
| Readdir.DirIndex.DirhintsPut | kext/ntfs_dir.c:920-940 | stopping at the first hint that is fresh removes exactly the expired ones |
| Readdir.DirIndex.NewTag | kext/ntfs_dir.c:1449-1467 | tags given out are between 1 and 62 |
| Readdir.DirIndex.NextOffset | kext/ntfs_dir.c:1379-1467 | the offset returned carries the position, its tag is at most 62, and the hint kept for it has the name to go on with |
| Readdir.DirIndex.HandOut | kext/ntfs_dir.c:677-795 | the loop along the path hands out exactly the visible entries between where it starts and where it ends |
| Readdir.DirIndex.ReadEntries | kext/ntfs_dir.c:1227-1467 | a call starts where the index lookup of the name of its hint ends, or else at its position, and says where to go on |
| Readdir.DirIndex.Readdir | kext/ntfs_dir.c:1039-1486 | the whole call; an offset that does not mean the end is never all ones |
| Readdir.DirIndex.CallIn | kext/ntfs_dir.c:1039-1486 | one call of an enumeration that finds its hint delivers what the specification of a call says, which starts where the index lookup ends |
| Readdir.DirIndex.Enumerate | kext/ntfs_dir.c:1039-1486 | calls that feed back the offset returned form a run, so what they deliver ascends strictly and has every name visible throughout that is in front of all names with illegal characters gone on at exactly once |
| Lznt1.LgRange | kext/ntfs_compress.c:517-519 | the logarithm is at most 8 and the window it gives covers the position |
| Lznt1.SplitAsSpecified | kext/ntfs_compress.c:517-531 | the split between distance and length is the one of section 2.5 of MS-XCA |
| Lznt1.DocumentedSplit | kext/ntfs_compress.c:316-330 | the documented loop yields the mask and shift that the logarithm yields |
| Lznt1.WindowReachable | kext/ntfs_compress.c:517-529 | every byte produced so far in the sub-block has a distance code |
| Lznt1.CopyBackUnique | kext/ntfs_compress.c:303-310 | the overlapping copy is the one continuation in which each byte equals the one a distance before it |
| Lznt1.TokensDecode | kext/ntfs_compress.c:462-560 | decoding the encoding of any token sequence gives its byte-by-byte expansion |
| Decompressor.CopyPhrase | kext/ntfs_compress.c:535-555 | the block copy followed by the byte loop is the overlapping copy |
| Decompressor.PhraseToken | kext/ntfs_compress.c:502-557 | a phrase is copied, or refused exactly if it reaches out of the sub-block |
| Decompressor.DecodeTokens | kext/ntfs_compress.c:462-560 | the token loop writes what the functional decoder gives and fails exactly if that does |
| Decompressor.Decompress | kext/ntfs_compress.c:334-565 | the whole routine writes what the walk over the sub-blocks gives, and fails exactly if that does |
| CompressionBlock.SubBlockDecodes | kext/ntfs_compress.c:404-478 | a sub-block decodes to its 4096 bytes, zero padded, and its header gives its size |
| CompressionBlock.BlocksDeliver | kext/ntfs_compress.c:374-478 | a well-formed block is accepted and delivers its sub-blocks |
| CompressionBlock.DecompressesSuffix | kext/ntfs_compress.c:363-418 | from sub-block k on the result is exactly the suffix of the full decompression |
| CompressionBlock.DecompressesInvalidPages | kext/ntfs_compress.c:359-442 | with a page list, as far as the block reaches, valid pages are unchanged and invalid ones equal the full decompression |
| CompressionBlock.SixBytesNeeded | kext/ntfs_compress.c:400-402 | a well-formed block with fewer than six bytes at its last sub-block is refused |
| Tokenizer.AcceptedExactly | kext/ntfs_compress.c:462-560 | a body is accepted within the sub-block exactly if it splits into tokens in range, and the result is their expansion; it gives one byte more exactly if a byte token stands behind a full sub-block, and never two |
| Tokenizer.SubBlockExactly | kext/ntfs_compress.c:404-501 | the same for a whole sub-block |
| Tokenizer.OneByteTooMany | kext/ntfs_compress.c:489-501 | a block of seven bytes that decompresses to 4097 |
| CompressedRead.GetCbType | kext/ntfs_compress.c:103-191 | the type found is the one that first and last cluster give, with a runlist of which any part is in memory; an error comes only with a cluster that could not be mapped or does not exist |
| CompressedRead.ProbesExactly | kext/ntfs_compress.c:118-191 | exactly when two probes agree with a scan of every cluster |
| CompressedRead.ProbesSuffice | kext/ntfs_compress.c:118-191 | they do when real clusters form a prefix of the block |
| CompressedRead.HoleInTheMiddle | kext/ntfs_compress.c:118-191 | a block with a hole in the middle is taken for uncompressed |
| CompressedRead.ReadBlock | kext/ntfs_compress.c:692-875 | part of one block is read as the stream has it, and fails exactly if its clusters cannot be read |
| CompressedRead.ReadBlocks | kext/ntfs_compress.c:660-895 | any number of blocks, likewise |
| CompressedRead.ReadCompressed | kext/ntfs_compress.c:599-895 | for every page aligned range: the stream byte below the initialized size and zero beyond it, and failure exactly if a block needed cannot be read |
| InodeHash.InodeTest | kext/ntfs_inode.c:95-124 | the comparison of mft number, type, name and raw flag |
| InodeHash.TestEquivalence | kext/ntfs_inode.c:95-124 | the comparison is an equivalence |
| InodeHash.FindInBucket | kext/ntfs_hash.c:150-192 | the loop answers an inode of the bucket that matches, or that there is none |
| InodeCache.InitInv | kext/ntfs_hash.c:77-91 | the empty cache satisfies the invariant |
| InodeCache.SearchFirstKeeps | kext/ntfs_hash.c:203-295 | the first search, with or without allocation of a new inode, keeps the invariant |
| InodeCache.SearchAgainKeeps | kext/ntfs_hash.c:296-328 | so does the second search with the insertion under the same lock |
| InodeCache.TakeVnodeKeeps | kext/ntfs_hash.c:213-232 | taking the vnode by its version, or starting over, keeps it |
| InodeCache.AddToListKeeps | kext/ntfs_hash.c:329-332 | going on the list of the volume keeps it |
| InodeCache.UnhashKeeps | kext/ntfs_inode.c:3307-3322 | the unhashing section of reclaim keeps it |
| InodeCache.FreeKeeps | kext/ntfs_inode.c:3215-3237 | leaving the list of the volume, with the postponed release, keeps it |
| InodeCache.DeleteKeeps | kext/ntfs_vnops.c:7366-7376 | the early removal of a deleted inode keeps it |
| InodeCache.UnmountKeeps | kext/ntfs_vfsops.c:3794-3805 | the end of an unmount, releasing at once or later, keeps it |
| InodeCache.StepKeeps | kext/ntfs_hash.c:206-335 | every step of every thread keeps the invariant |
| InodeCache.RunSafe | kext/ntfs_hash.c:150-335 | in every state of every run: each hashed inode once and in its own bucket, no two for one key, those allocated on the list of their volume, no held inode under reclaim, and the release of an unmounted volume neither lost nor done twice |
| InodeRelease.QuietEmpty | kext/ntfs_inode.c:3215-3237 | if inodes off the list are being made, nobody looks for inodes of an unmounted volume, and a volume due for release has an empty list, then a released volume has no inodes in memory |
| InodeRelease.StepQuiet | kext/ntfs_inode.c:3215-3237 | every step of every thread keeps these three |
| InodeRelease.RunReleased | kext/ntfs_vfsops.c:3794-3805 | so in every state of every run a released volume has no inodes in memory |
| Bitmap.RolledBack | kext/ntfs_bitmap.c:186-211 | after a rollback the bitmap is as before exactly if all bits had the other value |
| Bitmap.BitmapInode.FirstByte | kext/ntfs_bitmap.c:109-126 | the bits of a partial first byte, as far as they belong to the run |
| Bitmap.BitmapInode.LastByte | kext/ntfs_bitmap.c:162-180 | the bits of a partial last byte |
| Bitmap.BitmapInode.SetPages | kext/ntfs_bitmap.c:93-180 | exactly the bits of the run up to the first page that cannot be mapped are set, all of them on success; the counts that would panic do not arise |
| Bitmap.BitmapInode.SetBitsInRun | kext/ntfs_bitmap.c:69-211 | on success exactly the run is set; on failure what had been set is set back, or the volume is marked |
| Sizes.ReadExactly | kext/ntfs_attr.c:8989-9002 | a resident read gives the bytes asked for and zeros behind them exactly if it starts before the end (or the buffer was zero) |
| Sizes.StaleRead | kext/ntfs_attr.c:8993-9002 | a read at the end leaves the buffer as it was |
| Sizes.AttrInode.ReadSizes | kext/ntfs_inode.c:2074-2098 | stored sizes are accepted exactly if they are in order and have no sign bit |
| Sizes.AttrInode.SetInitializedSize | kext/ntfs_attr.c:3919-4007 | inode and record agree afterwards, the data size covers the initialized size, and the order is kept exactly if the new size is within the allocation |
| Sizes.AttrInode.ResidentWrite | kext/ntfs_attr.c:9032-9099 | just the bytes written change, cut off at the data size; sizes stay in order |
| Sizes.AttrInode.ResidentRead | kext/ntfs_attr.c:8938-9010 | the buffer gets what reading the initialized part gives, as far as the page cache size reaches |
| Sizes.AttrInode.MakeNonResident | kext/ntfs_attr.c:2967-3450 | the conversion keeps data and initialized size, allocates whole clusters, and the size mismatch it panics on does not arise |
| Sizes.AttrInode.ExtendResident | kext/ntfs_attr.c:6110-6149 | a resident value is continued with zeros in a record made larger, or nothing changes |
| Sizes.AttrInode.ExtendNonResident | kext/ntfs_attr.c:7338-7371 | allocated and data size grow in inode and record alike |
| Sizes.AttrInode.ExtendAllocation | kext/ntfs_attr.c:5946-7395 | the allocation covers what was asked for and sizes stay in order, whether the attribute stays resident or not and whether it succeeds or not |
| Sizes.AttrInode.ResizeResident | kext/ntfs_attr.c:7859-7896 | a resident value is cut or continued with zeros; it cannot fail when shrinking |
| Sizes.AttrInode.ShrinkNonResident | kext/ntfs_attr.c:8187-8342 | initialized and data size are lowered before the allocation, so that every failure leaves the sizes in order |
| Sizes.AttrInode.Resize | kext/ntfs_attr.c:7666-8800 | sizes stay in order and equal to the record on success and failure; on success they are what was asked for, and the panic on a growing allocation while shrinking does not arise |
| Sizes.AttrInode.Run | kext/ntfs_attr.c:7666-9095 | any sequence of these operations keeps the sizes in order and equal to the record |

## Left out

- Locks, vnode reference counts, the page cache, buffer I/O and logging: mapping, reading, writing and allocating are steps that may fail; lock steps appear only in the inode cache, where one step is one critical section.
- Runlists and mapping pairs: arbitrary bytes of a given size in list records; in `CompressedRead` a sequence of runs, all of it in memory when blocks are read.
- The undo paths of `ntfs_attr_list_add` and `ntfs_resident_attr_record_insert`: a failed call promises only what its contract says.
- Inode.NtfsInode.ListAdd: on failure the attributes moved out by then are not put back here, only shown not to be lost.
- Inode.NtfsInode.RecordInsert: on failure the attribute may be left behind, for the same reason; the 16-bit instance counter is required not to wrap.
- Inode.NtfsInode.ListDelete: the number of runlist elements is kept as whether there are any.
- Inode.NtfsInode.Lookup: by a name without NUL of which there are no case variants; any name is in `ListLookup.FindInList`.
- InodeRun.Run: every question is well put to all attributes there may ever be; it goes on after an operation that succeeds or finds nothing to do, and says nothing of the state after any other.
- Attribute types below the attribute list other than standard information: none is defined, and `Insertion.Proper` excludes them.
- `ntfs_attr_list_entries_delete` for ranges of entries, and the extent deletion loop of `ntfs_attr_resize`: only the removal of one entry is modelled.
- Iteration contexts of `ntfs_attr_find_in_mft_record` beyond the search itself, and lookups through the list that continue from a previous one.
- Index blocks: the tree is a value, every leaf of it non-empty but for an empty root, with children below all entries or below none; reading it may fail in the lookup of a name, when a call falls back to the position; in going on to the next name it is left out, and would be an error like a failing copy. Adding and removing names is not modelled.
- Readdir.DirIndex.Readdir: room in the user's buffer and failing copies are arbitrary; the layout of directory entries is not modelled.
- Readdir.DirIndex.CallIn: enumerations whose hint was pushed out of the list are given up; nothing is promised for them.
- Decompressor.Decompress: its buffer has one spare byte, since the range check lets one byte too many through; the header byte behind an odd block end is a parameter.
- `ntfs_read_compressed` with a page list, and valid pages behind the end of the stream.
- InodeCache.RunSafe: an inode without a vnode is returned without a reference, as in the driver, so nothing is promised to its holder; that reclaim starts only when nobody holds the vnode is taken from the system; inode numbers stand for allocations and are not used again, as the vnode version does; an unmount ends when nobody looks for inodes of the volume any more, which is taken from the system, too.
- Bitmap.BitmapInode.SetBitsInRun: the page size is 4096 and the run lies within the bitmap; a count of zero is excluded.
- Sizes.AttrInode.MakeNonResident: only the resulting sizes; the value written to the clusters and the mapping pairs are not modelled.
- Sizes.AttrInode.ExtendAllocation: partial allocations (a non-negative `data_start`), sparse and compressed sizes are not modelled.
- Sizes.AttrInode.Resize: moving an index root out to make room, compressed sizes and the sizes kept with the base inode of a directory index are not modelled.
- `ntfs_attr_extend_initialized`, `ntfs_attr_sparse_set`, `ntfs_attr_instantiate_holes`, `ntfs_attr_mapping_pairs_update`: disabled, or mostly paging and cluster allocation.
- The table that maps collation rules to functions in `ntfs_collate`.
- AFP and Finder information, vnode creation, reading of inodes, times and sync, the log file, `newfs`: plumbing around the core.
