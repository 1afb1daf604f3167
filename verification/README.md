# The Pancake raw-device engine

A Dafny model of the storage engine that keeps 64 MB extents on a raw device: how blocks are laid out on disk and
protected, where regions and extents lie, and how the extent manager hands extents out and takes them back while
many coroutines use it, writes fail and machines crash.

The modules follow the program.

- `Bytes`, `CrcRegister`, `CrcDivision`, `CrcTable`, `CrcBursts`: the CRC-32 of section 8.1.1.6.2 of ITU-T V.42 as a
  bit-by-bit register, the same thing as long division of polynomials over GF(2), the table loop of `CRC::CRC32` with
  all 256 entries, and the changes it detects.
- `SealedBlock`, `PayloadBlocks`, `JournalBlocks`, `ExtentHeaders`, `SuperBlocks`: the five on-disk blocks, their
  `Serialize` and `Deserialize` as methods on objects, and functions for what these write and accept.
- `Devices`, `Layouts`, `ExtentGeometry`: the device as a map from block number to block, `BuildLayout`, and the
  manager's address arithmetic with its widths.
- `BitmapImages`, `NextFit`: the bitmap on disk, one byte for an extent, and the search for a free slot.
- `ExtentProtocol`: `AddExtent` and `DelExtent` cut at each `co_await`. A step is a call that arrives, a task that
  takes the lock, a write that reaches the device, or a transfer that completes well or badly; a write may land and
  still be reported as failed. Every intermediate state is a possible crash.
- `ExtentViews`, `ExtentInvariant`, `ExtentSteps`: what the device says, the invariant of the protocol, and that every
  step of every run keeps it. `ExtentSafety`, `ExtentOrder`, `ExtentOwners` and `ExtentAccounting` say what follows.
- `ExtentCalls`, `ExtentManagers`: whole calls as functions, the class `PancakeExtentManager` proved against them, and
  that an undisturbed call is a run. `ExtentSerial` proves the converse for all runs: interleaved tasks do what the
  same calls do one after the other.
- `ExtentOutcomes`, `ExtentOrigins`, `ExtentFrame`: what each call leaves and returns, told by the bytes on the device
  and the caller's header alone; which call the header of each live extent comes from; and the blocks no run writes.
- `ExtentExactness`, `ExtentRetries`, `ExtentExamples`: which departure of the source, or use of it, costs which
  property, as conditions that hold in both directions, with the runs that show the failures.

## The source as written, and repaired

The source departs in several places from what the code around it calls for. Each place is a parameter: `Form` is
`AsWritten` or `Repaired` for a function, and `Fixes` collects those of the manager. Theorems hold for every
combination unless their hypotheses say otherwise.

- `ExtentHeaderBlock::Deserialize` does not read the code shard count (`pancake_block.cc:683-688`, written at
  `595-596`), so it reads everything after it one byte early and accepts no header ever written. Therefore no delete
  ever frees an extent (`HeaderAsWrittenIsUnreadable`, `NothingFreed`).
- `JournalBlock::Serialize` appends the reserved bytes twice (`pancake_block.cc:485-487`): its size assertion never
  holds (`JournalRoundTrip`).
- `SuperBlock::Deserialize` keeps the old string when a length is zero (`pancake_block.cc:128`, `143`):
  `SuperRoundTrip` says exactly when that matters.
- `extentBlockCount` divides by 4064 (`pancake_layout.cc:64`) although extents have 64 MB: `AsWrittenFitsExactly`.
- The cursor wraps at the number of bitmap blocks (`pancake_extent_mgr.cc:59`), so one extent in 4064 can be used
  (`Capacity`) and, with more bitmap blocks than extents, the search leaves the bitmap (`SearchDefinedExactly`,
  `InitAcceptsLostSearch`).
- The counter is never updated (`pancake_extent_mgr.cc:53`, `185`, `191`), a delete of an unknown id goes on
  (`120-123`), and a delete leaves its id in the map (`170-173`): `OwnersExactly`, `CountExactly`.
- A delete acts on the index its caller passes; headers of freed extents stay on the device and still pass the
  checks. `MatchExactly` is the exact condition. Where a wrong index could do harm, runs are those whose deletes pass
  the recorded one (`Careful`); as written none could, and runs are unrestricted.
- An add whose bitmap write fails after it has reached the device leaves a mark there that memory does not have
  (`pancake_extent_mgr.cc:98-105`). Trying its id again can leave two marked slots with headers of one id:
  `DeviceOwners`, `RetryExactly` and `UniqueExactly` say when.
- The clone loop and the mark functions compute a bit position within a byte, but with `sizeof(uint8_t)`, which is 1:
  the bitmap on disk has one byte, 0 or 1, for each extent.
- The clone loop counts in `int` (`pancake_extent_mgr.cc:199-206`). Its bounds overflow for extents from 2147482624 on,
  and from 2^31 extents on it sees none of them (`CloneRange`, `CloneExactly`, `SecondAddErasesFirst`). Neither `Init`
  nor the layout of a huge device as written keeps below that; theorems about the invariant ask for it (`ValidConfig`).

"Intact" or "good" of a header always means as the repaired reader sees it: the reader as written sees none.

What the theorems assume of the device: a block is written whole or not at all, a read returns what was last
written, and a run starts with every bitmap block present and empty. Which header blocks exist and what they hold at
the start does not matter. A step whose behaviour C++ leaves undefined, a search or a deletion past the bitmap or an
overflowing clone loop, is not a step of any run; the classes ask for the same before a call.

## Model

| member | source | states |
|---|---|---|
| CrcRegister.StepsInjective | src/comm/crc.cc:53-57 | Registers that differ still differ after any number of one-bit steps |
| CrcRegister.RegisterAppend | src/comm/crc.cc:53-57 | Feeding two pieces one after the other is feeding their concatenation |
| CrcRegister.RegisterLinear | src/comm/crc.cc:53-57 | The register after a message is linear over xor in the first register and the message together |
| CrcRegister.CrcDifference | src/comm/crc.cc:53-57 | The xor of the CRCs of two messages of equal length depends only on the xor of the messages |
| CrcDivision.CrcIsRemainder | src/comm/crc.cc:53-57 | The bit-by-bit CRC is the complemented remainder of schoolbook polynomial division of the extended message over GF(2) |
| CrcTable.TableIsEightSteps | src/comm/crc.cc:7-51 | Each of the 256 table entries is eight one-bit steps of its index |
| CrcTable.TableStep | src/comm/crc.cc:54-56 | One turn of the table loop, with `char` promoted with its sign, feeds exactly one byte to the register |
| CrcTable.Crc32 | src/comm/crc.cc:53-57 | For every buffer the table loop returns the bit-by-bit CRC-32 |
| CrcTable.CheckValue | src/comm/crc.cc:53-57 | The check value of this CRC: CBF43926 for the nine digits from 1 on |
| CrcBursts.BurstDetected | src/comm/crc.cc:53-57 | Two messages of equal length that differ only inside a window of four neighbouring bytes have different CRCs, at every length and position |
| CrcBursts.WindowRegister | src/comm/crc.cc:53-57 | A difference confined to four bytes never leaves the register zero, however many equal bytes follow |
| SealedBlock.SealedIsSeal | src/datanode/storage/engine/pancake/pancake_block.cc:336-348 | A block whose CRC field agrees with its covered bytes is exactly the sealed form of those bytes, and conversely |
| SealedBlock.UnseenDifference | src/datanode/storage/engine/pancake/pancake_block.cc:336-348 | Whether a change of a sealed block goes unseen depends on the change alone |
| SealedBlock.FourByteCorruption | src/datanode/storage/engine/pancake/pancake_block.cc:336-348 | Of all changes within four neighbouring bytes of a sealed block, also those across the edge between covered bytes and CRC, exactly one pattern goes unseen: bytes 4090 to 4093 xored with 61 D8 F4 EE |
| Bytes.DecodeEncode | src/datanode/storage/engine/pancake/pancake_block.cc:17-43 | Reading a big-endian number gives back what was written, at every width |
| Bytes.EncodeDecode | src/datanode/storage/engine/pancake/pancake_block.cc:102-120 | Writing what was read gives back the bytes |
| Bytes.BigEndianDigits | src/datanode/storage/engine/pancake/pancake_block.cc:17-43 | Each byte of a written number is its digit to the base 256, most significant first |
| PayloadBlocks.RoundTrip | src/datanode/storage/engine/pancake/pancake_block.cc:243-348 | `Deserialize` of what `Serialize` wrote succeeds and gives every field, stamped with magic and CRC, whatever the object held before |
| PayloadBlocks.BlockFooter.Fill | src/datanode/storage/engine/pancake/pancake_block.h:71-76 | Sets magic, version 1, the length in 16 bits and the extent id, each to its own argument, and keeps flag, reserved bytes and CRC |
| PayloadBlocks.WrittenAs | src/datanode/storage/engine/pancake/pancake_block.cc:243-384 | Byte by byte where `Serialize` puts the data and each field of the footer, and that the CRC is that of the first 4092 bytes |
| PayloadBlocks.ReadAs | src/datanode/storage/engine/pancake/pancake_block.cc:279-454 | Each result of `Deserialize` told by the bytes of the block, its size, magic and CRC, and each field told by the bytes it comes from |
| PayloadBlocks.Canonical | src/datanode/storage/engine/pancake/pancake_block.cc:279-348 | The blocks `Deserialize` accepts are exactly those with a right magic and CRC, and each is byte for byte the encoding of what was read from it |
| PayloadBlocks.CorruptionRejected | src/datanode/storage/engine/pancake/pancake_block.cc:350-454 | Any change within four neighbouring bytes of an accepted data or bitmap block makes `Deserialize` fail, with the one exception above, for which it succeeds |
| PayloadBlocks.PayloadBlock.Serialize | src/datanode/storage/engine/pancake/pancake_block.cc:350-384 | Returns the encoding of the old fields and leaves them stamped; the bitmap block has the same code |
| PayloadBlocks.PayloadBlock.Deserialize | src/datanode/storage/engine/pancake/pancake_block.cc:386-454 | Result and every field are those of the decoding function, in each error case too |
| PayloadBlocks.PayloadBlock.Zero | src/datanode/storage/engine/pancake/pancake_extent_mgr.cc:196-197 | A new block is all zero |
| JournalBlocks.JournalRoundTrip | src/datanode/storage/engine/pancake/pancake_block.cc:456-577 | The block has 4096 bytes and reads back, with every field, exactly when the reserved bytes are appended once; as written it is three bytes too long and refused |
| JournalBlocks.JournalWrittenAs | src/datanode/storage/engine/pancake/pancake_block.cc:456-496 | Byte by byte where each field of a journal block goes in both forms: length at 4070, extent id at 4072, transaction id at 4080, committed flag at 4088, then the reserved bytes, once or twice, and the CRC |
| JournalBlocks.JournalReadAs | src/datanode/storage/engine/pancake/pancake_block.cc:498-577 | Each result told by the bytes of the block, and each field told by the bytes it comes from |
| JournalBlocks.JournalCanonical | src/datanode/storage/engine/pancake/pancake_block.cc:498-577 | Which byte strings the journal reader accepts, and that each is the repaired encoding of what was read |
| JournalBlocks.JournalCorruptionRejected | src/datanode/storage/engine/pancake/pancake_block.cc:498-577 | Any change within four neighbouring bytes of an accepted journal block makes `Deserialize` fail, with the same one exception |
| JournalBlocks.JournalBlock.Serialize | src/datanode/storage/engine/pancake/pancake_block.cc:456-496 | Bytes and stamped fields in both forms, as `JournalWrittenAs` places them; the size assertion holds exactly in the repaired one |
| JournalBlocks.JournalBlock.ReadFooter | src/datanode/storage/engine/pancake/pancake_block.cc:520-572 | The footer, each field from the bytes that `JournalReadAs` names, and that a wrong magic leaves the rest of it alone |
| JournalBlocks.JournalBlock.Deserialize | src/datanode/storage/engine/pancake/pancake_block.cc:498-577 | Result and every field are those of the decoding function, which `JournalReadAs` tells by the bytes |
| ExtentHeaders.HeaderRoundTrip | src/datanode/storage/engine/pancake/pancake_block.cc:579-791 | With the code shard count read, reading back restores every field |
| ExtentHeaders.HeaderWrittenAs | src/datanode/storage/engine/pancake/pancake_block.cc:579-646 | Byte by byte where each field of a header and its CRC go |
| ExtentHeaders.HeaderReadAs | src/datanode/storage/engine/pancake/pancake_block.cc:648-791 | For both readers each result told by the bytes at the places where that reader looks, and each field told by its bytes |
| ExtentHeaders.HeaderAsWrittenIsUnreadable | src/datanode/storage/engine/pancake/pancake_block.cc:648-791 | As written no header that `Serialize` ever produced can be read back: the result is always the illegal magic |
| ExtentHeaders.HeaderCanonical | src/datanode/storage/engine/pancake/pancake_block.cc:648-791 | The blocks the repaired reader accepts, and that each is the encoding of what was read |
| ExtentHeaders.HeaderCorruptionRejected | src/datanode/storage/engine/pancake/pancake_block.cc:648-791 | Any change within four neighbouring bytes of a header the repaired reader accepts makes it refuse, with the same one exception |
| ExtentHeaders.ForeignAccepted | src/datanode/storage/engine/pancake/pancake_block.cc:648-791 | Other data, which the engine never wrote, the reader as written does accept, with any extent id |
| ExtentHeaders.StampedEncodesSame | src/datanode/storage/engine/pancake/pancake_block.cc:579-646 | The magic and CRC that `Serialize` stores in its own fields do not change what it writes |
| ExtentHeaders.DecodeForgets | src/datanode/storage/engine/pancake/pancake_extent_mgr.cc:128-139 | Result and fields read do not depend on what the uninitialised object held |
| ExtentHeaders.ExtentHeaderBlock.Serialize | src/datanode/storage/engine/pancake/pancake_block.cc:579-646 | Returns the encoding and stamps the fields |
| ExtentHeaders.ExtentHeaderBlock.ReadStart | src/datanode/storage/engine/pancake/pancake_block.cc:666-686 | Magic, version and shard counts; as written the code shard count is passed over without its byte |
| ExtentHeaders.ExtentHeaderBlock.ReadFields | src/datanode/storage/engine/pancake/pancake_block.cc:688-738 | The fields from the device id to the bitmap index, from wherever the cursor stands |
| ExtentHeaders.ExtentHeaderBlock.ReadFooter | src/datanode/storage/engine/pancake/pancake_block.cc:744-783 | The footer, and that a wrong magic leaves the rest of it alone |
| ExtentHeaders.ExtentHeaderBlock.Deserialize | src/datanode/storage/engine/pancake/pancake_block.cc:648-791 | Result and every field are those of the decoding function in both forms |
| SuperBlocks.SizeLimit | src/datanode/storage/engine/pancake/pancake_block.cc:9-82 | The block comes out at 4096 bytes exactly when the two strings have at most 3975 bytes |
| SuperBlocks.SuperRoundTrip | src/datanode/storage/engine/pancake/pancake_block.cc:9-241 | Within that limit reading back succeeds; all is restored exactly when no string is empty that was not empty in the object before |
| SuperBlocks.SuperWrittenAs | src/datanode/storage/engine/pancake/pancake_block.cc:9-82 | Byte by byte where each field goes, behind strings of any length, whose length fields have 16 bits |
| SuperBlocks.SuperReadAs | src/datanode/storage/engine/pancake/pancake_block.cc:84-241 | For every input the result told by the bytes, and each field told by its bytes or kept, by the room the lengths leave |
| SuperBlocks.NumbersByRoom | src/datanode/storage/engine/pancake/pancake_block.cc:152-228 | Each of the thirteen numbers is read, from its own bytes, exactly when the block has room for it, and otherwise kept |
| SuperBlocks.SuperCanonical | src/datanode/storage/engine/pancake/pancake_block.cc:84-241 | What an accepted super block is, up to its CRC, and that the whole block is the encoding exactly when the padding, which is not looked at, is zero |
| SuperBlocks.SuperBlock.Serialize | src/datanode/storage/engine/pancake/pancake_block.cc:9-82 | Bytes, stamped fields, and when the size assertion holds |
| SuperBlocks.SuperBlock.ReadString | src/datanode/storage/engine/pancake/pancake_block.cc:122-150 | One length-prefixed string: when it fits, where it ends, and that length zero keeps the old string |
| SuperBlocks.SuperBlock.ReadNumbers | src/datanode/storage/engine/pancake/pancake_block.cc:152-228 | The thirteen numbers: all of them exactly when the block has room, otherwise those before its end |
| SuperBlocks.SuperBlock.Deserialize | src/datanode/storage/engine/pancake/pancake_block.cc:84-241 | The result and every field for every input, also what is left behind when the lengths in the block leave no room |
| Devices.WriteThenRead | src/datanode/storage/engine/pancake/pancake_io.cc:24-65 | After a successful write the range reads back as written, and no other block has changed |
| Devices.WriteLeaves | src/datanode/storage/engine/pancake/pancake_io.cc:45-65 | For every write and whatever becomes of it: when it gets which code, and each block of the device after it |
| Devices.ReadGives | src/datanode/storage/engine/pancake/pancake_io.cc:24-43 | For every read: when it gets which code, and each block of what it appends |
| Devices.PancakeIO.ReadAt | src/datanode/storage/engine/pancake/pancake_io.cc:24-43 | Appends the whole range, or nothing with the reason: misaligned, or failed |
| Devices.PancakeIO.WriteAt | src/datanode/storage/engine/pancake/pancake_io.cc:45-65 | The device afterwards and the result, for a complete write and for one that fails after any number of blocks |
| Layouts.PancakeLayout.BuildLayout | src/datanode/storage/engine/pancake/pancake_layout.cc:7-45 | The assignments, wrap-around included, give the closed form of the layout: four blocks of padding, the super block alone in block 4, its backup alone in block 5, the bitmap from block 6 on with a byte for each extent and less than a block to spare |
| Layouts.ExtentBlockCount | src/datanode/storage/engine/pancake/pancake_layout.cc:63-65 | The number of extents is one less than the units of 4064 bytes as written, of 64 MB repaired, that the device has, in 32 bits |
| ExtentFrame.WritesOwnBlocks | src/datanode/storage/engine/pancake/pancake_extent_mgr.cc:78-105 | Every run leaves every block of the device as it was that is neither a bitmap block nor the header block of an extent |
| ExtentFrame.SuperBlocksStay | src/datanode/storage/engine/pancake/pancake_layout.cc:13-32 | On a device of any size, with either divisor, whether the layout tiles or not, no run writes blocks 0 to 5: padding, super block and backup |
| Layouts.TilesExactly | src/datanode/storage/engine/pancake/pancake_layout.cc:13-45 | The regions join up and fill the first 16384 blocks exactly when there are at most 66560192 extents; the bitmap always has a byte for each extent and no idle block |
| Layouts.RepairedLayout | src/datanode/storage/engine/pancake/pancake_layout.cc:7-65 | With 64 MB as divisor every device from 128 MB to the bitmap limit is tiled, its extents lie within it, and less than one extent is left over |
| Layouts.AsWrittenFitsExactly | src/datanode/storage/engine/pancake/pancake_layout.cc:63-65 | As written the extents lie within the device exactly for the sizes at the start of each turn of the 32-bit count after the first, given by an inequality in the size alone |
| Layouts.AsWrittenNeverFits | src/datanode/storage/engine/pancake/pancake_layout.cc:63-65 | As written that holds for no device of less than one turn, about 16 TB, and for all of 2^58 bytes or more |
| Layouts.AsWrittenSmallestDevice | src/datanode/storage/engine/pancake/pancake_layout.cc:63-65 | The concrete case: 128 MB are given 33025 extents |
| ExtentGeometry.InitGuard | src/datanode/storage/engine/pancake/pancake_extent_mgr.cc:14-31 | What `Init` lets pass has a bitmap block for every extent, although the product may wrap, and aligned offsets; what it refuses it refuses with one code, and up to 1056832 bitmap blocks exactly for what does not fit or is misaligned |
| ExtentGeometry.GuardExactly | src/datanode/storage/engine/pancake/pancake_extent_mgr.cc:14-17 | For aligned offsets the guard lets through exactly the counts that fit the bitmap, for every count, precisely when there are at most 1056832 bitmap blocks |
| ExtentGeometry.HeadersExactly | src/datanode/storage/engine/pancake/pancake_extent_mgr.cc:14-31 | Of what `Init` accepts, all headers are aligned and in blocks of their own exactly when there is at most one extent or the extent size, which `Init` does not look at, is a positive multiple of 4096; 64-bit addresses that wrap never meet |
| ExtentGeometry.BitmapApartExactly | src/datanode/storage/engine/pancake/pancake_extent_mgr.cc:237-248 | Of what `Init` accepts with such a size and without wrap-around, bitmap blocks and headers are apart exactly when the first extent that does not start before the bitmap starts behind it or does not exist |
| ExtentGeometry.NoBlocksNoExtents | src/datanode/storage/engine/pancake/pancake_extent_mgr.cc:14-17 | `Init` accepts zero bitmap blocks only for zero extents, so as written the cursor is never reduced modulo zero |
| ExtentGeometry.BitmapProduct | src/datanode/storage/engine/pancake/pancake_extent_mgr.cc:237-243 | The 32-bit product in the bitmap offset is exact for extents below 4261412864 and for no others, wherever the bitmap starts |
| ExtentGeometry.CloneRange | src/datanode/storage/engine/pancake/pancake_extent_mgr.cc:199-206 | The `int` bounds of the clone loop are in range for every extent exactly up to a count of 2147482624 |
| ExtentProtocol.CloneExactly | src/datanode/storage/engine/pancake/pancake_extent_mgr.cc:195-218 | Where its bounds are in range, clone and mark give the block of the changed bitmap exactly when the count is below 2^31 or nothing else in the block is used: from 2^31 on the count is negative as an `int` and the loop does not run |
| ExtentExactness.SecondAddErasesFirst | src/datanode/storage/engine/pancake/pancake_extent_mgr.cc:195-218 | The concrete case: `Init` accepts 2^31 extents, two adds succeed, and the second has erased the mark of the first on the device |
| ExtentGeometry.AddressesApart | src/datanode/storage/engine/pancake/pancake_extent_mgr.cc:237-248 | Headers lie at the starts of extents that do not overlap, bitmap blocks apart from them and from each other |
| ExtentGeometry.LayoutSeparates | src/datanode/storage/engine/pancake/pancake_extent_mgr.cc:12-31 | The layout of every supported device passes `Init`; each bitmap write falls in the bitmap region, each header at the start of an extent inside the device, all aligned |
| ExtentProtocol.LayoutConfigs | src/datanode/storage/engine/pancake/pancake.cc:62-63 | The manager as written and the one repaired can both run on what `BuildLayout` gives, with the divisor as written or with 64 MB, whenever the layout tiles; header blocks that lie beyond the device are allowed for in all theorems about runs |
| BitmapImages.ImageBits | src/datanode/storage/engine/pancake/pancake_extent_mgr.cc:195-218 | A bitmap block reads back as the entries it was made from, and as free past the last extent |
| BitmapImages.BitmapRoundTrip | src/datanode/storage/engine/pancake/pancake_extent_mgr.cc:195-239 | All bitmap blocks, decoded in order, give the bitmap back |
| BitmapImages.ImageExactly | src/datanode/storage/engine/pancake/pancake_extent_mgr.cc:195-218 | Two bitmaps have the same image of a block exactly when they agree on its entries |
| BitmapImages.ImageFooter | src/datanode/storage/engine/pancake/pancake_block.h:71-76 | The footer of every bitmap block that goes to the device, in literal bytes: magic, version 1, flag 0, length 4064, extent id 0, reserved zeros; and that it reads back so |
| BitmapImages.MarkIsUpdate | src/datanode/storage/engine/pancake/pancake_extent_mgr.cc:220-235 | Marking one byte of a clone is cloning the bitmap with that entry changed |
| NextFit.ScanFindsFirst | src/datanode/storage/engine/pancake/pancake_extent_mgr.cc:58-66 | The search stays inside the bitmap and stops at the first free slot going round from the cursor |
| NextFit.ScanComplete | src/datanode/storage/engine/pancake/pancake_extent_mgr.cc:58-70 | It finds a slot exactly when one below the modulus is free |
| NextFit.ScanBounds | src/datanode/storage/engine/pancake/pancake_extent_mgr.cc:58-66 | It never leaves the bitmap, whatever bits and cursor, exactly when the modulus does not exceed the number of extents |
| NextFit.PicksInOrder | src/datanode/storage/engine/pancake/pancake_extent_mgr.cc:57-70 | Adds without a delete between them take distinct free slots in cyclic order, within one round |
| ExtentExactness.AddTakesNextPick | src/datanode/storage/engine/pancake/pancake_extent_mgr.cc:43-113 | Each successful add takes the next slot of that order |
| ExtentOrder.AddsInOrder | src/datanode/storage/engine/pancake/pancake_extent_mgr.cc:57-112 | In every run, with any interleaving and any failed adds and deletes in between, the successful adds take their slots in cyclic order from the cursor on, and none again before the search has gone a whole round; if no delete succeeds, slots that were free at the start, each once |
| ExtentExactness.SearchDefinedExactly | src/datanode/storage/engine/pancake/pancake_extent_mgr.cc:58-66 | In every run with extents the search of an add is defined in every state exactly when the modulus is positive and at most their number, whatever else is repaired |
| ExtentExactness.LosesSearch | src/datanode/storage/engine/pancake/pancake_extent_mgr.cc:58-66 | The run that shows it otherwise: as many adds as there are extents, each with a header write that fails |
| ExtentExactness.InitAcceptsLostSearch | src/datanode/storage/engine/pancake/pancake_extent_mgr.cc:12-31 | The concrete case: `Init` accepts two bitmap blocks for one extent, and as written the second add leaves the bitmap |
| ExtentManagers.PancakeExtentManager.constructor | src/datanode/storage/engine/pancake/pancake_extent_mgr.h:18 | A new manager has no extents |
| ExtentManagers.PancakeExtentManager.Init | src/datanode/storage/engine/pancake/pancake_extent_mgr.cc:12-41 | When it fails nothing changes; when it succeeds the parameters are set, the map is empty, and bits that fit, cursor and counter are as before |
| ExtentManagers.InitAgain | src/datanode/storage/engine/pancake/pancake_extent_mgr.cc:34-38 | After a second `Init` map and bitmap still belong together exactly when no kept bit was set |
| ExtentManagers.MarkExtentBlockUsed | src/datanode/storage/engine/pancake/pancake_extent_mgr.cc:220-227 | Sets the lowest bit of the byte of that extent, in place, and nothing else |
| ExtentManagers.MarkExtentBlockUnused | src/datanode/storage/engine/pancake/pancake_extent_mgr.cc:229-235 | Clears it and nothing else |
| ExtentManagers.PancakeExtentManager.CloneBitMapBlock | src/datanode/storage/engine/pancake/pancake_extent_mgr.cc:195-218 | The loop, with `int` bounds, fills a new block with the entries of its bitmap block, zero beyond the last extent, and with nothing at all from 2^31 extents on; where the bounds overflow it is not defined |
| ExtentManagers.PancakeExtentManager.BitmapBlockWith | src/datanode/storage/engine/pancake/pancake_extent_mgr.cc:88-97 | Clone, mark, fill the footer, serialize: the image of what the clone loop sees with one entry changed, with the footer that `ImageFooter` gives in literal bytes |
| ExtentManagers.PancakeExtentManager.FindSlot | src/datanode/storage/engine/pancake/pancake_extent_mgr.cc:58-66 | The loop, with a 32-bit cursor that never overflows, gives the slot and the cursor of the search |
| ExtentManagers.PancakeExtentManager.WriteHeader | src/datanode/storage/engine/pancake/pancake_extent_mgr.cc:78-86 | The caller's header gets index, magics and CRC and keeps every other field (`IndexedSets`), and its encoding goes to the extent |
| ExtentOutcomes.IndexedSets | src/datanode/storage/engine/pancake/pancake_extent_mgr.cc:79-82 | The header an add writes is the caller's with the index, both magics and the CRC set and every other field as it came; stamping it again changes nothing |
| ExtentManagers.PancakeExtentManager.WriteBitmap | src/datanode/storage/engine/pancake/pancake_extent_mgr.cc:88-102 | The bitmap block of that entry, payload and footer (`ImageBits`, `ImageFooter`), goes to its place on the device |
| ExtentManagers.PancakeExtentManager.AddExtent | src/datanode/storage/engine/pancake/pancake_extent_mgr.cc:43-113 | Fields, device, caller's header and result are those of `AddCall`, whatever becomes of the two writes, wherever search and clone are defined; `AddTurnedAway`, `AddDecided` and `HeaderOnDevice` say what these are |
| ExtentOutcomes.AddTurnedAway | src/datanode/storage/engine/pancake/pancake_extent_mgr.cc:43-70 | An add of a known id gets `ExtentAlreadyExists`, or else one when the counter equals the count `FsFull`, and nothing at all changes, the cursor included; one that finds no slot gets the code error and moves the cursor alone; no other add gets these codes |
| ExtentOutcomes.AddDecided | src/datanode/storage/engine/pancake/pancake_extent_mgr.cc:72-112 | Any other add: memory, device and result are those of a header write and then a bitmap write at their places, memory changes only if both succeed, and the header that comes back is the caller's set for the slot |
| ExtentOutcomes.HeaderOnDevice | src/datanode/storage/engine/pancake/pancake_extent_mgr.cc:78-86 | In every geometry, once the header write of an add has landed the block on the device decodes to the header that comes back, unless the bitmap block lies in the same place |
| ExtentOrigins.HeadersBrought | src/datanode/storage/engine/pancake/pancake_extent_mgr.cc:43-113 | In every reached state the header block of each live extent decodes to the header of a task that has added it with success: the header that task came with, index, magics and CRC set and every other field as it came |
| ExtentManagers.PancakeExtentManager.StoreExtent | src/datanode/storage/engine/pancake/pancake_extent_mgr.cc:72-112 | The part from the header write on, for the slot that was found, as `AddDecided` says |
| ExtentManagers.PancakeExtentManager.CheckHeader | src/datanode/storage/engine/pancake/pancake_extent_mgr.cc:125-152 | The double check before a delete: read error, decode error, wrong id, or none, each told by the bytes of the block in `DeleteDecided` |
| ExtentManagers.PancakeExtentManager.DelExtent | src/datanode/storage/engine/pancake/pancake_extent_mgr.cc:115-175 | Fields, device and result are those of `DelCall`, whatever becomes of the read and the write and whatever the index, unless the checks pass with an index past the bitmap; `DeleteDecided` and `DeleteGoesOn` say what these are |
| ExtentOutcomes.DeleteDecided | src/datanode/storage/engine/pancake/pancake_extent_mgr.cc:115-152 | For every memory, device, header and transfer: a delete that changes anything or reports success has read, at the extent its index names, a block of 4096 bytes with both magics, a right CRC and the caller's id, each where the reader looks for it; otherwise nothing changes, and the result is told by the bytes |
| ExtentOutcomes.DeleteGoesOn | src/datanode/storage/engine/pancake/pancake_extent_mgr.cc:153-173 | A delete whose checks pass writes the bitmap block with the entry cleared to its place, and memory follows only if that succeeds |
| ExtentCalls.DeleteOutOfRange | src/datanode/storage/engine/pancake/pancake_extent_mgr.cc:125-171 | A delete with an index past the bitmap is defined exactly when it is refused, and then changes nothing |
| ExtentCalls.DeletePastLayout | src/datanode/storage/engine/pancake/pancake_extent_mgr.cc:125-135 | On a device laid out with 64 MB extents an index beyond the one that follows the last extent is refused at the lookup or the read, and nothing changes |
| ExtentManagers.PancakeExtentManager.CurrentAllocCount | src/datanode/storage/engine/pancake/pancake_extent_mgr.cc:183-187 | In every reached state: the number of set bits and of ids if the counter is kept and guarded, the balance of the calls that succeeded if it is kept, and zero as written |
| ExtentManagers.PancakeExtentManager.CurrentFreeCount | src/datanode/storage/engine/pancake/pancake_extent_mgr.cc:189-193 | In every reached state: what the set bits leave of the count if the counter is kept and guarded, and otherwise the count less that balance, in 32 bits |
| ExtentProtocol.Admit | src/datanode/storage/engine/pancake/pancake_extent_mgr.cc:46-70 | From the lock to the first write only the cursor moves, and an admitted extent has a new id and a free slot |
| ExtentCalls.AddCallRuns | src/datanode/storage/engine/pancake/pancake_extent_mgr.cc:43-113 | A whole `AddExtent` call, with any outcome of its writes, is a run of one task of the protocol with the same memory, device, header and result |
| ExtentCalls.DelCallRuns | src/datanode/storage/engine/pancake/pancake_extent_mgr.cc:115-175 | The same for `DelExtent`, with any index for which the call is defined |
| ExtentSerial.RunsAreSerial | src/datanode/storage/engine/pancake/pancake_extent_mgr.cc:46-174 | Any run of any interleaved tasks, careful or not, is a sequence of whole calls, one for each task that has ended, in the order in which the tasks end, each made with the header its task came with and defined where it is made: every task got the result and header its call gives in that sequence, and whenever the lock is free memory and device are exactly what the sequence leaves |
| ExtentViews.HeaderLands | src/datanode/storage/engine/pancake/pancake_extent_mgr.cc:78-86 | A header that reaches the device changes what the device says of its own extent and of nothing else |
| ExtentViews.BitmapLands | src/datanode/storage/engine/pancake/pancake_extent_mgr.cc:88-102 | A bitmap block that reaches the device sets the entries of its own block and changes nothing else |
| ExtentViews.InspectGood | src/datanode/storage/engine/pancake/pancake_extent_mgr.cc:125-152 | What a delete finds when it reads the header of a live extent: an illegal magic as written, otherwise whether the id is right |
| ExtentInvariant.InitialInv | src/datanode/storage/engine/pancake/pancake_extent_mgr.cc:34-40 | An empty manager on a device without extents satisfies the invariant |
| ExtentSteps.BeginKeeps | src/datanode/storage/engine/pancake/pancake_extent_mgr.cc:46-82 | Taking the lock and running to the first suspension keeps the invariant |
| ExtentSteps.LandKeeps | src/datanode/storage/engine/pancake/pancake_io.cc:45-65 | A write that reaches the device at any moment before it completes keeps it |
| ExtentSteps.FinishKeeps | src/datanode/storage/engine/pancake/pancake_extent_mgr.cc:82-173 | So does every completion, successful or not, of either call |
| ExtentSteps.StepKeeps | src/datanode/storage/engine/pancake/pancake_extent_mgr.cc:46-174 | So does every step of any task |
| ExtentSteps.RunKeeps | src/datanode/storage/engine/pancake/pancake_extent_mgr.cc:46-174 | So does every run |
| ExtentSafety.NoSharedExtent | src/datanode/storage/engine/pancake/pancake_extent_mgr.cc:46-112 | In every reachable state no slot is chosen by two tasks or while an extent lives there, the map is injective and its offsets are exactly those of the set bits, and each live extent has a header with its id and its index, intact as the repaired reader sees it |
| ExtentSafety.LiveHeadersStay | src/datanode/storage/engine/pancake/pancake_extent_mgr.cc:72-86 | No step changes a byte of the header block of a live extent, which is on the device |
| ExtentSafety.NeverStuck | src/datanode/storage/engine/pancake/pancake_extent_mgr.cc:46-174 | With the lock free any waiting task can begin; its holder can always go on with its transfer failing, and with it succeeding if its block is on the device and a delete has an index of the bitmap |
| ExtentSafety.CallsEnd | src/datanode/storage/engine/pancake/pancake_extent_mgr.cc:46-174 | No call holds the lock for ever: whatever the others do, its holder has ended, for good, after at most four steps other than arrivals |
| ExtentSafety.CrashImage | src/datanode/storage/engine/pancake/pancake_extent_mgr.cc:78-106 | Stop any run without failed bitmap writes after any step: the device marks exactly the extents before or after the operation in flight, each with a header of its own index, intact as the repaired reader sees it, and marks and headers describe that map |
| ExtentSafety.Disagreements | src/datanode/storage/engine/pancake/pancake_extent_mgr.cc:88-105 | Whatever fails, device and memory differ only at slots whose bitmap write failed or has landed and not completed, at no more than one slot of a block, and every mark on the device has a good header |
| ExtentSafety.NextWriteHeals | src/datanode/storage/engine/pancake/pancake_extent_mgr.cc:88-105 | The next bitmap write that succeeds brings its whole block into agreement |
| ExtentOwners.DeviceOwners | src/datanode/storage/engine/pancake/pancake_extent_mgr.cc:98-106 | In every run in which no id is added again after an add of it has ended with a failed write, no two slots marked on the device have headers that name one id, at any moment; a mark that memory lacks is that of a failed add or of the add under way |
| ExtentOwners.OnceIsFresh | src/datanode/storage/engine/pancake/pancake_extent_mgr.cc:43-45 | A run in which no id is added twice meets that condition |
| ExtentRetries.RetryExactly | src/datanode/storage/engine/pancake/pancake_extent_mgr.cc:43-113 | After such a run an add whose writes reach the device, a retry or not, and reported as failed or not, leaves the owners on the device unique exactly when every mark that memory lacks and that names its id lies in the bitmap block the add writes |
| ExtentRetries.RetryDuplicates | src/datanode/storage/engine/pancake/pancake_extent_mgr.cc:98-106 | The run that shows it otherwise: after a run that meets the condition, a failed id tried again in the next bitmap block |
| ExtentRetries.UniqueExactly | src/datanode/storage/engine/pancake/pancake_extent_mgr.cc:58-106 | With failed ids tried again at will, the owners on the device are unique in every reached state exactly when the modulus of the search is at most 4064, the entries of one bitmap block |
| ExtentAccounting.Conserved | src/datanode/storage/engine/pancake/pancake_extent_mgr.cc:183-193 | With the counter repaired it equals the number of set bits and of ids after every step, and used and free add up to the count |
| ExtentAccounting.NeverCounted | src/datanode/storage/engine/pancake/pancake_extent_mgr.cc:183-193 | As written the counter is always zero, and right exactly when there are no extents |
| ExtentAccounting.CounterBalances | src/datanode/storage/engine/pancake/pancake_extent_mgr.cc:115-193 | In every run, careful or not, the counter is the balance of the calls that succeeded, in 32 bits, if it is kept, and zero as written |
| ExtentAccounting.Capacity | src/datanode/storage/engine/pancake/pancake_extent_mgr.cc:52-70 | A new extent is turned away exactly when as many exist as the modulus allows or the counter equals the count: as full if the counter says so, and otherwise with the code error, which as written comes at one extent per bitmap block |
| ExtentAccounting.NothingFreed | src/datanode/storage/engine/pancake/pancake_extent_mgr.cc:115-175 | As written no run ever frees an extent or drops an id, whatever is deleted |
| ExtentExactness.MatchExactly | src/datanode/storage/engine/pancake/pancake_extent_mgr.cc:146-173 | A delete whose checks pass keeps map and marks in step exactly when its index is the one the map records |
| ExtentExactness.StaleHeaderDelete | src/datanode/storage/engine/pancake/pancake_extent_mgr.cc:146-173 | The run, with everything repaired, that shows why: a stale header passes the checks and leaves a slot in use without an owner |
| ExtentExactness.AddThenDelete | src/datanode/storage/engine/pancake/pancake_extent_mgr.cc:43-175 | An add and its delete restore all of memory but the cursor exactly when the header is readable and the id is removed; a delete that works leaves the bitmap block of before, as written it fails and changes nothing |
| ExtentExactness.OwnersExactly | src/datanode/storage/engine/pancake/pancake_extent_mgr.cc:119-173 | Extents keep an owner each in every run exactly when deletes remove the id, or headers cannot be read back |
| ExtentExactness.LosesOwner | src/datanode/storage/engine/pancake/pancake_extent_mgr.cc:170-173 | The run that shows it otherwise: one add and its delete |
| ExtentExactness.CountExactly | src/datanode/storage/engine/pancake/pancake_extent_mgr.cc:119-191 | The counter is right in every run exactly when it is kept, a missing id ends the delete, and ids are removed or headers cannot be read back |
| ExtentExactness.Miscounts | src/datanode/storage/engine/pancake/pancake_extent_mgr.cc:120-123 | For every other combination a run after which it is wrong |
| ExtentExactness.MiscountsTwice | src/datanode/storage/engine/pancake/pancake_extent_mgr.cc:120-123 | One add, or an add and two deletes of it, the second of which wraps the counter |
| ExtentExactness.MiscountsForeign | src/datanode/storage/engine/pancake/pancake_extent_mgr.cc:120-152 | With the reader as written, the delete of an unknown id where the device holds foreign data that passes for its header |

## Left out

- ExtentSafety.CrashImage: leaves out runs in which a bitmap write failed; what then holds is `Disagreements` and
  `NextWriteHeals`.
- ExtentExactness.AddThenDelete: up to the 2147482624 extents that the clone loop can serve.
- ExtentOutcomes.AddDecided: for layouts whose regions are apart and up to the 2147482624 extents that the clone loop
  can serve; `HeaderOnDevice` has neither limit.
- ExtentOutcomes.DeleteGoesOn: the same two limits, and an index of the bitmap; `DeleteDecided` has none of them.
- ExtentSerial.RunsAreSerial: the calls are in the order in which they end, which under the lock is also that in
  which they begin; the order in which callers wait for the lock is not modelled.
- ExtentRetries.RetryExactly: for adds whose two writes reach the device; one that gets less far changes no mark.
- ExtentGeometry.BitmapApartExactly: for regions whose addresses do not wrap around.
- Recovery: `Pancake::Mount` is empty in the source, so no code reads the bitmap back; what it would find is stated.
- The footers, the groups of header fields and the numbers of the super block are values assigned as a whole or field
  by field, not objects of their own; they have no aliases in the source.
- The bitmap of the manager is a sequence that its methods reassign, for `vector<bool>`.
- The captures by reference in the coroutine lambdas of `AddExtent` and `DelExtent`, and their lifetime; the lock is
  exclusive and fair scheduling is not assumed or shown.
- Aliasing of one caller's header by two concurrent adds: each has its own.
- `PancakeIO::Init`, DMA buffers and their alignment, short reads: a transfer works or fails.
- `MakeFS` beyond its call of `BuildLayout`: device probing and an unfinished loop.
- `Pancake::ReadAt`, `WriteAt` and what else has an empty body.
- RPC servers and callers, the RPC string serializer, `ManagerService`, `DataService`, `Config`, `DeviceFunctions`:
  plumbing and flat checks.
- Cache, statistics, the posix and SPDK engines, which are stubs, and logging.
