# page-db, modelled and proved in Dafny

page-db is a small storage stack: fixed-size checksummed pages over a flat file, a bounded
buffer pool with pins and a clock hand, and a page-id allocator whose free list lies as a
chain on the free pages themselves. This project models those parts and proves what each
one is for, and then what they promise together over one shared store.

- **CRC32C** (`Iteration`, `Register`, `Lfsr`, `Bytes`, `Crc32c`). The bit-at-a-time register
  with the reflected Castagnoli polynomial (the CRC32C of section 12.1 of RFC 3720) is the
  reference. The table-building loops, the slice-by-eight loop and the streaming accumulator
  are proved equal to it for every start state and every byte string.
- **What the checksum catches** (`Modular`, `Orbits`, `Mersenne`, `Period`, `Detection`,
  `PageIntegrity`, `FourFlips`, `ZeroedField`). For pages of every accepted size: any one, two or
  three flipped bits, any odd number of flipped bits, any change within 32 consecutive bits,
  and any change of one byte make `verify` fail; some four flipped bits do not. The two-bit case
  rests on the register's exact period, 2^31 - 1. That is computed by 26 squarings of the
  register state and shown minimal by proving that 2^31 - 1 has no proper divisor: `Orbits`
  counts a set along permutations of prime order, and `Mersenne` applies it to the residues
  modulo a divisor, scaled by 2 and by an element of order 331.
- **Page framing** (`Fields`, `Page`, `PageBuffer`): the header codecs and their byte order,
  stamping and verifying in place, which error a damaged page gets, and the round trips in both
  directions.
- **Positioned I/O** (`RawFile`, `PageFile`, `FileStore`): the loops that assemble a page from
  short and interrupted transfers, the file as a map of pages, and exactly when such a file is
  the kind of store the pool and the allocator rely on. What the operating system does next
  is a script of events, and every statement is for all scripts.
- **Buffer pool** (`Disk`, `PoolSystem`, `PoolInvariant`, `PoolTransparency`, `ClockSweep`,
  `SecondChance`, `FlushAll`, `PageStore`, `BufferPool`, `SplitWrite`). A step system has one
  holder of the core mutex and any number of guards that are borrowed and dropped at any moment,
  also in the middle of the clock sweep. Every step keeps the invariant and every run agrees with
  a plain map from ids to pages, including runs in which store reads fail and failed writes tear
  the slot. The class `BufferPool` is written as the source writes it, and each of its calls is
  proved to be a run of that system that reports an I/O error exactly when the store had one.
  `SecondChance` proves what the reference bits are for. `SplitWrite` takes the guard's `write`
  apart into its two instructions.
- **Allocator** (`Chain`, `FreeChain`, `PageAllocator`, `AllocatorRuns`): the free list and the chain it
  is persisted as, the walk that reads it back from any store contents at all, and the
  accounting of ids over every run.
- **Both over one store** (`Checkpoint`, `AfterCheckpoint`, `LateFlush`): histories in which pool,
  allocator and callers interleave and the allocator is opened anew from whatever they have
  written, the checkpoint, the restart after it, which later writes it survives, and what the
  others leave.

## Reading the model

- Integers are unbounded except where the width matters: `u64` is a range type, words and
  bytes are bit vectors, and `allocate` spells out the checked addition at the top of the range.
- In the step system `PageGuard::write` is one step: the dirty flag is set and the frame lock
  taken together. The source sets the flag (`src/pool.rs:411`) before it takes the lock
  (`src/pool.rs:413`), and `flush_slot` clears the flag under the lock (`src/pool.rs:319`).
  `SplitWrite` has the two instructions apart, with any run of other threads between them:
  the write is protected if and only if no flush of that frame, with nobody marking the frame
  after it, falls in between, and there is a run in which the write is lost. The theorems of
  the pool assume that nothing falls between the two.
- The layout table in `src/page.rs:14` says the checksum is taken with its own field zero. The code
  (`src/page.rs:408-413`) leaves the four bytes out instead. The model follows the code;
  `ZeroedField` proves exactly when the two give the same value, and that on a blank page of
  any size they do not.
- The pool and the allocator run over an abstract store (`PageStore`): a read returns the stored
  page or an error, and a failed write leaves its slot untouched or torn into anything. It counts
  its failures, and remembers what it held at the last successful `sync`. Its state is the pages
  that can be read back, so slots that merely come into being, as when a file grows past them, do
  not show. `FileStore` proves exactly when a file's write is such a store's write. It is not when
  zeros complete a torn tail of the file, which makes one more page readable: that is the act
  `Appearing` of `Checkpoint`, and harms no created page. Nor is it when two ids share a slot,
  which takes an id whose offset wraps: in a release build `byte_offset` is a product modulo 2^64,
  and at the default page size id 2^52 lies on page 0.
- In the class `BufferPool` the ghost map `guards` lists the live guards. `Flush` and `FlushAll`
  ask that the dirty pages they write are not borrowed, and `NewPage` and `GuardWrite` that the
  page they lock is not, which is what the source asks of a caller on the same thread
  (`src/pool.rs:245-246`).
- A page that was freed while its frame was dirty is written over its own link if it is flushed
  after the allocator's sync. `AfterCheckpoint` says exactly which writes do no harm and what
  the others leave on the store: no allocator at all, or another one, whose list goes on from
  the link that the page's first bytes happen to spell. `LateFlush` gives a permitted history for
  each. In the second, opening the allocator succeeds and it hands out an id that is still
  held. Opening is safe if and only if the list it finds and the held ids are disjoint, lie
  below the mark and are together one fewer than it. `FlushThenSync` flushes first, and opening
  right after it changes nothing.

## Model

| member | source | states |
|---|---|---|
| Lfsr.StepXor | src/checksum.rs:33-37 | One clock of the register is linear over exclusive or. |
| Lfsr.UnstepStep | src/checksum.rs:33-37 | A clock can be undone: bit 31 of the polynomial tells which branch was taken. |
| Lfsr.StepParity | src/checksum.rs:33-37 | A clock keeps the parity of the register, because the polynomial has 17 set bits. |
| Lfsr.CrcLinear | src/checksum.rs:28-39 | The register is linear and its clock injective; every general law is derived from this. |
| Lfsr.CrcParity | src/checksum.rs:61-80 | For all data the register's parity after reading is its parity before, flipped once per set bit. |
| Lfsr.CrcClockedWord | src/checksum.rs:66-67 | Mixing a word in and clocking reads its low bits one by one and shifts the rest down. |
| Crc32c.EntryExtends | src/checksum.rs:44-54 | The state of a byte after 8(k+2) zero-input clocks is one shift and one table look-up from that after 8(k+1). |
| Crc32c.EightClocks | src/checksum.rs:30-39 | The bit loop runs the register for eight clocks. |
| Crc32c.GenerateTables | src/checksum.rs:24-57 | The nested loops fill all eight tables: entry b of table k is the byte b after 8(k+1) zero-input clocks. |
| Crc32c.SliceFour | src/checksum.rs:67-70 | A word clocked past its own width is the exclusive or of one table entry per byte, at the right table for each. |
| Crc32c.SliceStepReads | src/checksum.rs:63-75 | One eight-byte step reads its 64 bits into the register, from any state. |
| Crc32c.ByteStepReads | src/checksum.rs:76-78 | One remainder step reads its eight bits. |
| Crc32c.Process | src/checksum.rs:61-80 | For every start state and all data, the slice-by-eight loops equal the bit-at-a-time register. |
| Crc32c.Accumulator.constructor | src/checksum.rs:116-118 | A fresh accumulator has read nothing. |
| Crc32c.Accumulator.Update | src/checksum.rs:122-124 | Feeding ranges one after another reads their concatenation. |
| Crc32c.Accumulator.Finalize | src/checksum.rs:129-131 | The result is the reference checksum of everything fed. |
| Crc32c.OneShot | src/checksum.rs:149-153 | The one-shot form is the reference checksum. |
| Crc32c.Streamed | src/checksum.rs:94-98 | Any split of the data into any number of updates gives the one-shot checksum. |
| Crc32c.ConcatJoins | src/checksum.rs:94-98 | The parts are joined in order: one part is itself, and two lists of parts give the one's bytes and then the other's. |
| Crc32c.CheckValue | src/checksum.rs:136-145 | The reference gives 0xE3069283 for the standard's test vector. |
| Period.MultiplyClocks | src/checksum.rs:28-39 | Multiplying a state by a 1 that was clocked k times clocks it 32 + k times. |
| Period.FullCycle | src/checksum.rs:18 | After 2^31 - 1 clocks a lone 1 is back. |
| Period.NoEarlyReturn | src/checksum.rs:18 | And not after any smaller positive number of clocks. |
| Detection.OddFlipsChange | src/checksum.rs:61-80 | An odd number of flipped input bits always changes the register. |
| Detection.TwoFlipsChange | src/checksum.rs:61-80 | Two flipped bits in up to 2^31 - 1 always change the register. |
| Detection.WindowChanges | src/checksum.rs:61-80 | Two different 32-bit inputs lead one state to different states. |
| Detection.BurstChanges | src/checksum.rs:61-80 | Any change confined to 32 consecutive bits changes the register. |
| PageIntegrity.ResidueIffChecksum | src/page.rs:352-354 | The stored field is right exactly when reading stream and field leaves the register at one fixed residue. |
| PageIntegrity.CodewordDistance | src/page.rs:408-413 | Reading the field after the rest moves bits but changes none. |
| PageIntegrity.OddFlipsRejected | src/page.rs:333-360 | Any odd number of flipped bits anywhere in a valid page, its checksum field included, is rejected. |
| PageIntegrity.FewFlipsRejected | src/page.rs:333-360 | Any one, two or three flipped bits anywhere in a valid page of any accepted size are rejected. |
| PageIntegrity.FewFlipsReported | src/page.rs:333-373 | They are reported as a checksum mismatch with both checksums, or by the header if they hit it, and never as a misdirected page, at any slot. |
| FourFlips.FourFlipsMissed | src/page.rs:333-360 | Three is the best possible: every valid page of every accepted size has a valid neighbour four payload bits away. |
| PageIntegrity.StreamBurstRejected | src/page.rs:333-360 | With the field untouched, any change within 32 consecutive bits of the checksummed stream is rejected. |
| PageIntegrity.BurstRejected | src/page.rs:333-360 | The same for 32 consecutive bits of the stream followed by the field. |
| PageIntegrity.FieldChangeRejected | src/page.rs:352-360 | With everything else untouched, any other value in the field is rejected. |
| PageIntegrity.ByteCorruptionRejected | src/page.rs:333-360 | Every corruption of a single byte, wherever it lies, is rejected. |
| ZeroedField.ZeroedFieldAgrees | src/page.rs:14 | Taking the field as zero gives the checksum the code computes if and only if the register, after the 24 bytes before the field, holds 0 or 0xFCA42DAF, the two states the clock does not move. |
| ZeroedField.BlankPageDiffers | src/page.rs:408-413 | On a blank page of any size the two readings of the format give different checksums. |
| Fields.ReadWrittenU64 | src/page.rs:426-452 | A 64-bit field reads back what was written. |
| Fields.WriteReadU64 | src/page.rs:426-452 | Writing the value of a 64-bit field reproduces its bytes. |
| Fields.U64BytesOrder | src/page.rs:450-452 | Byte k of a written 64-bit field is its value divided by 256^k, modulo 256. |
| Fields.ReadU64Order | src/page.rs:426-437 | A 64-bit field reads as v if and only if its bytes are those of v, the least significant first. |
| Fields.ReadWrittenU32 | src/page.rs:421-447 | A 32-bit field reads back what was written. |
| Fields.WriteReadU32 | src/page.rs:421-447 | Writing the value of a 32-bit field reproduces its bytes. |
| Page.AcceptedSizes | src/page.rs:148-153 | The sizes accepted are exactly the nine powers of two from 2^12 to 2^20 bytes. |
| Page.HeaderIs | src/page.rs:9-11 | A block has a valid header if and only if it starts with `PGDB` and the bytes 1 and 0. |
| Page.FieldsAt | src/page.rs:12-15 | Id and LSN are the little-endian numbers at bytes 8 and 16, the checksum the one at 24, the payload begins at 32. |
| Page.Verified | src/page.rs:333-373 | Whatever it returns fits the block, each error with the values found: a wrong magic whatever else is wrong, a wrong version under the right magic, a checksum mismatch under the right header, a misdirected page only if the page is intact. |
| Page.DiagnosisExact | src/page.rs:333-373 | No other outcome fits, for any block and any expected id. |
| Page.SealedFields | src/page.rs:303-308 | Writing a fresh checksum changes nothing else, and the checksum stays right afterwards. |
| Page.SealThenVerify | src/page.rs:238-308 | Every page with a valid header survives writing out and loading, with equal id, LSN and payload; no other page does. |
| Page.VerifyThenSeal | src/page.rs:238-308 | Every block that loads is reproduced byte for byte when written out again. |
| Page.StampKeeps | src/page.rs:321-330 | Stamping keeps the flags, the LSN, the reserved bytes and the payload. |
| Page.StampLayout | src/page.rs:321-330 | A stamped block byte by byte: `PGDB`, version 1, the flags, the id from byte 8 with the least significant byte first, the LSN, the checksum of all the rest, the rest. |
| Page.StampThenVerify | src/page.rs:321-373 | A stamped page is accepted at slot j exactly when j is the slot it was stamped for, with LSN and payload unchanged. |
| Page.StampTwice | src/page.rs:321-330 | Stamping again forgets the first stamp: the result is as if stamped once. |
| PageBuffer.BlankFields | src/page.rs:215-224 | A new page has a valid header, id 0, LSN 0 and a zero payload. |
| PageBuffer.BlankBytes | src/page.rs:313-318 | A blank page byte by byte: `PGDB`, version 1 and zeros. |
| PageFile.BlankContent | src/page.rs:313-318 | The blank page of the pool is what such a block holds: LSN 0, and a payload of zeros, 32 bytes shorter than the page. |
| PageBuffer.ComputeChecksum | src/page.rs:408-413 | The two ranges around the field give the checksum of their concatenation. |
| PageBuffer.PageBuf.constructor | src/page.rs:215-224 | The buffer starts as the blank page. |
| PageBuffer.PageBuf.Reset | src/page.rs:313-318 | Whatever the buffer held, it is the blank page again. |
| Page.WithLsnFields | src/page.rs:279-281 | The LSN reads back; every byte outside its field stays, and with it the header, the id and the payload. |
| PageBuffer.PageBuf.SetLsn | src/page.rs:279-281 | In place, the LSN becomes the one given; header, id and payload stay. |
| PageBuffer.PageBuf.WritePayload | src/page.rs:292-294 | Writing to the payload leaves the header alone. |
| PageBuffer.PageBuf.Stamp | src/page.rs:321-330 | In place, the buffer becomes the stamped block, the id at byte 8 with the least significant byte first and the checksum at 24. |
| PageBuffer.PageBuf.Verify | src/page.rs:333-373 | The outcome fits the block, the wrong magic first, then the version, the checksum and the id, each with the values found. |
| PageBuffer.PageBuf.ToChecksummedBytes | src/page.rs:303-308 | The block written out is the buffer with a fresh checksum. |
| PageBuffer.FromBytes | src/page.rs:238-252 | Loading fails on a wrong length, else succeeds exactly for intact blocks, and holds the same bytes. |
| PageBuffer.RoundTrip | src/page.rs:298-308 | Writing a page out and loading it gives an equal page. |
| RawFile.WriteAtTwice | src/sys.rs:50-66 | Two adjacent partial writes are one write of both. |
| RawFile.RawFile.ReadAtFull | src/sys.rs:36-47 | However the transfers are cut up or interrupted, the buffer holds exactly the bytes up to its length or the end of the file; the call fails exactly when the script makes it. |
| RawFile.RawFile.WriteAllAt | src/sys.rs:50-66 | All bytes land, or exactly those moved before a failed or zero-byte transfer; the call fails exactly when the script makes it. |
| RawFile.SendingExact | src/sys.rs:50-66 | A script makes a write succeed if and only if enough is moved before the first failed or empty transfer; else all that was moved before it landed. |
| RawFile.ReceivingWithin | src/sys.rs:36-47 | Where the file reaches far enough, a script makes a read succeed if and only if enough is moved before the first failed transfer. |
| RawFile.ReceivingPastEnd | src/sys.rs:36-47 | Where it ends first, if and only if a transfer finds its end before the first failed one. |
| PageFile.OffsetIsSlot | src/page.rs:75-77 | A wrapped offset is the offset of a slot, and that slot ends within 64 bits. |
| PageFile.SlotIsRemainder | src/page.rs:75-77 | The slot of an id is its remainder by the number of slots, so two ids share a slot exactly when their remainders agree. |
| PageFile.OwnSlotIff | src/page.rs:75-77 | An id has the slot of its own number if and only if its page ends within the range of offsets. |
| PageFile.FirstSharedId | src/page.rs:75-77 | The first id without one lands on page 0, for every page size; at 4096 bytes it is 2^52. |
| PageFile.WriteSpares | src/file.rs:231-241 | A whole or partial write to one slot changes no other complete slot. |
| PageFile.PageFile.PageCount | src/file.rs:157-160 | The numbers below the count are exactly those of complete slots. |
| PageFile.PageFile.ReadInto | src/file.rs:201-218 | For every id, wrapped offsets included: a read of an id written by a successful call, and whose slot no other id was written to since, returns the last LSN and payload written there or an I/O failure; other errors say what the slot holds. |
| PageFile.PageFile.WritePage | src/file.rs:231-241 | For every id, wrapped offsets included: the page is stamped in place and lands in its slot, or the slot is lost; every other complete slot keeps its bytes. |
| FileStore.PartialWriteTears | src/sys.rs:50-66 | Whatever prefix of a page lands, no page of another slot changes, except that zeros may complete a torn tail of the file; and the slot reads back for at most one of the ids that share it. |
| FileStore.WholeWriteExact | src/file.rs:231-241 | A complete write is the store's write of its own page and no other if and only if it does not skip a torn tail that zeros complete and no other id's page is in its slot. |
| FileStore.FarIdReplacesPageZero | src/page.rs:75-77 | A complete write of the first id without a slot of its own, 2^52 at the default size, leaves page 0 unreadable. |
| FileStore.TailCanHeal | src/file.rs:231-241 | At every page size a file can have such a tail: a blank page 0 torn one byte short, before page 1 is written. |
| FileStore.WholePagesNeverHeal | src/file.rs:231-241 | A file of whole pages has no such tail. |
| FileStore.ReadFile | src/store.rs:39-48 | Reading through a file meets the contract of the abstract store; a page of another size is refused. |
| FileStore.WriteFile | src/store.rs:50-57 | For every id, skipped slots, shared slots and torn writes included, a write is the store's write over the store as the file has grown, without the pages of other ids in its slot. |
| PoolInvariant.InitialInv | src/pool.rs:140-157 | A new pool over any store satisfies the invariant. |
| PoolInvariant.StepInv | src/pool.rs:191-422 | Every step of every thread, every error path included, keeps it: the map is injective, frames are mapped, free or taken and only one of them, pins count guards, a guard's page stays mapped, locks are exclusive. |
| PoolInvariant.RunInv | src/pool.rs:191-422 | So does every run. |
| PoolInvariant.UnpinnedUnlocked | src/pool.rs:375-422 | A frame without pins has no guards, so its lock is free. |
| PoolInvariant.GuardedIsPinned | src/pool.rs:418-422 | A live guard's frame is pinned, so dropping it cannot take the count below zero. |
| PoolInvariant.InstallErasesNoPin | src/pool.rs:301-312 | The overwrite `pin.store(1)` only ever replaces a zero. |
| PoolInvariant.EvictionNeverWaits | src/pool.rs:201-240 | Evicting a victim and filling a taken frame never wait for a page lock, in any interleaving. |
| SplitWrite.SplitWriteIff | src/pool.rs:410-415 | Whatever others do between setting the flag and taking the lock, the pool's invariant holds for the borrowed frame if and only if the flag survived. |
| SplitWrite.LostIffFlushedBetween | src/pool.rs:314-322 | With nobody else marking the frame, that is if and only if no flush of it falls in between. |
| SplitWrite.WriteLost | src/pool.rs:410-415 | Otherwise the write can be lost: a run in which the guard's write is what the pool shows until the frame is reused, and the old page after that. |
| PoolTransparency.StepView | src/pool.rs:191-422 | `new_page` blanks its own page, a guard write replaces its own page, and no other step changes any logical page. |
| PoolTransparency.RunView | src/pool.rs:191-422 | Over every run, what the pool shows for an id is what a plain map would hold. |
| PoolTransparency.GuardReadsView | src/pool.rs:398-402 | A guard reads the logical page it was handed out for, whatever happened in between. |
| ClockSweep.SweepExact | src/pool.rs:346-366 | Alone, the sweep stops at the cyclically first unpinned frame with a clear bit, else at the first unpinned frame, else finds nothing; the hand and the cleared bits are determined exactly. |
| ClockSweep.SweepFindsUnpinned | src/pool.rs:346-422 | With guards used and dropped in between, a sweep that began with an unpinned frame never gives up, and the frame it stops at is unpinned. |
| ClockSweep.ExhaustedMeansAllPinned | src/pool.rs:330-337 | Giving up means every frame was pinned when the sweep began. |
| SecondChance.BitMeansUsed | src/pool.rs:191-240 | Over every run a frame's reference bit says exactly whether it was handed out, by `fetch` or `new_page`, since the hand last passed it unpinned. |
| SecondChance.StepHand | src/pool.rs:346-366 | The hand moves on by one frame at every turn of a sweep and at no other step. |
| SecondChance.VictimWasUnused | src/pool.rs:346-366 | With guards used and dropped during the sweep, its victim had its bit clear when it began, if any unpinned frame had. |
| SecondChance.SecondChance | src/pool.rs:191-366 | A frame handed out since the hand last passed it is not the victim of the next sweep, unless every unpinned frame was referenced too. |
| FlushAll.FlushAllComplete | src/pool.rs:265-271 | In whatever order the map yields its pages, a complete flush leaves one and the same store, and every frame clean. |
| FlushAll.FlushAllRetry | src/pool.rs:259-271 | A failed flush leaves each page dirty or on the store. Whatever callers do next, a retry that succeeds leaves every page on the store as the plain map has it by then. |
| PageStore.PageStore.Read | src/store.rs:39-48 | A read returns the stored page or says why not, a missing page as a short read; an I/O error is counted as a fault, and only a fault is one. |
| PageStore.PageStore.Write | src/store.rs:50-57 | A write lands, or faults and may tear its own slot; unreadable slots may come into being elsewhere. |
| PageStore.PageStore.Sync | src/store.rs:59-64 | On success the contents are durable; a failure is a fault. |
| BufferPool.BufferPool.constructor | src/pool.rs:140-157 | As many frames as asked for but at least one, all of them free, blank, clean and unpinned, the hand at the first. |
| BufferPool.BufferPool.FindVictim | src/pool.rs:346-366 | The loop is exactly the sweep of the step system. |
| BufferPool.BufferPool.FlushSlot | src/pool.rs:314-322 | A dirty page reaches the store and is then marked clean; it fails exactly when the store faulted, and then only its slot may be torn. |
| BufferPool.BufferPool.EvictVictim | src/pool.rs:338-341 | The victim leaves the map only after it has been written back; it fails exactly when the store faulted. |
| BufferPool.BufferPool.TakeSlot | src/pool.rs:326-342 | A free frame, or the swept victim, or the error, with the state each leaves. |
| BufferPool.BufferPool.Install | src/pool.rs:301-312 | The frame belongs to the id, holds its page, and is pinned once and referenced. |
| BufferPool.BufferPool.Fetch | src/pool.rs:191-212 | One hit, or the steps of one miss and no others, changing no logical page. Success hands out the logical page, pinned and referenced; on a miss it is clean and in the last freed frame, or in the one the clock names if none is free. Exhaustion is reported exactly when every frame is pinned, an I/O error exactly when the store faulted, and any other error says how the page is missing or damaged. |
| BufferPool.BufferPool.NewPage | src/pool.rs:225-240 | One hit, or the steps of one miss and no others, changing no other logical page; success hands out LSN 0 and a payload of zeros, dirty, pinned and referenced, in the same choice of frame. On failure no logical page changes, and it fails exactly when every frame is pinned or the store faulted. |
| BufferPool.BufferPool.Flush | src/pool.rs:251-257 | A page that is not resident or not dirty changes nothing; else it reaches the store and is clean, or the store faulted and only its slot may be torn. No other stored page changes. |
| BufferPool.BufferPool.FlushAll | src/pool.rs:265-271 | On success every dirty page is on the store and clean, and nothing else changed; it fails exactly when the store faulted, and then no logical page changed. |
| BufferPool.BufferPool.Checkpoint | src/pool.rs:281-284 | The same, and on success the store as it then is is durable. |
| BufferPool.BufferPool.GuardWrite | src/pool.rs:410-415 | Taking the write guard marks the page dirty and changes no logical page. |
| BufferPool.BufferPool.PutPage | src/pool.rs:404-415 | Writing through it changes that page and no other. |
| BufferPool.BufferPool.GuardRead | src/pool.rs:398-402 | Reading returns the logical page. |
| BufferPool.BufferPool.DropGuard | src/pool.rs:418-422 | Dropping releases one pin and changes no logical page. |
| Chain.ChainUnique | src/alloc.rs:286-322 | A store determines at most one chain from any id. |
| Chain.ChainNoDuplicates | src/alloc.rs:305-311 | A chain visits no id twice and stays in range. |
| Chain.FewIds | src/alloc.rs:307-308 | Distinct ids below a bound are fewer than the bound, so the walk is bounded by the pages that exist. |
| Chain.WalkedPast | src/alloc.rs:295-315 | A walk that stops because it is too long, out of range or back at an id it has seen has no unreadable page before it within the bound. |
| Chain.WrittenChain | src/alloc.rs:254-264 | Writing the links of any list leaves the chain that jumps from each id to what follows its last occurrence. |
| Chain.WrittenChainExact | src/alloc.rs:254-264 | That chain is the list itself without duplicates, and strictly shorter with them. |
| FreeChain.SuperblockReads | src/alloc.rs:267-273 | Every superblock field reads back what was written. |
| FreeChain.SuperblockIs | src/alloc.rs:126-130 | A payload is taken for a superblock if and only if it starts with `PGSB` and the bytes 1 and 0. |
| FreeChain.SuperblockBytes | src/alloc.rs:34-43 | A superblock byte by byte: head, mark and count at 8, 16 and 24, least significant byte first, and zeros after them. |
| FreeChain.LinkPageBytes | src/alloc.rs:255-264 | A link page byte by byte: the next id at 0, least significant byte first, and zeros. |
| FreeChain.PersistedLayout | src/alloc.rs:249-275 | What lies on the store after persisting a list without duplicates: page 0 names the first free id, every free page the next one, and the last one the all-ones id. |
| FreeChain.DescribesUnique | src/alloc.rs:121-162 | A store describes at most one allocator. |
| FreeChain.PersistThenReopen | src/alloc.rs:121-322 | Persisting any list in range over any store describes exactly that list and mark, in order, if and only if it has no duplicates; otherwise nothing. |
| FreeChain.DuplicateShortensChain | src/alloc.rs:194-196 | With a duplicate the chain on the store is strictly shorter than the superblock claims. |
| FreeChain.PersistedElsewhere | src/alloc.rs:249-275 | Persisting touches page 0 and the free pages only. |
| PageAllocator.WalkFreeChain | src/alloc.rs:286-322 | On any store the walk returns the one chain of the claimed length if there is one and rejects otherwise: with an I/O error exactly if the store faulted, else with the store's own error exactly if the walk met an unreadable page within the claimed length, else with `InvalidSuperblock`. It reads at most min(count, mark - 1) pages. |
| PageAllocator.PageAllocator.Allocate | src/alloc.rs:174-189 | Refused exactly when the list is empty and the mark is at the top of the range, changing nothing; otherwise the last freed id, which leaves the list, or the mark, which moves on by one. |
| PageAllocator.PageAllocator.Free | src/alloc.rs:202-213 | Accepted exactly for ids from 1 up to the mark, and then last in the list; refused ids are named in the error and change nothing. |
| PageAllocator.PageAllocator.PersistSuperblock | src/alloc.rs:249-275 | On success the store is the persisted one; it fails exactly when the store faulted, and even then only page 0 and free pages may differ, page 0 only after all the links are written. |
| PageAllocator.PageAllocator.Sync | src/alloc.rs:239-245 | The same, and on success what is on the store is durable. |
| PageAllocator.Open | src/alloc.rs:121-162 | A store with a page 0 opens as the allocator it describes. An error other than I/O means it describes none, and is the store's own exactly if page 0 or a page of the chain cannot be read, else `InvalidSuperblock`; a store without a page 0 is initialised. An I/O error is reported exactly when the store faulted. |
| PageAllocator.PersistThenOpen | src/alloc.rs:121-275 | After a successful persist, opening gives exactly this list and mark, or with duplicates `InvalidSuperblock`, unless the store faults in between. |
| AllocatorRuns.RunKeeps | src/alloc.rs:174-213 | Over every run, reopening included, live ids and free list divide the ids below the mark, without overlap or repetition. |
| AllocatorRuns.FreedComesFirst | src/alloc.rs:174-213 | Allocating right after a free hands out that very id and restores the state. |
| AllocatorRuns.PartitionByCount | src/alloc.rs:121-162 | For any list of distinct ids below a mark, that they and the held ids divide the ids below it is a matter of counting: they are disjoint, the held ones lie below the mark, and together they are one fewer than it. |
| AllocatorRuns.HandedOutIsNew | src/alloc.rs:174-189 | An id handed out is not 0, not the sentinel and not held by anyone. |
| AllocatorRuns.NoDoubleHandOut | src/alloc.rs:174-213 | Between two times an id is handed out it was freed. |
| AllocatorRuns.RefusedOnlyWhenFull | src/alloc.rs:181-188 | Allocation is refused exactly when every id below the last one is in use. |
| Checkpoint.ReopeningSound | src/alloc.rs:121-162 | Opening the allocator anew from what the shared store describes by now keeps the stack sound if and only if the list found and the held ids are disjoint, lie below the mark and are together one fewer than it. |
| Checkpoint.AppearingSound | src/sys.rs:50-66 | A slot that becomes readable, with any page at all, keeps the stack sound and changes no created page. |
| Checkpoint.ActSound | README.md:115-136 | Pool steps, ledger events, openings and the allocator's writes straight to the store, interleaved, keep every created page as the plain map has it; the stack stays sound if and only if the act is not an unsafe opening. |
| Checkpoint.HistorySound | README.md:115-136 | Every state of a history of the whole stack is sound if and only if every opening in it was safe. |
| Checkpoint.CleanIsDormant | src/alloc.rs:239-275 | With every frame clean, no frame, guard or call in progress can write a page of the allocator's. |
| Checkpoint.FlushThenSync | README.md:130-132 | From any reachable state: if flush and sync succeed, every created page is on the store as the pool shows it, the store describes this allocator, all of it durably, and its pages are dormant; they fail exactly when the store faulted, and then nothing is lost. |
| Checkpoint.Restart | README.md:115-136 | A new pool and allocator over the checkpointed store show the same pages and the same allocator, unless the store faulted. |
| Checkpoint.Reopen | src/alloc.rs:121-162 | Reopening restores exactly the list and mark, or reports an I/O failure exactly when the store had one. |
| AfterCheckpoint.SlotAfterSync | src/alloc.rs:14-23 | Whatever lands in a slot, whole or torn, the store goes on describing the allocator if and only if the slot is not one of the allocator's or what lands says what was there. |
| AfterCheckpoint.StepAfterSync | src/pool.rs:251-342 | The same for every step of the pool, evictions and failed writes included. |
| AfterCheckpoint.RunAfterSync | src/pool.rs:191-422 | Over any run the checkpoint stays on the store throughout if and only if every write fits, freed ids reused or not. |
| AfterCheckpoint.ActAfterSync | README.md:115-136 | The same for every act of pool, callers and allocator. |
| AfterCheckpoint.HistoryAfterSync | README.md:115-136 | Over any history a checkpoint stays on the store throughout if and only if everything written fits it. |
| AfterCheckpoint.ReopeningAfterSync | src/alloc.rs:121-162 | While everything written fits, opening finds the checkpointed list and mark, and is safe exactly when they still fit the ids held. |
| AfterCheckpoint.ReopeningChangesNothing | src/alloc.rs:121-162 | With no id handed out or freed since either, opening changes nothing at all. |
| AfterCheckpoint.PageLeaves | src/alloc.rs:286-322 | A page landing on a free id leaves a store that describes exactly the lists that keep the free list up to that id and go on with the chain from the page's first bytes, if that chain has the length of the rest. |
| AfterCheckpoint.LossLeaves | src/alloc.rs:286-322 | A free page that can no longer be read leaves a store that describes nothing. |
| AfterCheckpoint.ElsewhereLeaves | src/alloc.rs:14-23 | What lands, whole or torn, in a slot that is not one of the allocator's leaves exactly the allocator described. |
| AfterCheckpoint.ReopenedAfterWrite | src/alloc.rs:121-162 | After such a page, opening is safe if and only if no held id is in the list it finds. |
| LateFlush.LateFlushLosesAllocator | src/alloc.rs:14-23 | A permitted history in which a page freed while dirty is flushed after the sync, and the store describes no allocator any more. |
| LateFlush.LateFlushSharesPage | src/alloc.rs:14-23 | Another in which the store then describes a different allocator, opening succeeds, and the next allocation hands out an id that is still held. |
| AfterCheckpoint.CheckpointSurvives | src/alloc.rs:239-275 | After a checkpoint, any pool traffic on other pages, with evictions and failed writes, leaves the allocator on the store. |

## Left out

- Opening files, Direct I/O flags and the durable flush calls (`src/sys.rs:96-203`): `sync` is a call that may fail, and otherwise makes the contents durable.
- `AlignedBuffer` and its raw allocation (`src/buffer.rs`): a page buffer is a byte array.
- Memory orderings, and interleavings inside a method that holds a mutex: such methods are steps, except that guards act between the turns of the clock sweep and between the parts of a miss.
- The split of `PageGuard::write` inside the class `BufferPool`: `GuardWrite` sets the flag and takes the lock in one call.
- Replacing a whole page through `PageMut`'s mutable dereference: guard writes change the LSN and the payload.
- A crash in the middle of `persist_superblock`: the source leaves recovery to the log above it; what is proved is that page 0 is written last, and the walk's soundness on arbitrary stores.
- Double frees as valid client behaviour: they appear only where the list has duplicates; clients in `AllocatorRuns` free ids they hold.
- Global deadlock freedom: a flush may wait for a page lock while holding the core mutex; only the eviction and filling paths are proved never to wait.
- Bursts that straddle the checksum field in page order: the field is read after the rest, so they are not consecutive there.
- PageFile.PageFile.ReadInto: a script of events is finite, so endless interruption is not modelled; the error does not carry the page size.
- PageStore.PageStore.Write: a write makes no other page readable; a file whose torn tail heals does, which is an act of its own in `Checkpoint`.
- The panic of a debug build when `byte_offset` overflows: the model wraps, as a release build does.
- Pool and allocator over a file for ids that share a slot: their store has one page for each id, which a file has for ids with slots of their own.
- BufferPool.BufferPool.NewPage: a resident page must not be borrowed, where the source would wait for the borrower.
- BufferPool.BufferPool.Flush: a dirty page must not be borrowed, where the source would wait for the borrower.
- BufferPool.BufferPool.FlushAll: the same for every dirty page.
- BufferPool.BufferPool.GuardWrite: the page must not be borrowed through another guard, where the source would wait.
- Checkpoint.FlushThenSync: no dirty page may be borrowed, as for `FlushAll`.
- Checkpoint.Restart: the same.
- PageAllocator.PageAllocator.Free: asks for fewer than 2^64 - 1 entries in the list, so that the count fits its field.
- Frames in the pool hold the LSN and payload of a page; that these and the stamped bytes determine each other is proved for `PageFile`.
- Builders, display, serde, error formatting, `sync` and `capacity` forwards, benchmarks and fuzz targets: they would add only easy members.
